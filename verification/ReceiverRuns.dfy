/** Safety and conservation over whole runs of the live receiver. */
module ReceiverRuns {
  import opened Packets
  import opened ReceiverSpec
  import opened ReceiverTheorems

  // The packets handed to the application, in order.
  function Delivered(outs: seq<Output>): seq<Entry> {
    if outs == [] then []
    else
      var before := Delivered(outs[..|outs| - 1]);
      match outs[|outs| - 1]
      case Deliver(e, _) => before + [e]
      case _ => before
  }

  lemma {:induction false} DeliveredConcat(a: seq<Output>, b: seq<Output>)
    ensures Delivered(a + b) == Delivered(a) + Delivered(b)
  {
    if b == [] {
      assert a + b == a;
    } else {
      assert (a + b)[..|a + b| - 1] == a + b[..|b| - 1];
      DeliveredConcat(a, b[..|b| - 1]);
    }
  }

  lemma {:induction false} DeliveredDeliveries(es: seq<Entry>, now: nat)
    ensures Delivered(Deliveries(es, now)) == es
  {
    if es != [] {
      var outs, last := Deliveries(es, now), |es| - 1;
      assert outs[..last] == Deliveries(es[..last], now);
      DeliveredDeliveries(es[..last], now);
      assert es == es[..last] + [es[last]];
    }
  }

  lemma StepDelivers(s: State, ev: Event)
    ensures Delivered(Next(s, ev).outs) ==
            if ev.TickDeliver? then s.list[..DueCount(s.list, 0, s.lastACK, ev.now)] else []
  {
    var outs := Next(s, ev).outs;
    if ev.TickDeliver? {
      DeliveredDeliveries(s.list[..DueCount(s.list, 0, s.lastACK, ev.now)], ev.now);
    } else {
      assert |outs| <= 1;
      assert outs != [] ==> outs[..0] == [];
    }
  }

  // ---------- conservation ----------

  /** Every packet received is dropped or unique, every unique one is delivered or buffered, and
      every number passed by a cursor is accounted for. */
  ghost predicate Accounts(initial: int, s: State, d: seq<Entry>) {
    var st := s.stats;
    && st.all.pkts == st.unique.pkts + st.drop.pkts
    && st.all.bytes == st.unique.bytes + st.drop.bytes
    && st.unique.pkts == |d| + st.buf.pkts
    && st.unique.bytes == Bytes(d) + st.buf.bytes
    && s.maxSeen - (initial - 1) == st.unique.pkts - st.late.pkts + st.pktLoss
    && s.lastDelivered - (initial - 1) == |d| + st.pktLost
  }

  lemma {:induction false} SkippedTelescopes(prev: int, list: seq<Entry>, k: nat)
    requires Sorted(list) && k <= |list| && (list != [] ==> prev < list[0].n)
    ensures Skipped(prev, list, k) == Before(prev, list, k) - prev - k
  {
    if k > 0 {
      SkippedTelescopes(prev, list, k - 1);
    }
  }

  lemma PushAccounts(initial: int, s: State, e: Entry, d: seq<Entry>)
    requires Inv(s) && Accounts(initial, s, d)
    ensures Accounts(initial, Push(s, e).s, d)
  {
    if s.lastDelivered < e.n <= s.maxSeen {
      OutOfOrderScanEnds(s, e);
    }
  }

  lemma DeliverAccounts(initial: int, s: State, now: nat, d: seq<Entry>)
    requires Inv(s) && Accounts(initial, s, d)
    ensures Accounts(initial, DeliverDue(s, now).s, d + s.list[..DueCount(s.list, 0, s.lastACK, now)])
  {
    var due := s.list[..DueCount(s.list, 0, s.lastACK, now)];
    BytesConcat(d, due);
    SkippedTelescopes(s.lastDelivered, s.list, |due|);
    assert due == [] ==> d + due == d;
  }

  // ---------- order and timing ----------

  /** Deliveries are in strictly increasing order and never early; ACKs never go back; and no
      NAK names a number below an ACK sent before it. */
  ghost predicate Orderly(s: State, outs: seq<Output>) {
    && Sorted(Delivered(outs))
    && (forall e :: e in Delivered(outs) ==> e.n <= s.lastDelivered)
    && (forall i :: 0 <= i < |outs| && outs[i].Deliver? ==> outs[i].e.p.time <= outs[i].now)
    && (forall i :: 0 <= i < |outs| && outs[i].SendACK? ==> outs[i].n <= s.lastACK + 1)
    && (forall i, j :: 0 <= i < j < |outs| && outs[i].SendACK? && outs[j].SendACK? ==> outs[i].n <= outs[j].n)
    && (forall i, j :: 0 <= i < j < |outs| && outs[i].SendACK? && outs[j].SendNAK? ==>
        NamesFrom(outs[j].ranges, outs[i].n))
  }

  ghost predicate NamesFrom(rs: seq<Range>, n: int) {
    forall i :: 0 <= i < |rs| ==> n <= rs[i].lo <= rs[i].hi
  }

  /** What a step may hand to the callbacks. */
  ghost predicate Advances(s: State, t: Step) {
    && s.lastACK <= t.s.lastACK
    && s.lastDelivered <= t.s.lastDelivered
    && (forall i :: 0 <= i < |t.outs| && t.outs[i].SendNAK? ==> NamesFrom(t.outs[i].ranges, s.lastACK + 1))
    && (forall i :: 0 <= i < |t.outs| && t.outs[i].SendACK? ==> |t.outs| == 1 && t.outs[i].n == t.s.lastACK + 1)
    && (forall i :: 0 <= i < |t.outs| && t.outs[i].Deliver? ==> t.outs[i].e.p.time <= t.outs[i].now)
  }

  lemma StepAdvances(s: State, ev: Event)
    requires Inv(s)
    ensures Advances(s, Next(s, ev))
  {
    match ev
    case TickACK(now) => if AckFires(s, now) { AckIsAckPoint(s, now); }
    case TickNAK(now) => GapsSeparated(s.list, 0, s.lastACK);
    case TickDeliver(now) => DeliverOnTime(s, now);
    case _ =>
  }

  lemma DeliverOnTime(s: State, now: nat)
    requires Inv(s)
    ensures Advances(s, DeliverDue(s, now))
  {
    var k, outs := DueCount(s.list, 0, s.lastACK, now), DeliverDue(s, now).outs;
    DueCountStops(s.list, 0, s.lastACK, now);
    forall i | 0 <= i < |outs| ensures outs[i].Deliver? && outs[i].e.p.time <= outs[i].now {
      DeliveriesAt(s.list[..k], now, i);
    }
  }

  lemma SortedConcat(a: seq<Entry>, b: seq<Entry>, mid: int)
    requires Sorted(a) && (forall e :: e in a ==> e.n <= mid)
    requires Sorted(b) && (forall e :: e in b ==> mid < e.n)
    ensures Sorted(a + b)
  {
    forall i, j | 0 <= i < j < |a + b| ensures (a + b)[i].n < (a + b)[j].n {
      if i < |a| <= j {
        assert a[i] in a && b[j - |a|] in b;
      }
    }
  }

  lemma PrefixBounded(list: seq<Entry>, lo: int, k: nat)
    requires Sorted(list) && 0 < k <= |list| && lo < list[0].n
    ensures Sorted(list[..k])
    ensures forall e :: e in list[..k] ==> lo < e.n <= list[k - 1].n
  {
  }

  lemma DeliverSorted(s: State, now: nat, d: seq<Entry>)
    requires Inv(s) && Sorted(d) && (forall e :: e in d ==> e.n <= s.lastDelivered)
    ensures var due := s.list[..DueCount(s.list, 0, s.lastACK, now)];
            && Sorted(d + due)
            && (forall e :: e in d + due ==> e.n <= DeliverDue(s, now).s.lastDelivered)
  {
    var k := DueCount(s.list, 0, s.lastACK, now);
    if k > 0 {
      PrefixBounded(s.list, s.lastDelivered, k);
      SortedConcat(d, s.list[..k], s.lastDelivered);
    } else {
      assert d + s.list[..0] == d;
    }
  }

  lemma StepOrderly(s: State, ev: Event, outs: seq<Output>)
    requires Inv(s) && Orderly(s, outs)
    ensures Orderly(Next(s, ev).s, outs + Next(s, ev).outs)
  {
    var t, d := Next(s, ev), Delivered(outs);
    StepAdvances(s, ev);
    StepDelivers(s, ev);
    DeliveredConcat(outs, t.outs);
    assert Sorted(d + Delivered(t.outs)) && forall e :: e in d + Delivered(t.outs) ==> e.n <= t.s.lastDelivered by {
      if ev.TickDeliver? {
        DeliverSorted(s, ev.now, d);
      } else {
        assert d + [] == d;
      }
    }
    OrderlyExtends(s, outs, t);
  }

  lemma OrderlyExtends(s: State, outs: seq<Output>, t: Step)
    requires Orderly(s, outs) && Advances(s, t)
    requires Sorted(Delivered(outs + t.outs)) && forall e :: e in Delivered(outs + t.outs) ==> e.n <= t.s.lastDelivered
    ensures Orderly(t.s, outs + t.outs)
  {
    var all := outs + t.outs;
    forall i, j | 0 <= i < j < |all| && all[i].SendACK? && all[j].SendNAK? ensures NamesFrom(all[j].ranges, all[i].n) {
      if j >= |outs| {
        assert NamesFrom(t.outs[j - |outs|].ranges, s.lastACK + 1);
      }
    }
  }

  // ---------- provenance ----------

  ghost predicate Arrived(evs: seq<Event>, es: seq<Entry>) {
    forall e :: e in es ==> Arrive(e) in evs
  }

  lemma StepArrived(s: State, ev: Event, evs: seq<Event>)
    requires Arrived(evs, s.list)
    ensures Arrived(evs + [ev], Next(s, ev).s.list) && Arrived(evs + [ev], Delivered(Next(s, ev).outs))
  {
    StepDelivers(s, ev);
  }

  // ---------- runs ----------

  lemma StepAccounts(initial: int, s: State, ev: Event, d: seq<Entry>)
    requires Inv(s) && Accounts(initial, s, d)
    ensures Accounts(initial, Next(s, ev).s, d + Delivered(Next(s, ev).outs))
  {
    StepDelivers(s, ev);
    assert d + [] == d;
    match ev
    case Arrive(e) => PushAccounts(initial, s, e, d);
    case TickDeliver(now) => DeliverAccounts(initial, s, now, d);
    case _ =>
  }

  ghost predicate Good(initial: int, evs: seq<Event>, r: Step) {
    && Inv(r.s)
    && Accounts(initial, r.s, Delivered(r.outs))
    && Orderly(r.s, r.outs)
    && Arrived(evs, r.s.list)
    && Arrived(evs, Delivered(r.outs))
  }

  lemma StepGood(initial: int, evs: seq<Event>, r: Step)
    requires evs != [] && Good(initial, evs[..|evs| - 1], r)
    ensures Good(initial, evs, Then(r, evs[|evs| - 1]))
  {
    var before, ev := evs[..|evs| - 1], evs[|evs| - 1];
    assert evs == before + [ev];
    DeliveredConcat(r.outs, Next(r.s, ev).outs);
    NextKeepsInv(r.s, ev);
    StepAccounts(initial, r.s, ev, Delivered(r.outs));
    StepOrderly(r.s, ev, r.outs);
    StepArrived(r.s, ev, before);
  }

  /** Every run from a fresh receiver, whatever arrives and however Push and the phases of Tick
      interleave, is good. */
  lemma {:induction false} RunSafe(initial: int, ackInterval: nat, nakInterval: nat, evs: seq<Event>)
    ensures Good(initial, evs, Run(Init(initial, ackInterval, nakInterval), evs))
  {
    if evs != [] {
      var before := evs[..|evs| - 1];
      RunSafe(initial, ackInterval, nakInterval, before);
      StepGood(initial, evs, Run(Init(initial, ackInterval, nakInterval), before));
    }
  }

  /** Once number n has been acknowledged, no packet below n enters the buffer any more. */
  lemma AckedIsClosed(initial: int, ackInterval: nat, nakInterval: nat, evs: seq<Event>, i: nat, e: Entry)
    requires var r := Run(Init(initial, ackInterval, nakInterval), evs); i < |r.outs| && r.outs[i].SendACK?
    ensures var r := Run(Init(initial, ackInterval, nakInterval), evs);
            Push(r.s, e).s.list != r.s.list ==> e.n >= r.outs[i].n
  {
    RunSafe(initial, ackInterval, nakInterval, evs);
    var s := Run(Init(initial, ackInterval, nakInterval), evs).s;
    if e.n == s.lastACK && s.lastDelivered < e.n {
      var k := Position(s.list, 0, e.n);
      var j :| 0 <= j < |s.list| && s.list[j].n == e.n;
      assert j == k;
    }
  }
}
