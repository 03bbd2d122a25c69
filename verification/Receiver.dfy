/** The live receiver as the code runs it (congestion/live/receive.go): mutable cursors that are
    31-bit circular numbers, a packet list, and scans that leave early. It refines
    ReceiverSpec as long as the live numbers span less than half the circle. */
module Receiver {
  import opened Circular
  import opened Packets
  import opened ReceiverTheorems
  import Spec = ReceiverSpec

  lemma GapsStep(gaps: seq<Range>, list: seq<Entry>, i: nat, a: int)
    requires i < |list| && list[i].n > a + 1
    ensures gaps + Spec.Gaps(list, i, a)
            == gaps + [Range(a + 1, list[i].n - 1)] + Spec.Gaps(list, i + 1, list[i].n)
  {
  }

  class LiveReceiver {
    var maxSeen: Number
    var lastACK: Number
    var lastDelivered: Number
    var packetList: seq<Packet>
    var nPackets: nat
    var ackInterval: nat
    var nakInterval: nat
    var lastPeriodicACK: nat
    var lastPeriodicNAK: nat
    var stats: Spec.Stats

    // The same receiver over unbounded numbers.
    ghost var view: Spec.State

    ghost predicate Valid()
      reads this
    {
      Inv(view) && view.maxSeen - view.lastDelivered < WINDOW && Coupled()
    }

    ghost predicate Coupled()
      reads this
    {
      && maxSeen == SeqNum(view.maxSeen)
      && lastACK == SeqNum(view.lastACK)
      && lastDelivered == SeqNum(view.lastDelivered)
      && Held(packetList, view.list)
      && nPackets == view.nPackets
      && ackInterval == view.ackInterval && nakInterval == view.nakInterval
      && lastPeriodicACK == view.lastPeriodicACK && lastPeriodicNAK == view.lastPeriodicNAK
      && stats == view.stats
    }

    constructor (ghost initial: int, initialSequenceNumber: Number, ackInterval: nat, nakInterval: nat)
      requires initialSequenceNumber == SeqNum(initial)
      ensures Valid() && view == Spec.Init(initial, ackInterval, nakInterval)
    {
      var dec := Pred(initialSequenceNumber, initial);
      maxSeen, lastACK, lastDelivered := dec, dec, dec;
      packetList := [];
      this.ackInterval, this.nakInterval := ackInterval, nakInterval;
      nPackets, lastPeriodicACK, lastPeriodicNAK := 0, 0, 0;
      stats := Spec.Init(0, 0, 0).stats;
      view := Spec.Init(initial, ackInterval, nakInterval);
    }

    // p carries the number n; nak is the list passed to sendNAK, empty if it is not called.
    method Push(p: Packet, ghost n: int) returns (nak: seq<Number>)
      requires Valid() && p.seqno == SeqNum(n)
      requires Near(n, view.maxSeen) && Near(n, view.lastDelivered)
      modifies this
      ensures Valid()
      ensures view == Spec.Push(old(view), Entry(n, p)).s
      ensures nak == NakSent(Spec.Push(old(view), Entry(n, p)).outs)
    {
      PushKeepsInv(view, Entry(n, p));
      nak := PushLocked(p, n);
    }

    method PushLocked(p: Packet, ghost n: int) returns (nak: seq<Number>)
      requires Coupled() && p.seqno == SeqNum(n)
      requires Near(n, view.maxSeen) && Near(n, view.lastDelivered) && Near(n, view.lastACK)
      requires NearAll(view.list, n)
      modifies this
      ensures Coupled()
      ensures view == Spec.Push(old(view), Entry(n, p)).s
      ensures nak == NakSent(Spec.Push(old(view), Entry(n, p)).outs)
    {
      nak := [];
      nPackets := nPackets + 1;
      stats := Spec.Counted(stats, p);
      view := Spec.CountedIn(view, p);
      var belated := AtMost(p.seqno, lastDelivered, n, view.lastDelivered);
      if belated {
        // Too old, already delivered up to here.
        stats := Spec.Belated(stats, p);
        view := view.(stats := Spec.Belated(view.stats, p));
        return;
      }
      var acked := Below(p.seqno, lastACK, n, view.lastACK);
      if acked {
        stats := Spec.Dropped(stats, p);
        view := view.(stats := Spec.Dropped(view.stats, p));
        return;
      }
      var expected := Follows(p.seqno, maxSeen, n, view.maxSeen);
      var seen := AtMost(p.seqno, maxSeen, n, view.maxSeen);
      if expected {
        Append(p, n, 0);
      } else if seen {
        Fill(p, n);
      } else {
        // Too far ahead: report the gap at once.
        var from := Succ(maxSeen, view.maxSeen);
        var to := Pred(p.seqno, n);
        FlatSnoc([], Range(view.maxSeen + 1, n - 1));
        nak := [from, to];
        var distance := Span(p.seqno, maxSeen, n, view.maxSeen);
        Append(p, n, distance - 1);
      }
    }

    method Append(p: Packet, ghost n: int, lost: int)
      requires Coupled() && p.seqno == SeqNum(n)
      modifies this
      ensures Coupled() && view == Spec.Extend(old(view), Entry(n, p), lost)
    {
      HeldInsert(packetList, view.list, |packetList|, Entry(n, p));
      stats := stats.(pktLoss := stats.pktLoss + lost);
      maxSeen := p.seqno;
      stats := Spec.Buffered(stats, p);
      packetList := packetList + [p];
      view := Spec.Extend(view, Entry(n, p), lost);
    }

    // A number below the highest seen: it closes a gap, or has come before.
    method Fill(p: Packet, ghost n: int)
      requires Coupled() && p.seqno == SeqNum(n) && NearAll(view.list, n)
      modifies this
      ensures Coupled() && view == Spec.Fill(old(view), Entry(n, p))
    {
      var i, duplicate := FindPlace(p, n, view.list);
      if i < |packetList| {
        if duplicate {
          stats := Spec.Dropped(stats, p);
        } else {
          HeldInsert(packetList, view.list, i, Entry(n, p));
          stats := Spec.Late(stats, p);
          packetList := packetList[..i] + [p] + packetList[i..];
        }
      }
      view := Spec.Fill(view, Entry(n, p));
    }

    // The scan of the list for a packet that is out of order.
    method FindPlace(p: Packet, ghost n: int, ghost list: seq<Entry>) returns (i: nat, duplicate: bool)
      requires Held(packetList, list) && p.seqno == SeqNum(n) && NearAll(list, n)
      ensures i == Spec.Position(list, 0, n)
      ensures duplicate <==> i < |list| && list[i].n == n
    {
      i := 0;
      while i < |packetList|
        invariant i <= |packetList|
        invariant Spec.Position(list, 0, n) == Spec.Position(list, i, n)
      {
        SeqOrder(list[i].n, n);
        if packetList[i].seqno == p.seqno {
          return i, true;
        } else if Gt(packetList[i].seqno, p.seqno) {
          return i, false;
        }
        i := i + 1;
      }
      duplicate := false;
    }

    method PeriodicACK(now: nat) returns (ok: bool, ack: Number, lite: bool)
      requires Valid()
      modifies this
      ensures Valid()
      ensures view == Spec.PeriodicACK(old(view), now).s
      ensures ok <==> Spec.AckFires(old(view), now)
      ensures ok ==> AckSent(Spec.PeriodicACK(old(view), now).outs, ack, lite)
    {
      AckKeepsInv(view, now);
      ok, ack, lite := AckLocked(now);
    }

    method AckLocked(now: nat) returns (ok: bool, ack: Number, lite: bool)
      requires Coupled() && ListInWindow(view) && InWindow(view, view.lastACK)
      modifies this
      ensures Coupled()
      ensures view == Spec.PeriodicACK(old(view), now).s
      ensures ok <==> Spec.AckFires(old(view), now)
      ensures ok ==> AckSent(Spec.PeriodicACK(old(view), now).outs, ack, lite)
    {
      lite := false;
      if Spec.Elapsed(now, lastPeriodicACK) < ackInterval {
        if nPackets >= 64 {
          lite := true;
        } else {
          return false, lastACK, false;
        }
      }
      ghost var a;
      ack, a := FindAck(now, view);
      lastACK := ack;
      ack := Succ(ack, a);
      ok := true;
      lastPeriodicACK := now;
      nPackets := 0;
      view := Spec.PeriodicACK(view, now).s;
    }

    // Finds the sequence number up to which everything is in a row or due.
    method FindAck(now: nat, ghost v: Spec.State) returns (ack: Number, ghost a: int)
      requires Held(packetList, v.list) && lastACK == SeqNum(v.lastACK)
      requires ListInWindow(v) && InWindow(v, v.lastACK)
      ensures a == Spec.AckScan(v.list, 0, v.lastACK, now) && ack == SeqNum(a)
    {
      ack, a := lastACK, v.lastACK;
      var i := 0;
      while i < |packetList|
        invariant i <= |packetList|
        invariant ack == SeqNum(a) && InWindow(v, a)
        invariant Spec.AckScan(v.list, 0, v.lastACK, now) == Spec.AckScan(v.list, i, a, now)
      {
        var p := packetList[i];
        var skip := AtMost(p.seqno, ack, v.list[i].n, a);
        var next := Follows(p.seqno, ack, v.list[i].n, a);
        if skip {
          // Acknowledged before.
        } else if p.time <= now || next {
          ack, a := p.seqno, v.list[i].n;
        } else {
          break;
        }
        i := i + 1;
      }
    }

    method PeriodicNAK(now: nat) returns (list: seq<Number>)
      requires Valid()
      modifies this
      ensures Valid()
      ensures view == Spec.PeriodicNAK(old(view), now).s
      ensures list == NakSent(Spec.PeriodicNAK(old(view), now).outs)
    {
      if Spec.Elapsed(now, lastPeriodicNAK) < nakInterval {
        return [];
      }
      list := CollectGaps(view);
      lastPeriodicNAK := now;
      view := Spec.PeriodicNAK(view, now).s;
    }

    method CollectGaps(ghost v: Spec.State) returns (list: seq<Number>)
      requires Held(packetList, v.list) && lastACK == SeqNum(v.lastACK)
      requires ListInWindow(v) && InWindow(v, v.lastACK)
      ensures list == Flat(Spec.Gaps(v.list, 0, v.lastACK))
    {
      list := [];
      var ack := lastACK;
      ghost var a, gaps, all := v.lastACK, [], Spec.Gaps(v.list, 0, v.lastACK);
      assert [] + all == all;
      var i := 0;
      while i < |packetList|
        invariant i <= |packetList|
        invariant ack == SeqNum(a) && InWindow(v, a)
        invariant list == Flat(gaps)
        invariant all == gaps + Spec.Gaps(v.list, i, a)
      {
        var p := packetList[i];
        ghost var n := v.list[i].n;
        var skip := AtMost(p.seqno, ack, n, a);
        if !skip {
          var next := Follows(p.seqno, ack, n, a);
          if !next {
            var from := Succ(ack, a);
            var to := Pred(p.seqno, n);
            list := list + [from, to];
            ghost var gap := Range(a + 1, n - 1);
            FlatSnoc(gaps, gap);
            GapsStep(gaps, v.list, i, a);
            gaps := gaps + [gap];
          }
          ack, a := p.seqno, n;
        }
        i := i + 1;
      }
      assert gaps + [] == gaps;
    }

    // The last phase of Tick; `due` are the packets passed to deliver.
    method DeliverDue(now: nat) returns (due: seq<Packet>)
      requires Valid()
      modifies this
      ensures Valid()
      ensures view == Spec.DeliverDue(old(view), now).s
      ensures Handed(due, Spec.DeliverDue(old(view), now).outs)
    {
      DeliverKeepsInv(view, now);
      DeliveriesHanded(view, now, packetList);
      due := TakeDue(now);
    }

    method TakeDue(now: nat) returns (due: seq<Packet>)
      requires Coupled() && InWindow(view, view.lastACK) && ListInWindow(view)
      requires Ascending(view.lastDelivered, view.list)
      modifies this
      ensures Coupled()
      ensures |due| == Spec.DueCount(old(view).list, 0, old(view).lastACK, now)
      ensures due == old(packetList)[..|due|] && view == Spec.AfterDelivery(old(view), |due|)
    {
      ghost var v := view;
      var last := lastDelivered;
      due := CollectDue(now, v);
      if |due| != 0 {
        last := RemoveDue(|due|, last, v);
        // Nothing is left to count between the two.
        assert last == lastDelivered;
      }
      view := Spec.AfterDelivery(v, |due|);
    }

    method CollectDue(now: nat, ghost v: Spec.State) returns (due: seq<Packet>)
      requires Held(packetList, v.list) && lastACK == SeqNum(v.lastACK)
      requires ListInWindow(v) && InWindow(v, v.lastACK)
      modifies `stats, `lastDelivered
      ensures |due| == Spec.DueCount(v.list, 0, v.lastACK, now) && due == packetList[..|due|]
      ensures lastDelivered == if due == [] then old(lastDelivered) else packetList[|due| - 1].seqno
      ensures stats == old(stats).(buf := SubAll(old(stats).buf, v.list[..|due|]))
    {
      ghost var before, buf := stats, stats.buf;
      due := [];
      var i := 0;
      while i < |packetList|
        modifies `stats, `lastDelivered
        invariant i <= |packetList|
        invariant Spec.DueCount(v.list, 0, v.lastACK, now) == Spec.DueCount(v.list, i, v.lastACK, now)
        invariant stats == before.(buf := buf) && buf == SubAll(before.buf, v.list[..i])
        invariant lastDelivered == if i == 0 then old(lastDelivered) else packetList[i - 1].seqno
        invariant due == packetList[..i]
      {
        var p := packetList[i];
        var acked := AtMost(p.seqno, lastACK, v.list[i].n, v.lastACK);
        if !(acked && p.time <= now) {
          break;
        }
        Spec.SubAllStep(before.buf, v.list, i);
        stats := stats.(buf := Tally(stats.buf.pkts - 1, stats.buf.bytes - Len(p)));
        buf := stats.buf;
        lastDelivered := p.seqno;
        due := due + [p];
        i := i + 1;
      }
    }

    // Takes the first k packets out and counts the numbers that were skipped for good.
    method RemoveDue(k: nat, from: Number, ghost v: Spec.State) returns (last: Number)
      requires 0 < k <= |packetList| && Held(packetList, v.list)
      requires from == SeqNum(v.lastDelivered) && ListInWindow(v) && Ascending(v.lastDelivered, v.list)
      modifies `stats, `packetList
      ensures packetList == old(packetList)[k..]
      ensures last == SeqNum(v.list[k - 1].n)
      ensures stats == old(stats).(pktLost := old(stats).pktLost + Spec.Skipped(v.lastDelivered, v.list, k))
    {
      last := from;
      var j := 0;
      while j < k
        modifies `stats, `packetList
        invariant j <= k <= |v.list|
        invariant last == SeqNum(Spec.Before(v.lastDelivered, v.list, j))
        invariant packetList == old(packetList)[j..]
        invariant stats == old(stats).(pktLost := old(stats).pktLost + Spec.Skipped(v.lastDelivered, v.list, j))
      {
        var p := packetList[0];
        assert p == old(packetList)[j];
        var distance := Span(last, p.seqno, Spec.Before(v.lastDelivered, v.list, j), v.list[j].n);
        if distance > 1 {
          stats := stats.(pktLost := stats.pktLost + distance - 1);
        }
        last := p.seqno;
        packetList := packetList[1..];
        j := j + 1;
      }
    }

    // Tick with nothing in between its phases.
    method Tick(now: nat) returns (ok: bool, ack: Number, lite: bool, nak: seq<Number>, due: seq<Packet>)
      requires Valid()
      modifies this
      ensures Valid()
      ensures var acked := Spec.PeriodicACK(old(view), now);
              var asked := Spec.PeriodicNAK(acked.s, now);
              var drained := Spec.DeliverDue(asked.s, now);
              && view == drained.s
              && (ok <==> Spec.AckFires(old(view), now)) && (ok ==> AckSent(acked.outs, ack, lite))
              && nak == NakSent(asked.outs) && Handed(due, drained.outs)
      ensures ok ==> packetList == [] || packetList[0].time > now
    {
      ghost var before := view;
      ok, ack, lite := PeriodicACK(now);
      nak := PeriodicNAK(now);
      due := DeliverDue(now);
      if ok {
        TickDrains(before, now);
      }
    }

    method SetNAKInterval(interval: nat)
      requires Valid()
      modifies this
      ensures Valid() && view == old(view).(nakInterval := interval)
    {
      nakInterval := interval;
      view := view.(nakInterval := interval);
    }
  }

  lemma DeliveriesHanded(v: Spec.State, now: nat, ps: seq<Packet>)
    requires Held(ps, v.list)
    ensures Handed(ps[..Spec.DueCount(v.list, 0, v.lastACK, now)], Spec.DeliverDue(v, now).outs)
  {
    var k := Spec.DueCount(v.list, 0, v.lastACK, now);
    forall i | 0 <= i < k ensures Spec.DeliverDue(v, now).outs[i] == Spec.Deliver(v.list[i], now) {
      Spec.DeliveriesAt(v.list[..k], now, i);
    }
  }

  // n lies between the last number delivered and the highest seen, both closer than WINDOW.
  ghost predicate InWindow(v: Spec.State, n: int) {
    v.lastDelivered <= n <= v.maxSeen && v.maxSeen - v.lastDelivered < WINDOW
  }

  ghost predicate ListInWindow(v: Spec.State) {
    forall i :: 0 <= i < |v.list| ==> InWindow(v, v.list[i].n)
  }

  ghost predicate Ascending(prev: int, list: seq<Entry>) {
    Sorted(list) && (list != [] ==> prev < list[0].n)
  }

  ghost function NakSent(outs: seq<Spec.Output>): seq<Number> {
    if |outs| == 1 && outs[0].SendNAK? then Flat(outs[0].ranges) else []
  }

  ghost predicate AckSent(outs: seq<Spec.Output>, ack: Number, lite: bool) {
    |outs| == 1 && outs[0].SendACK? && ack == SeqNum(outs[0].n) && lite == outs[0].lite
  }

  ghost predicate Handed(ps: seq<Packet>, outs: seq<Spec.Output>) {
    |ps| == |outs| && forall i :: 0 <= i < |ps| ==> outs[i].Deliver? && outs[i].e.p == ps[i]
  }
}
