/** What each operation of the live receiver does, said of its effect: what it takes in, what it
    reports at once, what it counts, and when it acknowledges and reports losses. */
module ReceiverExact {
  import opened Packets
  import opened ReceiverSpec
  import opened ReceiverTheorems
  import opened ReceiverRuns

  // ---------- Push: the buffer ----------

  // The packet is taken into the buffer: not delivered, not passed by an ACK, and new.
  ghost predicate TakenIn(s: State, e: Entry) {
    s.lastDelivered < e.n && s.lastACK <= e.n && !Has(s.list, e.n)
  }

  lemma InInserted(list: seq<Entry>, k: nat, e: Entry, x: Entry)
    requires k <= |list|
    ensures x in list[..k] + [e] + list[k..] <==> x == e || x in list
  {
    assert list == list[..k] + list[k..];
  }

  lemma PositionHas(list: seq<Entry>, n: int)
    requires Sorted(list)
    ensures var k := Position(list, 0, n); Has(list, n) <==> k < |list| && list[k].n == n
  {
    var k := Position(list, 0, n);
    if Has(list, n) {
      var j :| 0 <= j < |list| && list[j].n == n;
      assert !(j < k);
      assert !(k < j);
    }
  }

  /** An arriving packet changes the buffer exactly by itself, if it is taken in; the cursors for
      ACKs and deliveries stay, and the highest number seen is the higher one. */
  lemma PushBuffersExactly(s: State, e: Entry)
    requires Inv(s)
    ensures var t := Push(s, e).s;
            && (forall x :: x in t.list <==> x in s.list || (x == e && TakenIn(s, e)))
            && t.lastACK == s.lastACK && t.lastDelivered == s.lastDelivered
            && t.maxSeen == if e.n > s.maxSeen then e.n else s.maxSeen
  {
    var k, t := Position(s.list, 0, e.n), Push(s, e).s;
    PositionHas(s.list, e.n);
    if s.lastDelivered < e.n && s.lastACK <= e.n <= s.maxSeen {
      OutOfOrderScanEnds(s, e);
      forall x ensures x in s.list[..k] + [e] + s.list[k..] <==> x == e || x in s.list {
        InInserted(s.list, k, e, x);
      }
    } else if e.n > s.maxSeen {
      assert t.list == s.list + [e];
    }
  }

  // ---------- Push: the loss list ----------

  /** A packet ahead of the next one reports exactly the numbers skipped, at once; any other packet
      reports nothing. */
  lemma PushReportsExactly(s: State, e: Entry)
    requires Inv(s)
    ensures var outs := Push(s, e).outs;
            if e.n > s.maxSeen + 1 then
              && |outs| == 1 && outs[0].SendNAK? && Separated(outs[0].ranges)
              && forall k :: Covered(outs[0].ranges, k) <==> s.maxSeen < k < e.n
            else outs == []
  {
    if e.n > s.maxSeen + 1 {
      var ranges := Push(s, e).outs[0].ranges;
      forall k ensures Covered(ranges, k) <==> s.maxSeen < k < e.n {
        if s.maxSeen < k < e.n {
          assert InRange(k, ranges[0]);
        }
      }
    }
  }

  ghost predicate ArrivedNumber(evs: seq<Event>, n: int) {
    exists i :: 0 <= i < |evs| && evs[i].Arrive? && evs[i].e.n == n
  }

  ghost predicate Reported(outs: seq<Output>, n: int) {
    exists i :: 0 <= i < |outs| && outs[i].SendNAK? && Covered(outs[i].ranges, n)
  }

  ghost predicate Known(evs: seq<Event>, outs: seq<Output>, n: int) {
    ArrivedNumber(evs, n) || Reported(outs, n)
  }

  lemma KnownStays(evs: seq<Event>, ev: Event, outs: seq<Output>, more: seq<Output>, n: int)
    requires Known(evs, outs, n)
    ensures Known(evs + [ev], outs + more, n)
  {
    if ArrivedNumber(evs, n) {
      var i :| 0 <= i < |evs| && evs[i].Arrive? && evs[i].e.n == n;
      assert (evs + [ev])[i] == evs[i];
    } else {
      var i :| 0 <= i < |outs| && outs[i].SendNAK? && Covered(outs[i].ranges, n);
      assert (outs + more)[i] == outs[i];
    }
  }

  lemma KnownNow(evs: seq<Event>, s: State, outs: seq<Output>, e: Entry, n: int)
    requires Inv(s) && s.maxSeen < n <= e.n
    ensures Known(evs + [Arrive(e)], outs + Push(s, e).outs, n)
  {
    var now := Push(s, e).outs;
    PushReportsExactly(s, e);
    if n == e.n {
      assert (evs + [Arrive(e)])[|evs|] == Arrive(e);
    } else {
      assert (outs + now)[|outs|] == now[0];
    }
  }

  /** In every run, each number up to the highest one seen has arrived or was reported missing. */
  lemma {:induction false} NothingGoesUnnoticed(
    initial: int, ackInterval: nat, nakInterval: nat, evs: seq<Event>, n: int)
    requires initial <= n <= Run(Init(initial, ackInterval, nakInterval), evs).s.maxSeen
    ensures Known(evs, Run(Init(initial, ackInterval, nakInterval), evs).outs, n)
  {
    if evs != [] {
      var before, ev := evs[..|evs| - 1], evs[|evs| - 1];
      var r := Run(Init(initial, ackInterval, nakInterval), before);
      RunSafe(initial, ackInterval, nakInterval, before);
      assert evs == before + [ev];
      if n <= r.s.maxSeen {
        NothingGoesUnnoticed(initial, ackInterval, nakInterval, before, n);
        KnownStays(before, ev, r.outs, Next(r.s, ev).outs, n);
      } else {
        OnlyArrivalsRaise(r.s, ev);
        KnownNow(before, r.s, r.outs, ev.e, n);
      }
    }
  }

  lemma OnlyArrivalsRaise(s: State, ev: Event)
    requires Inv(s)
    ensures Next(s, ev).s.maxSeen == if ev.Arrive? && ev.e.n > s.maxSeen then ev.e.n else s.maxSeen
  {
    if ev.Arrive? {
      PushBuffersExactly(s, ev.e);
    }
  }

  // ---------- Push: the counters ----------

  // The counter goes up by the packet if so.
  ghost predicate Counts(a: Tally, b: Tally, p: Packet, on: bool) {
    b == if on then AddOne(a, p) else a
  }

  /** Every arrival is counted; as retransmitted if it says so; as unique if it is taken in and as
      dropped if not, as belated too if it was delivered or passed over; as late if it fills a
      gap; and the numbers skipped count as lost on the way. */
  lemma PushCountsExactly(s: State, e: Entry)
    requires Inv(s)
    ensures var a, b, taken := s.stats, Push(s, e).s.stats, TakenIn(s, e);
            && Counts(a.all, b.all, e.p, true)
            && Counts(a.retrans, b.retrans, e.p, e.p.retransmitted)
            && Counts(a.unique, b.unique, e.p, taken) && Counts(a.buf, b.buf, e.p, taken)
            && Counts(a.drop, b.drop, e.p, !taken)
            && Counts(a.belated, b.belated, e.p, e.n <= s.lastDelivered)
            && Counts(a.late, b.late, e.p, taken && e.n <= s.maxSeen)
            && b.pktLoss == a.pktLoss + (if e.n > s.maxSeen then e.n - s.maxSeen - 1 else 0)
            && b.pktLost == a.pktLost
  {
    PositionHas(s.list, e.n);
    if s.lastDelivered < e.n && s.lastACK <= e.n <= s.maxSeen {
      OutOfOrderScanEnds(s, e);
    }
  }

  // ---------- when it acknowledges ----------

  lemma ElapsedIs(now: nat, last: nat)
    requires now < 0x1_0000_0000_0000_0000 && last < 0x1_0000_0000_0000_0000
    ensures Elapsed(now, last) == if last <= now then now - last else now - last + 0x1_0000_0000_0000_0000
  {
  }

  // The event sends an ACK.
  predicate AckBy(s: State, ev: Event) {
    ev.TickACK? && Next(s, ev).outs != []
  }

  // When the last ACK of a run was sent, or 0.
  function LastAck(s: State, evs: seq<Event>): nat {
    if evs == [] then 0
    else
      var before, ev := evs[..|evs| - 1], evs[|evs| - 1];
      if AckBy(Run(s, before).s, ev) then ev.now else LastAck(s, before)
  }

  // How many packets arrived since then.
  function ArrivedSince(s: State, evs: seq<Event>): nat {
    if evs == [] then 0
    else
      var before, ev := evs[..|evs| - 1], evs[|evs| - 1];
      if AckBy(Run(s, before).s, ev) then 0
      else ArrivedSince(s, before) + if ev.Arrive? then 1 else 0
  }

  lemma {:induction false} AckClock(initial: int, ackInterval: nat, nakInterval: nat, evs: seq<Event>)
    ensures var s := Init(initial, ackInterval, nakInterval);
            var t := Run(s, evs).s;
            t.lastPeriodicACK == LastAck(s, evs) && t.nPackets == ArrivedSince(s, evs) && t.ackInterval == ackInterval
  {
    if evs != [] {
      var before := evs[..|evs| - 1];
      AckClock(initial, ackInterval, nakInterval, before);
      AckClockStep(Run(Init(initial, ackInterval, nakInterval), before).s, evs[|evs| - 1]);
    }
  }

  lemma AckClockStep(s: State, ev: Event)
    ensures var t := Next(s, ev).s;
            && t.lastPeriodicACK == (if AckBy(s, ev) then ev.now else s.lastPeriodicACK)
            && t.nPackets == (if AckBy(s, ev) then 0 else s.nPackets + if ev.Arrive? then 1 else 0)
            && t.ackInterval == s.ackInterval
  {
  }

  // What a look for something to acknowledge does to s.
  ghost predicate AckRule(s: State, t: Step, due: bool, arrived: nat) {
    if due || arrived >= 64 then t.outs == [SendACK(t.s.lastACK + 1, !due)] else t.outs == [] && t.s == s
  }

  /** In every run, a Tick sends an ACK exactly if the interval has passed since the last one or 64
      packets have arrived since; a light one exactly if the interval has not passed. */
  lemma AcksExactly(initial: int, ackInterval: nat, nakInterval: nat, evs: seq<Event>, now: nat)
    ensures var s := Init(initial, ackInterval, nakInterval);
            AckRule(Run(s, evs).s, Next(Run(s, evs).s, TickACK(now)),
                    Elapsed(now, LastAck(s, evs)) >= ackInterval, ArrivedSince(s, evs))
  {
    var s := Init(initial, ackInterval, nakInterval);
    AckClock(initial, ackInterval, nakInterval, evs);
    AckStep(Run(s, evs).s, now);
  }

  lemma AckStep(s: State, now: nat)
    ensures AckRule(s, Next(s, TickACK(now)), Elapsed(now, s.lastPeriodicACK) >= s.ackInterval, s.nPackets)
  {
  }

  // ---------- when it reports losses ----------

  // The interval in force.
  function NakEvery(nakInterval: nat, evs: seq<Event>): nat {
    if evs == [] then nakInterval
    else
      match evs[|evs| - 1]
      case SetNAKInterval(interval) => interval
      case _ => NakEvery(nakInterval, evs[..|evs| - 1])
  }

  // When losses were last looked for, or 0: at the first Tick after the interval each time.
  function LastNak(nakInterval: nat, evs: seq<Event>): nat {
    if evs == [] then 0
    else
      var before := evs[..|evs| - 1];
      match evs[|evs| - 1]
      case TickNAK(now) =>
        if Elapsed(now, LastNak(nakInterval, before)) >= NakEvery(nakInterval, before) then now
        else LastNak(nakInterval, before)
      case _ => LastNak(nakInterval, before)
  }

  lemma {:induction false} NakClock(initial: int, ackInterval: nat, nakInterval: nat, evs: seq<Event>)
    ensures var t := Run(Init(initial, ackInterval, nakInterval), evs).s;
            t.lastPeriodicNAK == LastNak(nakInterval, evs) && t.nakInterval == NakEvery(nakInterval, evs)
  {
    if evs != [] {
      NakClock(initial, ackInterval, nakInterval, evs[..|evs| - 1]);
    }
  }

  ghost predicate MissingNumber(s: State, k: int) {
    s.lastACK < k <= s.maxSeen && !Has(s.list, k)
  }

  /** In every run, a Tick reports losses exactly if the interval has passed since losses were last
      looked for and a number above the last ACK is missing; and then it names exactly the
      missing numbers. */
  lemma NaksExactly(initial: int, ackInterval: nat, nakInterval: nat, evs: seq<Event>, now: nat)
    ensures var s := Run(Init(initial, ackInterval, nakInterval), evs).s;
            var outs := Next(s, TickNAK(now)).outs;
            var due := Elapsed(now, LastNak(nakInterval, evs)) >= NakEvery(nakInterval, evs);
            if due && exists k :: MissingNumber(s, k) then
              && |outs| == 1 && outs[0].SendNAK? && Separated(outs[0].ranges)
              && forall k :: Covered(outs[0].ranges, k) <==> MissingNumber(s, k)
            else outs == []
  {
    NakClock(initial, ackInterval, nakInterval, evs);
    RunSafe(initial, ackInterval, nakInterval, evs);
    NakNames(Run(Init(initial, ackInterval, nakInterval), evs).s);
  }

  lemma NakNames(s: State)
    requires Inv(s)
    ensures var gaps := Gaps(s.list, 0, s.lastACK);
            && Separated(gaps) && (forall k :: Covered(gaps, k) <==> MissingNumber(s, k))
            && (gaps != [] <==> exists k :: MissingNumber(s, k))
  {
    var gaps := Gaps(s.list, 0, s.lastACK);
    NakIsExact(s);
    if gaps != [] {
      assert InRange(gaps[0].lo, gaps[0]);
      assert Covered(gaps, gaps[0].lo);
    }
  }

  // ---------- what is delivered ----------

  // The packet may go: it is acknowledged, and it and all packets held before it are due.
  ghost predicate MayGo(s: State, now: nat, e: Entry) {
    e.n <= s.lastACK && forall x :: x in s.list && x.n <= e.n ==> x.p.time <= now
  }

  /** A Tick delivers exactly the packets held that may go, and keeps exactly the others. */
  lemma DeliversExactly(s: State, now: nat, e: Entry)
    requires Inv(s) && e in s.list
    ensures var t := Next(s, TickDeliver(now));
            && (e in Delivered(t.outs) <==> MayGo(s, now, e))
            && (e in t.s.list <==> !MayGo(s, now, e))
  {
    var k := DueCount(s.list, 0, s.lastACK, now);
    var i :| 0 <= i < |s.list| && s.list[i] == e;
    StepDelivers(s, TickDeliver(now));
    DueCountStops(s.list, 0, s.lastACK, now);
    if i < k {
      assert s.list[..k][i] == e;
      assert MayGo(s, now, e);
      assert e !in s.list[k..] by { NotLater(s.list, i, k); }
    } else {
      assert s.list[k..][i - k] == e;
      assert s.list[k] in s.list && s.list[k].n <= e.n;
      assert e !in s.list[..k] by { NotEarlier(s.list, i, k); }
    }
  }

  lemma NotLater(list: seq<Entry>, i: nat, k: nat)
    requires Sorted(list) && i < k <= |list|
    ensures list[i] !in list[k..]
  {
  }

  lemma NotEarlier(list: seq<Entry>, i: nat, k: nat)
    requires Sorted(list) && k <= i < |list|
    ensures list[i] !in list[..k]
  {
  }
}
