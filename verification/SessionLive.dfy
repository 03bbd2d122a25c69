/** End-to-end delivery: what safety alone does not say. A packet that reaches the receiver before
    it is due is delivered, whatever was lost before or after it. */
module SessionLive {
  import opened Circular
  import opened Packets
  import opened Session
  import opened SessionSafe
  import R = ReceiverSpec
  import RT = ReceiverTheorems
  import RR = ReceiverRuns
  import T = Tsbpd

  // The packet with number n is in the receiver's buffer or was delivered.
  ghost predicate Kept(s: State, n: int) {
    Has(s.rcv.list, n) || Has(RR.Delivered(s.outs), n)
  }

  // The time the receiver is to deliver number n: that of writing plus latency.
  function DueAt(c: Config, written: seq<Packet>, n: int): nat
    requires c.initial <= n < c.initial + |written|
  {
    c.base + written[n - c.initial].time + c.delay
  }

  ghost predicate InOrderOfTime(written: seq<Packet>) {
    forall i, j :: 0 <= i < j < |written| ==> written[i].time <= written[j].time
  }

  // The latest time at which the receiver looked for something to acknowledge.
  function LatestAck(evs: seq<Event>): nat {
    if evs == [] then 0 else Later(LatestAck(evs[..|evs| - 1]), evs[|evs| - 1])
  }

  // The same one event later.
  function Later(latest: nat, ev: Event): nat {
    match ev
    case ReceiverStep(TickACK(now)) => if now > latest then now else latest
    case _ => latest
  }

  /** Every number passed by an ACK that is neither held nor delivered was due by then. */
  ghost predicate Excused(c: Config, s: State, latest: nat)
    requires s.rcv.lastACK < c.initial + |s.written|
  {
    forall n :: c.initial <= n <= s.rcv.lastACK ==> Kept(s, n) || DueAt(c, s.written, n) <= latest
  }

  // What is used of the invariant of a session.
  ghost predicate Basis(c: Config, s: State) {
    RT.Inv(s.rcv) && AllFaithful(c, s.written, s.rcv.list) && InOrderOfTime(s.written)
  }

  ghost predicate Live(c: Config, s: State, latest: nat) {
    && InOrderOfTime(s.written)
    && s.rcv.lastACK <= s.rcv.maxSeen < c.initial + |s.written|
    && Excused(c, s, latest)
  }

  // ---------- what is kept stays ----------

  lemma HasConcat(a: seq<Entry>, b: seq<Entry>, n: int)
    ensures Has(a + b, n) <==> Has(a, n) || Has(b, n)
  {
    if Has(a, n) {
      var i :| 0 <= i < |a| && a[i].n == n;
      assert (a + b)[i].n == n;
    }
    if Has(b, n) {
      var i :| 0 <= i < |b| && b[i].n == n;
      assert (a + b)[|a| + i].n == n;
    }
  }

  lemma PushGrows(s: R.State, e: Entry, n: int)
    requires Has(s.list, n)
    ensures Has(R.Push(s, e).s.list, n)
  {
    HasConcat(s.list, [e], n);
    RT.HasInsert(s.list, R.Position(s.list, 0, e.n), e, n);
  }

  /** A packet above the last ACK is held once it has arrived. */
  lemma PushHolds(s: R.State, e: Entry)
    requires RT.Inv(s) && s.lastACK < e.n
    ensures Has(R.Push(s, e).s.list, e.n)
  {
    var k := R.Position(s.list, 0, e.n);
    assert [e][0].n == e.n;
    HasConcat(s.list, [e], e.n);
    RT.HasInsert(s.list, k, e, e.n);
    if e.n <= s.maxSeen {
      RT.OutOfOrderScanEnds(s, e);
    }
  }

  // A step moves packets from the buffer to the deliveries at most.
  lemma KeptStays(s: State, ev: R.Event, n: int)
    requires Kept(s, n)
    ensures Kept(Receive(s, ev), n)
  {
    var t := R.Next(s.rcv, ev);
    RR.StepDelivers(s.rcv, ev);
    RR.DeliveredConcat(s.outs, t.outs);
    HasConcat(RR.Delivered(s.outs), RR.Delivered(t.outs), n);
    if Has(s.rcv.list, n) {
      match ev
      case Arrive(e) => PushGrows(s.rcv, e, n);
      case TickDeliver(now) =>
        var k := R.DueCount(s.rcv.list, 0, s.rcv.lastACK, now);
        assert s.rcv.list == s.rcv.list[..k] + s.rcv.list[k..];
        HasConcat(s.rcv.list[..k], s.rcv.list[k..], n);
      case _ =>
    }
  }

  // ---------- acknowledging ----------

  lemma FirstAboveExists(list: seq<Entry>, k: int, a: int) returns (i: nat)
    requires Sorted(list) && Has(list, a) && k < a
    ensures RT.FirstAbove(list, i, k) && list[i].n <= a
  {
    var j :| 0 <= j < |list| && list[j].n == a;
    i := 0;
    while list[i].n <= k
      invariant 0 <= i <= j
      invariant forall m :: 0 <= m < i ==> list[m].n <= k
    {
      i := i + 1;
    }
  }

  // Packets are held in order of their due times.
  lemma LaterIsDueLater(c: Config, s: State, x: Entry, n: int)
    requires InOrderOfTime(s.written) && Faithful(c, s.written, x) && c.initial <= n <= x.n
    ensures DueAt(c, s.written, n) <= x.p.time
  {
  }

  /** A number an ACK passes over is followed by a packet that is due, so it is overdue itself. */
  lemma PassedIsDue(c: Config, s: State, now: nat, n: int)
    requires Basis(c, s) && R.AckFires(s.rcv, now)
    requires c.initial <= n && s.rcv.lastACK < n <= R.PeriodicACK(s.rcv, now).s.lastACK && !Has(s.rcv.list, n)
    ensures n < c.initial + |s.written| && DueAt(c, s.written, n) <= now
  {
    var a := R.PeriodicACK(s.rcv, now).s.lastACK;
    RT.AckIsAckPoint(s.rcv, now);
    var i := FirstAboveExists(s.rcv.list, n, a);
    assert s.rcv.list[i] in s.rcv.list;
    LaterIsDueLater(c, s, s.rcv.list[i], n);
  }

  /** After an ACK every packet held that is due is acknowledged. */
  lemma DueIsAcked(c: Config, s: State, now: nat, x: Entry)
    requires Basis(c, s) && R.AckFires(s.rcv, now)
    requires x in s.rcv.list && x.p.time <= now
    ensures x.n <= R.PeriodicACK(s.rcv, now).s.lastACK
  {
    var a := R.PeriodicACK(s.rcv, now).s.lastACK;
    RT.AckIsAckPoint(s.rcv, now);
    if a < x.n {
      var i := FirstAboveExists(s.rcv.list, a, x.n);
      var y := s.rcv.list[i];
      assert y in s.rcv.list;
      LaterIsDueLater(c, s, x, y.n);
      assert false;
    }
  }

  // ---------- what every state satisfies ----------

  lemma AckLive(c: Config, s: State, now: nat, latest: nat)
    requires Basis(c, s) && Live(c, s, latest)
    ensures Live(c, Receive(s, R.TickACK(now)), if now > latest then now else latest)
  {
    var v := Receive(s, R.TickACK(now));
    RT.AckKeepsInv(s.rcv, now);
    forall n | c.initial <= n <= v.rcv.lastACK
      ensures Kept(v, n) || DueAt(c, v.written, n) <= if now > latest then now else latest
    {
      if Kept(s, n) {
        KeptStays(s, R.TickACK(now), n);
      } else if s.rcv.lastACK < n {
        PassedIsDue(c, s, now, n);
      }
    }
  }

  // A step other than acknowledging.
  lemma OtherLive(c: Config, s: State, ev: R.Event, latest: nat)
    requires RT.Inv(s.rcv) && Live(c, s, latest) && !ev.TickACK?
    requires ev.Arrive? ==> ev.e.n < c.initial + |s.written|
    ensures Live(c, Receive(s, ev), latest)
  {
    var v := Receive(s, ev);
    RT.NextKeepsInv(s.rcv, ev);
    forall n | c.initial <= n <= v.rcv.lastACK ensures Kept(v, n) || DueAt(c, v.written, n) <= latest {
      if Kept(s, n) {
        KeptStays(s, ev, n);
      }
    }
  }

  lemma WriteLive(c: Config, s: State, p: Packet, latest: nat)
    requires Live(c, s, latest) && LastTime(s.written) <= p.time
    ensures Live(c, Next(c, s, Write(p)), latest)
  {
    var v := Next(c, s, Write(p));
    assert v.rcv == s.rcv && v.outs == s.outs && v.written == s.written + [p];
    forall n | c.initial <= n <= v.rcv.lastACK ensures Kept(v, n) || DueAt(c, v.written, n) <= latest {
      assert Kept(s, n) <==> Kept(v, n);
    }
  }

  lemma StepLive(c: Config, s: State, ev: Event, latest: nat)
    requires Basis(c, s) && Live(c, s, latest) && Enabled(c, s, ev)
    ensures Live(c, Next(c, s, ev), Later(latest, ev))
  {
    match ev
    case Write(p) => WriteLive(c, s, p, latest);
    case ReceiverStep(TickACK(now)) => AckLive(c, s, now, latest);
    case ReceiverStep(rev) => OtherLive(c, s, rev, latest);
    case DataArrives(i) => ArrivalLive(c, s, i, latest);
    case _ => SameLive(c, s, Next(c, s, ev), latest);
  }

  lemma SameLive(c: Config, s: State, v: State, latest: nat)
    requires Live(c, s, latest) && v.rcv == s.rcv && v.outs == s.outs && v.written == s.written
    ensures Live(c, v, latest)
  {
    forall n ensures Kept(s, n) <==> Kept(v, n) {
    }
  }

  lemma ArrivalLive(c: Config, s: State, i: nat, latest: nat)
    requires RT.Inv(s.rcv) && Live(c, s, latest) && Enabled(c, s, DataArrives(i))
    ensures Live(c, Next(c, s, DataArrives(i)), latest)
  {
    var e := s.wire[i];
    var time := T.Arrive(s.time, e.p.timestamp);
    var u := s.(time := time, arrived := s.arrived + [SentAt(c, s, e)]);
    SameLive(c, s, u, latest);
    OtherLive(c, u, R.Arrive(Received(c, time, e)), latest);
  }

  lemma {:induction false} BehaviourLive(c: Config, states: seq<State>, evs: seq<Event>, i: nat)
    requires Behaviour(c, states, evs) && i < |states|
    ensures Live(c, states[i], LatestAck(evs[..i]))
  {
    if i > 0 {
      BehaviourLive(c, states, evs, i - 1);
      LiveOnce(c, states, evs, i - 1, LatestAck(evs[..i - 1]));
      LatestStep(evs, i - 1);
    }
  }

  lemma LatestStep(evs: seq<Event>, i: nat)
    requires i < |evs|
    ensures LatestAck(evs[..i + 1]) == Later(LatestAck(evs[..i]), evs[i])
  {
    assert evs[..i + 1][..i] == evs[..i];
  }

  lemma LiveOnce(c: Config, states: seq<State>, evs: seq<Event>, i: nat, latest: nat)
    requires Behaviour(c, states, evs) && i < |evs| && Live(c, states[i], latest)
    ensures Live(c, states[i + 1], Later(latest, evs[i]))
  {
    StateInv(c, states, evs, i);
    assert Leads(c, states[i], evs[i], states[i + 1]);
    StepLive(c, states[i], evs[i], latest);
  }

  lemma StateInv(c: Config, states: seq<State>, evs: seq<Event>, i: nat)
    requires Behaviour(c, states, evs) && i < |states|
    ensures RT.Inv(states[i].rcv) && AllFaithful(c, states[i].written, states[i].rcv.list)
  {
    BehaviourInv(c, states, evs, i);
  }

  lemma BehaviourBasis(c: Config, states: seq<State>, evs: seq<Event>, i: nat)
    requires Behaviour(c, states, evs) && i < |states|
    ensures Basis(c, states[i])
  {
    StateInv(c, states, evs, i);
    BehaviourLive(c, states, evs, i);
  }

  // ---------- arriving ----------

  /** An arriving packet is held or delivered from then on exactly if it was before or has not been
      passed by an ACK. */
  lemma ArrivalKeptExactly(c: Config, s: State, i: nat)
    requires RT.Inv(s.rcv) && Enabled(c, s, DataArrives(i))
    ensures var n := s.wire[i].n; Kept(Next(c, s, DataArrives(i)), n) <==> Kept(s, n) || s.rcv.lastACK < n
  {
    var e := s.wire[i];
    var time := T.Arrive(s.time, e.p.timestamp);
    var u := s.(time := time, arrived := s.arrived + [SentAt(c, s, e)]);
    PushKeptExactly(u, Received(c, time, e));
  }

  lemma PushKeptExactly(s: State, e: Entry)
    requires RT.Inv(s.rcv)
    ensures Kept(Receive(s, R.Arrive(e)), e.n) <==> Kept(s, e.n) || s.rcv.lastACK < e.n
  {
    if Kept(s, e.n) {
      KeptStays(s, R.Arrive(e), e.n);
    } else if s.rcv.lastACK < e.n {
      PushHolds(s.rcv, e);
    } else {
      RR.StepDelivers(s.rcv, R.Arrive(e));
      RR.DeliveredConcat(s.outs, R.Push(s.rcv, e).outs);
      assert RR.Delivered(s.outs) + [] == RR.Delivered(s.outs);
      assert R.Push(s.rcv, e).s.list == s.rcv.list;
    }
  }

  // ---------- from then on ----------

  // The packet was delivered, or is held and acknowledged.
  ghost predicate Secured(s: State, n: int) {
    Has(RR.Delivered(s.outs), n) || (Has(s.rcv.list, n) && n <= s.rcv.lastACK)
  }

  lemma DeliveredStays(s: State, ev: R.Event, n: int)
    requires Has(RR.Delivered(s.outs), n)
    ensures Has(RR.Delivered(Receive(s, ev).outs), n)
  {
    RR.DeliveredConcat(s.outs, R.Next(s.rcv, ev).outs);
    HasConcat(RR.Delivered(s.outs), RR.Delivered(R.Next(s.rcv, ev).outs), n);
  }

  lemma ReceiveStays(s: State, ev: R.Event, n: int)
    requires RT.Inv(s.rcv)
    ensures Kept(s, n) ==> Kept(Receive(s, ev), n)
    ensures Secured(s, n) ==> Secured(Receive(s, ev), n)
  {
    if Kept(s, n) {
      KeptStays(s, ev, n);
    }
    if Has(RR.Delivered(s.outs), n) {
      DeliveredStays(s, ev, n);
    }
    RR.StepAdvances(s.rcv, ev);
  }

  lemma StepStays(c: Config, s: State, ev: Event, n: int)
    requires RT.Inv(s.rcv) && Enabled(c, s, ev)
    ensures Kept(s, n) ==> Kept(Next(c, s, ev), n)
    ensures Secured(s, n) ==> Secured(Next(c, s, ev), n)
  {
    match ev
    case ReceiverStep(rev) => ReceiveStays(s, rev, n);
    case DataArrives(i) =>
      var e := s.wire[i];
      var time := T.Arrive(s.time, e.p.timestamp);
      ReceiveStays(s.(time := time, arrived := s.arrived + [SentAt(c, s, e)]), R.Arrive(Received(c, time, e)), n);
    case _ =>
      var v := Next(c, s, ev);
      assert v.rcv == s.rcv && v.outs == s.outs;
  }

  lemma StaysOnce(c: Config, states: seq<State>, evs: seq<Event>, j: nat, n: int)
    requires Behaviour(c, states, evs) && j < |evs|
    ensures Kept(states[j], n) ==> Kept(states[j + 1], n)
    ensures Secured(states[j], n) ==> Secured(states[j + 1], n)
  {
    StateInv(c, states, evs, j);
    assert Leads(c, states[j], evs[j], states[j + 1]);
    StepStays(c, states[j], evs[j], n);
  }

  lemma StaysKept(c: Config, states: seq<State>, evs: seq<Event>, i: nat, j: nat, n: int)
    requires Behaviour(c, states, evs) && i <= j < |states| && Kept(states[i], n)
    ensures Kept(states[j], n)
  {
    var on := seq(|states|, k requires 0 <= k < |states| => Kept(states[k], n));
    forall k | 0 <= k < |evs| && on[k] ensures on[k + 1] {
      StaysOnce(c, states, evs, k, n);
    }
    Persists(on, i, j);
  }

  lemma StaysSecured(c: Config, states: seq<State>, evs: seq<Event>, i: nat, j: nat, n: int)
    requires Behaviour(c, states, evs) && i <= j < |states| && Secured(states[i], n)
    ensures Secured(states[j], n)
  {
    var on := seq(|states|, k requires 0 <= k < |states| => Secured(states[k], n));
    forall k | 0 <= k < |evs| && on[k] ensures on[k + 1] {
      StaysOnce(c, states, evs, k, n);
    }
    Persists(on, i, j);
  }

  // ---------- a Tick once it is due ----------

  ghost predicate DueBy(c: Config, written: seq<Packet>, n: int, now: nat) {
    c.initial <= n < c.initial + |written| && DueAt(c, written, n) <= now
  }

  lemma TickSecures(c: Config, s: State, now: nat, n: int)
    requires Basis(c, s) && Kept(s, n)
    requires R.AckFires(s.rcv, now) && DueBy(c, s.written, n, now)
    ensures Secured(Receive(s, R.TickACK(now)), n)
  {
    KeptStays(s, R.TickACK(now), n);
    if Has(RR.Delivered(s.outs), n) {
      DeliveredStays(s, R.TickACK(now), n);
    } else {
      var i :| 0 <= i < |s.rcv.list| && s.rcv.list[i].n == n;
      assert s.rcv.list[i] in s.rcv.list;
      DueIsAcked(c, s, now, s.rcv.list[i]);
    }
  }

  lemma TickDelivers(c: Config, s: State, now: nat, n: int)
    requires Basis(c, s) && Secured(s, n) && DueBy(c, s.written, n, now)
    ensures Has(RR.Delivered(Receive(s, R.TickDeliver(now)).outs), n)
  {
    if Has(RR.Delivered(s.outs), n) {
      DeliveredStays(s, R.TickDeliver(now), n);
    } else {
      var list, k := s.rcv.list, R.DueCount(s.rcv.list, 0, s.rcv.lastACK, now);
      var j :| 0 <= j < |list| && list[j].n == n;
      DueIsTaken(c, s, now, j);
      assert list[..k][j].n == n;
      RR.StepDelivers(s.rcv, R.TickDeliver(now));
      RR.DeliveredConcat(s.outs, R.DeliverDue(s.rcv, now).outs);
      HasConcat(RR.Delivered(s.outs), list[..k], n);
    }
  }

  // Nothing before a packet that is acknowledged and due holds it back.
  lemma DueIsTaken(c: Config, s: State, now: nat, j: nat)
    requires Basis(c, s)
    requires j < |s.rcv.list| && s.rcv.list[j].n <= s.rcv.lastACK && DueBy(c, s.written, s.rcv.list[j].n, now)
    ensures j < R.DueCount(s.rcv.list, 0, s.rcv.lastACK, now)
  {
    var list, k := s.rcv.list, R.DueCount(s.rcv.list, 0, s.rcv.lastACK, now);
    R.DueCountStops(list, 0, s.rcv.lastACK, now);
    if k <= j {
      assert list[k] in list && list[j] in list;
      LaterIsDueLater(c, s, list[j], list[k].n);
      assert false;
    }
  }

  // ---------- the theorem ----------

  // The event is the arrival of number n while it is not due at any time of looking for ACKs.
  ghost predicate ArrivesInTime(c: Config, s: State, ev: Event, latest: nat, n: int) {
    ev.DataArrives? && ev.i < |s.wire| && s.wire[ev.i].n == n && !DueBy(c, s.written, n, latest)
  }

  ghost predicate AcksAt(s: State, ev: Event, now: nat) {
    ev == ReceiverStep(R.TickACK(now)) && R.AckFires(s.rcv, now)
  }

  /** In every behaviour, a packet that arrives before the receiver looks for an ACK at or after its
      due time is delivered by the first Tick that acknowledges once it is due: whatever else was
      lost, late or repeated, nothing holds it back. */
  lemma DeliveredInTime(c: Config, states: seq<State>, evs: seq<Event>, i: nat, j: nat, k: nat, n: int, ack: nat,
      now: nat)
    requires Behaviour(c, states, evs) && i < j < k < |evs|
    requires ArrivesInTime(c, states[i], evs[i], LatestAck(evs[..i]), n)
    requires AcksAt(states[j], evs[j], ack) && DueBy(c, states[j].written, n, ack)
    requires evs[k] == ReceiverStep(R.TickDeliver(now)) && DueBy(c, states[k].written, n, now)
    ensures Has(RR.Delivered(states[k + 1].outs), n)
  {
    ArrivedIsKept(c, states, evs, i, n);
    StaysKept(c, states, evs, i + 1, j, n);
    BehaviourBasis(c, states, evs, j);
    assert Leads(c, states[j], evs[j], states[j + 1]);
    TickSecures(c, states[j], ack, n);
    StaysSecured(c, states, evs, j + 1, k, n);
    BehaviourBasis(c, states, evs, k);
    assert Leads(c, states[k], evs[k], states[k + 1]);
    TickDelivers(c, states[k], now, n);
  }

  lemma ArrivedIsKept(c: Config, states: seq<State>, evs: seq<Event>, i: nat, n: int)
    requires Behaviour(c, states, evs) && i < |evs|
    requires ArrivesInTime(c, states[i], evs[i], LatestAck(evs[..i]), n)
    ensures Kept(states[i + 1], n)
  {
    StateInv(c, states, evs, i);
    BehaviourLive(c, states, evs, i);
    assert Leads(c, states[i], evs[i], states[i + 1]);
    ArrivalKeptExactly(c, states[i], evs[i].i);
  }
}
