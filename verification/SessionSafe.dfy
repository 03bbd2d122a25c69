/** End-to-end safety of a session. */
module SessionSafe {
  import opened Circular
  import opened Packets
  import opened Session
  import S = SenderSpec
  import ST = SenderTheorems
  import R = ReceiverSpec
  import RT = ReceiverTheorems
  import RR = ReceiverRuns
  import T = Tsbpd
  import L = LossList
  import LR = LossReport

  // ---------- what every state satisfies ----------

  /** e is what the application wrote under that number, due when written plus latency. */
  ghost predicate Faithful(c: Config, written: seq<Packet>, e: Entry) {
    && c.initial <= e.n < c.initial + |written|
    && e.p.data == written[e.n - c.initial].data
    && e.p.time == c.base + written[e.n - c.initial].time + c.delay
  }

  ghost predicate AllFaithful(c: Config, written: seq<Packet>, es: seq<Entry>) {
    forall e :: e in es ==> Faithful(c, written, e)
  }

  ghost predicate SenderInv(c: Config, s: State) {
    && ST.Inv(s.snd, LastTime(s.written))
    && ST.ProbeSet(c.initial, s.written, s.snd) && s.snd.dropThreshold == c.dropThreshold
    && ST.AllGenuine(c.initial, s.written, S.All(s.snd))
    && ST.AllGenuine(c.initial, s.written, s.wire)
    && ST.AllBelow(s.wire, ST.SentUpTo(s.snd))
  }

  ghost predicate ReceiverInv(c: Config, s: State) {
    && RT.Inv(s.rcv)
    && RR.Orderly(s.rcv, s.outs)
    && AllFaithful(c, s.written, s.rcv.list)
    && AllFaithful(c, s.written, RR.Delivered(s.outs))
  }

  /** Number n had been due to be sent for longer than the drop threshold when the sender looked. */
  ghost predicate AgedOut(c: Config, s: State, n: int) {
    && c.initial <= n < c.initial + |s.written|
    && exists i :: 0 <= i < |s.drops| && ST.SendTime(c.initial, s.written, n) + c.dropThreshold <= s.drops[i]
  }

  /** What the sender no longer holds was acknowledged or aged out. */
  ghost predicate HeldInv(c: Config, s: State) {
    forall n :: c.initial <= n < FirstHeld(s.snd) ==> n <= s.rcv.lastACK || AgedOut(c, s, n)
  }

  ghost predicate ControlInv(s: State) {
    && (forall n :: n in s.acks ==> n <= s.rcv.lastACK + 1)
    && (forall rs :: rs in s.naks ==> Separated(rs) && L.Windowed(rs))
  }

  ghost predicate TimeInv(s: State) {
    T.Paced(s.arrived, T.SLACK) && s.time == T.After(s.arrived)
  }

  // The books of the queue, by themselves: `all` was delivered so far.
  ghost predicate Queued(read: seq<Entry>, queue: seq<Entry>, overrun: nat, all: seq<Entry>, last: int) {
    && Sorted(read + queue)
    && (forall e :: e in read + queue ==> e.n <= last && e in all)
    && (overrun == 0 ==> read + queue == all)
    && |read| + |queue| + overrun == |all|
  }

  /** What was read and what waits to be read is part of what was delivered, in order, and all of
      it as long as the queue has never been full; the reader never failed. */
  ghost predicate ReaderInv(c: Config, s: State) {
    && Queued(s.read, s.queue, s.overrun, RR.Delivered(s.outs), s.rcv.lastDelivered)
    && s.at == (if s.read == [] then c.initial else s.read[|s.read| - 1].n + 1)
    && s.errors == 0 && |s.queue| <= QUEUE
  }

  ghost predicate Inv(c: Config, s: State) {
    && SenderInv(c, s) && ReceiverInv(c, s) && ControlInv(s) && HeldInv(c, s) && TimeInv(s) && ReaderInv(c, s)
    && s.rcv.maxSeen - s.rcv.lastDelivered < WINDOW
  }

  // ---------- receiver steps ----------

  lemma FaithfulList(c: Config, written: seq<Packet>, s: R.State, ev: R.Event)
    requires AllFaithful(c, written, s.list)
    requires ev.Arrive? ==> Faithful(c, written, ev.e)
    ensures AllFaithful(c, written, R.Next(s, ev).s.list)
    ensures AllFaithful(c, written, RR.Delivered(R.Next(s, ev).outs))
  {
    RR.StepDelivers(s, ev);
  }

  lemma ReceiveKeepsReceiver(c: Config, s: State, ev: R.Event)
    requires ReceiverInv(c, s) && (ev.Arrive? ==> Faithful(c, s.written, ev.e))
    ensures ReceiverInv(c, Receive(s, ev))
  {
    RT.NextKeepsInv(s.rcv, ev);
    RR.StepOrderly(s.rcv, ev, s.outs);
    FaithfulList(c, s.written, s.rcv, ev);
    RR.DeliveredConcat(s.outs, R.Next(s.rcv, ev).outs);
  }

  lemma {:induction false} AcksFrom(outs: seq<R.Output>, n: int)
    requires forall i :: 0 <= i < |outs| && outs[i].SendACK? ==> outs[i].n <= n
    ensures forall a :: a in Acks(outs) ==> a <= n
  {
    if outs != [] {
      AcksFrom(outs[..|outs| - 1], n);
    }
  }

  lemma {:induction false} NaksFrom(outs: seq<R.Output>)
    requires forall i :: 0 <= i < |outs| && outs[i].SendNAK? ==> Sendable(outs[i].ranges)
    ensures forall rs :: rs in Naks(outs) ==> Sendable(rs)
  {
    if outs != [] {
      NaksFrom(outs[..|outs| - 1]);
    }
  }

  ghost predicate Sendable(rs: seq<Range>) {
    Separated(rs) && L.Windowed(rs)
  }

  // Every loss list the receiver sends is separated and lies in a window.
  lemma NaksSendable(s: R.State, ev: R.Event)
    requires RT.Inv(s) && s.maxSeen - s.lastDelivered < WINDOW && RT.Close(s, ev)
    ensures forall i :: 0 <= i < |R.Next(s, ev).outs| && R.Next(s, ev).outs[i].SendNAK? ==>
            Sendable(R.Next(s, ev).outs[i].ranges)
  {
    match ev
    case Arrive(e) =>
    case TickNAK(now) => LR.GapsWindowed(s);
    case TickDeliver(now) =>
      forall i | 0 <= i < |R.DeliverDue(s, now).outs| ensures R.DeliverDue(s, now).outs[i].Deliver? {
        R.DeliveriesAt(s.list[..R.DueCount(s.list, 0, s.lastACK, now)], now, i);
      }
    case _ =>
  }

  lemma ReceiveKeepsControl(s: State, ev: R.Event)
    requires RT.Inv(s.rcv) && s.rcv.maxSeen - s.rcv.lastDelivered < WINDOW && RT.Close(s.rcv, ev) && ControlInv(s)
    ensures ControlInv(Receive(s, ev))
  {
    var t := R.Next(s.rcv, ev);
    RR.StepAdvances(s.rcv, ev);
    NaksSendable(s.rcv, ev);
    AcksFrom(t.outs, t.s.lastACK + 1);
    NaksFrom(t.outs);
  }

  lemma WindowKept(s: R.State, ev: R.Event)
    requires RT.Inv(s) && s.maxSeen - s.lastDelivered < WINDOW && RT.Close(s, ev)
    ensures R.Next(s, ev).s.maxSeen - R.Next(s, ev).s.lastDelivered < WINDOW
  {
    RR.StepAdvances(s, ev);
  }

  // ---------- the read queue ----------

  /** Of the packets delivered, exactly as many are queued as there is room for, first come first. */
  lemma {:induction false} EnqueueExactly(queue: seq<Entry>, es: seq<Entry>)
    requires |queue| <= 1024
    ensures var room := 1024 - |queue|;
            Enqueue(queue, es) == queue + if |es| <= room then es else es[..room]
  {
    if es != [] {
      var before, e := es[..|es| - 1], es[|es| - 1];
      EnqueueExactly(queue, before);
      assert es == before + [e];
      var room := 1024 - |queue|;
      if |before| < room {
        assert queue + before + [e] == queue + es;
      } else {
        assert before[..room] == es[..room];
        assert |before| == room ==> before[..room] == before;
      }
    }
  }

  lemma {:induction false} EnqueueTakes(queue: seq<Entry>, es: seq<Entry>)
    ensures |queue| <= |Enqueue(queue, es)| <= |queue| + |es|
    ensures |Enqueue(queue, es)| == |queue| + |es| ==> Enqueue(queue, es) == queue + es
    ensures forall e :: e in Enqueue(queue, es) ==> e in queue || e in es
  {
    if es != [] {
      EnqueueTakes(queue, es[..|es| - 1]);
      assert es == es[..|es| - 1] + [es[|es| - 1]];
    }
  }

  lemma {:induction false} EnqueueSorted(read: seq<Entry>, queue: seq<Entry>, es: seq<Entry>, mid: int)
    requires Sorted(read + queue) && (forall e :: e in read + queue ==> e.n <= mid)
    requires Sorted(es) && (forall e :: e in es ==> mid < e.n)
    ensures Sorted(read + Enqueue(queue, es))
  {
    if es != [] {
      var before, e := es[..|es| - 1], es[|es| - 1];
      EnqueueSorted(read, queue, before, mid);
      EnqueueTakes(queue, before);
      var q := Enqueue(queue, before);
      forall x | x in read + q ensures x.n < e.n {
        if x in before {
          var i :| 0 <= i < |before| && before[i] == x;
          assert es[i] == x;
        } else {
          assert x in read + queue;
        }
      }
      AppendSorted(read + q, e);
      assert read + q + [e] == read + (q + [e]);
    }
  }

  lemma AppendSorted(es: seq<Entry>, e: Entry)
    requires Sorted(es) && forall x :: x in es ==> x.n < e.n
    ensures Sorted(es + [e])
  {
    forall i | 0 <= i < |es| ensures es[i].n < e.n {
      assert es[i] in es;
    }
  }

  lemma QueuedStep(read: seq<Entry>, queue: seq<Entry>, overrun: nat, all: seq<Entry>, last: int,
      due: seq<Entry>, last': int)
    requires Queued(read, queue, overrun, all, last) && last <= last'
    requires Sorted(due) && Between(due, last, last')
    ensures var q := Enqueue(queue, due);
            Queued(read, q, overrun + (|queue| + |due| - |q|), all + due, last')
  {
    EnqueueTakes(queue, due);
    EnqueueSorted(read, queue, due, last);
    QueuedWith(read, queue, overrun, all, last, due, last', Enqueue(queue, due));
  }

  lemma QueuedWith(read: seq<Entry>, queue: seq<Entry>, overrun: nat, all: seq<Entry>, last: int,
                   due: seq<Entry>, last': int, q: seq<Entry>)
    requires Queued(read, queue, overrun, all, last) && last <= last' && Between(due, last, last')
    requires Sorted(read + q) && |queue| <= |q| <= |queue| + |due|
    requires |q| == |queue| + |due| ==> q == queue + due
    requires forall e :: e in q ==> e in queue || e in due
    ensures Queued(read, q, overrun + (|queue| + |due| - |q|), all + due, last')
  {
    QueuedFrom(read, queue, q, all, last, due, last');
    assert read + (queue + due) == read + queue + due;
  }

  ghost predicate Between(es: seq<Entry>, lo: int, hi: int) {
    forall e :: e in es ==> lo < e.n <= hi
  }

  lemma QueuedFrom(read: seq<Entry>, queue: seq<Entry>, q: seq<Entry>, all: seq<Entry>, last: int,
      due: seq<Entry>, last': int)
    requires forall e :: e in read + queue ==> e.n <= last && e in all
    requires last <= last' && Between(due, last, last') && forall e :: e in q ==> e in queue || e in due
    ensures forall e :: e in read + q ==> e.n <= last' && e in all + due
  {
    forall e | e in read + q ensures e.n <= last' && e in all + due {
      if e !in due {
        assert e in read + queue;
      }
    }
  }

  lemma ReceiveKeepsReader(c: Config, s: State, ev: R.Event)
    requires RT.Inv(s.rcv) && ReaderInv(c, s)
    ensures ReaderInv(c, Receive(s, ev))
  {
    ReceiveKeepsQueue(s, ev);
    EnqueueExactly(s.queue, RR.Delivered(R.Next(s.rcv, ev).outs));
  }

  lemma ReceiveKeepsQueue(s: State, ev: R.Event)
    requires RT.Inv(s.rcv) && Queued(s.read, s.queue, s.overrun, RR.Delivered(s.outs), s.rcv.lastDelivered)
    ensures var v := Receive(s, ev);
            Queued(v.read, v.queue, v.overrun, RR.Delivered(v.outs), v.rcv.lastDelivered)
  {
    var t := R.Next(s.rcv, ev);
    var all, due := RR.Delivered(s.outs), RR.Delivered(t.outs);
    RR.StepAdvances(s.rcv, ev);
    RR.DeliveredConcat(s.outs, t.outs);
    DueIsNew(s.rcv, ev);
    QueuedStep(s.read, s.queue, s.overrun, all, s.rcv.lastDelivered, due, t.s.lastDelivered);
  }

  // What is delivered comes after all that was delivered before.
  lemma DueIsNew(s: R.State, ev: R.Event)
    requires RT.Inv(s)
    ensures var due := RR.Delivered(R.Next(s, ev).outs);
            Sorted(due) && Between(due, s.lastDelivered, R.Next(s, ev).s.lastDelivered)
  {
    RR.StepDelivers(s, ev);
    if ev.TickDeliver? {
      DueIsBetween(s, ev.now);
    }
  }

  lemma DueIsBetween(s: R.State, now: nat)
    requires RT.Inv(s)
    ensures var due := s.list[..R.DueCount(s.list, 0, s.lastACK, now)];
            Sorted(due) && Between(due, s.lastDelivered, R.DeliverDue(s, now).s.lastDelivered)
  {
    var k := R.DueCount(s.list, 0, s.lastACK, now);
    if k > 0 {
      RR.PrefixBounded(s.list, s.lastDelivered, k);
    }
  }

  lemma ReadKeepsReader(c: Config, s: State)
    requires ReaderInv(c, s) && s.queue != [] && AllFaithful(c, s.written, RR.Delivered(s.outs))
    ensures ReaderInv(c, ReadOne(s)) && s.at <= s.queue[0].n
  {
    var e, all := s.queue[0], s.read + s.queue;
    assert all[|s.read|] == e && e in all;
    if s.read != [] {
      assert all[|s.read| - 1] == s.read[|s.read| - 1];
    }
    assert s.read + [e] + s.queue[1..] == all;
  }

  // ---------- sender steps ----------

  lemma SendKeepsSender(c: Config, s: State, ev: S.Event)
    requires SenderInv(c, s) && !ev.Write? && !ev.SetDropThreshold?
    ensures SenderInv(c, Send(s, ev))
  {
    ST.StepInv(s.snd, ev, LastTime(s.written));
    ST.StepGenuine(c.initial, s.written, s.snd, ev);
    ST.StepSentUpTo(s.snd, ev, LastTime(s.written));
    assert s.written + [] == s.written;
  }

  lemma WriteKeepsSender(c: Config, s: State, p: Packet)
    requires SenderInv(c, s) && LastTime(s.written) <= p.time
    ensures SenderInv(c, Send(s, S.Write(p)).(written := s.written + [p]))
  {
    ST.StepInv(s.snd, S.Write(p), LastTime(s.written));
    ST.StepGenuine(c.initial, s.written, s.snd, S.Write(p));
    ST.StepSentUpTo(s.snd, S.Write(p), LastTime(s.written));
    ST.GenuineGrows(c.initial, s.written, s.written + [p], s.wire);
  }

  // An ACK makes the sender forget only what is below it.
  lemma AckForgets(s: S.State, n: int, clock: nat)
    requires ST.Inv(s, clock)
    ensures FirstHeld(S.ACK(s, n)) <= FirstHeld(s) || FirstHeld(S.ACK(s, n)) <= n
  {
    AllSorted(s, clock);
    ST.AckIsSuffix(s, n);
    var k := |s.lossList| - |S.ACK(s, n).lossList|;
    assert S.All(S.ACK(s, n)) == S.All(s)[k..];
    if k > 0 {
      assert S.All(s)[k - 1] == s.lossList[k - 1];
    }
  }

  // Dropping makes it forget only what is older than the threshold.
  lemma DropForgets(c: Config, s: State, now: nat, n: int)
    requires SenderInv(c, s) && FirstHeld(s.snd) <= n < FirstHeld(S.DropOld(s.snd, now)) && c.initial <= n
    ensures n < c.initial + |s.written| && ST.SendTime(c.initial, s.written, n) + c.dropThreshold <= now
  {
    var snd := s.snd;
    ST.TimedPrefix(snd.lossList, snd.packetList);
    ST.DropIsSuffix(snd, now);
    var k := |snd.lossList| - |S.DropOld(snd, now).lossList|;
    assert S.All(S.DropOld(snd, now)) == S.All(snd)[k..];
    var e := S.All(snd)[n - FirstHeld(snd)];
    assert e == snd.lossList[n - FirstHeld(snd)] && e in S.All(snd) && e.n == n;
  }

  lemma AllSorted(s: S.State, clock: nat)
    requires ST.Inv(s, clock)
    ensures Sorted(s.lossList)
  {
    forall i, j | 0 <= i < j < |s.lossList| ensures s.lossList[i].n < s.lossList[j].n {
      assert S.All(s)[i] == s.lossList[i] && S.All(s)[j] == s.lossList[j];
    }
  }

  lemma OtherSendsHold(s: S.State, ev: S.Event)
    requires ev.Write? || ev.TickSend? || ev.GotNAK?
    ensures FirstHeld(S.Next(s, ev).s) == FirstHeld(s)
  {
    if ev.TickSend? {
      ST.SendKeepsAll(s, ev.now);
    }
  }

  // ---------- arrival of data ----------

  /** The receiver restores the sending time of a genuine packet exactly. */
  lemma ArrivalFaithful(c: Config, s: State, i: nat)
    requires Inv(c, s) && Enabled(c, s, DataArrives(i))
    ensures var time := T.Arrive(s.time, s.wire[i].p.timestamp);
            && Faithful(c, s.written, Received(c, time, s.wire[i]))
            && T.After(s.arrived + [SentAt(c, s, s.wire[i])]) == time
  {
    var e := s.wire[i];
    assert ST.Genuine(c.initial, s.written, e);
    var times := s.arrived + [SentAt(c, s, e)];
    assert times[..|s.arrived|] == s.arrived;
    T.RunTracks(times);
  }

  // ---------- all steps ----------

  lemma FaithfulGrows(c: Config, w: seq<Packet>, w': seq<Packet>, es: seq<Entry>)
    requires w <= w' && AllFaithful(c, w, es)
    ensures AllFaithful(c, w', es)
  {
  }

  // AgedOut speaks of the past only.
  lemma AgedStays(c: Config, s: State, v: State, n: int)
    requires s.written <= v.written && s.drops <= v.drops && AgedOut(c, s, n)
    ensures AgedOut(c, v, n)
  {
    var i :| 0 <= i < |s.drops| && ST.SendTime(c.initial, s.written, n) + c.dropThreshold <= s.drops[i];
    assert v.drops[i] == s.drops[i];
  }

  lemma HeldStays(c: Config, s: State, v: State)
    requires HeldInv(c, s) && s.written <= v.written && s.drops <= v.drops
    requires FirstHeld(v.snd) <= FirstHeld(s.snd) && s.rcv.lastACK <= v.rcv.lastACK
    ensures HeldInv(c, v)
  {
    forall n | c.initial <= n < FirstHeld(v.snd) ensures n <= v.rcv.lastACK || AgedOut(c, v, n) {
      if AgedOut(c, s, n) {
        AgedStays(c, s, v, n);
      }
    }
  }

  lemma WriteInv(c: Config, s: State, p: Packet)
    requires Inv(c, s) && LastTime(s.written) <= p.time
    ensures Inv(c, Send(s, S.Write(p)).(written := s.written + [p]))
  {
    var v := Send(s, S.Write(p)).(written := s.written + [p]);
    WriteKeepsSender(c, s, p);
    OtherSendsHold(s.snd, S.Write(p));
    HeldStays(c, s, v);
    FaithfulGrows(c, s.written, s.written + [p], s.rcv.list);
    FaithfulGrows(c, s.written, s.written + [p], RR.Delivered(s.outs));
  }

  lemma AckHeld(c: Config, s: State, n: int)
    requires SenderInv(c, s) && HeldInv(c, s) && n <= s.rcv.lastACK + 1
    ensures HeldInv(c, Send(s, S.GotACK(n)))
  {
    var v := Send(s, S.GotACK(n));
    AckForgets(s.snd, n, LastTime(s.written));
    forall k | c.initial <= k < FirstHeld(v.snd) ensures k <= v.rcv.lastACK || AgedOut(c, v, k) {
      if k < FirstHeld(s.snd) && AgedOut(c, s, k) {
        AgedStays(c, s, v, k);
      }
    }
  }

  lemma SendInv(c: Config, s: State, ev: S.Event)
    requires Inv(c, s) && !ev.Write? && !ev.TickDrop? && !ev.SetDropThreshold?
    requires ev.GotACK? ==> ev.n in s.acks
    ensures Inv(c, Send(s, ev))
  {
    SendKeepsSender(c, s, ev);
    if ev.GotACK? {
      AckHeld(c, s, ev.n);
    } else {
      OtherSendsHold(s.snd, ev);
      HeldStays(c, s, Send(s, ev));
    }
  }

  lemma DropHeld(c: Config, s: State, now: nat)
    requires SenderInv(c, s) && HeldInv(c, s)
    ensures HeldInv(c, Next(c, s, SenderDrop(now)))
  {
    var v := Next(c, s, SenderDrop(now));
    assert v.drops[|s.drops|] == now;
    forall n | c.initial <= n < FirstHeld(v.snd) ensures n <= v.rcv.lastACK || AgedOut(c, v, n) {
      if n < FirstHeld(s.snd) {
        if AgedOut(c, s, n) {
          AgedStays(c, s, v, n);
        }
      } else {
        DropForgets(c, s, now, n);
      }
    }
  }

  lemma DropInv(c: Config, s: State, now: nat)
    requires Inv(c, s)
    ensures Inv(c, Next(c, s, SenderDrop(now)))
  {
    SendKeepsSender(c, s, S.TickDrop(now));
    DropHeld(c, s, now);
    DropRest(c, s, Next(c, s, SenderDrop(now)));
  }

  // The receiver is not concerned.
  lemma DropRest(c: Config, s: State, v: State)
    requires Inv(c, s) && v == s.(snd := v.snd, wire := v.wire, drops := v.drops)
    ensures ReceiverInv(c, v) && ControlInv(v) && TimeInv(v) && ReaderInv(c, v)
    ensures v.rcv.maxSeen - v.rcv.lastDelivered < WINDOW
  {
  }

  lemma ReceiveInv(c: Config, s: State, ev: R.Event)
    requires Inv(c, s) && RT.Close(s.rcv, ev) && (ev.Arrive? ==> Faithful(c, s.written, ev.e))
    ensures Inv(c, Receive(s, ev))
  {
    ReceiveKeepsReceiver(c, s, ev);
    ReceiveKeepsControl(s, ev);
    ReceiveKeepsReader(c, s, ev);
    WindowKept(s.rcv, ev);
    RR.StepAdvances(s.rcv, ev);
    HeldStays(c, s, Receive(s, ev));
  }

  lemma ArrivalInv(c: Config, s: State, i: nat)
    requires Inv(c, s) && Enabled(c, s, DataArrives(i))
    ensures Inv(c, Next(c, s, DataArrives(i)))
  {
    ArrivalFaithful(c, s, i);
    var e := s.wire[i];
    var time := T.Arrive(s.time, e.p.timestamp);
    var u := s.(time := time, arrived := s.arrived + [SentAt(c, s, e)]);
    HeldStays(c, s, u);
    ReceiveInv(c, u, R.Arrive(Received(c, time, e)));
  }

  lemma StepInv(c: Config, s: State, ev: Event)
    requires Inv(c, s) && Enabled(c, s, ev)
    ensures Inv(c, Next(c, s, ev))
  {
    match ev
    case Write(p) => WriteInv(c, s, p);
    case SenderTick(now) => SendInv(c, s, S.TickSend(now));
    case SenderDrop(now) => DropInv(c, s, now);
    case DataArrives(i) => ArrivalInv(c, s, i);
    case ReceiverStep(ev) => ReceiveInv(c, s, ev);
    case AckArrives(i) => SendInv(c, s, S.GotACK(s.acks[i]));
    case NakArrives(i) => SendInv(c, s, S.GotNAK(ToldOf(s.naks[i])));
    case Read => ReadInv(c, s);
  }

  lemma ReadInv(c: Config, s: State)
    requires Inv(c, s) && s.queue != []
    ensures Inv(c, ReadOne(s))
  {
    ReadKeepsReader(c, s);
    HeldStays(c, s, ReadOne(s));
  }

  lemma InitInv(c: Config)
    ensures Inv(c, Init(c))
  {
    InitSender(c);
    InitReceiver(c);
  }

  lemma InitSender(c: Config)
    ensures SenderInv(c, Init(c)) && ControlInv(Init(c)) && HeldInv(c, Init(c)) && TimeInv(Init(c))
  {
  }

  lemma InitReceiver(c: Config)
    ensures ReceiverInv(c, Init(c)) && ReaderInv(c, Init(c))
  {
  }

  // The invariant as a whole, at the start and over one step.
  lemma StartInv(c: Config)
    ensures Inv(c, Init(c)) == true
  {
    InitInv(c);
  }

  lemma LeadsInv(c: Config, s: State, ev: Event, t: State)
    requires Inv(c, s) == true && Leads(c, s, ev, t)
    ensures Inv(c, t) == true
  {
    StepInv(c, s, ev);
  }

  lemma BehaviourInv(c: Config, states: seq<State>, evs: seq<Event>, i: nat)
    requires Behaviour(c, states, evs) && i < |states|
    ensures Inv(c, states[i])
  {
    Invariant(c, states, evs, i);
  }

  lemma {:induction false} Invariant(c: Config, states: seq<State>, evs: seq<Event>, i: nat)
    requires Behaviour(c, states, evs) && i < |states|
    ensures Inv(c, states[i]) == true
  {
    if i == 0 {
      StartInv(c);
    } else {
      Invariant(c, states, evs, i - 1);
      LeadsInv(c, states[i - 1], evs[i - 1], states[i]);
    }
  }

  // ---------- the theorems ----------

  /** In every reachable state of every session: packets were delivered in strictly increasing
      order, each with the payload written under its number, and none before the time it
      was written plus the latency. */
  lemma DeliverySafe(c: Config, states: seq<State>, evs: seq<Event>, i: nat)
    requires Behaviour(c, states, evs) && i < |states|
    ensures Sorted(RR.Delivered(states[i].outs))
    ensures AllFaithful(c, states[i].written, RR.Delivered(states[i].outs))
    ensures forall j :: 0 <= j < |states[i].outs| && states[i].outs[j].Deliver? ==>
              var e := states[i].outs[j].e;
              && c.initial <= e.n < c.initial + |states[i].written|
              && states[i].outs[j].now >= c.base + states[i].written[e.n - c.initial].time + c.delay
  {
    BehaviourInv(c, states, evs, i);
    var s := states[i];
    forall j | 0 <= j < |s.outs| && s.outs[j].Deliver? ensures s.outs[j].e in RR.Delivered(s.outs) {
      DeliveredHas(s.outs, j);
    }
  }

  lemma {:induction false} DeliveredHas(outs: seq<R.Output>, j: nat)
    requires j < |outs| && outs[j].Deliver?
    ensures outs[j].e in RR.Delivered(outs)
  {
    if j < |outs| - 1 {
      DeliveredHas(outs[..|outs| - 1], j);
    }
  }

  /** In every reachable state of every session: what the application has read came in strictly
      increasing order, each packet with the payload written under its number; reading never
      failed and never will; and only a full queue keeps a delivered packet from being read. */
  lemma ReadingSafe(c: Config, states: seq<State>, evs: seq<Event>, i: nat)
    requires Behaviour(c, states, evs) && i < |states|
    ensures Sorted(states[i].read) && AllFaithful(c, states[i].written, states[i].read)
    ensures states[i].errors == 0
    ensures states[i].queue != [] ==> states[i].at <= states[i].queue[0].n
    ensures states[i].overrun == 0 ==> states[i].read + states[i].queue == RR.Delivered(states[i].outs)
  {
    BehaviourInv(c, states, evs, i);
    var s := states[i];
    forall k | 0 <= k < |s.read| ensures s.read[k] == (s.read + s.queue)[k] {
    }
    forall e | e in s.read ensures e in s.read + s.queue {
    }
    if s.queue != [] {
      ReadKeepsReader(c, s);
    }
  }

  /** In every reachable state: whatever the receiver may still ask for (a number above its
      last ACK) is, once it was put on the wire, still in the sender's retransmission buffer
      unless the sender looked for old packets when it had been due for the drop threshold. So an
      ACK never costs a packet that a later NAK names, and nothing is dropped early. */
  lemma NothingAskedForIsGone(c: Config, states: seq<State>, evs: seq<Event>, i: nat, e: Entry)
    requires Behaviour(c, states, evs) && i < |states|
    requires var s := states[i];
             && e in s.wire && s.rcv.lastACK < e.n
             && forall k :: 0 <= k < |s.drops| ==> s.drops[k] < e.p.time + c.dropThreshold
    ensures Has(states[i].snd.lossList, e.n)
  {
    BehaviourInv(c, states, evs, i);
    var s := states[i].snd;
    assert ST.Genuine(c.initial, states[i].written, e);
    assert !AgedOut(c, states[i], e.n);
    var j := e.n - FirstHeld(s);
    assert S.All(s)[j].n == e.n;
    assert S.All(s)[j] == s.lossList[j];
  }
}
