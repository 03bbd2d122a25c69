/** Both ends of a session as the code runs them: the live sender and receiver, the time base and
    the reader, all on 31-bit numbers, with loss lists as bytes on the wire. Every run of a session
    is a run of these objects: the methods require no more than the session's own
    guarantees, so what is proved of sessions holds of what the objects hand over. */
module Link {
  import opened Circular
  import opened Packets
  import opened Wrappers
  import opened Session
  import opened SessionSafe
  import opened Sender
  import opened Receiver
  import opened ReceiverDriver
  import opened Tsbpd
  import opened Reader
  import S = SenderSpec
  import R = ReceiverSpec
  import RR = ReceiverRuns
  import L = LossList

  // The ACKs on the wire.
  ghost predicate Numbers(acks: seq<Number>, ns: seq<int>) {
    |acks| == |ns| && forall i :: 0 <= i < |acks| ==> acks[i] == SeqNum(ns[i])
  }

  ghost predicate Report(data: seq<Byte>, rs: seq<Range>) {
    L.SequenceNumbers(Flat(rs)) && L.Encode(Flat(rs)) == Ok(data)
  }

  // The loss lists on the wire.
  ghost predicate Reports(naks: seq<seq<Byte>>, rss: seq<seq<Range>>) {
    |naks| == |rss| && forall i :: 0 <= i < |naks| ==> Report(naks[i], rss[i])
  }

  class Pair {
    const snd: LiveSender
    const rcv: LiveReceiver
    const time: TimeBase
    const reader: PacketReader
    var wire: seq<Packet>
    var acks: seq<Number>
    var naks: seq<seq<Byte>>
    var delivered: seq<Packet>
    var queue: seq<Packet>
    var read: seq<Packet>

    // The session this is a run of.
    ghost const c: Config
    ghost var state: State

    ghost predicate Valid()
      reads this, snd, rcv, time, reader
    {
      Objects() && OnWire() && ToRead()
    }

    ghost predicate Objects()
      reads this, snd, rcv, time, reader
    {
      && snd.Valid() && snd.view == state.snd
      && rcv.Valid() && rcv.view == state.rcv
      && reader.Valid() && reader.at == state.at
      && time.Value() == state.time && time.base == c.base && time.delay == c.delay && time.drift == 0
    }

    ghost predicate OnWire()
      reads this
    {
      Held(wire, state.wire) && Numbers(acks, state.acks) && Reports(naks, state.naks)
    }

    ghost predicate ToRead()
      reads this
    {
      Held(delivered, RR.Delivered(state.outs)) && Held(queue, state.queue) && Held(read, state.read)
    }

    constructor (ghost c: Config, initialSequenceNumber: Number, dropThreshold: nat, ackInterval: nat, nakInterval: nat,
                 base: nat, delay: nat)
      requires initialSequenceNumber == SeqNum(c.initial)
      requires c == Config(c.initial, dropThreshold, ackInterval, nakInterval, base, delay)
      ensures Valid() && state == Init(c) && this.c == c
      ensures fresh(snd) && fresh(rcv) && fresh(time) && fresh(reader)
    {
      snd := new LiveSender(c.initial, initialSequenceNumber, dropThreshold);
      rcv := new LiveReceiver(c.initial, initialSequenceNumber, ackInterval, nakInterval);
      time := new TimeBase(base, delay);
      reader := new PacketReader(c.initial, initialSequenceNumber);
      wire, acks, naks, delivered, queue, read := [], [], [], [], [], [];
      this.c := c;
      state := Init(c);
    }

    // ---------- the sender ----------

    method Write(p: Packet)
      requires Valid() && Enabled(c, state, Session.Write(p))
      modifies this, snd
      ensures Valid() && state == Next(c, old(state), Session.Write(p))
    {
      snd.Push(p);
      state := Next(c, state, Session.Write(p));
      assert state.wire == old(state.wire);
    }

    method SenderTick(now: nat)
      requires Valid()
      modifies this, snd
      ensures Valid() && state == Next(c, old(state), Session.SenderTick(now))
    {
      var due := snd.SendDue(now);
      HeldConcat(wire, state.wire, due, S.SendDue(state.snd, now).outs);
      wire := wire + due;
      state := Next(c, state, Session.SenderTick(now));
    }

    method SenderDrop(now: nat)
      requires Valid()
      modifies this, snd
      ensures Valid() && state == Next(c, old(state), Session.SenderDrop(now))
    {
      snd.DropOld(now);
      state := Next(c, state, Session.SenderDrop(now));
      assert state.wire == old(state.wire);
    }

    method AckArrives(i: nat)
      requires Valid() && Enabled(c, state, Session.AckArrives(i))
      modifies this, snd
      ensures Valid() && state == Next(c, old(state), Session.AckArrives(i))
    {
      snd.ACK(acks[i], state.acks[i]);
      state := Next(c, state, Session.AckArrives(i));
      assert state.wire == old(state.wire);
    }

    method NakArrives(i: nat)
      requires Valid() && Enabled(c, state, Session.NakArrives(i)) && Sendable(state.naks[i])
      modifies this, snd
      ensures Valid() && state == Next(c, old(state), Session.NakArrives(i))
    {
      assert Report(naks[i], state.naks[i]);
      SendAgain(naks[i], state.naks[i]);
      state := Next(c, state, Session.NakArrives(i));
    }

    method SendAgain(data: seq<Byte>, ghost ranges: seq<Range>)
      requires Report(data, ranges) && Sendable(ranges)
      requires snd.Valid() && NearRanges(snd.view.lossList, ToldOf(ranges)) && Held(wire, state.wire)
      modifies `wire, snd
      ensures snd.Valid() && snd.view == S.NAK(old(snd.view), ToldOf(ranges)).s
      ensures Held(wire, state.wire + S.NAK(old(snd.view), ToldOf(ranges)).outs)
    {
      var heard := L.Unmarshal(data);
      L.LossListArrives(ranges, heard);
      ghost var v := snd.view;
      var sent := snd.NAK(heard.value, ToldOf(ranges));
      HeldConcat(wire, state.wire, sent, S.NAK(v, ToldOf(ranges)).outs);
      wire := wire + sent;
    }

    // ---------- the receiver ----------

    method DataArrives(i: nat)
      requires Valid() && Enabled(c, state, Session.DataArrives(i))
      modifies this, rcv, time
      ensures Valid() && state == Next(c, old(state), Session.DataArrives(i))
    {
      ghost var e, before := state.wire[i], state;
      TakeIn(wire[i], e);
      ghost var ev := R.Arrive(Received(c, time.Value(), e));
      state := before.(time := time.Value(), arrived := before.arrived + [SentAt(c, before, e)]);
      Quiet(state, ev);
      assert Sends(acks, naks, state, R.Next(state.rcv, ev).outs);
      Settle(ev);
    }

    method TakeIn(p: Packet, ghost e: Entry)
      requires e.p == p && Tagged(e) && Reports(naks, state.naks) && rcv.Valid()
      requires Near(e.n, rcv.view.maxSeen) && Near(e.n, rcv.view.lastDelivered)
      requires time.base == c.base && time.delay == c.delay && time.drift == 0
      modifies `naks, rcv, time`wrapPeriod, time`offset
      ensures time.Value() == Arrive(old(time.Value()), p.timestamp)
      ensures rcv.Valid() && rcv.view == R.Next(old(rcv.view), R.Arrive(Received(c, time.Value(), e))).s
      ensures Reports(naks, state.naks + Naks(R.Next(old(rcv.view), R.Arrive(Received(c, time.Value(), e))).outs))
    {
      var due := time.PktTsbpdTime(p.timestamp);
      ghost var v, x := rcv.view, Received(c, time.Value(), e);
      assert x == Entry(e.n, p.(time := due));
      OneMessage(v, R.Arrive(x));
      var list := rcv.Push(p.(time := due), e.n);
      SendNak(list, R.Push(v, x).outs);
    }

    // sendNAK: a list that is not empty goes onto the wire.
    method SendNak(list: seq<Number>, ghost outs: seq<R.Output>)
      requires |outs| <= 1 && list == NakSent(outs) && Reports(naks, state.naks)
      requires outs != [] && outs[0].SendNAK? ==> outs[0].ranges != []
      modifies `naks
      ensures Reports(naks, state.naks + Naks(outs))
    {
      if list != [] {
        ghost var ranges := outs[0].ranges;
        L.Encodes(ranges);
        var data := L.Marshal(list);
        naks := naks + [data.value];
        assert outs[..0] == [];
        assert Naks(outs) == [ranges];
      } else {
        assert outs != [] ==> outs[..0] == [];
        assert Naks(outs) == [];
      }
    }

    method TickACK(now: nat)
      requires Valid()
      modifies this, rcv
      ensures Valid() && state == Next(c, old(state), ReceiverStep(R.TickACK(now)))
    {
      Acknowledge(now);
      Quiet(state, R.TickACK(now));
      Settle(R.TickACK(now));
    }

    method Acknowledge(now: nat)
      requires rcv.Valid() && Numbers(acks, state.acks)
      modifies `acks, rcv
      ensures rcv.Valid() && rcv.view == R.Next(old(rcv.view), R.TickACK(now)).s
      ensures Numbers(acks, state.acks + Acks(R.Next(old(rcv.view), R.TickACK(now)).outs))
    {
      ghost var outs := R.PeriodicACK(rcv.view, now).outs;
      var ok, ack, lite := rcv.PeriodicACK(now);
      if ok {
        acks := acks + [ack];
        assert outs[..0] == [];
        assert Acks(outs) == [outs[0].n];
      }
    }

    method TickNAK(now: nat)
      requires Valid()
      modifies this, rcv
      ensures Valid() && state == Next(c, old(state), ReceiverStep(R.TickNAK(now)))
    {
      Ask(now);
      Quiet(state, R.TickNAK(now));
      Settle(R.TickNAK(now));
    }

    method Ask(now: nat)
      requires rcv.Valid() && Reports(naks, state.naks)
      modifies `naks, rcv
      ensures rcv.Valid() && rcv.view == R.Next(old(rcv.view), R.TickNAK(now)).s
      ensures Reports(naks, state.naks + Naks(R.Next(old(rcv.view), R.TickNAK(now)).outs))
    {
      ghost var outs := R.PeriodicNAK(rcv.view, now).outs;
      OneMessage(rcv.view, R.TickNAK(now));
      var list := rcv.PeriodicNAK(now);
      SendNak(list, outs);
    }

    method TickDeliver(now: nat)
      requires Valid()
      modifies this, rcv
      ensures Valid() && state == Next(c, old(state), ReceiverStep(R.TickDeliver(now)))
    {
      HandOver(now);
      OnlyDelivered(state, now, acks, naks);
      Settle(R.TickDeliver(now));
    }

    method HandOver(now: nat)
      requires rcv.Valid() && ToRead()
      modifies `delivered, `queue, rcv
      ensures rcv.Valid() && rcv.view == R.Next(old(rcv.view), R.TickDeliver(now)).s
      ensures Delivers(delivered, queue, state, R.Next(old(rcv.view), R.TickDeliver(now)).outs)
    {
      ghost var v := rcv.view;
      var due := rcv.DeliverDue(now);
      HandedHeld(due, v, now);
      Deliver(due, RR.Delivered(R.DeliverDue(v, now).outs));
    }

    method SetNAKInterval(interval: nat)
      requires Valid()
      modifies this, rcv
      ensures Valid() && state == Next(c, old(state), ReceiverStep(R.SetNAKInterval(interval)))
    {
      rcv.SetNAKInterval(interval);
      Quiet(state, R.SetNAKInterval(interval));
      Settle(R.SetNAKInterval(interval));
    }

    // The session takes the step that the objects have taken.
    ghost method Settle(ev: R.Event)
      requires snd.Valid() && snd.view == state.snd && reader.Valid() && reader.at == state.at
      requires time.Value() == state.time && time.base == c.base && time.delay == c.delay && time.drift == 0
      requires rcv.Valid() && rcv.view == R.Next(state.rcv, ev).s
      requires Held(wire, state.wire) && Held(read, state.read)
      requires Sends(acks, naks, state, R.Next(state.rcv, ev).outs)
      requires Delivers(delivered, queue, state, R.Next(state.rcv, ev).outs)
      modifies `state
      ensures Valid() && state == Receive(old(state), ev)
    {
      RR.DeliveredConcat(state.outs, R.Next(state.rcv, ev).outs);
      state := Receive(state, ev);
    }

    // What deliver does with each packet: it is queued for reading if there is room.
    method Deliver(due: seq<Packet>, ghost es: seq<Entry>)
      requires Held(due, es) && ToRead()
      modifies `delivered, `queue
      ensures Held(delivered, RR.Delivered(state.outs) + es)
      ensures Held(queue, Enqueue(state.queue, es))
    {
      ghost var all := RR.Delivered(state.outs);
      var k := 0;
      assert es[..0] == [] && all + [] == all;
      while k < |due|
        modifies `delivered, `queue
        invariant k <= |due|
        invariant Held(delivered, all + es[..k])
        invariant Held(queue, Enqueue(state.queue, es[..k]))
      {
        var p := due[k];
        assert es[..k + 1][..k] == es[..k];
        HeldConcat(delivered, all + es[..k], [p], [es[k]]);
        assert all + es[..k] + [es[k]] == all + es[..k + 1];
        delivered := delivered + [p];
        if |queue| < QUEUE {
          HeldConcat(queue, Enqueue(state.queue, es[..k]), [p], [es[k]]);
          queue := queue + [p];
        }
        k := k + 1;
      }
      assert es[..k] == es;
    }

    // ---------- reading ----------

    method Read() returns (r: Result<Packet>)
      requires Valid() && Enabled(c, state, Session.Read) && state.at <= state.queue[0].n
      modifies this, reader
      ensures Valid() && state == Next(c, old(state), Session.Read)
      ensures r == Ok(old(queue)[0])
    {
      ghost var e := state.queue[0];
      var p := queue[0];
      queue := queue[1..];
      r := reader.ReadPacket(p, e.n);
      HeldConcat(read, state.read, [p], [e]);
      read := read + [p];
      state := Next(c, state, Session.Read);
    }

    // ---------- any run ----------

    method Step(ev: Event)
      requires Valid() && Enabled(c, state, ev) && Ready(state, ev)
      modifies this, snd, rcv, time, reader
      ensures Valid() && state == Next(c, old(state), ev)
    {
      match ev
      case Write(p) => Write(p);
      case SenderTick(now) => SenderTick(now);
      case SenderDrop(now) => SenderDrop(now);
      case DataArrives(i) => DataArrives(i);
      case AckArrives(i) => AckArrives(i);
      case NakArrives(i) => NakArrives(i);
      case Read => var _ := Read();
      case ReceiverStep(rev) => ReceiverPhase(rev);
    }

    method ReceiverPhase(ev: R.Event)
      requires Valid() && !ev.Arrive?
      modifies this, rcv
      ensures Valid() && state == Next(c, old(state), ReceiverStep(ev))
    {
      match ev
      case TickACK(now) => TickACK(now);
      case TickNAK(now) => TickNAK(now);
      case TickDeliver(now) => TickDeliver(now);
      case SetNAKInterval(interval) => SetNAKInterval(interval);
    }

    /** For every behaviour of a session: driven by its events the objects go through its states, so no
        call ever leaves the window, and what they hand over is what the session's theorems are
        about. Packets delivered and packets read are those written under strictly increasing
        numbers. */
    method Drive(evs: seq<Event>, ghost states: seq<State>)
      requires Valid() && Behaviour(c, states, evs) && state == Init(c)
      modifies this, snd, rcv, time, reader
      ensures Valid() && state == states[|evs|]
      ensures Genuine(c, state, delivered, RR.Delivered(state.outs))
      ensures Genuine(c, state, read, state.read)
    {
      var k := 0;
      while k < |evs|
        invariant k <= |evs|
        invariant Valid() && state == states[k]
      {
        Prepared(c, states, evs, k);
        Step(evs[k]);
        k := k + 1;
      }
      Safe(c, states, evs);
    }
  }

  /** The packets carry, in strictly increasing order of their numbers, payloads as they were written
      under these numbers, and are due at the time of writing plus latency. */
  ghost predicate Genuine(c: Config, s: State, ps: seq<Packet>, es: seq<Entry>) {
    Held(ps, es) && Sorted(es) && AllFaithful(c, s.written, es)
  }

  // What the steps rely on: loss lists can be decoded, and the packet to be read is not an old one.
  ghost predicate Ready(s: State, ev: Event) {
    && (ev.NakArrives? && ev.i < |s.naks| ==> Sendable(s.naks[ev.i]))
    && (ev.Read? && s.queue != [] ==> s.at <= s.queue[0].n)
  }

  lemma Prepared(c: Config, states: seq<State>, evs: seq<Event>, k: nat)
    requires Behaviour(c, states, evs) && k < |evs|
    ensures Leads(c, states[k], evs[k], states[k + 1]) && Ready(states[k], evs[k])
  {
    BehaviourInv(c, states, evs, k);
    SafeStep(c, states[k], evs[k]);
  }

  lemma SafeStep(c: Config, s: State, ev: Event)
    requires Inv(c, s)
    ensures Ready(s, ev)
  {
    if ev.NakArrives? && ev.i < |s.naks| {
      assert s.naks[ev.i] in s.naks;
    }
    if ev.Read? && s.queue != [] {
      ReadKeepsReader(c, s);
    }
  }

  lemma Safe(c: Config, states: seq<State>, evs: seq<Event>)
    requires Behaviour(c, states, evs)
    ensures var s := states[|evs|];
            && Sorted(RR.Delivered(s.outs)) && AllFaithful(c, s.written, RR.Delivered(s.outs))
            && Sorted(s.read) && AllFaithful(c, s.written, s.read)
  {
    DeliverySafe(c, states, evs, |evs|);
    ReadingSafe(c, states, evs, |evs|);
  }

  // What is on the wire once these messages are.
  ghost predicate Sends(acks: seq<Number>, naks: seq<seq<Byte>>, s: State, outs: seq<R.Output>) {
    Numbers(acks, s.acks + Acks(outs)) && Reports(naks, s.naks + Naks(outs))
  }

  // What is delivered once these packets are.
  ghost predicate Delivers(delivered: seq<Packet>, queue: seq<Packet>, s: State, outs: seq<R.Output>) {
    && Held(delivered, RR.Delivered(s.outs) + RR.Delivered(outs))
    && Held(queue, Enqueue(s.queue, RR.Delivered(outs)))
  }

  // A step other than delivering leaves the queue alone, and sends what its name says at most.
  lemma Quiet(s: State, ev: R.Event)
    requires !ev.TickDeliver?
    ensures var outs := R.Next(s.rcv, ev).outs;
            && RR.Delivered(s.outs) + RR.Delivered(outs) == RR.Delivered(s.outs)
            && Enqueue(s.queue, RR.Delivered(outs)) == s.queue
            && (!ev.TickACK? ==> s.acks + Acks(outs) == s.acks)
            && (ev.TickACK? || ev.SetNAKInterval? ==> s.naks + Naks(outs) == s.naks)
  {
    RR.StepDelivers(s.rcv, ev);
    OneMessage(s.rcv, ev);
    assert s.acks + [] == s.acks && s.naks + [] == s.naks;
    assert RR.Delivered(s.outs) + [] == RR.Delivered(s.outs);
  }

  lemma OneMessage(s: R.State, ev: R.Event)
    requires !ev.TickDeliver?
    ensures var outs := R.Next(s, ev).outs;
            && |outs| <= 1 && (outs != [] && outs[0].SendNAK? ==> outs[0].ranges != [])
            && (!ev.TickACK? ==> Acks(outs) == [])
            && (ev.TickACK? || ev.SetNAKInterval? ==> Naks(outs) == [])
  {
    var outs := R.Next(s, ev).outs;
    assert outs != [] ==> outs[..0] == [];
  }

  // Delivering sends no message.
  lemma OnlyDelivered(s: State, now: nat, acks: seq<Number>, naks: seq<seq<Byte>>)
    requires Numbers(acks, s.acks) && Reports(naks, s.naks)
    ensures Sends(acks, naks, s, R.Next(s.rcv, R.TickDeliver(now)).outs)
  {
    OnlyDeliveries(s.rcv.list[..R.DueCount(s.rcv.list, 0, s.rcv.lastACK, now)], now);
    assert s.acks + [] == s.acks && s.naks + [] == s.naks;
  }

  lemma {:induction false} OnlyDeliveries(es: seq<Entry>, now: nat)
    ensures Acks(R.Deliveries(es, now)) == [] && Naks(R.Deliveries(es, now)) == []
  {
    if es != [] {
      OnlyDeliveries(es[..|es| - 1], now);
      assert R.Deliveries(es, now)[..|es| - 1] == R.Deliveries(es[..|es| - 1], now);
    }
  }
}
