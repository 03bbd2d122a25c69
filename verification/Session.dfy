/** A sender, a network and a receiver together. The network loses, repeats and reorders at
    will: whatever was ever put on the wire may arrive at any time, any number of times, or not
    at all. Steps of the two sides and arrivals interleave freely. What the receiver delivers goes into
    the read queue of the connection, from which the application reads. */
module Session {
  import opened Circular
  import opened Packets
  import S = SenderSpec
  import R = ReceiverSpec
  import RR = ReceiverRuns
  import Reader
  import T = Tsbpd
  import L = LossList

  // The capacity of the read queue.
  const QUEUE: nat := 1024

  // `base` and `delay` are the receiver's time base and latency.
  datatype Config = Config(
    initial: int, dropThreshold: nat, ackInterval: nat, nakInterval: nat, base: nat, delay: nat)

  datatype State = State(
    snd: S.State,
    rcv: R.State,
    time: T.Base,
    wire: seq<Entry>,         // data packets sent so far
    acks: seq<int>,           // ACKs sent so far
    naks: seq<seq<Range>>,    // loss lists sent so far
    written: seq<Packet>,     // what the application wrote: number initial + i is written[i]
    arrived: seq<nat>,        // sending times of the packets that arrived
    outs: seq<R.Output>,      // what the receiver handed to its callbacks
    drops: seq<nat>,          // the times at which the sender looked for packets too old
    queue: seq<Entry>,        // delivered and waiting to be read
    overrun: nat,             // delivered and lost because the queue was full
    at: int,                  // the number the reader expects next
    read: seq<Entry>,         // what the application has read
    errors: nat)              // how often reading failed

  datatype Event =
    | Write(p: Packet)
    | SenderTick(now: nat)
    | SenderDrop(now: nat)
    | DataArrives(i: nat)
    | ReceiverStep(ev: R.Event)
    | AckArrives(i: nat)
    | NakArrives(i: nat)
    | Read

  function Init(c: Config): State {
    State(S.Init(c.initial, c.dropThreshold), R.Init(c.initial, c.ackInterval, c.nakInterval), T.FRESH,
          [], [], [], [], [], [], [], [], 0, c.initial, [], 0)
  }

  function LastTime(written: seq<Packet>): nat {
    if written == [] then 0 else written[|written| - 1].time
  }

  // The sending time that packet e of the wire stands for.
  function SentAt(c: Config, s: State, e: Entry): nat
    requires c.initial <= e.n < c.initial + |s.written|
  {
    s.written[e.n - c.initial].time
  }

  /** What the environment guarantees: the application writes in order of time, only packets
      that were sent arrive, the sending times of arriving packets are paced, and whatever is
      compared on the circle lies in one window: an arriving number with the cursors of the
      receiver, an ACK or loss list with the packets the sender holds, a packet read with the
      one expected. */
  ghost predicate Enabled(c: Config, s: State, ev: Event) {
    match ev
    case Write(p) => LastTime(s.written) <= p.time
    case DataArrives(i) =>
      && i < |s.wire|
      && c.initial <= s.wire[i].n < c.initial + |s.written|
      && T.Paced(s.arrived + [SentAt(c, s, s.wire[i])], T.SLACK)
      && Near(s.wire[i].n, s.rcv.maxSeen) && Near(s.wire[i].n, s.rcv.lastDelivered)
    case ReceiverStep(ev) => !ev.Arrive?
    case AckArrives(i) => i < |s.acks| && NearAll(s.snd.lossList, s.acks[i])
    case NakArrives(i) => i < |s.naks| && NearRanges(s.snd.lossList, ToldOf(s.naks[i]))
    case Read => s.queue != [] && Near(s.queue[0].n, s.at)
    case _ => true
  }

  // As much of a loss list as fits into a packet.
  function ToldOf(ranges: seq<Range>): seq<Range> {
    ranges[..L.Fit(ranges, 0)]
  }

  // The packet as handlePacket passes it to the receiver.
  function Received(c: Config, time: T.Base, e: Entry): Entry {
    e.(p := e.p.(time := c.base + T.Restore(time, e.p.timestamp) + c.delay))
  }

  function Acks(outs: seq<R.Output>): seq<int> {
    if outs == [] then []
    else
      var before := Acks(outs[..|outs| - 1]);
      match outs[|outs| - 1] case SendACK(n, _) => before + [n] case _ => before
  }

  function Naks(outs: seq<R.Output>): seq<seq<Range>> {
    if outs == [] then []
    else
      var before := Naks(outs[..|outs| - 1]);
      match outs[|outs| - 1] case SendNAK(rs) => before + [rs] case _ => before
  }

  // deliver: what does not fit into the queue is lost.
  function Enqueue(queue: seq<Entry>, es: seq<Entry>): (q: seq<Entry>)
    ensures |queue| <= |q| <= |queue| + |es|
  {
    if es == [] then queue
    else
      var before := Enqueue(queue, es[..|es| - 1]);
      if |before| < QUEUE then before + [es[|es| - 1]] else before
  }

  function Receive(s: State, ev: R.Event): State {
    var t := R.Next(s.rcv, ev);
    var due := RR.Delivered(t.outs);
    var queue := Enqueue(s.queue, due);
    s.(rcv := t.s, outs := s.outs + t.outs, acks := s.acks + Acks(t.outs), naks := s.naks + Naks(t.outs),
       queue := queue, overrun := s.overrun + |s.queue| + |due| - |queue|)
  }

  // ReadPacket.
  function ReadOne(s: State): State
    requires s.queue != []
  {
    var e := s.queue[0];
    var t := s.(queue := s.queue[1..], at := Reader.Expect(s.at, e.n));
    if e.n < s.at then t.(errors := s.errors + 1) else t.(read := s.read + [e])
  }

  function Send(s: State, ev: S.Event): State {
    var t := S.Next(s.snd, ev);
    s.(snd := t.s, wire := s.wire + t.outs)
  }

  // The first number the sender still holds.
  function FirstHeld(s: S.State): int {
    s.next - |S.All(s)|
  }

  function Next(c: Config, s: State, ev: Event): State
    requires Enabled(c, s, ev)
  {
    match ev
    case Write(p) => Send(s, S.Write(p)).(written := s.written + [p])
    case SenderTick(now) => Send(s, S.TickSend(now))
    case SenderDrop(now) => Send(s, S.TickDrop(now)).(drops := s.drops + [now])
    case DataArrives(i) =>
      var e := s.wire[i];
      var time := T.Arrive(s.time, e.p.timestamp);
      Receive(s.(time := time, arrived := s.arrived + [SentAt(c, s, e)]), R.Arrive(Received(c, time, e)))
    case ReceiverStep(ev) => Receive(s, ev)
    case AckArrives(i) => Send(s, S.GotACK(s.acks[i]))
    case NakArrives(i) => Send(s, S.GotNAK(ToldOf(s.naks[i])))
    case Read => ReadOne(s)
  }

  ghost predicate Leads(c: Config, s: State, ev: Event, t: State) {
    Enabled(c, s, ev) && t == Next(c, s, ev)
  }

  /** A run: from the initial state, any enabled step at a time. */
  ghost predicate Behaviour(c: Config, states: seq<State>, evs: seq<Event>) {
    && |states| == |evs| + 1
    && states[0] == Init(c)
    && forall i :: 0 <= i < |evs| ==> Leads(c, states[i], evs[i], states[i + 1])
  }

  // What each step keeps, a run keeps.
  lemma {:induction false} Persists(on: seq<bool>, i: nat, j: nat)
    requires i <= j < |on| && on[i] && forall k :: 0 <= k < |on| - 1 && on[k] ==> on[k + 1]
    ensures on[j]
    decreases j - i
  {
    if i < j {
      Persists(on, i, j - 1);
    }
  }
}
