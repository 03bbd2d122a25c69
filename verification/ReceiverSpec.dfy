/** The live receiver (congestion/live/receive.go) over unbounded packet numbers. Each
    lock-protected section is one step, so every interleaving of Push with the phases
    of Tick is a sequence of steps. */
module ReceiverSpec {
  import opened Packets

  // The clock values are uint64 and their difference wraps.
  function Elapsed(now: nat, last: nat): nat {
    (now - last) % 0x1_0000_0000_0000_0000
  }

  datatype Stats = Stats(
    all: Tally,       // Pkt, Byte
    retrans: Tally,   // PktRetrans, ByteRetrans
    belated: Tally,   // PktBelated, ByteBelated
    drop: Tally,      // PktDrop, ByteDrop
    buf: Tally,       // PktBuf, ByteBuf
    unique: Tally,    // PktUnique, ByteUnique
    late: Tally,      // PktLate, ByteLate
    pktLoss: int,
    pktLost: int)

  const NOTHING := Tally(0, 0)

  datatype State = State(
    maxSeen: int,
    lastACK: int,
    lastDelivered: int,
    list: seq<Entry>,
    nPackets: nat,
    ackInterval: nat,
    nakInterval: nat,
    lastPeriodicACK: nat,
    lastPeriodicNAK: nat,
    stats: Stats)

  /** What the receiver hands to its callbacks. */
  datatype Output =
    | SendACK(n: int, lite: bool)
    | SendNAK(ranges: seq<Range>)
    | Deliver(e: Entry, now: nat)

  datatype Step = Step(s: State, outs: seq<Output>)

  datatype Event =
    | Arrive(e: Entry)
    | TickACK(now: nat)
    | TickNAK(now: nat)
    | TickDeliver(now: nat)
    | SetNAKInterval(interval: nat)

  function Init(initial: int, ackInterval: nat, nakInterval: nat): State {
    var stats := Stats(NOTHING, NOTHING, NOTHING, NOTHING, NOTHING, NOTHING, NOTHING, 0, 0);
    State(initial - 1, initial - 1, initial - 1, [], 0, ackInterval, nakInterval, 0, 0, stats)
  }

  // ---------- Push ----------

  function Counted(st: Stats, p: Packet): Stats {
    st.(all := AddOne(st.all, p), retrans := if p.retransmitted then AddOne(st.retrans, p) else st.retrans)
  }

  function Dropped(st: Stats, p: Packet): Stats {
    st.(drop := AddOne(st.drop, p))
  }

  function Belated(st: Stats, p: Packet): Stats {
    st.(belated := AddOne(st.belated, p), drop := AddOne(st.drop, p))
  }

  function Buffered(st: Stats, p: Packet): Stats {
    st.(buf := AddOne(st.buf, p), unique := AddOne(st.unique, p))
  }

  function Late(st: Stats, p: Packet): Stats {
    st.(buf := AddOne(st.buf, p), unique := AddOne(st.unique, p), late := AddOne(st.late, p))
  }

  // Where n belongs: the first position at or after i that does not hold a lower number.
  function Position(list: seq<Entry>, i: nat, n: int): (k: nat)
    requires i <= |list|
    ensures i <= k <= |list|
    ensures forall j :: i <= j < k ==> list[j].n < n
    ensures k < |list| ==> list[k].n >= n
    decreases |list| - i
  {
    if i == |list| || list[i].n >= n then i else Position(list, i + 1, n)
  }

  function CountedIn(s: State, p: Packet): State {
    s.(nPackets := s.nPackets + 1, stats := Counted(s.stats, p))
  }

  // A packet that comes out of order fills a gap or is a duplicate.
  function Fill(s: State, e: Entry): State {
    var k := Position(s.list, 0, e.n);
    if k == |s.list| then s
    else if s.list[k].n == e.n then s.(stats := Dropped(s.stats, e.p))
    else s.(list := s.list[..k] + [e] + s.list[k..], stats := Late(s.stats, e.p))
  }

  // A packet above all others goes to the end, `lost` numbers after the one before.
  function Extend(s: State, e: Entry, lost: int): State {
    s.(maxSeen := e.n, list := s.list + [e],
       stats := Buffered(s.stats.(pktLoss := s.stats.pktLoss + lost), e.p))
  }

  function Push(s: State, e: Entry): Step {
    var s := CountedIn(s, e.p);
    if e.n <= s.lastDelivered then
      Step(s.(stats := Belated(s.stats, e.p)), [])
    else if e.n < s.lastACK then
      Step(s.(stats := Dropped(s.stats, e.p)), [])
    else if e.n == s.maxSeen + 1 then
      Step(Extend(s, e, 0), [])
    else if e.n <= s.maxSeen then
      Step(Fill(s, e), [])
    else
      Step(Extend(s, e, e.n - s.maxSeen - 1), [SendNAK([Range(s.maxSeen + 1, e.n - 1)])])
  }

  // ---------- the phases of Tick ----------

  // How far the list can be acknowledged from number `ack` on.
  function AckScan(list: seq<Entry>, i: nat, ack: int, now: nat): int
    requires i <= |list|
    decreases |list| - i
  {
    if i == |list| then ack
    else if list[i].n <= ack then AckScan(list, i + 1, ack, now)
    else if list[i].p.time <= now || list[i].n == ack + 1 then AckScan(list, i + 1, list[i].n, now)
    else ack
  }

  predicate AckFires(s: State, now: nat) {
    Elapsed(now, s.lastPeriodicACK) >= s.ackInterval || s.nPackets >= 64
  }

  function PeriodicACK(s: State, now: nat): Step {
    if !AckFires(s, now) then Step(s, [])
    else
      var ack := AckScan(s.list, 0, s.lastACK, now);
      Step(s.(lastACK := ack, lastPeriodicACK := now, nPackets := 0),
           [SendACK(ack + 1, Elapsed(now, s.lastPeriodicACK) < s.ackInterval)])
  }

  function Gaps(list: seq<Entry>, i: nat, ack: int): seq<Range>
    requires i <= |list|
    decreases |list| - i
  {
    if i == |list| then []
    else if list[i].n <= ack then Gaps(list, i + 1, ack)
    else if list[i].n != ack + 1 then [Range(ack + 1, list[i].n - 1)] + Gaps(list, i + 1, list[i].n)
    else Gaps(list, i + 1, list[i].n)
  }

  predicate NakFires(s: State, now: nat) {
    Elapsed(now, s.lastPeriodicNAK) >= s.nakInterval
  }

  // Tick sends the list only if it is not empty.
  function PeriodicNAK(s: State, now: nat): Step {
    if !NakFires(s, now) then Step(s, [])
    else
      var gaps := Gaps(s.list, 0, s.lastACK);
      Step(s.(lastPeriodicNAK := now), if gaps == [] then [] else [SendNAK(gaps)])
  }

  function DueCount(list: seq<Entry>, i: nat, ack: int, now: nat): (k: nat)
    requires i <= |list|
    ensures i <= k <= |list|
    decreases |list| - i
  {
    if i < |list| && list[i].n <= ack && list[i].p.time <= now then DueCount(list, i + 1, ack, now) else i
  }

  // The number before position i of a list that comes after number prev.
  function Before(prev: int, list: seq<Entry>, i: nat): int
    requires i <= |list|
  {
    if i == 0 then prev else list[i - 1].n
  }

  // The numbers passed over when the first k packets are delivered after number prev.
  function Skipped(prev: int, list: seq<Entry>, k: nat): int
    requires k <= |list|
  {
    if k == 0 then 0
    else
      var distance := list[k - 1].n - Before(prev, list, k - 1);
      Skipped(prev, list, k - 1) + if distance > 1 then distance - 1 else 0
  }

  function Deliveries(es: seq<Entry>, now: nat): (outs: seq<Output>)
    ensures |outs| == |es|
  {
    if es == [] then [] else Deliveries(es[..|es| - 1], now) + [Deliver(es[|es| - 1], now)]
  }

  lemma {:induction false} DeliveriesAt(es: seq<Entry>, now: nat, i: nat)
    requires i < |es|
    ensures Deliveries(es, now)[i] == Deliver(es[i], now)
  {
    if i < |es| - 1 {
      DeliveriesAt(es[..|es| - 1], now, i);
    }
  }

  /** The packets that are due are those up to the first one not acknowledged or not due. */
  lemma {:induction false} DueCountStops(list: seq<Entry>, i: nat, ack: int, now: nat)
    requires i <= |list|
    ensures var k := DueCount(list, i, ack, now);
            && (forall j :: i <= j < k ==> list[j].n <= ack && list[j].p.time <= now)
            && (k < |list| ==> list[k].n > ack || list[k].p.time > now)
    decreases |list| - i
  {
    if i < |list| && list[i].n <= ack && list[i].p.time <= now {
      DueCountStops(list, i + 1, ack, now);
    }
  }

  lemma SubAllStep(t: Tally, list: seq<Entry>, k: nat)
    requires k < |list|
    ensures SubAll(t, list[..0]) == t
    ensures SubAll(t, list[..k + 1]) == Tally(SubAll(t, list[..k]).pkts - 1, SubAll(t,
            list[..k]).bytes - Len(list[k].p))
  {
    assert list[..0] == [];
    assert list[..k + 1][..k] == list[..k];
  }

  // The state once the first k packets have been delivered.
  function AfterDelivery(s: State, k: nat): State
    requires k <= |s.list|
  {
    if k == 0 then s
    else
      s.(lastDelivered := s.list[k - 1].n, list := s.list[k..],
         stats := s.stats.(buf := SubAll(s.stats.buf, s.list[..k]),
                           pktLost := s.stats.pktLost + Skipped(s.lastDelivered, s.list, k)))
  }

  function DeliverDue(s: State, now: nat): Step {
    var k := DueCount(s.list, 0, s.lastACK, now);
    Step(AfterDelivery(s, k), Deliveries(s.list[..k], now))
  }

  function Next(s: State, ev: Event): Step {
    match ev
    case Arrive(e) => Push(s, e)
    case TickACK(now) => PeriodicACK(s, now)
    case TickNAK(now) => PeriodicNAK(s, now)
    case TickDeliver(now) => DeliverDue(s, now)
    case SetNAKInterval(interval) => Step(s.(nakInterval := interval), [])
  }

  function Then(r: Step, ev: Event): Step {
    var t := Next(r.s, ev);
    Step(t.s, r.outs + t.outs)
  }

  /** A run: every interleaving of the steps, with all that was handed to the callbacks. */
  function Run(s: State, evs: seq<Event>): Step {
    if evs == [] then Step(s, []) else Then(Run(s, evs[..|evs| - 1]), evs[|evs| - 1])
  }
}
