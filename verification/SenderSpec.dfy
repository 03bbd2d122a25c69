/** The live sender (congestion/live/send.go) over unbounded packet numbers. Each
    lock-protected section is one step. */
module SenderSpec {
  import opened Circular
  import opened Packets

  datatype Stats = Stats(
    all: Tally,       // Pkt, Byte
    unique: Tally,    // PktUnique, ByteUnique
    retrans: Tally,   // PktRetrans, ByteRetrans
    buf: Tally,       // PktBuf, ByteBuf
    drop: Tally,      // PktDrop, ByteDrop
    loss: Tally,      // PktLoss, ByteLoss
    flight: int)      // PktFlightSize

  datatype State = State(
    next: int,
    dropThreshold: nat,
    packetList: seq<Entry>,
    lossList: seq<Entry>,
    probeTime: nat,
    stats: Stats)

  // `outs` are the packets handed to the network, in that order.
  datatype Step = Step(s: State, outs: seq<Entry>)

  datatype Event =
    | Write(p: Packet)
    | TickSend(now: nat)
    | TickDrop(now: nat)
    | GotACK(n: int)
    | GotNAK(ranges: seq<Range>)
    | SetDropThreshold(threshold: nat)

  function Init(initial: int, dropThreshold: nat): State {
    var none := Tally(0, 0);
    State(initial, dropThreshold, [], [], 0, Stats(none, none, none, none, none, none, 0))
  }

  // All packets still held: sent ones first, then those waiting.
  function All(s: State): seq<Entry> {
    s.lossList + s.packetList
  }

  // ---------- Push ----------

  function Timestamp(time: nat): nat {
    time % 0x1_0000_0000
  }

  // Every 16th packet and its successor are sent at the same time; the timestamp keeps the
  // time of writing.
  function Numbered(s: State, p: Packet): Entry {
    Entry(s.next, p.(seqno := SeqNum(s.next), timestamp := Timestamp(p.time),
                     time := if s.next % 16 == 1 then s.probeTime else p.time))
  }

  function Push(s: State, p: Packet): State {
    var e := Numbered(s, p);
    s.(next := s.next + 1,
       packetList := s.packetList + [e],
       probeTime := if s.next % 16 == 0 then p.time else s.probeTime,
       stats := s.stats.(buf := AddOne(s.stats.buf, p), flight := |s.packetList| + 1))
  }

  // ---------- the phases of Tick ----------

  function RipeCount(list: seq<Entry>, i: nat, now: nat): (k: nat)
    requires i <= |list|
    ensures i <= k <= |list|
    decreases |list| - i
  {
    if i < |list| && list[i].p.time <= now then RipeCount(list, i + 1, now) else i
  }

  function SendDue(s: State, now: nat): Step {
    var k := RipeCount(s.packetList, 0, now);
    var due := s.packetList[..k];
    Step(s.(packetList := s.packetList[k..],
            lossList := s.lossList + due,
            stats := s.stats.(all := AddAll(s.stats.all, due), unique := AddAll(s.stats.unique, due))),
         due)
  }

  predicate TooOld(e: Entry, threshold: nat, now: nat) {
    e.p.time + threshold <= now
  }

  // The packets of the first k that are too old, or that are not.
  function Aged(list: seq<Entry>, k: nat, old_: bool, threshold: nat, now: nat): seq<Entry>
    requires k <= |list|
  {
    if k == 0 then []
    else
      Aged(list, k - 1, old_, threshold, now)
      + if TooOld(list[k - 1], threshold, now) == old_ then [list[k - 1]] else []
  }

  function DropOld(s: State, now: nat): State {
    var gone := Aged(s.lossList, |s.lossList|, true, s.dropThreshold, now);
    s.(lossList := Aged(s.lossList, |s.lossList|, false, s.dropThreshold, now),
       stats := s.stats.(drop := AddAll(s.stats.drop, gone), loss := AddAll(s.stats.loss, gone),
                         buf := SubAll(s.stats.buf, gone)))
  }

  // ---------- ACK and NAK ----------

  function AckCount(list: seq<Entry>, i: nat, n: int): (k: nat)
    requires i <= |list|
    ensures i <= k <= |list|
    decreases |list| - i
  {
    if i < |list| && list[i].n < n then AckCount(list, i + 1, n) else i
  }

  function ACK(s: State, n: int): State {
    var k := AckCount(s.lossList, 0, n);
    s.(lossList := s.lossList[k..], stats := s.stats.(buf := SubAll(s.stats.buf, s.lossList[..k])))
  }

  // How many of the first k ranges contain n.
  function Hits(ranges: seq<Range>, k: nat, n: int): nat
    requires k <= |ranges|
  {
    if k == 0 then 0
    else Hits(ranges, k - 1, n) + if ranges[k - 1].lo <= n <= ranges[k - 1].hi then 1 else 0
  }

  function Marked(e: Entry): Entry {
    e.(p := e.p.(retransmitted := true))
  }

  function Copies(e: Entry, k: nat): (es: seq<Entry>)
    ensures |es| == k
  {
    if k == 0 then [] else Copies(e, k - 1) + [e]
  }

  // What is sent again: the list from position k on, last packet first, one copy per range.
  function Resent(list: seq<Entry>, k: nat, ranges: seq<Range>): seq<Entry>
    requires k <= |list|
    decreases |list| - k
  {
    if k == |list| then []
    else Resent(list, k + 1, ranges) + Copies(Marked(list[k]), Hits(ranges, |ranges|, list[k].n))
  }

  // The list from position k on, with the packets that were sent again marked.
  function Remarked(list: seq<Entry>, k: nat, ranges: seq<Range>): (es: seq<Entry>)
    requires k <= |list|
    ensures |es| == |list| - k
    decreases |list| - k
  {
    if k == |list| then []
    else [if Hits(ranges, |ranges|, list[k].n) > 0 then Marked(list[k]) else list[k]] + Remarked(list, k + 1, ranges)
  }

  function CountResent(st: Stats, sent: seq<Entry>): Stats {
    st.(all := AddAll(st.all, sent), retrans := AddAll(st.retrans, sent), loss := AddAll(st.loss, sent))
  }

  lemma CopiesStep(ranges: seq<Range>, j: nat, e: Entry)
    requires j < |ranges|
    ensures var now, next := Copies(Marked(e), Hits(ranges, j, e.n)), Copies(Marked(e), Hits(ranges, j + 1, e.n));
            next == if ranges[j].lo <= e.n <= ranges[j].hi then now + [Marked(e)] else now
  {
  }

  lemma CountResentConcat(st: Stats, a: seq<Entry>, b: seq<Entry>)
    ensures CountResent(CountResent(st, a), b) == CountResent(st, a + b)
  {
    BytesConcat(a, b);
  }

  lemma CountResentSnoc(st: Stats, sent: seq<Entry>, e: Entry)
    ensures var c := CountResent(st, sent);
            CountResent(st, sent + [e])
            == c.(all := AddOne(c.all, e.p), retrans := AddOne(c.retrans, e.p), loss := AddOne(c.loss, e.p))
  {
    assert (sent + [e])[..|sent|] == sent;
  }

  function NAK(s: State, ranges: seq<Range>): Step {
    var sent := Resent(s.lossList, 0, ranges);
    Step(s.(lossList := Remarked(s.lossList, 0, ranges),
            stats := CountResent(s.stats, sent)),
         sent)
  }

  // ---------- runs ----------

  function Next(s: State, ev: Event): Step {
    match ev
    case Write(p) => Step(Push(s, p), [])
    case TickSend(now) => SendDue(s, now)
    case TickDrop(now) => Step(DropOld(s, now), [])
    case GotACK(n) => Step(ACK(s, n), [])
    case GotNAK(ranges) => NAK(s, ranges)
    case SetDropThreshold(threshold) => Step(s.(dropThreshold := threshold), [])
  }

  function Then(r: Step, ev: Event): Step {
    var t := Next(r.s, ev);
    Step(t.s, r.outs + t.outs)
  }

  function Run(s: State, evs: seq<Event>): Step {
    if evs == [] then Step(s, []) else Then(Run(s, evs[..|evs| - 1]), evs[|evs| - 1])
  }
}
