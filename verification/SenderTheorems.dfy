/** What every run of the live sender keeps, and why its early exits lose nothing. */
module SenderTheorems {
  import opened Circular
  import opened Packets
  import opened SenderSpec

  // ---------- the send buffer ----------

  ghost predicate Consecutive(es: seq<Entry>, next: int) {
    forall i :: 0 <= i < |es| ==> es[i].n == next - |es| + i
  }

  ghost predicate Timed(es: seq<Entry>) {
    forall i, j :: 0 <= i < j < |es| ==> es[i].p.time <= es[j].p.time
  }

  ghost predicate NotAfter(es: seq<Entry>, t: nat) {
    forall i :: 0 <= i < |es| ==> es[i].p.time <= t
  }

  ghost predicate Queue(es: seq<Entry>, next: int, probeTime: nat, clock: nat) {
    && Consecutive(es, next)
    && Timed(es)
    && NotAfter(es, clock)
    && probeTime <= clock
    && (next % 16 == 1 ==> NotAfter(es, probeTime))
  }

  /** The packets held are the consecutive run of numbers up to the next one to be given, in
      non-decreasing order of sending time, even where that time was rewritten. `clock` is the
      time of the last write. */
  ghost predicate Inv(s: State, clock: nat) {
    && Queue(All(s), s.next, s.probeTime, clock)
    && s.stats.buf == Tally(|All(s)|, Bytes(All(s)))
  }

  lemma AppendKeepsQueue(es: seq<Entry>, e: Entry, next: int, probeTime: nat, clock: nat, time: nat)
    requires Queue(es, next, probeTime, clock) && clock <= time
    requires e.n == next && e.p.time == if next % 16 == 1 then probeTime else time
    ensures Queue(es + [e], next + 1, if next % 16 == 0 then time else probeTime, time)
  {
    var all := es + [e];
    assert forall i :: 0 <= i < |es| ==> all[i] == es[i];
  }

  lemma PushKeepsInv(s: State, p: Packet, clock: nat)
    requires Inv(s, clock) && clock <= p.time
    ensures Inv(Push(s, p), p.time)
  {
    var e, t := Numbered(s, p), Push(s, p);
    assert All(t) == All(s) + [e];
    assert t.stats.buf == Tally(|All(t)|, Bytes(All(t))) by {
      BytesConcat(All(s), [e]);
    }
    AppendKeepsQueue(All(s), e, s.next, s.probeTime, clock, p.time);
  }

  // Dropping the first k packets held.
  lemma ForgetKeepsInv(s: State, t: State, k: nat, clock: nat)
    requires Inv(s, clock) && k <= |s.lossList|
    requires t == s.(lossList := s.lossList[k..], stats := t.stats)
    requires t.stats.buf == SubAll(s.stats.buf, s.lossList[..k])
    ensures Inv(t, clock)
  {
    assert All(t) == All(s)[k..];
    assert All(s)[..k] == s.lossList[..k];
    BytesSplit(All(s), k);
  }

  lemma SendKeepsAll(s: State, now: nat)
    ensures All(SendDue(s, now).s) == All(s)
  {
    var k := RipeCount(s.packetList, 0, now);
    assert s.packetList == s.packetList[..k] + s.packetList[k..];
  }

  // ---------- the scans ----------

  /** Tick sends exactly the packets whose time has come, although it stops at the first
      whose time has not. */
  lemma {:induction false} RipeIsExact(list: seq<Entry>, i: nat, now: nat)
    requires i <= |list| && Timed(list)
    ensures var k := RipeCount(list, i, now);
            && (forall j :: i <= j < k ==> list[j].p.time <= now)
            && (forall j :: k <= j < |list| ==> list[j].p.time > now)
    decreases |list| - i
  {
    if i < |list| && list[i].p.time <= now {
      RipeIsExact(list, i + 1, now);
    }
  }

  // The first position from i on that is not too old.
  ghost function OldCount(list: seq<Entry>, i: nat, threshold: nat, now: nat): (k: nat)
    requires i <= |list|
    ensures i <= k <= |list|
    decreases |list| - i
  {
    if i < |list| && TooOld(list[i], threshold, now) then OldCount(list, i + 1, threshold, now) else i
  }

  lemma {:induction false} OldCountSplits(list: seq<Entry>, i: nat, threshold: nat, now: nat)
    requires i <= |list| && Timed(list)
    ensures var k := OldCount(list, i, threshold, now);
            && (forall j :: i <= j < k ==> TooOld(list[j], threshold, now))
            && (forall j :: k <= j < |list| ==> !TooOld(list[j], threshold, now))
    decreases |list| - i
  {
    if i < |list| && TooOld(list[i], threshold, now) {
      OldCountSplits(list, i + 1, threshold, now);
    }
  }

  lemma {:induction false} AgedSplits(list: seq<Entry>, m: nat, k: nat, threshold: nat, now: nat)
    requires m <= |list| && k <= |list|
    requires forall j :: 0 <= j < k ==> TooOld(list[j], threshold, now)
    requires forall j :: k <= j < |list| ==> !TooOld(list[j], threshold, now)
    ensures Aged(list, m, true, threshold, now) == if m <= k then list[..m] else list[..k]
    ensures Aged(list, m, false, threshold, now) == if m <= k then [] else list[k..m]
  {
    if m > 0 {
      AgedSplits(list, m - 1, k, threshold, now);
      assert list[..m] == list[..m - 1] + [list[m - 1]];
      if m > k {
        assert list[k..m] == list[k..m - 1] + [list[m - 1]];
      }
    }
  }

  // Dropping by age removes a prefix of the retransmission buffer.
  lemma DropIsPrefix(s: State, now: nat)
    requires Timed(s.lossList)
    ensures var k := OldCount(s.lossList, 0, s.dropThreshold, now);
            && DropOld(s, now).lossList == s.lossList[k..]
            && DropOld(s, now).stats.buf == SubAll(s.stats.buf, s.lossList[..k])
            && (forall j :: 0 <= j < |s.lossList| ==> (TooOld(s.lossList[j], s.dropThreshold, now) <==> j < k))
  {
    var k := OldCount(s.lossList, 0, s.dropThreshold, now);
    OldCountSplits(s.lossList, 0, s.dropThreshold, now);
    AgedSplits(s.lossList, |s.lossList|, k, s.dropThreshold, now);
    assert s.lossList[k..|s.lossList|] == s.lossList[k..];
    assert k == |s.lossList| ==> s.lossList[..|s.lossList|] == s.lossList[..k] && s.lossList[k..] == [];
  }

  /** Dropping by age leaves the end of the retransmission buffer that begins with the first packet
      whose sending time plus the threshold is still to come. */
  lemma DropIsSuffix(s: State, now: nat)
    requires Timed(s.lossList)
    ensures var kept := DropOld(s, now).lossList;
            var k := |s.lossList| - |kept|;
            && k >= 0 && kept == s.lossList[k..]
            && (forall j :: 0 <= j < k ==> s.lossList[j].p.time + s.dropThreshold <= now)
            && (forall j :: k <= j < |s.lossList| ==> now < s.lossList[j].p.time + s.dropThreshold)
  {
    DropIsPrefix(s, now);
  }

  lemma {:induction false} AckCountSplits(list: seq<Entry>, i: nat, n: int)
    requires i <= |list| && Sorted(list)
    ensures var k := AckCount(list, i, n);
            && (forall j :: i <= j < k ==> list[j].n < n)
            && (forall j :: k <= j < |list| ==> list[j].n >= n)
    decreases |list| - i
  {
    if i < |list| && list[i].n < n {
      AckCountSplits(list, i + 1, n);
    }
  }

  /** ACK leaves the end of the retransmission buffer that begins with the first number not below
      the acknowledged one. */
  lemma AckIsSuffix(s: State, n: int)
    requires Sorted(s.lossList)
    ensures var kept := ACK(s, n).lossList;
            var k := |s.lossList| - |kept|;
            && k >= 0 && kept == s.lossList[k..]
            && (forall j :: 0 <= j < k ==> s.lossList[j].n < n)
            && (forall j :: k <= j < |s.lossList| ==> s.lossList[j].n >= n)
  {
    AckCountSplits(s.lossList, 0, n);
  }

  // ---------- retransmission ----------

  lemma {:induction false} HitsOnce(ranges: seq<Range>, k: nat, n: int)
    requires k <= |ranges| && Separated(ranges)
    ensures Hits(ranges, k, n) == if Covered(ranges[..k], n) then 1 else 0
  {
    if k > 0 {
      HitsOnce(ranges, k - 1, n);
      CoveredSnoc(ranges[..k - 1], ranges[k - 1], n);
      assert ranges[..k] == ranges[..k - 1] + [ranges[k - 1]];
    }
  }

  lemma CoveredSnoc(rs: seq<Range>, r: Range, n: int)
    ensures Covered(rs + [r], n) <==> Covered(rs, n) || InRange(n, r)
  {
    if Covered(rs, n) {
      var i :| 0 <= i < |rs| && InRange(n, rs[i]);
      assert InRange(n, (rs + [r])[i]);
    }
    if InRange(n, r) {
      assert InRange(n, (rs + [r])[|rs|]);
    }
  }

  ghost predicate Descending(es: seq<Entry>) {
    forall i, j :: 0 <= i < j < |es| ==> es[i].n > es[j].n
  }

  // es are packets of the list from position k on, each marked, and none below.
  ghost predicate ComesFrom(es: seq<Entry>, list: seq<Entry>, k: nat) {
    forall i :: 0 <= i < |es| ==> exists j :: k <= j < |list| && es[i] == Marked(list[j])
  }

  lemma ResentStep(list: seq<Entry>, k: nat, ranges: seq<Range>)
    requires k < |list| && Separated(ranges)
    ensures Resent(list, k, ranges) ==
            Resent(list, k + 1, ranges) + if Covered(ranges, list[k].n) then [Marked(list[k])] else []
  {
    HitsOnce(ranges, |ranges|, list[k].n);
    assert ranges[..|ranges|] == ranges;
    assert Copies(Marked(list[k]), 1) == Copies(Marked(list[k]), 0) + [Marked(list[k])];
  }

  lemma {:induction false} ResentFrom(list: seq<Entry>, k: nat, ranges: seq<Range>)
    requires k <= |list| && Sorted(list) && Separated(ranges)
    ensures Descending(Resent(list, k, ranges)) && ComesFrom(Resent(list, k, ranges), list, k)
    decreases |list| - k
  {
    if k < |list| {
      var tail := Resent(list, k + 1, ranges);
      ResentFrom(list, k + 1, ranges);
      ResentStep(list, k, ranges);
      forall i | 0 <= i < |tail|
        ensures tail[i].n > list[k].n && exists j :: k <= j < |list| && tail[i] == Marked(list[j])
      {
        var j :| k + 1 <= j < |list| && tail[i] == Marked(list[j]);
      }
    }
  }

  lemma {:induction false} ResentCovers(list: seq<Entry>, k: nat, ranges: seq<Range>, j: nat)
    requires k <= j < |list| && Sorted(list) && Separated(ranges)
    ensures Marked(list[j]) in Resent(list, k, ranges) <==> Covered(ranges, list[j].n)
    decreases |list| - k
  {
    ResentStep(list, k, ranges);
    if k < j {
      ResentCovers(list, k + 1, ranges, j);
    } else {
      ResentFrom(list, k + 1, ranges);
      NotAmong(list, k, Resent(list, k + 1, ranges));
    }
  }

  // A packet is not among those that come after it.
  lemma NotAmong(list: seq<Entry>, k: nat, es: seq<Entry>)
    requires k < |list| && Sorted(list) && ComesFrom(es, list, k + 1)
    ensures Marked(list[k]) !in es
  {
    forall i | 0 <= i < |es| ensures es[i].n != list[k].n {
      var j :| k + 1 <= j < |list| && es[i] == Marked(list[j]);
    }
  }

  lemma NakIsExact(s: State, ranges: seq<Range>)
    requires Sorted(s.lossList) && Separated(ranges)
    ensures var es := NAK(s, ranges).outs;
            && Descending(es)
            && ComesFrom(es, s.lossList, 0)
            && (forall j :: 0 <= j < |s.lossList| ==>
                  (Marked(s.lossList[j]) in es <==> Covered(ranges, s.lossList[j].n)))
  {
    ResentFrom(s.lossList, 0, ranges);
    forall j | 0 <= j < |s.lossList|
      ensures Marked(s.lossList[j]) in NAK(s, ranges).outs <==> Covered(ranges, s.lossList[j].n)
    {
      ResentCovers(s.lossList, 0, ranges, j);
    }
  }

  // Retransmission leaves numbers, times and payloads alone.
  lemma {:induction false} RemarkedAt(list: seq<Entry>, k: nat, ranges: seq<Range>, j: nat)
    requires k <= j < |list|
    ensures Remarked(list, k, ranges)[j - k] == list[j] || Remarked(list, k, ranges)[j - k] == Marked(list[j])
    decreases j - k
  {
    if k < j {
      RemarkedAt(list, k + 1, ranges, j);
    }
  }

  lemma {:induction false} SameLengths(a: seq<Entry>, b: seq<Entry>)
    requires |a| == |b| && forall i :: 0 <= i < |a| ==> Len(a[i].p) == Len(b[i].p)
    ensures Bytes(a) == Bytes(b)
  {
    if a != [] {
      SameLengths(a[..|a| - 1], b[..|b| - 1]);
    }
  }

  // The packets are the same, some of them marked.
  ghost predicate SameButMarked(a: seq<Entry>, b: seq<Entry>) {
    |a| == |b| && forall j :: 0 <= j < |a| ==> b[j] == a[j] || b[j] == Marked(a[j])
  }

  lemma MarkingKeepsQueue(a: seq<Entry>, b: seq<Entry>, next: int, probeTime: nat, clock: nat)
    requires SameButMarked(a, b) && Queue(a, next, probeTime, clock)
    ensures Queue(b, next, probeTime, clock) && Bytes(b) == Bytes(a)
  {
    SameLengths(b, a);
  }

  lemma RemarkedSame(list: seq<Entry>, rest: seq<Entry>, ranges: seq<Range>)
    ensures SameButMarked(list + rest, Remarked(list, 0, ranges) + rest)
  {
    var a, b := list + rest, Remarked(list, 0, ranges) + rest;
    forall j | 0 <= j < |a| ensures b[j] == a[j] || b[j] == Marked(a[j]) {
      if j < |list| {
        RemarkedAt(list, 0, ranges, j);
      }
    }
  }

  lemma NakKeepsInv(s: State, ranges: seq<Range>, clock: nat)
    requires Inv(s, clock)
    ensures Inv(NAK(s, ranges).s, clock)
  {
    RemarkedSame(s.lossList, s.packetList, ranges);
    MarkingKeepsQueue(All(s), All(NAK(s, ranges).s), s.next, s.probeTime, clock);
  }

  // ---------- runs ----------

  // The time of the last write, or 0.
  function Clock(evs: seq<Event>): nat {
    if evs == [] then 0
    else match evs[|evs| - 1] case Write(p) => p.time case _ => Clock(evs[..|evs| - 1])
  }

  /** The application writes in order of time. */
  ghost predicate WrittenInOrder(evs: seq<Event>) {
    evs != [] ==>
      && WrittenInOrder(evs[..|evs| - 1])
      && (evs[|evs| - 1].Write? ==> Clock(evs[..|evs| - 1]) <= evs[|evs| - 1].p.time)
  }

  // The packets written, in order: number initial + i is written[i].
  function Written(evs: seq<Event>): seq<Packet> {
    if evs == [] then []
    else
      Written(evs[..|evs| - 1]) + match evs[|evs| - 1] case Write(p) => [p] case _ => []
  }

  /** The time number n is to be sent at: that of its writing, but the second packet of a probing
      pair goes out with the first one; if there is no first one, it goes out at once. */
  function SendTime(initial: int, written: seq<Packet>, n: int): nat
    requires initial <= n < initial + |written|
  {
    if n % 16 != 1 then written[n - initial].time
    else if n == initial then 0
    else written[n - 1 - initial].time
  }

  /** e is the packet written under its number: same payload, the timestamp of writing, and the
      time to be sent at. */
  ghost predicate Genuine(initial: int, written: seq<Packet>, e: Entry) {
    && initial <= e.n < initial + |written|
    && e.p.seqno == SeqNum(e.n)
    && e.p.data == written[e.n - initial].data
    && e.p.timestamp == written[e.n - initial].time % 0x1_0000_0000
    && e.p.time == SendTime(initial, written, e.n)
  }

  // The time kept for the second packet of a pair.
  ghost predicate ProbeSet(initial: int, written: seq<Packet>, s: State) {
    && s.next == initial + |written|
    && (s.next % 16 == 1 ==> s.probeTime == if written == [] then 0 else written[|written| - 1].time)
  }

  ghost predicate AllGenuine(initial: int, written: seq<Packet>, es: seq<Entry>) {
    forall e :: e in es ==> Genuine(initial, written, e)
  }

  lemma StepInv(s: State, ev: Event, clock: nat)
    requires Inv(s, clock) && (ev.Write? ==> clock <= ev.p.time)
    ensures Inv(Next(s, ev).s, if ev.Write? then ev.p.time else clock)
  {
    match ev
    case Write(p) => PushKeepsInv(s, p, clock);
    case TickSend(now) => SendKeepsAll(s, now);
    case TickDrop(now) =>
      TimedPrefix(s.lossList, s.packetList);
      DropIsPrefix(s, now);
      ForgetKeepsInv(s, DropOld(s, now), OldCount(s.lossList, 0, s.dropThreshold, now), clock);
    case GotACK(n) => ForgetKeepsInv(s, ACK(s, n), AckCount(s.lossList, 0, n), clock);
    case GotNAK(ranges) => NakKeepsInv(s, ranges, clock);
    case SetDropThreshold(_) =>
  }

  lemma TimedPrefix(a: seq<Entry>, b: seq<Entry>)
    requires Timed(a + b)
    ensures Timed(a) && Timed(b)
  {
    forall i, j | 0 <= i < j < |a| ensures a[i].p.time <= a[j].p.time {
      assert (a + b)[i] == a[i] && (a + b)[j] == a[j];
    }
    forall i, j | 0 <= i < j < |b| ensures b[i].p.time <= b[j].p.time {
      assert (a + b)[|a| + i] == b[i] && (a + b)[|a| + j] == b[j];
    }
  }

  lemma {:induction false} AgedSubset(list: seq<Entry>, k: nat, old_: bool, threshold: nat, now: nat)
    requires k <= |list|
    ensures forall e :: e in Aged(list, k, old_, threshold, now) ==> e in list
  {
    if k > 0 {
      AgedSubset(list, k - 1, old_, threshold, now);
    }
  }

  lemma {:induction false} CopiesAre(e: Entry, k: nat)
    ensures forall x :: x in Copies(e, k) ==> x == e
  {
    if k > 0 {
      CopiesAre(e, k - 1);
    }
  }

  lemma {:induction false} ResentGenuine(initial: int, written: seq<Packet>, list: seq<Entry>, k: nat,
      ranges: seq<Range>)
    requires k <= |list| && AllGenuine(initial, written, list)
    ensures AllGenuine(initial, written, Resent(list, k, ranges))
    ensures AllGenuine(initial, written, Remarked(list, k, ranges))
    decreases |list| - k
  {
    if k < |list| {
      ResentGenuine(initial, written, list, k + 1, ranges);
      CopiesAre(Marked(list[k]), Hits(ranges, |ranges|, list[k].n));
      assert list[k] in list;
    }
  }

  lemma WriteGenuine(initial: int, written: seq<Packet>, s: State, p: Packet)
    requires ProbeSet(initial, written, s) && AllGenuine(initial, written, All(s))
    ensures ProbeSet(initial, written + [p], Push(s, p)) && AllGenuine(initial, written + [p], All(Push(s, p)))
  {
    var w, e := written + [p], Numbered(s, p);
    assert All(Push(s, p)) == All(s) + [e];
    GenuineGrows(initial, written, w, All(s));
    NumberedGenuine(initial, written, s, p);
  }

  lemma NumberedGenuine(initial: int, written: seq<Packet>, s: State, p: Packet)
    requires ProbeSet(initial, written, s)
    ensures ProbeSet(initial, written + [p], Push(s, p)) && Genuine(initial, written + [p], Numbered(s, p))
  {
    NextOf16(s.next);
  }

  lemma NextOf16(n: int)
    ensures (n + 1) % 16 == 1 <==> n % 16 == 0
  {
  }

  lemma StepGenuine(initial: int, written: seq<Packet>, s: State, ev: Event)
    requires ProbeSet(initial, written, s) && AllGenuine(initial, written, All(s))
    ensures var t, w := Next(s, ev), written + (if ev.Write? then [ev.p] else []);
            && ProbeSet(initial, w, t.s)
            && AllGenuine(initial, w, All(t.s))
            && AllGenuine(initial, w, t.outs)
  {
    assert written + [] == written;
    if ev.Write? {
      WriteGenuine(initial, written, s, ev.p);
    } else {
      OtherGenuine(initial, written, s, ev);
    }
  }

  lemma OtherGenuine(initial: int, written: seq<Packet>, s: State, ev: Event)
    requires AllGenuine(initial, written, All(s)) && !ev.Write?
    ensures AllGenuine(initial, written, All(Next(s, ev).s)) && AllGenuine(initial, written, Next(s, ev).outs)
  {
    assert forall e :: e in s.packetList ==> e in All(s);
    match ev
    case TickDrop(now) =>
      AgedSubset(s.lossList, |s.lossList|, false, s.dropThreshold, now);
    case TickSend(now) =>
      SendKeepsAll(s, now);
    case GotNAK(ranges) =>
      assert AllGenuine(initial, written, s.lossList);
      ResentGenuine(initial, written, s.lossList, 0, ranges);
    case GotACK(n) =>
      assert forall e :: e in All(ACK(s, n)) ==> e in All(s);
    case SetDropThreshold(_) =>
    case Write(_) =>
  }

  ghost predicate Good(initial: int, evs: seq<Event>, r: Step) {
    && Inv(r.s, Clock(evs))
    && ProbeSet(initial, Written(evs), r.s)
    && AllGenuine(initial, Written(evs), All(r.s))
    && AllGenuine(initial, Written(evs), r.outs)
  }

  lemma StepGood(initial: int, evs: seq<Event>, r: Step)
    requires evs != [] && WrittenInOrder(evs) && Good(initial, evs[..|evs| - 1], r)
    ensures Good(initial, evs, Then(r, evs[|evs| - 1]))
  {
    var before, ev := evs[..|evs| - 1], evs[|evs| - 1];
    StepInv(r.s, ev, Clock(before));
    StepGenuine(initial, Written(before), r.s, ev);
    GenuineGrows(initial, Written(before), Written(evs), r.outs);
  }

  lemma GenuineGrows(initial: int, w: seq<Packet>, w': seq<Packet>, es: seq<Entry>)
    requires w <= w' && AllGenuine(initial, w, es)
    ensures AllGenuine(initial, w', es)
  {
  }

  /** On every run with writes in order of time: the buffer invariant holds, and everything ever
      put on the wire, retransmissions included, is the packet written under that number. */
  lemma {:induction false} RunSafe(initial: int, dropThreshold: nat, evs: seq<Event>)
    requires WrittenInOrder(evs)
    ensures Good(initial, evs, Run(Init(initial, dropThreshold), evs))
  {
    if evs != [] {
      var before := evs[..|evs| - 1];
      RunSafe(initial, dropThreshold, before);
      StepGood(initial, evs, Run(Init(initial, dropThreshold), before));
    }
  }

  /** So in every run, the packets a Tick sends are all those due and no other. */
  lemma RunSendsWhatIsDue(initial: int, dropThreshold: nat, evs: seq<Event>, now: nat)
    requires WrittenInOrder(evs)
    ensures var s := Run(Init(initial, dropThreshold), evs).s;
            forall e :: e in s.packetList ==> (e in SendDue(s, now).outs <==> e.p.time <= now)
  {
    RunSafe(initial, dropThreshold, evs);
    var s := Run(Init(initial, dropThreshold), evs).s;
    TimedPrefix(s.lossList, s.packetList);
    RipeIsExact(s.packetList, 0, now);
    var k := RipeCount(s.packetList, 0, now);
    forall e | e in s.packetList ensures e in s.packetList[..k] <==> e.p.time <= now {
      var i :| 0 <= i < |s.packetList| && s.packetList[i] == e;
      if i < k {
        assert s.packetList[..k][i] == e;
      }
    }
  }

  // ---------- what has been sent ----------

  // All numbers below this have been handed to the network.
  function SentUpTo(s: State): int {
    s.next - |s.packetList|
  }

  ghost predicate AllBelow(es: seq<Entry>, n: int) {
    forall e :: e in es ==> e.n < n
  }

  lemma {:induction false} ResentBelow(list: seq<Entry>, k: nat, ranges: seq<Range>, n: int)
    requires k <= |list| && AllBelow(list, n)
    ensures AllBelow(Resent(list, k, ranges), n)
    decreases |list| - k
  {
    if k < |list| {
      ResentBelow(list, k + 1, ranges, n);
      CopiesAre(Marked(list[k]), Hits(ranges, |ranges|, list[k].n));
      assert list[k] in list;
    }
  }

  lemma LossBelow(s: State, clock: nat)
    requires Inv(s, clock)
    ensures AllBelow(s.lossList, SentUpTo(s))
  {
    forall e | e in s.lossList ensures e.n < SentUpTo(s) {
      var i :| 0 <= i < |s.lossList| && s.lossList[i] == e;
      assert All(s)[i] == e;
    }
  }

  lemma DueBelow(s: State, now: nat, clock: nat)
    requires Inv(s, clock)
    ensures AllBelow(SendDue(s, now).outs, SentUpTo(SendDue(s, now).s))
  {
    var k := RipeCount(s.packetList, 0, now);
    forall e | e in s.packetList[..k] ensures e.n < SentUpTo(s) + k {
      var i :| 0 <= i < k && s.packetList[i] == e;
      assert All(s)[|s.lossList| + i] == e;
    }
  }

  /** Only numbers that have been sent are on the wire, and what has been sent stays so. */
  lemma StepSentUpTo(s: State, ev: Event, clock: nat)
    requires Inv(s, clock)
    ensures SentUpTo(s) <= SentUpTo(Next(s, ev).s)
    ensures AllBelow(Next(s, ev).outs, SentUpTo(Next(s, ev).s))
  {
    match ev
    case TickSend(now) => DueBelow(s, now, clock);
    case GotNAK(ranges) =>
      LossBelow(s, clock);
      ResentBelow(s.lossList, 0, ranges, SentUpTo(s));
    case _ =>
  }

  // The numbers of the first transmissions, in order.
  function Firsts(outs: seq<Entry>): seq<int> {
    if outs == [] then []
    else
      var before, e := Firsts(outs[..|outs| - 1]), outs[|outs| - 1];
      if e.p.retransmitted then before else before + [e.n]
  }

  lemma {:induction false} FirstsConcat(a: seq<Entry>, b: seq<Entry>)
    ensures Firsts(a + b) == Firsts(a) + Firsts(b)
  {
    if b == [] {
      assert a + b == a;
    } else {
      assert (a + b)[..|a + b| - 1] == a + b[..|b| - 1];
      FirstsConcat(a, b[..|b| - 1]);
    }
  }

  ghost predicate Unsent(es: seq<Entry>) {
    forall e :: e in es ==> !e.p.retransmitted
  }

  lemma {:induction false} FirstsOfUnsent(es: seq<Entry>)
    requires Unsent(es)
    ensures |Firsts(es)| == |es| && forall i :: 0 <= i < |es| ==> Firsts(es)[i] == es[i].n
  {
    if es != [] {
      FirstsOfUnsent(es[..|es| - 1]);
    }
  }

  lemma {:induction false} FirstsOfResent(list: seq<Entry>, k: nat, ranges: seq<Range>)
    requires k <= |list|
    ensures Firsts(Resent(list, k, ranges)) == []
    decreases |list| - k
  {
    if k < |list| {
      FirstsOfResent(list, k + 1, ranges);
      var copies := Copies(Marked(list[k]), Hits(ranges, |ranges|, list[k].n));
      FirstsOfCopies(list[k], |copies|);
      FirstsConcat(Resent(list, k + 1, ranges), copies);
    }
  }

  lemma {:induction false} FirstsOfCopies(e: Entry, k: nat)
    ensures Firsts(Copies(Marked(e), k)) == []
  {
    if k > 0 {
      FirstsOfCopies(e, k - 1);
      assert Copies(Marked(e), k)[..k - 1] == Copies(Marked(e), k - 1);
    }
  }

  // The first transmissions so far are the numbers from the initial one on.
  ghost predicate InSequence(initial: int, s: State, firsts: seq<int>) {
    && |firsts| == SentUpTo(s) - initial
    && (forall i :: 0 <= i < |firsts| ==> firsts[i] == initial + i)
    && Unsent(s.packetList)
  }

  lemma SendInSequence(initial: int, s: State, now: nat, clock: nat, firsts: seq<int>)
    requires Inv(s, clock) && InSequence(initial, s, firsts)
    ensures InSequence(initial, SendDue(s, now).s, firsts + Firsts(SendDue(s, now).outs))
  {
    var k := RipeCount(s.packetList, 0, now);
    var due := s.packetList[..k];
    FirstsOfUnsent(due);
    forall i | 0 <= i < k ensures due[i].n == SentUpTo(s) + i {
      assert All(s)[|s.lossList| + i] == due[i];
    }
  }

  lemma StepInSequence(initial: int, s: State, ev: Event, clock: nat, firsts: seq<int>)
    requires Inv(s, clock) && InSequence(initial, s, firsts)
    requires ev.Write? ==> !ev.p.retransmitted
    ensures InSequence(initial, Next(s, ev).s, firsts + Firsts(Next(s, ev).outs))
  {
    assert firsts + [] == firsts;
    match ev
    case TickSend(now) => SendInSequence(initial, s, now, clock, firsts);
    case GotNAK(ranges) => FirstsOfResent(s.lossList, 0, ranges);
    case _ =>
  }

  /** On every such run each number is transmitted for the first time exactly once, and in
      order: initial, initial + 1, and so on. */
  lemma {:induction false} FirstTransmissionsInSequence(initial: int, dropThreshold: nat, evs: seq<Event>)
    requires WrittenInOrder(evs) && forall i :: 0 <= i < |evs| && evs[i].Write? ==> !evs[i].p.retransmitted
    ensures var r := Run(Init(initial, dropThreshold), evs); InSequence(initial, r.s, Firsts(r.outs))
  {
    if evs != [] {
      var before := evs[..|evs| - 1];
      FirstTransmissionsInSequence(initial, dropThreshold, before);
      RunSafe(initial, dropThreshold, before);
      var r := Run(Init(initial, dropThreshold), before);
      StepInSequence(initial, r.s, evs[|evs| - 1], Clock(before), Firsts(r.outs));
      FirstsConcat(r.outs, Next(r.s, evs[|evs| - 1]).outs);
    }
  }

  // ---------- the books ----------

  function Volume(ps: seq<Packet>): nat {
    if ps == [] then 0 else Volume(ps[..|ps| - 1]) + Len(ps[|ps| - 1])
  }

  /** Everything sent is unique or a retransmission, every loss counted is a drop or a
      retransmission, and what was written is waiting or was sent as unique, in packets and
      bytes. */
  ghost predicate Balanced(initial: int, written: seq<Packet>, s: State, outs: seq<Entry>) {
    var st := s.stats;
    && st.all == Tally(|outs|, Bytes(outs))
    && st.all.pkts == st.unique.pkts + st.retrans.pkts && st.all.bytes == st.unique.bytes + st.retrans.bytes
    && st.loss.pkts == st.drop.pkts + st.retrans.pkts && st.loss.bytes == st.drop.bytes + st.retrans.bytes
    && st.unique.pkts == SentUpTo(s) - initial
    && st.unique.pkts + |s.packetList| == |written| && st.unique.bytes + Bytes(s.packetList) == Volume(written)
  }

  lemma StepBalanced(initial: int, written: seq<Packet>, s: State, ev: Event, outs: seq<Entry>)
    requires Balanced(initial, written, s, outs)
    ensures Balanced(initial, written + (if ev.Write? then [ev.p] else []), Next(s, ev).s, outs + Next(s, ev).outs)
  {
    BytesConcat(outs, Next(s, ev).outs);
    assert outs + [] == outs && written + [] == written;
    match ev
    case Write(p) =>
      assert (written + [p])[..|written|] == written;
      BytesConcat(s.packetList, [Numbered(s, p)]);
    case TickSend(now) => SendBalanced(initial, written, s, now, outs);
    case _ =>
  }

  lemma SendBalanced(initial: int, written: seq<Packet>, s: State, now: nat, outs: seq<Entry>)
    requires Balanced(initial, written, s, outs)
    ensures Balanced(initial, written, SendDue(s, now).s, outs + SendDue(s, now).outs)
  {
    BytesConcat(outs, SendDue(s, now).outs);
    BytesSplit(s.packetList, RipeCount(s.packetList, 0, now));
  }

  lemma {:induction false} RunBalanced(initial: int, dropThreshold: nat, evs: seq<Event>)
    ensures var r := Run(Init(initial, dropThreshold), evs); Balanced(initial, Written(evs), r.s, r.outs)
  {
    if evs != [] {
      var before, ev := evs[..|evs| - 1], evs[|evs| - 1];
      RunBalanced(initial, dropThreshold, before);
      var r := Run(Init(initial, dropThreshold), before);
      StepBalanced(initial, Written(before), r.s, ev, r.outs);
    }
  }
}
