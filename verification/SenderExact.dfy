/** What each operation of the live sender does, said of its effect: which packets stay, which are
    marked and what is counted. */
module SenderExact {
  import opened Circular
  import opened Packets
  import opened SenderSpec
  import opened SenderTheorems

  lemma InSuffix(list: seq<Entry>, k: nat, e: Entry)
    requires k <= |list|
    ensures e in list[k..] <==> exists j :: k <= j < |list| && list[j] == e
  {
    if e in list[k..] {
      var i :| 0 <= i < |list[k..]| && list[k..][i] == e;
      assert list[k + i] == e;
    }
    if j :| k <= j < |list| && list[j] == e {
      assert list[k..][j - k] == e;
    }
  }

  // ---------- ACK ----------

  /** An ACK for number n releases the packets below n, and no other; the rest keeps its order. */
  lemma AckReleasesExactly(s: State, n: int)
    requires Sorted(s.lossList)
    ensures var t := ACK(s, n);
            && (forall e :: e in t.lossList <==> e in s.lossList && e.n >= n)
            && Sorted(t.lossList) && t.packetList == s.packetList && t.next == s.next
  {
    AckIsSuffix(s, n);
    var k := |s.lossList| - |ACK(s, n).lossList|;
    forall e ensures e in s.lossList[k..] <==> e in s.lossList && e.n >= n {
      InSuffix(s.lossList, k, e);
    }
  }

  /** So right after an ACK, in every run, nothing below it waits for retransmission. */
  lemma RunAckReleases(initial: int, dropThreshold: nat, evs: seq<Event>, n: int)
    requires WrittenInOrder(evs)
    ensures var before := Run(Init(initial, dropThreshold), evs).s;
            var after := Run(Init(initial, dropThreshold), evs + [GotACK(n)]).s;
            forall e :: e in after.lossList <==> e in before.lossList && e.n >= n
  {
    RunSafe(initial, dropThreshold, evs);
    LossSorted(Run(Init(initial, dropThreshold), evs).s, Clock(evs));
    AckReleasesExactly(Run(Init(initial, dropThreshold), evs).s, n);
    RunSnoc(Init(initial, dropThreshold), evs, GotACK(n));
  }

  lemma RunSnoc(s: State, evs: seq<Event>, ev: Event)
    ensures Run(s, evs + [ev]).s == Next(Run(s, evs).s, ev).s
  {
    assert (evs + [ev])[..|evs|] == evs;
  }

  lemma LossSorted(s: State, clock: nat)
    requires Inv(s, clock)
    ensures Sorted(s.lossList)
  {
    forall i, j | 0 <= i < j < |s.lossList| ensures s.lossList[i].n < s.lossList[j].n {
      assert All(s)[i] == s.lossList[i] && All(s)[j] == s.lossList[j];
    }
  }

  // ---------- dropping by age ----------

  /** Dropping removes the packets whose sending time is the threshold or more ago, and no other. */
  lemma DropKeepsExactly(s: State, now: nat)
    requires Timed(s.lossList)
    ensures var t := DropOld(s, now);
            && (forall e :: e in t.lossList <==> e in s.lossList && now < e.p.time + s.dropThreshold)
            && t.packetList == s.packetList && t.next == s.next
  {
    DropIsSuffix(s, now);
    var k := |s.lossList| - |DropOld(s, now).lossList|;
    forall e ensures e in s.lossList[k..] <==> e in s.lossList && now < e.p.time + s.dropThreshold {
      InSuffix(s.lossList, k, e);
    }
  }

  // The threshold in force.
  function Threshold(dropThreshold: nat, evs: seq<Event>): nat {
    if evs == [] then dropThreshold
    else
      match evs[|evs| - 1]
      case SetDropThreshold(threshold) => threshold
      case _ => Threshold(dropThreshold, evs[..|evs| - 1])
  }

  lemma {:induction false} ThresholdSet(initial: int, dropThreshold: nat, evs: seq<Event>)
    ensures Run(Init(initial, dropThreshold), evs).s.dropThreshold == Threshold(dropThreshold, evs)
  {
    if evs != [] {
      ThresholdSet(initial, dropThreshold, evs[..|evs| - 1]);
    }
  }

  /** So in every run, with the threshold set last. */
  lemma RunDropKeeps(initial: int, dropThreshold: nat, evs: seq<Event>, now: nat)
    requires WrittenInOrder(evs)
    ensures var before := Run(Init(initial, dropThreshold), evs).s;
            var after := Run(Init(initial, dropThreshold), evs + [TickDrop(now)]).s;
            forall e :: e in after.lossList <==>
              e in before.lossList && now < e.p.time + Threshold(dropThreshold, evs)
  {
    RunSafe(initial, dropThreshold, evs);
    ThresholdSet(initial, dropThreshold, evs);
    LossTimed(Run(Init(initial, dropThreshold), evs).s, Clock(evs));
    DropKeepsExactly(Run(Init(initial, dropThreshold), evs).s, now);
    RunSnoc(Init(initial, dropThreshold), evs, TickDrop(now));
  }

  lemma LossTimed(s: State, clock: nat)
    requires Inv(s, clock)
    ensures Timed(s.lossList)
  {
    TimedPrefix(s.lossList, s.packetList);
  }

  // ---------- marking ----------

  lemma {:induction false} MarkedExactly(list: seq<Entry>, k: nat, ranges: seq<Range>, j: nat)
    requires k <= j < |list| && Separated(ranges)
    ensures Remarked(list, k, ranges)[j - k] == if Covered(ranges, list[j].n) then Marked(list[j]) else list[j]
    decreases j - k
  {
    if k < j {
      MarkedExactly(list, k + 1, ranges, j);
    } else {
      HitsOnce(ranges, |ranges|, list[j].n);
      assert ranges[..|ranges|] == ranges;
    }
  }

  /** A loss list marks the packets it names as retransmitted, and changes nothing else. */
  lemma NakMarksExactly(s: State, ranges: seq<Range>)
    requires Separated(ranges)
    ensures var t := NAK(s, ranges).s;
            && |t.lossList| == |s.lossList| && t.packetList == s.packetList && t.next == s.next
            && (forall j :: 0 <= j < |s.lossList| ==>
                  t.lossList[j] == if Covered(ranges, s.lossList[j].n) then Marked(s.lossList[j]) else s.lossList[j])
  {
    forall j | 0 <= j < |s.lossList|
      ensures NAK(s, ranges).s.lossList[j]
              == if Covered(ranges, s.lossList[j].n) then Marked(s.lossList[j]) else s.lossList[j]
    {
      MarkedExactly(s.lossList, 0, ranges, j);
    }
  }

  // ---------- counting ----------

  function Plus(t: Tally, pkts: int, bytes: int): Tally {
    Tally(t.pkts + pkts, t.bytes + bytes)
  }

  /** The counters after an event that sent `sent` packets and let `gone` go from those held. */
  ghost predicate Counted(ev: Event, a: Stats, b: Stats, sent: int, sentBytes: int, gone: int, goneBytes: int) {
    && b.all == Plus(a.all, sent, sentBytes)
    && b.unique == (if ev.TickSend? then Plus(a.unique, sent, sentBytes) else a.unique)
    && b.retrans == (if ev.GotNAK? then Plus(a.retrans, sent, sentBytes) else a.retrans)
    && b.drop == (if ev.TickDrop? then Plus(a.drop, gone, goneBytes) else a.drop)
    && b.loss == (if ev.TickDrop? then Plus(a.loss, gone, goneBytes)
                  else if ev.GotNAK? then Plus(a.loss, sent, sentBytes) else a.loss)
    && b.buf == Plus(a.buf, -gone, -goneBytes)
  }

  /** Every step counts what it did: packets handed over as sent, and as unique or retransmitted by
      what made them go; packets that leave the retransmission buffer by age as dropped;
      packets held, as held; packets waiting after a write, as in flight. */
  lemma StepCounts(s: State, ev: Event, clock: nat)
    requires Inv(s, clock)
    ensures var t := Next(s, ev);
            && Counted(ev, s.stats, t.s.stats, |t.outs|, Bytes(t.outs),
                       |All(s)| - |All(t.s)|, Bytes(All(s)) - Bytes(All(t.s)))
            && t.s.stats.flight == if ev.Write? then |t.s.packetList| else s.stats.flight
  {
    match ev
    case Write(p) => WriteCounts(s, p);
    case TickSend(now) => SendKeepsAll(s, now);
    case TickDrop(now) => DropCounts(s, now, clock);
    case GotACK(n) => AckCounts(s, n);
    case GotNAK(ranges) => NakCounts(s, ranges);
    case SetDropThreshold(_) =>
  }

  lemma WriteCounts(s: State, p: Packet)
    ensures var t := Push(s, p);
            && |All(t)| == |All(s)| + 1 && Bytes(All(t)) == Bytes(All(s)) + Len(p)
            && t.stats == s.stats.(buf := Plus(s.stats.buf, 1, Len(p)), flight := |t.packetList|)
  {
    var e := Numbered(s, p);
    assert All(Push(s, p)) == All(s) + [e];
    BytesConcat(All(s), [e]);
    assert [e][..0] == [];
  }

  lemma DropCounts(s: State, now: nat, clock: nat)
    requires Inv(s, clock)
    ensures var t := DropOld(s, now);
            var gone, goneBytes := |All(s)| - |All(t)|, Bytes(All(s)) - Bytes(All(t));
            && t.stats.drop == Plus(s.stats.drop, gone, goneBytes) && t.stats.loss == Plus(s.stats.loss, gone, goneBytes)
            && t.stats.buf == Plus(s.stats.buf, -gone, -goneBytes)
            && t.stats == s.stats.(drop := t.stats.drop, loss := t.stats.loss, buf := t.stats.buf)
  {
    TimedPrefix(s.lossList, s.packetList);
    var k := AgedParts(s.lossList, s.dropThreshold, now);
    HeldSplit(s.lossList, k, s.packetList);
  }

  lemma AgedParts(list: seq<Entry>, threshold: nat, now: nat) returns (k: nat)
    requires Timed(list)
    ensures k <= |list|
    ensures Aged(list, |list|, true, threshold, now) == list[..k]
    ensures Aged(list, |list|, false, threshold, now) == list[k..]
  {
    k := OldCount(list, 0, threshold, now);
    OldCountSplits(list, 0, threshold, now);
    AgedSplits(list, |list|, k, threshold, now);
    assert list[k..|list|] == list[k..];
    assert k == |list| ==> list[..|list|] == list[..k] && list[k..] == [];
  }

  lemma AckCounts(s: State, n: int)
    ensures var t := ACK(s, n);
            t.stats == s.stats.(buf := Plus(s.stats.buf, |All(t)| - |All(s)|, Bytes(All(t)) - Bytes(All(s))))
  {
    HeldSplit(s.lossList, AckCount(s.lossList, 0, n), s.packetList);
  }

  lemma HeldSplit(list: seq<Entry>, k: nat, rest: seq<Entry>)
    requires k <= |list|
    ensures Bytes(list + rest) == Bytes(list[..k]) + Bytes(list[k..] + rest)
  {
    assert list + rest == list[..k] + (list[k..] + rest);
    BytesConcat(list[..k], list[k..] + rest);
  }

  lemma NakCounts(s: State, ranges: seq<Range>)
    ensures var t := NAK(s, ranges);
            && Bytes(All(t.s)) == Bytes(All(s)) && |All(t.s)| == |All(s)|
            && t.s.stats == s.stats.(all := Plus(s.stats.all, |t.outs|, Bytes(t.outs)),
                                     retrans := Plus(s.stats.retrans, |t.outs|, Bytes(t.outs)),
                                     loss := Plus(s.stats.loss, |t.outs|, Bytes(t.outs)))
  {
    RemarkedSame(s.lossList, s.packetList, ranges);
    SameLengths(All(NAK(s, ranges).s), All(s));
  }
}
