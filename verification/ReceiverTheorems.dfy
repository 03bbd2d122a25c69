/** What every run of the live receiver keeps. */
module ReceiverTheorems {
  import opened Circular
  import opened Packets
  import opened ReceiverSpec

  // ---------- the reassembly buffer ----------

  /** The list is strictly sorted between the last delivered and the highest number seen and
      reaches up to that highest number; the last acknowledged packet is still in it
      unless it was delivered. */
  ghost predicate Shape(list: seq<Entry>, delivered: int, ack: int, seen: int) {
    && Sorted(list)
    && (forall i :: 0 <= i < |list| ==> delivered < list[i].n <= seen)
    && (if list == [] then delivered == seen else list[|list| - 1].n == seen)
    && delivered <= ack <= seen
    && (delivered < ack ==> Has(list, ack))
  }

  ghost predicate Inv(s: State) {
    && Shape(s.list, s.lastDelivered, s.lastACK, s.maxSeen)
    && s.stats.buf == Tally(|s.list|, Bytes(s.list))
  }

  /** The out-of-order scan always ends at a packet: a duplicate of e or the one e goes before. */
  lemma OutOfOrderScanEnds(s: State, e: Entry)
    requires Inv(s) && s.lastDelivered < e.n <= s.maxSeen
    ensures Position(s.list, 0, e.n) < |s.list|
  {
    assert s.list[|s.list| - 1].n == s.maxSeen;
  }

  lemma HasInsert(list: seq<Entry>, k: nat, e: Entry, n: int)
    requires k <= |list|
    ensures Has(list[..k] + [e] + list[k..], n) <==> e.n == n || Has(list, n)
  {
    var t := list[..k] + [e] + list[k..];
    assert t[k] == e;
    if Has(list, n) {
      var i :| 0 <= i < |list| && list[i].n == n;
      assert t[if i < k then i else i + 1].n == n;
    }
  }

  lemma InsertSorted(list: seq<Entry>, k: nat, e: Entry)
    requires Sorted(list) && Splits(list, k, e.n)
    ensures Sorted(list[..k] + [e] + list[k..])
  {
    var t := list[..k] + [e] + list[k..];
    forall i, j | 0 <= i < j < |t| ensures t[i].n < t[j].n {
      assert t[i] == if i < k then list[i] else if i == k then e else list[i - 1];
      assert t[j] == if j < k then list[j] else if j == k then e else list[j - 1];
    }
  }

  ghost predicate Splits(list: seq<Entry>, k: nat, n: int) {
    && k <= |list|
    && (forall i :: 0 <= i < k ==> list[i].n < n)
    && (forall i :: k <= i < |list| ==> n < list[i].n)
  }

  lemma PositionSplits(list: seq<Entry>, n: int)
    requires Sorted(list)
    ensures var k := Position(list, 0, n); (k < |list| && list[k].n == n) || Splits(list, k, n)
  {
  }

  lemma InsertKeepsShape(list: seq<Entry>, delivered: int, ack: int, seen: int, e: Entry, k: nat)
    requires Shape(list, delivered, ack, seen) && delivered < e.n
    requires Splits(list, k, e.n) && k < |list|
    ensures Shape(list[..k] + [e] + list[k..], delivered, ack, seen)
  {
    var t := list[..k] + [e] + list[k..];
    InsertSorted(list, k, e);
    HasInsert(list, k, e, ack);
    forall i | 0 <= i < |t| ensures delivered < t[i].n <= seen {
      assert t[i] == if i < k then list[i] else if i == k then e else list[i - 1];
    }
  }

  lemma AppendKeepsShape(list: seq<Entry>, delivered: int, ack: int, seen: int, e: Entry)
    requires Shape(list, delivered, ack, seen) && seen < e.n
    ensures Shape(list + [e], delivered, ack, e.n)
  {
    assert list + [e] == list[..|list|] + [e] + list[|list|..];
    HasInsert(list, |list|, e, ack);
  }

  lemma RemoveKeepsShape(list: seq<Entry>, delivered: int, ack: int, seen: int, k: nat)
    requires Shape(list, delivered, ack, seen)
    requires 0 < k <= |list| && list[k - 1].n <= ack
    ensures Shape(list[k..], list[k - 1].n, ack, seen)
  {
    if list[k - 1].n < ack {
      var i :| 0 <= i < |list| && list[i].n == ack;
      assert list[k..][i - k].n == ack;
    }
  }

  lemma PushAheadKeepsInv(s: State, e: Entry)
    requires Inv(s) && e.n > s.maxSeen
    ensures Inv(Push(s, e).s)
  {
    AppendKeepsShape(s.list, s.lastDelivered, s.lastACK, s.maxSeen, e);
    BytesConcat(s.list, [e]);
    assert Push(s, e).s.list == s.list + [e];
  }

  lemma PushBehindKeepsInv(s: State, e: Entry)
    requires Inv(s) && s.lastDelivered < e.n <= s.maxSeen && s.lastACK <= e.n
    ensures Inv(Push(s, e).s)
  {
    OutOfOrderScanEnds(s, e);
    PositionSplits(s.list, e.n);
    var k, t := Position(s.list, 0, e.n), Push(s, e).s;
    if s.list[k].n != e.n {
      var list := s.list[..k] + [e] + s.list[k..];
      assert t.list == list;
      BytesInsert(s.list, k, e);
      InsertKeepsShape(s.list, s.lastDelivered, s.lastACK, s.maxSeen, e, k);
    } else {
      assert t.list == s.list;
    }
  }

  lemma PushKeepsInv(s: State, e: Entry)
    requires Inv(s)
    ensures Inv(Push(s, e).s)
  {
    if s.lastDelivered < e.n && s.lastACK <= e.n {
      if e.n > s.maxSeen {
        PushAheadKeepsInv(s, e);
      } else {
        PushBehindKeepsInv(s, e);
      }
    }
  }

  lemma DeliverKeepsInv(s: State, now: nat)
    requires Inv(s)
    ensures Inv(DeliverDue(s, now).s)
  {
    var k := DueCount(s.list, 0, s.lastACK, now);
    DueCountStops(s.list, 0, s.lastACK, now);
    if k > 0 {
      BytesSplit(s.list, k);
      RemoveKeepsShape(s.list, s.lastDelivered, s.lastACK, s.maxSeen, k);
    }
  }

  // A packet arrives within the window of the cursors.
  ghost predicate Close(s: State, ev: Event) {
    ev.Arrive? ==> Near(ev.e.n, s.maxSeen) && Near(ev.e.n, s.lastDelivered)
  }

  // ---------- acknowledging ----------

  // List position i is the first one above number k.
  ghost predicate FirstAbove(list: seq<Entry>, i: int, k: int) {
    0 <= i < |list| && list[i].n > k && (i == 0 || list[i - 1].n <= k)
  }

  /** What the acknowledged number has to be, without saying how it is found: it is not
      lowered, it is that of a packet held, every missing number it passes is followed by a
      packet already due, and the packet after it neither continues the row nor is due. */
  ghost predicate AckPoint(list: seq<Entry>, from: int, now: nat, a: int) {
    && from <= a
    && (a == from || Has(list, a))
    && (forall k, i :: from < k <= a && !Has(list, k) && FirstAbove(list, i, k) ==> list[i].p.time <= now)
    && (forall i :: FirstAbove(list, i, a) ==> list[i].n != a + 1 && list[i].p.time > now)
  }

  lemma AckPointUnique(list: seq<Entry>, from: int, now: nat, a: int, b: int)
    requires Sorted(list) && AckPoint(list, from, now, a) && AckPoint(list, from, now, b)
    ensures a == b
  {
    AckPointHighest(list, from, now, a, b);
    AckPointHighest(list, from, now, b, a);
  }

  lemma AckPointHighest(list: seq<Entry>, from: int, now: nat, a: int, b: int)
    requires Sorted(list) && AckPoint(list, from, now, a) && AckPoint(list, from, now, b)
    ensures b <= a
  {
    if a < b {
      var j :| 0 <= j < |list| && list[j].n == b;
      var i := 0;
      while list[i].n <= a
        invariant 0 <= i <= j
        invariant forall m :: 0 <= m < i ==> list[m].n <= a
      {
        i := i + 1;
      }
      assert FirstAbove(list, i, a);
      assert !Has(list, a + 1);
      assert FirstAbove(list, i, a + 1);
      assert false;
    }
  }

  lemma {:induction false} AckScanFrom(list: seq<Entry>, i: nat, from: int, ack: int, now: nat)
    requires i <= |list| && Sorted(list) && from <= ack
    requires ack == from || Has(list, ack)
    requires i > 0 ==> list[i - 1].n <= ack
    requires forall k, j :: from < k <= ack && !Has(list, k) && FirstAbove(list, j, k) ==> list[j].p.time <= now
    ensures AckPoint(list, from, now, AckScan(list, i, ack, now))
    decreases |list| - i
  {
    if i == |list| {
      assert forall j :: FirstAbove(list, j, ack) ==> false;
    } else if list[i].n <= ack {
      AckScanFrom(list, i + 1, from, ack, now);
    } else if list[i].p.time <= now || list[i].n == ack + 1 {
      var next := list[i].n;
      forall k, j | from < k <= next && !Has(list, k) && FirstAbove(list, j, k) ensures list[j].p.time <= now {
        if k > ack {
          assert k < next;
          assert j == i;
        }
      }
      AckScanFrom(list, i + 1, from, next, now);
    } else {
      forall j | FirstAbove(list, j, ack) ensures j == i {
      }
    }
  }

  /** PeriodicACK moves to the one number that AckPoint allows; it never goes back and
      never passes the highest number seen. */
  lemma AckIsAckPoint(s: State, now: nat)
    requires Inv(s) && AckFires(s, now)
    ensures AckPoint(s.list, s.lastACK, now, PeriodicACK(s, now).s.lastACK)
    ensures forall a :: AckPoint(s.list, s.lastACK, now, a) ==> a == PeriodicACK(s, now).s.lastACK
    ensures s.lastACK <= PeriodicACK(s, now).s.lastACK <= s.maxSeen
  {
    AckScanFrom(s.list, 0, s.lastACK, s.lastACK, now);
    var ack := PeriodicACK(s, now).s.lastACK;
    forall a | AckPoint(s.list, s.lastACK, now, a) ensures a == ack {
      AckPointUnique(s.list, s.lastACK, now, a, ack);
    }
  }

  lemma AckKeepsInv(s: State, now: nat)
    requires Inv(s)
    ensures Inv(PeriodicACK(s, now).s)
  {
    if AckFires(s, now) {
      AckIsAckPoint(s, now);
    }
  }

  lemma NextKeepsInv(s: State, ev: Event)
    requires Inv(s)
    ensures Inv(Next(s, ev).s)
  {
    match ev
    case Arrive(e) => PushKeepsInv(s, e);
    case TickACK(now) => AckKeepsInv(s, now);
    case TickNAK(now) =>
    case TickDeliver(now) => DeliverKeepsInv(s, now);
    case SetNAKInterval(_) =>
  }

  /** A Tick whose ACK phase fires and that no Push interrupts leaves nothing due behind. */
  lemma TickDrains(s: State, now: nat)
    requires Inv(s) && AckFires(s, now)
    ensures var t := DeliverDue(PeriodicNAK(PeriodicACK(s, now).s, now).s, now).s;
            t.list == [] || t.list[0].p.time > now
  {
    var u := PeriodicNAK(PeriodicACK(s, now).s, now).s;
    AckIsAckPoint(s, now);
    var k := DueCount(u.list, 0, u.lastACK, now);
    DueCountStops(u.list, 0, u.lastACK, now);
    if k < |u.list| && u.list[k].n > u.lastACK {
      assert FirstAbove(u.list, k, u.lastACK);
    }
  }

  // ---------- reporting losses ----------

  // Number k above ack is not held, but one above it is, from position i on.
  ghost predicate Missing(list: seq<Entry>, i: nat, ack: int, k: int) {
    ack < k && !Has(list, k) && exists j :: i <= j < |list| && k < list[j].n
  }

  lemma {:induction false} GapsSeparated(list: seq<Entry>, i: nat, ack: int)
    requires i <= |list|
    ensures var g := Gaps(list, i, ack);
            Separated(g) && forall j :: 0 <= j < |g| ==> ack < g[j].lo
    decreases |list| - i
  {
    if i < |list| {
      GapsSeparated(list, i + 1, if list[i].n <= ack then ack else list[i].n);
    }
  }

  lemma {:induction false} GapsCover(list: seq<Entry>, i: nat, ack: int, k: int)
    requires i <= |list| && Sorted(list)
    requires i > 0 ==> list[i - 1].n <= ack
    ensures Covered(Gaps(list, i, ack), k) <==> Missing(list, i, ack, k)
    decreases |list| - i
  {
    if i < |list| {
      if list[i].n <= ack {
        GapsCover(list, i + 1, ack, k);
      } else {
        GapsCover(list, i + 1, list[i].n, k);
        GapsCons(list, i, ack, k);
      }
    }
  }

  lemma GapsCons(list: seq<Entry>, i: nat, ack: int, k: int)
    requires i < |list| && Sorted(list) && ack < list[i].n
    requires i > 0 ==> list[i - 1].n <= ack
    requires Covered(Gaps(list, i + 1, list[i].n), k) <==> Missing(list, i + 1, list[i].n, k)
    ensures Covered(Gaps(list, i, ack), k) <==> Missing(list, i, ack, k)
  {
    var g, t := Gaps(list, i, ack), Gaps(list, i + 1, list[i].n);
    if k <= ack || list[i].n <= k {
      CoveredCons(g, t, k);
      if k == list[i].n {
        assert Has(list, k);
      }
    } else {
      NotHeldBefore(list, i, ack, k);
      assert InRange(k, g[0]) && list[i].n > k;
    }
  }

  lemma NotHeldBefore(list: seq<Entry>, i: nat, ack: int, k: int)
    requires i < |list| && Sorted(list) && ack < k < list[i].n && (i > 0 ==> list[i - 1].n <= ack)
    ensures !Has(list, k)
  {
    forall j | 0 <= j < |list| ensures list[j].n != k {
      if j < i - 1 {
        assert list[j].n < list[i - 1].n;
      } else if i < j {
        assert list[i].n < list[j].n;
      }
    }
  }

  lemma CoveredCons(g: seq<Range>, t: seq<Range>, k: int)
    requires g == t || (g != [] && g[1..] == t && !InRange(k, g[0]))
    ensures Covered(g, k) <==> Covered(t, k)
  {
    if g != t {
      if Covered(g, k) {
        var j :| 0 <= j < |g| && InRange(k, g[j]);
        assert t[j - 1] == g[j];
      }
      if Covered(t, k) {
        var j :| 0 <= j < |t| && InRange(k, t[j]);
        assert g[j + 1] == t[j];
      }
    }
  }

  /** The ranges of a periodic NAK are sorted, disjoint and not adjacent, and together they are
      exactly the numbers above the last ACK, up to the highest seen, that are not held. */
  lemma NakIsExact(s: State)
    requires Inv(s)
    ensures Separated(Gaps(s.list, 0, s.lastACK))
    ensures forall k :: Covered(Gaps(s.list, 0, s.lastACK), k) <==> s.lastACK < k <= s.maxSeen && !Has(s.list, k)
  {
    GapsSeparated(s.list, 0, s.lastACK);
    forall k ensures Covered(Gaps(s.list, 0, s.lastACK), k) <==> s.lastACK < k <= s.maxSeen && !Has(s.list, k) {
      GapsCover(s.list, 0, s.lastACK, k);
      MissingUpTo(s, k);
    }
  }

  lemma MissingUpTo(s: State, k: int)
    requires Inv(s)
    ensures Missing(s.list, 0, s.lastACK, k) <==> s.lastACK < k <= s.maxSeen && !Has(s.list, k)
  {
    if s.lastACK < k <= s.maxSeen && !Has(s.list, k) {
      assert s.list[|s.list| - 1].n == s.maxSeen;
    }
  }
}
