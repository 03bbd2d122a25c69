/** The loss list of a NAK packet (packet/packet.go, CIFNAK; Appendix A of
    draft-sharabayko-srt): ranges are compressed, and the list is cut off when the packet is full. */
module LossList {
  import opened Circular
  import opened Packets
  import opened Wire
  import opened Wrappers

  ghost predicate SequenceNumber(a: Number) {
    a.max == 0x7FFF_FFFF && a.threshold == 0x3FFF_FFFF && a.value <= 0x7FFF_FFFF
  }

  ghost predicate SequenceNumbers(ns: seq<Number>) {
    forall i :: 0 <= i < |ns| ==> SequenceNumber(ns[i])
  }

  // ---------- writing ----------

  // One range: a single number, or a start with the top bit set and an end.
  function Pair(a: Number, b: Number): (w: seq<Byte>)
    requires SequenceNumber(a) && SequenceNumber(b)
    ensures |w| == if a == b then 4 else 8
  {
    if a == b then Put32(a.value) else Put32(a.value + 0x8000_0000) + Put32(b.value)
  }

  // The ranges of a list as long as more than four bytes are free after `written` bytes.
  function Emit(ns: seq<Number>, written: nat): seq<Byte>
    requires SequenceNumbers(ns)
  {
    if |ns| < 2 || written >= 1452 then []
    else
      var w := Pair(ns[0], ns[1]);
      w + Emit(ns[2..], written + |w|)
  }

  // What Marshal returns.
  function Encode(ns: seq<Number>): Result<seq<Byte>>
    requires SequenceNumbers(ns)
  {
    if |ns| % 2 != 0 then Error else Ok(Emit(ns, 0))
  }

  method Marshal(ns: seq<Number>) returns (r: Result<seq<Byte>>)
    requires SequenceNumbers(ns)
    ensures r == Encode(ns)
  {
    if |ns| % 2 != 0 {
      return Error;
    }
    var w := WriteRanges(ns, |ns| / 2);
    return Ok(w);
  }

  method WriteRanges(ns: seq<Number>, ghost ranges: nat) returns (w: seq<Byte>)
    requires SequenceNumbers(ns) && |ns| == 2 * ranges
    ensures w == Emit(ns, 0)
  {
    w := [];
    var written: nat, i := 0, 0;
    ghost var left, rest := ranges, Emit(ns, 0);
    assert ns[0..] == ns;
    while i < |ns|
      invariant |ns| - i == 2 * left && left >= 0
      invariant written < 1452
      invariant rest == Emit(ns[i..], written) && Emit(ns, 0) == w + rest
    {
      EmitStep(ns, i, written, w);
      var p := PutRange(ns[i], ns[i + 1]);
      w := w + p;
      written := written + |p|;
      i, left := i + 2, left - 1;
      rest := Emit(ns[i..], written);
      if written >= 1452 {
        break;
      }
    }
    assert rest == [];
  }

  method PutRange(a: Number, b: Number) returns (w: seq<Byte>)
    requires SequenceNumber(a) && SequenceNumber(b)
    ensures w == Pair(a, b)
  {
    if a == b {
      w := Put32(a.value);
    } else {
      w := Put32(a.value + 0x8000_0000) + Put32(b.value);
    }
  }

  lemma EmitStep(ns: seq<Number>, i: nat, written: nat, w: seq<Byte>)
    requires SequenceNumbers(ns) && i + 2 <= |ns| && written < 1452
    ensures var p := Pair(ns[i], ns[i + 1]);
            w + Emit(ns[i..], written) == w + p + Emit(ns[i + 2..], written + |p|)
  {
    var rest := ns[i..];
    assert rest[2..] == ns[i + 2..];
    var p := Pair(ns[i], ns[i + 1]);
    assert Emit(rest, written) == p + Emit(rest[2..], written + |p|);
  }

  // The number of words Emit writes.
  ghost function Words(ns: seq<Number>, written: nat): nat
    requires SequenceNumbers(ns)
  {
    if |ns| < 2 || written >= 1452 then 0
    else
      var k := if ns[0] == ns[1] then 1 else 2;
      k + Words(ns[2..], written + 4 * k)
  }

  lemma EmitLength(ns: seq<Number>, written: nat)
    requires SequenceNumbers(ns) && |ns| >= 2 && written < 1452
    ensures SequenceNumbers(ns[2..])
    ensures var k := if ns[0] == ns[1] then 1 else 2;
            && |Emit(ns, written)| == 4 * k + |Emit(ns[2..], written + 4 * k)|
            && Words(ns, written) == k + Words(ns[2..], written + 4 * k)
  {
  }

  lemma {:induction false} EmitFits(ns: seq<Number>, written: nat, words: nat)
    requires SequenceNumbers(ns) && written == 4 * words && written <= 1456
    ensures |Emit(ns, written)| == 4 * Words(ns, written)
    ensures written + |Emit(ns, written)| <= 1456
  {
    if |ns| >= 2 && written < 1452 {
      var k := if ns[0] == ns[1] then 1 else 2;
      EmitLength(ns, written);
      EmitFits(ns[2..], written + 4 * k, words + k);
    }
  }

  lemma {:induction false} EmitFills(ns: seq<Number>, written: nat, ranges: nat)
    requires SequenceNumbers(ns) && |ns| == 2 * ranges
    ensures |Emit(ns, written)| < |ns| * 2 ==> written + |Emit(ns, written)| >= 1452
  {
    if |ns| >= 2 && written < 1452 {
      EmitLength(ns, written);
      EmitFills(ns[2..], written + if ns[0] == ns[1] then 4 else 8, ranges - 1);
    }
  }

  /** Whatever the list, what is written is a whole number of words and fits into one packet;
      it is cut short only when there is no room for another range. */
  lemma WrittenFits(ns: seq<Number>)
    requires SequenceNumbers(ns)
    ensures |Emit(ns, 0)| % 4 == 0 && |Emit(ns, 0)| <= 1456
    ensures |Emit(ns, 0)| < |ns| * 2 && |ns| % 2 == 0 ==> |Emit(ns, 0)| >= 1452
  {
    EmitFits(ns, 0, 0);
    if |ns| % 2 == 0 {
      EmitFills(ns, 0, |ns| / 2);
    }
    DivModUnique(4 * Words(ns, 0), 4, Words(ns, 0), 0);
  }

  // ---------- reading ----------

  function Decoded(w: nat): Number
    requires w < 0x1_0000_0000
  {
    New(if w >= 0x8000_0000 then w - 0x8000_0000 else w, 0x7FFF_FFFF)
  }

  // The numbers in the words of data; isRange says that the start of a range is still open.
  function Parse(data: seq<Byte>, isRange: bool): seq<Number> {
    if |data| < 4 then []
    else
      var w := Get32(data, 0);
      var n := Decoded(w);
      if w >= 0x8000_0000 then [n] + Parse(data[4..], true)
      else if isRange then [n] + Parse(data[4..], false)
      else [n, n] + Parse(data[4..], false)
  }

  function Insert(n: Number, ns: seq<Number>): seq<Number> {
    if ns == [] then [n]
    else if Lt(n, ns[|ns| - 1]) then Insert(n, ns[..|ns| - 1]) + [ns[|ns| - 1]]
    else ns + [n]
  }

  function Sort(ns: seq<Number>): seq<Number> {
    if ns == [] then [] else Insert(ns[|ns| - 1], Sort(ns[..|ns| - 1]))
  }

  // Comparing these numbers two by two is no contradiction.
  ghost predicate Transitive(ns: seq<Number>) {
    forall a, b, c :: a in ns && b in ns && c in ns && Lt(a, b) && Lt(b, c) ==> Lt(a, c)
  }

  // No element is below one before it.
  ghost predicate InOrder(ns: seq<Number>) {
    forall i, j :: 0 <= i < j < |ns| ==> !Lt(ns[j], ns[i])
  }

  // What the standard library promises of sorting: it rearranges the list, into order if the
  // comparison is transitive on it. How is left open.
  ghost predicate SortOf(ns: seq<Number>, r: seq<Number>) {
    multiset(r) == multiset(ns) && (Transitive(ns) ==> InOrder(r))
  }

  // What Unmarshal may return.
  ghost predicate Decodes(data: seq<Byte>, r: Result<seq<Number>>) {
    if |data| % 4 != 0 then r == Error
    else
      var ns := Parse(data, false);
      if |ns| % 2 != 0 then r == Error else r.Ok? && SortOf(ns, r.value)
  }

  method Unmarshal(data: seq<Byte>) returns (r: Result<seq<Number>>)
    ensures Decodes(data, r)
  {
    if |data| % 4 != 0 {
      return Error;
    }
    var ns := ReadWords(data, |data| / 4);
    if |ns| % 2 != 0 {
      return Error;
    }
    ParseNumbers(data, false);
    SortSorts(ns);
    return Ok(Sort(ns));
  }

  lemma ReadStep(data: seq<Byte>, i: nat, isRange: bool, ns: seq<Number>)
    requires i + 4 <= |data|
    ensures var n, rest := Decoded(Get32(data, i)), data[i + 4..];
            ns + Parse(data[i..], isRange) ==
            if data[i] >= 0x80 then ns + [n] + Parse(rest, true)
            else if isRange then ns + [n] + Parse(rest, false)
            else ns + [n] + [n] + Parse(rest, false)
  {
    var w := data[i..];
    assert w[4..] == data[i + 4..] && Get32(w, 0) == Get32(data, i);
    var n := Decoded(Get32(w, 0));
    Regroup(ns, n, Parse(w[4..], true));
    Regroup(ns, n, Parse(w[4..], false));
  }

  lemma Regroup(ns: seq<Number>, n: Number, rest: seq<Number>)
    ensures ns + ([n] + rest) == ns + [n] + rest
    ensures ns + ([n, n] + rest) == ns + [n] + [n] + rest
  {
  }

  method ReadWords(data: seq<Byte>, ghost words: nat) returns (ns: seq<Number>)
    requires |data| == 4 * words
    ensures ns == Parse(data, false)
  {
    var isRange := false;
    ns := [];
    var i := 0;
    ghost var left := words;
    while i < |data|
      invariant |data| - i == 4 * left && left >= 0
      invariant Parse(data, false) == ns + Parse(data[i..], isRange)
    {
      ReadStep(data, i, isRange, ns);
      var n := Decoded(Get32(data, i));
      if data[i] < 0x80 {
        ns := ns + [n];
        if !isRange {
          ns := ns + [n];
        }
        isRange := false;
      } else {
        ns := ns + [n];
        isRange := true;
      }
      i, left := i + 4, left - 1;
    }
    assert ns + [] == ns;
  }

  // ---------- sorting ----------

  lemma {:induction false} ParseNumbers(data: seq<Byte>, isRange: bool)
    ensures SequenceNumbers(Parse(data, isRange))
    decreases |data|
  {
    if |data| >= 4 {
      ParseNumbers(data[4..], true);
      ParseNumbers(data[4..], false);
    }
  }

  lemma {:induction false} InsertKeeps(n: Number, ns: seq<Number>)
    ensures |Insert(n, ns)| == |ns| + 1
    ensures multiset(Insert(n, ns)) == multiset(ns) + multiset{n}
    ensures forall x :: x in Insert(n, ns) ==> x == n || x in ns
  {
    if ns != [] {
      var before, last := ns[..|ns| - 1], ns[|ns| - 1];
      assert ns == before + [last];
      InsertKeeps(n, before);
    }
  }

  lemma {:induction false} InsertOrders(n: Number, ns: seq<Number>)
    requires SequenceNumbers(ns + [n]) && Transitive(ns + [n]) && InOrder(ns)
    ensures InOrder(Insert(n, ns))
  {
    if ns != [] {
      var before, last := ns[..|ns| - 1], ns[|ns| - 1];
      var all := ns + [n];
      assert all[|ns|] == n && all[|ns| - 1] == last;
      Trichotomy(n, last);
      if Lt(n, last) {
        PrefixTransitive(ns, n);
        InsertOrders(n, before);
        InsertKeeps(n, before);
        forall i | 0 <= i < |before| + 1 ensures !Lt(last, Insert(n, before)[i]) {
          assert Insert(n, before)[i] in Insert(n, before);
        }
      } else {
        forall i | 0 <= i < |ns| ensures !Lt(n, ns[i]) {
          assert ns[i] in all && all[i] == ns[i];
          Trichotomy(ns[i], last);
        }
      }
    }
  }

  lemma PrefixTransitive(ns: seq<Number>, n: Number)
    requires ns != [] && SequenceNumbers(ns + [n]) && Transitive(ns + [n]) && InOrder(ns)
    ensures SequenceNumbers(ns[..|ns| - 1] + [n]) && Transitive(ns[..|ns| - 1] + [n]) && InOrder(ns[..|ns| - 1])
  {
    var all, part := ns + [n], ns[..|ns| - 1] + [n];
    forall i | 0 <= i < |part| ensures part[i] in all && SequenceNumber(part[i]) {
      assert part[i] == if i < |ns| - 1 then all[i] else all[|ns|];
    }
  }

  // Sorting by insertion is one way to keep that promise.
  lemma {:induction false} SortSorts(ns: seq<Number>)
    requires SequenceNumbers(ns)
    ensures SortOf(ns, Sort(ns))
  {
    if ns != [] {
      var before, n := ns[..|ns| - 1], ns[|ns| - 1];
      assert ns == before + [n];
      SortSorts(before);
      InsertKeeps(n, Sort(before));
      if Transitive(ns) {
        SameElements(before, Sort(before), n);
        InsertOrders(n, Sort(before));
      }
    }
  }

  lemma SameElements(a: seq<Number>, b: seq<Number>, n: Number)
    requires multiset(a) == multiset(b) && SequenceNumbers(a + [n]) && Transitive(a + [n])
    ensures SequenceNumbers(b + [n]) && Transitive(b + [n]) && Transitive(a)
  {
    forall x | x in b + [n] ensures x in a + [n] {
      if x in b {
        assert x in multiset(b);
        assert x in multiset(a);
      }
    }
    forall i | 0 <= i < |b + [n]| ensures SequenceNumber((b + [n])[i]) {
      assert (b + [n])[i] in b + [n];
    }
  }

  lemma TailInOrder(ns: seq<Number>)
    requires ns != [] && SequenceNumbers(ns) && InOrder(ns)
    ensures SequenceNumbers(ns[1..]) && InOrder(ns[1..])
    ensures multiset(ns[1..]) == multiset(ns) - multiset{ns[0]}
  {
    assert ns == [ns[0]] + ns[1..];
  }

  lemma FirstIsLeast(ns: seq<Number>, n: Number)
    requires ns != [] && InOrder(ns) && n in ns
    ensures n == ns[0] || !Lt(n, ns[0])
  {
  }

  lemma SameFirst(ns: seq<Number>, r: seq<Number>)
    requires SequenceNumbers(ns) && SequenceNumbers(r) && InOrder(ns) && InOrder(r)
    requires ns != [] && r != [] && ns[0] in r && r[0] in ns
    ensures ns[0] == r[0]
  {
    FirstIsLeast(ns, r[0]);
    FirstIsLeast(r, ns[0]);
    Trichotomy(ns[0], r[0]);
  }

  /** A list of numbers of one domain that is in order has only itself as sorted rearrangement,
      so any sorting algorithm returns it unchanged. */
  lemma {:induction false} AnySortAgrees(ns: seq<Number>, r: seq<Number>)
    requires SequenceNumbers(ns) && SequenceNumbers(r) && InOrder(ns) && InOrder(r)
    requires multiset(r) == multiset(ns)
    ensures r == ns
  {
    if ns == [] {
      assert |multiset(r)| == 0;
    } else {
      SortsShareFirst(ns, r);
      AnySortAgrees(ns[1..], r[1..]);
      assert ns == [ns[0]] + ns[1..] && r == [r[0]] + r[1..];
    }
  }

  lemma SortsShareFirst(ns: seq<Number>, r: seq<Number>)
    requires SequenceNumbers(ns) && SequenceNumbers(r) && InOrder(ns) && InOrder(r)
    requires multiset(r) == multiset(ns) && ns != []
    ensures r != [] && r[0] == ns[0] && multiset(r[1..]) == multiset(ns[1..])
    ensures SequenceNumbers(ns[1..]) && SequenceNumbers(r[1..]) && InOrder(ns[1..]) && InOrder(r[1..])
  {
    assert ns[0] in multiset(r);
    assert r[0] in multiset(ns);
    SameFirst(ns, r);
    TailInOrder(ns);
    TailInOrder(r);
  }

  // ---------- round trip ----------

  lemma ParseWord(w: nat, rest: seq<Byte>, isRange: bool)
    requires w < 0x1_0000_0000
    ensures var n := Decoded(w);
            Parse(Put32(w) + rest, isRange) ==
            if w >= 0x8000_0000 then [n] + Parse(rest, true)
            else if isRange then [n] + Parse(rest, false)
            else [n, n] + Parse(rest, false)
  {
    var data := Put32(w) + rest;
    Put32Get32(w);
    assert Get32(data, 0) == Get32(Put32(w), 0);
    assert data[4..] == rest;
  }

  lemma DecodedValue(a: Number)
    requires SequenceNumber(a)
    ensures Decoded(a.value) == a && Decoded(a.value + 0x8000_0000) == a
  {
  }

  lemma ParsePair(a: Number, b: Number, rest: seq<Byte>)
    requires SequenceNumber(a) && SequenceNumber(b)
    ensures Parse(Pair(a, b) + rest, false) == [a, b] + Parse(rest, false)
  {
    DecodedValue(a);
    DecodedValue(b);
    if a == b {
      ParseWord(a.value, rest, false);
    } else {
      var start, end := Put32(a.value + 0x8000_0000), Put32(b.value);
      assert Pair(a, b) + rest == start + (end + rest);
      ParseWord(a.value + 0x8000_0000, end + rest, false);
      ParseWord(b.value, rest, true);
      assert [a] + ([b] + Parse(rest, false)) == [a, b] + Parse(rest, false);
    }
  }

  // ---------- loss lists of the receiver ----------

  // All ends of the ranges lie in one window.
  ghost predicate Windowed(rs: seq<Range>) {
    forall i, j :: 0 <= i < |rs| && 0 <= j < |rs| ==> rs[j].hi - rs[i].lo < WINDOW
  }

  ghost predicate Proper(rs: seq<Range>) {
    forall i :: 0 <= i < |rs| ==> rs[i].lo <= rs[i].hi
  }

  // Each range ends before the next one begins, or on the same number.
  ghost predicate Ordered(rs: seq<Range>) {
    forall i, j :: 0 <= i < j < |rs| ==> rs[i].hi <= rs[j].lo
  }

  lemma {:induction false} FlatNumbers(rs: seq<Range>)
    ensures SequenceNumbers(Flat(rs))
  {
    if rs != [] {
      FlatNumbers(rs[..|rs| - 1]);
    }
  }

  // The number behind position i of the flat list.
  ghost function FlatEnd(rs: seq<Range>, i: nat): int
    requires i < 2 * |rs|
  {
    if i % 2 == 0 then rs[i / 2].lo else rs[i / 2].hi
  }

  lemma FlatEndAt(rs: seq<Range>, i: nat)
    requires i < 2 * |rs|
    ensures Flat(rs)[i] == SeqNum(FlatEnd(rs, i))
  {
    FlatAt(rs, i / 2);
    assert i == 2 * (i / 2) + i % 2;
  }

  lemma EndsNear(rs: seq<Range>, i: nat, j: nat)
    requires Proper(rs) && Windowed(rs) && i < 2 * |rs| && j < 2 * |rs|
    ensures Near(FlatEnd(rs, i), FlatEnd(rs, j))
  {
    assert rs[j / 2].hi - rs[i / 2].lo < WINDOW && rs[i / 2].hi - rs[j / 2].lo < WINDOW;
    assert rs[j / 2].lo <= rs[j / 2].hi && rs[i / 2].lo <= rs[i / 2].hi;
  }

  // Two ends compare on the circle as they do on the line.
  lemma EndsCompare(rs: seq<Range>, i: nat, j: nat)
    requires Proper(rs) && Windowed(rs) && i < 2 * |rs| && j < 2 * |rs|
    ensures Lt(Flat(rs)[i], Flat(rs)[j]) <==> FlatEnd(rs, i) < FlatEnd(rs, j)
  {
    EndsNear(rs, i, j);
    FlatEndAt(rs, i);
    FlatEndAt(rs, j);
    SeqOrder(FlatEnd(rs, i), FlatEnd(rs, j));
  }

  lemma FlatTransitive(rs: seq<Range>)
    requires Proper(rs) && Windowed(rs)
    ensures Transitive(Flat(rs))
  {
    var ns := Flat(rs);
    forall a, b, c | a in ns && b in ns && c in ns && Lt(a, b) && Lt(b, c) ensures Lt(a, c) {
      var i :| 0 <= i < |ns| && ns[i] == a;
      var j :| 0 <= j < |ns| && ns[j] == b;
      var k :| 0 <= k < |ns| && ns[k] == c;
      EndsCompare(rs, i, j);
      EndsCompare(rs, j, k);
      EndsCompare(rs, i, k);
    }
  }

  lemma FlatInOrderExactly(rs: seq<Range>)
    requires Proper(rs) && Windowed(rs)
    ensures InOrder(Flat(rs)) <==> Ordered(rs)
  {
    var ns := Flat(rs);
    if Ordered(rs) {
      forall i, j | 0 <= i < j < |ns| ensures !Lt(ns[j], ns[i]) {
        EndsCompare(rs, j, i);
        EndsOrdered(rs, i, j);
      }
    }
    if InOrder(ns) {
      forall i, j | 0 <= i < j < |rs| ensures rs[i].hi <= rs[j].lo {
        EndsCompare(rs, 2 * j, 2 * i + 1);
      }
    }
  }

  lemma EndsOrdered(rs: seq<Range>, i: nat, j: nat)
    requires Proper(rs) && Ordered(rs) && i < j < 2 * |rs|
    ensures FlatEnd(rs, i) <= FlatEnd(rs, j)
  {
    assert rs[j / 2].lo <= rs[j / 2].hi && rs[i / 2].lo <= rs[i / 2].hi;
    if i / 2 < j / 2 {
      assert rs[i / 2].hi <= rs[j / 2].lo;
    }
  }

  // How many of the ranges are written.
  function Fit(rs: seq<Range>, written: nat): (k: nat)
    ensures k <= |rs|
  {
    if rs == [] || written >= 1452 then 0
    else 1 + Fit(rs[1..], written + if SeqNum(rs[0].lo) == SeqNum(rs[0].hi) then 4 else 8)
  }

  lemma {:induction false} FlatCons(rs: seq<Range>)
    requires rs != []
    ensures Flat(rs) == [SeqNum(rs[0].lo), SeqNum(rs[0].hi)] + Flat(rs[1..])
  {
    if |rs| > 1 {
      var last := |rs| - 1;
      FlatCons(rs[..last]);
      assert rs[..last][1..] == rs[1..][..last - 1];
    } else {
      assert rs[..0] == [] && rs[1..] == [];
    }
  }

  lemma FlatPrefix(rs: seq<Range>, k: nat)
    requires 0 < k <= |rs|
    ensures Flat(rs[..k]) == [SeqNum(rs[0].lo), SeqNum(rs[0].hi)] + Flat(rs[1..][..k - 1])
  {
    FlatCons(rs[..k]);
    assert rs[..k][1..] == rs[1..][..k - 1];
  }

  lemma EmitCons(rs: seq<Range>, written: nat)
    requires rs != [] && written < 1452 && SequenceNumbers(Flat(rs)) && SequenceNumbers(Flat(rs[1..]))
    ensures var p := Pair(SeqNum(rs[0].lo), SeqNum(rs[0].hi));
            && Emit(Flat(rs), written) == p + Emit(Flat(rs[1..]), written + |p|)
            && Fit(rs, written) == 1 + Fit(rs[1..], written + |p|)
  {
    FlatCons(rs);
    assert Flat(rs)[2..] == Flat(rs[1..]);
  }

  lemma ParseStep(rs: seq<Range>, written: nat, w: nat)
    requires rs != [] && written < 1452 && SequenceNumbers(Flat(rs)) && SequenceNumbers(Flat(rs[1..]))
    requires w == written + |Pair(SeqNum(rs[0].lo), SeqNum(rs[0].hi))|
    requires Parse(Emit(Flat(rs[1..]), w), false) == Flat(rs[1..][..Fit(rs[1..], w)])
    ensures Parse(Emit(Flat(rs), written), false) == Flat(rs[..Fit(rs, written)])
  {
    EmitCons(rs, written);
    ParsePair(SeqNum(rs[0].lo), SeqNum(rs[0].hi), Emit(Flat(rs[1..]), w));
    FlatPrefix(rs, Fit(rs, written));
  }

  lemma {:induction false} ParseEmit(rs: seq<Range>, written: nat)
    requires SequenceNumbers(Flat(rs))
    ensures Parse(Emit(Flat(rs), written), false) == Flat(rs[..Fit(rs, written)])
  {
    if rs != [] && written < 1452 {
      FlatNumbers(rs[1..]);
      var w := written + |Pair(SeqNum(rs[0].lo), SeqNum(rs[0].hi))|;
      ParseEmit(rs[1..], w);
      ParseStep(rs, written, w);
    } else {
      EmitStops(rs, written);
    }
  }

  lemma EmitStops(rs: seq<Range>, written: nat)
    requires SequenceNumbers(Flat(rs)) && (rs == [] || written >= 1452)
    ensures Parse(Emit(Flat(rs), written), false) == Flat(rs[..Fit(rs, written)])
  {
    assert rs[..0] == [];
  }

  lemma {:induction false} FlatEven(rs: seq<Range>)
    ensures |Flat(rs)| % 2 == 0
  {
    DivModUnique(2 * |rs|, 2, |rs|, 0);
  }

  /** Of ranges in a window those that fit into the packet arrive as they were exactly if each ends
      before the next one begins: the flattened list is sorted on arrival, by whatever
      algorithm. */
  lemma LossListArrivesExactly(rs: seq<Range>, r: Result<seq<Number>>)
    requires Proper(rs) && Windowed(rs)
    requires SequenceNumbers(Flat(rs)) && Encode(Flat(rs)).Ok? && Decodes(Encode(Flat(rs)).value, r)
    ensures var told := rs[..Fit(rs, 0)]; r == Ok(Flat(told)) <==> Ordered(told)
  {
    var told := rs[..Fit(rs, 0)];
    DecodesToSort(rs, r);
    FlatNumbers(told);
    FlatTransitive(told);
    FlatInOrderExactly(told);
    if Ordered(told) {
      SortIs(Flat(told), Flat(told), r.value);
    }
  }

  lemma SortIs(ns: seq<Number>, sorted: seq<Number>, r: seq<Number>)
    requires SequenceNumbers(ns) && Transitive(ns) && SortOf(ns, r)
    requires InOrder(sorted) && multiset(sorted) == multiset(ns)
    ensures r == sorted
  {
    SortedNumbers(ns, sorted);
    SortedNumbers(ns, r);
    AnySortAgrees(sorted, r);
  }

  lemma SortedNumbers(ns: seq<Number>, r: seq<Number>)
    requires SequenceNumbers(ns) && multiset(r) == multiset(ns)
    ensures SequenceNumbers(r)
  {
    forall i | 0 <= i < |r| ensures SequenceNumber(r[i]) {
      assert r[i] in multiset(r);
      assert r[i] in multiset(ns);
    }
  }

  lemma DecodesToSort(rs: seq<Range>, r: Result<seq<Number>>)
    requires SequenceNumbers(Flat(rs)) && Encode(Flat(rs)).Ok? && Decodes(Encode(Flat(rs)).value, r)
    ensures r.Ok? && SortOf(Flat(rs[..Fit(rs, 0)]), r.value)
  {
    FlatEven(rs[..Fit(rs, 0)]);
    WrittenFits(Flat(rs));
    ParseEmit(rs, 0);
  }

  lemma Encodes(rs: seq<Range>)
    ensures SequenceNumbers(Flat(rs)) && Encode(Flat(rs)).Ok?
  {
    FlatNumbers(rs);
    FlatEven(rs);
  }

  /** So a separated loss list, as the receiver makes them, always arrives. */
  lemma LossListArrives(rs: seq<Range>, r: Result<seq<Number>>)
    requires Separated(rs) && Windowed(rs)
    requires SequenceNumbers(Flat(rs)) && Encode(Flat(rs)).Ok? && Decodes(Encode(Flat(rs)).value, r)
    ensures r == Ok(Flat(rs[..Fit(rs, 0)]))
  {
    LossListArrivesExactly(rs, r);
  }

  /** And of two nested ranges two others are made. */
  lemma NestedRangesAreScrambled(outer: Range, inner: Range, r: Result<seq<Number>>)
    requires outer.lo <= inner.lo <= inner.hi <= outer.hi && outer.hi - outer.lo < WINDOW
    requires var rs := [outer, inner];
             SequenceNumbers(Flat(rs)) && Encode(Flat(rs)).Ok? && Decodes(Encode(Flat(rs)).value, r)
    ensures r == Ok(Flat([Range(outer.lo, inner.lo), Range(inner.hi, outer.hi)]))
  {
    var rs := [outer, inner];
    TwoFit(rs);
    DecodesToSort(rs, r);
    NestedSorts(outer, inner, rs, [Range(outer.lo, inner.lo), Range(inner.hi, outer.hi)], r.value);
  }

  lemma NestedSorts(outer: Range, inner: Range, rs: seq<Range>, out: seq<Range>, r: seq<Number>)
    requires outer.lo <= inner.lo <= inner.hi <= outer.hi && outer.hi - outer.lo < WINDOW
    requires rs == [outer, inner] && out == [Range(outer.lo, inner.lo), Range(inner.hi, outer.hi)]
    requires SequenceNumbers(Flat(rs)) && SortOf(Flat(rs), r)
    ensures r == Flat(out)
  {
    NestedEnds(outer, inner);
    TwoInWindow(rs);
    TwoInWindow(out);
    FlatTransitive(rs);
    FlatInOrderExactly(out);
    SortIs(Flat(rs), Flat(out), r);
  }

  lemma TwoInWindow(rs: seq<Range>)
    requires |rs| == 2 && rs[0].lo <= rs[0].hi && rs[1].lo <= rs[1].hi
    requires rs[0].hi - rs[0].lo < WINDOW && rs[1].hi - rs[0].lo < WINDOW && rs[0].hi - rs[1].lo < WINDOW
    requires rs[1].hi - rs[1].lo < WINDOW
    ensures Proper(rs) && Windowed(rs)
    ensures Ordered(rs) <==> rs[0].hi <= rs[1].lo
  {
  }

  lemma NestedEnds(outer: Range, inner: Range)
    ensures multiset(Flat([Range(outer.lo, inner.lo), Range(inner.hi, outer.hi)])) == multiset(Flat([outer, inner]))
  {
    FlatTwo(outer, inner);
    FlatTwo(Range(outer.lo, inner.lo), Range(inner.hi, outer.hi));
    SameFour(SeqNum(outer.lo), SeqNum(outer.hi), SeqNum(inner.lo), SeqNum(inner.hi));
  }

  lemma SameFour(a: Number, d: Number, b: Number, c: Number)
    ensures multiset([a, d, b, c]) == multiset([a, b, c, d])
  {
  }

  lemma FlatTwo(r: Range, q: Range)
    ensures Flat([r, q]) == [SeqNum(r.lo), SeqNum(r.hi), SeqNum(q.lo), SeqNum(q.hi)]
  {
    FlatSnoc([], r);
    FlatSnoc([r], q);
    assert [r] + [q] == [r, q] && [] + [r] == [r];
  }

  lemma TwoFit(rs: seq<Range>)
    requires |rs| == 2
    ensures rs[..Fit(rs, 0)] == rs
  {
    assert |rs[1..]| == 1 && rs[1..][1..] == [];
  }
}
