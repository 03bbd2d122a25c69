/** Circular numbers (circular/circular.go): fixed-width counters that wrap at `max`,
    and the window in which comparing them is the same as comparing integers. */
module Circular {

  // 2^32: every Go value here is a uint32.
  const U32: nat := 0x1_0000_0000

  datatype Number = Number(max: nat, threshold: nat, value: nat)

  ghost predicate Valid(a: Number) {
    a.max < U32 && a.threshold == a.max / 2 && a.value <= a.max
  }

  function New(x: nat, max: nat): Number
    requires x < U32 && max < U32
  {
    var c := Number(max, max / 2, 0);
    if x > max then Add(c, x) else c.(value := x)
  }

  predicate Equals(a: Number, b: Number) {
    a.value == b.value
  }

  function AbsDiff(a: Number, b: Number): nat {
    if a.value > b.value then a.value - b.value else b.value - a.value
  }

  function Distance(a: Number, b: Number): nat
    requires Valid(a) && b.value <= a.max
  {
    if Equals(a, b) then 0
    else
      var d := AbsDiff(a, b);
      if d >= a.threshold then a.max - d + 1 else d
  }

  predicate Lt(a: Number, b: Number) {
    if Equals(a, b) then false
    else
      var altb := a.value < b.value;
      if AbsDiff(a, b) < a.threshold then altb else !altb
  }

  predicate Lte(a: Number, b: Number) {
    Equals(a, b) || Lt(a, b)
  }

  predicate Gt(a: Number, b: Number) {
    if Equals(a, b) then false
    else
      var agtb := a.value > b.value;
      if AbsDiff(a, b) < a.threshold then agtb else !agtb
  }

  predicate Gte(a: Number, b: Number) {
    Equals(a, b) || Gt(a, b)
  }

  function Inc(a: Number): Number {
    if a.value == a.max then a.(value := 0) else a.(value := a.value + 1)
  }

  function Dec(a: Number): Number {
    if a.value == 0 then a.(value := a.max) else a.(value := a.value - 1)
  }

  function Add(a: Number, b: nat): Number
    requires a.value <= a.max && b < U32
  {
    var x := a.max - a.value;
    if b <= x then a.(value := a.value + b) else a.(value := b - x - 1)
  }

  // The subtraction wraps in 32 bits, as in Go.
  function Sub(a: Number, b: nat): Number
    requires a.value <= a.max && b < U32
  {
    if b <= a.value then a.(value := a.value - b)
    else a.(value := (a.max - (b - a.value) + 1) % U32)
  }

  /** The circular number that stands for the unbounded number x. */
  function Of(x: int, max: nat): Number {
    Number(max, max / 2, x % (max + 1))
  }

  // ---------- residues ----------

  lemma NoMultipleBetween(k: int, m: int)
    requires -m < k * m < m
    ensures k == 0
  {
    assert k >= 1 ==> (k - 1) * m >= 0;
    assert k <= -1 ==> (-k - 1) * m >= 0;
  }

  lemma DivModUnique(x: int, m: int, q: int, r: int)
    requires m > 0 && x == q * m + r && 0 <= r < m
    ensures x / m == q && x % m == r
  {
    var k := x / m - q;
    assert k * m == r - x % m;
    NoMultipleBetween(k, m);
  }

  lemma QuotientNatural(x: nat, m: nat)
    requires m > 0
    ensures x / m >= 0
  {
  }

  lemma ResidueShift(x: int, d: int, m: int)
    requires 0 <= d <= m && m > 0
    ensures (x + d) % m == if x % m + d < m then x % m + d else x % m + d - m
  {
    var q := x / m;
    assert x == q * m + x % m;
    if x % m + d < m {
      DivModUnique(x + d, m, q, x % m + d);
    } else {
      assert (q + 1) * m == q * m + m;
      DivModUnique(x + d, m, q + 1, x % m + d - m);
    }
  }

  // ---------- order ----------

  /** Circular comparison refines integer comparison while the two numbers are
      closer than the threshold. */
  lemma OrderAgrees(x: int, y: int, max: nat)
    requires max < U32 && -(max / 2) < x - y < max / 2
    ensures Lt(Of(x, max), Of(y, max)) <==> x < y
    ensures Gt(Of(x, max), Of(y, max)) <==> x > y
    ensures Equals(Of(x, max), Of(y, max)) <==> x == y
    ensures Distance(Of(x, max), Of(y, max)) == if x < y then y - x else x - y
  {
    if x <= y {
      ResidueShift(x, y - x, max + 1);
    } else {
      ResidueShift(y, x - y, max + 1);
    }
  }

  /** How far apart two numbers may be: Lt tells the order right at every position of
      the circle exactly for the distances below the threshold. */
  lemma OrderAgreesExactly(d: int, max: nat)
    requires 0 < d <= max < U32
    ensures (forall x: int :: Lt(Of(x, max), Of(x + d, max))) <==> d < max / 2
  {
    if d < max / 2 {
      forall x: int ensures Lt(Of(x, max), Of(x + d, max)) {
        OrderAgrees(x, x + d, max);
      }
    } else {
      ResidueShift(0, d, max + 1);
      assert 0 % (max + 1) == 0 by { DivModUnique(0, max + 1, 0, 0); }
      assert !Lt(Of(0, max), Of(0 + d, max));
    }
  }

  /** Order of any two numbers of one domain is a tournament: exactly one of <, >, =. */
  lemma Trichotomy(a: Number, b: Number)
    requires Valid(a) && Valid(b) && a.max == b.max
    ensures Lt(a, b) || Gt(a, b) || Equals(a, b)
    ensures !(Lt(a, b) && Gt(a, b)) && !(Lt(a, b) && Equals(a, b)) && !(Gt(a, b) && Equals(a, b))
    ensures Lt(a, b) <==> Gt(b, a)
    ensures Distance(a, b) == Distance(b, a)
  {
  }

  /** Distance is the way from the lower to the higher number, in both directions. */
  lemma DistanceSpans(a: Number, b: Number)
    requires Valid(a) && Valid(b) && a.max == b.max && Lt(a, b)
    ensures Add(a, Distance(a, b)) == b
    ensures Sub(b, Distance(a, b)) == a
  {
  }

  /** Without the window the order is no order: three numbers below each other in a ring. */
  lemma LtNotTransitive()
    ensures exists a: Number, b: Number, c: Number ::
              Valid(a) && Valid(b) && Valid(c) && a.max == b.max == c.max == 0x7FFF_FFFF
              && Lt(a, b) && Lt(b, c) && Lt(c, a)
  {
    var a, b, c := Of(0, 0x7FFF_FFFF), Of(0x3000_0000, 0x7FFF_FFFF), Of(0x6000_0000, 0x7FFF_FFFF);
    assert Lt(a, b) && Lt(b, c) && Lt(c, a);
  }

  // ---------- arithmetic ----------

  /** Inc, Dec, Add and Sub follow the unbounded number. Add leaves the domain exactly
      when it would wrap twice; Sub exactly when it would wrap twice below zero. */
  lemma IncDecAgree(x: int, max: nat)
    ensures Inc(Of(x, max)) == Of(x + 1, max)
    ensures Dec(Of(x, max)) == Of(x - 1, max)
  {
    ResidueShift(x, 1, max + 1);
    ResidueShift(x - 1, 1, max + 1);
  }

  lemma AddAgreesExactly(x: int, b: nat, max: nat)
    requires b < U32 && max < U32
    ensures Add(Of(x, max), b) == Of(x + b, max) <==> Of(x, max).value + b < 2 * (max + 1)
  {
    var m, v := max + 1, Of(x, max).value;
    if v + b < 2 * m {
      if b <= m {
        ResidueShift(x, b, m);
      } else {
        ResidueShift(x, b - m, m);
        ResidueShift(x + b - m, m, m);
        assert (x + b - m) + m == x + b;
      }
    }
  }

  lemma ResidueShiftDown(x: int, b: nat, m: int)
    requires m > 0 && b <= x % m + m
    ensures (x - b) % m == if b <= x % m then x % m - b else x % m - b + m
  {
    if b <= m {
      ResidueShift(x - b, b, m);
    } else {
      ResidueShift(x - b, b - m, m);
      ResidueShift(x - m, m, m);
    }
  }

  lemma SubValue(a: Number, b: nat)
    requires a.max < U32 && a.value <= a.max && b < U32
    ensures b <= a.value ==> Sub(a, b).value == a.value - b
    ensures a.value < b <= a.value + a.max + 1 ==> Sub(a, b).value == a.value - b + a.max + 1
    ensures a.value + a.max + 1 < b ==> Sub(a, b).value > a.max
  {
  }

  lemma SubAgreesExactly(x: int, b: nat, max: nat)
    requires b < U32 && max < U32
    ensures Sub(Of(x, max), b) == Of(x - b, max) <==> b <= Of(x, max).value + max + 1
  {
    SubValue(Of(x, max), b);
    if b <= Of(x, max).value + max + 1 {
      ResidueShiftDown(x, b, max + 1);
    } else {
      assert Of(x - b, max).value <= max;
    }
  }

  /** New keeps every uint32 in the domain exactly when it is less than twice the modulus. */
  lemma NewIsResidue(x: nat, max: nat)
    requires x < U32 && max < U32
    ensures New(x, max) == Of(x, max) <==> x < 2 * (max + 1)
  {
    assert 0 % (max + 1) == 0 by { DivModUnique(0, max + 1, 0, 0); }
    assert Of(0, max) == Number(max, max / 2, 0);
    AddAgreesExactly(0, x, max);
    if x <= max {
      DivModUnique(x, max + 1, 0, x);
    }
  }

  // ---------- packet sequence numbers ----------

  const MAX_SEQUENCENUMBER: nat := 0x7FFF_FFFF

  // Numbers closer than this compare like integers.
  const WINDOW: nat := MAX_SEQUENCENUMBER / 2

  function SeqNum(n: int): Number {
    Number(0x7FFF_FFFF, 0x3FFF_FFFF, n % 0x8000_0000)
  }

  ghost predicate Near(x: int, y: int) {
    -(WINDOW as int) < x - y < WINDOW
  }

  lemma SeqOrder(x: int, y: int)
    requires Near(x, y)
    ensures Lt(SeqNum(x), SeqNum(y)) <==> x < y
    ensures Lte(SeqNum(x), SeqNum(y)) <==> x <= y
    ensures Gt(SeqNum(x), SeqNum(y)) <==> x > y
    ensures Gte(SeqNum(x), SeqNum(y)) <==> x >= y
    ensures Equals(SeqNum(x), SeqNum(y)) <==> x == y
    ensures SeqNum(x) == SeqNum(y) <==> x == y
    ensures Distance(SeqNum(x), SeqNum(y)) == if x < y then y - x else x - y
  {
    OrderAgrees(x, y, MAX_SEQUENCENUMBER);
  }

  /** Without a window, numbers a multiple of 2^31 apart are one and the same. */
  lemma SameOnCircle(x: int, y: int)
    ensures SeqNum(x) == SeqNum(y) <==> (x - y) % 0x8000_0000 == 0
  {
  }

  lemma SeqEqual(x: int, y: int)
    requires -(MAX_SEQUENCENUMBER as int) <= x - y <= MAX_SEQUENCENUMBER
    ensures Equals(SeqNum(x), SeqNum(y)) <==> x == y
  {
  }

  lemma SeqStep(x: int)
    ensures Inc(SeqNum(x)) == SeqNum(x + 1)
    ensures Dec(SeqNum(x)) == SeqNum(x - 1)
  {
    IncDecAgree(x, MAX_SEQUENCENUMBER);
  }

  // The operations of the code on sequence numbers, for callers that know which unbounded
  // numbers x and y stand behind them.

  method Below(a: Number, b: Number, ghost x: int, ghost y: int) returns (r: bool)
    requires a == SeqNum(x) && b == SeqNum(y) && Near(x, y)
    ensures r <==> x < y
  {
    SeqOrder(x, y);
    r := Lt(a, b);
  }

  method AtMost(a: Number, b: Number, ghost x: int, ghost y: int) returns (r: bool)
    requires a == SeqNum(x) && b == SeqNum(y) && Near(x, y)
    ensures r <==> x <= y
  {
    SeqOrder(x, y);
    r := Lte(a, b);
  }

  method Above(a: Number, b: Number, ghost x: int, ghost y: int) returns (r: bool)
    requires a == SeqNum(x) && b == SeqNum(y) && Near(x, y)
    ensures r <==> x > y
  {
    SeqOrder(x, y);
    r := Gt(a, b);
  }

  method AtLeast(a: Number, b: Number, ghost x: int, ghost y: int) returns (r: bool)
    requires a == SeqNum(x) && b == SeqNum(y) && Near(x, y)
    ensures r <==> x >= y
  {
    SeqOrder(x, y);
    r := Gte(a, b);
  }

  method Follows(a: Number, b: Number, ghost x: int, ghost y: int) returns (r: bool)
    requires a == SeqNum(x) && b == SeqNum(y) && Near(x, y)
    ensures r <==> x == y + 1
  {
    SeqStep(y);
    SeqEqual(x, y + 1);
    r := Equals(a, Inc(b));
  }

  method Span(a: Number, b: Number, ghost x: int, ghost y: int) returns (d: int)
    requires a == SeqNum(x) && b == SeqNum(y) && Near(x, y)
    ensures d == if x < y then y - x else x - y
  {
    SeqOrder(x, y);
    d := Distance(a, b);
  }

  // a.Val() & 0xF
  method LowBits(a: Number, ghost x: int) returns (r: nat)
    requires a == SeqNum(x)
    ensures r == x % 16
  {
    ghost var q := x / 0x8000_0000;
    DivModUnique(x, 16, q * 0x800_0000 + a.value / 16, a.value % 16);
    r := a.value % 16;
  }

  method Succ(a: Number, ghost x: int) returns (b: Number)
    requires a == SeqNum(x)
    ensures b == SeqNum(x + 1)
  {
    SeqStep(x);
    b := Inc(a);
  }

  method Pred(a: Number, ghost x: int) returns (b: Number)
    requires a == SeqNum(x)
    ensures b == SeqNum(x - 1)
  {
    SeqStep(x);
    b := Dec(a);
  }
}
