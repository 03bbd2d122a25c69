/** Big-endian fields of the packet format (section 3 of draft-sharabayko-srt). */
module Wire {
  import opened Packets

  function Bit(b: bool): nat {
    if b then 1 else 0
  }

  function Put16(n: nat): (b: seq<Byte>)
    requires n < 0x1_0000
    ensures |b| == 2
  {
    [n / 0x100, n % 0x100]
  }

  function Get16(b: seq<Byte>, i: nat): (n: nat)
    requires i + 2 <= |b|
    ensures n < 0x1_0000
  {
    (b[i] as int) * 0x100 + b[i + 1]
  }

  function Put32(n: nat): (w: seq<Byte>)
    requires n < 0x1_0000_0000
    ensures |w| == 4
  {
    [n / 0x100_0000, (n / 0x1_0000) % 0x100, (n / 0x100) % 0x100, n % 0x100]
  }

  function Get32(b: seq<Byte>, i: nat): (n: nat)
    requires i + 4 <= |b|
    ensures n < 0x1_0000_0000
    ensures n >= 0x8000_0000 <==> b[i] >= 0x80
  {
    (b[i] as int) * 0x100_0000 + (b[i + 1] as int) * 0x1_0000 + (b[i + 2] as int) * 0x100 + b[i + 3]
  }

  lemma Put16Get16(n: nat)
    requires n < 0x1_0000
    ensures Get16(Put16(n), 0) == n
  {
  }

  lemma Get16Put16(b: seq<Byte>, i: nat)
    requires i + 2 <= |b|
    ensures Put16(Get16(b, i)) == b[i..i + 2]
  {
  }

  lemma Put32Get32(n: nat)
    requires n < 0x1_0000_0000
    ensures Get32(Put32(n), 0) == n
  {
    var a: int, b: int, c: int := n / 0x100_0000, n / 0x1_0000, n / 0x100;
    assert n == c * 0x100 + n % 0x100;
    assert c / 0x100 == b && c == b * 0x100 + c % 0x100;
    assert b / 0x100 == a && b == a * 0x100 + b % 0x100;
  }

  lemma Get32Put32(b: seq<Byte>, i: nat)
    requires i + 4 <= |b|
    ensures Put32(Get32(b, i)) == b[i..i + 4]
  {
    var n := Get32(b, i);
    assert n / 0x100 == (b[i] as int) * 0x1_0000 + (b[i + 1] as int) * 0x100 + b[i + 2];
    assert n / 0x1_0000 == (b[i] as int) * 0x100 + b[i + 1];
    assert n / 0x100_0000 == b[i];
  }

  lemma Get32At(a: seq<Byte>, n: nat, b: seq<Byte>)
    requires n < 0x1_0000_0000
    ensures Get32(a + Put32(n) + b, |a|) == n
  {
    Put32Get32(n);
    var w := a + Put32(n) + b;
    assert w[|a|] == Put32(n)[0] && w[|a| + 1] == Put32(n)[1] && w[|a| + 2] == Put32(n)[2] && w[|a| + 3] == Put32(n)[3];
  }

  lemma Get16At(a: seq<Byte>, n: nat, b: seq<Byte>)
    requires n < 0x1_0000
    ensures Get16(a + Put16(n) + b, |a|) == n
  {
    Put16Get16(n);
    var w := a + Put16(n) + b;
    assert w[|a|] == Put16(n)[0] && w[|a| + 1] == Put16(n)[1];
  }
}
