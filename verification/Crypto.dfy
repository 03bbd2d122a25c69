/** The payload encryption of a connection (crypto/crypto.go): two session key slots, wrapping of
    keys for the peer, and the counter-mode cipher. AES, the key wrap and the key derivation
    are parameters. */
module Crypto {
  import opened Wrappers

  // PacketEncryption
  datatype Key = Unencrypted | Even | Odd | EvenAndOdd

  function Opposite(k: Key): Key {
    match k
    case Even => Odd
    case Odd => Even
    case _ => k
  }

  /** The foreign primitives: PBKDF2, AES key wrap and unwrap, and the AES-CTR key stream of
      a given length. */
  datatype Suite = Suite(
    kek: (string, seq<bv8>, nat) -> seq<bv8>,
    wrap: (seq<bv8>, seq<bv8>) -> seq<bv8>,
    unwrap: (seq<bv8>, seq<bv8>) -> Option<seq<bv8>>,
    stream: (seq<bv8>, seq<bv8>, nat) -> seq<bv8>)

  ghost predicate Sound(x: Suite) {
    && (forall k, w :: |x.wrap(k, w)| == |w| + 8)
    && (forall k, w :: x.unwrap(k, x.wrap(k, w)) == Some(w))
    && (forall k, ctr, n :: |x.stream(k, ctr, n)| == n)
  }

  datatype Box = Box(keyLength: nat, salt: seq<bv8>, even: seq<bv8>, odd: seq<bv8>)

  ghost predicate Valid(b: Box) {
    b.keyLength > 0 && |b.salt| == 16 && |b.even| == b.keyLength && |b.odd| == b.keyLength
  }

  function Slot(b: Box, k: Key): seq<bv8> {
    if k == Even then b.even else b.odd
  }

  function Install(b: Box, k: Key, sek: seq<bv8>): Box {
    match k
    case Even => b.(even := sek)
    case Odd => b.(odd := sek)
    case _ => b
  }

  // ---------- key material messages ----------

  datatype KM = KM(key: Key, salt: seq<bv8>, wrap: seq<bv8>)

  // The key encrypting key comes from the last eight bytes of the salt.
  function Kek(x: Suite, passphrase: string, b: Box): seq<bv8>
    requires |b.salt| == 16
  {
    x.kek(passphrase, b.salt[8..], b.keyLength)
  }

  function MarshalKM(x: Suite, b: Box, passphrase: string, key: Key): Result<KM>
    requires |b.salt| == 16
  {
    if key == Unencrypted then Error
    else
      var w := if key == Even then b.even else if key == Odd then b.odd else b.even + b.odd;
      Ok(KM(key, b.salt, x.wrap(Kek(x, passphrase, b), w)))
  }

  // Go's copy(dst, src).
  function Copied(dst: seq<bv8>, src: seq<bv8>): (r: seq<bv8>)
    ensures |r| == |dst|
  {
    if |src| >= |dst| then src[..|dst|] else src + dst[|src|..]
  }

  datatype Unmarshalled = Unmarshalled(box: Box, ok: bool)

  // The salt is taken over before the key is unwrapped.
  function UnmarshalKM(x: Suite, b: Box, km: KM, passphrase: string): Unmarshalled
    requires Valid(b)
  {
    if km.key == Unencrypted then Unmarshalled(b, false)
    else
      var wrapLength := if km.key == EvenAndOdd then 2 * b.keyLength else b.keyLength;
      if |km.wrap| != wrapLength + 8 then Unmarshalled(b, false)
      else
        var b := b.(salt := Copied(b.salt, km.salt));
        match x.unwrap(Kek(x, passphrase, b), km.wrap)
        case None => Unmarshalled(b, false)
        case Some(w) =>
          if |w| != wrapLength then Unmarshalled(b, false)
          else if km.key == EvenAndOdd then Unmarshalled(b.(even := w[..b.keyLength], odd := w[b.keyLength..]), true)
          else Unmarshalled(Install(b, km.key, w), true)
  }

  /** Key material wrapped by one side and unwrapped by the other under the same passphrase puts the
      sender's salt and key into the receiver's slot, and leaves the other slot alone. */
  lemma KeyMaterialArrives(x: Suite, a: Box, b: Box, passphrase: string, key: Key)
    requires Sound(x) && Valid(a) && Valid(b) && a.keyLength == b.keyLength && key != Unencrypted
    ensures var km := MarshalKM(x, a, passphrase, key);
            km.Ok? && UnmarshalKM(x, b, km.value, passphrase) ==
            Unmarshalled(if key == EvenAndOdd then a else Install(b, key, Slot(a, key)).(salt := a.salt), true)
  {
    var w := if key == Even then a.even else if key == Odd then a.odd else a.even + a.odd;
    assert a.salt[..16] == a.salt;
    assert x.unwrap(Kek(x, passphrase, a), x.wrap(Kek(x, passphrase, a), w)) == Some(w);
  }

  /** A key material message holds the key flag and the salt, and wrapped under the key encrypting
      key the session key of the slot, or the even and then the odd one. */
  lemma KeyMaterialHolds(x: Suite, b: Box, passphrase: string, key: Key)
    requires Sound(x) && Valid(b) && key != Unencrypted
    ensures var km := MarshalKM(x, b, passphrase, key);
            && km.Ok? && km.value.key == key && km.value.salt == b.salt
            && x.unwrap(Kek(x, passphrase, b), km.value.wrap)
               == Some(match key case Even => b.even case Odd => b.odd case _ => b.even + b.odd)
  {
    var w := match key case Even => b.even case Odd => b.odd case _ => b.even + b.odd;
    assert x.unwrap(Kek(x, passphrase, b), x.wrap(Kek(x, passphrase, b), w)) == Some(w);
  }

  // A derivation that gives its salt and length away.
  function OpenSuite(): Suite {
    ToySuite().(kek := (p, s, n: nat) => s + seq(n, i => 0))
  }

  /** The key encrypting key is made of the last eight bytes of the salt and the key length, under
      every derivation, and of nothing else of the box. */
  lemma KekExactly(a: Box, b: Box, passphrase: string)
    requires |a.salt| == 16 && |b.salt| == 16
    ensures (forall x :: Kek(x, passphrase, a) == Kek(x, passphrase, b)) <==>
            a.keyLength == b.keyLength && forall i :: 8 <= i < 16 ==> a.salt[i] == b.salt[i]
  {
    if a.keyLength == b.keyLength && forall i :: 8 <= i < 16 ==> a.salt[i] == b.salt[i] {
      assert a.salt[8..] == b.salt[8..];
    }
    if forall x :: Kek(x, passphrase, a) == Kek(x, passphrase, b) {
      var k, l := Kek(OpenSuite(), passphrase, a), Kek(OpenSuite(), passphrase, b);
      assert k == l && |k| == 8 + a.keyLength && |l| == 8 + b.keyLength;
      forall i | 8 <= i < 16 ensures a.salt[i] == b.salt[i] {
        assert k[i - 8] == a.salt[i] && l[i - 8] == b.salt[i];
      }
    }
  }

  /** Key material that is refused does not touch the keys, but it leaves the cipher unchanged
      exactly if it was refused for its key flag or length, or brought the salt already in use. */
  lemma RefusedKeyMaterialExactly(x: Suite, b: Box, km: KM, passphrase: string)
    requires Valid(b) && !UnmarshalKM(x, b, km, passphrase).ok
    ensures var wrapLength := if km.key == EvenAndOdd then 2 * b.keyLength else b.keyLength;
            UnmarshalKM(x, b, km, passphrase).box == b <==>
            km.key == Unencrypted || |km.wrap| != wrapLength + 8 || Copied(b.salt, km.salt) == b.salt
    ensures UnmarshalKM(x, b, km, passphrase).box.even == b.even
    ensures UnmarshalKM(x, b, km, passphrase).box.odd == b.odd
  {
  }

  // A suite whose key stream is the first byte of the key over and over, and which wraps a key by
  // adding eight zeros.
  function ToySuite(): Suite {
    var seal: seq<bv8> := [0, 0, 0, 0, 0, 0, 0, 0];
    Suite((p, s, n) => [], (k, w) => w + seal,
          (k, w) => if |w| >= 8 && w[|w| - 8..] == seal then Some(w[..|w| - 8]) else None,
          (k, ctr, n: nat) => seq(n, i => if k == [] then 0 else k[0]))
  }

  lemma ToyIsSound()
    ensures Sound(ToySuite())
  {
    var x, seal: seq<bv8> := ToySuite(), [0, 0, 0, 0, 0, 0, 0, 0];
    forall k: seq<bv8>, w: seq<bv8> ensures x.unwrap(k, x.wrap(k, w)) == Some(w) {
      assert (w + seal)[..|w|] == w && (w + seal)[|w|..] == seal;
    }
  }

  /** And it happens: key material of the right length that does not unwrap, with another salt. */
  lemma RefusedKeyMaterialHarms() returns (x: Suite, b: Box, km: KM)
    ensures Sound(x) && Valid(b)
    ensures !UnmarshalKM(x, b, km, "").ok && UnmarshalKM(x, b, km, "").box != b
  {
    ToyIsSound();
    x := ToySuite();
    var zeros, ones: seq<bv8> := seq(16, i => 0), seq(16, i => 1);
    b, km := Box(1, zeros, [0], [0]), KM(Odd, ones, [1, 1, 1, 1, 1, 1, 1, 1, 1]);
    assert zeros[0] != ones[0] && Copied(zeros, ones)[0] == ones[0];
    assert km.wrap[|km.wrap| - 8..][0] == 1;
  }

  // ---------- payload ----------

  // Byte i of the counter block before the salt: the sequence number in bytes 10 to 13.
  function PsnByte(psn: bv32, i: int): bv8 {
    if i == 10 then ((psn >> 24) & 0xFF) as bv8
    else if i == 11 then ((psn >> 16) & 0xFF) as bv8
    else if i == 12 then ((psn >> 8) & 0xFF) as bv8
    else if i == 13 then (psn & 0xFF) as bv8
    else 0
  }

  function Counter(salt: seq<bv8>, psn: bv32): (ctr: seq<bv8>)
    requires |salt| == 16
    ensures |ctr| == 16
  {
    seq(16, i requires 0 <= i < 16 => if i < 14 then salt[i] ^ PsnByte(psn, i) else 0)
  }

  /** The counter block is the salt, with the sequence number combined into bytes 10 to 13, most
      significant first, and two zeros. */
  lemma CounterLayout(salt: seq<bv8>, psn: bv32)
    requires |salt| == 16
    ensures var ctr := Counter(salt, psn);
            && ctr[..10] == salt[..10] && ctr[14] == 0 && ctr[15] == 0
            && Word32(ctr[10] ^ salt[10], ctr[11] ^ salt[11], ctr[12] ^ salt[12], ctr[13] ^ salt[13]) == psn
  {
    var ctr := Counter(salt, psn);
    forall i | 0 <= i < 10 ensures ctr[i] == salt[i] {
      XorZero(salt[i]);
    }
    XorBack(salt[10], PsnByte(psn, 10));
    XorBack(salt[11], PsnByte(psn, 11));
    XorBack(salt[12], PsnByte(psn, 12));
    XorBack(salt[13], PsnByte(psn, 13));
    PsnWord(psn);
  }

  function Word32(a: bv8, b: bv8, c: bv8, d: bv8): bv32 {
    ((a as bv32) << 24) | ((b as bv32) << 16) | ((c as bv32) << 8) | (d as bv32)
  }

  lemma PsnWord(psn: bv32)
    ensures Word32(PsnByte(psn, 10), PsnByte(psn, 11), PsnByte(psn, 12), PsnByte(psn, 13)) == psn
  {
  }

  lemma XorZero(a: bv8)
    ensures a ^ 0 == a
  {
  }

  lemma XorBack(a: bv8, b: bv8)
    ensures (a ^ b) ^ a == b
  {
  }

  lemma PsnBytesDetermine(p: bv32, q: bv32)
    requires ((p >> 24) & 0xFF) as bv8 == ((q >> 24) & 0xFF) as bv8
    requires ((p >> 16) & 0xFF) as bv8 == ((q >> 16) & 0xFF) as bv8
    requires ((p >> 8) & 0xFF) as bv8 == ((q >> 8) & 0xFF) as bv8
    requires (p & 0xFF) as bv8 == (q & 0xFF) as bv8
    ensures p == q
  {
  }

  lemma XorCancels(a: bv8, b: bv8, c: bv8)
    requires a ^ b == a ^ c
    ensures b == c
  {
  }

  lemma CountersDiffer(salt: seq<bv8>, p: bv32, q: bv32)
    requires |salt| == 16 && Counter(salt, p)[..14] == Counter(salt, q)[..14]
    ensures p == q
  {
    SamePsnByte(salt, p, q, 10);
    SamePsnByte(salt, p, q, 11);
    SamePsnByte(salt, p, q, 12);
    SamePsnByte(salt, p, q, 13);
    PsnBytesDetermine(p, q);
  }

  lemma SamePsnByte(salt: seq<bv8>, p: bv32, q: bv32, i: nat)
    requires |salt| == 16 && i < 14 && Counter(salt, p)[..14] == Counter(salt, q)[..14]
    ensures PsnByte(p, i) == PsnByte(q, i)
  {
    assert Counter(salt, p)[..14][i] == Counter(salt, q)[..14][i];
    XorCancels(salt[i], PsnByte(p, i), PsnByte(q, i));
  }

  // A block as the big-endian number that counter mode counts up.
  ghost function Value(b: seq<bv8>): nat {
    if b == [] then 0 else Value(b[..|b| - 1]) * 256 + b[|b| - 1] as nat
  }

  lemma DigitsDetermine(x: nat, y: nat, r: bv8, s: bv8)
    requires x * 256 + r as nat == y * 256 + s as nat
    ensures x == y && r == s
  {
    assert r as nat < 256 && s as nat < 256;
  }

  lemma {:induction false} ValueDetermines(a: seq<bv8>, b: seq<bv8>)
    requires |a| == |b| && Value(a) == Value(b)
    ensures a == b
  {
    if a != [] {
      var k := |a| - 1;
      DigitsDetermine(Value(a[..k]), Value(b[..k]), a[k], b[k]);
      ValueDetermines(a[..k], b[..k]);
      assert a == a[..k] + [a[k]] && b == b[..k] + [b[k]];
    }
  }

  lemma CounterValue(salt: seq<bv8>, psn: bv32)
    requires |salt| == 16
    ensures Value(Counter(salt, psn)) == Value(Counter(salt, psn)[..14]) * 0x1_0000
  {
    var ctr := Counter(salt, psn);
    assert ctr[..15][..14] == ctr[..14] && ctr[..16] == ctr;
    assert ctr[14] == 0 && ctr[15] == 0;
    assert Value(ctr) == Value(ctr[..15]) * 256;
    assert Value(ctr[..15]) == Value(ctr[..14]) * 256;
  }

  /** Under one salt the blocks counted for two packets of up to 2^16 blocks each, which is
      1 MiB of payload, never meet. */
  lemma CountersNeverMeet(salt: seq<bv8>, p: bv32, q: bv32, i: nat, j: nat)
    requires |salt| == 16 && p != q && i < 0x1_0000 && j < 0x1_0000
    ensures Value(Counter(salt, p)) + i != Value(Counter(salt, q)) + j
  {
    var a, b := Counter(salt, p)[..14], Counter(salt, q)[..14];
    CounterValue(salt, p);
    CounterValue(salt, q);
    assert Value(a) != Value(b) by {
      if Value(a) == Value(b) {
        ValueDetermines(a, b);
        CountersDiffer(salt, p, q);
      }
    }
    NeverMeet(Value(a), Value(b), i, j);
  }

  lemma NeverMeet(x: nat, y: nat, i: nat, j: nat)
    requires x != y && i < 0x1_0000 && j < 0x1_0000
    ensures x * 0x1_0000 + i != y * 0x1_0000 + j
  {
  }

  // ---------- combining ----------

  function Xor(a: seq<bv8>, b: seq<bv8>): (c: seq<bv8>)
    requires |a| == |b|
    ensures |c| == |a|
  {
    seq(|a|, i requires 0 <= i < |a| => a[i] ^ b[i])
  }

  lemma XorTwice(a: seq<bv8>, b: seq<bv8>)
    requires |a| == |b|
    ensures Xor(Xor(a, b), b) == a
  {
    forall i | 0 <= i < |a| ensures (a[i] ^ b[i]) ^ b[i] == a[i] {
      XorByteTwice(a[i], b[i]);
    }
  }

  lemma XorByteTwice(a: bv8, b: bv8)
    ensures (a ^ b) ^ b == a
  {
  }

  // The key stream for a packet.
  function KeyStream(x: Suite, salt: seq<bv8>, sek: seq<bv8>, psn: bv32, n: nat): (s: seq<bv8>)
    requires |salt| == 16
  {
    x.stream(sek, Counter(salt, psn), n)
  }

  // The lengths AES accepts.
  predicate AesKey(sek: seq<bv8>) {
    |sek| == 16 || |sek| == 24 || |sek| == 32
  }

  class PayloadCipher {
    var box: Box
    const x: Suite

    constructor (x: Suite, box: Box)
      ensures this.x == x && this.box == box
    {
      this.x, this.box := x, box;
    }

    method GenerateSEK(key: Key, sek: seq<bv8>)
      modifies this
      ensures box == Install(old(box), key, sek)
    {
      if key == Even {
        box := box.(even := sek);
      } else if key == Odd {
        box := box.(odd := sek);
      }
    }

    method EncryptOrDecryptPayload(data: array<bv8>, key: Key, psn: bv32) returns (ok: bool)
      requires Sound(x)
      modifies data
      ensures ok <==> |box.salt| == 16 && (key == Even || key == Odd) && AesKey(Slot(box, key))
      ensures ok ==> data[..] == Xor(old(data[..]), KeyStream(x, box.salt, Slot(box, key), psn, data.Length))
      ensures !ok ==> data[..] == old(data[..])
    {
      if |box.salt| != 16 {
        return false;
      }
      var ctr := CounterBlock(psn);
      if key != Even && key != Odd {
        return false;
      }
      var sek := if key == Even then box.even else box.odd;
      if !AesKey(sek) {
        return false;
      }
      var stream := x.stream(sek, ctr, data.Length);
      var i := 0;
      while i < data.Length
        invariant i <= data.Length
        invariant forall j :: 0 <= j < i ==> data[j] == old(data[j]) ^ stream[j]
        invariant forall j :: i <= j < data.Length ==> data[j] == old(data[j])
      {
        data[i] := data[i] ^ stream[i];
        i := i + 1;
      }
      return true;
    }

    method CounterBlock(psn: bv32) returns (ctr: seq<bv8>)
      requires |box.salt| == 16
      ensures ctr == Counter(box.salt, psn)
    {
      var block := new bv8[16](i => PsnByte(psn, i));
      XorSalt(block, box.salt);
      assert PsnByte(psn, 14) == 0 && PsnByte(psn, 15) == 0;
      return block[..];
    }
  }

  method XorSalt(block: array<bv8>, salt: seq<bv8>)
    requires block.Length == |salt| == 16
    modifies block
    ensures forall j :: 0 <= j < 14 ==> block[j] == salt[j] ^ old(block[j])
    ensures forall j :: 14 <= j < 16 ==> block[j] == old(block[j])
  {
    var i := 0;
    while i < 14
      invariant 0 <= i <= 14
      invariant forall j :: 0 <= j < i ==> block[j] == salt[j] ^ old(block[j])
      invariant forall j :: i <= j < 16 ==> block[j] == old(block[j])
    {
      block[i] := XorWith(block[i], salt[i]);
      i := i + 1;
    }
  }

  function XorWith(a: bv8, s: bv8): (r: bv8)
    ensures r == s ^ a
  {
    a ^ s
  }
}
