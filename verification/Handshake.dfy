/** The handshake and its extensions (packet/packet.go, CIFHandshake, CIFHandshakeExtension and
    CIFKeyMaterialExtension; section 3.2.1 of draft-sharabayko-srt). */
module Handshake {
  import opened Circular
  import opened Packets
  import opened Wire
  import opened Wrappers

  // ---------- the records ----------

  datatype Flags = Flags(
    tsbpdSnd: bool, tsbpdRcv: bool, crypt: bool, tlpktDrop: bool,
    periodicNak: bool, rexmitFlg: bool, stream: bool, packetFilter: bool)

  datatype HsExt = HsExt(version: nat, flags: Flags, recvDelay: nat, sendDelay: nat)

  datatype KmExt = KmExt(
    error: nat, s: nat, version: nat, packetType: nat, sign: nat, resv1: nat, key: nat, keki: nat,
    cipher: nat, authentication: nat, encapsulation: nat, resv2: nat, resv3: nat,
    sLen: nat, kLen: nat, salt: seq<Byte>, wrap: seq<Byte>)

  datatype Handshake = Handshake(
    isRequest: bool, version: nat, encryption: nat, extension: nat, initial: Number, mtu: nat, flow: nat,
    kind: nat, socketId: nat, cookie: nat, peerIP: seq<Byte>,
    hs: Option<HsExt>, km: Option<KmExt>, hasSID: bool, streamId: seq<Byte>, hasCC: bool, congestion: seq<Byte>)

  // ---------- the handshake extension ----------

  // Four flags packed into a nibble, the first one lowest.
  function Nibble(a: bool, b: bool, c: bool, d: bool): (n: nat)
    ensures n < 16
  {
    Bit(a) + Bit(b) * 2 + Bit(c) * 4 + Bit(d) * 8
  }

  function FlagBits(f: Flags): (n: nat)
    ensures n < 0x100
  {
    Nibble(f.tsbpdSnd, f.tsbpdRcv, f.crypt, f.tlpktDrop)
    + 16 * Nibble(f.periodicNak, f.rexmitFlg, f.stream, f.packetFilter)
  }

  function ReadFlags(n: nat): Flags {
    Flags((n / 1) % 2 == 1, (n / 2) % 2 == 1, (n / 4) % 2 == 1, (n / 8) % 2 == 1,
          (n / 16) % 2 == 1, (n / 32) % 2 == 1, (n / 64) % 2 == 1, (n / 128) % 2 == 1)
  }

  ghost predicate Holds(n: nat, a: bool, b: bool, c: bool, d: bool) {
    && n < 16
    && ((n / 1) % 2 == 1 <==> a) && ((n / 2) % 2 == 1 <==> b)
    && ((n / 4) % 2 == 1 <==> c) && ((n / 8) % 2 == 1 <==> d)
  }

  lemma NibbleHolds(a: bool, b: bool, c: bool, d: bool)
    ensures Holds(Nibble(a, b, c, d), a, b, c, d)
  {
  }

  lemma LowNibble(lo: nat, hi: nat)
    requires lo < 16 && hi < 16
    ensures var n := lo + 16 * hi;
            && (n / 1) % 2 == (lo / 1) % 2 && (n / 2) % 2 == (lo / 2) % 2
            && (n / 4) % 2 == (lo / 4) % 2 && (n / 8) % 2 == (lo / 8) % 2
  {
    var n := lo + 16 * hi;
    EvenShift(n / 1, lo / 1, 8 * hi);
    assert n / 2 == lo / 2 + 8 * hi;
    EvenShift(n / 2, lo / 2, 4 * hi);
    assert n / 4 == lo / 4 + 4 * hi;
    EvenShift(n / 4, lo / 4, 2 * hi);
    assert n / 8 == lo / 8 + 2 * hi;
    EvenShift(n / 8, lo / 8, hi);
  }

  lemma EvenShift(n: nat, lo: nat, k: nat)
    requires n == lo + 2 * k
    ensures n % 2 == lo % 2
  {
  }

  lemma HighNibble(lo: nat, hi: nat)
    requires lo < 16 && hi < 16
    ensures var n := lo + 16 * hi;
            n / 16 == hi / 1 && n / 32 == hi / 2 && n / 64 == hi / 4 && n / 128 == hi / 8
  {
  }

  lemma NibblesRead(lo: nat, hi: nat, f: Flags)
    requires Holds(lo, f.tsbpdSnd, f.tsbpdRcv, f.crypt, f.tlpktDrop)
    requires Holds(hi, f.periodicNak, f.rexmitFlg, f.stream, f.packetFilter)
    ensures ReadFlags(lo + 16 * hi) == f
  {
    LowNibble(lo, hi);
    HighNibble(lo, hi);
  }

  lemma FlagsRead(f: Flags)
    ensures ReadFlags(FlagBits(f)) == f
  {
    NibbleHolds(f.tsbpdSnd, f.tsbpdRcv, f.crypt, f.tlpktDrop);
    NibbleHolds(f.periodicNak, f.rexmitFlg, f.stream, f.packetFilter);
    NibblesRead(Nibble(f.tsbpdSnd, f.tsbpdRcv, f.crypt, f.tlpktDrop),
                Nibble(f.periodicNak, f.rexmitFlg, f.stream, f.packetFilter), f);
  }

  ghost predicate ValidHS(e: HsExt) {
    e.version < 0x1_0000_0000 && e.recvDelay < 0x1_0000 && e.sendDelay < 0x1_0000
  }

  function MarshalHS(e: HsExt): (w: seq<Byte>)
    requires ValidHS(e)
    ensures |w| == 12
  {
    Put32(e.version) + Put32(FlagBits(e.flags)) + Put16(e.recvDelay) + Put16(e.sendDelay)
  }

  function UnmarshalHS(data: seq<Byte>): Result<HsExt> {
    if |data| < 12 then Error
    else Ok(HsExt(Get32(data, 0), ReadFlags(Get32(data, 4)), Get16(data, 8), Get16(data, 10)))
  }

  lemma HSRoundTrip(e: HsExt, rest: seq<Byte>)
    requires ValidHS(e)
    ensures UnmarshalHS(MarshalHS(e) + rest) == Ok(e)
  {
    var a, b, c, d := Put32(e.version), Put32(FlagBits(e.flags)), Put16(e.recvDelay), Put16(e.sendDelay);
    var w := MarshalHS(e) + rest;
    assert w == [] + a + (b + c + d + rest);
    Get32At([], e.version, b + c + d + rest);
    assert w == a + b + (c + d + rest);
    Get32At(a, FlagBits(e.flags), c + d + rest);
    assert w == (a + b) + c + (d + rest);
    Get16At(a + b, e.recvDelay, d + rest);
    assert w == (a + b + c) + d + rest;
    Get16At(a + b + c, e.sendDelay, rest);
    FlagsRead(e.flags);
  }

  // ---------- the key material extension ----------

  function WrapLength(key: nat, kLen: nat): nat {
    (if key == 3 then 2 * kLen else kLen) + 8
  }

  // The widths of the Go fields.
  ghost predicate TypedKM(k: KmExt) {
    && k.s < 256 && k.version < 256 && k.packetType < 256 && k.resv1 < 256
    && k.cipher < 256 && k.authentication < 256 && k.encapsulation < 256 && k.resv2 < 256
    && k.sign < 0x1_0000 && k.resv3 < 0x1_0000 && k.keki < 0x1_0000_0000
    && k.sLen < 0x1_0000 && k.kLen < 0x1_0000
  }

  // The values that MarshalKM of the crypto package sets and the standard asks for.
  ghost predicate ValidKM(k: KmExt) {
    && TypedKM(k)
    && k.error == 0 && k.s == 0 && k.version == 1 && k.packetType == 2 && k.sign == 0x2029
    && k.keki == 0 && k.encapsulation == 2
    && k.resv1 < 64 && 1 <= k.key <= 3
    && (k.kLen == 16 || k.kLen == 24 || k.kLen == 32)
    && (k.sLen == 0 || k.sLen == 16) && |k.salt| == k.sLen
    && |k.wrap| == WrapLength(k.key, k.kLen)
  }

  function KMHead(k: KmExt): (w: seq<Byte>)
    requires TypedKM(k)
    ensures |w| == 16
  {
    [(k.s % 2) * 128 + (k.version % 8) * 16 + k.packetType % 16] + Put16(k.sign)
    + [(k.resv1 % 64) * 4 + k.key % 4] + Put32(k.keki)
    + [k.cipher, k.authentication, k.encapsulation, k.resv2] + Put16(k.resv3)
    + [(k.sLen / 4) % 256, (k.kLen / 4) % 256]
  }

  function MarshalKM(k: KmExt): (w: seq<Byte>)
    requires TypedKM(k)
  {
    KMHead(k) + (if k.sLen != 0 then k.salt else []) + k.wrap
  }

  function UnmarshalKM(data: seq<Byte>): Result<KmExt> {
    if |data| == 4 then
      // An error response, little endian.
      var error := (data[3] as int) * 0x100_0000 + (data[2] as int) * 0x1_0000 + (data[1] as int) * 0x100 + data[0];
      if error != 3 && error != 4 then Error
      else Ok(KmExt(error, 0, 0, 0, 0, 0, 0, 0, 0, 0, 0, 0, 0, 0, 0, [], []))
    else if |data| < 16 then Error
    else
      var s, version, packetType: int := data[0] / 128, (data[0] / 16) % 8, data[0] % 16;
      var sign, resv1, key: int := Get16(data, 1), data[3] / 4, data[3] % 4;
      if s != 0 || version != 1 || packetType != 2 || sign != 0x2029 || key == 0 then Error
      else if Get32(data, 4) != 0 || data[10] != 2 then Error
      else
        var sLen, kLen: int := (data[14] as int) * 4, (data[15] as int) * 4;
        if kLen != 16 && kLen != 24 && kLen != 32 then Error
        else if sLen != 0 && sLen != 16 then Error
        else if |data| < 16 + sLen + WrapLength(key, kLen) then Error
        else
          var at := 16 + sLen;
          Ok(KmExt(0, s, version, packetType, sign, resv1, key, 0, data[8], data[9], data[10], data[11],
                   Get16(data, 12), sLen, kLen, data[16..at], data[at..at + WrapLength(key, kLen)]))
  }

  lemma KMHeadRead(k: KmExt, rest: seq<Byte>)
    requires ValidKM(k)
    ensures var w := KMHead(k) + rest;
            && w[0] == 0x12 && Get16(w, 1) == 0x2029 && w[3] == k.resv1 * 4 + k.key
            && Get32(w, 4) == 0 && w[8] == k.cipher && w[9] == k.authentication && w[10] == 2 && w[11] == k.resv2
            && Get16(w, 12) == k.resv3 && w[14] == k.sLen / 4 && w[15] == k.kLen / 4
  {
    var h := KMHead(k);
    var w := h + rest;
    assert forall i :: 0 <= i < 16 ==> w[i] == h[i];
    Put16Get16(k.resv3);
    assert h[1] == Put16(k.sign)[0] && h[2] == Put16(k.sign)[1];
    assert h[12] == Put16(k.resv3)[0] && h[13] == Put16(k.resv3)[1];
  }

  lemma KMRoundTrip(k: KmExt, rest: seq<Byte>)
    requires ValidKM(k)
    ensures UnmarshalKM(MarshalKM(k) + rest) == Ok(k)
  {
    var w := MarshalKM(k) + rest;
    KMHeadRead(k, k.salt + k.wrap + rest);
    KMTailRead(k, rest);
    DivModUnique(k.resv1 * 4 + k.key, 4, k.resv1, k.key);
  }

  lemma KMTailRead(k: KmExt, rest: seq<Byte>)
    requires ValidKM(k)
    ensures var w, at := MarshalKM(k) + rest, 16 + k.sLen;
            && w == KMHead(k) + (k.salt + k.wrap + rest)
            && |w| >= at + |k.wrap| && w[16..at] == k.salt && w[at..at + |k.wrap|] == k.wrap
  {
    var w, at := MarshalKM(k) + rest, 16 + k.sLen;
    assert w == KMHead(k) + (k.salt + k.wrap + rest);
    assert w == (KMHead(k) + k.salt) + k.wrap + rest;
  }

  /** What is accepted is a valid record, written at the start of the input. */
  lemma KMParsePrint(data: seq<Byte>)
    requires |data| != 4 && UnmarshalKM(data).Ok?
    ensures ValidKM(UnmarshalKM(data).value) && MarshalKM(UnmarshalKM(data).value) <= data
  {
    var k := UnmarshalKM(data).value;
    var at := 16 + k.sLen;
    assert data[at..at + |k.wrap|] == k.wrap && data[16..at] == k.salt;
    KMHeadBytes(k, data);
    assert data[..at + |k.wrap|] == data[..16] + k.salt + k.wrap;
  }

  lemma KMHeadBytes(k: KmExt, data: seq<Byte>)
    requires |data| > 4 && UnmarshalKM(data) == Ok(k)
    ensures TypedKM(k) && KMHead(k) == data[..16]
  {
    Get16Put16(data, 1);
    Get16Put16(data, 12);
    Get32Put32(data, 4);
    ByteSplit(data[0], 16);
    ByteSplit(data[3], 4);
    var h, d := KMHead(k), data[..16];
    assert h[0] == d[0] && h[3] == d[3] && h[14] == d[14] && h[15] == d[15];
    assert h[1] == Put16(k.sign)[0] == data[1..3][0] && h[2] == Put16(k.sign)[1] == data[1..3][1];
    assert h[12] == Put16(k.resv3)[0] == data[12..14][0] && h[13] == Put16(k.resv3)[1] == data[12..14][1];
    assert h[4..8] == Put32(0) && h[4..8] == d[4..8];
    assert h[4] == d[4] && h[5] == d[5] && h[6] == d[6] && h[7] == d[7];
  }

  lemma ByteSplit(b: int, m: nat)
    requires 0 <= b < 256 && m > 0
    ensures b == (b / m) * m + b % m
  {
  }

  /** Key material is accepted exactly if it begins with a valid record. */
  lemma KMAcceptsExactly(data: seq<Byte>)
    requires |data| != 4
    ensures UnmarshalKM(data).Ok? <==> exists k :: ValidKM(k) && MarshalKM(k) <= data
  {
    if UnmarshalKM(data).Ok? {
      KMParsePrint(data);
    }
    if k :| ValidKM(k) && MarshalKM(k) <= data {
      KMRoundTrip(k, data[|MarshalKM(k)|..]);
      assert data == MarshalKM(k) + data[|MarshalKM(k)|..];
    }
  }

  // ---------- names: padded to whole words, each word reversed ----------

  // A whole number of words.
  ghost predicate Whole(b: seq<Byte>, k: nat) {
    |b| == 4 * k
  }

  function Missing(n: nat): nat {
    if n % 4 == 0 then 0 else 4 - n % 4
  }

  function Zeros(n: nat): (z: seq<Byte>)
    ensures |z| == n
  {
    if n == 0 then [] else Zeros(n - 1) + [0]
  }

  function Pad(b: seq<Byte>): seq<Byte> {
    b + Zeros(Missing(|b|))
  }

  lemma PadWhole(b: seq<Byte>)
    ensures Whole(Pad(b), (|b| + 3) / 4)
  {
  }

  function Swap(b: seq<Byte>): seq<Byte> {
    if |b| < 4 then [] else [b[3], b[2], b[1], b[0]] + Swap(b[4..])
  }

  method SwapWords(b: seq<Byte>, ghost k: nat) returns (r: seq<Byte>)
    requires Whole(b, k)
    ensures r == Swap(b)
  {
    r := [];
    var i := 0;
    ghost var left := k;
    while i < |b|
      invariant |b| - i == 4 * left && left >= 0 && i >= 0
      invariant Swap(b) == r + Swap(b[i..])
    {
      assert b[i..][4..] == b[i + 4..];
      var word := [b[i + 3], b[i + 2], b[i + 1], b[i]];
      assert r + (word + Swap(b[i + 4..])) == r + word + Swap(b[i + 4..]);
      r := r + word;
      i, left := i + 4, left - 1;
    }
    assert r + [] == r;
  }

  lemma {:induction false} SwapTwice(b: seq<Byte>, k: nat)
    requires Whole(b, k)
    ensures Whole(Swap(b), k) && Swap(Swap(b)) == b
  {
    if k > 0 {
      SwapTwice(b[4..], k - 1);
      var s := Swap(b);
      assert s[4..] == Swap(b[4..]);
      assert b == [b[0], b[1], b[2], b[3]] + b[4..];
    }
  }

  // strings.TrimRight(b, "\x00")
  function Trim(b: seq<Byte>): seq<Byte> {
    if b != [] && b[|b| - 1] == 0 then Trim(b[..|b| - 1]) else b
  }

  ghost predicate NoTrailingZero(b: seq<Byte>) {
    b == [] || b[|b| - 1] != 0
  }

  lemma TrimLast(b: seq<Byte>)
    ensures Trim(b + [0]) == Trim(b)
  {
    assert (b + [0])[..|b|] == b;
  }

  lemma {:induction false} TrimZeros(b: seq<Byte>, n: nat)
    requires NoTrailingZero(b)
    ensures Trim(b + Zeros(n)) == b
  {
    if n > 0 {
      TrimZeros(b, n - 1);
      TrimLast(b + Zeros(n - 1));
      assert b + Zeros(n) == b + Zeros(n - 1) + [0];
    } else {
      assert b + Zeros(0) == b;
    }
  }

  // What is written for a name, and what is read.
  function Name(b: seq<Byte>): seq<Byte> {
    Swap(Pad(b))
  }

  lemma NameRoundTrip(b: seq<Byte>)
    requires NoTrailingZero(b)
    ensures Whole(Name(b), (|b| + 3) / 4) && Trim(Swap(Name(b))) == b
  {
    PadWhole(b);
    SwapTwice(Pad(b), (|b| + 3) / 4);
    TrimZeros(b, Missing(|b|));
  }

  // ---------- extensions ----------

  // type, length in words, contents
  function Tlv(kind: nat, body: seq<Byte>): seq<Byte>
    requires kind < 0x1_0000 && |body| / 4 < 0x1_0000
  {
    Put16(kind) + Put16(|body| / 4) + body
  }

  // What one extension, of the given length at the start of `body`, does to the record.
  function Apply(h: Handshake, kind: nat, length: nat, body: seq<Byte>): Result<Handshake>
    requires length <= |body|
  {
    if kind == 1 || kind == 2 then
      if length != 12 then Error
      else match UnmarshalHS(body) case Error => Error case Ok(e) => Ok(h.(hs := Some(e)))
    else if kind == 3 || kind == 4 then
      match UnmarshalKM(body)
      case Error => Error
      case Ok(k) =>
        var encryption := if h.encryption == 0 then 2 else h.encryption;
        if (encryption == 2 && k.kLen != 16) || (encryption == 3 && k.kLen != 24)
           || (encryption == 4 && k.kLen != 32)
        then Error
        else Ok(h.(km := Some(k), encryption := encryption))
    else if kind == 5 then
      if length > 512 then Error else Ok(h.(hasSID := true, streamId := Trim(Swap(body[..length]))))
    else if kind == 6 then
      if length > 4 then Error else Ok(h.(hasCC := true, congestion := Trim(Swap(body[..length]))))
    else Ok(h)
  }

  // The key length the encryption field of a handshake asks for.
  ghost predicate KeyFits(encryption: nat, kLen: nat) {
    match encryption
    case 0 => kLen == 16
    case 2 => kLen == 16
    case 3 => kLen == 24
    case 4 => kLen == 32
    case _ => true
  }

  /** An extension is refused exactly if it has the wrong size for its type or is key material that
      is not acceptable; types that are not known are skipped, whatever they hold. */
  lemma ExtensionRefusedExactly(h: Handshake, kind: nat, length: nat, body: seq<Byte>)
    requires length <= |body|
    ensures Apply(h, kind, length, body) == Error <==>
            match kind
            case 1 => length != 12
            case 2 => length != 12
            case 3 => UnmarshalKM(body) == Error || !KeyFits(h.encryption, UnmarshalKM(body).value.kLen)
            case 4 => UnmarshalKM(body) == Error || !KeyFits(h.encryption, UnmarshalKM(body).value.kLen)
            case 5 => length > 512
            case 6 => length > 4
            case _ => false
    ensures kind == 0 || kind > 6 ==> Apply(h, kind, length, body) == Ok(h)
  {
  }

  // Fewer than four bytes left count as an error here; see WholeWordsNeverRunOver.
  function Extensions(h: Handshake, pivot: seq<Byte>): Result<Handshake>
    decreases |pivot|
  {
    if |pivot| < 4 then Error
    else
      var kind, length, body := Get16(pivot, 0), Get16(pivot, 2) * 4, pivot[4..];
      if |body| < length then Error
      else
        match Apply(h, kind, length, body)
        case Error => Error
        case Ok(g) => if |body| > length then Extensions(g, body[length..]) else Ok(g)
  }

  method ReadExtensions(start: Handshake, data: seq<Byte>) returns (r: Result<Handshake>)
    ensures r == Extensions(start, data)
  {
    var h, pivot := start, data;
    while true
      invariant Extensions(start, data) == Extensions(h, pivot)
      decreases |pivot|
    {
      if |pivot| < 4 {
        return Error;
      }
      var kind, length := Get16(pivot, 0), Get16(pivot, 2) * 4;
      var body := pivot[4..];
      if |body| < length {
        return Error;
      }
      var g := Apply(h, kind, length, body);
      if g.Error? {
        return Error;
      }
      h := g.value;
      if |body| > length {
        pivot := body[length..];
      } else {
        return Ok(h);
      }
    }
  }

  // The code indexes past the end of its input.
  ghost predicate RunsOver(h: Handshake, pivot: seq<Byte>)
    decreases |pivot|
  {
    |pivot| < 4 ||
    var kind, length, body := Get16(pivot, 0), Get16(pivot, 2) * 4, pivot[4..];
    |body| > length && Apply(h, kind, length, body).Ok? && RunsOver(Apply(h, kind, length, body).value, body[length..])
  }

  /** That never happens to extensions of whole words, whatever they hold. */
  lemma {:induction false} WholeWordsNeverRunOver(h: Handshake, pivot: seq<Byte>, k: nat)
    requires Whole(pivot, k) && k > 0
    ensures !RunsOver(h, pivot)
    decreases k
  {
    var kind, words, body := Get16(pivot, 0), Get16(pivot, 2), pivot[4..];
    if |body| > words * 4 && Apply(h, kind, words * 4, body).Ok? {
      WholeWordsNeverRunOver(Apply(h, kind, words * 4, body).value, body[words * 4..], k - 1 - words);
    }
  }

  // Reading goes on while there is something left.
  function Finish(h: Handshake, rest: seq<Byte>): Result<Handshake> {
    if rest == [] then Ok(h) else Extensions(h, rest)
  }

  lemma TlvRead(h: Handshake, kind: nat, body: seq<Byte>, k: nat, rest: seq<Byte>)
    requires kind < 0x1_0000 && Whole(body, k) && k < 0x1_0000
    ensures |body| / 4 == k
    ensures Finish(h, Tlv(kind, body) + rest) ==
            match Apply(h, kind, 4 * k, body + rest) case Error => Error case Ok(g) => Finish(g, rest)
  {
    DivModUnique(|body|, 4, k, 0);
    var pivot := Tlv(kind, body) + rest;
    assert pivot == [] + Put16(kind) + (Put16(k) + body + rest);
    Get16At([], kind, Put16(k) + body + rest);
    assert pivot == Put16(kind) + Put16(k) + (body + rest);
    Get16At(Put16(kind), k, body + rest);
    assert pivot[4..] == body + rest;
    assert (body + rest)[4 * k..] == rest;
  }

  // ---------- the whole handshake ----------

  const CONCLUSION: nat := 0xFFFF_FFFF
  const INDUCTION: nat := 1

  // What Marshal sets before it writes: the two fields that follow from the extensions.
  function Normalized(c: Handshake): Handshake {
    var c := c.(hasSID := c.hasSID && c.streamId != []);
    if c.version == 5 then
      var e := if c.kind == CONCLUSION then 0 else c.extension;
      c.(encryption := if c.km.Some? then c.km.value.kLen / 8 else c.encryption,
         extension := WithBit(WithBit(WithBit(e, 1, c.hs.Some?), 2, c.km.Some?), 4, c.hasSID || c.hasCC))
    else c.(encryption := 0, extension := 2)
  }

  // e | bit if on
  function WithBit(e: nat, bit: nat, on: bool): nat
    requires bit > 0
  {
    if on && (e / bit) % 2 == 0 then e + bit else e
  }

  // The widths of the Go fields, and names and extensions that can be written.
  ghost predicate Typed(c: Handshake) {
    && c.version < 0x1_0000_0000 && c.encryption < 0x1_0000 && c.extension < 0x1_0000
    && c.initial.value < 0x1_0000_0000 && c.mtu < 0x1_0000_0000 && c.flow < 0x1_0000_0000
    && c.kind < 0x1_0000_0000 && c.socketId < 0x1_0000_0000 && c.cookie < 0x1_0000_0000 && |c.peerIP| == 16
    && (c.hs.Some? ==> ValidHS(c.hs.value))
    && (c.km.Some? ==> ValidKM(c.km.value))
    && |Name(c.streamId)| / 4 < 0x1_0000 && |Name(c.congestion)| / 4 < 0x1_0000
  }

  function Front(c: Handshake): (w: seq<Byte>)
    requires Typed(c)
    ensures |w| == 48
  {
    Put32(c.version) + Put16(c.encryption) + Put16(c.extension) + Put32(c.initial.value)
    + Put32(c.mtu) + Put32(c.flow) + Put32(c.kind) + Put32(c.socketId) + Put32(c.cookie) + c.peerIP
  }

  function HsTlv(c: Handshake): seq<Byte>
    requires Typed(c)
  {
    if c.hs.Some? then Tlv(if c.isRequest then 1 else 2, MarshalHS(c.hs.value)) else []
  }

  lemma KMWhole(k: KmExt)
    requires ValidKM(k)
    ensures Whole(MarshalKM(k), 4 + k.sLen / 4 + WrapLength(k.key, k.kLen) / 4)
    ensures 4 + k.sLen / 4 + WrapLength(k.key, k.kLen) / 4 < 30
  {
  }

  function KmTlv(c: Handshake): seq<Byte>
    requires Typed(c)
  {
    if c.km.Some? then
      KMWhole(c.km.value);
      Tlv(if c.isRequest then 3 else 4, MarshalKM(c.km.value))
    else []
  }

  function SidTlv(c: Handshake): seq<Byte>
    requires Typed(c)
  {
    if c.hasSID then Tlv(5, Name(c.streamId)) else []
  }

  // "live" is never written.
  function CcTlv(c: Handshake): seq<Byte>
    requires Typed(c)
  {
    if c.hasCC && c.congestion != LIVE then Tlv(6, Name(c.congestion)) else []
  }

  const LIVE: seq<Byte> := [108, 105, 118, 101]

  function Marshal(c: Handshake): seq<Byte>
    requires Typed(Normalized(c))
  {
    var n := Normalized(c);
    Front(n) + (HsTlv(n) + (KmTlv(n) + (SidTlv(n) + CcTlv(n))))
  }

  // The record of the first 48 bytes.
  function Fixed(data: seq<Byte>): Handshake
    requires |data| >= 48
  {
    Handshake(false, Get32(data, 0), Get16(data, 4), Get16(data, 6), New(Get32(data, 8) % 0x8000_0000, 0x7FFF_FFFF),
              Get32(data, 12), Get32(data, 16), Get32(data, 20), Get32(data, 24), Get32(data, 28), data[32..48],
              None, None, false, [], false, [])
  }

  function Unmarshal(data: seq<Byte>): Result<Handshake> {
    if |data| < 48 then Error
    else
      var h := Fixed(data);
      if h.kind == INDUCTION || h.kind != CONCLUSION || h.extension == 0 || |data| <= 48 then Ok(h)
      else if h.encryption != 0 && h.encryption != 2 && h.encryption != 3 && h.encryption != 4 then Error
      else Extensions(h, data[48..])
  }

  // ---------- round trip ----------

  /** A version 5 CONCLUSION as the two sides exchange it. */
  ghost predicate Conclusion(c: Handshake) {
    && Typed(c) && c.version == 5 && c.kind == CONCLUSION
    && c.initial == Number(0x7FFF_FFFF, 0x3FFF_FFFF, c.initial.value) && c.initial.value <= 0x7FFF_FFFF
    && (c.km.None? ==> c.encryption == 0 || 2 <= c.encryption <= 4)
    && |c.streamId| <= 512 && NoTrailingZero(c.streamId) && (!c.hasSID ==> c.streamId == [])
    && NoTrailingZero(c.congestion) && (if c.hasCC then 1 <= |c.congestion| <= 4 else c.congestion == [])
  }

  // The first, second and third twelve-byte stretch of the fixed part.
  lemma FrontStart(c: Handshake, rest: seq<Byte>)
    requires Typed(c)
    ensures var w := Put32(c.version) + Put16(c.encryption) + Put16(c.extension) + Put32(c.initial.value) + rest;
            Get32(w, 0) == c.version && Get16(w, 4) == c.encryption && Get16(w, 6) == c.extension
                && Get32(w, 8) == c.initial.value
  {
    var e := Put32(c.initial.value);
    var head := Put32(c.version) + Put16(c.encryption) + Put16(c.extension);
    assert head + e + rest == head + (e + rest);
    FrontHead(c.version, c.encryption, c.extension, e + rest);
    Get32At(head, c.initial.value, rest);
  }

  lemma FrontHead(version: nat, encryption: nat, extension: nat, rest: seq<Byte>)
    requires version < 0x1_0000_0000 && encryption < 0x1_0000 && extension < 0x1_0000
    ensures var w := Put32(version) + Put16(encryption) + Put16(extension) + rest;
            Get32(w, 0) == version && Get16(w, 4) == encryption && Get16(w, 6) == extension
  {
    var a, b, d := Put32(version), Put16(encryption), Put16(extension);
    var w := a + b + d + rest;
    assert w == [] + a + (b + d + rest);
    Get32At([], version, b + d + rest);
    assert w == a + b + (d + rest);
    Get16At(a, encryption, d + rest);
    Get16At(a + b, extension, rest);
  }

  lemma ThreeWords(p: seq<Byte>, x: nat, y: nat, z: nat, rest: seq<Byte>)
    requires x < 0x1_0000_0000 && y < 0x1_0000_0000 && z < 0x1_0000_0000
    ensures var w := p + Put32(x) + Put32(y) + Put32(z) + rest;
            Get32(w, |p|) == x && Get32(w, |p| + 4) == y && Get32(w, |p| + 8) == z
  {
    var a, b, d := Put32(x), Put32(y), Put32(z);
    var w := p + a + b + d + rest;
    assert w == p + a + (b + d + rest) && w == (p + a) + b + (d + rest) && w == (p + a + b) + d + rest;
    Get32At(p, x, b + d + rest);
    Get32At(p + a, y, d + rest);
    Get32At(p + a + b, z, rest);
  }

  lemma FrontEnd(p: seq<Byte>, x: nat, y: nat, ip: seq<Byte>, rest: seq<Byte>)
    requires |p| == 24 && x < 0x1_0000_0000 && y < 0x1_0000_0000 && |ip| == 16
    ensures var w := p + Put32(x) + Put32(y) + ip + rest;
            Get32(w, 24) == x && Get32(w, 28) == y && w[32..48] == ip && w[48..] == rest
  {
    var w := p + Put32(x) + Put32(y) + ip + rest;
    assert w == p + Put32(x) + (Put32(y) + ip + rest);
    Get32At(p, x, Put32(y) + ip + rest);
    assert w == (p + Put32(x)) + Put32(y) + (ip + rest);
    Get32At(p + Put32(x), y, ip + rest);
  }

  lemma FrontRead(c: Handshake, rest: seq<Byte>)
    requires Typed(c) && c.initial == Number(0x7FFF_FFFF, 0x3FFF_FFFF, c.initial.value)
             && c.initial.value <= 0x7FFF_FFFF
    ensures var w := Front(c) + rest;
            && w[48..] == rest
            && Fixed(w) == c.(isRequest := false, hs := None, km := None, hasSID := false, streamId := [],
                              hasCC := false, congestion := [])
  {
    var w := Front(c) + rest;
    var p12 := Put32(c.version) + Put16(c.encryption) + Put16(c.extension) + Put32(c.initial.value);
    var p24 := p12 + Put32(c.mtu) + Put32(c.flow) + Put32(c.kind);
    var r24 := Put32(c.socketId) + Put32(c.cookie) + c.peerIP + rest;
    assert w == p12 + (Put32(c.mtu) + Put32(c.flow) + Put32(c.kind) + r24);
    FrontStart(c, Put32(c.mtu) + Put32(c.flow) + Put32(c.kind) + r24);
    assert w == p12 + Put32(c.mtu) + Put32(c.flow) + Put32(c.kind) + r24;
    ThreeWords(p12, c.mtu, c.flow, c.kind, r24);
    assert w == p24 + Put32(c.socketId) + Put32(c.cookie) + c.peerIP + rest;
    FrontEnd(p24, c.socketId, c.cookie, c.peerIP, rest);
    ModSmall(c.initial.value);
  }

  lemma ModSmall(v: nat)
    requires v <= 0x7FFF_FFFF
    ensures New(v % 0x8000_0000, 0x7FFF_FFFF) == Number(0x7FFF_FFFF, 0x3FFF_FFFF, v)
  {
  }

  lemma HsRead(h: Handshake, c: Handshake, rest: seq<Byte>)
    requires Typed(c) && h.hs == None
    ensures Finish(h, HsTlv(c) + rest) == Finish(h.(hs := c.hs), rest)
  {
    if c.hs.Some? {
      HSRoundTrip(c.hs.value, rest);
      TlvRead(h, if c.isRequest then 1 else 2, MarshalHS(c.hs.value), 3, rest);
    } else {
      assert HsTlv(c) + rest == rest;
    }
  }

  lemma KmRead(h: Handshake, c: Handshake, rest: seq<Byte>)
    requires Typed(c) && h.km == None && (c.km.Some? ==> h.encryption == c.km.value.kLen / 8)
    ensures Finish(h, KmTlv(c) + rest) == Finish(h.(km := c.km), rest)
  {
    if c.km.Some? {
      var k := c.km.value;
      KMWhole(k);
      KMRoundTrip(k, rest);
      TlvRead(h, if c.isRequest then 3 else 4, MarshalKM(k), 4 + k.sLen / 4 + WrapLength(k.key, k.kLen) / 4, rest);
    } else {
      assert KmTlv(c) + rest == rest;
    }
  }

  lemma SidRead(h: Handshake, c: Handshake, rest: seq<Byte>)
    requires Typed(c) && !h.hasSID && h.streamId == []
    requires |c.streamId| <= 512 && NoTrailingZero(c.streamId) && (!c.hasSID ==> c.streamId == [])
    ensures Finish(h, SidTlv(c) + rest) == Finish(h.(hasSID := c.hasSID, streamId := c.streamId), rest)
  {
    if c.hasSID {
      var name, k := Name(c.streamId), (|c.streamId| + 3) / 4;
      NameRoundTrip(c.streamId);
      TlvRead(h, 5, name, k, rest);
      assert k <= 128 && (name + rest)[..4 * k] == name;
      assert Apply(h, 5, 4 * k, name + rest) == Ok(h.(hasSID := true, streamId := c.streamId));
    } else {
      assert SidTlv(c) + rest == rest;
    }
  }

  // "live" is the default and not written.
  function Visible(c: Handshake): Handshake {
    if c.congestion == LIVE then c.(hasCC := false, congestion := []) else c
  }

  lemma CcRead(h: Handshake, c: Handshake, rest: seq<Byte>)
    requires Typed(c) && !h.hasCC && h.congestion == []
    requires NoTrailingZero(c.congestion) && (if c.hasCC then 1 <= |c.congestion| <= 4 else c.congestion == [])
    ensures Finish(h, CcTlv(c) + rest) == Finish(h.(hasCC := Visible(c).hasCC,
            congestion := Visible(c).congestion), rest)
  {
    if c.hasCC && c.congestion != LIVE {
      var k := (|c.congestion| + 3) / 4;
      NameRoundTrip(c.congestion);
      TlvRead(h, 6, Name(c.congestion), k, rest);
      assert (Name(c.congestion) + rest)[..4 * k] == Name(c.congestion);
    } else {
      assert CcTlv(c) + rest == rest;
    }
  }

  lemma NormalizedConclusion(c: Handshake)
    requires Conclusion(c)
    ensures Conclusion(Normalized(c))
    ensures var n := Normalized(c);
            && n.extension == Bit(n.hs.Some?) + Bit(n.km.Some?) * 2 + Bit(n.hasSID || n.hasCC) * 4
            && (n.encryption == 0 || 2 <= n.encryption <= 4)
            && (n.km.Some? ==> n.encryption == n.km.value.kLen / 8)
  {
  }

  lemma ExtensionsRead(h: Handshake, c: Handshake)
    requires Conclusion(c) && (c.km.Some? ==> c.encryption == c.km.value.kLen / 8)
    requires h == c.(isRequest := false, hs := None, km := None, hasSID := false, streamId := [], hasCC := false,
             congestion := [])
    ensures Finish(h, HsTlv(c) + (KmTlv(c) + (SidTlv(c) + CcTlv(c)))) == Ok(Visible(c).(isRequest := false))
  {
    HsRead(h, c, KmTlv(c) + (SidTlv(c) + CcTlv(c)));
    var h1 := h.(hs := c.hs);
    KmRead(h1, c, SidTlv(c) + CcTlv(c));
    var h2 := h1.(km := c.km);
    SidRead(h2, c, CcTlv(c));
    var h3 := h2.(hasSID := c.hasSID, streamId := c.streamId);
    assert CcTlv(c) + [] == CcTlv(c);
    CcRead(h3, c, []);
  }

  /** Every such handshake arrives as it was sent, through padding, byte reversal and the
      type-length-value framing, with all extension bytes consumed; what is lost is the request
      flag and a congestion controller named "live", which are not written. */
  lemma ConclusionRoundTrip(c: Handshake)
    requires Conclusion(c)
    ensures Typed(Normalized(c)) && Unmarshal(Marshal(c)) == Ok(Visible(Normalized(c)).(isRequest := false))
  {
    NormalizedConclusion(c);
    var n := Normalized(c);
    var rest := HsTlv(n) + (KmTlv(n) + (SidTlv(n) + CcTlv(n)));
    FrontRead(n, rest);
    ExtensionsRead(Fixed(Front(n) + rest), n);
    RestIsAnnounced(n);
  }

  lemma RestIsAnnounced(c: Handshake)
    requires Conclusion(c)
    requires c.extension == Bit(c.hs.Some?) + Bit(c.km.Some?) * 2 + Bit(c.hasSID || c.hasCC) * 4
    ensures HsTlv(c) + (KmTlv(c) + (SidTlv(c) + CcTlv(c))) != [] ==> c.extension != 0
  {
  }

  /** Hence a record comes back unchanged exactly if it was normalized, no request, and did not
      name "live". */
  lemma UnchangedExactly(c: Handshake)
    requires Conclusion(c)
    ensures Typed(Normalized(c))
    ensures Unmarshal(Marshal(c)) == Ok(c) <==> c == Normalized(c) && !c.isRequest && c.congestion != LIVE
  {
    ConclusionRoundTrip(c);
    var n := Normalized(c);
    assert c.congestion == LIVE ==> Visible(n).congestion == [];
  }
}
