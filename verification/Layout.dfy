/** Where each field stands on the wire, byte by byte (sections 3 and 3.2 and appendix A of
    draft-sharabayko-srt). Writing and reading undo each other under any layout both agree on;
    this is the one of the standard. */
module Layout {
  import opened Circular
  import opened Packets
  import opened Wrappers
  import Wire
  import H = Header
  import HS = Handshake
  import L = LossList

  // The big-endian numbers at position i, most significant byte first.
  ghost function Half(w: seq<Byte>, i: nat): int
    requires i + 2 <= |w|
  {
    (w[i] as int) * 256 + w[i + 1]
  }

  ghost function Word(w: seq<Byte>, i: nat): int
    requires i + 4 <= |w|
  {
    (w[i] as int) * 0x100_0000 + (w[i + 1] as int) * 0x1_0000 + (w[i + 2] as int) * 0x100 + w[i + 3]
  }

  lemma PutHalf(n: nat)
    requires n < 0x1_0000
    ensures Half(Wire.Put16(n), 0) == n
  {
  }

  lemma PutWord(n: nat)
    requires n < 0x1_0000_0000
    ensures Word(Wire.Put32(n), 0) == n
  {
    Wire.Put32Get32(n);
  }

  lemma HalfAt(a: seq<Byte>, n: nat, b: seq<Byte>)
    requires n < 0x1_0000
    ensures Half(a + Wire.Put16(n) + b, |a|) == n
  {
    PutHalf(n);
    var w, p := a + Wire.Put16(n) + b, Wire.Put16(n);
    assert w[|a|] == p[0] && w[|a| + 1] == p[1];
  }

  lemma WordAt(a: seq<Byte>, n: nat, b: seq<Byte>)
    requires n < 0x1_0000_0000
    ensures Word(a + Wire.Put32(n) + b, |a|) == n
  {
    PutWord(n);
    var w, p := a + Wire.Put32(n) + b, Wire.Put32(n);
    assert w[|a|] == p[0] && w[|a| + 1] == p[1] && w[|a| + 2] == p[2] && w[|a| + 3] == p[3];
  }

  // ---------- the header ----------

  /** Timestamp and destination are the third and fourth word, the payload follows. */
  lemma HeaderTail(d: H.Datagram)
    requires H.Typed(d.header)
    ensures var w := H.Marshal(d);
            && |w| == 16 + |d.payload| && w[..8] == H.Front(d.header) && w[16..] == d.payload
            && Word(w, 8) == d.header.timestamp && Word(w, 12) == d.header.destination
  {
    var f, t, x := H.Front(d.header), Wire.Put32(d.header.timestamp), Wire.Put32(d.header.destination);
    var w := H.Marshal(d);
    assert w == f + t + (x + d.payload);
    WordAt(f, d.header.timestamp, x + d.payload);
    assert w == (f + t) + x + d.payload;
    WordAt(f + t, d.header.destination, d.payload);
  }

  /** A control packet: top bit set, 15 bits of type, 16 of subtype, a word of its own. */
  lemma ControlLayout(h: H.Header)
    requires H.Typed(h) && h.Control?
    ensures var w := H.Front(h);
            && w[0] >= 0x80 && Half(w, 0) % 0x8000 == h.controlType % 0x8000
            && Half(w, 2) == h.subType && Word(w, 4) == h.typeSpecific
  {
    var t := if h.controlType < 0x8000 then h.controlType + 0x8000 else h.controlType;
    var a, b, c := Wire.Put16(t), Wire.Put16(h.subType), Wire.Put32(h.typeSpecific);
    var w := H.Front(h);
    assert w == [] + a + (b + c);
    HalfAt([], t, b + c);
    assert w == a + b + c;
    HalfAt(a, h.subType, c);
    assert w == (a + b) + c + [];
    WordAt(a + b, h.typeSpecific, []);
  }

  /** A data packet: the sequence number; two bits of position, one of order, two of encryption, one
      for a retransmission, 26 of message number. */
  lemma DataLayout(h: H.Header)
    requires H.Typed(h) && h.Data?
    ensures var w := H.Front(h);
            var order, again := if h.order then 1 else 0, if h.retransmitted then 1 else 0;
            && Word(w, 0) == h.seqno.value
            && Word(w, 4) == (h.position % 4) * 0x4000_0000 + order * 0x2000_0000 + (h.encryption % 4) * 0x800_0000
                             + again * 0x400_0000 + h.message % 0x400_0000
  {
    var w := H.Front(h);
    var flags := (h.position % 4) * 64 + Wire.Bit(h.order) * 32 + (h.encryption % 4) * 8 + Wire.Bit(h.retransmitted) * 4;
    var field := flags * 0x100_0000 + h.message % 0x400_0000;
    assert w == [] + Wire.Put32(h.seqno.value) + Wire.Put32(field);
    WordAt([], h.seqno.value, Wire.Put32(field));
    assert w == Wire.Put32(h.seqno.value) + Wire.Put32(field) + [];
    WordAt(Wire.Put32(h.seqno.value), field, []);
  }

  // ---------- loss lists ----------

  /** A single number is a word; a range is its start with the top bit set, and its end. */
  lemma RangeLayout(a: Number, b: Number)
    requires L.SequenceNumber(a) && L.SequenceNumber(b)
    ensures var w := L.Pair(a, b);
            if a == b then |w| == 4 && Word(w, 0) == a.value
            else |w| == 8 && Word(w, 0) == a.value + 0x8000_0000 && Word(w, 4) == b.value
  {
    if a == b {
      PutWord(a.value);
    } else {
      var x, y := Wire.Put32(a.value + 0x8000_0000), Wire.Put32(b.value);
      assert x + y == [] + x + y && x + y == x + y + [];
      WordAt([], a.value + 0x8000_0000, y);
      WordAt(x, b.value, []);
    }
  }

  /** A loss list begins with its first range and goes on with the rest. */
  lemma LossListLayout(a: Number, b: Number, ns: seq<Number>, written: nat)
    requires L.SequenceNumber(a) && L.SequenceNumber(b) && L.SequenceNumbers(ns) && written < 1452
    ensures L.SequenceNumbers([a, b] + ns)
    ensures L.Emit([a, b] + ns, written) == L.Pair(a, b) + L.Emit(ns, written + |L.Pair(a, b)|)
  {
    assert ([a, b] + ns)[2..] == ns;
  }

  // ---------- the handshake ----------

  /** The nine fields of the fixed part, in this order, and the address. */
  lemma HandshakeLayout(c: HS.Handshake)
    requires HS.Typed(c)
    ensures var w := HS.Front(c);
            && Word(w, 0) == c.version && Half(w, 4) == c.encryption && Half(w, 6) == c.extension
            && Word(w, 8) == c.initial.value && Word(w, 12) == c.mtu && Word(w, 16) == c.flow && Word(w, 20) == c.kind
            && Word(w, 24) == c.socketId && Word(w, 28) == c.cookie && w[32..48] == c.peerIP
  {
    FrontHead(c);
    FrontTail(c);
  }

  lemma FrontHead(c: HS.Handshake)
    requires HS.Typed(c)
    ensures var w := HS.Front(c);
            && Word(w, 0) == c.version && Half(w, 4) == c.encryption && Half(w, 6) == c.extension
            && Word(w, 8) == c.initial.value
  {
    var w, e := HS.Front(c), Wire.Put32(c.initial.value);
    var head := Wire.Put32(c.version) + Wire.Put16(c.encryption) + Wire.Put16(c.extension);
    assert w == head + e + w[12..];
    WordAt(head, c.initial.value, w[12..]);
    assert w == head + w[8..];
    WordAndHalves(c.version, c.encryption, c.extension, w[8..]);
  }

  lemma WordAndHalves(x: nat, y: nat, z: nat, rest: seq<Byte>)
    requires x < 0x1_0000_0000 && y < 0x1_0000 && z < 0x1_0000
    ensures var w := Wire.Put32(x) + Wire.Put16(y) + Wire.Put16(z) + rest;
            Word(w, 0) == x && Half(w, 4) == y && Half(w, 6) == z
  {
    var a, b, d := Wire.Put32(x), Wire.Put16(y), Wire.Put16(z);
    var w := a + b + d + rest;
    assert w == [] + a + (b + d + rest);
    WordAt([], x, b + d + rest);
    assert w == a + b + (d + rest);
    HalfAt(a, y, d + rest);
    HalfAt(a + b, z, rest);
  }

  lemma FrontTail(c: HS.Handshake)
    requires HS.Typed(c)
    ensures var w := HS.Front(c);
            && Word(w, 12) == c.mtu && Word(w, 16) == c.flow && Word(w, 20) == c.kind
            && Word(w, 24) == c.socketId && Word(w, 28) == c.cookie && w[32..48] == c.peerIP
  {
    var w := HS.Front(c);
    var p, q := w[..12], w[..24];
    assert w == p + Wire.Put32(c.mtu) + Wire.Put32(c.flow) + w[20..] by {
      assert w[..20] == p + Wire.Put32(c.mtu) + Wire.Put32(c.flow);
    }
    TwoWords(p, c.mtu, c.flow, w[20..]);
    assert w == w[..20] + Wire.Put32(c.kind) + w[24..];
    WordAt(w[..20], c.kind, w[24..]);
    assert w == q + Wire.Put32(c.socketId) + Wire.Put32(c.cookie) + c.peerIP;
    TwoWords(q, c.socketId, c.cookie, c.peerIP);
  }

  lemma TwoWords(p: seq<Byte>, x: nat, y: nat, rest: seq<Byte>)
    requires x < 0x1_0000_0000 && y < 0x1_0000_0000
    ensures var w := p + Wire.Put32(x) + Wire.Put32(y) + rest; Word(w, |p|) == x && Word(w, |p| + 4) == y
  {
    assert p + Wire.Put32(x) + Wire.Put32(y) + rest == p + Wire.Put32(x) + (Wire.Put32(y) + rest);
    WordAt(p, x, Wire.Put32(y) + rest);
    WordAt(p + Wire.Put32(x), y, rest);
  }

  /** The SRT extension: version, flags from the lowest bit up, receiver and sender delay. */
  lemma ExtensionLayout(e: HS.HsExt)
    requires HS.ValidHS(e)
    ensures var w, f := HS.MarshalHS(e), e.flags;
            && Word(w, 0) == e.version && Half(w, 8) == e.recvDelay && Half(w, 10) == e.sendDelay
            && Word(w, 4) == (if f.tsbpdSnd then 1 else 0) + (if f.tsbpdRcv then 2 else 0) + (if f.crypt then 4 else 0)
                             + (if f.tlpktDrop then 8 else 0) + (if f.periodicNak then 16 else 0)
                             + (if f.rexmitFlg then 32 else 0) + (if f.stream then 64 else 0)
                             + (if f.packetFilter then 128 else 0)
  {
    var w := HS.MarshalHS(e);
    var a, b := Wire.Put32(e.version), Wire.Put32(HS.FlagBits(e.flags));
    var c, d := Wire.Put16(e.recvDelay), Wire.Put16(e.sendDelay);
    assert w == [] + a + (b + c + d);
    WordAt([], e.version, b + c + d);
    assert w == a + b + (c + d);
    WordAt(a, HS.FlagBits(e.flags), c + d);
    assert w == (a + b) + c + d;
    HalfAt(a + b, e.recvDelay, d);
    assert w == (a + b + c) + d + [];
    HalfAt(a + b + c, e.sendDelay, []);
  }

  /** Key material: fixed first bytes, key flag, cipher, authentication, the lengths in words, salt
      and wrapped key. */
  lemma KeyMaterialLayout(k: HS.KmExt)
    requires HS.ValidKM(k)
    ensures var w := HS.MarshalKM(k);
            && w[..3] == [0x12, 0x20, 0x29] && w[3] == k.resv1 * 4 + k.key && w[4..8] == [0, 0, 0, 0]
            && w[8] == k.cipher && w[9] == k.authentication && w[10] == 2 && w[11] == k.resv2 && Half(w, 12) == k.resv3
            && (w[14] as int) * 4 == k.sLen && (w[15] as int) * 4 == k.kLen && w[16..] == k.salt + k.wrap
  {
    var h, w := HS.KMHead(k), HS.MarshalKM(k);
    KMHeadLayout(k);
    assert w == h + (k.salt + k.wrap);
    assert forall i :: 0 <= i < 16 ==> w[i] == h[i];
    assert w[..3] == h[..3] && w[4..8] == h[4..8];
  }

  lemma KMHeadLayout(k: HS.KmExt)
    requires HS.ValidKM(k)
    ensures var h := HS.KMHead(k);
            && h[..3] == [0x12, 0x20, 0x29] && h[3] == k.resv1 * 4 + k.key && h[4..8] == [0, 0, 0, 0]
            && h[8] == k.cipher && h[9] == k.authentication && h[10] == 2 && h[11] == k.resv2 && Half(h, 12) == k.resv3
            && (h[14] as int) * 4 == k.sLen && (h[15] as int) * 4 == k.kLen
  {
    var h := HS.KMHead(k);
    assert h[1] == Wire.Put16(k.sign)[0] && h[2] == Wire.Put16(k.sign)[1];
    assert h[12] == Wire.Put16(k.resv3)[0] && h[13] == Wire.Put16(k.resv3)[1];
    PutHalf(k.resv3);
    assert h[4..8] == Wire.Put32(0) == [0, 0, 0, 0];
  }

  /** An extension: its type, its length in words, its contents. */
  lemma TlvLayout(kind: nat, body: seq<Byte>)
    requires kind < 0x1_0000 && |body| / 4 < 0x1_0000
    ensures var w := HS.Tlv(kind, body); Half(w, 0) == kind && Half(w, 2) == |body| / 4 && w[4..] == body
  {
    var a, b := Wire.Put16(kind), Wire.Put16(|body| / 4);
    assert HS.Tlv(kind, body) == [] + a + (b + body);
    HalfAt([], kind, b + body);
    HalfAt(a, |body| / 4, body);
  }

  datatype Part = Part(kind: nat, body: seq<Byte>)

  ghost predicate Writable(parts: seq<Part>) {
    forall i :: 0 <= i < |parts| ==> parts[i].kind < 0x1_0000 && |parts[i].body| / 4 < 0x1_0000
  }

  ghost function Joined(parts: seq<Part>): seq<Byte>
    requires Writable(parts)
  {
    if parts == [] then [] else HS.Tlv(parts[0].kind, parts[0].body) + Joined(parts[1..])
  }

  // The extensions a handshake may have: a request has types 1 and 3 where a response has 2 and 4.
  ghost function HsPart(c: HS.Handshake): (ps: seq<Part>)
    requires HS.Typed(c)
    ensures Writable(ps) && |ps| <= 1
  {
    if c.hs.Some? then [Part(if c.isRequest then 1 else 2, HS.MarshalHS(c.hs.value))] else []
  }

  ghost function KmPart(c: HS.Handshake): (ps: seq<Part>)
    requires HS.Typed(c)
    ensures Writable(ps) && |ps| <= 1
  {
    if c.km.Some? then
      HS.KMWhole(c.km.value);
      [Part(if c.isRequest then 3 else 4, HS.MarshalKM(c.km.value))]
    else []
  }

  ghost function SidPart(c: HS.Handshake): (ps: seq<Part>)
    requires HS.Typed(c)
    ensures Writable(ps) && |ps| <= 1
  {
    if c.hasSID then [Part(5, HS.Name(c.streamId))] else []
  }

  // The name "live" is left out.
  ghost function CcPart(c: HS.Handshake): (ps: seq<Part>)
    requires HS.Typed(c)
    ensures Writable(ps) && |ps| <= 1
  {
    if c.hasCC && c.congestion != [0x6C, 0x69, 0x76, 0x65] then [Part(6, HS.Name(c.congestion))] else []
  }

  // In the order they are written.
  ghost function Parts(c: HS.Handshake): seq<Part>
    requires HS.Typed(c)
  {
    HsPart(c) + KmPart(c) + SidPart(c) + CcPart(c)
  }

  lemma {:induction false} JoinedConcat(a: seq<Part>, b: seq<Part>)
    requires Writable(a) && Writable(b)
    ensures Writable(a + b) && Joined(a + b) == Joined(a) + Joined(b)
  {
    if a == [] {
      assert a + b == b;
    } else {
      JoinedConcat(a[1..], b);
      assert (a + b)[1..] == a[1..] + b;
      ThreeParts(HS.Tlv(a[0].kind, a[0].body), Joined(a[1..]), Joined(b));
    }
  }

  lemma OptionalPart(ps: seq<Part>)
    requires Writable(ps) && |ps| <= 1
    ensures Joined(ps) == if ps == [] then [] else HS.Tlv(ps[0].kind, ps[0].body)
  {
    if ps != [] {
      assert ps[1..] == [];
    }
  }

  lemma PartsAre(n: HS.Handshake)
    requires HS.Typed(n)
    ensures Joined(HsPart(n)) == HS.HsTlv(n) && Joined(KmPart(n)) == HS.KmTlv(n)
    ensures Joined(SidPart(n)) == HS.SidTlv(n) && Joined(CcPart(n)) == HS.CcTlv(n)
  {
    OptionalPart(HsPart(n));
    OptionalPart(KmPart(n));
    OptionalPart(SidPart(n));
    OptionalPart(CcPart(n));
  }

  /** After the fixed part a handshake is the sequence of its extensions. */
  lemma ExtensionsLayout(c: HS.Handshake)
    requires HS.Typed(HS.Normalized(c))
    ensures var n := HS.Normalized(c);
            && Writable(Parts(n)) && HS.Marshal(c)[..48] == HS.Front(n) && HS.Marshal(c)[48..] == Joined(Parts(n))
  {
    PartsJoined(HS.Normalized(c));
  }

  lemma PartsJoined(n: HS.Handshake)
    requires HS.Typed(n)
    ensures Writable(Parts(n))
    ensures Joined(Parts(n)) == HS.HsTlv(n) + (HS.KmTlv(n) + (HS.SidTlv(n) + HS.CcTlv(n)))
  {
    PartsAre(n);
    JoinedConcat(HsPart(n), KmPart(n));
    JoinedConcat(HsPart(n) + KmPart(n), SidPart(n));
    JoinedConcat(HsPart(n) + KmPart(n) + SidPart(n), CcPart(n));
    FourParts(HS.HsTlv(n), HS.KmTlv(n), HS.SidTlv(n), HS.CcTlv(n));
  }

  lemma ThreeParts(a: seq<Byte>, b: seq<Byte>, d: seq<Byte>)
    ensures a + (b + d) == a + b + d
  {
  }

  lemma FourParts(a: seq<Byte>, b: seq<Byte>, d: seq<Byte>, e: seq<Byte>)
    ensures a + (b + (d + e)) == a + b + d + e
  {
  }

  /** Byte r of word i of a name is byte 3 - r of the same word of the text, zeros where it ends. */
  lemma NameLayout(b: seq<Byte>, i: nat, r: nat)
    requires r < 4 && 4 * i + 4 <= |HS.Name(b)|
    ensures HS.Name(b)[4 * i + r] == if 4 * i + 3 - r < |b| then b[4 * i + 3 - r] else 0
  {
    HS.PadWhole(b);
    var p, k := HS.Pad(b), (|b| + 3) / 4;
    SwapLength(p, k);
    SwapAt(p, k, i, r);
    if 4 * i + 3 - r >= |b| {
      ZerosAt(HS.Missing(|b|), 4 * i + 3 - r - |b|);
    }
  }

  lemma {:induction false} SwapAt(b: seq<Byte>, k: nat, i: nat, r: nat)
    requires HS.Whole(b, k) && r < 4 && i < k
    ensures |HS.Swap(b)| == |b| && HS.Swap(b)[4 * i + r] == b[4 * i + 3 - r]
    decreases k
  {
    SwapLength(b[4..], k - 1);
    SwapUnfolds(b);
    if i == 0 {
      FirstWord(b, HS.Swap(b[4..]), r);
    } else {
      SwapAt(b[4..], k - 1, i - 1, r);
      LaterWord(b, HS.Swap(b[4..]), 4 * (i - 1), r);
    }
  }

  lemma {:induction false} SwapLength(b: seq<Byte>, k: nat)
    requires HS.Whole(b, k)
    ensures |HS.Swap(b)| == |b|
  {
    if k > 0 {
      SwapLength(b[4..], k - 1);
    }
  }

  lemma SwapUnfolds(b: seq<Byte>)
    requires |b| >= 4
    ensures HS.Swap(b) == [b[3], b[2], b[1], b[0]] + HS.Swap(b[4..])
  {
  }

  lemma FirstWord(b: seq<Byte>, tail: seq<Byte>, r: nat)
    requires |b| >= 4 && r < 4
    ensures ([b[3], b[2], b[1], b[0]] + tail)[r] == b[3 - r]
  {
  }

  lemma LaterWord(b: seq<Byte>, tail: seq<Byte>, at: nat, r: nat)
    requires r < 4 && at + 8 <= |b| == |tail| + 4 && tail[at + r] == b[4..][at + 3 - r]
    ensures ([b[3], b[2], b[1], b[0]] + tail)[at + 4 + r] == b[at + 4 + 3 - r]
  {
  }

  lemma {:induction false} ZerosAt(n: nat, i: nat)
    requires i < n
    ensures HS.Zeros(n)[i] == 0
  {
    if i < n - 1 {
      ZerosAt(n - 1, i);
    }
  }

  /** What is written for a handshake of another version than 5: no encryption, extension 2. */
  lemma OldVersions(c: HS.Handshake)
    requires c.version != 5
    ensures HS.Normalized(c) == c.(hasSID := c.hasSID && c.streamId != [], encryption := 0, extension := 2)
  {
  }

  /** Anything but a CONCLUSION that announces extensions is read from its first 48 bytes alone; a
      CONCLUSION with something more is refused if its encryption field is none of 0, 2, 3, 4. */
  lemma FixedPartOnly(data: seq<Byte>)
    ensures |data| < 48 ==> HS.Unmarshal(data) == Error
    ensures |data| >= 48 && (Word(data, 20) != 0xFFFF_FFFF || Half(data, 6) == 0) ==>
              HS.Unmarshal(data) == Ok(HS.Fixed(data)) && HS.Unmarshal(data) == HS.Unmarshal(data[..48])
    ensures |data| > 48 && Word(data, 20) == 0xFFFF_FFFF && Half(data, 6) != 0 && Half(data, 4) !in {0, 2, 3, 4} ==>
              HS.Unmarshal(data) == Error
  {
    if |data| >= 48 {
      var w := data[..48];
      assert HS.Fixed(w) == HS.Fixed(data) by {
        assert w[32..48] == data[32..48];
        assert forall i :: 0 <= i < 48 ==> w[i] == data[i];
      }
    }
  }

  // ---------- examples ----------

  /** A data packet with two letters, and a keep-alive. */
  lemma DataExample()
    ensures var h := H.Data(Number(0x7FFF_FFFF, 0x3FFF_FFFF, 0), 3, false, 0, false, 1, 0, 0);
            H.Marshal(H.Datagram(h, [0x68, 0x65])) == [0, 0, 0, 0, 0xC0, 0, 0, 1, 0, 0, 0, 0, 0, 0, 0, 0, 0x68, 0x65]
  {
    var h := H.Data(Number(0x7FFF_FFFF, 0x3FFF_FFFF, 0), 3, false, 0, false, 1, 0, 0);
    assert H.Front(h) == [0, 0, 0, 0, 0xC0, 0, 0, 1] by {
      assert Wire.Put32(0xC000_0001) == [0xC0, 0, 0, 1];
    }
    SixteenBytes(h, [0, 0, 0, 0, 0xC0, 0, 0, 1], [0x68, 0x65]);
  }

  lemma SixteenBytes(h: H.Header, front: seq<Byte>, payload: seq<Byte>)
    requires H.Typed(h) && H.Front(h) == front && h.timestamp == 0 && h.destination == 0
    ensures H.Marshal(H.Datagram(h, payload)) == front + [0, 0, 0, 0, 0, 0, 0, 0] + payload
  {
    assert Wire.Put32(0) == [0, 0, 0, 0];
    assert [0, 0, 0, 0] + [0, 0, 0, 0] == [0, 0, 0, 0, 0, 0, 0, 0];
  }

  lemma ControlExample()
    ensures H.Marshal(H.Datagram(H.Control(1, 112, 42, 0, 0), []))
            == [0x80, 1, 0, 0x70, 0, 0, 0, 0x2A, 0, 0, 0, 0, 0, 0, 0, 0]
  {
    var h := H.Control(1, 112, 42, 0, 0);
    assert H.Front(h) == [0x80, 1, 0, 0x70, 0, 0, 0, 0x2A];
    SixteenBytes(h, [0x80, 1, 0, 0x70, 0, 0, 0, 0x2A], []);
  }

  /** The number 42 and the range from 45 to 49. */
  lemma LossListExample(a: Number, b: Number, c: Number)
    requires a == SeqNum(42) && b == SeqNum(45) && c == SeqNum(49)
    ensures L.SequenceNumbers([a, a, b, c])
    ensures L.Encode([a, a, b, c]) == Ok([0, 0, 0, 0x2A, 0x80, 0, 0, 0x2D, 0, 0, 0, 0x31])
  {
    assert [a, a] + [b, c] == [a, a, b, c] && [b, c] + [] == [b, c];
    LossListLayout(a, a, [b, c], 0);
    LossListLayout(b, c, [], 4);
    assert L.Pair(a, a) == [0, 0, 0, 0x2A];
    assert L.Pair(b, c) == [0x80, 0, 0, 0x2D, 0, 0, 0, 0x31];
    var w := L.Emit([a, a, b, c], 0);
    assert w == L.Pair(a, a) + (L.Pair(b, c) + []);
    assert w == [0, 0, 0, 0x2A, 0x80, 0, 0, 0x2D, 0, 0, 0, 0x31];
    assert |[a, a, b, c]| % 2 == 0;
  }
}
