/** The packet header (packet/packet.go, pkt.Marshal and pkt.Unmarshal; section 3 of
    draft-sharabayko-srt). */
module Header {
  import opened Circular
  import opened Packets
  import opened Wire
  import opened Wrappers

  datatype Header =
    | Control(controlType: nat, subType: nat, typeSpecific: nat, timestamp: nat, destination: nat)
    | Data(seqno: Number, position: nat, order: bool, encryption: nat, retransmitted: bool, message: nat,
           timestamp: nat, destination: nat)

  datatype Datagram = Datagram(header: Header, payload: seq<Byte>)

  // The widths of the Go fields.
  ghost predicate Typed(h: Header) {
    && h.timestamp < 0x1_0000_0000 && h.destination < 0x1_0000_0000
    && match h
       case Control(t, s, x, _, _) => t < 0x1_0000 && s < 0x1_0000 && x < 0x1_0000_0000
       case Data(n, _, _, _, _, m, _, _) => n.value < 0x1_0000_0000 && m < 0x1_0000_0000
  }

  /** What the format has room for. */
  ghost predicate InFormat(h: Header) {
    match h
    case Control(t, _, _, _, _) => t < 0x8000
    case Data(n, position, _, encryption, _, m, _, _) =>
      && n == Number(0x7FFF_FFFF, 0x3FFF_FFFF, n.value) && n.value <= 0x7FFF_FFFF
      && position < 4 && encryption < 4 && m < 0x400_0000
  }

  // The first eight bytes.
  function Front(h: Header): (w: seq<Byte>)
    requires Typed(h)
    ensures |w| == 8
  {
    match h
    case Control(t, s, x, _, _) =>
      // The top bit tells a control packet.
      Put16(if t < 0x8000 then t + 0x8000 else t) + Put16(s) + Put32(x)
    case Data(n, position, order, encryption, retransmitted, m, _, _) =>
      var flags := (position % 4) * 64 + Bit(order) * 32 + (encryption % 4) * 8 + Bit(retransmitted) * 4;
      Put32(n.value) + Put32(flags * 0x100_0000 + m % 0x400_0000)
  }

  function Marshal(d: Datagram): seq<Byte>
    requires Typed(d.header)
  {
    Front(d.header) + Put32(d.header.timestamp) + Put32(d.header.destination) + d.payload
  }

  function Unmarshal(data: seq<Byte>): Result<Datagram> {
    if |data| < 16 then Error
    else
      var timestamp, destination := Get32(data, 8), Get32(data, 12);
      if data[0] >= 0x80 then
        Ok(Datagram(Control(Get16(data, 0) % 0x8000, Get16(data, 2), Get32(data, 4), timestamp, destination),
            data[16..]))
      else
        var b: int := data[4];
        Ok(Datagram(Data(New(Get32(data, 0), 0x7FFF_FFFF), b / 64, (b / 32) % 2 == 1, (b / 8) % 4, (b / 4) % 2 == 1,
                         Get32(data, 4) % 0x400_0000, timestamp, destination),
                    data[16..]))
  }

  // ---------- parsing, then printing ----------

  lemma BitsOf(b: int)
    requires 0 <= b < 256
    ensures (b / 64) * 64 + (b / 32) % 2 * 32 + (b / 8) % 4 * 8 + (b / 4) % 2 * 4 + b % 4 == b
    ensures 0 <= b / 64 < 4
  {
    var q := b / 4;
    DivModUnique(b, 8, q / 2, (q % 2) * 4 + b % 4);
    var r := q / 2;
    DivModUnique(b, 32, r / 4, (r % 4) * 8 + (q % 2) * 4 + b % 4);
    var t := r / 4;
    DivModUnique(b, 64, t / 2, (t % 2) * 32 + (r % 4) * 8 + (q % 2) * 4 + b % 4);
  }

  lemma FlagsRecombine(b: int, rest: int)
    requires 0 <= b < 256 && 0 <= rest < 0x100_0000
    ensures var w := b * 0x100_0000 + rest;
            ((b / 64) % 4 * 64 + (b / 32) % 2 * 32 + (b / 8) % 4 % 4 * 8 + (b / 4) % 2 * 4) * 0x100_0000
                + w % 0x400_0000 % 0x400_0000 == w
  {
    var w, low := b * 0x100_0000 + rest, (b % 4) * 0x100_0000 + rest;
    BitsOf(b);
    DivModUnique(w, 0x400_0000, b / 4, low);
    DivModUnique(low, 0x400_0000, 0, low);
    DivModUnique(b / 64, 4, 0, b / 64);
    DivModUnique((b / 8) % 4, 4, 0, (b / 8) % 4);
  }

  lemma ControlFront(data: seq<Byte>)
    requires |data| >= 16 && data[0] >= 0x80
    ensures var h := Unmarshal(data).value.header; Typed(h) && Front(h) == data[..8]
  {
    var h := Unmarshal(data).value.header;
    Get16Put16(data, 0);
    Get16Put16(data, 2);
    Get32Put32(data, 4);
    assert Get16(data, 0) == h.controlType + 0x8000;
    assert data[..8] == data[0..2] + data[2..4] + data[4..8];
  }

  lemma DataFront(data: seq<Byte>)
    requires |data| >= 16 && data[0] < 0x80
    ensures var h := Unmarshal(data).value.header; Typed(h) && Front(h) == data[..8]
  {
    Get32Put32(data, 0);
    Get32Put32(data, 4);
    FlagsRecombine(data[4], Get32(data, 4) - (data[4] as int) * 0x100_0000);
    assert data[..8] == data[0..4] + data[4..8];
  }

  /** Every datagram of at least 16 bytes is printed again byte for byte. */
  lemma ParsePrint(data: seq<Byte>)
    requires |data| >= 16
    ensures Unmarshal(data).Ok? && Typed(Unmarshal(data).value.header) && Marshal(Unmarshal(data).value) == data
  {
    if data[0] >= 0x80 {
      ControlFront(data);
    } else {
      DataFront(data);
    }
    Get32Put32(data, 8);
    Get32Put32(data, 12);
    assert data == data[..8] + data[8..12] + data[12..16] + data[16..];
  }

  // ---------- printing, then parsing ----------

  lemma TailParsed(d: Datagram)
    requires Typed(d.header)
    ensures var w := Marshal(d);
            && |w| >= 16 && w[16..] == d.payload && w[..8] == Front(d.header)
            && Get32(w, 8) == d.header.timestamp && Get32(w, 12) == d.header.destination
  {
    var f, t, a := Front(d.header), d.header.timestamp, d.header.destination;
    var w := Marshal(d);
    assert w == f + Put32(t) + (Put32(a) + d.payload);
    Get32At(f, t, Put32(a) + d.payload);
    assert w == (f + Put32(t)) + Put32(a) + d.payload;
    Get32At(f + Put32(t), a, d.payload);
  }

  lemma ControlParsed(d: Datagram)
    requires Typed(d.header) && d.header.Control?
    ensures Unmarshal(Marshal(d)) == Ok(Datagram(d.header.(controlType := d.header.controlType % 0x8000), d.payload))
  {
    var h, w := d.header, Marshal(d);
    TailParsed(d);
    var t := if h.controlType < 0x8000 then h.controlType + 0x8000 else h.controlType;
    var rest := w[8..];
    assert w == [] + Put16(t) + (Put16(h.subType) + Put32(h.typeSpecific) + rest);
    Get16At([], t, Put16(h.subType) + Put32(h.typeSpecific) + rest);
    assert w == Put16(t) + Put16(h.subType) + (Put32(h.typeSpecific) + rest);
    Get16At(Put16(t), h.subType, Put32(h.typeSpecific) + rest);
    assert w == (Put16(t) + Put16(h.subType)) + Put32(h.typeSpecific) + rest;
    Get32At(Put16(t) + Put16(h.subType), h.typeSpecific, rest);
    assert w[0] == Put16(t)[0];
  }

  // The flag byte and the message number of a data packet.
  lemma FlagsSplit(position: nat, order: nat, encryption: nat, retransmitted: nat, m: nat)
    requires position < 4 && order < 2 && encryption < 4 && retransmitted < 2 && m < 0x400_0000
    ensures var flags := position * 64 + order * 32 + encryption * 8 + retransmitted * 4;
            var w := flags * 0x100_0000 + m;
            var b := w / 0x100_0000;
            && w < 0x1_0000_0000
            && b / 64 == position && (b / 32) % 2 == order && (b / 8) % 4 == encryption && (b / 4) % 2 == retransmitted
            && w % 0x400_0000 == m
  {
    var flags := position * 64 + order * 32 + encryption * 8 + retransmitted * 4;
    var low := m / 0x100_0000;
    assert 0 <= low < 4;
    var w := flags * 0x100_0000 + m;
    DivModUnique(w, 0x100_0000, flags + low, m % 0x100_0000);
    FlagsByte(position, order, encryption, retransmitted, low);
    DivModUnique(w, 0x400_0000, position * 16 + order * 8 + encryption * 2 + retransmitted, m);
  }

  lemma FlagsByte(position: nat, order: nat, encryption: nat, retransmitted: nat, low: nat)
    requires position < 4 && order < 2 && encryption < 4 && retransmitted < 2 && low < 4
    ensures var b := position * 64 + order * 32 + encryption * 8 + retransmitted * 4 + low;
            && b / 64 == position && (b / 32) % 2 == order && (b / 8) % 4 == encryption && (b / 4) % 2 == retransmitted
  {
    var b := position * 64 + order * 32 + encryption * 8 + retransmitted * 4 + low;
    DivModUnique(b, 4, position * 16 + order * 8 + encryption * 2 + retransmitted, low);
    DivModUnique(b / 4, 2, position * 8 + order * 4 + encryption, retransmitted);
    DivModUnique(b, 8, position * 8 + order * 4 + encryption, retransmitted * 4 + low);
    DivModUnique(b / 8, 4, position * 2 + order, encryption);
    DivModUnique(b, 32, position * 2 + order, encryption * 8 + retransmitted * 4 + low);
    DivModUnique(b / 32, 2, position, order);
    DivModUnique(b, 64, position, order * 32 + encryption * 8 + retransmitted * 4 + low);
  }

  lemma DataParsed(d: Datagram)
    requires Typed(d.header) && d.header.Data? && d.header.seqno.value <= 0x7FFF_FFFF
    ensures var h := d.header;
            Unmarshal(Marshal(d)) ==
            Ok(Datagram(h.(seqno := New(h.seqno.value, 0x7FFF_FFFF), position := h.position % 4,
                           encryption := h.encryption % 4, message := h.message % 0x400_0000), d.payload))
  {
    var h, w := d.header, Marshal(d);
    TailParsed(d);
    var flags := (h.position % 4) * 64 + Bit(h.order) * 32 + (h.encryption % 4) * 8 + Bit(h.retransmitted) * 4;
    FlagsSplit(h.position % 4, Bit(h.order), h.encryption % 4, Bit(h.retransmitted), h.message % 0x400_0000);
    var field := flags * 0x100_0000 + h.message % 0x400_0000;
    assert w == Put32(h.seqno.value) + Put32(field) + w[8..];
    TwoWords(h.seqno.value, field, w[8..]);
  }

  lemma TwoWords(x: nat, y: nat, rest: seq<Byte>)
    requires x < 0x1_0000_0000 && y < 0x1_0000_0000
    ensures var w := Put32(x) + Put32(y) + rest;
            Get32(w, 0) == x && Get32(w, 4) == y && w[0] == x / 0x100_0000 && w[4] == y / 0x100_0000
  {
    var w := Put32(x) + Put32(y) + rest;
    assert w == [] + Put32(x) + (Put32(y) + rest);
    Get32At([], x, Put32(y) + rest);
    Get32At(Put32(x), y, rest);
  }

  lemma HighNumberParsed(d: Datagram)
    requires Typed(d.header) && d.header.Data? && d.header.seqno.value > 0x7FFF_FFFF
    ensures Unmarshal(Marshal(d)).Ok? && Unmarshal(Marshal(d)).value.header.Control?
  {
    var w := Marshal(d);
    TailParsed(d);
    assert w[0] == w[..8][0] == Put32(d.header.seqno.value)[0];
  }

  lemma ModIsSame(x: nat, m: nat)
    requires m > 0
    ensures x % m == x <==> x < m
  {
    if x < m {
      DivModUnique(x, m, 0, x);
    }
  }

  /** A header and payload survive the trip exactly if the header fits the format. */
  lemma PrintParseExactly(d: Datagram)
    requires Typed(d.header)
    ensures Unmarshal(Marshal(d)) == Ok(d) <==> InFormat(d.header)
  {
    var h := d.header;
    if h.Control? {
      ControlParsed(d);
      ModIsSame(h.controlType, 0x8000);
    } else if h.seqno.value <= 0x7FFF_FFFF {
      DataParsed(d);
      ModIsSame(h.position, 4);
      ModIsSame(h.encryption, 4);
      ModIsSame(h.message, 0x400_0000);
      assert New(h.seqno.value, 0x7FFF_FFFF) == Number(0x7FFF_FFFF, 0x3FFF_FFFF, h.seqno.value);
    } else {
      HighNumberParsed(d);
    }
  }
}
