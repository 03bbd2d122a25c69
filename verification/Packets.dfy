/** Data packets as the congestion control sees them (packet/packet.go). */
module Packets {
  import opened Circular

  type Byte = b: int | 0 <= b < 256

  // `time` is PktTsbpdTime, `timestamp` the 32-bit header field.
  datatype Packet = Packet(seqno: Number, time: nat, timestamp: nat, retransmitted: bool, data: seq<Byte>)

  function Len(p: Packet): nat {
    |p.data|
  }

  /** A pair of counters: how many packets and how many payload bytes. */
  datatype Tally = Tally(pkts: int, bytes: int)

  function AddOne(t: Tally, p: Packet): Tally {
    Tally(t.pkts + 1, t.bytes + Len(p))
  }

  function AddAll(t: Tally, es: seq<Entry>): Tally {
    Tally(t.pkts + |es|, t.bytes + Bytes(es))
  }

  function SubAll(t: Tally, es: seq<Entry>): Tally {
    Tally(t.pkts - |es|, t.bytes - Bytes(es))
  }

  /** A packet together with the unbounded number its sequence number stands for. */
  datatype Entry = Entry(n: int, p: Packet)

  ghost predicate Tagged(e: Entry) {
    e.p.seqno == SeqNum(e.n)
  }

  /** An inclusive range of numbers. */
  datatype Range = Range(lo: int, hi: int)

  ghost predicate InRange(k: int, r: Range) {
    r.lo <= k <= r.hi
  }

  ghost predicate Covered(rs: seq<Range>, k: int) {
    exists i :: 0 <= i < |rs| && InRange(k, rs[i])
  }

  // Sorted, disjoint and with at least one number between neighbours.
  ghost predicate Separated(rs: seq<Range>) {
    (forall i :: 0 <= i < |rs| ==> rs[i].lo <= rs[i].hi) &&
    (forall i, j :: 0 <= i < j < |rs| ==> rs[i].hi + 1 < rs[j].lo)
  }

  // How a list of ranges is handed around in the code: from, to, from, to, ...
  function Flat(rs: seq<Range>): (ns: seq<Number>)
    ensures |ns| == 2 * |rs|
  {
    if rs == [] then []
    else Flat(rs[..|rs| - 1]) + [SeqNum(rs[|rs| - 1].lo), SeqNum(rs[|rs| - 1].hi)]
  }

  lemma FlatSnoc(rs: seq<Range>, r: Range)
    ensures Flat(rs + [r]) == Flat(rs) + [SeqNum(r.lo), SeqNum(r.hi)]
  {
    assert (rs + [r])[..|rs|] == rs;
  }

  lemma {:induction false} FlatAt(rs: seq<Range>, i: nat)
    requires i < |rs|
    ensures Flat(rs)[2 * i] == SeqNum(rs[i].lo) && Flat(rs)[2 * i + 1] == SeqNum(rs[i].hi)
  {
    if i < |rs| - 1 {
      FlatAt(rs[..|rs| - 1], i);
    }
  }

  function Bytes(es: seq<Entry>): nat {
    if es == [] then 0 else Bytes(es[..|es| - 1]) + Len(es[|es| - 1].p)
  }

  lemma {:induction false} BytesConcat(a: seq<Entry>, b: seq<Entry>)
    ensures Bytes(a + b) == Bytes(a) + Bytes(b)
  {
    if b == [] {
      assert a + b == a;
    } else {
      assert (a + b)[..|a + b| - 1] == a + b[..|b| - 1];
      BytesConcat(a, b[..|b| - 1]);
    }
  }

  lemma BytesSplit(es: seq<Entry>, k: nat)
    requires k <= |es|
    ensures Bytes(es[..k]) + Bytes(es[k..]) == Bytes(es)
  {
    assert es == es[..k] + es[k..];
    BytesConcat(es[..k], es[k..]);
  }

  lemma BytesInsert(es: seq<Entry>, k: nat, e: Entry)
    requires k <= |es|
    ensures Bytes(es[..k] + [e] + es[k..]) == Bytes(es) + Len(e.p)
  {
    BytesSplit(es, k);
    BytesConcat(es[..k] + [e], es[k..]);
    BytesConcat(es[..k], [e]);
  }

  ghost predicate Sorted(es: seq<Entry>) {
    forall i, j :: 0 <= i < j < |es| ==> es[i].n < es[j].n
  }

  ghost predicate Has(es: seq<Entry>, n: int) {
    exists i :: 0 <= i < |es| && es[i].n == n
  }

  // ps are the packets of es and carry their numbers.
  ghost predicate Held(ps: seq<Packet>, es: seq<Entry>) {
    |ps| == |es| && forall i :: 0 <= i < |ps| ==> ps[i] == es[i].p && ps[i].seqno == SeqNum(es[i].n)
  }

  lemma HeldInsert(ps: seq<Packet>, es: seq<Entry>, k: nat, e: Entry)
    requires Held(ps, es) && k <= |ps| && Tagged(e)
    ensures Held(ps[..k] + [e.p] + ps[k..], es[..k] + [e] + es[k..])
    ensures k == |ps| ==> Held(ps + [e.p], es + [e])
  {
    var qs, fs := ps[..k] + [e.p] + ps[k..], es[..k] + [e] + es[k..];
    forall i | 0 <= i < |qs| ensures qs[i] == fs[i].p && qs[i].seqno == SeqNum(fs[i].n) {
      assert qs[i] == if i < k then ps[i] else if i == k then e.p else ps[i - 1];
      assert fs[i] == if i < k then es[i] else if i == k then e else es[i - 1];
    }
  }

  lemma HeldConcat(ps: seq<Packet>, es: seq<Entry>, qs: seq<Packet>, fs: seq<Entry>)
    requires Held(ps, es) && Held(qs, fs)
    ensures Held(ps + qs, es + fs)
  {
  }

  lemma AddAllConcat(t: Tally, a: seq<Entry>, b: seq<Entry>)
    ensures AddAll(AddAll(t, a), b) == AddAll(t, a + b)
  {
    BytesConcat(a, b);
  }

  ghost predicate NearAll(list: seq<Entry>, n: int) {
    forall i :: 0 <= i < |list| ==> Near(list[i].n, n)
  }

  ghost predicate NearRange(n: int, r: Range) {
    Near(n, r.lo) && Near(n, r.hi)
  }

  ghost predicate NearRanges(list: seq<Entry>, ranges: seq<Range>) {
    forall i, j :: 0 <= i < |list| && 0 <= j < |ranges| ==> NearRange(list[i].n, ranges[j])
  }
}
