/** Both ends of an encrypted connection: the sender's key refresh, the key material requests it
    sends, and a peer that takes them over and decrypts (connection.go, pop, handleKMRequest and
    handlePacket). Traffic is one-directional; any announcement may get lost. Here data arrives in
    the order sent; KeyReorder is about packets that arrive late. */
module KeyExchange {
  import opened Crypto
  import opened Wrappers
  import K = KeyRefresh

  // ---------- the peer ----------

  datatype Peer = Peer(key: Key, box: Box)

  // handleKMRequest on an encrypted connection.
  function HandleKMRequest(x: Suite, passphrase: string, p: Peer, km: KM): Peer
    requires Crypto.Valid(p.box)
  {
    if km.key == p.key then p
    else
      var u := UnmarshalKM(x, p.box, km, passphrase);
      if u.ok then Peer(Opposite(p.key), u.box) else p.(box := u.box)
  }

  /** A request changes the key in use exactly if it names the other one and unwraps. One that does
      not leaves both keys alone, but not always the salt. */
  lemma RequestTakenExactly(x: Suite, passphrase: string, p: Peer, km: KM)
    requires Crypto.Valid(p.box)
    ensures var q, u := HandleKMRequest(x, passphrase, p, km), UnmarshalKM(x, p.box, km, passphrase);
            && (q.key == p.key || q.key == Opposite(p.key))
            && (q.key != p.key <==> p.key in {Even, Odd} && km.key != p.key && u.ok)
            && (km.key != p.key && u.ok ==> q.box == u.box)
            && (km.key != p.key && !u.ok ==> q.key == p.key && q.box.even == p.box.even && q.box.odd == p.box.odd)
            && (km.key == p.key ==> q == p)
    ensures var wrapLength := if km.key == EvenAndOdd then 2 * p.box.keyLength else p.box.keyLength;
            km.key != p.key && !UnmarshalKM(x, p.box, km, passphrase).ok ==>
              (HandleKMRequest(x, passphrase, p, km) == p <==>
               km.key == Unencrypted || |km.wrap| != wrapLength + 8 || Copied(p.box.salt, km.salt) == p.box.salt)
  {
    if km.key != p.key && !UnmarshalKM(x, p.box, km, passphrase).ok {
      RefusedKeyMaterialExactly(x, p.box, km, passphrase);
    }
  }

  class PeerMachine {
    var keyBaseEncryption: Key
    var crypto: Box

    function Value(): Peer
      reads this
    {
      Peer(keyBaseEncryption, crypto)
    }

    constructor (crypto: Box)
      ensures Value() == Peer(Even, crypto)
    {
      keyBaseEncryption, this.crypto := Even, crypto;
    }

    // `confirmed` tells whether a KM response is sent.
    method KMRequest(x: Suite, passphrase: string, km: KM) returns (confirmed: bool)
      requires Crypto.Valid(crypto)
      modifies this
      ensures Value() == HandleKMRequest(x, passphrase, old(Value()), km)
      ensures confirmed <==> km.key != old(keyBaseEncryption) && UnmarshalKM(x, old(crypto), km, passphrase).ok
    {
      if km.key == keyBaseEncryption {
        // Taken for a second announcement of what is known.
        return false;
      }
      var u := UnmarshalKM(x, crypto, km, passphrase);
      crypto := u.box;
      if !u.ok {
        return false;
      }
      keyBaseEncryption := Opposite(keyBaseEncryption);
      return true;
    }
  }

  // ---------- both ends ----------

  datatype Event =
    // A data packet: `again` if it is a retransmission, whose data is encrypted already;
    // `arrives` if an announcement sent along with it does.
    | Sends(psn: bv32, data: seq<bv8>, again: bool, newKey: seq<bv8>, arrives: bool)
    | Confirms

  // A data packet with what went over the wire and what the peer made of it.
  datatype Transfer = Transfer(psn: bv32, data: seq<bv8>, again: bool, wire: seq<bv8>, received: seq<bv8>)

  // `heard` are the key cycles of which an announcement has arrived.
  datatype State = State(s: K.State, p: Peer, heard: set<nat>, offered: seq<seq<bv8>>, log: seq<Transfer>)

  datatype Setup = Setup(x: Suite, c: K.Config, passphrase: string, box: Box, peer: Box)

  /** The handshake has given the peer the salt and the even key, and the announcements are those
      of the key schedule. */
  ghost predicate Ready(u: Setup) {
    && Sound(u.x) && K.Validated(u.c) && 2 * u.c.announce < u.c.rate
    && Crypto.Valid(u.box) && Crypto.Valid(u.peer) && u.box.keyLength == u.peer.keyLength
    && u.box.salt == u.peer.salt && u.box.even == u.peer.even
  }

  function Init(u: Setup): State {
    State(K.Init(u.c, u.box), Peer(Even, u.peer), {}, [], [])
  }

  // New keys have the right length; nothing is asked of what arrives.
  ghost predicate Enabled(u: Setup, ev: Event) {
    ev.Sends? ==> |ev.newKey| == u.box.keyLength
  }

  // The peer after the announcement, if any.
  function Told(u: Setup, b: State, km: Option<K.Announcement>, arrives: bool): Peer
    requires Crypto.Valid(b.s.box) && Crypto.Valid(b.p.box)
  {
    if km.Some? && arrives then
      match MarshalKM(u.x, b.s.box, u.passphrase, km.value.key)
      case Ok(m) => HandleKMRequest(u.x, u.passphrase, b.p, m)
      case Error => b.p
    else b.p
  }

  // The cycle of the packet to be sent next.
  function Cycle(u: Setup, b: State): nat
    requires u.c.rate > 0
  {
    K.CycleAt(u.c, |b.offered|)
  }

  ghost predicate Lengths(u: Setup, b: State) {
    && Sound(u.x) && Crypto.Valid(b.s.box) && Crypto.Valid(b.p.box)
    && b.s.box.keyLength == b.p.box.keyLength == u.box.keyLength
    && b.s.box.salt == b.p.box.salt == u.box.salt
  }

  ghost function Next(u: Setup, b: State, ev: Event): State
    requires Ready(u) && Lengths(u, b) && Enabled(u, ev)
  {
    match ev
    case Sends(psn, data, again, newKey, arrives) =>
      var popped := K.Pop(u.c, b.s, newKey);
      var wire := if again then data else Xor(data, KeyStream(u.x, b.s.box.salt, popped.out.sek, psn, |data|));
      var p := Told(u, b, popped.out.km, arrives);
      ToldLengths(u, b, popped.out.km, arrives);
      var received := Xor(wire, KeyStream(u.x, p.box.salt, Slot(p.box, popped.out.key), psn, |wire|));
      State(popped.s, p, if popped.out.km.Some? && arrives then b.heard + {Cycle(u, b)} else b.heard,
            b.offered + [newKey], b.log + [Transfer(psn, data, again, wire, received)])
    case Confirms => b.(s := K.Confirm(u.c, b.s))
  }

  lemma ToldLengths(u: Setup, b: State, km: Option<K.Announcement>, arrives: bool)
    requires Lengths(u, b)
    ensures var p := Told(u, b, km, arrives);
            Crypto.Valid(p.box) && p.box.keyLength == b.p.box.keyLength && p.box.salt == b.p.box.salt
  {
    if km.Some? && arrives && km.value.key != Unencrypted {
      KeyMaterialArrives(u.x, b.s.box, b.p.box, u.passphrase, km.value.key);
    }
  }

  // ---------- which announcements the peer takes ----------

  /** As cycle q begins, the key flag the peer has in mind is that of the cycle. A peer out of phase
      takes an announcement for one of the key in use, refuses it, and is in phase again
      after that cycle; a peer in phase stays so if it hears an announcement. */
  ghost predicate InPhase(heard: set<nat>, q: nat) {
    q == 0 || q - 1 in heard || !InPhase(heard, q - 1)
  }

  // The peer takes over the key of cycle q + 1 when it hears of it in cycle q.
  ghost predicate Accepts(heard: set<nat>, q: nat) {
    InPhase(heard, q) && q in heard
  }

  /** The cycle whose key the peer uses in cycle q; None is what the peer had in its odd slot
      from the start. */
  ghost function Source(heard: set<nat>, q: nat): (r: Option<nat>)
    ensures r.Some? ==> r.value <= q
  {
    if q == 0 then Some(0)
    else if Accepts(heard, q - 1) then Some(q)
    else if q == 1 then None
    else Source(heard, q - 2)
  }

  ghost predicate AgreeBelow(g: set<nat>, h: set<nat>, q: nat) {
    forall r :: 0 <= r < q ==> (r in g <==> r in h)
  }

  // What happens in a cycle does not change the past.
  lemma {:induction false} PastStays(g: set<nat>, h: set<nat>, q: nat)
    requires AgreeBelow(g, h, q)
    ensures InPhase(g, q) <==> InPhase(h, q)
    ensures Source(g, q) == Source(h, q)
  {
    if q > 0 {
      PastStays(g, h, q - 1);
    }
    if q > 1 {
      PastStays(g, h, q - 2);
    }
  }

  // ---------- what every state satisfies ----------

  // The key the peer uses in cycle q.
  ghost function HeldKey(u: Setup, offered: seq<seq<bv8>>, heard: set<nat>, q: nat): seq<bv8> {
    match Source(heard, q)
    case Some(r) => K.CycleKey(u.c, u.box, offered, r)
    case None => u.peer.odd
  }

  // The two slots of the peer and the key flag it has in mind, m packets into cycle q.
  ghost predicate PeerInStep(u: Setup, p: Peer, offered: seq<seq<bv8>>, heard: set<nat>, q: nat) {
    && p.key == (if InPhase(heard, q) && q !in heard then K.CycleFlag(q) else K.CycleFlag(q + 1))
    && Slot(p.box, K.CycleFlag(q)) == HeldKey(u, offered, heard, q)
    && Slot(p.box, K.CycleFlag(q + 1)) == HeldKey(u, offered, heard, q + 1)
  }

  ghost predicate InStep(u: Setup, b: State, q: nat, m: nat) {
    && K.At(u.c, |b.offered|, q, m)
    && K.OnSchedule(u.c, u.box, b.offered, b.s, q, m)
    && (forall r :: r in b.heard ==> r <= q)
    && (q in b.heard ==> m >= u.c.announce)
    && PeerInStep(u, b.p, b.offered, b.heard, q)
  }

  // The key stream of the sender for n bytes under sequence number psn in the cycle of packet i.
  ghost function StreamAt(u: Setup, offered: seq<seq<bv8>>, i: nat, psn: bv32, n: nat): (stream: seq<bv8>)
    requires u.c.rate > 0 && |u.box.salt| == 16 && Sound(u.x)
    ensures |stream| == n
  {
    KeyStream(u.x, u.box.salt, K.CycleKey(u.c, u.box, offered, K.CycleAt(u.c, i)), psn, n)
  }

  // And that of the peer.
  ghost function HeldStream(u: Setup, offered: seq<seq<bv8>>, heard: set<nat>, i: nat, psn: bv32,
      n: nat): (stream: seq<bv8>)
    requires u.c.rate > 0 && |u.box.salt| == 16 && Sound(u.x)
    ensures |stream| == n
  {
    KeyStream(u.x, u.box.salt, HeldKey(u, offered, heard, K.CycleAt(u.c, i)), psn, n)
  }

  // What is sent as packet i and what the peer makes of it.
  ghost predicate Understood(u: Setup, offered: seq<seq<bv8>>, heard: set<nat>, i: nat, t: Transfer)
    requires u.c.rate > 0 && |u.box.salt| == 16 && Sound(u.x)
  {
    && t.wire == (if t.again then t.data else Xor(t.data, StreamAt(u, offered, i, t.psn, |t.data|)))
    && t.received == Xor(t.wire, HeldStream(u, offered, heard, i, t.psn, |t.wire|))
  }

  ghost predicate Inv(u: Setup, b: State)
    requires Ready(u)
  {
    && Lengths(u, b)
    && |b.log| == |b.offered|
    && (exists q: nat, m: nat :: InStep(u, b, q, m))
    && (forall i :: 0 <= i < |b.log| ==> Understood(u, b.offered, b.heard, i, b.log[i]))
  }

  lemma InstallKeeps(b: Box, k: Key, sek: seq<bv8>)
    requires Crypto.Valid(b) && |sek| == b.keyLength && (k == Even || k == Odd)
    ensures Crypto.Valid(Install(b, k, sek)) && Install(b, k, sek).salt == b.salt
            && Install(b, k, sek).keyLength == b.keyLength
    ensures Slot(Install(b, k, sek), k) == sek && Slot(Install(b, k, sek), Opposite(k)) == Slot(b, Opposite(k))
  {
  }

  // A key of the past does not depend on keys offered later.
  lemma HeldGrows(u: Setup, offered: seq<seq<bv8>>, newKey: seq<bv8>, heard: set<nat>, q: nat, m: nat)
    requires Ready(u) && K.At(u.c, |offered|, q, m) && (q in heard ==> m >= u.c.announce)
    ensures HeldKey(u, offered + [newKey], heard, q) == HeldKey(u, offered, heard, q)
    ensures HeldKey(u, offered + [newKey], heard, q + 1) == HeldKey(u, offered, heard, q + 1)
  {
    forall r: nat | r <= q ensures K.CycleKey(u.c, u.box, offered + [newKey], r) == K.CycleKey(u.c, u.box, offered, r) {
      PastKey(u.c, u.box, offered, newKey, q, r);
    }
    K.ScheduleGrows(u.c, u.box, offered, newKey, q, m);
  }

  lemma PastKey(c: K.Config, box: Box, offered: seq<seq<bv8>>, newKey: seq<bv8>, q: nat, r: nat)
    requires K.Validated(c) && r <= q && q * c.rate <= |offered|
    ensures K.CycleKey(c, box, offered + [newKey], r) == K.CycleKey(c, box, offered, r)
  {
    K.KeyIndexIs(c, r);
    if r < q {
      MulStep(r, q, c.rate);
    }
  }

  lemma {:induction false} MulStep(p: nat, q: nat, r: nat)
    requires p < q
    ensures p * r + r <= q * r
  {
    if p + 1 < q {
      MulStep(p, q - 1, r);
    }
    assert q * r == (q - 1) * r + r;
  }

  /** The peer after an announcement that may have arrived: it is taken exactly if the peer
      is in phase and has not heard of that key before. */
  lemma ToldInStep(u: Setup, b: State, q: nat, m: nat, newKey: seq<bv8>, arrives: bool)
    requires Ready(u) && Lengths(u, b) && InStep(u, b, q, m)
    ensures var out := K.Pop(u.c, b.s, newKey).out;
            var heard := if out.km.Some? && arrives then b.heard + {q} else b.heard;
            && (q in heard ==> m >= u.c.announce)
            && PeerInStep(u, Told(u, b, out.km, arrives), b.offered, heard, q)
  {
    var out := K.Pop(u.c, b.s, newKey).out;
    if out.km.Some? && arrives {
      var next, h := K.CycleFlag(q + 1), b.heard + {q};
      assert next == Opposite(b.s.key) && m >= u.c.announce;
      PastStays(b.heard, h, q);
      KeyMaterialArrives(u.x, b.s.box, b.p.box, u.passphrase, next);
      InstallKeeps(b.p.box, next, Slot(b.s.box, next));
      if !(InPhase(b.heard, q) && q !in b.heard) {
        assert Source(h, q + 1) == Source(b.heard, q + 1) by {
          SourceStays(b.heard, q);
        }
      }
    }
  }

  // An announcement that is refused changes nothing.
  lemma SourceStays(heard: set<nat>, q: nat)
    requires !InPhase(heard, q) || q in heard
    ensures Source(heard + {q}, q + 1) == Source(heard, q + 1)
  {
    if q in heard {
      assert heard + {q} == heard;
    } else {
      RefusedStays(heard, heard + {q}, q);
    }
  }

  lemma RefusedStays(g: set<nat>, h: set<nat>, q: nat)
    requires AgreeBelow(g, h, q) && !InPhase(g, q)
    ensures Source(g, q + 1) == Source(h, q + 1)
  {
    PastStays(g, h, q);
    PastStays(g, h, q - 1);
    SourceSkips(g, q + 1);
    SourceSkips(h, q + 1);
  }

  lemma SourceSkips(heard: set<nat>, q: nat)
    requires q >= 2 && !Accepts(heard, q - 1)
    ensures Source(heard, q) == Source(heard, q - 2)
  {
  }

  lemma PopLengths(u: Setup, b: State, newKey: seq<bv8>)
    requires Ready(u) && Lengths(u, b) && |newKey| == u.box.keyLength
    ensures var box := K.Pop(u.c, b.s, newKey).s.box;
            Crypto.Valid(box) && box.salt == b.s.box.salt && box.keyLength == b.s.box.keyLength
  {
  }

  // The slots change their parts when the key is switched.
  lemma PeerSwitches(u: Setup, p: Peer, offered: seq<seq<bv8>>, heard: set<nat>, q: nat)
    requires PeerInStep(u, p, offered, heard, q) && q + 1 !in heard
    ensures PeerInStep(u, p, offered, heard, q + 1)
  {
    assert K.CycleFlag(q + 2) == K.CycleFlag(q);
    SourceSkips(heard, q + 2);
  }

  lemma SendInStep(u: Setup, b: State, ev: Event, q: nat, m: nat)
    requires Ready(u) && Lengths(u, b) && InStep(u, b, q, m) && ev.Sends? && Enabled(u, ev)
    ensures var t := Next(u, b, ev);
            if m + 1 < u.c.rate then InStep(u, t, q, m + 1) else InStep(u, t, q + 1, 0)
  {
    var t := Next(u, b, ev);
    K.Positions(u.c, |b.offered|, q, m);
    K.PopOnSchedule(u.c, u.box, b.offered, b.s, q, m, ev.newKey);
    ToldInStep(u, b, q, m, ev.newKey, ev.arrives);
    HeldGrows(u, b.offered, ev.newKey, t.heard, q, m);
    assert PeerInStep(u, t.p, t.offered, t.heard, q);
    if m + 1 == u.c.rate {
      assert (q + 1) * u.c.rate == q * u.c.rate + u.c.rate;
      PeerSwitches(u, t.p, t.offered, t.heard, q);
    }
  }

  lemma SendUnderstood(u: Setup, b: State, ev: Event, q: nat, m: nat)
    requires Ready(u) && Lengths(u, b) && InStep(u, b, q, m) && ev.Sends? && Enabled(u, ev)
    requires |b.log| == |b.offered|
    ensures var t := Next(u, b, ev); Understood(u, t.offered, t.heard, |b.log|, t.log[|b.log|])
  {
    var t := Next(u, b, ev);
    K.Positions(u.c, |b.offered|, q, m);
    K.PopScheduled(u.c, u.box, b.offered, b.s, q, m, ev.newKey);
    ToldInStep(u, b, q, m, ev.newKey, ev.arrives);
    ToldLengths(u, b, K.Pop(u.c, b.s, ev.newKey).out.km, ev.arrives);
    HeldGrows(u, b.offered, ev.newKey, t.heard, q, m);
  }

  lemma UnderstoodGrows(u: Setup, b: State, newKey: seq<bv8>, heard: set<nat>, i: nat, q: nat, m: nat)
    requires Ready(u) && K.At(u.c, |b.offered|, q, m) && i < |b.offered| == |b.log|
    requires Understood(u, b.offered, b.heard, i, b.log[i]) && (heard == b.heard || heard == b.heard + {q})
    ensures Understood(u, b.offered + [newKey], heard, i, b.log[i])
  {
    var r := K.CycleAt(u.c, i);
    CycleOf(u.c, i, |b.offered|, q, m);
    PastStays(b.heard, heard, r);
    PastKey(u.c, u.box, b.offered, newKey, q, r);
    if Source(heard, r).Some? {
      PastKey(u.c, u.box, b.offered, newKey, q, Source(heard, r).value);
    }
  }

  lemma CycleOf(c: K.Config, i: nat, n: nat, q: nat, m: nat)
    requires c.rate > 0 && i <= n && K.At(c, n, q, m)
    ensures K.CycleAt(c, i) <= q
  {
    var r := K.CycleAt(c, i);
    K.Located(c, i);
    if q < r {
      MulStep(q, r, c.rate);
    }
  }

  lemma SendInv(u: Setup, b: State, ev: Event)
    requires Ready(u) && Inv(u, b) && ev.Sends? && Enabled(u, ev)
    ensures Inv(u, Next(u, b, ev))
  {
    var q: nat, m: nat :| InStep(u, b, q, m);
    SendInStep(u, b, ev, q, m);
    SendLengths(u, b, ev);
    LogUnderstood(u, b, ev, q, m);
  }

  lemma LogUnderstood(u: Setup, b: State, ev: Event, q: nat, m: nat)
    requires Ready(u) && Lengths(u, b) && InStep(u, b, q, m) && ev.Sends? && Enabled(u, ev)
    requires |b.log| == |b.offered| && forall i :: 0 <= i < |b.log| ==> Understood(u, b.offered, b.heard, i, b.log[i])
    ensures var t := Next(u, b, ev);
            |t.log| == |t.offered| && forall i :: 0 <= i < |t.log| ==> Understood(u, t.offered, t.heard, i, t.log[i])
  {
    var t := Next(u, b, ev);
    SendUnderstood(u, b, ev, q, m);
    K.Positions(u.c, |b.offered|, q, m);
    forall i | 0 <= i < |t.log| ensures Understood(u, t.offered, t.heard, i, t.log[i]) {
      if i < |b.log| {
        UnderstoodGrows(u, b, ev.newKey, t.heard, i, q, m);
      }
    }
  }

  lemma SendLengths(u: Setup, b: State, ev: Event)
    requires Ready(u) && Lengths(u, b) && ev.Sends? && Enabled(u, ev)
    ensures Lengths(u, Next(u, b, ev))
  {
    PopLengths(u, b, ev.newKey);
    ToldLengths(u, b, K.Pop(u.c, b.s, ev.newKey).out.km, ev.arrives);
  }

  lemma ConfirmInv(u: Setup, b: State)
    requires Ready(u) && Inv(u, b)
    ensures Inv(u, Next(u, b, Confirms))
  {
    var q: nat, m: nat :| InStep(u, b, q, m);
    assert InStep(u, Next(u, b, Confirms), q, m);
  }

  // ---------- runs ----------

  ghost predicate Leads(u: Setup, b: State, ev: Event, t: State)
    requires Ready(u)
  {
    Lengths(u, b) && Enabled(u, ev) && t == Next(u, b, ev)
  }

  ghost predicate Behaviour(u: Setup, bs: seq<State>, evs: seq<Event>)
    requires Ready(u)
  {
    && |bs| == |evs| + 1 && bs[0] == Init(u)
    && forall i :: 0 <= i < |evs| ==> Leads(u, bs[i], evs[i], bs[i + 1])
  }

  lemma {:induction false} AlwaysInv(u: Setup, bs: seq<State>, evs: seq<Event>, i: nat)
    requires Ready(u) && Behaviour(u, bs, evs) && i < |bs|
    ensures Inv(u, bs[i])
  {
    if i == 0 {
      InitInv(u);
    } else {
      AlwaysInv(u, bs, evs, i - 1);
      StepInv(u, bs[i - 1], evs[i - 1], bs[i]);
    }
  }

  lemma StepInv(u: Setup, b: State, ev: Event, t: State)
    requires Ready(u) && Inv(u, b) && Leads(u, b, ev, t)
    ensures Inv(u, t)
  {
    if ev.Sends? {
      SendInv(u, b, ev);
    } else {
      ConfirmInv(u, b);
    }
  }

  lemma InitInv(u: Setup)
    requires Ready(u)
    ensures Inv(u, Init(u))
  {
    InitInStep(u);
  }

  lemma InitInStep(u: Setup)
    requires Ready(u)
    ensures InStep(u, Init(u), 0, 0)
  {
    assert Source({}, 0) == Some(0) && Source({}, 1) == None;
  }

  lemma XorSame(a: seq<bv8>, s: seq<bv8>, t: seq<bv8>)
    requires |a| == |s| == |t|
    ensures Xor(Xor(a, s), t) == a <==> s == t
  {
    if s == t {
      XorTwice(a, s);
    } else {
      var i :| 0 <= i < |s| && s[i] != t[i];
      XorDiffersAt(a, s, t, i);
    }
  }

  lemma XorDiffersAt(a: seq<bv8>, s: seq<bv8>, t: seq<bv8>, i: nat)
    requires |a| == |s| == |t| && i < |s| && s[i] != t[i]
    ensures Xor(Xor(a, s), t)[i] != a[i]
  {
    XorByteDiffers(a[i], s[i], t[i]);
  }

  lemma XorByteDiffers(a: bv8, s: bv8, t: bv8)
    requires s != t
    ensures (a ^ s) ^ t != a
  {
  }

  // Packet k of the log carries the payload of packet j: it is that packet, or a retransmission.
  ghost predicate Carries(l: seq<Transfer>, j: nat, k: nat) {
    && j <= k < |l| && !l[j].again
    && (j < k ==> l[k].again && l[k].psn == l[j].psn && l[k].data == l[j].wire)
  }

  /** In a given run, a payload sent as packet j and received as packet k is understood exactly if
      the sender's key stream for j is the peer's for k. A retransmission keeps its ciphertext but
      is flagged with the key then in use. */
  lemma PayloadArrivesExactly(u: Setup, bs: seq<State>, evs: seq<Event>, i: nat, j: nat, k: nat)
    requires Ready(u) && Behaviour(u, bs, evs) && i < |bs| && Carries(bs[i].log, j, k)
    ensures var b := bs[i];
            var psn, n := b.log[j].psn, |b.log[j].data|;
            b.log[k].received == b.log[j].data <==>
            StreamAt(u, b.offered, j, psn, n) == HeldStream(u, b.offered, b.heard, k, psn, n)
  {
    AlwaysInv(u, bs, evs, i);
    PayloadIn(u, bs[i], j, k);
  }

  lemma PayloadIn(u: Setup, b: State, j: nat, k: nat)
    requires Ready(u) && Inv(u, b) && Carries(b.log, j, k)
    ensures var psn, n := b.log[j].psn, |b.log[j].data|;
            b.log[k].received == b.log[j].data <==>
            StreamAt(u, b.offered, j, psn, n) == HeldStream(u, b.offered, b.heard, k, psn, n)
  {
    var psn, n := b.log[j].psn, |b.log[j].data|;
    assert Understood(u, b.offered, b.heard, j, b.log[j]) && Understood(u, b.offered, b.heard, k, b.log[k]);
    XorSame(b.log[j].data, StreamAt(u, b.offered, j, psn, n), HeldStream(u, b.offered, b.heard, k, psn, n));
  }
}
