/** Data packets that arrive late, after others and after key switches: when the peer still
    decrypts them. */
module KeyReorder {
  import opened Crypto
  import opened Wrappers
  import opened KeyExchange
  import opened KeyLoss
  import K = KeyRefresh

  // What the peer makes of packet k when it arrives in state b: its flag names the slot.
  ghost function Late(u: Setup, b: State, k: nat): seq<bv8>
    requires u.c.rate > 0 && Lengths(u, b) && k < |b.log|
  {
    var t := b.log[k];
    Xor(t.wire, KeyStream(u.x, b.p.box.salt, Slot(b.p.box, K.CycleFlag(K.CycleAt(u.c, k))), t.psn, |t.wire|))
  }

  // Of cycle r and the next one, that with the key flag of cycle q.
  function SameFlag(r: nat, q: nat): (s: nat)
    ensures K.CycleFlag(s) == K.CycleFlag(q) && (s == r || s == r + 1)
  {
    if r % 2 == q % 2 then r else r + 1
  }

  // The key in the slot a packet of cycle q is decrypted with, while the sender is in cycle r.
  ghost function SlotSource(heard: set<nat>, r: nat, q: nat): Option<nat> {
    Source(heard, SameFlag(r, q))
  }

  /** In a given run, a payload sent as packet j and carried by packet k is understood when k arrives
      in state b exactly if the sender's key stream for j is that of the slot. */
  lemma LateExactly(u: Setup, bs: seq<State>, evs: seq<Event>, i: nat, j: nat, k: nat)
    requires Ready(u) && Behaviour(u, bs, evs) && i < |bs| && Lengths(u, bs[i]) && Carries(bs[i].log, j, k)
    ensures var b := bs[i];
            var psn, n, s := b.log[j].psn, |b.log[j].data|, SameFlag(K.CycleAt(u.c, |b.offered|), K.CycleAt(u.c, k));
            Late(u, b, k) == b.log[j].data <==>
            StreamAt(u, b.offered, j, psn, n) == KeyStream(u.x, u.box.salt, HeldKey(u, b.offered, b.heard, s), psn, n)
  {
    AlwaysInv(u, bs, evs, i);
    LateIn(u, bs[i], j, k);
  }

  lemma SlotHolds(u: Setup, b: State, q: nat)
    requires Ready(u) && Inv(u, b)
    ensures var s := SameFlag(K.CycleAt(u.c, |b.offered|), q);
            Slot(b.p.box, K.CycleFlag(q)) == HeldKey(u, b.offered, b.heard, s)
  {
    var r: nat, m: nat :| InStep(u, b, r, m);
    K.Positions(u.c, |b.offered|, r, m);
  }

  lemma LateIn(u: Setup, b: State, j: nat, k: nat)
    requires Ready(u) && Inv(u, b) && Carries(b.log, j, k)
    ensures var psn, n, s := b.log[j].psn, |b.log[j].data|, SameFlag(K.CycleAt(u.c, |b.offered|), K.CycleAt(u.c, k));
            Late(u, b, k) == b.log[j].data <==>
            StreamAt(u, b.offered, j, psn, n) == KeyStream(u.x, u.box.salt, HeldKey(u, b.offered, b.heard, s), psn, n)
  {
    var psn, n := b.log[j].psn, |b.log[j].data|;
    var s := SameFlag(K.CycleAt(u.c, |b.offered|), K.CycleAt(u.c, k));
    SlotHolds(u, b, K.CycleAt(u.c, k));
    assert Understood(u, b.offered, b.heard, j, b.log[j]) && Understood(u, b.offered, b.heard, k, b.log[k]);
    XorSame(b.log[j].data, StreamAt(u, b.offered, j, psn, n),
            KeyStream(u.x, u.box.salt, HeldKey(u, b.offered, b.heard, s), psn, n));
  }

  // ---------- the theorems ----------

  ghost predicate LateReadable(u: Setup, b: State, j: nat, k: nat)
    requires u.c.rate > 0
  {
    Lengths(u, b) && Carries(b.log, j, k) ==> Late(u, b, k) == b.log[j].data
  }

  // That is so whenever n packets have been sent and announcements of exactly these cycles arrived.
  ghost predicate AlwaysLateReadable(c: K.Config, heard: set<nat>, n: nat, j: nat, k: nat)
    requires c.rate > 0
  {
    forall u: Setup, bs: seq<State>, evs: seq<Event>, i: nat ::
      Ready(u) && u.c == c && Behaviour(u, bs, evs) && i < |bs|
      && |bs[i].offered| == n && AgreeBelow(bs[i].heard, heard, K.CycleAt(c, n) + 1)
      ==> LateReadable(u, bs[i], j, k)
  }

  // An announcement of the current cycle can have arrived only once it is time to announce.
  ghost predicate Possible(c: K.Config, heard: set<nat>, n: nat)
    requires c.rate > 0
  {
    K.CycleAt(c, n) in heard ==> n % c.rate >= K.Lead(c)
  }

  /** A payload of packet j carried by packet k that arrives when n packets have been sent is always
      understood exactly if the slot that k names holds the key of the cycle of j. */
  lemma LateReadableExactly(c: K.Config, heard: set<nat>, n: nat, j: nat, k: nat)
    requires Announced(c) && j <= k < n && Possible(c, heard, n)
    ensures AlwaysLateReadable(c, heard, n, j, k) <==>
            SlotSource(heard, K.CycleAt(c, n), K.CycleAt(c, k)) == Some(K.CycleAt(c, j))
  {
    var r := K.CycleAt(c, n);
    var s := SameFlag(r, K.CycleAt(c, k));
    if Source(heard, s) == Some(K.CycleAt(c, j)) {
      forall u: Setup, bs: seq<State>, evs: seq<Event>, i: nat
        | Ready(u) && u.c == c && Behaviour(u, bs, evs) && i < |bs|
          && |bs[i].offered| == n && AgreeBelow(bs[i].heard, heard, r + 1)
        ensures LateReadable(u, bs[i], j, k)
      {
        PastStays(bs[i].heard, heard, s);
        if Lengths(u, bs[i]) && Carries(bs[i].log, j, k) {
          LateExactly(u, bs, evs, i, j, k);
        }
      }
    } else {
      var u, bs, evs := LateUnreadableRun(c, heard, n, j, k);
      assert !LateReadable(u, bs[n], j, k);
    }
  }

  /** If the peer hears of every key, a packet is understood however late it arrives, exactly
      until the peer takes over the key that replaces its own: that of two cycles later. */
  lemma LateUntilReplaced(c: K.Config, heard: set<nat>, n: nat, k: nat)
    requires Announced(c) && k < n && Possible(c, heard, n) && forall r :: 0 <= r < K.CycleAt(c, n) ==> r in heard
    ensures var q, r := K.CycleAt(c, k), K.CycleAt(c, n);
            AlwaysLateReadable(c, heard, n, k, k) <==> r == q || (r == q + 1 && r !in heard)
  {
    var q, r := K.CycleAt(c, k), K.CycleAt(c, n);
    K.Located(c, n);
    CycleOf(c, k, n, r, n % c.rate);
    LateReadableExactly(c, heard, n, k, k);
    SlotAllHeard(heard, r, q);
  }

  lemma SlotAllHeard(heard: set<nat>, r: nat, q: nat)
    requires q <= r && forall i :: 0 <= i < r ==> i in heard
    ensures SlotSource(heard, r, q) == Some(q) <==> r == q || (r == q + 1 && r !in heard)
  {
    AllHeard(heard, r);
    if r % 2 != q % 2 {
      if r in heard {
        AllHeard(heard, r + 1);
      } else {
        AllHeard(heard, r - 1);
        SourceSkips(heard, r + 1);
      }
    }
  }

  // ---------- a run for every failing case ----------

  lemma LateUnreadableRun(c: K.Config, heard: set<nat>, n: nat, j: nat, k: nat)
    returns (u: Setup, bs: seq<State>, evs: seq<Event>)
    requires Announced(c) && j <= k < n && Possible(c, heard, n)
    requires SlotSource(heard, K.CycleAt(c, n), K.CycleAt(c, k)) != Some(K.CycleAt(c, j))
    ensures Ready(u) && u.c == c && Behaviour(u, bs, evs) && |bs| == n + 1
    ensures |bs[n].offered| == n && AgreeBelow(bs[n].heard, heard, K.CycleAt(c, n) + 1)
    ensures !LateReadable(u, bs[n], j, k)
  {
    u := ToySetup(c, K.CycleAt(c, j));
    ToyReady(c, K.CycleAt(c, j));
    var q, m;
    bs, evs, q, m := SendingRun(u, heard, j, k, n);
    ListeningAgrees(u, bs[n], heard, n, q, m);
    LateUnreadable(u, bs, evs, heard, j, k, q, m);
  }

  lemma ListeningAgrees(u: Setup, b: State, heard: set<nat>, n: nat, q: nat, m: nat)
    requires Ready(u) && Listening(u, b, heard, q, m) && |b.offered| == n && Possible(u.c, heard, n)
    ensures K.CycleAt(u.c, n) == q && AgreeBelow(b.heard, heard, q + 1)
  {
    K.Positions(u.c, n, q, m);
  }

  lemma LateUnreadable(u: Setup, bs: seq<State>, evs: seq<Event>, heard: set<nat>, j: nat, k: nat, q: nat, m: nat)
    requires Ready(u) && u == ToySetup(u.c, K.CycleAt(u.c, j)) && j <= k < |evs|
    requires Behaviour(u, bs, evs) && Sent(u, bs[|evs|], j, k) && |bs[|evs|].log| == |evs|
    requires Listening(u, bs[|evs|], heard, q, m) && AgreeBelow(bs[|evs|].heard, heard, q + 1)
    requires SlotSource(heard, q, K.CycleAt(u.c, k)) != Some(K.CycleAt(u.c, j))
    ensures !LateReadable(u, bs[|evs|], j, k)
  {
    LateExactly(u, bs, evs, |evs|, j, k);
    LateDiffers(u, bs[|evs|], heard, j, k, q, m);
  }

  lemma LateDiffers(u: Setup, b: State, heard: set<nat>, j: nat, k: nat, q: nat, m: nat)
    requires Ready(u) && u == ToySetup(u.c, K.CycleAt(u.c, j)) && j <= k < |b.offered| && Sent(u, b, j, k)
    requires Listening(u, b, heard, q, m) && AgreeBelow(b.heard, heard, q + 1)
    requires SlotSource(heard, q, K.CycleAt(u.c, k)) != Some(K.CycleAt(u.c, j))
    ensures K.CycleAt(u.c, |b.offered|) == q
    ensures StreamAt(u, b.offered, j, 7, 1) !=
            KeyStream(u.x, u.box.salt, HeldKey(u, b.offered, b.heard, SameFlag(q, K.CycleAt(u.c, k))), 7, 1)
  {
    K.Positions(u.c, |b.offered|, q, m);
    PastStays(b.heard, heard, SameFlag(q, K.CycleAt(u.c, k)));
    LateColours(u, b.offered, b.heard, j, k, q, m);
  }

  lemma LateColours(u: Setup, offered: seq<seq<bv8>>, heard: set<nat>, j: nat, k: nat, q: nat, m: nat)
    requires Ready(u) && u == ToySetup(u.c, K.CycleAt(u.c, j)) && j <= k < |offered| && K.At(u.c, |offered|, q, m)
    requires Coloured(u.c, offered, K.CycleAt(u.c, j)) && (q in heard ==> m >= u.c.announce)
    requires SlotSource(heard, q, K.CycleAt(u.c, k)) != Some(K.CycleAt(u.c, j))
    ensures StreamAt(u, offered, j, 7, 1) !=
            KeyStream(u.x, u.box.salt, HeldKey(u, offered, heard, SameFlag(q, K.CycleAt(u.c, k))), 7, 1)
  {
    var p, s := K.CycleAt(u.c, j), SameFlag(q, K.CycleAt(u.c, k));
    CycleOf(u.c, j, |offered|, q, m);
    BegunIsMade(u.c, |offered|, q, p);
    CycleColour(u.c, u.box, offered, p, p);
    SlotColour(u, offered, heard, p, q, m, s);
    ToyStream(u.box.salt, [0]);
    ToyStream(u.box.salt, [1]);
  }

  lemma SlotColour(u: Setup, offered: seq<seq<bv8>>, heard: set<nat>, p: nat, q: nat, m: nat, s: nat)
    requires Ready(u) && u == ToySetup(u.c, p) && K.At(u.c, |offered|, q, m) && (s == q || s == q + 1)
    requires Coloured(u.c, offered, p) && (q in heard ==> m >= u.c.announce) && Source(heard, s) != Some(p)
    ensures HeldKey(u, offered, heard, s) == [0]
  {
    match Source(heard, s)
    case None =>
    case Some(r) =>
      if r <= q {
        BegunIsMade(u.c, |offered|, q, r);
      } else {
        SourceIsOwn(heard, q + 1);
        K.KeyIndexIs(u.c, q);
      }
      CycleColour(u.c, u.box, offered, p, r);
  }
}
