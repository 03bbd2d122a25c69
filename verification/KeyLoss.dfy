/** When payloads are understood although announcements of keys get lost: exactly, over all
    runs, ciphers and keys. */
module KeyLoss {
  import opened Crypto
  import opened Wrappers
  import opened KeyExchange
  import K = KeyRefresh

  // The payload of packet j, if packet k carries it, is understood.
  ghost predicate Readable(l: seq<Transfer>, j: nat, k: nat) {
    Carries(l, j, k) ==> l[k].received == l[j].data
  }

  // That is so in every run in which announcements of exactly these cycles arrive before the cycle
  // of packet k.
  ghost predicate AlwaysReadable(c: K.Config, heard: set<nat>, j: nat, k: nat)
    requires c.rate > 0
  {
    forall u: Setup, bs: seq<State>, evs: seq<Event>, i: nat ::
      Ready(u) && u.c == c && Behaviour(u, bs, evs) && i < |bs| && AgreeBelow(bs[i].heard, heard, K.CycleAt(c, k))
      ==> Readable(bs[i].log, j, k)
  }

  ghost predicate Announced(c: K.Config) {
    K.Validated(c) && 2 * c.announce < c.rate
  }

  // ---------- the theorems ----------

  /** A payload of packet j carried by packet k is always understood exactly if the key the peer
      uses in the cycle of k is that of the cycle of j. */
  lemma ReadableExactly(c: K.Config, heard: set<nat>, j: nat, k: nat)
    requires Announced(c) && j <= k
    ensures AlwaysReadable(c, heard, j, k) <==> Source(heard, K.CycleAt(c, k)) == Some(K.CycleAt(c, j))
  {
    if Source(heard, K.CycleAt(c, k)) == Some(K.CycleAt(c, j)) {
      forall u: Setup, bs: seq<State>, evs: seq<Event>, i: nat
        | Ready(u) && u.c == c && Behaviour(u, bs, evs) && i < |bs| && AgreeBelow(bs[i].heard, heard, K.CycleAt(c, k))
        ensures Readable(bs[i].log, j, k)
      {
        PastStays(bs[i].heard, heard, K.CycleAt(c, k));
        if Carries(bs[i].log, j, k) {
          PayloadArrivesExactly(u, bs, evs, i, j, k);
        }
      }
    } else {
      var u, bs, evs := UnreadableRun(c, heard, j, k);
      assert !Readable(bs[k + 1].log, j, k);
    }
  }

  /** A first transmission is always understood exactly in the first cycle and in those whose key
      the peer has accepted in the cycle before. */
  lemma FirstTransmissionsExactly(c: K.Config, heard: set<nat>, k: nat)
    requires Announced(c)
    ensures AlwaysReadable(c, heard, k, k) <==> K.CycleAt(c, k) == 0 || Accepts(heard, K.CycleAt(c, k) - 1)
  {
    ReadableExactly(c, heard, k, k);
    SourceIsOwn(heard, K.CycleAt(c, k));
  }

  lemma SourceIsOwn(heard: set<nat>, q: nat)
    ensures Source(heard, q) == Some(q) <==> q == 0 || Accepts(heard, q - 1)
  {
  }

  lemma {:induction false} AllHeard(heard: set<nat>, q: nat)
    requires forall r :: 0 <= r < q ==> r in heard
    ensures InPhase(heard, q) && Source(heard, q) == Some(q)
  {
    if q > 0 {
      AllHeard(heard, q - 1);
    }
  }

  /** If of every cycle one announcement arrives, the peer decrypts every first transmission to
      what was sent, across any number of key switches. */
  lemma FirstTransmissionsDecrypt(u: Setup, bs: seq<State>, evs: seq<Event>, i: nat, k: nat)
    requires Ready(u) && Behaviour(u, bs, evs) && i < |bs| && k < |bs[i].log| && !bs[i].log[k].again
    requires forall r :: 0 <= r < K.CycleAt(u.c, k) ==> r in bs[i].heard
    ensures bs[i].log[k].received == bs[i].log[k].data
  {
    AllHeard(bs[i].heard, K.CycleAt(u.c, k));
    PayloadArrivesExactly(u, bs, evs, i, k, k);
  }

  /** And retransmissions are safe exactly as long as the key has not been switched since the
      first transmission. */
  lemma RetransmissionsDecryptInCycleOnly(c: K.Config, heard: set<nat>, j: nat, k: nat)
    requires Announced(c) && j < k && forall r :: 0 <= r < K.CycleAt(c, k) ==> r in heard
    ensures AlwaysReadable(c, heard, j, k) <==> K.CycleAt(c, j) == K.CycleAt(c, k)
  {
    AllHeard(heard, K.CycleAt(c, k));
    ReadableExactly(c, heard, j, k);
  }

  /** A peer in phase that misses all announcements of cycle q cannot read the next two cycles,
      whatever it hears in between; the third one it reads exactly if it hears of its key. */
  lemma MissedCycleCostsTwo(c: K.Config, heard: set<nat>, q: nat, k: nat)
    requires Announced(c) && InPhase(heard, q) && q !in heard
    ensures q < K.CycleAt(c, k) <= q + 2 ==> !AlwaysReadable(c, heard, k, k)
    ensures K.CycleAt(c, k) == q + 3 ==> (AlwaysReadable(c, heard, k, k) <==> q + 2 in heard)
  {
    FirstTransmissionsExactly(c, heard, k);
    assert !Accepts(heard, q);
    assert !InPhase(heard, q + 1);
    assert InPhase(heard, q + 2);
  }

  // ---------- a run for every failing case ----------

  // A peer that has the right even key and whose cipher repeats one byte of it; if p is 0, it is
  // different from all keys made later.
  function ToySetup(c: K.Config, p: nat): Setup {
    var salt: seq<bv8> := [0, 0, 0, 0, 0, 0, 0, 0, 0, 0, 0, 0, 0, 0, 0, 0];
    var box := Box(1, salt, Colour(p, 0), [0]);
    Setup(ToySuite(), c, "", box, box)
  }

  lemma ToyReady(c: K.Config, p: nat)
    requires Announced(c)
    ensures Ready(ToySetup(c, p))
  {
    ToyIsSound();
  }

  // The key of cycle r: that of cycle p is unlike all others.
  function Colour(p: nat, r: nat): seq<bv8> {
    if r == p then [1] else [0]
  }

  function KeyMade(c: K.Config, p: nat, i: nat): seq<bv8> {
    if p > 0 && i == K.KeyIndex(c, p) then [1] else [0]
  }

  ghost predicate Coloured(c: K.Config, offered: seq<seq<bv8>>, p: nat) {
    forall i :: 0 <= i < |offered| ==> offered[i] == KeyMade(c, p, i)
  }

  // No response of the peer has come, and announcements arrive in the cycles `heard` says.
  ghost predicate Listening(u: Setup, b: State, heard: set<nat>, q: nat, m: nat) {
    && Lengths(u, b) && InStep(u, b, q, m) && !b.s.confirmed
    && AgreeBelow(b.heard, heard, q)
    && (q in b.heard <==> m >= K.Lead(u.c) && q in heard)
  }

  lemma ListeningStep(u: Setup, b: State, ev: Event, heard: set<nat>, q: nat, m: nat)
    requires Ready(u) && Listening(u, b, heard, q, m)
    requires ev.Sends? && Enabled(u, ev) && (ev.arrives <==> q in heard)
    ensures var t := Next(u, b, ev);
            if m + 1 < u.c.rate then Listening(u, t, heard, q, m + 1) else Listening(u, t, heard, q + 1, 0)
  {
    var t := Next(u, b, ev);
    K.Positions(u.c, |b.offered|, q, m);
    SendLengths(u, b, ev);
    SendInStep(u, b, ev, q, m);
    if m < K.Lead(u.c) {
      K.PopCounts(u.c, b.s, ev.newKey);
    }
    assert q in t.heard <==> m + 1 >= K.Lead(u.c) && q in heard;
    assert AgreeBelow(t.heard, heard, q);
  }

  // What has been sent up to packet k, which sends packet j again if it is another one.
  ghost predicate Sent(u: Setup, b: State, j: nat, k: nat)
    requires u.c.rate > 0
  {
    && |b.log| == |b.offered| && Coloured(u.c, b.offered, K.CycleAt(u.c, j))
    && (forall i :: 0 <= i < |b.log| && i < k ==> b.log[i].psn == 7 && b.log[i].data == [5] && !b.log[i].again)
    && (j <= k < |b.log| ==> Carries(b.log, j, k) && b.log[j].psn == 7 && |b.log[j].data| == 1)
  }

  // The packet sent after those of b.
  function Sending(u: Setup, b: State, heard: set<nat>, j: nat, k: nat): Event
    requires u.c.rate > 0 && j <= k && (|b.log| == k && j < k ==> j < |b.log|)
  {
    var n := |b.log|;
    var again := n == k && j < k;
    Sends(7, if again then b.log[j].wire else [5], again, KeyMade(u.c, K.CycleAt(u.c, j), n), K.CycleAt(u.c,
        n) in heard)
  }

  lemma NextRecords(u: Setup, b: State, ev: Event)
    requires Ready(u) && Lengths(u, b) && Enabled(u, ev) && ev.Sends?
    ensures var t := Next(u, b, ev);
            && t.offered == b.offered + [ev.newKey]
            && |t.log| == |b.log| + 1 && t.log[..|b.log|] == b.log
            && t.log[|b.log|].psn == ev.psn && t.log[|b.log|].data == ev.data && t.log[|b.log|].again == ev.again
  {
  }

  lemma SentGrows(u: Setup, b: State, t: State, ev: Event, heard: set<nat>, j: nat, k: nat)
    requires u.c.rate > 0 && j <= k && Sent(u, b, j, k) && ev == Sending(u, b, heard, j, k)
    requires t.offered == b.offered + [ev.newKey]
    requires |t.log| == |b.log| + 1 && t.log[..|b.log|] == b.log
    requires t.log[|b.log|].psn == ev.psn && t.log[|b.log|].data == ev.data && t.log[|b.log|].again == ev.again
    ensures Sent(u, t, j, k)
  {
    forall i | 0 <= i < |b.log| ensures t.log[i] == b.log[i] {
      assert t.log[i] == t.log[..|b.log|][i];
    }
  }

  lemma BehaviourGrows(u: Setup, bs: seq<State>, evs: seq<Event>, ev: Event, t: State)
    requires Ready(u) && Behaviour(u, bs, evs) && Leads(u, bs[|evs|], ev, t)
    ensures Behaviour(u, bs + [t], evs + [ev])
  {
    var cs, fs := bs + [t], evs + [ev];
    forall i | 0 <= i < |fs| ensures Leads(u, cs[i], fs[i], cs[i + 1]) {
      if i < |evs| {
        assert Leads(u, bs[i], evs[i], bs[i + 1]);
      }
    }
  }

  lemma StartListening(u: Setup, heard: set<nat>, j: nat, k: nat)
    requires Ready(u)
    ensures Listening(u, Init(u), heard, 0, 0) && Sent(u, Init(u), j, k)
  {
    InitInStep(u);
  }

  lemma {:induction false} SendingRun(u: Setup, heard: set<nat>, j: nat, k: nat, n: nat)
    returns (bs: seq<State>, evs: seq<Event>, q: nat, m: nat)
    requires Ready(u) && u.box.keyLength == 1 && j <= k
    ensures Behaviour(u, bs, evs) && |evs| == n
    ensures Listening(u, bs[n], heard, q, m) && Sent(u, bs[n], j, k) && |bs[n].log| == n
  {
    if n == 0 {
      StartListening(u, heard, j, k);
      bs, evs, q, m := [Init(u)], [], 0, 0;
    } else {
      var bs0, evs0, q0, m0 := SendingRun(u, heard, j, k, n - 1);
      var ev, t;
      ev, t, q, m := SendingStep(u, bs0[n - 1], heard, j, k, q0, m0);
      BehaviourGrows(u, bs0, evs0, ev, t);
      bs, evs := bs0 + [t], evs0 + [ev];
    }
  }

  lemma SendingStep(u: Setup, b: State, heard: set<nat>, j: nat, k: nat, q: nat, m: nat)
    returns (ev: Event, t: State, q': nat, m': nat)
    requires Ready(u) && u.box.keyLength == 1 && j <= k
    requires Listening(u, b, heard, q, m) && Sent(u, b, j, k)
    ensures Leads(u, b, ev, t) && Listening(u, t, heard, q', m') && Sent(u, t, j, k) && |t.log| == |b.log| + 1
  {
    ev := Sending(u, b, heard, j, k);
    K.Positions(u.c, |b.offered|, q, m);
    ListeningStep(u, b, ev, heard, q, m);
    t := Next(u, b, ev);
    NextRecords(u, b, ev);
    SentGrows(u, b, t, ev, heard, j, k);
    if m + 1 < u.c.rate {
      q', m' := q, m + 1;
    } else {
      q', m' := q + 1, 0;
    }
  }

  /** For every choice of cycles heard and of packets such that the peer uses another key than the
      payload was encrypted with: a run in which that payload comes out wrong. */
  lemma UnreadableRun(c: K.Config, heard: set<nat>, j: nat, k: nat)
    returns (u: Setup, bs: seq<State>, evs: seq<Event>)
    requires Announced(c) && j <= k && Source(heard, K.CycleAt(c, k)) != Some(K.CycleAt(c, j))
    ensures Ready(u) && u.c == c && Behaviour(u, bs, evs) && |bs| == k + 2
    ensures AgreeBelow(bs[k + 1].heard, heard, K.CycleAt(c, k))
    ensures !Readable(bs[k + 1].log, j, k)
  {
    u := ToySetup(c, K.CycleAt(c, j));
    ToyReady(c, K.CycleAt(c, j));
    var q, m;
    bs, evs, q, m := SendingRun(u, heard, j, k, k + 1);
    CycleOf(c, k, k + 1, q, m);
    PastStays(bs[k + 1].heard, heard, K.CycleAt(c, k));
    Unreadable(u, bs, evs, j, k);
  }

  lemma Unreadable(u: Setup, bs: seq<State>, evs: seq<Event>, j: nat, k: nat)
    requires Ready(u) && u == ToySetup(u.c, K.CycleAt(u.c, j)) && j <= k
    requires Behaviour(u, bs, evs) && |evs| == k + 1 && Sent(u, bs[k + 1], j, k) && |bs[k + 1].log| == k + 1
    requires Source(bs[k + 1].heard, K.CycleAt(u.c, k)) != Some(K.CycleAt(u.c, j))
    ensures !Readable(bs[k + 1].log, j, k)
  {
    PayloadArrivesExactly(u, bs, evs, k + 1, j, k);
    ToyStreams(u, bs[k + 1].offered, bs[k + 1].heard, j, k);
  }

  lemma ToyStreams(u: Setup, offered: seq<seq<bv8>>, heard: set<nat>, j: nat, k: nat)
    requires Ready(u) && u == ToySetup(u.c, K.CycleAt(u.c, j)) && j <= k
    requires |offered| == k + 1 && Coloured(u.c, offered, K.CycleAt(u.c, j))
    requires Source(heard, K.CycleAt(u.c, k)) != Some(K.CycleAt(u.c, j))
    ensures StreamAt(u, offered, j, 7, 1) != HeldStream(u, offered, heard, k, 7, 1)
  {
    var p, q := K.CycleAt(u.c, j), K.CycleAt(u.c, k);
    K.Located(u.c, k);
    CycleOf(u.c, j, k, q, k % u.c.rate);
    HeldColour(u, offered, heard, p, q);
    BegunIsMade(u.c, |offered|, q, p);
    CycleColour(u.c, u.box, offered, p, p);
    ToyStream(u.box.salt, [0]);
    ToyStream(u.box.salt, [1]);
  }

  lemma HeldColour(u: Setup, offered: seq<seq<bv8>>, heard: set<nat>, p: nat, q: nat)
    requires K.Validated(u.c) && u == ToySetup(u.c, p)
    requires q * u.c.rate < |offered| && Coloured(u.c, offered, p) && Source(heard, q) != Some(p)
    ensures HeldKey(u, offered, heard, q) == [0]
  {
    match Source(heard, q)
    case None =>
    case Some(r) =>
      BegunIsMade(u.c, |offered|, q, r);
      CycleColour(u.c, u.box, offered, p, r);
  }

  lemma ToyStream(salt: seq<bv8>, key: seq<bv8>)
    requires |salt| == 16 && |key| == 1 && Sound(ToySuite())
    ensures KeyStream(ToySuite(), salt, key, 7, 1) == key
  {
  }

  lemma CycleColour(c: K.Config, box: Box, offered: seq<seq<bv8>>, p: nat, r: nat)
    requires K.Validated(c) && Coloured(c, offered, p) && box.even == Colour(p, 0)
    requires r > 0 ==> K.KeyIndex(c, r) < |offered|
    ensures K.CycleKey(c, box, offered, r) == Colour(p, r)
  {
    if r > 0 {
      K.KeyIndexIs(c, r);
      K.KeyIndexIs(c, p);
      if r < p {
        MulStep(r, p, c.rate);
      } else if p < r {
        MulStep(p, r, c.rate);
      }
    }
  }

  // The key of a cycle that has begun is made.
  lemma BegunIsMade(c: K.Config, n: nat, q: nat, r: nat)
    requires K.Validated(c) && r <= q && q * c.rate <= n
    ensures r > 0 ==> K.KeyIndex(c, r) < n
  {
    K.KeyIndexIs(c, r);
    if r < q {
      MulStep(r, q, c.rate);
    }
  }
}
