/** The key refresh of an encrypted connection (connection.go, pop): two countdowns decide when
    the next key is made, announced and switched to (sections 3.2.2 and 6.1.6 of
    draft-sharabayko-srt). */
module KeyRefresh {
  import opened Crypto
  import opened Wrappers
  import C = Circular

  type U64 = x: int | 0 <= x < 0x1_0000_0000_0000_0000

  // KMRefreshRate and KMPreAnnounce.
  datatype Config = Config(rate: U64, announce: U64)

  // What Config.Validate lets pass, apart from a rate of 0.
  ghost predicate Validated(c: Config) {
    1 <= c.announce && 2 * c.announce <= c.rate
  }

  // The packets of a cycle before announcing begins, in uint64 arithmetic.
  function Lead(c: Config): U64 {
    if c.announce <= c.rate then c.rate - c.announce else c.rate - c.announce + 0x1_0000_0000_0000_0000
  }

  datatype State = State(key: Key, preAnnounce: nat, refresh: nat, confirmed: bool, box: Box)

  // What pop does to a data packet: the key flag it gets and the session key in that slot, and
  // the announcement sent before it, as key flag and session key.
  datatype Announcement = Announcement(key: Key, sek: seq<bv8>)
  datatype Out = Out(key: Key, sek: seq<bv8>, km: Option<Announcement>)

  datatype Popped = Popped(s: State, out: Out)

  // The countdowns are uint64.
  function Dec(x: nat): nat {
    if x == 0 then 0xFFFF_FFFF_FFFF_FFFF else x - 1
  }

  function Init(c: Config, box: Box): State {
    State(Even, Lead(c), c.rate, false, box)
  }

  // How many packets apart an unconfirmed announcement is repeated.
  function Pace(c: Config): nat {
    c.announce / 10 + 1
  }

  // `newKey` is what the random source yields if a key is to be made.
  function Pop(c: Config, s: State, newKey: seq<bv8>): Popped {
    var pre, refresh := Dec(s.preAnnounce), Dec(s.refresh);
    var next := Opposite(s.key);
    var announces := pre == 0 && !s.confirmed;
    var km := if announces then Some(Announcement(next, Slot(s.box, next))) else None;
    var t :=
      if refresh == 0 then State(next, Lead(c), c.rate, false, s.box)
      else State(s.key, if announces then Pace(c) else pre, refresh, s.confirmed, s.box);
    var u := if t.refresh == Lead(c) then t.(box := Install(t.box, Opposite(t.key), newKey)) else t;
    Popped(u, Out(s.key, Slot(s.box, s.key), km))
  }

  // handleKMResponse: ignored outside the pre-announce period.
  function Confirm(c: Config, s: State): State {
    if s.preAnnounce >= c.announce then s else s.(confirmed := true)
  }

  class RefreshMachine {
    const c: Config
    var keyBaseEncryption: Key
    var kmPreAnnounceCountdown: nat
    var kmRefreshCountdown: nat
    var kmConfirmed: bool
    var crypto: Box

    function Value(): State
      reads this
    {
      State(keyBaseEncryption, kmPreAnnounceCountdown, kmRefreshCountdown, kmConfirmed, crypto)
    }

    constructor (c: Config, crypto: Box)
      ensures this.c == c && Value() == Init(c, crypto)
    {
      this.c := c;
      keyBaseEncryption, kmConfirmed := Even, false;
      kmPreAnnounceCountdown, kmRefreshCountdown := Lead(c), c.rate;
      this.crypto := crypto;
    }

    method PopData(newKey: seq<bv8>) returns (out: Out)
      modifies this
      ensures Popped(Value(), out) == Pop(c, old(Value()), newKey)
    {
      out := Out(keyBaseEncryption, Slot(crypto, keyBaseEncryption), None);
      kmPreAnnounceCountdown := Dec(kmPreAnnounceCountdown);
      kmRefreshCountdown := Dec(kmRefreshCountdown);
      if kmPreAnnounceCountdown == 0 && !kmConfirmed {
        var next := Opposite(keyBaseEncryption);
        out := out.(km := Some(Announcement(next, Slot(crypto, next))));
        // Repeat until there is a response.
        kmPreAnnounceCountdown := c.announce / 10 + 1;
      }
      if kmRefreshCountdown == 0 {
        kmPreAnnounceCountdown := Lead(c);
        kmRefreshCountdown := c.rate;
        keyBaseEncryption := Opposite(keyBaseEncryption);
        kmConfirmed := false;
      }
      if kmRefreshCountdown == Lead(c) {
        crypto := Install(crypto, Opposite(keyBaseEncryption), newKey);
      }
    }

    method HandleKMResponse()
      modifies this
      ensures Value() == Confirm(c, old(Value()))
    {
      if kmPreAnnounceCountdown >= c.announce {
        return;
      }
      kmConfirmed := true;
    }
  }

  // ---------- runs ----------

  // A run: packets popped, with the random key offered each time, and responses of the peer.
  datatype Event = Pops(newKey: seq<bv8>) | Confirms

  function After(c: Config, box: Box, evs: seq<Event>): State {
    if evs == [] then Init(c, box)
    else
      var s := After(c, box, evs[..|evs| - 1]);
      match evs[|evs| - 1]
      case Pops(newKey) => Pop(c, s, newKey).s
      case Confirms => Confirm(c, s)
  }

  function Outs(c: Config, box: Box, evs: seq<Event>): seq<Out> {
    if evs == [] then []
    else
      var outs := Outs(c, box, evs[..|evs| - 1]);
      match evs[|evs| - 1]
      case Pops(newKey) => outs + [Pop(c, After(c, box, evs[..|evs| - 1]), newKey).out]
      case Confirms => outs
  }

  // The random keys offered, one for each packet.
  function Offered(evs: seq<Event>): seq<seq<bv8>> {
    if evs == [] then []
    else
      var before := Offered(evs[..|evs| - 1]);
      match evs[|evs| - 1] case Pops(newKey) => before + [newKey] case Confirms => before
  }

  /** The key schedule, without the machine: cycle 0 uses the even key of the handshake, every
      later cycle the key made when packet number `announce` of the cycle before was sent. */
  function CycleKey(c: Config, box: Box, offered: seq<seq<bv8>>, q: nat): seq<bv8> {
    if q == 0 then box.even
    else
      var at := KeyIndex(c, q);
      if 0 <= at < |offered| then offered[at] else []
  }

  // The packet with which the key of cycle q is made.
  function KeyIndex(c: Config, q: nat): int {
    (q - 1) * c.rate + c.announce - 1
  }

  lemma KeyIndexIs(c: Config, q: nat)
    ensures KeyIndex(c, q) == q * c.rate - c.rate + c.announce - 1
    ensures KeyIndex(c, q + 1) == q * c.rate + c.announce - 1
    ensures q > 0 ==> q * c.rate >= c.rate
  {
    assert (q - 1) * c.rate == q * c.rate - c.rate;
    assert q > 0 ==> (q - 1) * c.rate >= 0;
  }

  // The key flag of cycle q.
  function CycleFlag(q: nat): Key {
    if q % 2 == 0 then Even else Odd
  }

  // The cycle of packet i.
  function CycleAt(c: Config, i: nat): (q: nat)
    requires c.rate > 0
  {
    assert i / c.rate >= 0 by {
      C.QuotientNatural(i, c.rate);
    }
    i / c.rate
  }

  // Where n packets stand: m packets into cycle q.
  ghost predicate At(c: Config, n: nat, q: nat, m: nat) {
    n == q * c.rate + m && m < c.rate
  }

  /** The state after n packets. */
  ghost predicate OnSchedule(c: Config, box: Box, offered: seq<seq<bv8>>, s: State, q: nat, m: nat) {
    && s.refresh == c.rate - m
    && s.key == CycleFlag(q)
    && Slot(s.box, s.key) == CycleKey(c, box, offered, q)
    && (m >= c.announce ==> Slot(s.box, Opposite(s.key)) == CycleKey(c, box, offered, q + 1))
    && (m < c.rate - c.announce ==> s.preAnnounce == c.rate - c.announce - m)
  }

  lemma PopOnSchedule(c: Config, box: Box, offered: seq<seq<bv8>>, s: State, q: nat, m: nat, newKey: seq<bv8>)
    requires Validated(c) && At(c, |offered|, q, m) && OnSchedule(c, box, offered, s, q, m)
    ensures var t := Pop(c, s, newKey).s;
            if m + 1 < c.rate then OnSchedule(c, box, offered + [newKey], t, q, m + 1)
            else OnSchedule(c, box, offered + [newKey], t, q + 1, 0)
  {
    ScheduleGrows(c, box, offered, newKey, q, m);
    if m + 1 == c.announce {
      MadeNow(c, box, offered, newKey, q, m);
    }
    FlagFlips(q);
  }

  lemma FlagFlips(q: nat)
    ensures CycleFlag(q + 1) == Opposite(CycleFlag(q))
  {
  }

  // The keys of the cycles reached do not change any more.
  lemma ScheduleGrows(c: Config, box: Box, offered: seq<seq<bv8>>, newKey: seq<bv8>, q: nat, m: nat)
    requires Validated(c) && At(c, |offered|, q, m)
    ensures CycleKey(c, box, offered + [newKey], q) == CycleKey(c, box, offered, q)
    ensures m >= c.announce ==> CycleKey(c, box, offered + [newKey], q + 1) == CycleKey(c, box, offered, q + 1)
  {
    KeyIndexIs(c, q);
  }

  lemma MadeNow(c: Config, box: Box, offered: seq<seq<bv8>>, newKey: seq<bv8>, q: nat, m: nat)
    requires Validated(c) && At(c, |offered|, q, m) && m + 1 == c.announce
    ensures CycleKey(c, box, offered + [newKey], q + 1) == newKey
  {
    KeyIndexIs(c, q);
  }

  // How often the key was switched.
  function Switches(c: Config, box: Box, evs: seq<Event>): nat {
    if evs == [] then 0
    else
      var before := evs[..|evs| - 1];
      Switches(c, box, before) + if After(c, box, evs).key != After(c, box, before).key then 1 else 0
  }

  lemma {:induction false} RunOnSchedule(c: Config, box: Box, evs: seq<Event>) returns (q: nat, m: nat)
    requires Validated(c)
    ensures At(c, |Offered(evs)|, q, m) && Switches(c, box, evs) == q
    ensures OnSchedule(c, box, Offered(evs), After(c, box, evs), q, m)
    ensures |Outs(c, box, evs)| == |Offered(evs)|
  {
    if evs == [] {
      q, m := 0, 0;
    } else {
      var before, ev := evs[..|evs| - 1], evs[|evs| - 1];
      q, m := RunOnSchedule(c, box, before);
      if ev.Pops? {
        PopOnSchedule(c, box, Offered(before), After(c, box, before), q, m, ev.newKey);
        if m + 1 < c.rate {
          m := m + 1;
        } else {
          assert (q + 1) * c.rate == q * c.rate + c.rate;
          q, m := q + 1, 0;
        }
      }
    }
  }

  lemma Located(c: Config, i: nat)
    requires c.rate > 0
    ensures At(c, i, CycleAt(c, i), i % c.rate)
  {
  }

  lemma Positions(c: Config, n: nat, q: nat, m: nat)
    requires c.rate > 0 && At(c, n, q, m)
    ensures n / c.rate == q && n % c.rate == m && CycleAt(c, n) == q
  {
    C.DivModUnique(n, c.rate, q, m);
  }

  /** After n packets, whatever the peer confirmed in between, the refresh countdown is
      rate - n mod rate and the key was switched n / rate times. */
  lemma CountdownTracks(c: Config, box: Box, evs: seq<Event>)
    requires Validated(c)
    ensures var n, s := |Offered(evs)|, After(c, box, evs);
            && s.refresh == c.rate - n % c.rate
            && Switches(c, box, evs) == n / c.rate && s.key == CycleFlag(n / c.rate)
  {
    var q, m := RunOnSchedule(c, box, evs);
    Positions(c, |Offered(evs)|, q, m);
  }

  // A countdown that started at x, n packets later, in uint64 arithmetic.
  ghost function Countdown(x: U64, n: nat): int {
    if n <= x then x - n else x - n + 0x1_0000_0000_0000_0000
  }

  /** A refresh rate of 0, which validation lets pass, keeps the first key: before the countdowns
      wrap, nothing is announced and every packet goes out under the even key. */
  lemma {:induction false} RateZeroKeepsKey(c: Config, box: Box, evs: seq<Event>)
    requires c.rate == 0 && |Offered(evs)| < 0x1_0000_0000_0000_0000 - c.announce
    ensures var s := After(c, box, evs);
            s.key == Even && s.refresh == Countdown(0, |Offered(evs)|)
                && s.preAnnounce == Countdown(Lead(c), |Offered(evs)|)
    ensures After(c, box, evs).box.even == box.even
    ensures forall i :: 0 <= i < |Outs(c, box, evs)| ==> Outs(c, box, evs)[i] == Out(Even, box.even, None)
  {
    if evs != [] {
      RateZeroKeepsKey(c, box, evs[..|evs| - 1]);
    }
  }

  // ---------- what is announced ----------

  /** Packet i goes out under the key of its cycle; an announcement is sent with it only at the end
      of the cycle, and carries the key of the next one. */
  ghost predicate Scheduled(c: Config, box: Box, offered: seq<seq<bv8>>, i: nat, out: Out)
    requires c.rate > 0
  {
    var q := i / c.rate;
    && out.key == CycleFlag(q)
    && out.sek == CycleKey(c, box, offered, q)
    && (out.km.Some? ==>
          && i % c.rate + 1 >= c.rate - c.announce
          && out.km.value == Announcement(CycleFlag(q + 1), CycleKey(c, box, offered, q + 1)))
  }

  lemma PopScheduled(c: Config, box: Box, offered: seq<seq<bv8>>, s: State, q: nat, m: nat, newKey: seq<bv8>)
    requires Validated(c) && 2 * c.announce < c.rate
    requires At(c, |offered|, q, m) && OnSchedule(c, box, offered, s, q, m)
    ensures Scheduled(c, box, offered + [newKey], |offered|, Pop(c, s, newKey).out)
  {
    Positions(c, |offered|, q, m);
    PopAt(c, box, offered, s, q, m, newKey);
  }

  // The same with the cycle given.
  lemma PopAt(c: Config, box: Box, offered: seq<seq<bv8>>, s: State, q: nat, m: nat, newKey: seq<bv8>)
    requires Validated(c) && 2 * c.announce < c.rate
    requires At(c, |offered|, q, m) && OnSchedule(c, box, offered, s, q, m)
    ensures var out := Pop(c, s, newKey).out;
            && out.key == CycleFlag(q)
            && out.sek == CycleKey(c, box, offered + [newKey], q)
            && (out.km.Some? ==>
                  && m + 1 >= c.rate - c.announce
                  && out.km.value == Announcement(CycleFlag(q + 1), CycleKey(c, box, offered + [newKey], q + 1)))
  {
    ScheduleGrows(c, box, offered, newKey, q, m);
    FlagFlips(q);
  }

  lemma {:induction false} OutsScheduled(c: Config, box: Box, evs: seq<Event>)
    requires Validated(c) && 2 * c.announce < c.rate
    ensures |Outs(c, box, evs)| == |Offered(evs)|
    ensures forall i :: 0 <= i < |Outs(c, box, evs)| ==> Scheduled(c, box, Offered(evs), i, Outs(c, box, evs)[i])
  {
    if evs != [] {
      var before, ev := evs[..|evs| - 1], evs[|evs| - 1];
      OutsScheduled(c, box, before);
      var q, m := RunOnSchedule(c, box, before);
      if ev.Pops? {
        PopScheduled(c, box, Offered(before), After(c, box, before), q, m, ev.newKey);
        forall i | 0 <= i < |Outs(c, box, before)| ensures Scheduled(c, box, Offered(evs), i, Outs(c, box, evs)[i]) {
          ScheduledGrows(c, box, Offered(before), ev.newKey, i, Outs(c, box, before)[i]);
        }
      }
    }
  }

  lemma ScheduledGrows(c: Config, box: Box, offered: seq<seq<bv8>>, newKey: seq<bv8>, i: nat, out: Out)
    requires Validated(c) && 2 * c.announce < c.rate && i < |offered| && Scheduled(c, box, offered, i, out)
    ensures Scheduled(c, box, offered + [newKey], i, out)
  {
    KeyIndexIs(c, i / c.rate);
    assert i == (i / c.rate) * c.rate + i % c.rate;
  }

  // ---------- when that is so ----------

  function Repeated(newKey: seq<bv8>, k: nat): seq<Event> {
    if k == 0 then [] else Repeated(newKey, k - 1) + [Pops(newKey)]
  }

  lemma {:induction false} RepeatedLast(newKey: seq<bv8>, k: nat)
    ensures |Repeated(newKey, k)| == k
    ensures k > 0 ==>
              Repeated(newKey, k)[..k - 1] == Repeated(newKey, k - 1) && Repeated(newKey, k)[k - 1] == Pops(newKey)
  {
    if k > 0 {
      RepeatedLast(newKey, k - 1);
    }
  }

  lemma {:induction false} RepeatedOffers(newKey: seq<bv8>, k: nat)
    ensures |Offered(Repeated(newKey, k))| == k
  {
    RepeatedLast(newKey, k);
    if k > 0 {
      RepeatedOffers(newKey, k - 1);
    }
  }

  // k packets into the first cycle, before a key is made.
  ghost function Early(c: Config, box: Box, k: nat): State
    requires Validated(c) && k < c.announce
  {
    State(Even, c.rate - c.announce - k, c.rate - k, false, box)
  }

  lemma {:induction false} EarlyRun(c: Config, box: Box, newKey: seq<bv8>, k: nat)
    requires Validated(c) && k < c.announce
    ensures After(c, box, Repeated(newKey, k)) == Early(c, box, k)
  {
    if k > 0 {
      var before := Repeated(newKey, k - 1);
      EarlyRun(c, box, newKey, k - 1);
      assert Repeated(newKey, k) == before + [Pops(newKey)];
      AfterPop(c, box, before, newKey);
      EarlyPop(c, box, newKey, k - 1);
    }
  }

  lemma AfterPop(c: Config, box: Box, evs: seq<Event>, newKey: seq<bv8>)
    ensures After(c, box, evs + [Pops(newKey)]) == Pop(c, After(c, box, evs), newKey).s
  {
    assert (evs + [Pops(newKey)])[..|evs|] == evs;
  }

  lemma EarlyPop(c: Config, box: Box, newKey: seq<bv8>, k: nat)
    requires Validated(c) && k + 1 < c.announce
    ensures Pop(c, Early(c, box, k), newKey).s == Early(c, box, k + 1)
  {
  }

  // With announce exactly half of rate, the first announcement goes out just before the key
  // it should carry is made.
  lemma StaleAnnouncement(c: Config) returns (box: Box, evs: seq<Event>)
    requires Validated(c) && 2 * c.announce == c.rate
    ensures var i := c.announce - 1;
            i < |Outs(c, box, evs)| && !Scheduled(c, box, Offered(evs), i, Outs(c, box, evs)[i])
  {
    var k, newKey: seq<bv8> := c.announce - 1, [1];
    box := Box(1, [], [], [0]);
    var before := Repeated(newKey, k);
    evs := before + [Pops(newKey)];
    EarlyRun(c, box, newKey, k);
    RepeatedOffers(newKey, k);
    var _, _ := RunOnSchedule(c, box, before);
    LastPop(c, box, before, newKey);
    StaleOut(c, box, newKey);
    KeyIndexIs(c, 0);
    assert CycleKey(c, box, Offered(evs), 1) == newKey;
    WrongAnnouncement(c, box, Offered(evs), k, Outs(c, box, evs)[k]);
  }

  lemma LastPop(c: Config, box: Box, evs: seq<Event>, newKey: seq<bv8>)
    ensures Outs(c, box, evs + [Pops(newKey)]) == Outs(c, box, evs) + [Pop(c, After(c, box, evs), newKey).out]
    ensures Offered(evs + [Pops(newKey)]) == Offered(evs) + [newKey]
  {
    assert (evs + [Pops(newKey)])[..|evs|] == evs;
  }

  lemma WrongAnnouncement(c: Config, box: Box, offered: seq<seq<bv8>>, i: nat, out: Out)
    requires i < c.rate && out.km.Some? && out.km.value.sek != CycleKey(c, box, offered, 1)
    ensures !Scheduled(c, box, offered, i, out)
  {
    Positions(c, i, 0, i);
  }

  // The packet that makes the first key announces what was in the slot before.
  lemma StaleOut(c: Config, box: Box, newKey: seq<bv8>)
    requires Validated(c) && 2 * c.announce == c.rate
    ensures Pop(c, Early(c, box, c.announce - 1), newKey).out.km == Some(Announcement(Odd, box.odd))
  {
  }

  ghost predicate AlwaysScheduled(c: Config)
    requires Validated(c)
  {
    forall box, evs, i :: 0 <= i < |Outs(c, box, evs)| ==> Scheduled(c, box, Offered(evs), i, Outs(c, box, evs)[i])
  }

  /** Of the configurations that pass validation, exactly those with announce below half of rate
      keep every announcement and every packet on the schedule. */
  lemma ScheduledExactly(c: Config)
    requires Validated(c)
    ensures AlwaysScheduled(c) <==> 2 * c.announce < c.rate
  {
    if 2 * c.announce < c.rate {
      forall box, evs, i | 0 <= i < |Outs(c, box, evs)|
        ensures Scheduled(c, box, Offered(evs), i, Outs(c, box, evs)[i])
      {
        OutsScheduled(c, box, evs);
      }
    } else {
      var box, evs := StaleAnnouncement(c);
    }
  }

  // ---------- how often ----------

  datatype Many = Many(s: State, announced: nat)

  // Popping packets one after the other, with no response, and counting announcements.
  function PopMany(c: Config, s: State, newKeys: seq<seq<bv8>>): Many {
    if newKeys == [] then Many(s, 0)
    else
      var before := PopMany(c, s, newKeys[..|newKeys| - 1]);
      var p := Pop(c, before.s, newKeys[|newKeys| - 1]);
      Many(p.s, before.announced + if p.out.km.Some? then 1 else 0)
  }

  // What one packet does to the countdowns while no response has come.
  lemma PopCounts(c: Config, s: State, newKey: seq<bv8>)
    requires Validated(c) && !s.confirmed && s.preAnnounce >= 1 && s.refresh >= 1
    ensures var p := Pop(c, s, newKey);
            && (p.out.km.Some? <==> s.preAnnounce == 1)
            && (s.refresh > 1 ==>
                  && p.s.refresh == s.refresh - 1 && !p.s.confirmed
                  && p.s.preAnnounce == if s.preAnnounce == 1 then Pace(c) else s.preAnnounce - 1)
  {
  }

  // k packets into the cycle, the repetition being b packets after its a-th round.
  ghost predicate Progress(c: Config, r: Many, k: nat, a: nat, b: nat) {
    var lead := c.rate - c.announce;
    && (k < c.rate ==> r.s.refresh == c.rate - k && !r.s.confirmed)
    && (k < lead ==> r.announced == 0 && r.s.preAnnounce == lead - k)
    && (k >= lead ==> b < Pace(c) && r.announced == a + 1)
    && (lead <= k < c.rate ==> r.s.preAnnounce == Pace(c) - b)
  }

  lemma PopProgress(c: Config, r: Many, k: nat, a: nat, b: nat, newKey: seq<bv8>) returns (a': nat, b': nat)
    requires Validated(c) && k < c.rate && Progress(c, r, k, a, b)
    ensures var p := Pop(c, r.s, newKey);
            Progress(c, Many(p.s, r.announced + if p.out.km.Some? then 1 else 0), k + 1, a', b')
    ensures k + 1 == c.rate - c.announce ==> a' == b' == 0
    ensures k >= c.rate - c.announce ==> (a' == a && b' == b + 1) || (b + 1 == Pace(c) && a' == a + 1 && b' == 0)
  {
    PopCounts(c, r.s, newKey);
    if k < c.rate - c.announce {
      a', b' := 0, 0;
    } else if b + 1 == Pace(c) {
      a', b' := a + 1, 0;
    } else {
      a', b' := a, b + 1;
    }
  }

  lemma {:induction false} CycleProgress(c: Config, s: State, newKeys: seq<seq<bv8>>) returns (a: nat, b: nat)
    requires Validated(c) && |newKeys| <= c.rate
    requires s.preAnnounce == c.rate - c.announce && s.refresh == c.rate && !s.confirmed
    ensures Progress(c, PopMany(c, s, newKeys), |newKeys|, a, b)
    ensures |newKeys| >= c.rate - c.announce ==> |newKeys| - (c.rate - c.announce) == a * Pace(c) + b
  {
    a, b := 0, 0;
    var k := |newKeys|;
    if k > 0 {
      var a0, b0 := CycleProgress(c, s, newKeys[..k - 1]);
      a, b := PopProgress(c, PopMany(c, s, newKeys[..k - 1]), k - 1, a0, b0, newKeys[k - 1]);
      assert (a0 + 1) * Pace(c) == a0 * Pace(c) + Pace(c);
    }
  }

  lemma PaceBounds(p: nat, s: nat, a: nat, b: nat)
    requires p >= 1 && s == p / 10 + 1 && p == a * s + b && b < s
    ensures 1 <= a <= 9
  {
    assert a == 0 ==> a * s == 0;
    assert a >= 10 ==> (a - 10) * s >= 0;
  }

  /** A cycle in which the peer does not respond sends announce / (announce / 10 + 1) + 1
      announcements, which is between two and ten. */
  lemma AnnouncementsPerCycle(c: Config, s: State, newKeys: seq<seq<bv8>>)
    requires Validated(c) && |newKeys| == c.rate
    requires s.preAnnounce == c.rate - c.announce && s.refresh == c.rate && !s.confirmed
    ensures PopMany(c, s, newKeys).announced == c.announce / (c.announce / 10 + 1) + 1
    ensures 2 <= PopMany(c, s, newKeys).announced <= 10
  {
    var a, b := CycleProgress(c, s, newKeys);
    PaceBounds(c.announce, Pace(c), a, b);
    C.DivModUnique(c.announce, Pace(c), a, b);
  }
}
