/** Exactly which packets carry an announcement of the next key, over all runs with responses of the
    peer at any time (connection.go, pop and handleKMResponse). */
module KeyAnnounce {
  import opened Crypto
  import opened Wrappers
  import opened KeyRefresh
  import C = Circular

  // How many packets of the current cycle have been sent.
  function InCycle(c: Config, evs: seq<Event>): (m: nat)
    requires c.rate > 0
  {
    |Offered(evs)| % c.rate
  }

  /** A response that comes when m packets of the cycle have been sent counts: fewer than `announce`
      packets before announcing begins, or later. With `announce` 1 none ever counts. */
  predicate CountsAt(c: Config, m: nat) {
    c.announce >= 2 && c.rate < m + 2 * c.announce
  }

  /** The peer has responded in the current cycle, and the response counted. */
  predicate Answered(c: Config, evs: seq<Event>)
    requires c.rate > 0
  {
    if evs == [] then false
    else
      var before := evs[..|evs| - 1];
      match evs[|evs| - 1]
      case Pops(_) => InCycle(c, evs) != 0 && Answered(c, before)
      case Confirms => Answered(c, before) || CountsAt(c, InCycle(c, before))
  }

  /** Packet m of a cycle is one to announce with: the one where announcing begins, or one of the
      repetitions after it. */
  predicate AnnounceSlot(c: Config, m: nat) {
    var begun := m + 1 - (c.rate - c.announce);
    begun >= 0 && begun % (c.announce / 10 + 1) == 0
  }

  // ---------- the countdown ----------

  // The countdown to the next announcement, unless the peer has responded.
  ghost predicate Counting(c: Config, s: State, m: nat) {
    var lead := c.rate - c.announce;
    if m < lead then s.preAnnounce == lead - m
    else !s.confirmed ==> s.preAnnounce == Pace(c) - (m - lead) % Pace(c)
  }

  lemma PaceStep(x: nat, p: nat)
    requires p > 0
    ensures 0 <= x % p < p
    ensures (x + 1) % p == if x % p + 1 == p then 0 else x % p + 1
  {
    C.ResidueShift(x, 1, p);
  }

  lemma PopCounting(c: Config, s: State, m: nat, newKey: seq<bv8>)
    requires Validated(c) && m < c.rate && s.refresh == c.rate - m && Counting(c, s, m)
    ensures var p := Pop(c, s, newKey);
            && (p.out.km.Some? <==> !s.confirmed && AnnounceSlot(c, m))
            && (if m + 1 < c.rate then Counting(c, p.s, m + 1) && p.s.confirmed == s.confirmed
                else Counting(c, p.s, 0) && !p.s.confirmed)
  {
    var lead := c.rate - c.announce;
    if lead <= m {
      PaceStep(m - lead, Pace(c));
    } else if m + 1 == lead {
      assert 0 % Pace(c) == 0;
    }
  }

  lemma ConfirmCounting(c: Config, s: State, m: nat)
    requires Validated(c) && m < c.rate && Counting(c, s, m)
    ensures Counting(c, Confirm(c, s), m)
    ensures Confirm(c, s).confirmed <==> s.confirmed || CountsAt(c, m)
  {
    var lead := c.rate - c.announce;
    if lead <= m {
      PaceStep(m - lead, Pace(c));
    }
  }

  // ---------- runs ----------

  lemma {:induction false} RunCounting(c: Config, box: Box, evs: seq<Event>)
    requires Validated(c)
    ensures var s, m := After(c, box, evs), InCycle(c, evs);
            && 0 <= m < c.rate && s.refresh == c.rate - m && Counting(c, s, m)
            && (s.confirmed <==> Answered(c, evs))
  {
    var q, m := RunOnSchedule(c, box, evs);
    Positions(c, |Offered(evs)|, q, m);
    if evs != [] {
      var before, ev := evs[..|evs| - 1], evs[|evs| - 1];
      RunCounting(c, box, before);
      var s, m0 := After(c, box, before), InCycle(c, before);
      if ev.Pops? {
        assert evs == before + [Pops(ev.newKey)];
        PopRun(c, box, before, ev.newKey);
      } else {
        ConfirmCounting(c, s, m0);
      }
    }
  }

  // One packet more.
  lemma PopRun(c: Config, box: Box, evs: seq<Event>, newKey: seq<bv8>)
    requires Validated(c)
    requires var s, m := After(c, box, evs), InCycle(c, evs);
             m < c.rate && s.refresh == c.rate - m && Counting(c, s, m) && (s.confirmed <==> Answered(c, evs))
    ensures var more := evs + [Pops(newKey)];
            var t, m := After(c, box, more), InCycle(c, more);
            Counting(c, t, m) && (t.confirmed <==> Answered(c, more))
  {
    LastPop(c, box, evs, newKey);
    AfterPop(c, box, evs, newKey);
    PaceStep(|Offered(evs)|, c.rate);
    PopCounting(c, After(c, box, evs), InCycle(c, evs), newKey);
    assert (evs + [Pops(newKey)])[..|evs|] == evs;
  }

  /** In every run, whatever was answered in earlier cycles: the next packet carries an announcement
      exactly if it is one to announce with and the peer has not responded in this cycle. */
  lemma AnnouncesExactly(c: Config, box: Box, evs: seq<Event>, newKey: seq<bv8>)
    requires Validated(c)
    ensures var out := Pop(c, After(c, box, evs), newKey).out;
            out.km.Some? <==> AnnounceSlot(c, InCycle(c, evs)) && !Answered(c, evs)
  {
    RunCounting(c, box, evs);
    PopCounting(c, After(c, box, evs), InCycle(c, evs), newKey);
  }

  lemma {:induction false} AnsweredStays(c: Config, evs: seq<Event>, more: seq<Event>)
    requires c.rate > 0 && Answered(c, evs)
    requires InCycle(c, evs) + |Offered(more)| < c.rate
    ensures Answered(c, evs + more) && InCycle(c, evs + more) == InCycle(c, evs) + |Offered(more)|
  {
    if more == [] {
      assert evs + more == evs;
    } else {
      var before, ev := more[..|more| - 1], more[|more| - 1];
      AnsweredStays(c, evs, before);
      assert (evs + more)[..|evs + more| - 1] == evs + before;
      assert (evs + more)[|evs + more| - 1] == ev;
      if ev.Pops? {
        PaceStep(|Offered(evs + before)|, c.rate);
      }
    }
  }

  /** Once a response has counted, no packet up to and including the last one of the cycle carries
      an announcement. */
  lemma SilentUntilSwitch(c: Config, box: Box, evs: seq<Event>, more: seq<Event>, newKey: seq<bv8>)
    requires Validated(c) && Answered(c, evs) && InCycle(c, evs) + |Offered(more)| < c.rate
    ensures Pop(c, After(c, box, evs + more), newKey).out.km == None
  {
    AnsweredStays(c, evs, more);
    AnnouncesExactly(c, box, evs + more, newKey);
  }

  /** The first packet to announce with is never missed in a cycle without an answer, in particular
      not because of answers in the cycles before. */
  lemma AnnouncingStartsAgain(c: Config, box: Box, evs: seq<Event>, newKey: seq<bv8>)
    requires Validated(c) && InCycle(c, evs) + 1 == c.rate - c.announce && !Answered(c, evs)
    ensures Pop(c, After(c, box, evs), newKey).out.km.Some?
  {
    AnnouncesExactly(c, box, evs, newKey);
    assert 0 % (c.announce / 10 + 1) == 0;
  }

  lemma {:induction false} SwitchForgets(c: Config, evs: seq<Event>)
    requires c.rate > 0 && evs != [] && evs[|evs| - 1].Pops? && InCycle(c, evs) == 0
    ensures !Answered(c, evs)
  {
  }

  // ---------- a response that comes too early ----------

  lemma {:induction false} RepeatedInCycle(c: Config, newKey: seq<bv8>, k: nat)
    requires k < c.rate
    ensures InCycle(c, Repeated(newKey, k)) == k
  {
    RepeatedOffers(newKey, k);
    C.DivModUnique(k, c.rate, 0, k);
  }

  /** For every configuration with `announce` at least 2: a response taken before the first key was
      ever announced, such as a stray one, keeps it from being announced at all. */
  lemma EarlyResponseSilences(c: Config, box: Box, newKey: seq<bv8>, more: seq<Event>) returns (evs: seq<Event>)
    requires Validated(c) && c.announce >= 2
    requires |Offered(more)| < 2 * c.announce - 1
    ensures |evs| > 0 && evs[|evs| - 1] == Confirms && InCycle(c, evs) < c.rate - c.announce
    ensures Pop(c, After(c, box, evs + more), newKey).out.km == None
  {
    var k := c.rate - 2 * c.announce + 1;
    var before := Repeated(newKey, k);
    RepeatedInCycle(c, newKey, k);
    evs := before + [Confirms];
    assert evs[..|before|] == before;
    SilentUntilSwitch(c, box, evs, more, newKey);
  }
}
