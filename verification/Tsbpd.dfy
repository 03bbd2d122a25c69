/** The TSBPD time base of a connection (connection.go, handlePacket): sending times travel as
    32-bit microsecond timestamps, and the receiver restores the full time over any number of
    wraps (section 4.5.1.1 of draft-sharabayko-srt). */
module Tsbpd {

  datatype Base = Base(wrapPeriod: bool, offset: nat)

  const FRESH := Base(false, 0)

  // 30 seconds, the length of half a wrapping period.
  const SLACK: nat := 30_000_000

  /** What the arrival of a timestamp does to the time base. */
  function Arrive(b: Base, ts: nat): Base {
    if !b.wrapPeriod then
      if ts > 0xFFFF_FFFF - 30_000_000 then b.(wrapPeriod := true) else b
    else if 30_000_000 <= ts <= 60_000_000 then
      Base(false, b.offset + 0x1_0000_0000)
    else b
  }

  // The time a timestamp stands for, once its arrival has been taken into account.
  function Restore(b: Base, ts: nat): nat {
    if b.wrapPeriod && ts < 30_000_000 then b.offset + 0x1_0000_0000 + ts else b.offset + ts
  }

  class TimeBase {
    var wrapPeriod: bool
    var offset: nat
    var base: nat
    var delay: nat
    var drift: nat

    function Value(): Base
      reads this
    {
      Base(wrapPeriod, offset)
    }

    constructor (base: nat, delay: nat)
      ensures Value() == FRESH && this.base == base && this.delay == delay && drift == 0
    {
      wrapPeriod, offset, this.base, this.delay, drift := false, 0, base, delay, 0;
    }

    // The delivery time of a data packet with this header timestamp.
    method PktTsbpdTime(ts: nat) returns (time: nat)
      modifies `wrapPeriod, `offset
      ensures Value() == Arrive(old(Value()), ts)
      ensures old(wrapPeriod) ==> (wrapPeriod <==> ts < 30_000_000 || 60_000_000 < ts)
      ensures !old(wrapPeriod) ==> (wrapPeriod <==> ts > 0xFFFF_FFFF - 30_000_000)
      ensures offset == old(offset) + if old(wrapPeriod) && !wrapPeriod then 0x1_0000_0000 else 0
      ensures time == base + Restore(Value(), ts) + delay + drift
    {
      if !wrapPeriod {
        if ts > 0xFFFF_FFFF - 30_000_000 {
          wrapPeriod := true;
        }
      } else if ts >= 30_000_000 && ts <= 60_000_000 {
        wrapPeriod := false;
        offset := offset + 0x1_0000_0000;
      }
      var o := offset;
      if wrapPeriod && ts < 30_000_000 {
        o := o + 0x1_0000_0000;
      }
      time := base + o + ts + delay + drift;
    }
  }

  // ---------- whole runs ----------

  // The timestamp of a sending time.
  function Stamp(t: nat): nat {
    t % 0x1_0000_0000
  }

  // The time base after packets with these sending times have arrived in this order.
  function After(times: seq<nat>): Base {
    if times == [] then FRESH else Arrive(After(times[..|times| - 1]), Stamp(times[|times| - 1]))
  }

  function Highest(times: seq<nat>): nat
    requires times != []
  {
    var last := times[|times| - 1];
    if |times| == 1 then last
    else
      var high := Highest(times[..|times| - 1]);
      if last > high then last else high
  }

  /** Each sending time is within `slack` of the highest one before it; the first is that of a
      connection that has not wrapped yet. */
  ghost predicate Paced(times: seq<nat>, slack: nat) {
    if times == [] then true
    else if |times| == 1 then times[0] < 0x1_0000_0000
    else
      var before, t := times[..|times| - 1], times[|times| - 1];
      Paced(before, slack) && Highest(before) - slack <= t <= Highest(before) + slack
  }

  /** The time base restores every sending time as the packet arrives. */
  ghost predicate Exact(times: seq<nat>) {
    times != [] ==>
      && Exact(times[..|times| - 1])
      && Restore(After(times), Stamp(times[|times| - 1])) == times[|times| - 1]
  }

  // Where the highest time is, by the state of the time base, in period k.
  ghost predicate Tracks(b: Base, k: nat, high: nat) {
    && b.offset == k * 0x1_0000_0000
    && if b.wrapPeriod then
         b.offset + 0x1_0000_0000 - SLACK <= high < b.offset + 0x1_0000_0000 + SLACK
       else
         (k > 0 ==> b.offset + SLACK <= high) && high < b.offset + 0x1_0000_0000 - SLACK
  }

  // The timestamp of a time in period k.
  lemma StampIn(t: nat, k: nat)
    requires k * 0x1_0000_0000 <= t < (k + 1) * 0x1_0000_0000
    ensures Stamp(t) == t - k * 0x1_0000_0000
  {
  }

  lemma StepTracks(b: Base, k: nat, high: nat, t: nat)
    requires Tracks(b, k, high) && high - SLACK <= t <= high + SLACK
    ensures var b' := Arrive(b, Stamp(t));
            var high' := if t > high then t else high;
            Restore(b', Stamp(t)) == t && exists k': nat :: Tracks(b', k', high')
  {
    var b' := Arrive(b, Stamp(t));
    var high' := if t > high then t else high;
    if t < (k + 1) * 0x1_0000_0000 {
      StampIn(t, k);
      assert Tracks(b', k, high');
    } else {
      StampIn(t, k + 1);
      if b'.wrapPeriod {
        assert Tracks(b', k, high');
      } else {
        assert Tracks(b', k + 1, high');
      }
    }
  }

  lemma {:induction false} RunTracks(times: seq<nat>)
    requires times != [] && Paced(times, SLACK)
    ensures Exact(times) && exists k: nat :: Tracks(After(times), k, Highest(times))
  {
    var before, t := times[..|times| - 1], times[|times| - 1];
    if |times| == 1 {
      assert before == [] && After(before) == FRESH;
      assert Stamp(t) == t;
      assert Highest(times) == t && Tracks(After(times), 0, Highest(times));
    } else {
      RunTracks(before);
      var k: nat :| Tracks(After(before), k, Highest(before));
      StepTracks(After(before), k, Highest(before), t);
      var k': nat :| Tracks(After(times), k', if t > Highest(before) then t else Highest(before));
      assert Tracks(After(times), k', Highest(times));
    }
  }

  /** The 30 seconds of the standard are exactly what the machine tolerates: over every run,
      with any number of wraps, every sending time is restored if and only if packets may
      be out of order by no more than that. */
  lemma PaceIsTight(slack: nat)
    ensures (forall times: seq<nat> :: Paced(times, slack) ==> Exact(times)) <==> slack <= SLACK
  {
    if slack <= SLACK {
      forall times: seq<nat> | Paced(times, slack) ensures Exact(times) {
        if times != [] {
          PacedMonotone(times, slack);
          RunTracks(times);
        }
      }
    } else {
      var times := LateByMore(slack);
    }
  }

  // A run that is out of step by more than the slack and restored wrongly.
  lemma LateByMore(slack: nat) returns (times: seq<nat>)
    requires slack > SLACK
    ensures Paced(times, slack) && !Exact(times)
  {
    var first: nat := 0xFFFF_FFFF - SLACK;
    var one: seq<nat> := [first];
    times := [first, 0x1_0000_0000];
    assert times[..1] == one && one[..0] == [];
    assert Highest(one) == first;
    assert After([]) == FRESH && After(one) == FRESH && Stamp(first) == first;
    assert After(times) == FRESH;
  }

  lemma {:induction false} PacedMonotone(times: seq<nat>, slack: nat)
    requires Paced(times, slack) && slack <= SLACK
    ensures Paced(times, SLACK)
  {
    if |times| > 1 {
      PacedMonotone(times[..|times| - 1], slack);
    }
  }
}
