/** The live sender as the code runs it (congestion/live/send.go): 31-bit circular sequence
    numbers, two packet lists and scans that leave early. It refines SenderSpec as
    long as the numbers compared are closer than half the circle. */
module Sender {
  import opened Circular
  import opened Packets
  import Spec = SenderSpec

  class LiveSender {
    var nextSequenceNumber: Number
    var dropThreshold: nat
    var packetList: seq<Packet>
    var lossList: seq<Packet>
    var probeTime: nat
    var stats: Spec.Stats

    // The same sender over unbounded numbers.
    ghost var view: Spec.State

    ghost predicate Valid()
      reads this
    {
      && nextSequenceNumber == SeqNum(view.next)
      && dropThreshold == view.dropThreshold
      && Held(packetList, view.packetList)
      && Held(lossList, view.lossList)
      && probeTime == view.probeTime
      && stats == view.stats
    }

    constructor (ghost initial: int, initialSequenceNumber: Number, dropThreshold: nat)
      requires initialSequenceNumber == SeqNum(initial)
      ensures Valid() && view == Spec.Init(initial, dropThreshold)
    {
      nextSequenceNumber := initialSequenceNumber;
      this.dropThreshold := dropThreshold;
      packetList, lossList, probeTime := [], [], 0;
      stats := Spec.Init(0, 0).stats;
      view := Spec.Init(initial, dropThreshold);
    }

    method Push(p: Packet)
      requires Valid()
      modifies this
      ensures Valid() && view == Spec.Push(old(view), p)
    {
      ghost var v := view;
      var q := p.(seqno := nextSequenceNumber, timestamp := Spec.Timestamp(p.time));
      nextSequenceNumber := Succ(nextSequenceNumber, v.next);
      stats := stats.(buf := AddOne(stats.buf, p), flight := |packetList| + 1);
      var probe := LowBits(q.seqno, v.next);
      if probe == 0 {
        probeTime := p.time;
      } else if probe == 1 {
        q := q.(time := probeTime);
      }
      HeldInsert(packetList, v.packetList, |packetList|, Entry(v.next, q));
      packetList := packetList + [q];
      view := Spec.Push(v, p);
    }

    // The first phase of Tick; `due` are the packets passed to deliver.
    method SendDue(now: nat) returns (due: seq<Packet>)
      requires Valid()
      modifies this
      ensures Valid() && view == Spec.SendDue(old(view), now).s
      ensures Held(due, Spec.SendDue(old(view), now).outs)
    {
      ghost var v := view;
      due := [];
      var i := 0;
      while i < |packetList|
        modifies `stats
        invariant i <= |packetList|
        invariant Spec.RipeCount(v.packetList, 0, now) == Spec.RipeCount(v.packetList, i, now)
        invariant stats == v.stats.(all := AddAll(v.stats.all, v.packetList[..i]),
                                    unique := AddAll(v.stats.unique, v.packetList[..i]))
        invariant due == packetList[..i]
      {
        var p := packetList[i];
        if p.time > now {
          break;
        }
        assert v.packetList[..i + 1][..i] == v.packetList[..i];
        stats := stats.(all := AddOne(stats.all, p), unique := AddOne(stats.unique, p));
        due := due + [p];
        i := i + 1;
      }
      HeldConcat(lossList, v.lossList, due, v.packetList[..i]);
      lossList := lossList + due;
      packetList := packetList[i..];
      view := Spec.SendDue(v, now).s;
    }

    // The second phase of Tick.
    method DropOld(now: nat)
      requires Valid()
      modifies this
      ensures Valid() && view == Spec.DropOld(old(view), now)
    {
      ghost var v, n := view, |lossList|;
      var kept, gone := [], [];
      ghost var keptE, goneE := [], [];
      var i := 0;
      while i < |lossList|
        modifies `stats
        invariant i <= |lossList|
        invariant keptE == Spec.Aged(v.lossList, i, false, dropThreshold, now) && Held(kept, keptE)
        invariant goneE == Spec.Aged(v.lossList, i, true, dropThreshold, now) && Held(gone, goneE)
        invariant stats == v.stats.(drop := AddAll(v.stats.drop, goneE), loss := AddAll(v.stats.loss, goneE),
                                    buf := SubAll(v.stats.buf, goneE))
      {
        var p := lossList[i];
        if p.time + dropThreshold <= now {
          assert (goneE + [v.lossList[i]])[..|goneE|] == goneE;
          stats := stats.(drop := AddOne(stats.drop, p), loss := AddOne(stats.loss, p),
                          buf := Tally(stats.buf.pkts - 1, stats.buf.bytes - Len(p)));
          gone, goneE := gone + [p], goneE + [v.lossList[i]];
        } else {
          kept, keptE := kept + [p], keptE + [v.lossList[i]];
        }
        i := i + 1;
      }
      lossList := kept;
      view := Spec.DropOld(v, now);
    }

    method ACK(sequenceNumber: Number, ghost n: int)
      requires Valid() && sequenceNumber == SeqNum(n) && NearAll(view.lossList, n)
      modifies this
      ensures Valid() && view == Spec.ACK(old(view), n)
    {
      ghost var v := view;
      var i := 0;
      while i < |lossList|
        modifies `stats
        invariant i <= |lossList|
        invariant Spec.AckCount(v.lossList, 0, n) == Spec.AckCount(v.lossList, i, n)
        invariant stats == v.stats.(buf := SubAll(v.stats.buf, v.lossList[..i]))
      {
        var p := lossList[i];
        var below := Below(p.seqno, sequenceNumber, v.lossList[i].n, n);
        if !below {
          break;
        }
        assert v.lossList[..i + 1][..i] == v.lossList[..i];
        stats := stats.(buf := Tally(stats.buf.pkts - 1, stats.buf.bytes - Len(p)));
        i := i + 1;
      }
      lossList := lossList[i..];
      view := Spec.ACK(v, n);
    }

    // `sent` are the packets passed to deliver, from the back of the list to the front.
    method NAK(sequenceNumbers: seq<Number>, ghost ranges: seq<Range>) returns (sent: seq<Packet>)
      requires Valid() && sequenceNumbers == Flat(ranges) && NearRanges(view.lossList, ranges)
      modifies this
      ensures Valid() && view == Spec.NAK(old(view), ranges).s
      ensures Held(sent, Spec.NAK(old(view), ranges).outs)
    {
      ghost var v := view;
      sent := [];
      ghost var sentE: seq<Entry> := [];
      var marked := [];
      var k := |lossList|;
      while k > 0
        modifies `stats
        invariant 0 <= k <= |lossList|
        invariant sentE == Spec.Resent(v.lossList, k, ranges) && Held(sent, sentE)
        invariant Held(marked, Spec.Remarked(v.lossList, k, ranges))
        invariant stats == Spec.CountResent(v.stats, sentE)
      {
        k := k - 1;
        ghost var e := v.lossList[k];
        ghost var copies := Spec.Copies(Spec.Marked(e), Spec.Hits(ranges, |ranges|, e.n));
        var p, again := Resend(lossList[k], e, sequenceNumbers, ranges);
        Spec.CountResentConcat(v.stats, sentE, copies);
        HeldConcat(sent, sentE, again, copies);
        sent, sentE := sent + again, sentE + copies;
        marked := [p] + marked;
      }
      lossList := marked;
      view := Spec.NAK(v, ranges).s;
    }

    // Sends p once for every range it is in and marks it as retransmitted.
    method Resend(p: Packet, ghost e: Entry, sequenceNumbers: seq<Number>, ghost ranges: seq<Range>)
      returns (q: Packet, sent: seq<Packet>)
      requires e.p == p && Tagged(e) && sequenceNumbers == Flat(ranges)
      requires forall i :: 0 <= i < |ranges| ==> NearRange(e.n, ranges[i])
      modifies `stats
      ensures var h := Spec.Hits(ranges, |ranges|, e.n);
              && q == (if h > 0 then Spec.Marked(e).p else p)
              && Held(sent, Spec.Copies(Spec.Marked(e), h))
              && stats == Spec.CountResent(old(stats), Spec.Copies(Spec.Marked(e), h))
    {
      q, sent := p, [];
      ghost var es: seq<Entry>, m, before := [], Spec.Marked(e), stats;
      var i := 0;
      ghost var j := 0;
      while i < |sequenceNumbers|
        modifies `stats
        invariant i == 2 * j && j <= |ranges|
        invariant es == Spec.Copies(m, Spec.Hits(ranges, j, e.n)) && Held(sent, es)
        invariant q == if es == [] then p else m.p
        invariant stats == Spec.CountResent(before, es)
      {
        Spec.CopiesStep(ranges, j, e);
        var hit := Within(q.seqno, sequenceNumbers, i, e.n, ranges, j);
        if hit {
          q := SendCopy(q, before, es, m);
          HeldConcat(sent, es, [q], [m]);
          sent, es := sent + [q], es + [m];
        }
        i, j := i + 2, j + 1;
      }
    }

    // Marks and counts one more copy.
    method SendCopy(p: Packet, ghost before: Spec.Stats, ghost es: seq<Entry>, ghost m: Entry) returns (q: Packet)
      requires p.(retransmitted := true) == m.p && stats == Spec.CountResent(before, es)
      modifies `stats
      ensures q == m.p && stats == Spec.CountResent(before, es + [m])
    {
      Spec.CountResentSnoc(before, es, m);
      q := p.(retransmitted := true);
      stats := stats.(all := AddOne(stats.all, q), retrans := AddOne(stats.retrans, q), loss := AddOne(stats.loss, q));
    }

    // Whether the range at position i contains the number.
    method Within(a: Number, sequenceNumbers: seq<Number>, i: nat, ghost n: int, ghost ranges: seq<Range>, ghost j: nat)
      returns (hit: bool)
      requires sequenceNumbers == Flat(ranges) && j < |ranges| && i == 2 * j
      requires a == SeqNum(n) && NearRange(n, ranges[j])
      ensures hit <==> ranges[j].lo <= n <= ranges[j].hi
    {
      FlatAt(ranges, j);
      var above := AtLeast(a, sequenceNumbers[i], n, ranges[j].lo);
      var below := AtMost(a, sequenceNumbers[i + 1], n, ranges[j].hi);
      hit := above && below;
    }

    method SetDropThreshold(threshold: nat)
      requires Valid()
      modifies this
      ensures Valid() && view == old(view).(dropThreshold := threshold)
    {
      dropThreshold := threshold;
      view := view.(dropThreshold := threshold);
    }
  }
}
