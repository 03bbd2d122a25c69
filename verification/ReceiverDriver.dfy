/** Runs of the live receiver by itself, whatever arrives: as long as the numbers that arrive are
    within the window of its cursors, the object on 31-bit numbers goes through the run over
    integers, so what is proved of those runs holds of the packets it delivers. */
module ReceiverDriver {
  import opened Circular
  import opened Packets
  import opened Receiver
  import Spec = ReceiverSpec
  import RR = ReceiverRuns
  import RT = ReceiverTheorems

  ghost predicate Admissible(s: Spec.State, ev: Spec.Event) {
    RT.Close(s, ev) && (ev.Arrive? ==> Tagged(ev.e))
  }

  ghost predicate InWindowRun(s: Spec.State, evs: seq<Spec.Event>) {
    forall k :: 0 <= k < |evs| ==> Admissible(Spec.Run(s, evs[..k]).s, evs[k])
  }

  // The packets handed over are the entries delivered.
  lemma HandedHeld(ps: seq<Packet>, v: Spec.State, now: nat)
    requires Handed(ps, Spec.DeliverDue(v, now).outs) && forall i :: 0 <= i < |v.list| ==> Tagged(v.list[i])
    ensures Held(ps, RR.Delivered(Spec.DeliverDue(v, now).outs))
  {
    var es := v.list[..Spec.DueCount(v.list, 0, v.lastACK, now)];
    RR.DeliveredDeliveries(es, now);
    forall i | 0 <= i < |es| ensures ps[i] == es[i].p {
      Spec.DeliveriesAt(es, now, i);
    }
  }

  method Step(r: LiveReceiver, ev: Spec.Event) returns (due: seq<Packet>)
    requires r.Valid() && Admissible(r.view, ev)
    modifies r
    ensures r.Valid() && r.view == Spec.Next(old(r.view), ev).s
    ensures Held(due, RR.Delivered(Spec.Next(old(r.view), ev).outs))
  {
    RR.StepDelivers(r.view, ev);
    due := [];
    match ev
    case Arrive(e) =>
      var _ := r.Push(e.p, e.n);
    case TickACK(now) =>
      var _, _, _ := r.PeriodicACK(now);
    case TickNAK(now) =>
      var _ := r.PeriodicNAK(now);
    case TickDeliver(now) =>
      ghost var v := r.view;
      due := r.DeliverDue(now);
      HandedHeld(due, v, now);
    case SetNAKInterval(interval) =>
      r.SetNAKInterval(interval);
  }

  /** For every run within the window the packets delivered are those of the run, and the run is
      good: in order, on time, acknowledged once and for all, and accounted for. */
  method Drive(ghost initial: int, initialSequenceNumber: Number, ackInterval: nat, nakInterval: nat,
      evs: seq<Spec.Event>)
    returns (r: LiveReceiver, delivered: seq<Packet>)
    requires initialSequenceNumber == SeqNum(initial)
    requires InWindowRun(Spec.Init(initial, ackInterval, nakInterval), evs)
    ensures r.Valid()
    ensures var run := Spec.Run(Spec.Init(initial, ackInterval, nakInterval), evs);
            r.view == run.s && Held(delivered, RR.Delivered(run.outs)) && RR.Good(initial, evs, run)
  {
    ghost var s := Spec.Init(initial, ackInterval, nakInterval);
    r := new LiveReceiver(initial, initialSequenceNumber, ackInterval, nakInterval);
    delivered := [];
    var k := 0;
    while k < |evs|
      invariant k <= |evs| && fresh(r) && r.Valid()
      invariant r.view == Spec.Run(s, evs[..k]).s
      invariant Held(delivered, RR.Delivered(Spec.Run(s, evs[..k]).outs))
    {
      ghost var before := Spec.Run(s, evs[..k]);
      assert evs[..k + 1][..k] == evs[..k];
      var due := Step(r, evs[k]);
      ghost var outs := Spec.Next(before.s, evs[k]).outs;
      RR.DeliveredConcat(before.outs, outs);
      HeldConcat(delivered, RR.Delivered(before.outs), due, RR.Delivered(outs));
      delivered := delivered + due;
      k := k + 1;
    }
    assert evs[..k] == evs;
    RR.RunSafe(initial, ackInterval, nakInterval, evs);
  }
}
