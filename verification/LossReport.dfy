/** The way of a loss report: from the gaps in the receiver's buffer over the wire to the
    packets the sender transmits again. */
module LossReport {
  import opened Circular
  import opened Packets
  import S = SenderSpec
  import ST = SenderTheorems
  import R = ReceiverSpec
  import RT = ReceiverTheorems
  import L = LossList
  import opened Receiver
  import opened Sender
  import opened Wrappers

  lemma PrefixSeparated(rs: seq<Range>, k: nat)
    requires Separated(rs) && k <= |rs|
    ensures Separated(rs[..k])
    ensures forall n :: Covered(rs[..k], n) ==> Covered(rs, n)
  {
    forall n | Covered(rs[..k], n) ensures Covered(rs, n) {
      var i :| 0 <= i < k && InRange(n, rs[..k][i]);
      assert InRange(n, rs[i]);
    }
  }

  lemma GapsWindowed(r: R.State)
    requires RT.Inv(r) && r.maxSeen - r.lastDelivered < WINDOW
    ensures Separated(R.Gaps(r.list, 0, r.lastACK)) && L.Windowed(R.Gaps(r.list, 0, r.lastACK))
  {
    RT.NakIsExact(r);
    var gaps := R.Gaps(r.list, 0, r.lastACK);
    forall i, j | 0 <= i < |gaps| && 0 <= j < |gaps| ensures gaps[j].hi - gaps[i].lo < WINDOW {
      assert InRange(gaps[j].hi, gaps[j]) && InRange(gaps[i].lo, gaps[i]);
      assert Covered(gaps, gaps[j].hi) && Covered(gaps, gaps[i].lo);
    }
  }

  function Gaps(r: R.State): seq<Range> {
    R.Gaps(r.list, 0, r.lastACK)
  }

  // The gaps of which the sender is told: those that fit into a packet.
  function Told(r: R.State): seq<Range> {
    Gaps(r)[..L.Fit(Gaps(r), 0)]
  }

  /** es are the packets the sender holds of those gaps, each once and newest first; so it never
      repeats a packet that the receiver holds, has acknowledged or has not heard of. */
  ghost predicate Answers(r: R.State, s: S.State, es: seq<Entry>) {
    && ST.Descending(es)
    && (forall j :: 0 <= j < |s.lossList| ==> (S.Marked(s.lossList[j]) in es <==> Covered(Told(r), s.lossList[j].n)))
    && (forall e :: e in es ==> r.lastACK < e.n <= r.maxSeen && !Has(r.list, e.n) && Has(s.lossList, e.n))
  }

  /** Whatever Unmarshal makes of the marshalled gaps is the gaps told, and the sender answers
      them. */
  lemma GapsAreResent(r: R.State, s: S.State, heard: Result<seq<Number>>)
    requires RT.Inv(r) && r.maxSeen - r.lastDelivered < WINDOW && Sorted(s.lossList)
    requires L.SequenceNumbers(Flat(Gaps(r))) && L.Encode(Flat(Gaps(r))).Ok?
    requires L.Decodes(L.Encode(Flat(Gaps(r))).value, heard)
    ensures heard == Ok(Flat(Told(r))) && Answers(r, s, S.NAK(s, Told(r)).outs)
  {
    var gaps, told := Gaps(r), Told(r);
    RT.NakIsExact(r);
    GapsWindowed(r);
    L.LossListArrives(gaps, heard);
    PrefixSeparated(gaps, L.Fit(gaps, 0));
    ST.NakIsExact(s, told);
    var es := S.NAK(s, told).outs;
    forall e | e in es ensures Covered(gaps, e.n) && Has(s.lossList, e.n) {
      var i :| 0 <= i < |es| && es[i] == e;
      var j :| 0 <= j < |s.lossList| && es[i] == S.Marked(s.lossList[j]);
      assert S.Marked(s.lossList[j]) in es;
    }
  }

  /** The same of the objects: the list the receiver collects goes through the codec into the sender,
      and the packets it hands to the network are the answer. */
  method ReportLosses(rcv: LiveReceiver, snd: LiveSender, now: nat) returns (sent: seq<Packet>, ghost es: seq<Entry>)
    requires rcv.Valid() && snd.Valid() && Sorted(snd.view.lossList)
    requires NearRanges(snd.view.lossList, Told(rcv.view))
    modifies rcv, snd
    ensures rcv.Valid() && snd.Valid()
    ensures Held(sent, es)
    ensures R.NakFires(old(rcv.view), now) && Gaps(old(rcv.view)) != [] ==>
              Answers(old(rcv.view), old(snd.view), es) && snd.view == S.NAK(old(snd.view), Told(old(rcv.view))).s
    ensures !R.NakFires(old(rcv.view), now) || Gaps(old(rcv.view)) == [] ==> es == [] && snd.view == old(snd.view)
  {
    ghost var r, s := rcv.view, snd.view;
    var list := rcv.PeriodicNAK(now);
    if list == [] {
      return [], [];
    }
    L.Encodes(Gaps(r));
    var data := L.Marshal(list);
    var heard := L.Unmarshal(data.value);
    GapsAreResent(r, s, heard);
    sent := snd.NAK(heard.value, Told(r));
    es := S.NAK(s, Told(r)).outs;
  }
}
