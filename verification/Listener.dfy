/** The connection table of a listener (conn_request.go, listen.go): two maps, by socket id and
    by the peer's socket id, in which a request is reserved before it is accepted or rejected. */
module Listener {
  import opened Wrappers

  datatype Conn = Conn(socketId: nat, peerSocketId: nat)

  // An entry without a connection (nil in the code) is a reservation.
  datatype Slot = Reserved | Open(conn: Conn)

  datatype Request = Request(socketId: nat, peerSocketId: nat)

  datatype Table = Table(conns: map<nat, Slot>, byPeer: map<nat, Slot>)

  // ---------- the operations ----------

  // The first of ten random draws that is not taken; a failing random source (None) ends it.
  function FreeId(conns: map<nat, Slot>, draws: seq<Option<nat>>): Option<nat> {
    if draws == [] || draws[0].None? then None
    else if draws[0].value !in conns then draws[0]
    else FreeId(conns, draws[1..])
  }

  function Reserve(t: Table, peer: nat, id: Option<nat>): Table {
    if peer in t.byPeer then t
    else
      t.(byPeer := t.byPeer[peer := Reserved],
         conns := if id.Some? then t.conns[id.value := Reserved] else t.conns)
  }

  predicate Pending(t: Table, req: Request) {
    req.peerSocketId in t.byPeer && t.byPeer[req.peerSocketId] == Reserved
  }

  function Reject(t: Table, req: Request): Table {
    if Pending(t, req) then Table(t.conns - {req.socketId}, t.byPeer - {req.peerSocketId}) else t
  }

  function Accept(t: Table, req: Request): Table {
    if Pending(t, req) then
      var c := Conn(req.socketId, req.peerSocketId);
      Table(t.conns[req.socketId := Open(c)], t.byPeer[req.peerSocketId := Open(c)])
    else t
  }

  function Shutdown(t: Table, c: Conn): Table {
    Table(t.conns - {c.socketId}, t.byPeer - {c.peerSocketId})
  }

  class ConnTable {
    var conns: map<nat, Slot>
    var connsByPeer: map<nat, Slot>

    function Value(): Table
      reads this
    {
      Table(conns, connsByPeer)
    }

    constructor ()
      ensures Value() == Table(map[], map[])
    {
      conns, connsByPeer := map[], map[];
    }

    // The locked section of newConnRequest; `draws` are the values of the random source.
    method NewRequest(peer: nat, draws: seq<Option<nat>>) returns (r: Option<Request>)
      requires |draws| == 10
      modifies this
      ensures Value() == Reserve(old(Value()), peer, FreeId(old(conns), draws))
      ensures r == (var id := FreeId(old(conns), draws);
                    if peer in old(connsByPeer) || id.None? then None else Some(Request(id.value, peer)))
    {
      if peer in connsByPeer {
        return None;
      }
      connsByPeer := connsByPeer[peer := Reserved];
      var id := GenerateSocketId(draws);
      if id.Some? {
        conns := conns[id.value := Reserved];
        return Some(Request(id.value, peer));
      }
      return None;
    }

    method GenerateSocketId(draws: seq<Option<nat>>) returns (id: Option<nat>)
      requires |draws| == 10
      ensures id == FreeId(conns, draws)
    {
      for i := 0 to 10
        invariant FreeId(conns, draws) == FreeId(conns, draws[i..])
      {
        if draws[i].None? {
          return None;
        }
        if draws[i].value !in conns {
          return draws[i];
        }
        assert draws[i..][1..] == draws[i + 1..];
      }
      return None;
    }

    method RejectRequest(req: Request)
      modifies this
      ensures Value() == Reject(old(Value()), req)
    {
      if req.peerSocketId !in connsByPeer || connsByPeer[req.peerSocketId] != Reserved {
        return;
      }
      conns := conns - {req.socketId};
      connsByPeer := connsByPeer - {req.peerSocketId};
    }

    // An encrypted request without a passphrase is rejected instead.
    method AcceptRequest(req: Request, encrypted: bool, passphrase: string) returns (r: Result<Conn>)
      modifies this
      ensures var refused := encrypted && |passphrase| == 0;
              && Value() == (if refused then Reject(old(Value()), req) else Accept(old(Value()), req))
              && r == (if !refused && Pending(old(Value()), req) then Ok(Conn(req.socketId,
                  req.peerSocketId)) else Error)
    {
      if encrypted && |passphrase| == 0 {
        RejectRequest(req);
        return Error;
      }
      if req.peerSocketId !in connsByPeer || connsByPeer[req.peerSocketId] != Reserved {
        return Error;
      }
      var conn := Conn(req.socketId, req.peerSocketId);
      conns := conns[req.socketId := Open(conn)];
      connsByPeer := connsByPeer[req.peerSocketId := Open(conn)];
      return Ok(conn);
    }

    method HandleShutdown(c: Conn)
      modifies this
      ensures Value() == Shutdown(old(Value()), c)
    {
      conns := conns - {c.socketId};
      connsByPeer := connsByPeer - {c.peerSocketId};
    }
  }

  // ---------- the protocol ----------

  // `pending` are the requests handed out and not resolved yet, `live` the connections that
  // have not been shut down.
  datatype World = World(t: Table, pending: set<Request>, live: set<Conn>)

  datatype Event =
    | Arrives(peer: nat, draws: seq<Option<nat>>)
    | Accepted(req: Request)
    | Rejected(req: Request)
    | Closed(conn: Conn)

  /** Each request is resolved once and each connection closes once. */
  ghost predicate Enabled(w: World, ev: Event) {
    match ev
    case Arrives(peer, draws) => |draws| == 10
    case Accepted(req) => req in w.pending
    case Rejected(req) => req in w.pending
    case Closed(conn) => conn in w.live
  }

  function Next(w: World, ev: Event): World {
    match ev
    case Arrives(peer, draws) =>
      var id := FreeId(w.t.conns, draws);
      World(Reserve(w.t, peer, id),
            if peer in w.t.byPeer || id.None? then w.pending else w.pending + {Request(id.value, peer)},
            w.live)
    case Accepted(req) =>
      World(Accept(w.t, req), w.pending - {req},
            if Pending(w.t, req) then w.live + {Conn(req.socketId, req.peerSocketId)} else w.live)
    case Rejected(req) => World(Reject(w.t, req), w.pending - {req}, w.live)
    case Closed(conn) => World(Shutdown(w.t, conn), w.pending, w.live - {conn})
  }

  ghost predicate HasRequest(w: World, id: nat) {
    exists r :: r in w.pending && r.socketId == id
  }

  ghost predicate HasConn(w: World, id: nat) {
    exists c :: c in w.live && c.socketId == id
  }

  ghost predicate HasPeer(w: World, peer: nat) {
    exists c :: c in w.live && c.peerSocketId == peer
  }

  /** The two maps agree: every pending request has its two reservations, every live connection
      its two entries, and nothing else is in conns. */
  ghost predicate Matched(w: World) {
    && (forall r :: r in w.pending ==>
          && r.socketId in w.t.conns && w.t.conns[r.socketId] == Reserved
          && r.peerSocketId in w.t.byPeer && w.t.byPeer[r.peerSocketId] == Reserved)
    && (forall c :: c in w.live ==>
          && c.socketId in w.t.conns && w.t.conns[c.socketId] == Open(c)
          && c.peerSocketId in w.t.byPeer && w.t.byPeer[c.peerSocketId] == Open(c))
    && (forall id :: id in w.t.conns ==> HasRequest(w, id) || HasConn(w, id))
    && (forall peer :: peer in w.t.byPeer ==> w.t.byPeer[peer] == Reserved || HasPeer(w, peer))
    && (forall r, q :: r in w.pending && q in w.pending && r != q ==>
          r.socketId != q.socketId && r.peerSocketId != q.peerSocketId)
  }

  lemma {:induction false} FreeIdIsFree(conns: map<nat, Slot>, draws: seq<Option<nat>>)
    ensures FreeId(conns, draws).Some? ==> FreeId(conns, draws).value !in conns
  {
    if draws != [] {
      FreeIdIsFree(conns, draws[1..]);
    }
  }

  // Draw i is the first that can be used: it is free, and all before it were drawn and taken.
  ghost predicate FirstFree(conns: map<nat, Slot>, draws: seq<Option<nat>>, i: nat) {
    && i < |draws| && draws[i].Some? && draws[i].value !in conns
    && forall j :: 0 <= j < i ==> draws[j].Some? && draws[j].value in conns
  }

  /** All draws are taken, or the random source fails before a free one. */
  ghost predicate NoneFree(conns: map<nat, Slot>, draws: seq<Option<nat>>) {
    forall i :: 0 <= i < |draws| && draws[i].Some? && draws[i].value !in conns ==>
      exists j :: 0 <= j < i && draws[j].None?
  }

  lemma {:induction false} FreeIdFrom(conns: map<nat, Slot>, draws: seq<Option<nat>>) returns (i: nat)
    ensures i <= |draws| && forall j :: 0 <= j < i ==> draws[j].Some? && draws[j].value in conns
    ensures if i < |draws| && draws[i].Some? then draws[i].value !in conns && FreeId(conns, draws) == draws[i]
            else FreeId(conns, draws) == None
  {
    if draws == [] || draws[0].None? || draws[0].value !in conns {
      i := 0;
    } else {
      var k := FreeIdFrom(conns, draws[1..]);
      i := k + 1;
    }
  }

  /** The socket id is the first draw that can be used, and there is none exactly if no draw can
      be used. */
  lemma FreeIdExactly(conns: map<nat, Slot>, draws: seq<Option<nat>>, id: nat)
    ensures FreeId(conns, draws) == Some(id) <==>
              exists i: nat :: FirstFree(conns, draws, i) && draws[i] == Some(id)
    ensures FreeId(conns, draws) == None <==> NoneFree(conns, draws)
  {
    var k := FreeIdFrom(conns, draws);
    if k < |draws| && draws[k].Some? {
      assert FirstFree(conns, draws, k);
    }
    if i: nat :| FirstFree(conns, draws, i) && draws[i] == Some(id) {
      assert i == k;
    }
    if FreeId(conns, draws) == None {
      forall i | 0 <= i < |draws| && draws[i].Some? && draws[i].value !in conns
        ensures exists j :: 0 <= j < i && draws[j].None?
      {
        assert k < i && draws[k].None?;
      }
    }
  }

  lemma ArrivesKeeps(w: World, peer: nat, draws: seq<Option<nat>>)
    requires Matched(w)
    ensures Matched(Next(w, Arrives(peer, draws)))
  {
    FreeIdIsFree(w.t.conns, draws);
    var id, v := FreeId(w.t.conns, draws), Next(w, Arrives(peer, draws));
    if peer !in w.t.byPeer && id.Some? {
      assert Request(id.value, peer) in v.pending;
    }
    forall i | i in v.t.conns ensures HasRequest(v, i) || HasConn(v, i) {
      if HasRequest(w, i) {
        var r :| r in w.pending && r.socketId == i;
        assert r in v.pending;
      }
    }
  }

  lemma RejectKeeps(w: World, req: Request)
    requires Matched(w) && req in w.pending
    ensures Matched(Next(w, Rejected(req)))
  {
    var v := Next(w, Rejected(req));
    forall i | i in v.t.conns ensures HasRequest(v, i) || HasConn(v, i) {
      if HasRequest(w, i) {
        var r :| r in w.pending && r.socketId == i;
        assert r in v.pending;
      }
    }
  }

  lemma AcceptKeeps(w: World, req: Request)
    requires Matched(w) && req in w.pending
    ensures Matched(Next(w, Accepted(req)))
  {
    var v, c := Next(w, Accepted(req)), Conn(req.socketId, req.peerSocketId);
    assert c in v.live;
    forall i | i in v.t.conns ensures HasRequest(v, i) || HasConn(v, i) {
      if i != req.socketId && HasRequest(w, i) {
        var r :| r in w.pending && r.socketId == i;
        assert r in v.pending;
      } else if i != req.socketId {
        var d :| d in w.live && d.socketId == i;
        assert d in v.live;
      }
    }
    forall p | p in v.t.byPeer ensures v.t.byPeer[p] == Reserved || HasPeer(v, p) {
      if p != req.peerSocketId && HasPeer(w, p) {
        var d :| d in w.live && d.peerSocketId == p;
        assert d in v.live;
      }
    }
  }

  lemma ShutdownKeeps(w: World, c: Conn)
    requires Matched(w) && c in w.live
    ensures Matched(Next(w, Closed(c)))
  {
    var v := Next(w, Closed(c));
    forall i | i in v.t.conns ensures HasRequest(v, i) || HasConn(v, i) {
      if HasRequest(w, i) {
        var r :| r in w.pending && r.socketId == i;
        assert r in v.pending;
      } else {
        var d :| d in w.live && d.socketId == i;
        assert d in v.live;
      }
    }
    forall p | p in v.t.byPeer ensures v.t.byPeer[p] == Reserved || HasPeer(v, p) {
      if HasPeer(w, p) {
        var d :| d in w.live && d.peerSocketId == p;
        assert d in v.live;
      }
    }
  }

  lemma StepMatched(w: World, ev: Event)
    requires Matched(w) && Enabled(w, ev)
    ensures Matched(Next(w, ev))
  {
    match ev
    case Arrives(peer, draws) => ArrivesKeeps(w, peer, draws);
    case Accepted(req) => AcceptKeeps(w, req);
    case Rejected(req) => RejectKeeps(w, req);
    case Closed(conn) => ShutdownKeeps(w, conn);
  }

  const FRESH := World(Table(map[], map[]), {}, {})

  ghost predicate Leads(w: World, ev: Event, v: World) {
    Enabled(w, ev) && v == Next(w, ev)
  }

  ghost predicate Behaviour(ws: seq<World>, evs: seq<Event>) {
    && |ws| == |evs| + 1 && ws[0] == FRESH
    && forall i :: 0 <= i < |evs| ==> Leads(ws[i], evs[i], ws[i + 1])
  }

  /** In every interleaving the two maps stay matched. */
  lemma {:induction false} AlwaysMatched(ws: seq<World>, evs: seq<Event>, i: nat)
    requires Behaviour(ws, evs) && i < |ws|
    ensures Matched(ws[i])
  {
    if i > 0 {
      AlwaysMatched(ws, evs, i - 1);
      assert Leads(ws[i - 1], evs[i - 1], ws[i]);
      StepMatched(ws[i - 1], evs[i - 1]);
    }
  }

  /** Hence no two live requests or connections share a socket id or a peer, a connection is
      found under its own ids, and shutting it down removes exactly its own two entries. */
  lemma NoSharing(w: World)
    requires Matched(w)
    ensures forall r, c :: r in w.pending && c in w.live ==>
              r.socketId != c.socketId && r.peerSocketId != c.peerSocketId
    ensures forall c, d :: c in w.live && d in w.live && c != d ==>
            c.socketId != d.socketId && c.peerSocketId != d.peerSocketId
    ensures forall id :: id in w.t.conns && w.t.conns[id].Open? ==>
              var c := w.t.conns[id].conn;
              c in w.live && c.socketId == id && c.peerSocketId in w.t.byPeer && w.t.byPeer[c.peerSocketId] == Open(c)
    ensures forall c, id :: c in w.live && id in w.t.conns && id != c.socketId ==>
              id in Shutdown(w.t, c).conns && w.t.conns[id] != Open(c)
    ensures forall c, peer :: c in w.live && peer in w.t.byPeer && peer != c.peerSocketId ==>
              peer in Shutdown(w.t, c).byPeer && w.t.byPeer[peer] != Open(c)
  {
    forall id | id in w.t.conns && w.t.conns[id].Open? ensures w.t.conns[id].conn in w.live
        && w.t.conns[id].conn.socketId == id {
      assert !HasRequest(w, id);
      var d :| d in w.live && d.socketId == id;
    }
    forall peer | peer in w.t.byPeer && w.t.byPeer[peer].Open? ensures w.t.byPeer[peer].conn.peerSocketId == peer {
      var d :| d in w.live && d.peerSocketId == peer;
    }
  }

  // ---------- resolving a request again ----------

  // Nobody else holds what resolving req would touch.
  ghost predicate Unowned(w: World, req: Request) {
    req.socketId !in w.t.conns && forall r :: r in w.pending ==> r.peerSocketId != req.peerSocketId
  }

  // What keeps a second resolution from doing harm: the peer is not reserved any more, or the
  // reservation belongs to no request and the socket id is free. The code checks the peer's
  // entry only, and that may be somebody else's by then.
  ghost predicate Harmless(w: World, req: Request) {
    !Pending(w.t, req) || Unowned(w, req)
  }

  /** Rejecting a request that is resolved already keeps the maps matched exactly if it is
      harmless. */
  lemma SecondRejectExactly(w: World, req: Request)
    requires Matched(w) && req !in w.pending
    ensures Matched(Next(w, Rejected(req))) <==> Harmless(w, req)
  {
    var v := Next(w, Rejected(req));
    assert v.pending == w.pending;
    if !Pending(w.t, req) {
      assert v == w;
    } else if Unowned(w, req) {
      SecondRejectHarmless(w, v, req);
    } else {
      SecondRejectHarms(w, v, req);
    }
  }

  lemma SecondRejectHarmless(w: World, v: World, req: Request)
    requires Matched(w) && Pending(w.t, req) && Unowned(w, req) && v == w.(t := Reject(w.t, req))
    ensures Matched(v)
  {
    assert v.t.conns == w.t.conns;
    forall i | i in v.t.conns ensures HasRequest(v, i) || HasConn(v, i) {
      assert HasRequest(w, i) ==> HasRequest(v, i);
      assert HasConn(w, i) ==> HasConn(v, i);
    }
    forall p | p in v.t.byPeer ensures v.t.byPeer[p] == Reserved || HasPeer(v, p) {
      assert HasPeer(w, p) ==> HasPeer(v, p);
    }
  }

  lemma SecondRejectHarms(w: World, v: World, req: Request)
    requires Matched(w) && Pending(w.t, req) && !Unowned(w, req) && v == w.(t := Reject(w.t, req))
    ensures !Matched(v)
  {
    if req.socketId in w.t.conns {
      assert HasRequest(w, req.socketId) || HasConn(w, req.socketId);
      assert req.socketId !in v.t.conns;
    } else {
      var r :| r in w.pending && r.peerSocketId == req.peerSocketId;
      assert r in v.pending && r.peerSocketId !in v.t.byPeer;
    }
  }

  /** The same holds of accepting it: otherwise a connection is opened under a socket id that is
      taken, or under the reservation of another request. */
  lemma SecondAcceptExactly(w: World, req: Request)
    requires Matched(w) && req !in w.pending
    ensures Matched(Next(w, Accepted(req))) <==> Harmless(w, req)
  {
    var v := Next(w, Accepted(req));
    assert v.pending == w.pending;
    if !Pending(w.t, req) {
      assert v == w;
    } else if Unowned(w, req) {
      SecondAcceptHarmless(w, v, req);
    } else {
      SecondAcceptHarms(w, v, req);
    }
  }

  lemma SecondAcceptHarmless(w: World, v: World, req: Request)
    requires Matched(w) && Pending(w.t, req) && Unowned(w, req)
    requires v == World(Accept(w.t, req), w.pending, w.live + {Conn(req.socketId, req.peerSocketId)})
    ensures Matched(v)
  {
    var c := Conn(req.socketId, req.peerSocketId);
    assert c in v.live;
    forall i | i in v.t.conns ensures HasRequest(v, i) || HasConn(v, i) {
      if i != req.socketId {
        assert HasRequest(w, i) ==> HasRequest(v, i);
        if HasConn(w, i) {
          var d :| d in w.live && d.socketId == i;
          assert d in v.live;
        }
      }
    }
    forall p | p in v.t.byPeer ensures v.t.byPeer[p] == Reserved || HasPeer(v, p) {
      if p != req.peerSocketId && HasPeer(w, p) {
        var d :| d in w.live && d.peerSocketId == p;
        assert d in v.live;
      }
    }
  }

  lemma SecondAcceptHarms(w: World, v: World, req: Request)
    requires Matched(w) && Pending(w.t, req) && !Unowned(w, req)
    requires v == World(Accept(w.t, req), w.pending, w.live + {Conn(req.socketId, req.peerSocketId)})
    ensures !Matched(v)
  {
    var c := Conn(req.socketId, req.peerSocketId);
    if req.socketId in w.t.conns {
      assert v.t.conns[req.socketId] == Open(c);
      if HasRequest(w, req.socketId) {
        var r :| r in w.pending && r.socketId == req.socketId;
        assert r in v.pending;
      } else {
        var d :| d in w.live && d.socketId == req.socketId;
        assert d in v.live && d.peerSocketId != req.peerSocketId;
      }
    } else {
      var r :| r in w.pending && r.peerSocketId == req.peerSocketId;
      assert r in v.pending && v.t.byPeer[r.peerSocketId] == Open(c);
    }
  }

  /** And it happens: a peer asks, is rejected and asks again; resolving the first request once
      more, either way, leaves the second one without its entries. */
  lemma SecondResolutionHarms() returns (ws: seq<World>, evs: seq<Event>, req: Request)
    ensures Behaviour(ws, evs) && |evs| == 3 && evs[1] == Rejected(req) && req !in ws[3].pending
    ensures !Matched(Next(ws[3], Rejected(req))) && !Matched(Next(ws[3], Accepted(req)))
  {
    req := Request(5, 1);
    var five, six := seq(10, i => Some(5)), seq(10, i => Some(6));
    evs := [Arrives(1, five), Rejected(req), Arrives(1, six)];
    var w1 := Next(FRESH, evs[0]);
    assert w1 == World(Table(map[5 := Reserved], map[1 := Reserved]), {req}, {});
    var w2 := Next(w1, evs[1]);
    assert w2 == FRESH;
    var w3 := Next(w2, evs[2]);
    assert w3 == World(Table(map[6 := Reserved], map[1 := Reserved]), {Request(6, 1)}, {});
    ws := [FRESH, w1, w2, w3];
    AlwaysMatched(ws, evs, 3);
    assert Request(6, 1) in w3.pending && !Harmless(w3, req);
    SecondRejectExactly(w3, req);
    SecondAcceptExactly(w3, req);
  }

  // ---------- peers that stay reserved ----------

  // The event is a request of a new peer for which no socket id is found.
  ghost predicate Starves(w: World, ev: Event) {
    ev.Arrives? && ev.peer !in w.t.byPeer && NoneFree(w.t.conns, ev.draws)
  }

  ghost predicate StarvesPeer(w: World, ev: Event, peer: nat) {
    Starves(w, ev) && ev.peer == peer
  }

  ghost predicate PeerOwned(w: World, peer: nat) {
    HasPeer(w, peer) || exists r :: r in w.pending && r.peerSocketId == peer
  }

  // The peer is in the table, but no request or connection answers for it.
  ghost predicate Orphan(w: World, peer: nat) {
    peer in w.t.byPeer && !PeerOwned(w, peer)
  }

  lemma OrphanStep(w: World, ev: Event, peer: nat)
    requires Matched(w) && Enabled(w, ev)
    ensures Orphan(Next(w, ev), peer) <==> Orphan(w, peer) || StarvesPeer(w, ev, peer)
  {
    var v := Next(w, ev);
    match ev
    case Arrives(p, draws) =>
      var id := FreeId(w.t.conns, draws);
      FreeIdExactly(w.t.conns, draws, 0);
      assert HasPeer(v, peer) <==> HasPeer(w, peer);
      if p !in w.t.byPeer && id.Some? {
        assert Request(id.value, p) in v.pending;
      }
      assert forall r :: r in w.pending ==> r in v.pending;
    case Rejected(req) =>
      assert HasPeer(v, peer) <==> HasPeer(w, peer);
      assert forall r :: r in w.pending && r != req ==> r in v.pending;
    case Accepted(req) =>
      assert Conn(req.socketId, req.peerSocketId) in v.live;
      assert forall d :: d in w.live ==> d in v.live;
      assert forall r :: r in w.pending && r != req ==> r in v.pending;
    case Closed(c) =>
      assert forall d :: d in w.live && d != c ==> d in v.live;
  }

  // One of the first j requests of the peer found no socket id.
  ghost predicate Starved(ws: seq<World>, evs: seq<Event>, j: nat, peer: nat)
    requires j <= |evs| <= |ws|
  {
    exists i :: 0 <= i < j && StarvesPeer(ws[i], evs[i], peer)
  }

  lemma StarvedStep(ws: seq<World>, evs: seq<Event>, j: nat, peer: nat)
    requires 0 < j <= |evs| <= |ws|
    ensures Starved(ws, evs, j, peer) <==> Starved(ws, evs, j - 1, peer) || StarvesPeer(ws[j - 1], evs[j - 1], peer)
  {
  }

  /** In every run, a peer is left in the table without an owner exactly if some request of it
      found no socket id: no step ever cleans it up, and nothing else leaves one behind. */
  lemma {:induction false} OrphanExactly(ws: seq<World>, evs: seq<Event>, j: nat, peer: nat)
    requires Behaviour(ws, evs) && j < |ws|
    ensures Orphan(ws[j], peer) <==> Starved(ws, evs, j, peer)
  {
    if j > 0 {
      OrphanExactly(ws, evs, j - 1, peer);
      AlwaysMatched(ws, evs, j - 1);
      assert Leads(ws[j - 1], evs[j - 1], ws[j]);
      OrphanStep(ws[j - 1], evs[j - 1], peer);
      StarvedStep(ws, evs, j, peer);
    }
  }

  /** So every entry of both maps has an owner exactly as long as no request found all its socket
      ids taken or the random source failing. */
  lemma AllOwnedExactly(ws: seq<World>, evs: seq<Event>, j: nat)
    requires Behaviour(ws, evs) && j < |ws|
    ensures (forall peer :: !Orphan(ws[j], peer)) <==> forall i :: 0 <= i < j ==> !Starves(ws[i], evs[i])
    ensures forall id :: id in ws[j].t.conns ==> HasRequest(ws[j], id) || HasConn(ws[j], id)
  {
    AlwaysMatched(ws, evs, j);
    forall peer ensures Orphan(ws[j], peer) <==> Starved(ws, evs, j, peer) {
      OrphanExactly(ws, evs, j, peer);
    }
    forall i | 0 <= i < j && Starves(ws[i], evs[i]) ensures Orphan(ws[j], evs[i].peer) {
      assert StarvesPeer(ws[i], evs[i], evs[i].peer);
    }
  }

  /** And it happens: peer 2 draws the id of peer 1 ten times, and asking again is no help. */
  lemma ReservationIsLost() returns (ws: seq<World>, evs: seq<Event>)
    ensures Behaviour(ws, evs) && |evs| == 3 && evs[2].Arrives? && evs[2].peer == 2
    ensures Starves(ws[1], evs[1]) && Orphan(ws[2], 2) && ws[3] == ws[2]
  {
    var five, six := seq(10, i => Some(5)), seq(10, i => Some(6));
    evs := [Arrives(1, five), Arrives(2, five), Arrives(2, six)];
    var w1 := Next(FRESH, evs[0]);
    assert w1 == World(Table(map[5 := Reserved], map[1 := Reserved]), {Request(5, 1)}, {});
    var w2 := Next(w1, evs[1]);
    ws := [FRESH, w1, w2, Next(w2, evs[2])];
    assert StarvesPeer(ws[1], evs[1], 2);
    OrphanExactly(ws, evs, 2, 2);
  }
}
