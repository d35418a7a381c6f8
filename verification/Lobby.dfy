/** The handlers of hw5/src/client.c over the clients' tables and the invitations, changed in place. */
module Lobby {
  import opened GameRules
  import opened InvitationTable
  import opened LobbyRules
  import opened Wrappers
  import opened LobbyRuns
  import opened LobbyLaws

  lemma DroppedTwice(tables: seq<Table>, s: nat, t: nat, v: nat)
    requires s < |tables| && t < |tables| && s != t
    ensures tables[s := Drop(tables[s], v)][t := Drop(tables[t], v)] == Without(tables, s, t, v)
  {
    hide Drop;
  }

  lemma PutTwice(tables: seq<Table>, s: nat, t: nat, v: nat)
    requires s < |tables| && t < |tables| && s != t
    ensures tables[s := Put(tables[s], v)][t := Put(tables[t], v)] == With(tables, s, t, v)
  {
    hide Put;
  }

  class LobbyState {
    var tables: seq<Table>
    var loggedIn: seq<bool>
    var invs: seq<Invitation>
    var sent: seq<Packet>

    ghost function Value(): (w: World)
      reads this
    {
      World(tables, loggedIn, invs, sent)
    }

    /** Some clients, each as `client_create` leaves it. */
    constructor (clients: nat)
      ensures Value() == NewWorld(clients) && Valid(Value())
    {
      tables := seq(clients, _ => seq(SLOTS, _ => Empty));
      loggedIn := seq(clients, _ => false);
      invs := [];
      sent := [];
      new;
      NewWorldIsValid(clients);
    }

    // ----- one table -----

    /** `client_inv_search` */
    method InvSearch(c: nat, id: int) returns (v: int)
      requires c < |tables|
      ensures v == InvOf(tables[c], id)
    {
      var t := tables[c];
      var i := 0;
      while i < |t|
        invariant 0 <= i <= |t| && FindId(t, id, 0) == FindId(t, id, i)
      {
        if t[i].Filled? {
          if t[i].id == id {
            return t[i].inv;
          }
        }
        i := i + 1;
      }
      return -1;
    }

    /** `client_id_search` */
    method IdSearch(c: nat, v: nat) returns (id: int)
      requires c < |tables|
      ensures id == IdOf(tables[c], v)
    {
      var t := tables[c];
      var i := 0;
      while i < |t|
        invariant 0 <= i <= |t| && FindInv(t, v, 0) == FindInv(t, v, i)
      {
        if t[i].Filled? {
          if t[i].inv == v {
            return t[i].id;
          }
        }
        i := i + 1;
      }
      return -1;
    }

    /** `client_add_invitation` */
    method AddInvitation(c: nat, v: nat) returns (id: int)
      requires c < |tables| && v < |invs| && HasRoom(tables[c])
      modifies `tables, `invs
      ensures tables == old(tables)[c := Put(old(tables[c]), v)]
      ensures invs == old(invs)[v := old(invs[v]).(refs := old(invs[v].refs) + 1)]
      ensures id == FirstEmpty(old(tables[c]), 0) % IDS
    {
      var t := tables[c];
      var i := 0;
      while !t[i].Empty?
        invariant 0 <= i < |t| && FirstEmpty(t, 0) == FirstEmpty(t, i)
        decreases |t| - i
      {
        i := i + 1;
      }
      id := i % IDS;
      tables := tables[c := t[i := Filled(id, v)]];
      invs := invs[v := invs[v].(refs := invs[v].refs + 1)];
    }

    /** `client_remove_invitation`, passing over the empty slots. */
    method RemoveInvitation(c: nat, v: nat) returns (id: int)
      requires c < |tables| && v < |invs|
      modifies `tables, `invs
      ensures id == IdOf(old(tables[c]), v)
      ensures tables == old(tables)[c := Drop(old(tables[c]), v)]
      ensures v in Names(old(tables[c])) ==> id != -1
      ensures v in Names(old(tables[c])) ==> invs == old(invs)[v := old(invs[v]).(refs := old(invs[v].refs) - 1)]
      ensures v !in Names(old(tables[c])) ==> id == -1 && invs == old(invs)
    {
      var t := tables[c];
      NamedIsFound(t, v);
      var i := 0;
      while i < |t|
        invariant 0 <= i <= |t| && FindInv(t, v, 0) == FindInv(t, v, i)
        invariant tables == old(tables) && invs == old(invs)
      {
        if t[i].Filled? && t[i].inv == v {
          id := t[i].id;
          tables := tables[c := t[i := Empty]];
          invs := invs[v := invs[v].(refs := invs[v].refs - 1)];
          return id;
        }
        i := i + 1;
      }
      return -1;
    }

    // ----- one invitation -----

    /** `inv_accept`, which also records that the invitation is accepted. */
    method InvAccept(v: nat) returns (ok: bool)
      requires v < |invs|
      modifies `invs
      ensures ok == (old(invs[v]).phase == Open)
      ensures invs == if ok then old(invs)[v := old(invs[v]).(phase := Accepted, game := Some(Start()))] else old(invs)
    {
      if invs[v].phase != Open {
        return false;
      }
      invs := invs[v := invs[v].(game := Some(Start()), phase := Accepted)];
      return true;
    }

    /** `inv_close`: with the null role only an open invitation can be closed. */
    method InvClose(v: nat, role: Role) returns (ok: bool)
      requires v < |invs|
      requires invs[v].phase == Accepted ==> invs[v].game.Some? && |invs[v].game.value.board| == 9
      modifies `invs
      ensures ok == (old(invs[v]).phase == Open || (old(invs[v]).phase == Accepted && role != NullRole))
      ensures invs == if ok then old(invs)[v := ClosedBy(old(invs[v]), role)] else old(invs)
    {
      hide GameRules.Next;
      var n := invs[v];
      if role == NullRole {
        if n.phase == Accepted || n.phase == Closed {
          return false;
        }
        invs := invs[v := n.(phase := Closed)];
        return true;
      }
      if n.phase == Closed {
        return false;
      }
      n := n.(phase := Closed);
      if invs[v].phase == Accepted {
        OverStays(n.game.value, role);
        if !n.game.value.over {
          n := n.(game := Some(Next(n.game.value, GameRules.Resign(role))));
        }
      }
      invs := invs[v := n];
      return true;
    }

    /** Takes a closed or finished invitation out of both tables, first that of `a`. */
    method RemoveFromBoth(a: nat, b: nat, v: nat, ghost w: World, ghost n: Invitation)
      requires v < |invs| && a != b
      requires (invs[v].source == a && invs[v].target == b) || (invs[v].source == b && invs[v].target == a)
      requires a < |tables| && b < |tables| && v in Names(tables[a]) && v in Names(tables[b])
      requires v < |w.invs| && tables == w.tables && loggedIn == w.loggedIn && invs == w.invs[v := n]
      modifies `tables, `invs
      ensures tables == Without(w.tables, a, b, v) == Without(w.tables, b, a, v)
      ensures invs == w.invs[v := n.(refs := n.refs - 2)]
    {
      hide Names, Drop;
      DroppedTwice(tables, a, b, v);
      var first := RemoveInvitation(a, v);
      var second := RemoveInvitation(b, v);
      assert first != -1 && second != -1;
      assert Without(w.tables, a, b, v) == Without(w.tables, b, a, v);
    }

    // ----- the handlers -----

    method Login(c: nat) returns (ok: bool)
      requires Valid(Value()) && c < |tables|
      modifies `loggedIn
      ensures ok == !old(loggedIn)[c]
      ensures Value() == Simple(old(Value()), LobbyRules.Login(c))
    {
      if loggedIn[c] {
        return false;
      }
      loggedIn := loggedIn[c := true];
      return true;
    }

    /** `client_make_invitation`, with the target's own id in the packet. */
    method MakeInvitation(s: nat, t: nat, sourceRole: Role, targetRole: Role) returns (id: int)
      requires Valid(Value()) && Admissible(Value(), Make(s, t, targetRole)) && sourceRole == Other(targetRole)
      modifies this
      ensures Value() == Simple(old(Value()), Make(s, t, targetRole))
      ensures id == if s == t then -1 else FirstEmpty(old(tables)[s], 0) % IDS
    {
      hide Valid, Put, HasRoom;
      ghost var w := Value();
      if s == t {
        return -1;
      }
      var v := |invs|;
      invs := invs + [Invitation(s, t, sourceRole, targetRole, Open, None, 1)];
      PutTwice(tables, s, t, v);
      id := AddInvitation(s, v);
      invs := invs[v := invs[v].(refs := invs[v].refs + 1)];
      var own := AddInvitation(t, v);
      invs := invs[v := invs[v].(refs := invs[v].refs + 1)];
      OwnId(w, t);
      sent := sent + [Packet(INVITED, t, own, targetRole, [])];
      assert invs == w.invs + [Invitation(s, t, sourceRole, targetRole, Open, None, 5)];
    }

    /** `client_revoke_invitation` */
    method RevokeInvitation(c: nat, id: int) returns (ok: bool)
      requires Valid(Value()) && c < |tables| == |loggedIn|
      modifies this
      ensures ok == Grants(old(Value()), Revoke(c, id))
      ensures ok <==> MayRevoke(old(Value()), c, id)
      ensures Value() == Simple(old(Value()), Revoke(c, id))
    {
      hide Valid, MayRevoke, Names, InvOf, ClosedBy;
      ghost var w := Value();
      GrantedExactly(w, Revoke(c, id));
      var v := InvSearch(c, id);
      if v == -1 {
        return false;
      }
      MeantIsBound(w, c, id);
      if invs[v].source != c {
        return false;
      }
      if invs[v].game != None {
        return false;
      }
      EndInvitation(c, v, invs[v].sourceRole, REVOKED);
      return true;
    }

    /** `client_decline_invitation` */
    method DeclineInvitation(c: nat, id: int) returns (ok: bool)
      requires Valid(Value()) && c < |tables| == |loggedIn|
      modifies this
      ensures ok == Grants(old(Value()), Decline(c, id))
      ensures ok <==> MayDecline(old(Value()), c, id)
      ensures Value() == Simple(old(Value()), Decline(c, id))
    {
      hide Valid, MayDecline, Names, InvOf, ClosedBy;
      ghost var w := Value();
      GrantedExactly(w, Decline(c, id));
      var v := InvSearch(c, id);
      if v == -1 {
        return false;
      }
      MeantIsBound(w, c, id);
      if invs[v].target != c {
        return false;
      }
      EndInvitation(c, v, invs[v].targetRole, DECLINED);
      return true;
    }

    /** `client_resign_game` */
    method Resign(c: nat, id: int) returns (ok: bool)
      requires Valid(Value()) && c < |tables| == |loggedIn|
      modifies this
      ensures ok == Grants(old(Value()), ResignGame(c, id))
      ensures ok <==> MayResign(old(Value()), c, id)
      ensures Value() == Simple(old(Value()), ResignGame(c, id))
    {
      hide Valid, MayResign, Names, InvOf, ClosedBy;
      ghost var w := Value();
      GrantedExactly(w, ResignGame(c, id));
      var v := InvSearch(c, id);
      if v == -1 {
        return false;
      }
      MeantIsBound(w, c, id);
      if invs[v].game == None || invs[v].game.value.over {
        return false;
      }
      if invs[v].source == c {
        EndInvitation(c, v, invs[v].sourceRole, RESIGNED);
      } else {
        EndInvitation(c, v, invs[v].targetRole, RESIGNED);
      }
      return true;
    }

    /** What the three have in common: close, tell the opponent, and take the invitation out of both tables. */
    method EndInvitation(c: nat, v: nat, role: Role, kind: Kind)
      requires Valid(Value()) && v < |invs| && InvOk(Value(), v) && Bound(Value(), c, v) && role == RoleOf(invs[v], c)
      modifies this
      ensures Value() == EndedBy(old(Value()), c, v, kind)
    {
      hide Valid, Names, GameRules.Next, InvOk, ClosedBy;
      ghost var w := Value();
      var other := if invs[v].source == c then invs[v].target else invs[v].source;
      BoundIsLive(w, c, v);
      ghost var n := ClosedBy(invs[v], role);
      ClosedKeepsParties(invs[v], role);
      var closed := InvClose(v, role);
      assert closed;
      var otherId := IdSearch(other, v);
      RemoveFromBoth(c, other, v, w, n);
      sent := sent + [Packet(kind, other, otherId, NullRole, [])];
    }

    /** `client_accept_invitation`; `shown` is the board for the accepting client when it moves first. */
    method AcceptInvitation(c: nat, id: int) returns (ok: bool, shown: seq<char>)
      requires Valid(Value()) && c < |tables| == |loggedIn|
      modifies this
      ensures ok == Grants(old(Value()), Accept(c, id))
      ensures ok <==> MayAccept(old(Value()), c, id)
      ensures Value() == Simple(old(Value()), Accept(c, id))
      ensures ok ==> var v := Meant(old(Value()), c, id);
        shown == if invs[v].targetRole == First then [' ', ' ', ' ', ' ', ' ', ' ', ' ', ' ', ' '] else []
    {
      hide Valid, MayAccept, Names, InvOf;
      ghost var w := Value();
      GrantedExactly(w, Accept(c, id));
      shown := [];
      var v := InvSearch(c, id);
      if v == -1 {
        return false, shown;
      }
      MeantIsBound(w, c, id);
      if invs[v].target != c {
        return false, shown;
      }
      ok := InvAccept(v);
      if !ok {
        return;
      }
      BoundIsLive(w, c, v);
      var source := invs[v].source;
      var sourceId := IdSearch(source, v);
      if invs[v].targetRole == First {
        shown := Start().board;
        sent := sent + [Packet(ACCEPTED, source, sourceId, NullRole, [])];
      } else {
        sent := sent + [Packet(ACCEPTED, source, sourceId, NullRole, Start().board)];
      }
    }

    /** `client_make_move`, turned down while no game has begun. */
    method MakeMove(c: nat, id: int, move: string) returns (ok: bool)
      requires Valid(Value()) && c < |tables| == |loggedIn|
      modifies this
      ensures ok == Grants(old(Value()), LobbyRules.MakeMove(c, id, move))
      ensures ok <==> MayMove(old(Value()), c, id, move)
      ensures Value() == Simple(old(Value()), LobbyRules.MakeMove(c, id, move))
    {
      hide Valid, MayMove, Names, InvOf, GameRules.Next, InvOk, ParseMove;
      ghost var w := Value();
      GrantedExactly(w, LobbyRules.MakeMove(c, id, move));
      var v := InvSearch(c, id);
      if v == -1 {
        return false;
      }
      MeantIsBound(w, c, id);
      if invs[v].game == None {
        return false;
      }
      BoundIsLive(w, c, v);
      ParsedMove(move);
      var space := ParseMove(move);
      if space == 0 {
        return false;
      }
      ok := MoveInGame(c, v, space);
    }

    method MoveInGame(c: nat, v: nat, space: int) returns (ok: bool)
      requires Valid(Value()) && v < |invs| && InvOk(Value(), v) && Bound(Value(), c, v)
      requires 1 <= space <= 9 && invs[v].game.Some? && |invs[v].game.value.board| == 9
      requires invs[v].source < |tables| && invs[v].target < |tables|
      modifies this
      ensures ok == Allowed(old(invs[v]).game.value, Move(space, RoleOf(old(invs[v]), c)))
      ensures Value() == if ok then MovedBy(old(Value()), c, v, space) else old(Value())
    {
      hide Valid, Names, GameRules.Next, InvOk;
      ghost var w := Value();
      BoundIsLive(w, c, v);
      var n := invs[v];
      var role := if n.source == c then n.sourceRole else n.targetRole;
      var other := if n.source == c then n.target else n.source;
      if !Allowed(n.game.value, Move(space, role)) {
        return false;
      }
      var g := Next(n.game.value, Move(space, role));
      invs := invs[v := n.(game := Some(g))];
      var otherId := IdSearch(other, v);
      sent := sent + [Packet(MOVED, other, otherId, NullRole, g.board)];
      if g.over {
        var sourceId := IdSearch(n.source, v);
        var targetId := IdSearch(n.target, v);
        sent := sent + [Packet(ENDED, n.source, sourceId, g.winner, [])];
        sent := sent + [Packet(ENDED, n.target, targetId, g.winner, [])];
        RemoveFromBoth(n.source, n.target, v, w, n.(game := Some(g)));
        SentInOrder(w.sent, Packet(MOVED, other, otherId, NullRole, g.board),
                    Packet(ENDED, n.source, sourceId, g.winner, []), Packet(ENDED, n.target, targetId, g.winner, []));
      }
      return true;
    }

    /** `client_logout` */
    method LogoutClient(c: nat) returns (ok: bool)
      requires Valid(Value()) && c < |tables| == |loggedIn|
      modifies this
      ensures ok == old(loggedIn)[c]
      ensures Value() == Served(old(Value()), Logout(c))
      ensures ok ==> Gone(Value(), c)
    {
      hide Valid, Simple, LogoutFrom, Gone;
      ghost var w := Value();
      if !loggedIn[c] {
        LogoutDenied(w, c);
        return false;
      }
      var i := 0;
      while i < SLOTS
        invariant 0 <= i <= SLOTS && Valid(Value()) && c < |tables| == |loggedIn|
        invariant Cleared(tables[c], i)
        invariant LogoutFrom(Value(), c, i) == LogoutFrom(w, c, 0)
      {
        PartSlot(c, i);
        i := i + 1;
      }
      LogoutDone(Value(), c);
      loggedIn := loggedIn[c := false];
      LogoutEmpties(w, c, Value());
      return true;
    }

    /** The loop body of the logout: resign, revoke or decline what stands in the slot. */
    method PartSlot(c: nat, i: nat)
      requires Valid(Value()) && c < |tables| == |loggedIn| && i < SLOTS && Cleared(tables[c], i)
      modifies this
      ensures Valid(Value()) && c < |tables| == |loggedIn| && Cleared(tables[c], i + 1)
      ensures LogoutFrom(Value(), c, i + 1) == LogoutFrom(old(Value()), c, i)
    {
      hide Valid, Simple;
      ghost var w := Value();
      SlotsOf(w, c);
      var slot := tables[c][i];
      if slot.Filled? {
        PartingIsGranted(w, c, i);
        PartingClears(w, c, i);
        SimpleIsValid(w, Parting(w, c, i));
        SlotIsBound(w, c, i);
        var v := slot.inv;
        if invs[v].game != None {
          var resigned := Resign(c, slot.id);
          assert resigned;
        } else if invs[v].source == c {
          var revoked := RevokeInvitation(c, slot.id);
          assert revoked;
        } else {
          var declined := DeclineInvitation(c, slot.id);
          assert declined;
        }
        assert Value() == Simple(w, Parting(w, c, i));
        SlotsOf(Value(), c);
      }
    }
  }

  // ----- facts the handlers need -----

  lemma OverStays(g: Position, role: Role)
    requires |g.board| == 9
    ensures g.over ==> Next(g, GameRules.Resign(role)) == g
  {
  }

  lemma OwnId(w: World, t: nat)
    requires Valid(w) && t < |w.tables| && HasRoom(w.tables[t])
    ensures IdOf(Put(w.tables[t], |w.invs|), |w.invs|) == FirstEmpty(w.tables[t], 0) % IDS
  {
    hide Ok, Names;
    assert TableOk(w, t);
    assert |w.invs| in Names(w.tables[t]) ==> NameOk(w, t, |w.invs|);
    PutKeepsOk(w.tables[t], |w.invs|);
    OneSlot(Put(w.tables[t], |w.invs|), |w.invs|, FirstEmpty(w.tables[t], 0));
  }

  /** Client `c` is a party to invitation `v`, and both parties list it. */
  ghost predicate Bound(w: World, c: nat, v: nat) {
    && v < |w.invs| && Involves(w.invs[v], c)
    && Listed(w, w.invs[v].source, v) && Listed(w, w.invs[v].target, v)
  }

  lemma MeantIsBound(w: World, c: nat, id: int)
    requires Valid(w) && c < |w.tables| && Meant(w, c, id) >= 0
    ensures Bound(w, c, Meant(w, c, id)) && InvOk(w, Meant(w, c, id))
  {
    hide Valid, Listed;
    MeantIsListed(w, c, id);
    ListedByBoth(w, c, Meant(w, c, id));
  }

  lemma BoundIsLive(w: World, c: nat, v: nat)
    requires Bound(w, c, v) && InvOk(w, v)
    ensures var n := w.invs[v];
      && n.source < |w.tables| && n.target < |w.tables| && n.source != n.target
      && v in Names(w.tables[n.source]) && v in Names(w.tables[n.target])
      && RoleOf(n, c) != NullRole && n.phase != Closed
      && (n.phase == Accepted ==> n.game.Some? && |n.game.value.board| == 9)
      && (n.game.Some? ==> n.phase == Accepted && |n.game.value.board| == 9)
  {
  }

  lemma ClosedKeepsParties(n: Invitation, role: Role)
    ensures ClosedBy(n, role).source == n.source && ClosedBy(n, role).target == n.target
    ensures ClosedBy(n, role).refs == n.refs
  {
    hide GameRules.Next;
  }

  lemma ParsedMove(move: string)
    ensures ParseMove(move) == 0 || 1 <= ParseMove(move) <= 9
  {
  }

  lemma SentInOrder(sent: seq<Packet>, a: Packet, b: Packet, c: Packet)
    ensures sent + [a] + [b] + [c] == sent + ([a] + [b, c])
  {
  }

  lemma SlotsOf(w: World, c: nat)
    requires Valid(w) && c < |w.tables|
    ensures |w.tables[c]| == SLOTS && TableOk(w, c)
  {
    assert TableOk(w, c);
  }

  lemma SlotIsBound(w: World, c: nat, i: nat)
    requires Valid(w) && c < |w.tables| && i < |w.tables[c]| && w.tables[c][i].Filled?
    ensures w.tables[c][i].inv < |w.invs|
  {
    hide Ok;
    assert TableOk(w, c);
    assert w.tables[c][i].inv in Names(w.tables[c]);
    assert NameOk(w, c, w.tables[c][i].inv);
  }

  lemma LogoutDenied(w: World, c: nat)
    requires Valid(w) && c < |w.tables| == |w.loggedIn| && !w.loggedIn[c]
    ensures Served(w, Logout(c)) == w
  {
    hide Valid;
  }

  lemma {:induction false} LogoutDone(w: World, c: nat)
    requires Valid(w) && c < |w.tables|
    ensures LogoutFrom(w, c, SLOTS) == w
  {
    hide Valid;
  }
}
