/** Logging out over `inv_accept` of hw5 as written, and every request over it. */
module LiteralLogout {
  import opened GameRules
  import opened InvitationTable
  import opened LobbyRules
  import opened Wrappers
  import opened LobbyRuns
  import opened LobbyEffects
  import opened LiteralHandlers

  // ----- the handlers keep the worlds they are defined on -----

  /** The parties stay, and so does the number of tables. */
  ghost predicate KeepsParties(w: World, u: World) {
    && |u.loggedIn| == |w.loggedIn| && |u.tables| == |w.tables| && |u.invs| == |w.invs|
    && forall v {:trigger u.invs[v]} :: 0 <= v < |w.invs| ==>
         u.invs[v].source == w.invs[v].source && u.invs[v].target == w.invs[v].target
  }

  lemma KeepsFormed(w: World, u: World)
    requires Formed(w) && KeepsParties(w, u)
    ensures Formed(u)
  {
    forall v
      ensures FormedInv(u, v)
    {
      assert FormedInv(w, v);
      if 0 <= v < |u.invs| {
        assert u.invs[v].source == w.invs[v].source;
      }
    }
  }

  lemma OfferIsFormed(w: World, s: nat, t: nat, role: Role)
    requires Formed(w) && s < |w.tables| && t < |w.tables|
    ensures Formed(Offered(w, s, t, role)) && |Offered(w, s, t, role).tables| == |w.tables|
  {
    hide Put;
    var u := Offered(w, s, t, role);
    forall v
      ensures FormedInv(u, v)
    {
      assert FormedInv(w, v);
    }
  }

  lemma EndKeepsParties(w: World, c: nat, v: nat, kind: Kind)
    requires v < |w.invs| && Opponent(w.invs[v], c) < |w.tables|
    ensures KeepsParties(w, EndedBy(w, c, v, kind))
  {
    hide Drop, GameRules.Next;
  }

  lemma MoveKeepsParties(w: World, c: nat, v: nat, space: int)
    requires v < |w.invs| && w.invs[v].game.Some? && |w.invs[v].game.value.board| == 9
    requires w.invs[v].source < |w.tables| && w.invs[v].target < |w.tables|
    ensures KeepsParties(w, MovedBy(w, c, v, space))
  {
    hide Drop, GameRules.Next;
  }

  lemma AcceptKeepsParties(w: World, v: nat)
    requires v < |w.invs| && w.invs[v].source < |w.tables|
    ensures KeepsParties(w, LiteralAcceptedBy(w, v))
  {
  }

  lemma LoginIsFormed(w: World, c: nat)
    requires Formed(w) && c < |w.loggedIn|
    ensures Formed(w.(loggedIn := w.loggedIn[c := true]))
  {
    KeepsFormed(w, w.(loggedIn := w.loggedIn[c := true]));
  }

  lemma LiteralStepIsFormed(w: World, r: Request)
    requires Formed(w) && r.client < |w.tables|
    ensures Formed(LiteralStep(w, r)) && |LiteralStep(w, r).tables| == |w.tables|
  {
    hide EndedBy, MovedBy, LiteralAcceptedBy, Offered, InvOf, HasRoom, Allowed, ParseMove;
    if Grants(w, r) && Admissible(w, r) {
      match r
      case Login(c) => LoginIsFormed(w, c);
      case Logout(c) =>
      case Make(c, target, role) => OfferIsFormed(w, c, target, role);
      case _ => LiteralChangeIsFormed(w, r, Meant(w, r.client, r.id));
    }
  }

  lemma LiteralChangeIsFormed(w: World, r: Request, v: nat)
    requires Formed(w) && r.client < |w.tables| && !r.Login? && !r.Make? && !r.Logout?
    requires Grants(w, r) && v == Meant(w, r.client, r.id)
    ensures Formed(LiteralStep(w, r)) && |LiteralStep(w, r).tables| == |w.tables|
  {
    hide EndedBy, MovedBy, LiteralAcceptedBy, InvOf, Allowed, ParseMove;
    assert FormedInv(w, v);
    match r {
      case Revoke(c, id) => EndKeepsParties(w, c, v, REVOKED);
      case Decline(c, id) => EndKeepsParties(w, c, v, DECLINED);
      case ResignGame(c, id) => EndKeepsParties(w, c, v, RESIGNED);
      case Accept(c, id) => AcceptKeepsParties(w, v);
      case MakeMove(c, id, move) => MoveKeepsParties(w, c, v, ParseMove(move));
    }
    KeepsFormed(w, LiteralStep(w, r));
  }

  // ----- logging out -----

  /** The loop of `client_logout` from slot `i` on, over the handlers as written. */
  ghost function LiteralLogoutFrom(w: World, c: nat, i: nat): (u: World)
    requires Formed(w) && c < |w.tables| && i <= SLOTS
    ensures Formed(u) && |u.tables| == |w.tables|
    decreases SLOTS - i
  {
    if i == SLOTS || |w.tables[c]| <= i then w
    else if w.tables[c][i].Empty? then LiteralLogoutFrom(w, c, i + 1)
    else
      LiteralStepIsFormed(w, Parting(w, c, i));
      LiteralLogoutFrom(LiteralStep(w, Parting(w, c, i)), c, i + 1)
  }

  /** Any request over the handlers as written. */
  ghost function LiteralServed(w: World, r: Request): World
    requires Formed(w) && r.client < |w.tables|
  {
    if r.Logout? && w.loggedIn[r.client] then
      var u := LiteralLogoutFrom(w, r.client, 0);
      u.(loggedIn := u.loggedIn[r.client := false])
    else LiteralStep(w, r)
  }

  /** The client lists invitation `v`, which has a game. */
  ghost predicate Playing(w: World, c: nat, v: nat) {
    Listed(w, c, v) && v < |w.invs| && w.invs[v].game != None
  }

  /** What a request must not be for the code as written to serve it right. */
  ghost predicate Harms(w: World, r: Request)
    requires |w.loggedIn| == |w.tables| && r.client < |w.tables|
  {
    if r.Logout? && w.loggedIn[r.client] then exists v :: Playing(w, r.client, v) else Hazard(w, r)
  }

  lemma PartingUnrecorded(w: World, c: nat, i: nat)
    requires c < |w.tables| && i < |w.tables[c]| && w.tables[c][i].Filled?
    ensures Parting(Unrecorded(w), c, i) == Parting(w, c, i)
  {
  }

  /** Ending the invitation of a slot without a game is no hazard, and leaves the client with no game still. */
  lemma PartingHarmless(w: World, c: nat, i: nat)
    requires Valid(w) && c < |w.tables| == |w.loggedIn| && i < SLOTS == |w.tables[c]| && TableOk(w, c)
    requires w.tables[c][i].Filled? && Cleared(w.tables[c], i) && !exists v :: Playing(w, c, v)
    ensures !Hazard(w, Parting(w, c, i)) && !exists v :: Playing(Simple(w, Parting(w, c, i)), c, v)
  {
    hide Valid, InvOk, TableOk, Simple, Listed, Cleared, Understood, Meant;
    var r, v := Parting(w, c, i), w.tables[c][i].inv;
    PartingIsGranted(w, c, i);
    MeantIsListed(w, c, r.id);
    assert !Playing(w, c, v);
    EndEffect(w, r, if r.Revoke? then REVOKED else DECLINED, v);
    forall x: nat
      ensures !Playing(Simple(w, r), c, x)
    {
      if x != v && x < |w.invs| {
        OnlyTheMeant(w, r, x);
        assert !Playing(w, c, x);
      }
      assert x == v ==> !Listed(Simple(w, r), c, x);
    }
  }

  lemma {:induction false} LogoutAgreesFrom(w: World, c: nat, i: nat)
    requires Valid(w) && c < |w.tables| == |w.loggedIn| && i <= SLOTS && Cleared(w.tables[c], i)
    requires !exists v :: Playing(w, c, v)
    ensures Formed(Unrecorded(w))
    ensures LiteralLogoutFrom(Unrecorded(w), c, i) == Unrecorded(LogoutFrom(w, c, i))
    decreases SLOTS - i
  {
    hide Valid, Formed, Simple, LiteralStep, Hazard, Playing, Parting, Names, InvOk;
    UnrecordedIsFormed(w);
    if i < SLOTS {
      TableOfClient(w, c);
      if w.tables[c][i].Empty? {
        LogoutAgreesFrom(w, c, i + 1);
      } else {
        var r := Parting(w, c, i);
        PartingUnrecorded(w, c, i);
        PartingHarmless(w, c, i);
        PartingOf(w, c, i);
        SimpleIsValid(w, r);
        PartingClears(w, c, i);
        LiteralStepAgrees(w, r);
        TableOfClient(Simple(w, r), c);
        LogoutAgreesFrom(Simple(w, r), c, i + 1);
      }
    }
  }

  lemma TableOfClient(w: World, c: nat)
    requires Valid(w) && c < |w.tables|
    ensures TableOk(w, c) && |w.tables[c]| == SLOTS && |w.tables| == |w.loggedIn|
  {
    assert TableOk(w, c);
  }

  lemma PartingOf(w: World, c: nat, i: nat)
    requires c < |w.tables| && i < |w.tables[c]| && w.tables[c][i].Filled?
    ensures var r := Parting(w, c, i); r.client == c && (r.Revoke? || r.Decline? || r.ResignGame?)
  {
  }

  // ----- games survive a logout as written -----

  ghost predicate NoneAccepted(w: World) {
    forall v {:trigger w.invs[v]} :: 0 <= v < |w.invs| ==> w.invs[v].phase != Accepted
  }

  /** Every game stays as it is. */
  ghost predicate KeepsGames(w: World, u: World) {
    |u.invs| == |w.invs| && forall v {:trigger u.invs[v]} :: 0 <= v < |w.invs| ==> u.invs[v].game == w.invs[v].game
  }

  lemma LiteralEndKeepsGames(w: World, r: Request)
    requires Formed(w) && r.client < |w.tables| && (r.Revoke? || r.Decline? || r.ResignGame?) && NoneAccepted(w)
    ensures NoneAccepted(LiteralStep(w, r)) && KeepsGames(w, LiteralStep(w, r))
  {
    hide Formed, Without, InvOf, GameRules.Next;
  }

  lemma {:induction false} LiteralLogoutKeepsGames(w: World, c: nat, i: nat)
    requires Formed(w) && c < |w.tables| && i <= SLOTS && NoneAccepted(w)
    ensures KeepsGames(w, LiteralLogoutFrom(w, c, i))
    decreases SLOTS - i
  {
    hide Formed, LiteralStep, Parting;
    if i < SLOTS && i < |w.tables[c]| {
      if w.tables[c][i].Empty? {
        LiteralLogoutKeepsGames(w, c, i + 1);
      } else {
        var r := Parting(w, c, i);
        PartingOf(w, c, i);
        LiteralStepIsFormed(w, r);
        LiteralEndKeepsGames(w, r);
        LiteralLogoutKeepsGames(LiteralStep(w, r), c, i + 1);
      }
    }
  }

  // ----- games do not survive a logout -----

  ghost predicate OverIn(w: World, v: nat) {
    v < |w.invs| && w.invs[v].game.Some? && w.invs[v].game.value.over
  }

  /** The invitation in the first slot in use has a game: it is over afterwards, and nobody lists it. */
  lemma PartingResigns(w: World, c: nat, i: nat)
    requires Valid(w) && c < |w.tables| == |w.loggedIn| && i < SLOTS == |w.tables[c]| && TableOk(w, c)
    requires w.tables[c][i].Filled? && Cleared(w.tables[c], i) && Playing(w, c, w.tables[c][i].inv)
    ensures var v, u := w.tables[c][i].inv, Simple(w, Parting(w, c, i));
      OverIn(u, v) && |u.invs| == |w.invs| && Unlisted(u, v)
  {
    hide Valid, InvOk, TableOk, Simple, Listed, Cleared, Understood, Meant, Unlisted;
    var r, v := Parting(w, c, i), w.tables[c][i].inv;
    PartingIsGranted(w, c, i);
    EndEffect(w, r, RESIGNED, v);
  }

  lemma {:induction false} LogoutResigns(w: World, c: nat, i: nat, v: nat)
    requires Valid(w) && c < |w.tables| == |w.loggedIn| && i <= SLOTS && Cleared(w.tables[c], i)
    requires Playing(w, c, v)
    ensures OverIn(LogoutFrom(w, c, i), v)
    decreases SLOTS - i
  {
    hide Valid, Simple, Names, Parting, InvOk;
    TableOfClient(w, c);
    if i == SLOTS {
      ClearedIsEmpty(w.tables[c]);
    } else if w.tables[c][i].Empty? {
      LogoutResigns(w, c, i + 1, v);
    } else {
      var r := Parting(w, c, i);
      PartingOf(w, c, i);
      SimpleIsValid(w, r);
      TableOfClient(Simple(w, r), c);
      if w.tables[c][i].inv == v {
        PartingResigns(w, c, i);
        LogoutLeavesUnlisted(Simple(w, r), c, i + 1, v);
      } else {
        PartingClears(w, c, i);
        PartingIsGranted(w, c, i);
        OnlyTheMeant(w, r, v);
        LogoutResigns(Simple(w, r), c, i + 1, v);
      }
    }
  }

  // ----- every request -----

  /** A logout as written is right exactly when none of the client's invitations has a game. */
  lemma LiteralLogoutAgrees(w: World, c: nat)
    requires Valid(w) && c < |w.tables| == |w.loggedIn| && w.loggedIn[c]
    ensures Formed(Unrecorded(w))
    ensures LiteralServed(Unrecorded(w), Logout(c)) == Unrecorded(Served(w, Logout(c)))
       <==> !exists v :: Playing(w, c, v)
  {
    hide Valid, Formed, LogoutFrom, LiteralLogoutFrom, Names, Cleared, Fair, InvOk;
    UnrecordedIsFormed(w);
    NothingCleared(w.tables[c]);
    if v: nat :| Playing(w, c, v) {
      LogoutResigns(w, c, 0, v);
      UnrecordedGames(w);
      LiteralLogoutKeepsGames(Unrecorded(w), c, 0);
      PlayingIsOn(w, c, v);
      UnrecordedGames(Served(w, Logout(c)));
      var a, b := LiteralServed(Unrecorded(w), Logout(c)), Unrecorded(Served(w, Logout(c)));
      assert a.invs[v].game == w.invs[v].game && OverIn(b, v);
    } else {
      LogoutAgreesFrom(w, c, 0);
    }
  }

  lemma UnrecordedGames(w: World)
    ensures NoneAccepted(Unrecorded(w)) && KeepsGames(w, Unrecorded(w))
  {
  }

  lemma PlayingIsOn(w: World, c: nat, v: nat)
    requires Valid(w) && Playing(w, c, v)
    ensures !OverIn(w, v)
  {
    hide Fair;
    ListedByBoth(w, c, v);
    assert InvOk(w, v);
  }

  /** Any request is served right by the code as written exactly unless it harms. */
  lemma LiteralServedAgrees(w: World, r: Request)
    requires Valid(w) && r.client < |w.tables| == |w.loggedIn|
    ensures Formed(Unrecorded(w))
    ensures LiteralServed(Unrecorded(w), r) == Unrecorded(Served(w, r)) <==> !Harms(w, r)
  {
    hide Valid, Formed, LogoutFrom, LiteralLogoutFrom, Hazard, Simple, LiteralStep;
    if r.Logout? && w.loggedIn[r.client] {
      LiteralLogoutAgrees(w, r.client);
    } else {
      LiteralStepAgrees(w, r);
    }
  }

  lemma LiteralServedIsFormed(w: World, r: Request)
    requires Formed(w) && r.client < |w.tables|
    ensures Formed(LiteralServed(w, r)) && |LiteralServed(w, r).tables| == |w.tables|
  {
    hide LiteralLogoutFrom, LiteralStep;
    if r.Logout? && w.loggedIn[r.client] {
      var u := LiteralLogoutFrom(w, r.client, 0);
      KeepsFormed(u, u.(loggedIn := u.loggedIn[r.client := false]));
    } else {
      LiteralStepIsFormed(w, r);
    }
  }
}
