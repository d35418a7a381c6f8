/** Who may do what in the lobby of hw5, and what the others are told, without reference to the handlers' guards. */
module LobbyLaws {
  import opened GameRules
  import opened InvitationTable
  import opened LobbyRules
  import opened Wrappers
  import opened LobbyRuns
  import opened LobbyEffects

  /** The client's id names invitation `v`. */
  ghost predicate NamedBy(w: World, c: nat, id: int, v: int) {
    c < |w.tables| && v == InvOf(w.tables[c], id) && 0 <= v < |w.invs|
  }

  // ----- something happens exactly when -----

  /** Only the inviting client may revoke, and only while the invitation is open. */
  ghost predicate MayRevoke(w: World, c: nat, id: int) {
    exists v :: NamedBy(w, c, id, v) && w.invs[v].source == c && w.invs[v].phase == Open
  }

  /** Only the invited client may decline, also what it has accepted. */
  ghost predicate MayDecline(w: World, c: nat, id: int) {
    exists v :: NamedBy(w, c, id, v) && w.invs[v].target == c
  }

  ghost predicate MayAccept(w: World, c: nat, id: int) {
    exists v :: NamedBy(w, c, id, v) && w.invs[v].target == c && w.invs[v].phase == Open
  }

  /** Either player may resign a game. */
  ghost predicate MayResign(w: World, c: nat, id: int) {
    exists v :: NamedBy(w, c, id, v) && w.invs[v].phase == Accepted
  }

  /** The move is a digit from 1 to 9, its cell is empty, and it is the client's turn. */
  ghost predicate MayMove(w: World, c: nat, id: int, move: string) {
    exists v :: NamedBy(w, c, id, v) && w.invs[v].phase == Accepted && w.invs[v].game.Some? && MoveFits(w, c, v, move)
  }

  ghost predicate MoveFits(w: World, c: nat, v: int, move: string)
    requires 0 <= v < |w.invs| && w.invs[v].game.Some?
  {
    var n, g := w.invs[v], w.invs[v].game.value;
    && |move| == 1 && '1' <= move[0] <= '9' && |g.board| == 9 && g.board[move[0] as int - '1' as int] == ' '
    && g.turn == if n.source == c then n.sourceRole else n.targetRole
  }

  /** An invitation that a client names is live: open without a game, or accepted with a game in play. */
  lemma NamedIsLive(w: World, c: nat, id: int)
    requires Valid(w) && c < |w.tables| && Meant(w, c, id) >= 0
    ensures var v := Meant(w, c, id);
      && NamedBy(w, c, id, v) && Involves(w.invs[v], c)
      && ((w.invs[v].phase == Open && w.invs[v].game == None)
          || (w.invs[v].phase == Accepted && w.invs[v].game.Some? && !w.invs[v].game.value.over
              && |w.invs[v].game.value.board| == 9))
  {
    hide Valid, Listed;
    MeantIsListed(w, c, id);
    ListedByBoth(w, c, Meant(w, c, id));
  }

  lemma GrantedExactly(w: World, r: Request)
    requires Valid(w) && r.client < |w.tables| == |w.loggedIn|
    ensures r.Revoke? ==> (Grants(w, r) <==> MayRevoke(w, r.client, r.id))
    ensures r.Decline? ==> (Grants(w, r) <==> MayDecline(w, r.client, r.id))
    ensures r.Accept? ==> (Grants(w, r) <==> MayAccept(w, r.client, r.id))
    ensures r.ResignGame? ==> (Grants(w, r) <==> MayResign(w, r.client, r.id))
    ensures r.MakeMove? ==> (Grants(w, r) <==> MayMove(w, r.client, r.id, r.move))
  {
    hide Valid, InvOf;
    if !r.Login? && !r.Make? && !r.Logout? {
      var v := Meant(w, r.client, r.id);
      if v >= 0 {
        NamedIsLive(w, r.client, r.id);
        assert NamedBy(w, r.client, r.id, v);
      }
    }
  }

  /** A request that is granted is noticed: somebody is told, or logged in. */
  lemma GrantedChanges(w: World, r: Request)
    requires Valid(w) && r.client < |w.tables| == |w.loggedIn| && Admissible(w, r) && !r.Logout?
    ensures Simple(w, r) != w <==> Grants(w, r)
  {
    hide Valid, InvOk, InvOf, GameRules.Next, Allowed, HasRoom, Put, Without;
    if Grants(w, r) && !r.Login? && !r.Make? {
      MeantIsListed(w, r.client, r.id);
      assert |Simple(w, r).sent| > |w.sent|;
    }
  }

  /** Each request changes the world exactly when its client may make it. */
  lemma WhoMayDoWhat(w: World, r: Request)
    requires Valid(w) && r.client < |w.tables| == |w.loggedIn| && Admissible(w, r)
    ensures r.Login? ==> (Simple(w, r) != w <==> !w.loggedIn[r.client])
    ensures r.Make? ==> (Simple(w, r) != w <==> r.client != r.target)
    ensures r.Revoke? ==> (Simple(w, r) != w <==> MayRevoke(w, r.client, r.id))
    ensures r.Decline? ==> (Simple(w, r) != w <==> MayDecline(w, r.client, r.id))
    ensures r.Accept? ==> (Simple(w, r) != w <==> MayAccept(w, r.client, r.id))
    ensures r.ResignGame? ==> (Simple(w, r) != w <==> MayResign(w, r.client, r.id))
    ensures r.MakeMove? ==> (Simple(w, r) != w <==> MayMove(w, r.client, r.id, r.move))
  {
    hide Valid, Simple, MayRevoke, MayDecline, MayAccept, MayResign, MayMove;
    if !r.Logout? {
      GrantedChanges(w, r);
      GrantedExactly(w, r);
    }
  }

  // ----- what a logout tells the others -----

  /** How the client's leaving ends an invitation: a game is resigned, its own one revoked, another's declined. */
  function LeavingKind(n: Invitation, c: nat): Kind {
    if n.game != None then RESIGNED else if n.source == c then REVOKED else DECLINED
  }

  /** Packet `k`, sent since there were `from`, tells the opponent of the end of invitation `v`, by its own id. */
  ghost predicate Told(w: World, u: World, n: Invitation, c: nat, v: nat, from: nat, k: int) {
    from <= k < |u.sent| && u.sent[k].kind == LeavingKind(n, c) && u.sent[k].to == Opponent(n, c)
    && Understood(w.tables, u.sent[k], v)
  }

  lemma PartingKind(w: World, c: nat, i: nat)
    requires Valid(w) && c < |w.tables| == |w.loggedIn| && TableOk(w, c) && i < SLOTS == |w.tables[c]|
    requires w.tables[c][i].Filled? && Cleared(w.tables[c], i)
    ensures var v := w.tables[c][i].inv; v < |w.invs| && Ends(Parting(w, c, i), LeavingKind(w.invs[v], c))
  {
    hide Valid, TableOk, Cleared, InvOk;
    PartingIsGranted(w, c, i);
    MeantIsListed(w, c, Parting(w, c, i).id);
  }

  lemma {:induction false} LogoutKeepsSent(w: World, c: nat, i: nat)
    requires Valid(w) && c < |w.tables| == |w.loggedIn| && i <= SLOTS && Cleared(w.tables[c], i)
    ensures |LogoutFrom(w, c, i).sent| >= |w.sent| && LogoutFrom(w, c, i).sent[..|w.sent|] == w.sent
    decreases SLOTS - i
  {
    hide Valid, Simple, Names, Parting, InvOk;
    if i < SLOTS {
      TableAt(w, c);
      if w.tables[c][i].Empty? {
        LogoutKeepsSent(w, c, i + 1);
      } else {
        var r := Parting(w, c, i);
        PartingTells(w, c, i);
        PartingIsGranted(w, c, i);
        SimpleIsValid(w, r);
        PartingClears(w, c, i);
        TableAt(Simple(w, r), c);
        LogoutKeepsSent(Simple(w, r), c, i + 1);
        var u := LogoutFrom(Simple(w, r), c, i + 1);
        assert u.sent[..|w.sent|] == u.sent[..|Simple(w, r).sent|][..|w.sent|];
      }
    }
  }

  lemma TableAt(w: World, c: nat)
    requires Valid(w) && c < |w.tables|
    ensures TableOk(w, c) && |w.tables[c]| == SLOTS && |w.tables| == |w.loggedIn|
  {
    assert TableOk(w, c);
  }

  /** Ending the invitation of the first slot in use tells its opponent. */
  lemma PartingTells(w: World, c: nat, i: nat)
    requires Valid(w) && c < |w.tables| == |w.loggedIn| && TableOk(w, c) && i < SLOTS == |w.tables[c]|
    requires w.tables[c][i].Filled? && Cleared(w.tables[c], i)
    ensures var v, u := w.tables[c][i].inv, Simple(w, Parting(w, c, i));
      && v < |w.invs| && |u.sent| == |w.sent| + 1 && u.sent[..|w.sent|] == w.sent
      && Told(w, u, w.invs[v], c, v, |w.sent|, |w.sent|)
  {
    hide Valid, TableOk, Cleared, Simple, Parting, Understood, InvOk, Unlisted, Ends;
    var v := w.tables[c][i].inv;
    PartingKind(w, c, i);
    PartingIsGranted(w, c, i);
    EndEffect(w, Parting(w, c, i), LeavingKind(w.invs[v], c), v);
  }

  lemma DropKeepsId(t: Table, x: nat, v: nat)
    requires Ok(t) && x != v && v in Names(t)
    ensures IdOf(Drop(t, x), v) == IdOf(t, v)
  {
    hide Ok;
    NamedIsFound(t, v);
    DropKeepsOk(t, x);
    var k := FindInv(t, v, 0);
    assert Holds(Drop(t, x), k, v);
    OneSlot(Drop(t, x), v, k);
  }

  /** Ending one invitation changes no party's id for another. */
  lemma PartingKeepsIds(w: World, c: nat, i: nat, o: nat, v: nat)
    requires Valid(w) && c < |w.tables| == |w.loggedIn| && TableOk(w, c) && i < SLOTS == |w.tables[c]|
    requires w.tables[c][i].Filled? && Cleared(w.tables[c], i) && w.tables[c][i].inv != v && Listed(w, o, v)
    ensures o < |Simple(w, Parting(w, c, i)).tables|
    ensures IdOf(Simple(w, Parting(w, c, i)).tables[o], v) == IdOf(w.tables[o], v)
  {
    hide Valid, Cleared, InvOk, GameRules.Next, IdOf, Drop, Ok;
    var x := w.tables[c][i].inv;
    PartingIsGranted(w, c, i);
    MeantIsListed(w, c, Parting(w, c, i).id);
    TableAt(w, o);
    DropKeepsId(w.tables[o], x, v);
  }

  lemma ToldLater(w: World, w': World, u: World, n: Invitation, n': Invitation, c: nat, v: nat, k: int)
    requires Told(w', u, n', c, v, |w'.sent|, k) && |w'.sent| >= |w.sent|
    requires n'.source == n.source && n'.target == n.target && (n'.game != None <==> n.game != None)
    requires Valid(w) && Opponent(n, c) < |w.tables| && Listed(w, Opponent(n, c), v)
    requires Opponent(n, c) < |w'.tables| && IdOf(w'.tables[Opponent(n, c)], v) == IdOf(w.tables[Opponent(n, c)], v)
    ensures Told(w, u, n, c, v, |w.sent|, k)
  {
    hide Valid, Listed, IdOf, InvOf, Low;
    OwnIdIsUnderstood(w, Opponent(n, c), v, u.sent[k]);
  }

  lemma LogoutTellsFrom(w: World, c: nat, i: nat, v: nat) returns (k: int)
    requires Valid(w) && c < |w.tables| == |w.loggedIn| && i <= SLOTS && Cleared(w.tables[c], i) && Listed(w, c, v)
    ensures v < |w.invs| && Told(w, LogoutFrom(w, c, i), w.invs[v], c, v, |w.sent|, k)
    decreases SLOTS - i
  {
    hide Valid, Simple, Names, Parting, InvOk, Told, IdOf;
    TableAt(w, c);
    ListedByBoth(w, c, v);
    if i == SLOTS {
      ClearedIsEmpty(w.tables[c]);
    } else if w.tables[c][i].Empty? {
      k := LogoutTellsFrom(w, c, i + 1, v);
    } else {
      var r, x := Parting(w, c, i), w.tables[c][i].inv;
      PartingIsGranted(w, c, i);
      SimpleIsValid(w, r);
      TableAt(Simple(w, r), c);
      PartingClears(w, c, i);
      PartingTells(w, c, i);
      if x == v {
        k := |w.sent|;
        LogoutKeepsSent(Simple(w, r), c, i + 1);
        StillTold(w, Simple(w, r), LogoutFrom(Simple(w, r), c, i + 1), w.invs[v], c, v, k);
      } else {
        OnlyTheMeant(w, r, v);
        k := LogoutTellsFrom(Simple(w, r), c, i + 1, v);
        var o := Opponent(w.invs[v], c);
        PartingKeepsIds(w, c, i, o, v);
        ToldLater(w, Simple(w, r), LogoutFrom(Simple(w, r), c, i + 1), w.invs[v], Simple(w, r).invs[v], c, v, k);
      }
    }
  }

  lemma StillTold(w: World, u: World, u': World, n: Invitation, c: nat, v: nat, k: int)
    requires Told(w, u, n, c, v, |w.sent|, k) && |u'.sent| >= |u.sent| && u'.sent[..|u.sent|] == u.sent
    ensures Told(w, u', n, c, v, |w.sent|, k)
  {
    assert u'.sent[k] == u.sent[k];
  }

  /** A logout tells the opponent of every invitation of the client how it ended, by the opponent's own id for it. */
  lemma LogoutTells(w: World, c: nat, v: nat) returns (k: int)
    requires Valid(w) && c < |w.tables| == |w.loggedIn| && w.loggedIn[c] && Listed(w, c, v)
    ensures v < |w.invs| && Told(w, Served(w, Logout(c)), w.invs[v], c, v, |w.sent|, k)
  {
    hide LogoutFrom, Cleared, Names, InvOk;
    NothingCleared(w.tables[c]);
    k := LogoutTellsFrom(w, c, 0, v);
  }
}
