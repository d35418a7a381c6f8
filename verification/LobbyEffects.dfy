/** What a granted request does, and that the ids in packets are the receiver's own. */
module LobbyEffects {
  import opened GameRules
  import opened GameLaws
  import opened InvitationTable
  import opened LobbyRules
  import opened Wrappers
  import opened LobbyRuns

  /** The packet's id is the receiver's own for invitation `v`; in byte-sized slots looking it up finds `v`. */
  ghost predicate Understood(tables: seq<Table>, p: Packet, v: nat) {
    && p.to < |tables| && p.id == IdOf(tables[p.to], v) >= 0
    && (Low(tables[p.to]) ==> InvOf(tables[p.to], p.id) == v)
  }

  lemma OwnIdIsUnderstood(w: World, c: nat, v: nat, p: Packet)
    requires Valid(w) && Listed(w, c, v) && p.to == c && p.id == IdOf(w.tables[c], v)
    ensures Understood(w.tables, p, v)
  {
    hide InvOk;
    assert TableOk(w, c);
    NamedIsFound(w.tables[c], v);
    var k := FindInv(w.tables[c], v, 0);
    assert SlotOk(w.tables[c], k);
    if Low(w.tables[c]) {
      SearchesInvert(w.tables[c], v, k % IDS);
    }
  }

  /** No table lists `v`. */
  ghost predicate Unlisted(u: World, v: nat) {
    forall c {:trigger Listed(u, c, v)} :: !Listed(u, c, v)
  }

  lemma RetiredIsUnlisted(w: World, v: nat, n: Invitation, packets: seq<Packet>)
    requires Valid(w) && v < |w.invs| && n.source == w.invs[v].source && n.target == w.invs[v].target
    ensures Unlisted(Retired(w, v, n, packets), v)
  {
    hide Valid, Listed, Retired;
    forall c
      ensures !Listed(Retired(w, v, n, packets), c, v)
    {
      ListedWithout(w, v, n, packets, c, v);
    }
  }

  // ----- revoking, declining, resigning -----

  ghost predicate Ends(r: Request, kind: Kind) {
    (r.Revoke? && kind == REVOKED) || (r.Decline? && kind == DECLINED) || (r.ResignGame? && kind == RESIGNED)
  }

  /**
   * The invitation is closed and listed by nobody, its game goes to the opponent, and only the opponent hears of it.
   */
  ghost predicate EndedFor(w: World, u: World, c: nat, v: nat, kind: Kind) {
    && v < |w.invs| == |u.invs|
    && var n, m := w.invs[v], u.invs[v];
    && m.phase == Closed && Unlisted(u, v)
    && (n.game.Some? ==> m.game.Some? && m.game.value.over && m.game.value.winner == RoleOf(n, Opponent(n, c)))
    && (n.game == None ==> m.game == None)
    && |u.sent| == |w.sent| + 1 && u.sent[..|w.sent|] == w.sent
    && u.sent[|w.sent|].kind == kind && u.sent[|w.sent|].to == Opponent(n, c)
    && Understood(w.tables, u.sent[|w.sent|], v)
  }

  lemma EndEffect(w: World, r: Request, kind: Kind, v: nat)
    requires Valid(w) && r.client < |w.tables| == |w.loggedIn| && Ends(r, kind)
    requires Grants(w, r) && Meant(w, r.client, r.id) == v
    ensures EndedFor(w, Simple(w, r), r.client, v, kind)
  {
    hide Valid, EndedFor, EndedBy, InvOk;
    MeantIsListed(w, r.client, r.id);
    ListedByBoth(w, r.client, v);
    EndedByEnds(w, r.client, v, kind);
  }

  lemma EndedByEnds(w: World, c: nat, v: nat, kind: Kind)
    requires Valid(w) && v < |w.invs| && InvOk(w, v) && Involves(w.invs[v], c)
    requires Listed(w, w.invs[v].source, v) && Listed(w, w.invs[v].target, v)
    ensures EndedFor(w, EndedBy(w, c, v, kind), c, v, kind)
  {
    hide Valid, Unlisted, Listed, Understood, Without, Fair;
    var n := w.invs[v];
    var other := Opponent(n, c);
    var p := Packet(kind, other, IdOf(w.tables[other], v), NullRole, []);
    OwnIdIsUnderstood(w, other, v, p);
    RetiredIsUnlisted(w, v, ClosedBy(n, RoleOf(n, c)), [p]);
    assert n.game.Some? ==> |n.game.value.board| == 9 by {
      InPlayBoard(n.game);
    }
  }

  lemma InPlayBoard(game: Option<Position>)
    ensures InPlay(game) ==> |game.value.board| == 9
  {
  }

  // ----- inviting -----

  lemma {:induction false} IdOfPut(t: Table, v: nat)
    requires Ok(t) && HasRoom(t) && v !in Names(t)
    ensures IdOf(Put(t, v), v) == FirstEmpty(t, 0) % IDS
  {
    hide Ok;
    PutKeepsOk(t, v);
    OneSlot(Put(t, v), v, FirstEmpty(t, 0));
  }

  lemma FreshName(w: World, c: nat)
    requires Valid(w) && c < |w.tables|
    ensures Ok(w.tables[c]) && |w.invs| !in Names(w.tables[c])
  {
    hide Ok, Names;
    assert TableOk(w, c);
    assert |w.invs| in Names(w.tables[c]) ==> NameOk(w, c, |w.invs|);
  }

  /** A new invitation is listed by both parties, and the target is told the id it has for it itself. */
  lemma OfferEffect(w: World, s: nat, t: nat, role: Role, u: World)
    requires Valid(w) && Admissible(w, Make(s, t, role)) && s != t && u == Simple(w, Make(s, t, role))
    ensures |u.invs| == |w.invs| + 1 && u.invs[|w.invs|].phase == Open && u.invs[|w.invs|].game == None
    ensures u.invs[|w.invs|].source == s && u.invs[|w.invs|].target == t && u.invs[|w.invs|].targetRole == role
    ensures u.invs[|w.invs|].sourceRole == if role == First then Second else First
    ensures Listed(u, s, |w.invs|) && Listed(u, t, |w.invs|)
    ensures |u.sent| == |w.sent| + 1 && u.sent[|w.sent|].kind == INVITED && u.sent[|w.sent|].to == t
    ensures u.sent[|w.sent|].role == role && u.sent[..|w.sent|] == w.sent
    ensures Understood(u.tables, u.sent[|w.sent|], |w.invs|)
  {
    hide Valid, Listed, Understood, Put, HasRoom;
    var v := |w.invs|;
    assert u == Offered(w, s, t, role);
    ListedOffered(w, s, t, role, s, v);
    ListedOffered(w, s, t, role, t, v);
    OfferedIsValid(w, s, t, role);
    OwnIdIsUnderstood(u, t, v, u.sent[|w.sent|]);
  }

  /**
   * The packet of the code carries the source's id. Looking it up the target finds the new invitation exactly when the
   * target's first empty slot has a byte-sized number that the source's shares the byte of.
   */
  lemma LiteralInvitedId(w: World, s: nat, t: nat, role: Role, u: World, p: Packet)
    requires Valid(w) && Admissible(w, Make(s, t, role)) && s != t && u == Offered(w, s, t, role)
    requires p.to == t && p.id == IdOf(u.tables[s], |w.invs|)
    ensures var i, j := FirstEmpty(w.tables[s], 0), FirstEmpty(w.tables[t], 0);
      InvOf(u.tables[t], p.id) == |w.invs| <==> j < IDS && i % IDS == j
  {
    hide Valid, Ok, HasRoom, Names;
    var v := |w.invs|;
    FreshName(w, s);
    FreshName(w, t);
    IdOfPut(w.tables[s], v);
    PutIsFound(w.tables[t], v, p.id);
  }

  /** A new invitation is found by its id exactly when its slot has a byte-sized number. */
  lemma {:induction false} PutIsFound(t: Table, v: nat, id: int)
    requires Ok(t) && HasRoom(t) && v !in Names(t)
    ensures InvOf(Put(t, v), id) == v <==> FirstEmpty(t, 0) < IDS && id == FirstEmpty(t, 0)
  {
    hide Ok, Names;
    var k, u := FirstEmpty(t, 0), Put(t, v);
    PutKeepsOk(t, v);
    IdFindsSlot(u, k);
    var f := FindId(u, id, 0);
    if f < |u| && u[f].inv == v {
      OneSlot(u, v, f);
      OneSlot(u, v, k);
    }
    if k >= IDS {
      FilledBefore(t, 0, k - IDS);
      assert u[k - IDS].Filled? && (k - IDS) % IDS == k % IDS;
    }
  }

  // ----- accepting and moving -----

  lemma AcceptEffect(w: World, c: nat, id: int, v: nat, u: World)
    requires Valid(w) && c < |w.tables| == |w.loggedIn| && u == Simple(w, Accept(c, id))
    requires Grants(w, Accept(c, id)) && Meant(w, c, id) == v
    ensures v < |u.invs| == |w.invs| && w.invs[v].phase == Open && w.invs[v].target == c
    ensures u.invs[v].phase == Accepted && u.invs[v].game == Some(Start())
    ensures |u.sent| == |w.sent| + 1 && u.sent[|w.sent|].kind == ACCEPTED
    ensures u.sent[|w.sent|].to == w.invs[v].source && Understood(w.tables, u.sent[|w.sent|], v)
    ensures u.sent[|w.sent|].board
         == if w.invs[v].sourceRole == First then [' ', ' ', ' ', ' ', ' ', ' ', ' ', ' ', ' '] else []
    ensures u.invs == w.invs[v := w.invs[v].(phase := Accepted, game := u.invs[v].game)]
    ensures u.tables == w.tables && u.sent[..|w.sent|] == w.sent
  {
    hide Valid, Listed, Understood;
    MeantIsListed(w, c, id);
    ListedByBoth(w, c, v);
    var n := w.invs[v];
    OwnIdIsUnderstood(w, n.source, v, u.sent[|w.sent|]);
    assert n.targetRole == Other(n.sourceRole) && n.sourceRole != NullRole;
  }

  /**
   * Only the player whose turn it is moves, and the move is played; the opponent sees the board. The turn passes, or
   * the game ends and both hear the winner.
   */
  ghost predicate MoveTaken(w: World, u: World, c: nat, v: nat, space: int) {
    && v < |w.invs| == |u.invs| && w.invs[v].game.Some? && u.invs[v].game.Some?
    && var n, g, h := w.invs[v], w.invs[v].game.value, u.invs[v].game.value;
    && g.turn == RoleOf(n, c) && |g.board| == 9 && 1 <= space <= 9 && Played(g, h, space, RoleOf(n, c))
    && u.invs[v].phase == n.phase
    && (h.over ==> Unlisted(u, v) && |u.sent| == |w.sent| + 3)
    && (h.over ==> u.sent[|w.sent| + 1].kind == ENDED && u.sent[|w.sent| + 2].kind == ENDED)
    && (h.over ==> u.sent[|w.sent| + 1].to == n.source && u.sent[|w.sent| + 2].to == n.target)
    && (h.over ==> u.sent[|w.sent| + 1].role == h.winner && u.sent[|w.sent| + 2].role == h.winner)
    && (h.over ==> Understood(w.tables, u.sent[|w.sent| + 1], v) && Understood(w.tables, u.sent[|w.sent| + 2], v))
    && (!h.over ==> h.turn == RoleOf(n, Opponent(n, c)) && |u.sent| == |w.sent| + 1 && u.tables == w.tables)
    && u.sent[|w.sent|].to == Opponent(n, c) && u.sent[|w.sent|].board == h.board && u.sent[|w.sent|].kind == MOVED
    && Understood(w.tables, u.sent[|w.sent|], v) && u.sent[..|w.sent|] == w.sent
  }

  lemma MovePasses(g: Position, space: int, player: Role)
    requires |g.board| == 9 && player != NullRole && Allowed(g, Move(space, player))
    ensures var h := Next(g, Move(space, player)); g.turn == player && (!h.over ==> h.turn == Other(player))
  {
  }

  lemma MoveEffect(w: World, c: nat, id: int, move: string, v: nat)
    requires Valid(w) && c < |w.tables| == |w.loggedIn|
    requires Grants(w, MakeMove(c, id, move)) && Meant(w, c, id) == v
    ensures |move| == 1 && MoveTaken(w, Simple(w, MakeMove(c, id, move)), c, v, move[0] as int - '0' as int)
  {
    hide Valid, Listed, Understood, MovedBy, MoveTaken;
    MeantIsListed(w, c, id);
    ListedByBoth(w, c, v);
    MovedByMoves(w, c, v, ParseMove(move));
  }

  lemma MovedByMoves(w: World, c: nat, v: nat, space: int)
    requires Valid(w) && v < |w.invs| && InvOk(w, v) && Involves(w.invs[v], c)
    requires Listed(w, w.invs[v].source, v) && Listed(w, w.invs[v].target, v)
    requires w.invs[v].game.Some? && |w.invs[v].game.value.board| == 9
    requires Allowed(w.invs[v].game.value, Move(space, RoleOf(w.invs[v], c)))
    ensures MoveTaken(w, MovedBy(w, c, v, space), c, v, space)
  {
    hide Valid, Listed, Understood, Unlisted, GameRules.Next, Without, Fair, Played;
    var n := w.invs[v];
    var player, other := RoleOf(n, c), Opponent(n, c);
    MovePasses(n.game.value, space, player);
    MoveByTheBook(n.game.value, space, player);
    var g := Next(n.game.value, Move(space, player));
    var p := Packet(MOVED, other, IdOf(w.tables[other], v), NullRole, g.board);
    var q := Packet(ENDED, n.source, IdOf(w.tables[n.source], v), g.winner, []);
    var r := Packet(ENDED, n.target, IdOf(w.tables[n.target], v), g.winner, []);
    OwnIdIsUnderstood(w, other, v, p);
    OwnIdIsUnderstood(w, n.source, v, q);
    OwnIdIsUnderstood(w, n.target, v, r);
    if g.over {
      RetiredIsUnlisted(w, v, n.(game := Some(g)), [p] + [q, r]);
    }
  }

  // ----- byte-sized ids over a run -----

  ghost predicate AllLow(w: World) {
    forall c {:trigger w.tables[c]} :: 0 <= c < |w.tables| ==> Low(w.tables[c])
  }

  /** No client has more than 256 invitations outstanding. */
  ghost predicate AllModest(w: World) {
    forall c {:trigger w.tables[c]} :: 0 <= c < |w.tables| ==> |Names(w.tables[c])| <= IDS
  }

  lemma WithoutKeepsLow(tables: seq<Table>, s: nat, t: nat, v: nat, c: nat)
    requires c < |tables| && Low(tables[c])
    ensures Low(Without(tables, s, t, v)[c])
  {
    hide Low;
    DropKeepsLow(tables[c], v);
  }

  lemma OfferKeepsLow(w: World, s: nat, t: nat, role: Role, c: nat)
    requires Valid(w) && Admissible(w, Make(s, t, role)) && s != t && c < |w.tables|
    requires Low(w.tables[c]) && |Names(Offered(w, s, t, role).tables[c])| <= IDS
    ensures Low(Offered(w, s, t, role).tables[c])
  {
    hide Valid, Low, Put, Names, Ok, HasRoom;
    if c == s || c == t {
      FreshName(w, c);
      StepKeepsLow(w.tables[c], Adding(|w.invs|));
    }
  }

  lemma SimpleTables(w: World, r: Request, m: nat)
    requires Valid(w) && r.client < |w.tables| == |w.loggedIn| && !r.Login? && !r.Make? && !r.Logout?
    requires Grants(w, r) && m == Meant(w, r.client, r.id) && m < |w.invs| && InvOk(w, m)
    ensures Simple(w, r).tables == w.tables
         || Simple(w, r).tables == Without(w.tables, w.invs[m].source, w.invs[m].target, m)
  {
    hide Valid, Without, GameRules.Next;
  }

  /**
   * Whatever the request, byte-sized slots stay byte-sized as long as an invitation leaves nobody with more than 256.
   */
  lemma SimpleKeepsLow(w: World, r: Request)
    requires Valid(w) && r.client < |w.tables| == |w.loggedIn| && AllLow(w)
    requires r.Make? ==> AllModest(Simple(w, r))
    ensures AllLow(Simple(w, r))
  {
    hide Valid, Low, Names, InvOk, GameRules.Next, With, Without;
    var u := Simple(w, r);
    SimpleIsValid(w, r);
    if Grants(w, r) && Admissible(w, r) && !r.Login? && !r.Logout? {
      if r.Make? {
        forall c | 0 <= c < |u.tables|
          ensures Low(u.tables[c])
        {
          OfferKeepsLow(w, r.client, r.target, r.role, c);
        }
      } else {
        var m := Meant(w, r.client, r.id);
        MeantIsListed(w, r.client, r.id);
        SimpleTables(w, r, m);
        TablesKeepLow(w, u, m);
      }
    }
  }

  lemma TablesKeepLow(w: World, u: World, m: nat)
    requires m < |w.invs| && AllLow(w)
    requires u.tables == w.tables || u.tables == Without(w.tables, w.invs[m].source, w.invs[m].target, m)
    ensures AllLow(u)
  {
    hide Low;
    forall c | 0 <= c < |u.tables|
      ensures Low(u.tables[c])
    {
      WithoutKeepsLow(w.tables, w.invs[m].source, w.invs[m].target, m, c);
    }
  }

  lemma {:induction false} LogoutKeepsLow(w: World, c: nat, i: nat)
    requires Valid(w) && c < |w.tables| == |w.loggedIn| && i <= SLOTS && AllLow(w)
    ensures AllLow(LogoutFrom(w, c, i))
    decreases SLOTS - i
  {
    hide Simple, AllLow, InvOk;
    if i < SLOTS {
      assert TableOk(w, c);
      if w.tables[c][i].Empty? {
        LogoutKeepsLow(w, c, i + 1);
      } else {
        SimpleIsValid(w, Parting(w, c, i));
        SimpleKeepsLow(w, Parting(w, c, i));
        LogoutKeepsLow(Simple(w, Parting(w, c, i)), c, i + 1);
      }
    }
  }

  lemma ServedKeepsLow(w: World, r: Request)
    requires Valid(w) && r.client < |w.tables| == |w.loggedIn| && AllLow(w) && AllModest(Served(w, r))
    ensures AllLow(Served(w, r))
  {
    hide Simple, LogoutFrom, Low, Names, InvOk;
    if r.Logout? && w.loggedIn[r.client] {
      LogoutKeepsLow(w, r.client, 0);
      var m := LogoutFrom(w, r.client, 0);
      assert forall c {:trigger m.tables[c]} :: 0 <= c < |m.tables| ==> Low(m.tables[c]);
      assert Served(w, r).tables == m.tables;
    } else {
      SimpleKeepsLow(w, r);
    }
  }

  /** In no world of the run has a client more than 256 invitations outstanding. */
  ghost predicate ModestRun(w: World, rs: seq<Request>)
    requires Valid(w) && Known(w, rs)
    decreases |rs|
  {
    AllModest(w) &&
    (rs == [] ||
      (ServedIsValid(w, rs[0]);
       assert forall k :: 0 <= k < |rs[1..]| ==> rs[1..][k] == rs[k + 1];
       ModestRun(Served(w, rs[0]), rs[1..])))
  }

  lemma {:induction false} ModestStart(w: World, rs: seq<Request>)
    requires Valid(w) && Known(w, rs) && ModestRun(w, rs)
    ensures AllModest(w)
  {
    hide Valid, Served;
  }

  /** Over every modest run ids are slot numbers, and a client's id and the invitation it means determine each other. */
  lemma {:induction false} ModestRunsKeepIds(w: World, rs: seq<Request>, c: nat, v: nat, id: nat)
    requires Valid(w) && Known(w, rs) && AllLow(w) && ModestRun(w, rs) && c < |w.tables|
    ensures c < |AfterAll(w, rs).tables|
    ensures var t := AfterAll(w, rs).tables[c];
      && (InvOf(t, id) == v <==> IdOf(t, v) == id)
      && (IdOf(t, v) == id ==> FindInv(t, v, 0) == id)
    decreases |rs|
  {
    hide Valid, Served, AllLow, AllModest, InvOf, IdOf;
    if rs == [] {
      LowIds(w, c, v, id);
    } else {
      ServedIsValid(w, rs[0]);
      assert forall k :: 0 <= k < |rs[1..]| ==> rs[1..][k] == rs[k + 1];
      ModestStart(Served(w, rs[0]), rs[1..]);
      SameSizes(w);
      ServedKeepsLow(w, rs[0]);
      ModestRunsKeepIds(Served(w, rs[0]), rs[1..], c, v, id);
    }
  }

  lemma SameSizes(w: World)
    requires Valid(w)
    ensures |w.tables| == |w.loggedIn|
  {
  }

  lemma {:induction false} LowIds(w: World, c: nat, v: nat, id: nat)
    requires Valid(w) && AllLow(w) && c < |w.tables|
    ensures InvOf(w.tables[c], id) == v <==> IdOf(w.tables[c], v) == id
    ensures IdOf(w.tables[c], v) == id ==> FindInv(w.tables[c], v, 0) == id
  {
    hide Low, Ok, Names, InvOk, InvOf, IdOf;
    assert TableOk(w, c);
    SearchesInvert(w.tables[c], v, id);
  }
}
