/** What every run of requests does: logging out, who is touched, which packets are sent, byte-sized ids. */
module LobbyRuns {
  import opened GameRules
  import opened InvitationTable
  import opened LobbyRules
  import opened Wrappers

  // ----- what a request touches -----

  /** The invitation a request is about, when it is about one. */
  ghost predicate About(w: World, r: Request, v: nat)
    requires |w.loggedIn| == |w.tables| && r.client < |w.tables|
  {
    Grants(w, r) && !r.Login? && !r.Make? && !r.Logout? && Meant(w, r.client, r.id) == v
  }

  ghost predicate Same(w: World, u: World, v: nat) {
    v < |w.invs| <= |u.invs| && u.invs[v] == w.invs[v] && |u.tables| == |w.tables|
    && forall c {:trigger Listed(u, c, v)} :: Listed(u, c, v) <==> Listed(w, c, v)
  }

  /** A request leaves every invitation alone but the one it is about. */
  lemma OnlyTheMeant(w: World, r: Request, v: nat)
    requires Valid(w) && r.client < |w.tables| == |w.loggedIn| && v < |w.invs| && !About(w, r, v)
    ensures Same(w, Simple(w, r), v)
  {
    hide Valid, Listed, InvOk, ClosedBy, GameRules.Next, Offered, Retired, Changed;
    if Grants(w, r) && Admissible(w, r) {
      match r
      case Login(c) => LoginTouches(w, c, true, v);
      case Logout(c) =>
      case Make(c, target, role) => OfferTouches(w, c, target, role, v);
      case _ =>
        var m := Meant(w, r.client, r.id);
        MeantIsListed(w, r.client, r.id);
        SimpleTouches(w, r, m, v);
    }
  }

  lemma LoginTouches(w: World, c: nat, on: bool, v: nat)
    requires c < |w.loggedIn| && v < |w.invs|
    ensures Same(w, w.(loggedIn := w.loggedIn[c := on]), v)
  {
    hide Names;
  }

  lemma OfferTouches(w: World, s: nat, t: nat, role: Role, v: nat)
    requires Valid(w) && Admissible(w, Make(s, t, role)) && v < |w.invs|
    ensures Same(w, Offered(w, s, t, role), v)
  {
    hide Listed, Valid, HasRoom;
    forall c
      ensures Listed(Offered(w, s, t, role), c, v) <==> Listed(w, c, v)
    {
      ListedOffered(w, s, t, role, c, v);
    }
  }

  lemma RetireTouches(w: World, m: nat, n: Invitation, packets: seq<Packet>, v: nat)
    requires Valid(w) && m < |w.invs| && n.source == w.invs[m].source && n.target == w.invs[m].target
    requires v < |w.invs| && v != m
    ensures Same(w, Retired(w, m, n, packets), v)
  {
    hide Listed, Valid;
    forall c
      ensures Listed(Retired(w, m, n, packets), c, v) <==> Listed(w, c, v)
    {
      ListedWithout(w, m, n, packets, c, v);
    }
  }

  lemma ChangeTouches(w: World, m: nat, n: Invitation, packets: seq<Packet>, v: nat)
    requires m < |w.invs| && v < |w.invs| && v != m
    ensures Same(w, Changed(w, m, n, packets), v)
  {
    hide Names;
  }

  lemma SimpleTouches(w: World, r: Request, m: nat, v: nat)
    requires Valid(w) && r.client < |w.tables| == |w.loggedIn| && !r.Login? && !r.Make? && !r.Logout?
    requires Grants(w, r) && m == Meant(w, r.client, r.id) && m < |w.invs| && InvOk(w, m)
    requires v < |w.invs| && v != m
    ensures Same(w, Simple(w, r), v)
  {
    hide Valid, Listed, Same, Retired, Changed, GameRules.Next, Grants;
    var n := w.invs[m];
    if r.Revoke? {
      EndTouches(w, r.client, m, REVOKED, v);
    } else if r.Decline? {
      EndTouches(w, r.client, m, DECLINED, v);
    } else if r.ResignGame? {
      EndTouches(w, r.client, m, RESIGNED, v);
    } else if r.Accept? {
      AcceptTouches(w, m, v);
    } else {
      MeantHasGame(w, r, m);
      MoveTouches(w, r.client, m, ParseMove(r.move), v);
    }
  }

  lemma MeantHasGame(w: World, r: Request, m: nat)
    requires |w.loggedIn| == |w.tables| && r.client < |w.tables|
    requires r.MakeMove? && Grants(w, r) && m == Meant(w, r.client, r.id)
    ensures m < |w.invs| && w.invs[m].game.Some? && |w.invs[m].game.value.board| == 9
  {
  }

  lemma EndTouches(w: World, c: nat, m: nat, kind: Kind, v: nat)
    requires Valid(w) && m < |w.invs| && Opponent(w.invs[m], c) < |w.tables| && v < |w.invs| && v != m
    ensures Same(w, EndedBy(w, c, m, kind), v)
  {
    hide Valid, Same, Retired;
    var n := w.invs[m];
    var other := Opponent(n, c);
    RetireTouches(w, m, ClosedBy(n, RoleOf(n, c)), [Packet(kind, other, IdOf(w.tables[other], m), NullRole, [])], v);
  }

  lemma AcceptTouches(w: World, m: nat, v: nat)
    requires m < |w.invs| && w.invs[m].source < |w.tables| && v < |w.invs| && v != m
    ensures Same(w, AcceptedBy(w, m), v)
  {
    hide Same, Changed;
    var n := w.invs[m];
    var shown := if n.targetRole == First then [] else Start().board;
    ChangeTouches(w, m, n.(phase := Accepted, game := Some(Start())),
                  [Packet(ACCEPTED, n.source, IdOf(w.tables[n.source], m), NullRole, shown)], v);
  }

  lemma MoveTouches(w: World, c: nat, m: nat, space: int, v: nat)
    requires Valid(w) && m < |w.invs| && w.invs[m].game.Some? && |w.invs[m].game.value.board| == 9
    requires w.invs[m].source < |w.tables| && w.invs[m].target < |w.tables| && v < |w.invs| && v != m
    ensures Same(w, MovedBy(w, c, m, space), v)
  {
    hide Valid, Same, Changed, Retired;
    var n := w.invs[m];
    var g := Next(n.game.value, Move(space, RoleOf(n, c)));
    var told := [Packet(MOVED, Opponent(n, c), IdOf(w.tables[Opponent(n, c)], m), NullRole, g.board)];
    if g.over {
      RetireTouches(w, m, n.(game := Some(g)),
                    told + [Packet(ENDED, n.source, IdOf(w.tables[n.source], m), g.winner, []),
                            Packet(ENDED, n.target, IdOf(w.tables[n.target], m), g.winner, [])], v);
    } else {
      ChangeTouches(w, m, n.(game := Some(g)), told, v);
    }
  }

  /** The parties and roles of an invitation never change, and no invitation disappears. */
  ghost predicate SameParties(w: World, u: World, v: nat) {
    v < |w.invs| <= |u.invs| && u.invs[v].source == w.invs[v].source && u.invs[v].target == w.invs[v].target
    && u.invs[v].sourceRole == w.invs[v].sourceRole && u.invs[v].targetRole == w.invs[v].targetRole
  }

  lemma PartiesKept(w: World, r: Request, v: nat)
    requires Valid(w) && r.client < |w.tables| == |w.loggedIn| && v < |w.invs|
    ensures SameParties(w, Simple(w, r), v)
  {
    hide Valid, Listed, GameRules.Next;
    if About(w, r, v) {
      MeantIsListed(w, r.client, r.id);
    } else {
      OnlyTheMeant(w, r, v);
    }
  }

  // ----- logging out -----

  /** How logging out ends the invitation in a slot. */
  function Parting(w: World, c: nat, i: nat): Request
    requires c < |w.tables| && i < |w.tables[c]| && w.tables[c][i].Filled?
  {
    var slot := w.tables[c][i];
    if slot.inv < |w.invs| && w.invs[slot.inv].game != None then ResignGame(c, slot.id)
    else if slot.inv < |w.invs| && w.invs[slot.inv].source == c then Revoke(c, slot.id)
    else Decline(c, slot.id)
  }

  /** The loop of `client_logout` from slot `i` on. */
  ghost function LogoutFrom(w: World, c: nat, i: nat): (u: World)
    requires Valid(w) && c < |w.tables| && i <= SLOTS
    ensures Valid(u) && |u.tables| == |w.tables|
    decreases SLOTS - i
  {
    if i == SLOTS then w
    else
      assert TableOk(w, c);
      if w.tables[c][i].Empty? then LogoutFrom(w, c, i + 1)
      else
        SimpleIsValid(w, Parting(w, c, i));
        LogoutFrom(Simple(w, Parting(w, c, i)), c, i + 1)
  }

  /** The world after any request. */
  ghost function Served(w: World, r: Request): World
    requires Valid(w) && r.client < |w.tables|
  {
    if r.Logout? && w.loggedIn[r.client] then
      var u := LogoutFrom(w, r.client, 0);
      u.(loggedIn := u.loggedIn[r.client := false])
    else Simple(w, r)
  }

  ghost predicate Cleared(t: Table, i: nat) {
    i <= |t| && forall j {:trigger t[j]} :: 0 <= j < i ==> t[j].Empty?
  }

  /** The invitation in the first slot in use is the one meant by its id, and ending it is granted. */
  lemma PartingIsGranted(w: World, c: nat, i: nat)
    requires Valid(w) && c < |w.tables| == |w.loggedIn| && TableOk(w, c) && i < SLOTS
    requires w.tables[c][i].Filled? && Cleared(w.tables[c], i)
    ensures var r := Parting(w, c, i); About(w, r, w.tables[c][i].inv) && !r.Accept? && !r.MakeMove? && r.client == c
  {
    hide Fair;
    var t := w.tables[c];
    var v := t[i].inv;
    assert SlotOk(t, i);
    IdFindsSlot(t, i);
    assert v in Names(t);
    assert NameOk(w, c, v);
    assert InvOk(w, v);
  }

  lemma PartingClears(w: World, c: nat, i: nat)
    requires Valid(w) && c < |w.tables| == |w.loggedIn| && TableOk(w, c) && i < SLOTS
    requires w.tables[c][i].Filled? && Cleared(w.tables[c], i)
    ensures c < |Simple(w, Parting(w, c, i)).tables| && Cleared(Simple(w, Parting(w, c, i)).tables[c], i + 1)
  {
    hide Valid, Cleared, GameRules.Next;
    PartingIsGranted(w, c, i);
    MeantIsListed(w, c, Parting(w, c, i).id);
    var v := w.tables[c][i].inv;
    assert Simple(w, Parting(w, c, i)).tables == Without(w.tables, w.invs[v].source, w.invs[v].target, v);
    DropClears(w.tables[c], v, i);
  }

  lemma DropClears(t: Table, v: nat, i: nat)
    requires Ok(t) && Holds(t, i, v) && Cleared(t, i)
    ensures Cleared(Drop(t, v), i + 1)
  {
    hide Ok;
    OneSlot(t, v, i);
  }

  lemma {:induction false} LogoutClears(w: World, c: nat, i: nat)
    requires Valid(w) && c < |w.tables| == |w.loggedIn| && i <= SLOTS && Cleared(w.tables[c], i)
    ensures Cleared(LogoutFrom(w, c, i).tables[c], SLOTS)
    decreases SLOTS - i
  {
    hide Simple;
    if i < SLOTS {
      assert TableOk(w, c);
      if w.tables[c][i].Empty? {
        LogoutClears(w, c, i + 1);
      } else {
        SimpleIsValid(w, Parting(w, c, i));
        PartingClears(w, c, i);
        LogoutClears(Simple(w, Parting(w, c, i)), c, i + 1);
      }
    }
  }

  lemma ClearedIsEmpty(t: Table)
    requires Cleared(t, |t|)
    ensures Names(t) == {}
  {
  }

  /** No table lists an invitation the client is a party to. */
  ghost predicate Gone(u: World, c: nat) {
    && c < |u.tables| && Names(u.tables[c]) == {}
    && forall d, v: nat {:trigger Listed(u, d, v)} :: Listed(u, d, v) ==> v < |u.invs| && !Involves(u.invs[v], c)
  }

  /** After a logout the client's table is empty, and no table lists an invitation it is a party to. */
  lemma LogoutEmpties(w: World, c: nat, u: World)
    requires Valid(w) && c < |w.tables| == |w.loggedIn| && w.loggedIn[c] && u == Served(w, Logout(c))
    ensures Valid(u) && Gone(u, c)
    ensures c < |u.loggedIn| && !u.loggedIn[c] && |u.tables| == |w.tables|
  {
    hide LogoutFrom, Cleared, Names, Simple, InvOk, Ok;
    var m := LogoutFrom(w, c, 0);
    NothingCleared(w.tables[c]);
    LogoutClears(w, c, 0);
    assert TableOk(m, c);
    TableSize(m.tables[c]);
    ClearedIsEmpty(m.tables[c]);
    LoginIsValid(m, c, false);
    EmptyIsGone(u, c);
  }

  lemma TableSize(t: Table)
    requires Ok(t)
    ensures |t| == SLOTS
  {
  }

  lemma EmptyIsGone(u: World, c: nat)
    requires Valid(u) && c < |u.tables| && Names(u.tables[c]) == {}
    ensures Gone(u, c)
  {
    hide Valid, Names;
    forall d, v: nat | Listed(u, d, v)
      ensures v < |u.invs| && !Involves(u.invs[v], c)
    {
      ListedByBoth(u, d, v);
    }
  }

  lemma NothingCleared(t: Table)
    ensures Cleared(t, 0)
  {
  }

  // ----- every run -----

  lemma ServedIsValid(w: World, r: Request)
    requires Valid(w) && r.client < |w.tables|
    ensures Valid(Served(w, r)) && |Served(w, r).tables| == |w.tables|
  {
    hide LogoutFrom, Simple;
    if r.Logout? && w.loggedIn[r.client] {
      LogoutEmpties(w, r.client, Served(w, r));
    } else {
      SimpleIsValid(w, r);
    }
  }

  function NewWorld(clients: nat): World {
    World(seq(clients, _ => seq(SLOTS, _ => Empty)), seq(clients, _ => false), [], [])
  }

  ghost predicate Known(w: World, rs: seq<Request>) {
    forall k {:trigger rs[k]} :: 0 <= k < |rs| ==> rs[k].client < |w.tables|
  }

  ghost function AfterAll(w: World, rs: seq<Request>): (u: World)
    requires Valid(w) && Known(w, rs)
    ensures Valid(u) && |u.tables| == |w.tables|
    decreases |rs|
  {
    if rs == [] then w
    else
      ServedIsValid(w, rs[0]);
      assert forall k :: 0 <= k < |rs[1..]| ==> rs[1..][k] == rs[k + 1];
      AfterAll(Served(w, rs[0]), rs[1..])
  }

  lemma NewWorldIsValid(clients: nat)
    ensures Valid(NewWorld(clients))
  {
    hide Ok, Names;
    var w := NewWorld(clients);
    forall c | 0 <= c < |w.tables|
      ensures TableOk(w, c)
    {
      NewTable();
    }
  }

  /** The world some requests lead to from a fresh start. */
  ghost function Reached(clients: nat, rs: seq<Request>): (u: World)
    requires Known(NewWorld(clients), rs)
    ensures Valid(u) && |u.tables| == clients
  {
    NewWorldIsValid(clients);
    AfterAll(NewWorld(clients), rs)
  }

  /** Over every run both parties list an invitation or neither does, and a listed one is live. */
  lemma RunsKeepTables(clients: nat, rs: seq<Request>, v: nat)
    requires Known(NewWorld(clients), rs) && v < |Reached(clients, rs).invs|
    ensures var u := Reached(clients, rs);
      var n := u.invs[v];
      && (Listed(u, n.source, v) <==> Listed(u, n.target, v))
      && (Listed(u, n.source, v) ==> n.phase != Closed && (n.game == None || InPlay(n.game)))
      && n.refs > 0
  {
    hide AfterAll, Listed, Fair;
    assert InvOk(Reached(clients, rs), v);
  }

  /** An invitation that is listed no more, closed or played to its end, is never changed again. */
  lemma SimpleLeavesUnlisted(w: World, r: Request, v: nat)
    requires Valid(w) && r.client < |w.tables| == |w.loggedIn| && v < |w.invs|
    requires !Listed(w, w.invs[v].source, v)
    ensures Same(w, Simple(w, r), v)
  {
    hide Simple, Listed, Same;
    if About(w, r, v) {
      MeantIsListed(w, r.client, r.id);
      ListedByBoth(w, r.client, v);
    } else {
      OnlyTheMeant(w, r, v);
    }
  }

  lemma {:induction false} LogoutLeavesUnlisted(w: World, c: nat, i: nat, v: nat)
    requires Valid(w) && c < |w.tables| == |w.loggedIn| && i <= SLOTS && v < |w.invs|
    requires !Listed(w, w.invs[v].source, v)
    ensures Same(w, LogoutFrom(w, c, i), v)
    decreases SLOTS - i
  {
    hide Simple, Listed;
    if i < SLOTS {
      assert TableOk(w, c);
      if w.tables[c][i].Empty? {
        LogoutLeavesUnlisted(w, c, i + 1, v);
      } else {
        SimpleIsValid(w, Parting(w, c, i));
        SimpleLeavesUnlisted(w, Parting(w, c, i), v);
        LogoutLeavesUnlisted(Simple(w, Parting(w, c, i)), c, i + 1, v);
      }
    }
  }

  lemma ServedLeavesUnlisted(w: World, r: Request, v: nat)
    requires Valid(w) && r.client < |w.tables| && v < |w.invs| && !Listed(w, w.invs[v].source, v)
    ensures Same(w, Served(w, r), v)
  {
    hide Simple, LogoutFrom, Names;
    if r.Logout? && w.loggedIn[r.client] {
      LogoutLeavesUnlisted(w, r.client, 0, v);
      LoginTouches(LogoutFrom(w, r.client, 0), r.client, false, v);
    } else {
      SimpleLeavesUnlisted(w, r, v);
    }
  }

  lemma {:induction false} UnlistedIsFinal(w: World, rs: seq<Request>, v: nat)
    requires Valid(w) && Known(w, rs) && v < |w.invs| && !Listed(w, w.invs[v].source, v)
    ensures v < |AfterAll(w, rs).invs| && AfterAll(w, rs).invs[v] == w.invs[v]
    ensures !Listed(AfterAll(w, rs), w.invs[v].source, v)
    decreases |rs|
  {
    hide Valid, Served, Listed;
    if rs != [] {
      ServedIsValid(w, rs[0]);
      ServedLeavesUnlisted(w, rs[0], v);
      assert forall k :: 0 <= k < |rs[1..]| ==> rs[1..][k] == rs[k + 1];
      UnlistedIsFinal(Served(w, rs[0]), rs[1..], v);
    }
  }
}
