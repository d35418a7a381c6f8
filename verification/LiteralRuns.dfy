/** Runs of the handlers of hw5 as written: how long they go right, and two that go wrong. */
module LiteralRuns {
  import opened GameRules
  import opened InvitationTable
  import opened LobbyRules
  import opened Wrappers
  import opened LobbyRuns
  import opened LiteralHandlers
  import opened LiteralLogout

  // ----- runs over inv_accept as written -----

  ghost function LiteralAll(w: World, rs: seq<Request>): World
    requires Formed(w) && Known(w, rs)
    decreases |rs|
  {
    if rs == [] then w
    else
      LiteralServedIsFormed(w, rs[0]);
      assert forall k :: 0 <= k < |rs[1..]| ==> rs[1..][k] == rs[k + 1];
      LiteralAll(LiteralServed(w, rs[0]), rs[1..])
  }

  /** Along the run of the repaired handlers no game is accepted again, declined, resigned, or left by a logout. */
  ghost predicate Harmless(w: World, rs: seq<Request>)
    requires Valid(w) && Known(w, rs)
    decreases |rs|
  {
    rs == [] ||
      (ServedIsValid(w, rs[0]);
       assert forall k :: 0 <= k < |rs[1..]| ==> rs[1..][k] == rs[k + 1];
       !Harms(w, rs[0]) && Harmless(Served(w, rs[0]), rs[1..]))
  }

  /** Over a harmless run the code as written reaches what the repaired handlers reach, but for the open state. */
  lemma {:induction false} LiteralRunAgrees(w: World, rs: seq<Request>)
    requires Valid(w) && Known(w, rs) && Harmless(w, rs)
    ensures Formed(Unrecorded(w)) && LiteralAll(Unrecorded(w), rs) == Unrecorded(AfterAll(w, rs))
    decreases |rs|
  {
    hide Valid, Formed, Unrecorded, Served, LiteralServed, Harms;
    UnrecordedIsFormed(w);
    if rs != [] {
      ServedIsValid(w, rs[0]);
      assert forall k :: 0 <= k < |rs[1..]| ==> rs[1..][k] == rs[k + 1];
      TableCount(w);
      LiteralServedAgrees(w, rs[0]);
      LiteralRunAgrees(Served(w, rs[0]), rs[1..]);
      UnrecordedTables(w);
    }
  }

  lemma TableCount(w: World)
    requires Valid(w)
    ensures |w.tables| == |w.loggedIn|
  {
  }

  lemma UnrecordedTables(w: World)
    ensures Unrecorded(w).tables == w.tables
  {
  }

  // ----- the first steps of a run -----

  lemma {:induction false} FirstOf(w: World, r: Request, rest: seq<Request>)
    requires Valid(w) && Known(w, [r] + rest) && !r.Logout?
    ensures r.client < |w.tables| && Valid(Simple(w, r)) && Known(Simple(w, r), rest)
    ensures AfterAll(w, [r] + rest) == AfterAll(Simple(w, r), rest)
    ensures Harmless(w, [r] + rest) <==> !Hazard(w, r) && Harmless(Simple(w, r), rest)
  {
    hide Valid, Simple, Hazard;
    var rs := [r] + rest;
    assert rs[0] == r && rs[1..] == rest;
    assert forall k :: 0 <= k < |rest| ==> rest[k] == rs[k + 1];
    ServedIsValid(w, r);
  }

  /** Two clients, logged in. */
  function Ready(): World {
    NewWorld(2).(loggedIn := [true, true])
  }

  lemma {:induction false} ReadyIsReached(rest: seq<Request>)
    requires Known(NewWorld(2), [Login(0)] + ([Login(1)] + rest))
    ensures Valid(NewWorld(2)) && Valid(Ready()) && Known(Ready(), rest)
    ensures AfterAll(NewWorld(2), [Login(0)] + ([Login(1)] + rest)) == AfterAll(Ready(), rest)
    ensures Harmless(NewWorld(2), [Login(0)] + ([Login(1)] + rest)) <==> Harmless(Ready(), rest)
  {
    hide Valid, AfterAll, Harmless, Known;
    var w := NewWorld(2);
    NewWorldIsValid(2);
    FirstOf(w, Login(0), [Login(1)] + rest);
    var u := Simple(w, Login(0));
    assert u == w.(loggedIn := [true, false]);
    FirstOf(u, Login(1), rest);
    assert Simple(u, Login(1)) == Ready();
  }

  // ----- a game that is replaced -----

  /** Client 0 has invited client 1, who moves first. */
  ghost predicate Invited(w: World, phase: Phase, game: Option<Position>) {
    && |w.tables| == 2 == |w.loggedIn| && w.invs == [Invitation(0, 1, Second, First, phase, game, 5)]
    && Meant(w, 1, 0) == 0
  }

  function Centre(): Position {
    Position(Start().board[4 := 'X'], Second, NullRole, false)
  }

  lemma InvitedStep()
    requires Valid(Ready())
    ensures Invited(Simple(Ready(), Make(0, 1, First)), Open, None) && !Hazard(Ready(), Make(0, 1, First))
  {
    hide Valid;
    var w := Ready();
    assert w.tables[0][0].Empty? && w.tables[1][0].Empty?;
    assert Put(w.tables[1], 0)[0] == Filled(0, 0);
  }

  lemma AcceptedStep(w: World)
    requires Valid(w) && Invited(w, Open, None)
    ensures Invited(Simple(w, Accept(1, 0)), Accepted, Some(Start())) && !Hazard(w, Accept(1, 0))
  {
    hide Valid, InvOf;
  }

  lemma MovedStep(w: World)
    requires Valid(w) && Invited(w, Accepted, Some(Start()))
    ensures Invited(Simple(w, MakeMove(1, 0, "5")), Accepted, Some(Centre())) && !Hazard(w, MakeMove(1, 0, "5"))
  {
    hide Valid, InvOf;
    CentreIsPlayed();
  }

  lemma CentreIsPlayed()
    ensures Allowed(Start(), Move(5, First)) && Next(Start(), Move(5, First)) == Centre()
  {
    var b := Start().board[4 := 'X'];
    assert b[0] == b[1] == b[2] == b[3] == b[5] == SPACE;
    assert Count(b, SPACE) == 1 + Count(b[1..], SPACE);
  }

  /** Accepting as written, the state being open as ever. */
  lemma ReplacedStep(w: World, game: Option<Position>)
    requires Formed(w) && Invited(w, Open, game)
    ensures Invited(LiteralStep(w, Accept(1, 0)), Open, Some(Start()))
  {
    hide Formed, InvOf;
    assert FormedInv(w, 0);
  }

  lemma UnrecordedInvited(w: World, game: Option<Position>)
    requires Invited(w, Accepted, game)
    ensures Invited(Unrecorded(w), Open, game)
  {
    hide InvOf;
  }

  lemma NewIsUnrecorded(clients: nat)
    ensures Unrecorded(NewWorld(clients)) == NewWorld(clients)
  {
  }

  lemma {:induction false} NoMore(w: World)
    requires Valid(w)
    ensures Known(w, []) && AfterAll(w, []) == w && Harmless(w, [])
  {
    hide Valid;
  }

  function Opening(): seq<Request> {
    [Login(0)] + ([Login(1)] + ([Make(0, 1, First)] + ([Accept(1, 0)] + [MakeMove(1, 0, "5")])))
  }

  lemma {:induction false} OpeningReaches(w: World)
    requires w == NewWorld(2)
    ensures Valid(w) && Known(w, Opening())
    ensures Harmless(w, Opening()) && Invited(AfterAll(w, Opening()), Accepted, Some(Centre()))
  {
    hide Valid, AfterAll, Harmless, Simple, Hazard, Invited, Ready, Centre;
    var fourth := [Accept(1, 0)] + [MakeMove(1, 0, "5")];
    NewWorldIsValid(2);
    ReadyIsReached([Make(0, 1, First)] + fourth);
    InvitedStep();
    FirstOf(Ready(), Make(0, 1, First), fourth);
    var a := Simple(Ready(), Make(0, 1, First));
    AcceptedStep(a);
    FirstOf(a, Accept(1, 0), [MakeMove(1, 0, "5")]);
    var b := Simple(a, Accept(1, 0));
    MovedStep(b);
    assert [MakeMove(1, 0, "5")] + [] == [MakeMove(1, 0, "5")];
    FirstOf(b, MakeMove(1, 0, "5"), []);
    NoMore(Simple(b, MakeMove(1, 0, "5")));
  }

  /** A run of the code as written: a game in which the centre was taken is replaced when accepted again. */
  lemma {:induction false} AcceptedTwice(w: World, rs: seq<Request>)
    requires w == NewWorld(2) && rs == Opening()
    ensures Formed(w) && Known(w, rs)
    ensures var u := LiteralAll(w, rs);
      Formed(u) && Invited(u, Open, Some(Centre())) && Invited(LiteralStep(u, Accept(1, 0)), Open, Some(Start()))
  {
    hide Valid, AfterAll, Harmless, Known, Formed, LiteralStep, LiteralAll, Unrecorded, Opening, Centre, NewWorld;
    OpeningReaches(w);
    NewIsUnrecorded(2);
    LiteralRunAgrees(w, rs);
    UnrecordedInvited(AfterAll(w, rs), Some(Centre()));
    UnrecordedIsFormed(AfterAll(w, rs));
    ReplacedStep(LiteralAll(w, rs), Some(Centre()));
  }

  // ----- an invitation that cannot be removed -----

  function Revoking(): seq<Request> {
    [Login(0)] + ([Login(1)] + ([Make(0, 1, First)] + ([Make(0, 1, First)] + [Revoke(0, 0)])))
  }

  /** Client 0 has invited client 1, this many times. */
  ghost predicate Inviting(w: World, count: nat) {
    && count <= SLOTS && |w.tables| == 2 == |w.loggedIn| && w.loggedIn[0] && w.loggedIn[1] && |w.invs| == count
    && InFront(w.tables[0], count) && InFront(w.tables[1], count)
    && forall v {:trigger w.invs[v]} :: 0 <= v < count ==> w.invs[v] == Invitation(0, 1, Second, First, Open, None, 5)
  }

  /** The first slots hold the first invitations, the others are empty. */
  ghost predicate InFront(t: Table, count: nat) {
    |t| == SLOTS && forall i {:trigger t[i]} :: 0 <= i < |t| ==> t[i] == if i < count then Filled(i % IDS, i) else Empty
  }

  lemma {:induction false} InFrontEnds(t: Table, count: nat, i: nat)
    requires InFront(t, count) && i <= count <= SLOTS
    ensures FirstEmpty(t, i) == count
    decreases count - i
  {
    if i < count {
      InFrontEnds(t, count, i + 1);
    }
  }

  lemma InFrontGrows(t: Table, count: nat)
    requires InFront(t, count) && count < SLOTS
    ensures HasRoom(t) && InFront(Put(t, count), count + 1)
  {
    InFrontEnds(t, count, 0);
  }

  lemma OneMore(w: World, count: nat)
    requires Valid(w) && Inviting(w, count) && count < SLOTS
    ensures Inviting(Simple(w, Make(0, 1, First)), count + 1)
  {
    hide Valid, InFront, Put, HasRoom;
    InFrontGrows(w.tables[0], count);
    InFrontGrows(w.tables[1], count);
  }

  /** Two invitations, the first revoked: the search as written for the second trips over the slot of the first. */
  lemma FirstRevoked(w: World)
    requires Valid(w) && Inviting(w, 2)
    ensures var u := Simple(w, Revoke(0, 0));
      && |u.tables| == 2 && Listed(u, 0, 1) && Listed(u, 1, 1)
      && LiteralSearch(u.tables[0], 1, 0) == Trips(0) && LiteralSearch(u.tables[1], 1, 0) == Trips(0)
  {
    hide Valid, InFront;
    TwoInFront(w.tables[0]);
    TwoInFront(w.tables[1]);
    assert w.invs[0].game == None;
  }

  lemma TwoInFront(t: Table)
    requires InFront(t, 2)
    ensures InvOf(t, 0) == 0 && Drop(t, 0) == t[0 := Empty] && 1 in Names(Drop(t, 0))
    ensures LiteralSearch(Drop(t, 0), 1, 0) == Trips(0)
  {
    assert t[0] == Filled(0, 0) && t[1] == Filled(1, 1);
    assert Drop(t, 0)[1].inv == 1;
  }

  lemma RevokingTrips(clients: nat, rs: seq<Request>)
    requires clients == 2 && rs == Revoking()
    ensures Known(NewWorld(clients), rs)
    ensures var u := Reached(clients, rs);
      && Listed(u, 0, 1) && Listed(u, 1, 1)
      && LiteralSearch(u.tables[0], 1, 0) == Trips(0) && LiteralSearch(u.tables[1], 1, 0) == Trips(0)
  {
    hide Valid, AfterAll, Harmless, Simple, Hazard, Inviting, Ready, Listed, LiteralSearch;
    var fourth := [Make(0, 1, First)] + [Revoke(0, 0)];
    NewWorldIsValid(2);
    ReadyIsReached([Make(0, 1, First)] + fourth);
    ReadyInvites();
    FirstOf(Ready(), Make(0, 1, First), fourth);
    OneMore(Ready(), 0);
    var a := Simple(Ready(), Make(0, 1, First));
    FirstOf(a, Make(0, 1, First), [Revoke(0, 0)]);
    OneMore(a, 1);
    var b := Simple(a, Make(0, 1, First));
    assert [Revoke(0, 0)] + [] == [Revoke(0, 0)];
    FirstOf(b, Revoke(0, 0), []);
    NoMore(Simple(b, Revoke(0, 0)));
    FirstRevoked(b);
  }

  lemma ReadyInvites()
    ensures Inviting(Ready(), 0)
  {
  }

  // ----- an invitation taken for another one -----

  /** Three clients, logged in; client 0 then invites client 1. */
  function Meeting(): seq<Request> {
    [Login(0)] + ([Login(1)] + ([Login(2)] + [Make(0, 1, First)]))
  }

  /** Client 1 has one invitation, from client 0, and client 2 has none. */
  ghost predicate OneMet(w: World) {
    && |w.tables| == 3 == |w.loggedIn| && w.loggedIn[1] && w.loggedIn[2] && |w.invs| == 1
    && InFront(w.tables[1], 1) && InFront(w.tables[2], 0)
  }

  lemma {:induction false} MeetingReaches(w: World)
    requires w == NewWorld(3)
    ensures Valid(w) && Known(w, Meeting()) && OneMet(AfterAll(w, Meeting()))
  {
    hide Valid, AfterAll, Harmless, OneMet, InFront, Put;
    NewWorldIsValid(3);
    FirstOf(w, Login(0), [Login(1)] + ([Login(2)] + [Make(0, 1, First)]));
    var a := Simple(w, Login(0));
    FirstOf(a, Login(1), [Login(2)] + [Make(0, 1, First)]);
    var b := Simple(a, Login(1));
    FirstOf(b, Login(2), [Make(0, 1, First)]);
    var c := Simple(b, Login(2));
    assert c == w.(loggedIn := [true, true, true]);
    assert [Make(0, 1, First)] + [] == [Make(0, 1, First)];
    FirstOf(c, Make(0, 1, First), []);
    MetStep(c);
    NoMore(Simple(c, Make(0, 1, First)));
  }

  lemma MetStep(w: World)
    requires Valid(w) && w == NewWorld(3).(loggedIn := [true, true, true])
    ensures OneMet(Simple(w, Make(0, 1, First)))
  {
    hide Valid, Put, HasRoom;
    InFrontGrows(w.tables[0], 0);
    InFrontGrows(w.tables[1], 0);
  }

  /**
   * Client 2 invites client 1 as well. The packet as written carries the id client 2 has for the invitation, by which
   * client 1 means the invitation from client 0.
   */
  lemma InvitedMistaken(w: World, u: World, id: int)
    requires Known(NewWorld(3), Meeting()) && w == Reached(3, Meeting())
    requires u == Served(w, Make(2, 1, First)) && |u.tables| == 3 && id == IdOf(u.tables[2], 1)
    ensures |w.invs| == 1 && Admissible(w, Make(2, 1, First)) && |u.invs| == 2
    ensures Listed(u, 1, 1) && Listed(u, 2, 1) && InvOf(u.tables[1], id) == 0
  {
    hide Valid, AfterAll, Put, InFront, HasRoom, Names;
    MeetingReaches(NewWorld(3));
    InFrontGrows(w.tables[1], 1);
    InFrontGrows(w.tables[2], 0);
    ListedOffered(w, 2, 1, First, 1, 1);
    ListedOffered(w, 2, 1, First, 2, 1);
    PutFirst(w.tables[2], 1);
    IdOfFirst(u.tables[1], 2);
  }

  lemma PutFirst(t: Table, v: nat)
    requires InFront(t, 0)
    ensures IdOf(Put(t, v), v) == 0
  {
    InFrontEnds(t, 0, 0);
  }

  lemma IdOfFirst(t: Table, count: nat)
    requires InFront(t, count) && 0 < count <= SLOTS
    ensures InvOf(t, 0) == 0
  {
    assert t[0] == Filled(0, 0);
  }

  // ----- making a move -----

  datatype Reply = Crashes | Refused | Done

  /** `client_make_move` up to the answer: the game's mutex is taken before the move is looked at. */
  function LiteralMove(w: World, c: nat, id: int, move: string): Reply
    requires c < |w.tables|
  {
    var v := Meant(w, c, id);
    if !(0 <= v < |w.invs|) || !Involves(w.invs[v], c) then Refused
    else if w.invs[v].game == None then Crashes
    else if ParseMove(move) == 0 || |w.invs[v].game.value.board| != 9 then Refused
    else if !Allowed(w.invs[v].game.value, Move(ParseMove(move), RoleOf(w.invs[v], c))) then Refused
    else Done
  }

  /**
   * A move as written crashes exactly when the invitation it names is still open, whatever the move; otherwise it is
   * taken exactly when the repaired handler takes it.
   */
  lemma LiteralMoveCrashes(w: World, c: nat, id: int, move: string)
    requires Valid(w) && c < |w.tables| == |w.loggedIn|
    ensures var v := Meant(w, c, id);
      LiteralMove(w, c, id, move) == Crashes <==> 0 <= v < |w.invs| && w.invs[v].phase == Open
    ensures LiteralMove(w, c, id, move) != Crashes ==>
      (LiteralMove(w, c, id, move) == Done <==> Grants(w, MakeMove(c, id, move)))
  {
    hide Valid, Listed, Fair;
    if Meant(w, c, id) >= 0 {
      MeantIsListed(w, c, id);
      ListedByBoth(w, c, Meant(w, c, id));
    }
  }

  /** One invitation that is not accepted yet: every move on it, well-formed or not, crashes. */
  lemma MoveCrashesOn(w: World, rs: seq<Request>, move: string)
    requires rs == [Login(0)] + ([Login(1)] + [Make(0, 1, First)])
    ensures Known(NewWorld(2), rs)
    ensures w == Reached(2, rs) ==> |w.tables| == 2 && LiteralMove(w, 1, 0, move) == Crashes
  {
    hide Valid, AfterAll, Harmless, Simple, Hazard, Invited, Ready, LiteralMove;
    NewWorldIsValid(2);
    ReadyIsReached([Make(0, 1, First)]);
    InvitedStep();
    assert [Make(0, 1, First)] + [] == [Make(0, 1, First)];
    FirstOf(Ready(), Make(0, 1, First), []);
    NoMore(Simple(Ready(), Make(0, 1, First)));
    InvitedCrashes(Simple(Ready(), Make(0, 1, First)), move);
  }

  lemma InvitedCrashes(w: World, move: string)
    requires Invited(w, Open, None)
    ensures |w.tables| == 2 && LiteralMove(w, 1, 0, move) == Crashes
  {
    hide InvOf;
  }
}
