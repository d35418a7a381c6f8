/** Handlers of hw5 exactly as written, and exactly when they do what they are for. */
module LiteralHandlers {
  import opened GameRules
  import opened InvitationTable
  import opened LobbyRules
  import opened Wrappers
  import opened LobbyEffects

  // ----- client_remove_invitation looks into every slot, in use or not -----

  /** The slot the search stops at, or the empty slot it trips over. */
  datatype Search = Stops(slot: nat) | Trips(slot: nat) | Ends

  function LiteralSearch(t: Table, v: nat, i: nat): Search
    requires i <= |t|
    decreases |t| - i
  {
    if i == |t| then Search.Ends
    else if t[i].Empty? then Trips(i)
    else if t[i].inv == v then Stops(i)
    else LiteralSearch(t, v, i + 1)
  }

  /** It finds what the repaired search finds exactly when no empty slot comes before the invitation. */
  lemma {:induction false} LiteralSearchStops(t: Table, v: nat, i: nat)
    requires i <= |t|
    ensures LiteralSearch(t, v, i) == Stops(FindInv(t, v, i)) <==> FindInv(t, v, i) < FirstEmpty(t, i)
    ensures LiteralSearch(t, v, i).Trips? <==> FirstEmpty(t, i) < |t| && FirstEmpty(t, i) < FindInv(t, v, i)
    ensures LiteralSearch(t, v, i).Stops? ==> LiteralSearch(t, v, i) == Stops(FindInv(t, v, i))
    decreases |t| - i
  {
    if i < |t| && t[i].Filled? && t[i].inv != v {
      LiteralSearchStops(t, v, i + 1);
    }
  }

  // ----- inv_accept leaves the state open -----

  /** The world as the code leaves it: an invitation with a game is in the open state still. */
  function Unrecorded(w: World): World {
    w.(invs := seq(|w.invs|, v requires 0 <= v < |w.invs| => LeftOpen(w.invs[v])))
  }

  function LeftOpen(n: Invitation): Invitation {
    if n.phase == Accepted then n.(phase := Open) else n
  }

  ghost predicate FormedInv(w: World, v: int) {
    0 <= v < |w.invs| ==> w.invs[v].source < |w.tables| && w.invs[v].target < |w.tables|
  }

  /** The parties of every invitation exist. */
  ghost predicate Formed(w: World) {
    |w.loggedIn| == |w.tables| && forall v {:trigger FormedInv(w, v)} :: FormedInv(w, v)
  }

  /** Accepting as written: a new game, and no new state. */
  function LiteralAcceptedBy(w: World, v: nat): World
    requires v < |w.invs| && w.invs[v].source < |w.tables|
  {
    var n := w.invs[v];
    AcceptedBy(w, v).(invs := w.invs[v := n.(game := Some(Start()))])
  }

  /** The handlers over `inv_accept` as written; only accepting differs, the rest reads what it left. */
  ghost function LiteralStep(w: World, r: Request): World
    requires Formed(w) && r.client < |w.tables|
  {
    if !Grants(w, r) || !Admissible(w, r) then w
    else match r
      case Login(c) => w.(loggedIn := w.loggedIn[c := true])
      case Make(c, target, role) => Offered(w, c, target, role)
      case Revoke(c, id) => assert FormedInv(w, Meant(w, c, id)); EndedBy(w, c, Meant(w, c, id), REVOKED)
      case Decline(c, id) => assert FormedInv(w, Meant(w, c, id)); EndedBy(w, c, Meant(w, c, id), DECLINED)
      case Accept(c, id) => assert FormedInv(w, Meant(w, c, id)); LiteralAcceptedBy(w, Meant(w, c, id))
      case ResignGame(c, id) => assert FormedInv(w, Meant(w, c, id)); EndedBy(w, c, Meant(w, c, id), RESIGNED)
      case MakeMove(c, id, move) =>
        assert FormedInv(w, Meant(w, c, id)); MovedBy(w, c, Meant(w, c, id), ParseMove(move))
      case Logout(c) => w
  }

  /** The client accepts or declines an invitation made to it that has a game, or resigns the game. */
  predicate Hazard(w: World, r: Request)
    requires r.client < |w.tables|
  {
    && (r.Accept? || r.Decline? || r.ResignGame?)
    && var v := Meant(w, r.client, r.id);
    && 0 <= v < |w.invs| && w.invs[v].game.Some? && (r.ResignGame? || w.invs[v].target == r.client)
  }

  lemma UnrecordedIsFormed(w: World)
    requires Valid(w)
    ensures Formed(Unrecorded(w))
  {
    hide Listed;
    var u := Unrecorded(w);
    forall v
      ensures FormedInv(u, v)
    {
      if 0 <= v < |u.invs| {
        assert InvOk(w, v);
      }
    }
  }

  // ----- one step -----

  lemma RetiredCommutes(w: World, v: nat, n: Invitation, packets: seq<Packet>)
    requires v < |w.invs|
    ensures Retired(Unrecorded(w), v, LeftOpen(n), packets) == Unrecorded(Retired(w, v, n, packets))
  {
    hide Without;
  }

  lemma ChangedCommutes(w: World, v: nat, n: Invitation, packets: seq<Packet>)
    requires v < |w.invs|
    ensures Changed(Unrecorded(w), v, LeftOpen(n), packets) == Unrecorded(Changed(w, v, n, packets))
  {
  }

  lemma OfferCommutes(w: World, s: nat, t: nat, role: Role)
    requires t < |w.tables|
    ensures Offered(Unrecorded(w), s, t, role) == Unrecorded(Offered(w, s, t, role))
  {
    hide With, Put;
  }

  lemma RetiredGame(w: World, v: nat, n: Invitation, packets: seq<Packet>)
    requires v < |w.invs|
    ensures v < |Retired(w, v, n, packets).invs| && Retired(w, v, n, packets).invs[v].game == n.game
    ensures Unrecorded(Retired(w, v, n, packets)).invs[v].game == n.game
  {
    hide Without;
  }

  /** Ending an invitation comes to the same exactly when it has no game: as written a game is not resigned. */
  lemma EndCommutes(w: World, c: nat, v: nat, kind: Kind)
    requires v < |w.invs| && InvOk(w, v) && Listed(w, w.invs[v].source, v)
    ensures EndedBy(Unrecorded(w), c, v, kind) == Unrecorded(EndedBy(w, c, v, kind)) <==> w.invs[v].game == None
  {
    hide Retired, Listed, Balanced, Decided, IsBoard;
    var n := w.invs[v];
    var other := Opponent(n, c);
    var told := [Packet(kind, other, IdOf(w.tables[other], v), NullRole, [])];
    if n.game == None {
      RetiredCommutes(w, v, ClosedBy(n, RoleOf(n, c)), told);
    } else {
      RetiredGame(w, v, ClosedBy(n, RoleOf(n, c)), told);
      RetiredGame(Unrecorded(w), v, ClosedBy(LeftOpen(n), RoleOf(n, c)), told);
    }
  }

  lemma AcceptCommutes(w: World, v: nat)
    requires v < |w.invs| && w.invs[v].source < |w.tables| && w.invs[v].phase == Open
    ensures LiteralAcceptedBy(Unrecorded(w), v) == Unrecorded(AcceptedBy(w, v))
  {
  }

  lemma AcceptSends(w: World, v: nat)
    requires v < |w.invs| && w.invs[v].source < |w.tables|
    ensures |LiteralAcceptedBy(w, v).sent| == |w.sent| + 1
  {
  }

  lemma MoveCommutes(w: World, c: nat, v: nat, space: int)
    requires v < |w.invs| && w.invs[v].game.Some? && |w.invs[v].game.value.board| == 9
    requires w.invs[v].source < |w.tables| && w.invs[v].target < |w.tables|
    ensures MovedBy(Unrecorded(w), c, v, space) == Unrecorded(MovedBy(w, c, v, space))
  {
    hide Retired, Changed, GameRules.Next;
    var n := w.invs[v];
    var g := Next(n.game.value, Move(space, RoleOf(n, c)));
    var told := [Packet(MOVED, Opponent(n, c), IdOf(w.tables[Opponent(n, c)], v), NullRole, g.board)];
    if g.over {
      RetiredCommutes(w, v, n.(game := Some(g)),
                      told + [Packet(ENDED, n.source, IdOf(w.tables[n.source], v), g.winner, []),
                              Packet(ENDED, n.target, IdOf(w.tables[n.target], v), g.winner, [])]);
    } else {
      ChangedCommutes(w, v, n.(game := Some(g)), told);
    }
  }

  lemma LiteralOnListed(w: World, r: Request, v: nat)
    requires Valid(w) && r.client < |w.tables| == |w.loggedIn| && !r.Login? && !r.Make? && !r.Logout?
    requires v == Meant(w, r.client, r.id) && v < |w.invs| && InvOk(w, v) && Listed(w, w.invs[v].source, v)
    requires Formed(Unrecorded(w))
    ensures LiteralStep(Unrecorded(w), r) == Unrecorded(Simple(w, r)) <==> !Hazard(w, r)
  {
    hide Valid, Formed, Listed, EndedBy, MovedBy, Allowed, Balanced, Decided, IsBoard, AcceptedBy, LiteralAcceptedBy;
    match r
    case Revoke(c, id) => EndCommutes(w, c, v, REVOKED);
    case Decline(c, id) => EndCommutes(w, c, v, DECLINED);
    case ResignGame(c, id) => EndCommutes(w, c, v, RESIGNED);
    case Accept(c, id) =>
      if w.invs[v].phase == Open {
        AcceptCommutes(w, v);
      } else {
        AcceptSends(Unrecorded(w), v);
      }
    case MakeMove(c, id, move) =>
      if Grants(w, r) {
        MoveCommutes(w, c, v, ParseMove(move));
      }
  }

  /**
   * A handler over `inv_accept` as written does what it does over the repaired one exactly unless an invitation that
   * has a game is accepted or declined by its target, or the game is resigned.
   */
  lemma LiteralStepAgrees(w: World, r: Request)
    requires Valid(w) && r.client < |w.tables| == |w.loggedIn|
    ensures Formed(Unrecorded(w))
    ensures LiteralStep(Unrecorded(w), r) == Unrecorded(Simple(w, r)) <==> !Hazard(w, r)
  {
    hide Valid, Formed, Listed, InvOk, EndedBy, MovedBy, AcceptedBy, LiteralAcceptedBy, Allowed, HasRoom, Offered;
    UnrecordedIsFormed(w);
    match r
    case Login(c) =>
    case Logout(c) =>
    case Make(c, target, role) =>
      if Admissible(w, r) {
        OfferCommutes(w, c, target, role);
      }
    case _ =>
      if Meant(w, r.client, r.id) >= 0 {
        MeantIsListed(w, r.client, r.id);
        ListedByBoth(w, r.client, Meant(w, r.client, r.id));
        LiteralOnListed(w, r, Meant(w, r.client, r.id));
      }
  }

  // ----- what ending promises -----

  /** With the state left open, revoking, declining and resigning do what they are for exactly when there is no game. */
  lemma LiteralEndEffect(w: World, c: nat, v: nat, kind: Kind)
    requires Valid(w) && Listed(w, c, v)
    ensures v < |w.invs| && Opponent(w.invs[v], c) < |w.tables|
    ensures EndedFor(w, EndedBy(Unrecorded(w), c, v, kind), c, v, kind) <==> w.invs[v].game == None
  {
    hide Valid, EndedBy, EndedFor, Fair;
    ListedByBoth(w, c, v);
    assert InvOk(w, v) by {
      ListedInv(w, c, v);
    }
    EndCommutes(w, c, v, kind);
    if w.invs[v].game == None {
      EndedByEnds(w, c, v, kind);
      UnrecordedSame(w, EndedBy(w, c, v, kind), c, v, kind);
    } else {
      LiteralEndKeepsGame(w, c, v, kind);
    }
  }

  lemma ListedInv(w: World, c: nat, v: nat)
    requires Valid(w) && Listed(w, c, v)
    ensures InvOk(w, v)
  {
    ListedByBoth(w, c, v);
  }

  lemma UnrecordedSame(w: World, u: World, c: nat, v: nat, kind: Kind)
    requires EndedFor(w, u, c, v, kind)
    ensures EndedFor(w, Unrecorded(u), c, v, kind)
  {
    hide Understood, Names;
    assert forall d {:trigger Listed(Unrecorded(u), d, v)} :: Listed(Unrecorded(u), d, v) <==> Listed(u, d, v);
  }

  lemma LiteralEndKeepsGame(w: World, c: nat, v: nat, kind: Kind)
    requires v < |w.invs| && InvOk(w, v) && Listed(w, w.invs[v].source, v) && w.invs[v].game != None
    ensures !EndedFor(w, EndedBy(Unrecorded(w), c, v, kind), c, v, kind)
  {
    hide Fair, Unlisted, Understood, Listed, Retired;
    var n := w.invs[v];
    var other := Opponent(n, c);
    var told := [Packet(kind, other, IdOf(w.tables[other], v), NullRole, [])];
    RetiredGame(Unrecorded(w), v, ClosedBy(LeftOpen(n), RoleOf(n, c)), told);
  }

  // ----- what accepting promises -----

  /**
   * Accepting a listed invitation as written always ends in the starting position: it replaces a game already begun
   * exactly when the invitation has one with a piece on the board.
   */
  lemma LiteralAcceptReplaces(w: World, c: nat, id: int)
    requires Valid(w) && c < |w.tables| == |w.loggedIn| && Meant(w, c, id) >= 0
    ensures Formed(Unrecorded(w)) && Meant(w, c, id) < |w.invs|
    ensures var v := Meant(w, c, id);
      var game, after := w.invs[v].game, LiteralStep(Unrecorded(w), Accept(c, id)).invs;
      && v < |after|
      && (game.Some? && after[v].game != game
          <==> w.invs[v].target == c && game.Some? && Count(game.value.board, SPACE) < 9)
  {
    hide Valid, Listed, Fair, Count;
    UnrecordedIsFormed(w);
    MeantIsListed(w, c, id);
    ListedByBoth(w, c, Meant(w, c, id));
    var game := w.invs[Meant(w, c, id)].game;
    if game.Some? {
      FreshBoard(game.value);
    }
  }

  /** Only the starting position has an empty board. */
  lemma FreshBoard(g: Position)
    requires Fair(g) && !g.over
    ensures g == Start() <==> Count(g.board, SPACE) == 9
    ensures Count(g.board, SPACE) <= 9
  {
    hide HasLine;
    StartCounts(SPACE);
    AllSpace(g.board);
    if Count(g.board, SPACE) == 9 {
      assert g.board == Start().board;
      StartCounts('X');
      StartCounts('O');
    }
  }

  lemma {:induction false} AllSpace(b: seq<char>)
    ensures Count(b, SPACE) <= |b|
    ensures Count(b, SPACE) == |b| ==> forall i {:trigger b[i]} :: 0 <= i < |b| ==> b[i] == SPACE
    decreases |b|
  {
    if b != [] {
      AllSpace(b[1..]);
      forall i | 0 <= i < |b| && Count(b, SPACE) == |b|
        ensures b[i] == SPACE
      {
        assert i > 0 ==> b[1..][i - 1] == b[i];
      }
    }
  }
}
