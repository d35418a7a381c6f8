/**
 * Invitations between clients (hw5/src/client.c, hw5/src/invitation.c) as one state changed by one handler at a time.
 * Clients and invitations go by their numbers.
 */
module LobbyRules {
  import opened GameRules
  import opened InvitationTable
  import opened Wrappers

  datatype Phase = Open | Accepted | Closed

  datatype Invitation = Invitation(
    source: nat, target: nat, sourceRole: Role, targetRole: Role,
    phase: Phase, game: Option<Position>, refs: int)

  datatype Kind = INVITED | REVOKED | DECLINED | ACCEPTED | RESIGNED | MOVED | ENDED

  /** A packet sent to a client: the client's id for the invitation, a role and a board where the kind has one. */
  datatype Packet = Packet(kind: Kind, to: nat, id: int, role: Role, board: seq<char>)

  datatype World = World(tables: seq<Table>, loggedIn: seq<bool>, invs: seq<Invitation>, sent: seq<Packet>)

  datatype Request =
    | Login(client: nat)
    | Make(client: nat, target: nat, role: Role)
    | Revoke(client: nat, id: int)
    | Decline(client: nat, id: int)
    | Accept(client: nat, id: int)
    | ResignGame(client: nat, id: int)
    | MakeMove(client: nat, id: int, move: string)
    | Logout(client: nat)

  // ----- invariants -----

  ghost predicate Listed(w: World, c: int, v: nat) {
    0 <= c < |w.tables| && v in Names(w.tables[c])
  }

  predicate Involves(n: Invitation, c: nat) {
    n.source == c || n.target == c
  }

  /** A game in play. */
  ghost predicate InPlay(game: Option<Position>) {
    game.Some? && Fair(game.value) && !game.value.over
  }

  /** What holds of every invitation: both parties list it or neither does, and only a live one is listed. */
  ghost predicate InvOk(w: World, v: nat) {
    v < |w.invs| &&
    var n := w.invs[v];
    && n.source < |w.tables| && n.target < |w.tables| && n.source != n.target
    && n.sourceRole != NullRole && n.targetRole == Other(n.sourceRole)
    && (Listed(w, n.source, v) <==> Listed(w, n.target, v))
    && (Listed(w, n.source, v) ==> (n.phase == Open && n.game == None) || (n.phase == Accepted && InPlay(n.game)))
    && (!Listed(w, n.source, v) ==> n.phase == Closed || (n.game.Some? && n.game.value.over))
    && n.refs == (if Listed(w, n.source, v) then 5 else 3)
  }

  ghost predicate NameOk(w: World, c: nat, v: nat) {
    v < |w.invs| && Involves(w.invs[v], c)
  }

  ghost predicate TableOk(w: World, c: nat) {
    && c < |w.tables| == |w.loggedIn|
    && Ok(w.tables[c])
    && (forall v {:trigger NameOk(w, c, v)} :: v in Names(w.tables[c]) ==> NameOk(w, c, v))
    && (!w.loggedIn[c] ==> Names(w.tables[c]) == {})
  }

  ghost predicate Valid(w: World) {
    && |w.tables| == |w.loggedIn|
    && (forall c {:trigger TableOk(w, c)} :: 0 <= c < |w.tables| ==> TableOk(w, c))
    && (forall v {:trigger InvOk(w, v)} :: 0 <= v < |w.invs| ==> InvOk(w, v))
  }

  // ----- steps -----

  /** Takes invitation `v` out of two tables. */
  function Without(tables: seq<Table>, s: nat, t: nat, v: nat): seq<Table> {
    seq(|tables|, c requires 0 <= c < |tables| => if c == s || c == t then Drop(tables[c], v) else tables[c])
  }

  function With(tables: seq<Table>, s: nat, t: nat, v: nat): seq<Table> {
    seq(|tables|, c requires 0 <= c < |tables| => if c == s || c == t then Put(tables[c], v) else tables[c])
  }

  /** Invitation `v` becomes `n` and leaves both tables, each table giving up its reference. */
  function Retired(w: World, v: nat, n: Invitation, packets: seq<Packet>): World
    requires v < |w.invs|
  {
    World(Without(w.tables, n.source, n.target, v), w.loggedIn,
          w.invs[v := n.(refs := n.refs - 2)], w.sent + packets)
  }

  function Changed(w: World, v: nat, n: Invitation, packets: seq<Packet>): World
    requires v < |w.invs|
  {
    w.(invs := w.invs[v := n], sent := w.sent + packets)
  }

  function RoleOf(n: Invitation, c: nat): Role {
    if n.source == c then n.sourceRole else n.targetRole
  }

  function Opponent(n: Invitation, c: nat): nat {
    if n.source == c then n.target else n.source
  }

  /** `inv_close` by the player of `role`: a game in play is resigned. */
  function ClosedBy(n: Invitation, role: Role): Invitation {
    n.(phase := Closed,
       game := match n.game
         case Some(g) => (if n.phase == Accepted && |g.board| == 9 then Some(Next(g, Resign(role))) else n.game)
         case None => None)
  }

  /** The invitation the client means, if any. */
  function Meant(w: World, c: nat, id: int): int
    requires c < |w.tables|
  {
    InvOf(w.tables[c], id)
  }

  /** The one-character moves '1' to '9'; zero for anything else. */
  function ParseMove(move: string): int {
    if |move| == 1 && '1' <= move[0] <= '9' then move[0] as int - '0' as int else 0
  }

  /** Whether the handler succeeds. */
  predicate Grants(w: World, r: Request)
    requires |w.loggedIn| == |w.tables| && r.client < |w.tables|
  {
    match r
    case Login(c) => !w.loggedIn[c]
    case Make(c, target, role) => c != target
    case Revoke(c, id) =>
      var v := Meant(w, c, id);
      0 <= v < |w.invs| && w.invs[v].source == c && w.invs[v].game == None
    case Decline(c, id) =>
      var v := Meant(w, c, id);
      0 <= v < |w.invs| && w.invs[v].target == c
    case Accept(c, id) =>
      var v := Meant(w, c, id);
      0 <= v < |w.invs| && w.invs[v].target == c && w.invs[v].phase == Open
    case ResignGame(c, id) =>
      var v := Meant(w, c, id);
      0 <= v < |w.invs| && w.invs[v].game.Some? && !w.invs[v].game.value.over
    case MakeMove(c, id, move) =>
      var v := Meant(w, c, id);
      && 0 <= v < |w.invs| && w.invs[v].game.Some? && |w.invs[v].game.value.board| == 9
      && Allowed(w.invs[v].game.value, Move(ParseMove(move), RoleOf(w.invs[v], c)))
    case Logout(c) => w.loggedIn[c]
  }

  /** What a caller has to see to: the clients exist, an inviting and an invited client are logged in and have room. */
  ghost predicate Admissible(w: World, r: Request) {
    && |w.loggedIn| == |w.tables| && r.client < |w.tables|
    && (r.Make? ==> r.target < |w.tables| && r.role != NullRole
                    && w.loggedIn[r.client] && w.loggedIn[r.target]
                    && HasRoom(w.tables[r.client]) && HasRoom(w.tables[r.target]))
  }

  /** The world after a new invitation: it stands in both tables, and the target is told its own id for it. */
  function Offered(w: World, s: nat, t: nat, role: Role): World
    requires t < |w.tables|
  {
    var v := |w.invs|;
    World(With(w.tables, s, t, v), w.loggedIn,
          w.invs + [Invitation(s, t, Other(role), role, Open, None, 5)],
          w.sent + [Packet(INVITED, t, IdOf(Put(w.tables[t], v), v), role, [])])
  }

  /** Ends an invitation without a move; the other party is told its own id for it. */
  function EndedBy(w: World, c: nat, v: nat, kind: Kind): World
    requires v < |w.invs| && Opponent(w.invs[v], c) < |w.tables|
  {
    var n := w.invs[v];
    var other := Opponent(n, c);
    Retired(w, v, ClosedBy(n, RoleOf(n, c)), [Packet(kind, other, IdOf(w.tables[other], v), NullRole, [])])
  }

  function MovedBy(w: World, c: nat, v: nat, space: int): World
    requires v < |w.invs| && w.invs[v].game.Some? && |w.invs[v].game.value.board| == 9
    requires w.invs[v].source < |w.tables| && w.invs[v].target < |w.tables|
  {
    var n := w.invs[v];
    var g := Next(n.game.value, Move(space, RoleOf(n, c)));
    var m := n.(game := Some(g));
    var told := [Packet(MOVED, Opponent(n, c), IdOf(w.tables[Opponent(n, c)], v), NullRole, g.board)];
    if g.over then
      Retired(w, v, m, told + [Packet(ENDED, n.source, IdOf(w.tables[n.source], v), g.winner, []),
                               Packet(ENDED, n.target, IdOf(w.tables[n.target], v), g.winner, [])])
    else
      Changed(w, v, m, told)
  }

  function AcceptedBy(w: World, v: nat): World
    requires v < |w.invs| && w.invs[v].source < |w.tables|
  {
    var n := w.invs[v];
    var shown := if n.targetRole == First then [] else Start().board;
    Changed(w, v, n.(phase := Accepted, game := Some(Start())),
            [Packet(ACCEPTED, n.source, IdOf(w.tables[n.source], v), NullRole, shown)])
  }

  /** Every request but logging out. */
  ghost function Simple(w: World, r: Request): World
    requires Valid(w) && r.client < |w.tables|
  {
    if !Grants(w, r) || !Admissible(w, r) then w
    else match r
      case Login(c) => w.(loggedIn := w.loggedIn[c := true])
      case Make(c, target, role) => Offered(w, c, target, role)
      case Revoke(c, id) => assert InvOk(w, Meant(w, c, id)); EndedBy(w, c, Meant(w, c, id), REVOKED)
      case Decline(c, id) => assert InvOk(w, Meant(w, c, id)); EndedBy(w, c, Meant(w, c, id), DECLINED)
      case Accept(c, id) => assert InvOk(w, Meant(w, c, id)); AcceptedBy(w, Meant(w, c, id))
      case ResignGame(c, id) => assert InvOk(w, Meant(w, c, id)); EndedBy(w, c, Meant(w, c, id), RESIGNED)
      case MakeMove(c, id, move) =>
        assert InvOk(w, Meant(w, c, id)); MovedBy(w, c, Meant(w, c, id), ParseMove(move))
      case Logout(c) => w
  }

  // ----- steps keep the invariants -----

  lemma MeantIsListed(w: World, c: nat, id: int)
    requires Valid(w) && c < |w.tables| && Meant(w, c, id) >= 0
    ensures Listed(w, c, Meant(w, c, id))
    ensures Meant(w, c, id) < |w.invs| && InvOk(w, Meant(w, c, id)) && Involves(w.invs[Meant(w, c, id)], c)
  {
    hide Ok;
    var t, v := w.tables[c], Meant(w, c, id);
    assert TableOk(w, c);
    assert t[FindId(t, id, 0)].inv in Names(t);
    assert NameOk(w, c, v);
    assert InvOk(w, v);
  }

  /** Retiring takes an invitation off every list and no other off any. */
  lemma ListedWithout(w: World, v: nat, n: Invitation, packets: seq<Packet>, c: int, x: nat)
    requires Valid(w) && v < |w.invs| && n.source == w.invs[v].source && n.target == w.invs[v].target
    ensures Listed(Retired(w, v, n, packets), c, x) <==> Listed(w, c, x) && x != v
  {
    hide Ok, Names, Drop;
    if 0 <= c < |w.tables| {
      assert TableOk(w, c);
      DropNames(w.tables[c], v);
      if v in Names(w.tables[c]) {
        assert NameOk(w, c, v);
      }
    }
  }

  lemma RetiredTable(w: World, v: nat, n: Invitation, packets: seq<Packet>, c: nat)
    requires Valid(w) && v < |w.invs| && n.source == w.invs[v].source && n.target == w.invs[v].target
    requires c < |w.tables|
    ensures TableOk(Retired(w, v, n, packets), c)
  {
    hide Ok, Names, Drop;
    var u := Retired(w, v, n, packets);
    assert TableOk(w, c);
    DropKeepsOk(w.tables[c], v);
    DropNames(w.tables[c], v);
    forall x | x in Names(u.tables[c])
      ensures NameOk(u, c, x)
    {
      assert NameOk(w, c, x);
    }
  }

  lemma RetiredInv(w: World, v: nat, n: Invitation, packets: seq<Packet>, x: nat)
    requires Valid(w) && v < |w.invs| && Listed(w, w.invs[v].source, v)
    requires n == w.invs[v].(phase := n.phase, game := n.game)
    requires n.phase == Closed || (n.game.Some? && n.game.value.over)
    requires x < |w.invs|
    ensures InvOk(Retired(w, v, n, packets), x)
  {
    hide Listed, Retired;
    var u := Retired(w, v, n, packets);
    assert InvOk(w, x);
    ListedWithout(w, v, n, packets, w.invs[x].source, x);
    ListedWithout(w, v, n, packets, w.invs[x].target, x);
    RetiredShape(w, v, n, packets, x);
  }

  lemma RetiredShape(w: World, v: nat, n: Invitation, packets: seq<Packet>, x: nat)
    requires v < |w.invs| && x < |w.invs|
    ensures var u := Retired(w, v, n, packets);
      && |u.tables| == |w.tables| && |u.loggedIn| == |w.loggedIn| && |u.invs| == |w.invs|
      && u.invs[x] == if x == v then n.(refs := n.refs - 2) else w.invs[x]
  {
  }

  lemma RetiredIsValid(w: World, v: nat, n: Invitation, packets: seq<Packet>)
    requires Valid(w) && v < |w.invs| && Listed(w, w.invs[v].source, v)
    requires n == w.invs[v].(phase := n.phase, game := n.game)
    requires n.phase == Closed || (n.game.Some? && n.game.value.over)
    ensures Valid(Retired(w, v, n, packets))
  {
    hide TableOk, InvOk, Retired;
    var u := Retired(w, v, n, packets);
    RetiredShape(w, v, n, packets, v);
    forall c | 0 <= c < |u.tables|
      ensures TableOk(u, c)
    {
      RetiredTable(w, v, n, packets, c);
    }
    forall x | 0 <= x < |u.invs|
      ensures InvOk(u, x)
    {
      RetiredInv(w, v, n, packets, x);
    }
  }

  lemma ChangedIsValid(w: World, v: nat, n: Invitation, packets: seq<Packet>)
    requires Valid(w) && v < |w.invs| && Listed(w, w.invs[v].source, v)
    requires n == w.invs[v].(phase := n.phase, game := n.game)
    requires n.phase == Accepted && InPlay(n.game)
    ensures Valid(Changed(w, v, n, packets))
  {
    hide Ok, Names, Fair;
    var u := Changed(w, v, n, packets);
    forall c | 0 <= c < |u.tables|
      ensures TableOk(u, c)
    {
      assert TableOk(w, c);
      forall x | x in Names(u.tables[c])
        ensures NameOk(u, c, x)
      {
        assert NameOk(w, c, x);
      }
    }
    forall x | 0 <= x < |u.invs|
      ensures InvOk(u, x)
    {
      assert InvOk(w, x);
    }
  }

  lemma ListedOffered(w: World, s: nat, t: nat, role: Role, c: int, x: nat)
    requires Valid(w) && s < |w.tables| && t < |w.tables| && HasRoom(w.tables[s]) && HasRoom(w.tables[t])
    ensures Listed(Offered(w, s, t, role), c, x) <==> Listed(w, c, x) || (x == |w.invs| && (c == s || c == t))
  {
    hide Ok, Names, Put, HasRoom;
    if 0 <= c < |w.tables| && (c == s || c == t) {
      PutNames(w.tables[c], |w.invs|);
    }
  }

  lemma OfferedTable(w: World, s: nat, t: nat, role: Role, c: nat)
    requires Valid(w) && Admissible(w, Make(s, t, role)) && c < |w.tables|
    ensures TableOk(Offered(w, s, t, role), c)
  {
    hide Ok, Names, Put, HasRoom;
    var u, v := Offered(w, s, t, role), |w.invs|;
    assert TableOk(w, c);
    assert v in Names(w.tables[c]) ==> NameOk(w, c, v);
    if c == s || c == t {
      PutNames(w.tables[c], v);
      PutKeepsOk(w.tables[c], v);
    }
    forall x | x in Names(u.tables[c])
      ensures NameOk(u, c, x)
    {
      assert x != v ==> NameOk(w, c, x);
    }
  }

  lemma OfferedInv(w: World, s: nat, t: nat, role: Role, x: nat)
    requires Valid(w) && Admissible(w, Make(s, t, role)) && s != t && x <= |w.invs|
    ensures InvOk(Offered(w, s, t, role), x)
  {
    hide Listed;
    var u := Offered(w, s, t, role);
    if x < |w.invs| {
      assert InvOk(w, x);
      assert u.invs[x] == w.invs[x];
    }
    ListedOffered(w, s, t, role, u.invs[x].source, x);
    ListedOffered(w, s, t, role, u.invs[x].target, x);
  }

  lemma OfferedIsValid(w: World, s: nat, t: nat, role: Role)
    requires Valid(w) && Admissible(w, Make(s, t, role)) && s != t
    ensures Valid(Offered(w, s, t, role))
  {
    hide TableOk, InvOk;
    var u := Offered(w, s, t, role);
    forall c | 0 <= c < |u.tables|
      ensures TableOk(u, c)
    {
      OfferedTable(w, s, t, role, c);
    }
    forall x | 0 <= x < |u.invs|
      ensures InvOk(u, x)
    {
      OfferedInv(w, s, t, role, x);
    }
  }

  lemma LoginIsValid(w: World, c: nat, on: bool)
    requires Valid(w) && c < |w.tables| && (on || Names(w.tables[c]) == {})
    ensures Valid(w.(loggedIn := w.loggedIn[c := on]))
  {
    hide Ok, Names, Fair;
    var u := w.(loggedIn := w.loggedIn[c := on]);
    forall d | 0 <= d < |u.tables|
      ensures TableOk(u, d)
    {
      assert TableOk(w, d);
      forall x | x in Names(u.tables[d])
        ensures NameOk(u, d, x)
      {
        assert NameOk(w, d, x);
      }
    }
    forall x | 0 <= x < |u.invs|
      ensures InvOk(u, x)
    {
      assert InvOk(w, x);
    }
  }

  /** Either party's list tells whether an invitation is live. */
  lemma ListedByBoth(w: World, c: nat, v: nat)
    requires Valid(w) && Listed(w, c, v)
    ensures v < |w.invs| && Listed(w, w.invs[v].source, v) && Listed(w, w.invs[v].target, v)
    ensures Involves(w.invs[v], c)
  {
    hide Ok, Fair;
    assert TableOk(w, c);
    assert NameOk(w, c, v);
    assert InvOk(w, v);
  }

  lemma EndedByIsValid(w: World, c: nat, v: nat, kind: Kind)
    requires Valid(w) && Listed(w, c, v) && v < |w.invs| && InvOk(w, v)
    ensures Valid(EndedBy(w, c, v, kind))
  {
    hide Valid, Fair, Listed, Retired, GameRules.Next;
    ListedByBoth(w, c, v);
    var n := w.invs[v];
    var other := Opponent(n, c);
    RetiredIsValid(w, v, ClosedBy(n, RoleOf(n, c)), [Packet(kind, other, IdOf(w.tables[other], v), NullRole, [])]);
  }

  lemma AcceptedByIsValid(w: World, v: nat)
    requires Valid(w) && v < |w.invs| && InvOk(w, v) && Listed(w, w.invs[v].source, v)
    ensures Valid(AcceptedBy(w, v))
  {
    hide Valid, Fair, Listed, Changed;
    var n := w.invs[v];
    var shown := if n.targetRole == First then [] else Start().board;
    StartIsFair();
    ChangedIsValid(w, v, n.(phase := Accepted, game := Some(Start())),
                   [Packet(ACCEPTED, n.source, IdOf(w.tables[n.source], v), NullRole, shown)]);
  }

  lemma MovedByIsValid(w: World, c: nat, v: nat, space: int)
    requires Valid(w) && v < |w.invs| && InvOk(w, v) && Listed(w, w.invs[v].source, v)
    requires w.invs[v].game.Some?
    ensures Valid(MovedBy(w, c, v, space))
  {
    hide Valid, Listed, Changed, Retired, Balanced, Decided, IsBoard, GameRules.Next;
    var n := w.invs[v];
    var g := Next(n.game.value, Move(space, RoleOf(n, c)));
    var m := n.(game := Some(g));
    NextIsFair(n.game.value, Move(space, RoleOf(n, c)));
    var told := [Packet(MOVED, Opponent(n, c), IdOf(w.tables[Opponent(n, c)], v), NullRole, g.board)];
    if g.over {
      RetiredIsValid(w, v, m, told + [Packet(ENDED, n.source, IdOf(w.tables[n.source], v), g.winner, []),
                                      Packet(ENDED, n.target, IdOf(w.tables[n.target], v), g.winner, [])]);
    } else {
      ChangedIsValid(w, v, m, told);
    }
  }

  /** Every request, granted or not, keeps the invariants. */
  lemma SimpleIsValid(w: World, r: Request)
    requires Valid(w) && r.client < |w.tables| == |w.loggedIn|
    ensures Valid(Simple(w, r)) && |Simple(w, r).tables| == |w.tables|
  {
    hide Valid, Listed, EndedBy, AcceptedBy, MovedBy, Offered, InvOk;
    if Grants(w, r) && Admissible(w, r) {
      match r
      case Login(c) => LoginIsValid(w, c, true);
      case Make(c, target, role) =>
        OfferedIsValid(w, c, target, role);
        OfferedSize(w, c, target, role);
      case Logout(c) =>
      case _ =>
        var v := Meant(w, r.client, r.id);
        MeantIsListed(w, r.client, r.id);
        ListedByBoth(w, r.client, v);
        SimpleOnListed(w, r, v);
    }
  }

  lemma OfferedSize(w: World, s: nat, t: nat, role: Role)
    requires t < |w.tables|
    ensures |Offered(w, s, t, role).tables| == |w.tables|
  {
  }

  lemma SimpleOnListed(w: World, r: Request, v: nat)
    requires Valid(w) && r.client < |w.tables| && !r.Login? && !r.Make? && !r.Logout?
    requires Grants(w, r) && v == Meant(w, r.client, r.id) && v < |w.invs| && InvOk(w, v)
    requires Listed(w, r.client, v) && Listed(w, w.invs[v].source, v)
    ensures Valid(Simple(w, r)) && |Simple(w, r).tables| == |w.tables|
  {
    hide Valid, Listed, InvOk;
    match r
    case Revoke(c, id) => EndedByIsValid(w, c, v, REVOKED);
    case Decline(c, id) => EndedByIsValid(w, c, v, DECLINED);
    case Accept(c, id) => AcceptedByIsValid(w, v);
    case ResignGame(c, id) => EndedByIsValid(w, c, v, RESIGNED);
    case MakeMove(c, id, move) => MovedByIsValid(w, c, v, ParseMove(move));
  }
}
