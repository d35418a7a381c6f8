/** The rules of the game played by hw5/src/game.c: noughts and crosses, with resignation. */
module GameRules {

  datatype Role = NullRole | First | Second

  /** A position; `winner` is the null role while play is on and after a draw. */
  datatype Position = Position(board: seq<char>, turn: Role, winner: Role, over: bool)

  datatype Event = Move(space: int, player: Role) | Resign(role: Role)

  const SPACE := ' '

  function Mark(r: Role): char {
    match r
    case First => 'X'
    case Second => 'O'
    case NullRole => SPACE
  }

  function Owner(mark: char): Role {
    if mark == 'X' then First else if mark == 'O' then Second else NullRole
  }

  function Other(r: Role): Role {
    match r
    case First => Second
    case Second => First
    case NullRole => NullRole
  }

  ghost predicate IsBoard(b: seq<char>) {
    |b| == 9 && forall i {:trigger b[i]} :: 0 <= i < 9 ==> b[i] == SPACE || b[i] == 'X' || b[i] == 'O'
  }

  // ----- full-line scan -----

  /** Three cells in line hold the same piece. */
  predicate Three(b: seq<char>, mark: char, start: int, step: int)
    requires |b| == 9 && 0 <= start < 9 && 0 <= start + step < 9 && 0 <= start + 2 * step < 9
  {
    b[start] == mark && b[start + step] == mark && b[start + 2 * step] == mark
  }

  predicate Row(b: seq<char>, mark: char, row: int)
    requires |b| == 9 && 0 <= row < 3
  {
    Three(b, mark, 3 * row, 1)
  }

  predicate Column(b: seq<char>, mark: char, column: int)
    requires |b| == 9 && 0 <= column < 3
  {
    Three(b, mark, column, 3)
  }

  predicate Diagonal(b: seq<char>, mark: char)
    requires |b| == 9
  {
    Three(b, mark, 0, 4) || Three(b, mark, 6, -2)
  }

  /** Some row, column or diagonal of the board is full of `mark`. */
  predicate HasLine(b: seq<char>, mark: char)
    requires |b| == 9
  {
    || Row(b, mark, 0) || Row(b, mark, 1) || Row(b, mark, 2)
    || Column(b, mark, 0) || Column(b, mark, 1) || Column(b, mark, 2)
    || Diagonal(b, mark)
  }

  function Count(b: seq<char>, mark: char): nat
    decreases |b|
  {
    if b == [] then 0 else (if b[0] == mark then 1 else 0) + Count(b[1..], mark)
  }

  predicate Full(b: seq<char>) {
    Count(b, SPACE) == 0
  }

  // ----- the rules -----

  function Start(): Position {
    Position([SPACE, SPACE, SPACE, SPACE, SPACE, SPACE, SPACE, SPACE, SPACE], First, NullRole, false)
  }

  predicate Allowed(p: Position, e: Event)
    requires |p.board| == 9
  {
    match e
    case Move(space, player) => 1 <= space <= 9 && p.board[space - 1] == SPACE && p.turn == player
    case Resign(_) => !p.over
  }

  /** The position after a piece of `player` is put down: every line of the board decides. */
  function Judged(b: seq<char>, player: Role): Position
    requires |b| == 9
  {
    if HasLine(b, Mark(player)) then Position(b, NullRole, player, true)
    else if Full(b) then Position(b, NullRole, NullRole, true)
    else Position(b, Other(player), NullRole, false)
  }

  /** One event by the rules; what is not allowed changes nothing. */
  function Next(p: Position, e: Event): (q: Position)
    requires |p.board| == 9
    ensures |q.board| == 9
  {
    if !Allowed(p, e) then p
    else match e
      case Move(space, player) =>
        if player == NullRole then p else Judged(p.board[space - 1 := Mark(player)], player)
      case Resign(role) =>
        p.(over := true, turn := NullRole, winner := if role == NullRole then p.winner else Other(role))
  }

  function After(p: Position, events: seq<Event>): (q: Position)
    requires |p.board| == 9
    ensures |q.board| == 9
    decreases |events|
  {
    if events == [] then p else After(Next(p, events[0]), events[1..])
  }

  // ----- what every position of every run satisfies -----

  /** As many crosses as noughts when it is the first player's turn, one more otherwise. */
  ghost predicate Balanced(p: Position) {
    var x, o := Count(p.board, 'X'), Count(p.board, 'O');
    && (p.turn == First ==> x == o)
    && (p.turn == Second ==> x == o + 1)
    && o <= x <= o + 1
  }

  /** A line on the board decided the game for its owner. */
  ghost predicate Decided(p: Position)
    requires |p.board| == 9
  {
    && (HasLine(p.board, 'X') ==> p.over && p.winner == First)
    && (HasLine(p.board, 'O') ==> p.over && p.winner == Second)
    && (Full(p.board) ==> p.over)
  }

  ghost predicate Fair(p: Position) {
    && |p.board| == 9
    && IsBoard(p.board)
    && (p.over <==> p.turn == NullRole)
    && (!p.over ==> p.winner == NullRole)
    && Balanced(p)
    && Decided(p)
  }

  // ----- putting down one piece -----

  lemma {:induction false} CountSum(a: seq<char>, b: seq<char>, mark: char)
    ensures Count(a + b, mark) == Count(a, mark) + Count(b, mark)
    decreases |a|
  {
    if a == [] {
      assert a + b == b;
    } else {
      assert (a + b)[1..] == a[1..] + b;
      CountSum(a[1..], b, mark);
    }
  }

  lemma {:induction false} CountOne(m: char, mark: char)
    ensures Count([m], mark) == if m == mark then 1 else 0
  {
    assert [m][1..] == [];
  }

  lemma CountPlaced(b: seq<char>, i: int, piece: char, mark: char)
    requires 0 <= i < |b|
    ensures Count(b[i := piece], mark)
         == Count(b, mark) - (if b[i] == mark then 1 else 0) + (if piece == mark then 1 else 0)
  {
    assert b == b[..i] + [b[i]] + b[i + 1..];
    assert b[i := piece] == b[..i] + [piece] + b[i + 1..];
    CountSum(b[..i] + [b[i]], b[i + 1..], mark);
    CountSum(b[..i] + [piece], b[i + 1..], mark);
    CountSum(b[..i], [b[i]], mark);
    CountSum(b[..i], [piece], mark);
    CountOne(b[i], mark);
    CountOne(piece, mark);
  }

  /** A piece makes no line for the other side. */
  lemma NoLineForOther(b: seq<char>, i: int, piece: char, mark: char)
    requires |b| == 9 && 0 <= i < 9 && piece != mark
    ensures HasLine(b[i := piece], mark) ==> HasLine(b, mark)
  {
    hide Three;
    forall start, step | 0 <= start < 9 && 0 <= start + step < 9 && 0 <= start + 2 * step < 9
      ensures Three(b[i := piece], mark, start, step) ==> Three(b, mark, start, step)
    {
      NoThreeForOther(b, i, piece, mark, start, step);
    }
  }

  lemma NoThreeForOther(b: seq<char>, i: int, piece: char, mark: char, start: int, step: int)
    requires |b| == 9 && 0 <= i < 9 && piece != mark
    requires 0 <= start < 9 && 0 <= start + step < 9 && 0 <= start + 2 * step < 9
    ensures Three(b[i := piece], mark, start, step) ==> Three(b, mark, start, step)
  {
  }

  /** A row or column away from the piece is as it was. */
  lemma OtherRows(b: seq<char>, row: int, column: int, piece: char, k: int)
    requires |b| == 9 && 0 <= row < 3 && 0 <= column < 3 && 0 <= k < 3
    ensures k != row ==> Row(b[3 * row + column := piece], piece, k) == Row(b, piece, k)
    ensures k != column ==> Column(b[3 * row + column := piece], piece, k) == Column(b, piece, k)
  {
  }

  /** Where there was no line, the row and column of the piece and the two diagonals tell whether there is one. */
  lemma LocalScanIsEnough(b: seq<char>, row: int, column: int, piece: char)
    requires |b| == 9 && 0 <= row < 3 && 0 <= column < 3
    requires !HasLine(b, piece)
    ensures HasLine(b[3 * row + column := piece], piece)
       <==> var after := b[3 * row + column := piece];
            Row(after, piece, row) || Column(after, piece, column) || Diagonal(after, piece)
  {
    OtherRows(b, row, column, piece, 0);
    OtherRows(b, row, column, piece, 1);
    OtherRows(b, row, column, piece, 2);
    hide Row, Column, Diagonal;
    assert row == 0 || row == 1 || row == 2;
    assert column == 0 || column == 1 || column == 2;
  }

  lemma StartIsFair()
    ensures Fair(Start())
  {
    hide Count;
    StartCounts('X');
    StartCounts('O');
    StartCounts(SPACE);
  }

  lemma {:induction false} StartCounts(mark: char)
    ensures Count(Start().board, mark) == if mark == SPACE then 9 else 0
  {
    var three := [SPACE, SPACE, SPACE];
    assert Start().board == three + (three + three);
    CountSum(three, three + three, mark);
    CountSum(three, three, mark);
    assert three == [SPACE] + ([SPACE] + [SPACE]);
    CountSum([SPACE], [SPACE] + [SPACE], mark);
    CountSum([SPACE], [SPACE], mark);
    CountOne(SPACE, mark);
  }

  lemma MoveIsFair(p: Position, space: int, player: Role)
    requires Fair(p) && Allowed(p, Move(space, player)) && player != NullRole
    ensures Fair(Next(p, Move(space, player)))
  {
    hide HasLine;
    var i, piece := space - 1, Mark(player);
    CountPlaced(p.board, i, piece, 'X');
    CountPlaced(p.board, i, piece, 'O');
    NoLineForOther(p.board, i, piece, Mark(Other(player)));
    assert IsBoard(p.board[i := piece]);
  }

  /** Every event, allowed or not and by any role, keeps the position fair. */
  lemma NextIsFair(p: Position, e: Event)
    requires Fair(p)
    ensures Fair(Next(p, e))
  {
    hide HasLine, Count, Judged;
    if e.Move? && Allowed(p, e) && e.player != NullRole {
      MoveIsFair(p, e.space, e.player);
    }
  }

  // ----- main results -----

  /** Over every run the position is fair. */
  lemma {:induction false} RunsAreFair(events: seq<Event>)
    ensures Fair(After(Start(), events))
  {
    StartIsFair();
    RunsStayFair(Start(), events);
  }

  lemma {:induction false} RunsStayFair(p: Position, events: seq<Event>)
    requires Fair(p)
    ensures Fair(After(p, events))
    decreases |events|
  {
    hide Balanced, Decided;
    if events != [] {
      NextIsFair(p, events[0]);
      RunsStayFair(Next(p, events[0]), events[1..]);
    }
  }

  /** In a fair position at most one side has a line, and only a finished game has one. */
  lemma OneWinner(p: Position)
    requires Fair(p)
    ensures !(HasLine(p.board, 'X') && HasLine(p.board, 'O'))
    ensures HasLine(p.board, 'X') || HasLine(p.board, 'O') ==> p.over
  {
    hide HasLine, IsBoard, Balanced;
  }

  /** Once over, nothing changes the position any more. */
  lemma {:induction false} OverIsFinal(p: Position, events: seq<Event>)
    requires Fair(p) && p.over
    ensures After(p, events) == p
    decreases |events|
  {
    hide Balanced, Decided, Judged;
    if events != [] {
      OverIsFinal(Next(p, events[0]), events[1..]);
    }
  }

  /** How many events of a run put down a piece. */
  function Placed(p: Position, events: seq<Event>): nat
    requires |p.board| == 9
    decreases |events|
  {
    if events == [] then 0
    else
      var rest := Placed(Next(p, events[0]), events[1..]);
      if events[0].Move? && Allowed(p, events[0]) && events[0].player != NullRole then rest + 1 else rest
  }

  /** Each piece put down takes one space, so no run has more than nine. */
  lemma {:induction false} PiecesFillSpaces(p: Position, events: seq<Event>)
    requires |p.board| == 9
    ensures Placed(p, events) + Count(After(p, events).board, SPACE) == Count(p.board, SPACE)
    decreases |events|
  {
    hide HasLine;
    if events != [] {
      var e := events[0];
      if e.Move? && Allowed(p, e) && e.player != NullRole {
        CountPlaced(p.board, e.space - 1, Mark(e.player), SPACE);
      }
      PiecesFillSpaces(Next(p, e), events[1..]);
    }
  }

  lemma {:induction false} AtMostNinePieces(events: seq<Event>)
    ensures Placed(Start(), events) <= 9
    ensures Placed(Start(), events) == 9 ==> After(Start(), events).over
  {
    hide Fair, HasLine;
    StartCounts(SPACE);
    PiecesFillSpaces(Start(), events);
    RunsAreFair(events);
    FullIsOver(After(Start(), events));
  }

  lemma FullIsOver(p: Position)
    requires Fair(p)
    ensures Full(p.board) ==> p.over
  {
    hide HasLine, IsBoard, Balanced;
  }
}
