/** The game of hw5/src/game.c told cell by cell, without reference to its scans. */
module GameLaws {
  import opened GameRules

  predicate Same3(b: seq<char>, mark: char, i: int, j: int, k: int)
    requires |b| == 9 && 0 <= i < 9 && 0 <= j < 9 && 0 <= k < 9
  {
    b[i] == mark && b[j] == mark && b[k] == mark
  }

  /** One of the eight lines of the board is full of `mark`. */
  predicate Won(b: seq<char>, mark: char)
    requires |b| == 9
  {
    || Same3(b, mark, 0, 1, 2) || Same3(b, mark, 3, 4, 5) || Same3(b, mark, 6, 7, 8)
    || Same3(b, mark, 0, 3, 6) || Same3(b, mark, 1, 4, 7) || Same3(b, mark, 2, 5, 8)
    || Same3(b, mark, 0, 4, 8) || Same3(b, mark, 2, 4, 6)
  }

  lemma LinesAreEight(b: seq<char>, mark: char)
    requires |b| == 9
    ensures HasLine(b, mark) <==> Won(b, mark)
  {
  }

  lemma FullHasNoSpace(b: seq<char>)
    ensures Full(b) <==> ' ' !in b
    decreases |b|
  {
    if b != [] {
      FullHasNoSpace(b[1..]);
      assert b == [b[0]] + b[1..];
    }
  }

  /** The game begins with an empty board and the first player's turn. */
  lemma StartByTheBook()
    ensures Start() == Position([' ', ' ', ' ', ' ', ' ', ' ', ' ', ' ', ' '], First, NullRole, false)
  {
  }

  /** The position after a move that is played. */
  ghost predicate Played(p: Position, q: Position, space: int, player: Role)
    requires |p.board| == 9 && 1 <= space <= 9
  {
    var mark := if player == First then 'X' else 'O';
    && q.board == p.board[space - 1 := mark]
    && (q.over <==> Won(q.board, mark) || ' ' !in q.board)
    && q.winner == (if Won(q.board, mark) then player else NullRole)
    && q.turn == (if q.over then NullRole else if player == First then Second else First)
  }

  /**
   * A player moves exactly on its turn and into an empty cell. Crosses are the first player's; three in line win, a
   * full board without a line is a draw, and otherwise the turn passes.
   */
  lemma MoveByTheBook(p: Position, space: int, player: Role)
    requires |p.board| == 9 && player != NullRole
    ensures var q := Next(p, Move(space, player));
      if 1 <= space <= 9 && p.board[space - 1] == ' ' && p.turn == player then Played(p, q, space, player) else q == p
  {
    hide Count, HasLine, Won, Full;
    if 1 <= space <= 9 && p.board[space - 1] == ' ' && p.turn == player {
      var b := p.board[space - 1 := Mark(player)];
      LinesAreEight(b, Mark(player));
      FullHasNoSpace(b);
    }
  }

  /** Resigning ends a game that is on, for the other player; afterwards it changes nothing. */
  lemma ResignByTheBook(p: Position, role: Role)
    requires |p.board| == 9 && role != NullRole
    ensures var q := Next(p, Resign(role));
      if p.over then q == p
      else q == Position(p.board, NullRole, if role == First then Second else First, true)
  {
  }
}
