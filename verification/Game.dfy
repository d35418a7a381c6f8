/** The game object of hw5/src/game.c: a board changed in place, with a scan of the lines a move can complete. */
module Game {
  import opened GameRules

  /** The three cells hold the same piece, of either side. */
  ghost predicate SameThree(b: seq<char>, start: int, step: int)
    requires |b| == 9 && 0 <= start < 9 && 0 <= start + step < 9 && 0 <= start + 2 * step < 9
  {
    Three(b, 'X', start, step) || Three(b, 'O', start, step)
  }

  /** The start and step of a row, a column or a diagonal. */
  predicate Listed(start: int, step: int) {
    || (step == 1 && (start == 0 || start == 3 || start == 6))
    || (step == 3 && (start == 0 || start == 1 || start == 2))
    || (step == 4 && start == 0)
    || (step == -2 && start == 6)
  }

  lemma ThreeIsLine(b: seq<char>, mark: char, start: int, step: int)
    requires |b| == 9 && 0 <= start < 9 && 0 <= start + step < 9 && 0 <= start + 2 * step < 9
    requires Listed(start, step) && Three(b, mark, start, step)
    ensures HasLine(b, mark)
  {
    hide Three;
  }

  lemma SpaceCounts(b: seq<char>, i: int)
    requires 0 <= i < |b| && b[i] == SPACE
    ensures !Full(b)
  {
    assert b == b[..i] + ([SPACE] + b[i + 1..]);
    CountSum(b[..i], [SPACE] + b[i + 1..], SPACE);
    CountSum([SPACE], b[i + 1..], SPACE);
    CountOne(SPACE, SPACE);
  }

  lemma NoSpaceCounts(b: seq<char>)
    requires forall i {:trigger b[i]} :: 0 <= i < |b| ==> b[i] != SPACE
    ensures Full(b)
    decreases |b|
  {
    if b != [] {
      assert b[0] != SPACE;
      forall i | 0 <= i < |b[1..]|
        ensures b[1..][i] != SPACE
      {
        assert b[1..][i] == b[i + 1];
      }
      NoSpaceCounts(b[1..]);
    }
  }

  class GameState {
    const state: array<char>
    var isOver: bool
    var winner: Role
    var turn: Role

    ghost predicate Valid()
      reads this, state
    {
      state.Length == 9 && Fair(Value())
    }

    ghost function Value(): (p: Position)
      reads this, state
    {
      Position(state[..], turn, winner, isOver)
    }

    /** `game_create` */
    constructor ()
      ensures Valid() && Value() == Start() && fresh(state)
    {
      state := new char[9](_ => SPACE);
      isOver := false;
      winner := NullRole;
      turn := First;
      new;
      assert state[..] == Start().board;
      StartIsFair();
    }

    /** One of the four scanning loops: the piece that fills three cells in line, or a space. */
    method ScanLine(start: int, step: int) returns (win: char)
      requires state.Length == 9 && IsBoard(state[..])
      requires 0 <= start < 9 && 0 <= start + step < 9 && 0 <= start + 2 * step < 9
      ensures win == SPACE ==> !SameThree(state[..], start, step)
      ensures win != SPACE ==> (win == 'X' || win == 'O') && Three(state[..], win, start, step)
    {
      ghost var b := state[..];
      assert b[start] == state[start] && b[start + step] == state[start + step];
      assert b[start + 2 * step] == state[start + 2 * step];
      win := SPACE;
      var i := 0;
      while i < 3
        invariant 0 <= i <= 3
        invariant i > 0 ==> win == b[start] && win != SPACE
        invariant i > 1 ==> b[start + step] == win
        invariant i > 2 ==> b[start + 2 * step] == win
      {
        var cell := state[start + i * step];
        if cell == SPACE {
          return SPACE;
        }
        if i == 0 {
          win := cell;
        } else if cell != win {
          return SPACE;
        }
        i := i + 1;
      }
    }

    method Finish(win: char)
      requires win == 'X' || win == 'O'
      modifies this
      ensures isOver && turn == NullRole && winner == Owner(win)
    {
      if win == 'X' {
        winner := First;
      } else if win == 'O' {
        winner := Second;
      }
      isOver := true;
      turn := NullRole;
    }

    method HasSpace() returns (found: bool)
      requires state.Length == 9
      ensures found <==> !Full(state[..])
    {
      ghost var b := state[..];
      var i := 0;
      while i < 3
        invariant 0 <= i <= 3
        invariant forall k {:trigger b[k]} :: 0 <= k < 3 * i ==> b[k] != SPACE
      {
        var j := 0;
        while j < 3
          invariant 0 <= j <= 3
          invariant forall k {:trigger b[k]} :: 0 <= k < 3 * i + j ==> b[k] != SPACE
        {
          assert b[3 * i + j] == state[3 * i + j];
          if state[3 * i + j] == SPACE {
            SpaceCounts(b, 3 * i + j);
            return true;
          }
          j := j + 1;
        }
        i := i + 1;
      }
      NoSpaceCounts(b);
      return false;
    }

    /** `game_apply_move`: by the rules for every role, on a finished game too. */
    method ApplyMove(space: int, player: Role) returns (ok: bool)
      requires Valid() && 1 <= space <= 9
      modifies this, state
      ensures Valid()
      ensures ok == Allowed(old(Value()), Move(space, player))
      ensures ok <==> old(state[..])[space - 1] == ' ' && old(turn) == player
      ensures Value() == Next(old(Value()), Move(space, player))
    {
      hide Fair, Judged, HasLine, Three;
      ghost var p := Value();
      var row := (space - 1) / 3;
      var column := (space - 1) % 3;
      if state[3 * row + column] != SPACE {
        return false;
      }
      if turn != player {
        return false;
      }
      NextIsFair(p, Move(space, player));
      Put(row, column, player);
      Judge(row, column, player, p);
      return true;
    }

    /** Sets the piece and passes the turn; the null role does neither. */
    method Put(row: int, column: int, player: Role)
      requires state.Length == 9 && 0 <= row < 3 && 0 <= column < 3
      requires state[3 * row + column] == SPACE && turn == player
      modifies `turn, state
      ensures state[..] == old(state[..])[3 * row + column := Mark(player)]
      ensures turn == Other(player)
    {
      if player == First {
        turn := Second;
        state[3 * row + column] := 'X';
      } else if player == Second {
        turn := First;
        state[3 * row + column] := 'O';
      }
    }

    /** The scans after a move at (row, column) from position `p`. */
    method Judge(row: int, column: int, player: Role, ghost p: Position)
      requires state.Length == 9 && 0 <= row < 3 && 0 <= column < 3
      requires Fair(p) && Allowed(p, Move(3 * row + column + 1, player))
      requires state[..] == p.board[3 * row + column := Mark(player)]
      requires turn == Other(player) && winner == p.winner && isOver == p.over
      modifies this
      ensures Value() == Next(p, Move(3 * row + column + 1, player))
    {
      hide Fair, Judged, HasLine, Three, Full, GameRules.Next;
      MarksOnBoard(p, 3 * row + column, player);
      var win := ScanLine(3 * row, 1);
      if win != SPACE {
        Finish(win);
        LineEndsGame(p, row, column, player, win, 3 * row, 1);
        return;
      }
      win := ScanLine(column, 3);
      if win != SPACE {
        Finish(win);
        LineEndsGame(p, row, column, player, win, column, 3);
        return;
      }
      win := ScanLine(0, 4);
      if win != SPACE {
        Finish(win);
        LineEndsGame(p, row, column, player, win, 0, 4);
        return;
      }
      win := ScanLine(6, -2);
      if win != SPACE {
        Finish(win);
        LineEndsGame(p, row, column, player, win, 6, -2);
        return;
      }
      NoLineFound(p, row, column, player);
      var space := HasSpace();
      if space {
        return;
      }
      winner := NullRole;
      isOver := true;
      turn := NullRole;
    }

    /** `game_resign` */
    method ResignGame(role: Role) returns (ok: bool)
      requires Valid()
      modifies this
      ensures Valid()
      ensures ok == !old(isOver)
      ensures Value() == Next(old(Value()), Resign(role))
    {
      hide Fair;
      ghost var p := Value();
      NextIsFair(p, Resign(role));
      if isOver {
        return false;
      }
      isOver := true;
      turn := NullRole;
      if role == First {
        winner := Second;
      } else if role == Second {
        winner := First;
      }
      return true;
    }
  }

  lemma MarksOnBoard(p: Position, i: int, player: Role)
    requires Fair(p) && 0 <= i < 9
    ensures IsBoard(p.board[i := Mark(player)])
  {
    hide Balanced, Decided;
  }

  /** A complete line found after a move is the mover's, or the one that decided the game before. */
  lemma LineEndsGame(p: Position, row: int, column: int, player: Role, win: char,
          start: int, step: int)
    requires Fair(p) && 0 <= row < 3 && 0 <= column < 3
    requires Allowed(p, Move(3 * row + column + 1, player))
    requires 0 <= start < 9 && 0 <= start + step < 9 && 0 <= start + 2 * step < 9 && Listed(start, step)
    requires (win == 'X' || win == 'O') && Three(p.board[3 * row + column := Mark(player)], win, start, step)
    ensures Next(p, Move(3 * row + column + 1, player))
         == Position(p.board[3 * row + column := Mark(player)], NullRole, Owner(win), true)
  {
    hide HasLine, Balanced, IsBoard, Listed, Three;
    var i := 3 * row + column;
    ThreeIsLine(p.board[i := Mark(player)], win, start, step);
    if player == NullRole {
      assert p.board[i := Mark(player)] == p.board;
    } else if win != Mark(player) {
      NoLineForOther(p.board, i, Mark(player), win);
      assert false;
    }
  }

  /** When the four scans find nothing the move has made no line, and a finished game is left as it was. */
  lemma NoLineFound(p: Position, row: int, column: int, player: Role)
    requires Fair(p) && 0 <= row < 3 && 0 <= column < 3
    requires Allowed(p, Move(3 * row + column + 1, player))
    requires var b := p.board[3 * row + column := Mark(player)];
      !SameThree(b, 3 * row, 1) && !SameThree(b, column, 3) && !SameThree(b, 0, 4) && !SameThree(b, 6, -2)
    ensures var b := p.board[3 * row + column := Mark(player)];
      Next(p, Move(3 * row + column + 1, player))
      == if Full(b) then Position(b, NullRole, NullRole, true) else Position(b, Other(player), p.winner, p.over)
  {
    hide Count, Three, Balanced, IsBoard;
    var i := 3 * row + column;
    var b := p.board[i := Mark(player)];
    if player == NullRole {
      assert b == p.board;
      SpaceCounts(b, i);
    } else {
      assert !HasLine(p.board, Mark(player));
      LocalScanIsEnough(p.board, row, column, Mark(player));
      assert !HasLine(b, Mark(player));
      hide HasLine;
    }
  }
}
