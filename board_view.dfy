/** The logic of the `Board` component: the click handler and the status line. */
module BoardView {
  import opened Cells
  import opened WinnerDetector

  /**
   * A click on square `i`. `None` means the click is ignored (`onPlay` is not called):
   * the game is already won or the square is taken. Otherwise the board is copied
   * (`squares.slice()`) and the mark of the player to move is written into square `i`.
   * The argument is a value, so it cannot be changed by the call.
   */
  method HandleClick(squares: Board, xIsNext: bool, i: Index) returns (next: Option<Board>)
    ensures next.None? <==> WinningLine(squares).Some? || squares[i] != Empty
    ensures next.Some? ==> next.value[i] == Mark(xIsNext)
    ensures next.Some? ==> forall j :: 0 <= j < 9 && j != i ==> next.value[j] == squares[j]
    ensures next.Some? ==> next.value == squares[i := Mark(xIsNext)]
  {
    var winner := CalculateWinner(squares);
    if winner.Some? || squares[i] != Empty {
      return None;
    }
    var nextSquares := new Cell[9](j requires 0 <= j < 9 => squares[j]);
    if xIsNext {
      nextSquares[i] := X;
    } else {
      nextSquares[i] := O;
    }
    return Some(nextSquares[..]);
  }

  /** The three mutually exclusive outcomes the status line reports. */
  datatype GameStatus = Winner(winner: Cell) | Draw | NextPlayer(player: Cell)

  /**
   * The status of `Board`: a winner if some line of the table is complete, else a draw
   * if every square is filled, else the player to move.
   */
  function Status(squares: Board, xIsNext: bool): (s: GameStatus)
    ensures s.Winner? <==> exists k :: 0 <= k < |Lines| && Wins(squares, Lines[k])
    ensures s.Winner? ==> s.winner != Empty &&
                          exists k :: 0 <= k < |Lines| && Wins(squares, Lines[k]) && squares[Lines[k].a] == s.winner
    ensures s.Winner? ==> s.winner == squares[WinningLine(squares).value.a]
    ensures s.Draw? <==> Full(squares) && forall k :: 0 <= k < |Lines| ==> !Wins(squares, Lines[k])
    ensures s.NextPlayer? <==> !Full(squares) && forall k :: 0 <= k < |Lines| ==> !Wins(squares, Lines[k])
    ensures s.NextPlayer? ==> (s.player == X <==> xIsNext) && s.player != Empty
  {
    var winner := WinningLine(squares);
    if winner.Some? then Winner(squares[winner.value.a])
    else if Full(squares) then Draw
    else NextPlayer(Mark(xIsNext))
  }

  /** The text shown in the status `div`. */
  function StatusText(s: GameStatus): (text: string)
    ensures s.Draw? <==> text == "Draw"
    ensures s.Winner? ==> text == "Winner: " + CellText(s.winner)
    ensures s.NextPlayer? ==> text == "Next player: " + CellText(s.player)
  {
    match s
    case Winner(m) => "Winner: " + CellText(m)
    case Draw => "Draw"
    case NextPlayer(m) => "Next player: " + CellText(m)
  }

  /** Distinct outcomes give distinct status texts, so the text determines the outcome. */
  lemma StatusTextInjective(s1: GameStatus, s2: GameStatus)
    requires StatusText(s1) == StatusText(s2)
    ensures s1 == s2
  {
    var t := StatusText(s1);
    if s1.Winner? && s2.Winner? {
      assert t[8..] == CellText(s1.winner) && t[8..] == CellText(s2.winner);
    } else if s1.NextPlayer? && s2.NextPlayer? {
      assert t[13..] == CellText(s1.player) && t[13..] == CellText(s2.player);
    }
  }
}
