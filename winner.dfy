/** Win detection: `calculateWinner` scans eight fixed lines and reports the first complete one. */
module WinnerDetector {
  import opened Cells

  /** Three square indices; `a` is the square whose mark names the winner. */
  datatype Line = Line(a: Index, b: Index, c: Index)

  /** The table of `calculateWinner`: three rows, three columns, two diagonals, in that order. */
  const Lines: seq<Line> := [
    Line(0, 1, 2), Line(3, 4, 5), Line(6, 7, 8),
    Line(0, 3, 6), Line(1, 4, 7), Line(2, 5, 8),
    Line(0, 4, 8), Line(2, 4, 6)
  ]

  /**
   * The three squares of `line` hold the same mark and that mark is not empty; testing
   * square `a` for emptiness, as the source does, is the same as testing any of the three.
   */
  predicate Wins(squares: Board, line: Line)
    ensures Wins(squares, line) <==> squares[line.c] != Empty && squares[line.c] == squares[line.a] && squares[line.c] == squares[line.b]
  {
    squares[line.a] != Empty && squares[line.a] == squares[line.b] && squares[line.a] == squares[line.c]
  }

  /** The position in `Lines` of the first winning line at or after `from`; `|Lines|` when there is none. */
  function FirstWinFrom(squares: Board, from: nat): (k: nat)
    requires from <= |Lines|
    ensures from <= k <= |Lines|
    ensures k < |Lines| ==> Wins(squares, Lines[k])
    ensures forall j :: from <= j < k ==> !Wins(squares, Lines[j])
    decreases |Lines| - from
  {
    if from == |Lines| then from
    else if Wins(squares, Lines[from]) then from
    else FirstWinFrom(squares, from + 1)
  }

  /** The line `calculateWinner` returns: the first winning line of the table, or none (`null`). */
  function WinningLine(squares: Board): (r: Option<Line>)
    ensures r.None? <==> forall k :: 0 <= k < |Lines| ==> !Wins(squares, Lines[k])
    ensures r.Some? ==> exists k :: 0 <= k < |Lines| && r.value == Lines[k] && Wins(squares, Lines[k])
                               && forall j :: 0 <= j < k ==> !Wins(squares, Lines[j])
  {
    var k := FirstWinFrom(squares, 0);
    if k < |Lines| then Some(Lines[k]) else None
  }

  /** The loop of `calculateWinner`, with its early return. */
  method CalculateWinner(squares: Board) returns (r: Option<Line>)
    ensures r == WinningLine(squares)
    ensures r.Some? ==> r.value in Lines && Wins(squares, r.value)
  {
    var i := 0;
    while i < |Lines|
      invariant 0 <= i <= |Lines|
      invariant forall j :: 0 <= j < i ==> !Wins(squares, Lines[j])
    {
      var line := Lines[i];
      if squares[line.a] != Empty && squares[line.a] == squares[line.b] && squares[line.a] == squares[line.c] {
        assert FirstWinFrom(squares, 0) == i;
        return Some(line);
      }
      i := i + 1;
    }
    return None;
  }

  /** A winning board has at least three squares holding the winner's mark. */
  lemma WinnerHasThreeMarks(squares: Board)
    requires WinningLine(squares).Some?
    ensures var line := WinningLine(squares).value;
            squares[line.a] != Empty && Count(squares, squares[line.a]) >= 3
  {
    var line := WinningLine(squares).value;
    assert line in Lines;
    ThreeOccurrences(squares, line.a, line.b, line.c, squares[line.a]);
  }
}
