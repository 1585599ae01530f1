/** Squares, boards and the marks the two players write into them. */
module Cells {

  datatype Option<T> = None | Some(value: T)

  /** The content of one square: `null`, `'X'` or `'O'` in the source. */
  datatype Cell = Empty | X | O

  /** A square index; square `row * 3 + col` holds row `row`, column `col`. */
  type Index = i: int | 0 <= i < 9

  const EmptyBoard: seq<Cell> := [Empty, Empty, Empty, Empty, Empty, Empty, Empty, Empty, Empty]

  /** A snapshot of the 3x3 grid: always exactly nine squares. */
  type Board = s: seq<Cell> | |s| == 9 witness EmptyBoard

  /** The mark written by a click: `X` when `xIsNext`, `O` otherwise. */
  function Mark(xIsNext: bool): (m: Cell)
    ensures m != Empty
    ensures m == X <==> xIsNext
  {
    if xIsNext then X else O
  }

  /** The player to move at history position `k`: X on even positions, O on odd ones. */
  function Turn(k: nat): (m: Cell)
    ensures m == X <==> k % 2 == 0
    ensures m == O <==> k % 2 == 1
  {
    Mark(k % 2 == 0)
  }

  /** Every square holds a mark (`squares.every(square => square !== null)`). */
  predicate Full(squares: Board)
    ensures Full(squares) <==> Count(squares, Empty) == 0
  {
    forall j :: 0 <= j < 9 ==> squares[j] != Empty
  }

  /** How JavaScript turns a square's content into text when it is concatenated to a string. */
  function CellText(c: Cell): (t: string)
    ensures t == "X" <==> c == X
    ensures t == "O" <==> c == O
    ensures c != Empty ==> |t| == 1
  {
    match c
    case X => "X"
    case O => "O"
    case Empty => "null"
  }

  /** How many squares of `s` hold `c`. */
  function Count(s: seq<Cell>, c: Cell): (n: nat)
    ensures n <= |s|
    ensures n == 0 <==> forall j :: 0 <= j < |s| ==> s[j] != c
  {
    if s == [] then 0 else (if s[0] == c then 1 else 0) + Count(s[1..], c)
  }

  /** Writing `v` into square `i` moves one unit of count from the old content to `v`. */
  lemma {:induction false} CountUpdate(s: seq<Cell>, i: nat, v: Cell, c: Cell)
    requires i < |s|
    ensures Count(s[i := v], c) + (if s[i] == c then 1 else 0) == Count(s, c) + (if v == c then 1 else 0)
  {
    if i == 0 {
      assert s[i := v][1..] == s[1..];
    } else {
      assert s[i := v][1..] == s[1..][i - 1 := v];
      CountUpdate(s[1..], i - 1, v, c);
    }
  }

  /** Three distinct squares holding `c` mean at least three occurrences of `c`. */
  lemma ThreeOccurrences(s: seq<Cell>, i: nat, j: nat, k: nat, c: Cell)
    requires i < |s| && j < |s| && k < |s|
    requires i != j && j != k && i != k
    requires s[i] == c && s[j] == c && s[k] == c
    ensures Count(s, c) >= 3
  {
    var d := if c == Empty then X else Empty;
    var s1 := s[i := d];
    var s2 := s1[j := d];
    var s3 := s2[k := d];
    CountUpdate(s, i, d, c);
    CountUpdate(s1, j, d, c);
    CountUpdate(s2, k, d, c);
  }

  lemma EmptyBoardCounts()
    ensures Count(EmptyBoard, Empty) == 9 && Count(EmptyBoard, X) == 0 && Count(EmptyBoard, O) == 0
  {
  }
}
