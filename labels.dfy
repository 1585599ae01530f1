/** What the move list shows: the order of `sortedHistory` and the label of each entry. */
module Labels {
  import opened Cells

  /** `s.slice().reverse()`: a reversed copy. */
  function Reverse<T>(s: seq<T>): (r: seq<T>)
    ensures |r| == |s|
    ensures forall k :: 0 <= k < |s| ==> r[k] == s[|s| - 1 - k]
  {
    if s == [] then [] else Reverse(s[1..]) + [s[0]]
  }

  /** Reversing twice gives back the original sequence, element for element. */
  lemma ReverseReverse<T>(s: seq<T>)
    ensures Reverse(Reverse(s)) == s
  {
  }

  /** `sortedHistory`: the history itself when ascending, its reversed copy when descending. */
  function Sorted<T>(history: seq<T>, ascending: bool): (r: seq<T>)
    ensures |r| == |history|
    ensures forall k :: 0 <= k < |history| ==>
              r[k] == if ascending then history[k] else history[|history| - 1 - k]
  {
    if ascending then history else Reverse(history)
  }

  /** The two orders are exact reverses of each other, whichever one is current. */
  lemma OrdersAreReverses<T>(history: seq<T>, ascending: bool)
    ensures Sorted(history, !ascending) == Reverse(Sorted(history, ascending))
  {
  }

  predicate IsDigit(ch: char) {
    '0' <= ch <= '9'
  }

  predicate AllDigits(s: string) {
    forall k :: 0 <= k < |s| ==> IsDigit(s[k])
  }

  function DigitChar(d: nat): (ch: char)
    requires d < 10
    ensures IsDigit(ch)
  {
    ('0' as int + d) as char
  }

  function DigitValue(ch: char): (d: nat)
    requires IsDigit(ch)
    ensures d < 10
  {
    ch as int - '0' as int
  }

  /** JavaScript's conversion of a non-negative integer to its decimal text. */
  function NatToString(n: nat): (s: string)
    ensures |s| >= 1 && AllDigits(s)
    ensures n > 0 ==> s[0] != '0'
  {
    if n < 10 then [DigitChar(n)] else NatToString(n / 10) + [DigitChar(n % 10)]
  }

  /** The number a string of decimal digits denotes. */
  function DecimalValue(s: string): nat
    requires AllDigits(s)
  {
    if s == [] then 0 else 10 * DecimalValue(s[..|s| - 1]) + DigitValue(s[|s| - 1])
  }

  /** Reading back the decimal text of `n` gives `n`. */
  lemma {:induction false} NatToStringRoundTrip(n: nat)
    ensures DecimalValue(NatToString(n)) == n
  {
    if n >= 10 {
      var s := NatToString(n);
      assert s[..|s| - 1] == NatToString(n / 10);
      NatToStringRoundTrip(n / 10);
    }
  }

  /** The row printed in the label of move `move`: `Math.floor((move - 1) / 3)`. */
  function LabelRow(move: nat): (row: nat)
    requires move > 0
    ensures 3 * row <= move - 1 < 3 * row + 3
  {
    (move - 1) / 3
  }

  /** The column printed in the label of move `move`: `(move - 1) % 3`. */
  function LabelCol(move: nat): (col: nat)
    requires move > 0
    ensures col < 3 && 3 * LabelRow(move) + col == move - 1
  {
    (move - 1) % 3
  }

  /** The player printed in the label of move `move`: O for even moves, X for odd ones. */
  function LabelPlayer(move: nat): (m: Cell)
    ensures move == 0 || m == Turn(move - 1)
    ensures m != Empty
  {
    if move % 2 == 0 then O else X
  }

  /** The text after the move number: row, column and player of the move. */
  function LabelTail(move: nat): (t: string)
    requires move > 0
    ensures |t| > 0 && t[0] == ' '
  {
    " at row " + NatToString(LabelRow(move)) + " col  " + NatToString(LabelCol(move))
    + "| Player's move: " + CellText(LabelPlayer(move))
  }

  /**
   * For every position a game can reach (moves 1 to 9), the tail shows the row digit, the
   * column digit and the mover's mark at fixed places.
   */
  lemma LabelTailShows(move: nat)
    requires 1 <= move <= 9
    ensures var t := LabelTail(move);
            && |t| == 34
            && t[..8] == " at row "
            && t[8] == DigitChar(LabelRow(move))
            && t[9..15] == " col  "
            && t[15] == DigitChar(LabelCol(move))
            && t[16..33] == "| Player's move: "
            && t[33] == (if LabelPlayer(move) == X then 'X' else 'O')
  {
  }

  const MovePrefix: string := "Go to move #"

  /** The text of the history button at position `move` of the list. */
  function Description(move: nat): (d: string)
    ensures move == 0 <==> d == "Go to game start"
    ensures move > 0 ==> d == "Go to move #" + NatToString(move) + LabelTail(move)
  {
    if move > 0 then
      var d := MovePrefix + (NatToString(move) + LabelTail(move));
      assert d[6] == MovePrefix[6];
      d
    else
      "Go to game start"
  }

  /**
   * For every position a game can reach (moves 1 to 9), the label shows the move number,
   * the row digit, the column digit and the mover's mark at fixed places.
   */
  lemma DescriptionShows(move: nat)
    requires 1 <= move <= 9
    ensures var d := Description(move);
            && |d| == 47
            && d[..12] == "Go to move #"
            && d[12] == DigitChar(move)
            && d[13..] == LabelTail(move)
            && d[21] == DigitChar(LabelRow(move))
            && d[28] == DigitChar(LabelCol(move))
            && d[46] == (if LabelPlayer(move) == X then 'X' else 'O')
  {
    LabelTailShows(move);
  }

  /** Two digit strings each followed by a non-digit that spell the same text are equal. */
  lemma DigitsPrefix(a: string, b: string, c: string, e: string)
    requires AllDigits(a) && AllDigits(b)
    requires |c| > 0 && |e| > 0 && !IsDigit(c[0]) && !IsDigit(e[0])
    requires a + c == b + e
    ensures a == b
  {
    var n := if |a| < |b| then |a| else |b|;
    assert (a + c)[n] == (b + e)[n];
    assert |a| == |b|;
    assert a == (a + c)[..|a|];
    assert b == (b + e)[..|b|];
  }

  /** Each label names its move number, so two positions never share a label. */
  lemma DescriptionInjective(m1: nat, m2: nat)
    requires Description(m1) == Description(m2)
    ensures m1 == m2
  {
    if m1 > 0 && m2 > 0 {
      var s1, s2 := NatToString(m1) + LabelTail(m1), NatToString(m2) + LabelTail(m2);
      assert s1 == Description(m1)[|MovePrefix|..];
      assert s2 == Description(m2)[|MovePrefix|..];
      DigitsPrefix(NatToString(m1), NatToString(m2), LabelTail(m1), LabelTail(m2));
      NatToStringRoundTrip(m1);
      NatToStringRoundTrip(m2);
    }
  }

  /** One button of the move list: its label and the position `jumpTo` receives. */
  datatype MoveEntry = MoveEntry(move: nat, description: string)

  /** `sortedHistory.map((squares, move) => ...)`: the entry built for each position of the list. */
  function Moves<T>(sortedHistory: seq<T>): (r: seq<MoveEntry>)
    ensures |r| == |sortedHistory|
    ensures forall j :: 0 <= j < |r| ==> r[j].move == j && r[j].description == Description(j)
  {
    seq(|sortedHistory|, j requires 0 <= j < |sortedHistory| => MoveEntry(j, Description(j)))
  }

  /**
   * The entries depend on the position in `sortedHistory` only, so both orders
   * build the same list, and every entry's label is distinct and names its jump target.
   */
  lemma MovesIgnoreOrder<T>(history: seq<T>)
    ensures Moves(Sorted(history, true)) == Moves(Sorted(history, false))
    ensures forall j, k :: 0 <= j < k < |history| ==>
              Moves(Sorted(history, true))[j].description != Moves(Sorted(history, true))[k].description
  {
    forall j, k | 0 <= j < k < |history|
      ensures Moves(Sorted(history, true))[j].description != Moves(Sorted(history, true))[k].description
    {
      if Description(j) == Description(k) {
        DescriptionInjective(j, k);
      }
    }
  }
}
