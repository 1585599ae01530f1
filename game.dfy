/** The `Game` component: the history of boards, the current move and the sort order. */
module GameState {
  import opened Cells
  import opened WinnerDetector
  import opened BoardView
  import opened Labels

  /**
   * One accepted click: `before` has no winner, and the player to move at position `k`
   * writes its mark into one empty square of it.
   */
  predicate PlyStep(before: Board, after: Board, k: nat) {
    WinningLine(before).None? &&
    exists i :: 0 <= i < 9 && before[i] == Empty && after == before[i := Turn(k)]
  }

  /** A history the game can build: it starts from the empty board and each entry is one ply after the one before. */
  predicate Reachable(history: seq<Board>) {
    |history| >= 1 && history[0] == EmptyBoard &&
    forall k :: 0 <= k < |history| - 1 ==> PlyStep(history[k], history[k + 1], k)
  }

  /** Keeping a prefix of a reachable history gives a reachable history. */
  lemma ReachablePrefix(history: seq<Board>, n: nat)
    requires Reachable(history) && 1 <= n <= |history|
    ensures Reachable(history[..n])
  {
  }

  /** After `k` plies, `k` squares are filled: `(k + 1) / 2` hold X and `k / 2` hold O. */
  lemma {:induction false} PlyCounts(history: seq<Board>, k: nat)
    requires Reachable(history) && k < |history|
    ensures Count(history[k], Empty) + k == 9
    ensures Count(history[k], X) == (k + 1) / 2
    ensures Count(history[k], O) == k / 2
  {
    if k == 0 {
      EmptyBoardCounts();
    } else {
      PlyCounts(history, k - 1);
      assert PlyStep(history[k - 1], history[k], k - 1);
      var i :| 0 <= i < 9 && history[k - 1][i] == Empty && history[k] == history[k - 1][i := Turn(k - 1)];
      CountUpdate(history[k - 1], i, Turn(k - 1), Empty);
      CountUpdate(history[k - 1], i, Turn(k - 1), X);
      CountUpdate(history[k - 1], i, Turn(k - 1), O);
    }
  }

  /** A game has at most nine plies, so a history never holds more than ten boards. */
  lemma HistoryLength(history: seq<Board>)
    requires Reachable(history)
    ensures |history| <= 10
  {
    PlyCounts(history, |history| - 1);
  }

  /** X is to move exactly when both players have made the same number of moves. */
  lemma XIsNextIffEqualCounts(history: seq<Board>, k: nat)
    requires Reachable(history) && k < |history|
    ensures k % 2 == 0 <==> Count(history[k], X) == Count(history[k], O)
  {
    PlyCounts(history, k);
  }

  /** Nobody can complete a line in fewer than five plies. */
  lemma NoWinnerBeforeFifthPly(history: seq<Board>, k: nat)
    requires Reachable(history) && k < |history| && k < 5
    ensures WinningLine(history[k]).None?
  {
    if WinningLine(history[k]).Some? {
      WinnerHasThreeMarks(history[k]);
      PlyCounts(history, k);
    }
  }

  /**
   * Every complete line of a reachable board belongs to the player who made the last
   * ply, since the board before it had no complete line.
   */
  lemma WinnerIsLastMover(history: seq<Board>, k: nat, line: Line)
    requires Reachable(history) && 1 <= k < |history|
    requires line in Lines && Wins(history[k], line)
    ensures history[k][line.a] == Turn(k - 1) == LabelPlayer(k)
  {
    var before, after := history[k - 1], history[k];
    assert PlyStep(before, after, k - 1);
    var i :| 0 <= i < 9 && before[i] == Empty && after == before[i := Turn(k - 1)];
  }

  /** The player a label names is the one who made that ply of a reachable history. */
  lemma LabelNamesMover(history: seq<Board>, k: nat)
    requires Reachable(history) && k + 1 < |history|
    ensures exists i :: 0 <= i < 9 && history[k][i] == Empty && history[k + 1] == history[k][i := LabelPlayer(k + 1)]
  {
    assert PlyStep(history[k], history[k + 1], k);
  }

  /** A reachable board is full exactly after nine plies. */
  lemma FullIffNinePlies(history: seq<Board>, k: nat)
    requires Reachable(history) && k < |history|
    ensures Full(history[k]) <==> k == 9
  {
    PlyCounts(history, k);
  }

  /**
   * The status line of a reachable board: a winner only from the fifth ply on and always
   * the player who made the last ply; a draw only after the ninth ply; otherwise the
   * player to move at that position.
   */
  lemma StatusOfReachable(history: seq<Board>, k: nat)
    requires Reachable(history) && k < |history|
    ensures var s := Status(history[k], k % 2 == 0);
            (s.Winner? ==> k >= 5 && s.winner == LabelPlayer(k)) &&
            (s.Draw? ==> k == 9) &&
            (s.NextPlayer? ==> s.player == Turn(k) && k < 9)
  {
    var s := Status(history[k], k % 2 == 0);
    FullIffNinePlies(history, k);
    HistoryLength(history);
    if s.Winner? {
      if k < 5 {
        NoWinnerBeforeFifthPly(history, k);
      }
      var line := WinningLine(history[k]).value;
      WinnerIsLastMover(history, k, line);
    }
  }

  class Game {
    var history: seq<Board>
    var currentMove: nat
    var isAscending: bool

    /** `history[currentMove]` exists. */
    ghost predicate Valid()
      reads this
    {
      1 <= |history| && currentMove < |history|
    }

    /** The state the user interface can reach: valid, with a history built by clicks. */
    ghost predicate Consistent()
      reads this
    {
      Valid() && Reachable(history)
    }

    /** The initial state: one empty board, move 0, ascending order. */
    constructor ()
      ensures Consistent()
      ensures history == [EmptyBoard] && currentMove == 0 && isAscending
    {
      history := [EmptyBoard];
      currentMove := 0;
      isAscending := true;
    }

    /** `xIsNext`: X moves on even positions. */
    function XIsNext(): (b: bool)
      reads this
      ensures Mark(b) == Turn(currentMove)
    {
      currentMove % 2 == 0
    }

    /** `currentSquares`: the board of the history at `currentMove`. */
    function CurrentSquares(): (squares: Board)
      reads this
      requires Valid()
      ensures squares in history
    {
      history[currentMove]
    }

    /** In a history built by clicks, the board shown holds exactly `currentMove` marks. */
    lemma CurrentSquaresHoldMoves()
      requires Consistent()
      ensures Count(CurrentSquares(), X) + Count(CurrentSquares(), O) == currentMove
    {
      PlyCounts(history, currentMove);
    }

    /** What the `Board` component shows as its status line, given the current squares and `xIsNext`. */
    function CurrentStatus(): (s: GameStatus)
      reads this
      requires Valid()
      ensures s.Winner? <==> WinningLine(history[currentMove]).Some?
      ensures s.Winner? ==> s.winner == history[currentMove][WinningLine(history[currentMove]).value.a]
      ensures s.Draw? <==> WinningLine(history[currentMove]).None? && Full(history[currentMove])
      ensures s.NextPlayer? <==> WinningLine(history[currentMove]).None? && !Full(history[currentMove])
      ensures s.NextPlayer? ==> s.player == Turn(currentMove)
    {
      Status(CurrentSquares(), XIsNext())
    }

    /**
     * In a history built by clicks, a winner is shown only from move 5 on and is the player
     * who made the last ply, and a draw only at move 9.
     */
    lemma CurrentStatusOfConsistent()
      requires Consistent()
      ensures CurrentStatus().Winner? ==> currentMove >= 5 && CurrentStatus().winner == LabelPlayer(currentMove)
      ensures CurrentStatus().Draw? ==> currentMove == 9
    {
      StatusOfReachable(history, currentMove);
    }

    /** `sortedHistory`: the history, or its reversed copy when the order is descending. */
    function SortedHistory(): (r: seq<Board>)
      reads this
      ensures |r| == |history|
      ensures forall k :: 0 <= k < |history| ==>
                r[k] == if isAscending then history[k] else history[|history| - 1 - k]
    {
      Sorted(history, isAscending)
    }

    /** The entries of the move list, before the `sort` call. */
    function MoveList(): (r: seq<MoveEntry>)
      reads this
      ensures |r| == |history|
      ensures forall j :: 0 <= j < |r| ==> r[j] == MoveEntry(j, Description(j)) && r[j].move < |history|
    {
      Moves(SortedHistory())
    }

    /** `toggleSortOrder`: flips the order; the list shown becomes the exact reverse. */
    method ToggleSortOrder()
      modifies this
      ensures isAscending == !old(isAscending)
      ensures history == old(history) && currentMove == old(currentMove)
      ensures SortedHistory() == Reverse(old(SortedHistory()))
    {
      isAscending := !isAscending;
      OrdersAreReverses(history, !isAscending);
    }

    /** `handlePlay`: keeps `history[0..currentMove]`, drops the later boards and appends the new one. */
    method HandlePlay(nextSquares: Board)
      requires Valid()
      modifies this
      ensures Valid()
      ensures history == old(history[..currentMove + 1]) + [nextSquares]
      ensures |history| == old(currentMove) + 2
      ensures currentMove == |history| - 1
      ensures isAscending == old(isAscending)
    {
      var nextHistory := history[..currentMove + 1] + [nextSquares];
      history := nextHistory;
      currentMove := |nextHistory| - 1;
    }

    /** `jumpTo`: moves the pointer only. */
    method JumpTo(nextMove: nat)
      requires Valid() && nextMove < |history|
      modifies this
      ensures Valid()
      ensures currentMove == nextMove
      ensures history == old(history) && isAscending == old(isAscending)
    {
      currentMove := nextMove;
    }

    /**
     * A click on square `i` of the board shown: `Board` is given the current squares,
     * `xIsNext` and `handlePlay`; `played` says whether `onPlay` was called.
     */
    method Click(i: Index) returns (played: bool)
      requires Valid()
      modifies this
      ensures Valid()
      ensures played <==> old(WinningLine(CurrentSquares()).None? && CurrentSquares()[i] == Empty)
      ensures played ==> history == old(history[..currentMove + 1] + [CurrentSquares()[i := Turn(currentMove)]])
                         && currentMove == old(currentMove) + 1
      ensures !played ==> history == old(history) && currentMove == old(currentMove)
      ensures isAscending == old(isAscending)
      ensures old(Consistent()) ==> Consistent()
    {
      ghost var wasConsistent := Consistent();
      ghost var before := CurrentSquares();
      ghost var k := currentMove;
      var next := HandleClick(CurrentSquares(), XIsNext(), i);
      played := next.Some?;
      if played {
        ghost var prefix := history[..currentMove + 1];
        HandlePlay(next.value);
        if wasConsistent {
          assert PlyStep(before, next.value, k);
          ReachablePrefix(old(history), k + 1);
          assert history[..k + 1] == prefix;
          forall j | 0 <= j < |history| - 1
            ensures PlyStep(history[j], history[j + 1], j)
          {
            if j < k {
              assert history[j] == prefix[j] && history[j + 1] == prefix[j + 1];
            }
          }
        }
      }
    }
  }

  /**
   * Replaying from the past: three plies, a jump back to position 1 and a new click
   * leave three boards, the later two of the old history gone.
   */
  method ReplayFromPast() returns (game: Game)
    ensures game.Consistent()
    ensures |game.history| == 3 && game.currentMove == 2
    ensures game.history[2] == EmptyBoard[0 := X][5 := O]
  {
    game := new Game();
    var played := game.Click(0);
    NoWinnerBeforeFifthPly(game.history, game.currentMove);
    played := game.Click(3);
    NoWinnerBeforeFifthPly(game.history, game.currentMove);
    played := game.Click(1);
    assert |game.history| == 4 && game.currentMove == 3;
    game.JumpTo(1);
    NoWinnerBeforeFifthPly(game.history, game.currentMove);
    played := game.Click(5);
  }
}
