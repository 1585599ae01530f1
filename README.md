# Tic-tac-toe game state, modelled in Dafny

A model of the logic in `src/App.js` of a React tic-tac-toe game with time travel. It covers:

- win detection (`calculateWinner`);
- the click handler and status line of the `Board` component;
- the `Game` component's state: the list of boards (`history`), the pointer into it (`currentMove`) and the sort flag (`isAscending`);
- what the move list shows: `sortedHistory` and the label of each entry.

The modules follow the source's parts:

- `Cells` (`cells.dfy`): the square contents `Empty | X | O` (`null`, `'X'`, `'O'` in the source) and the nine-square `Board`. A board is an immutable value, which is how the game uses it: a click copies the board before it writes.
- `WinnerDetector` (`winner.dfy`): the table of eight lines and `calculateWinner`. The loop method `CalculateWinner` is proved equal to a first-match specification, `WinningLine`.
- `BoardView` (`board_view.dfy`): `handleClick` and the three-way status line.
- `Labels` (`labels.dfy`): reversal, `sortedHistory`, decimal text of numbers, the move labels and the move list.
- `GameState` (`game.dfy`): the class `Game` with fields `history`, `currentMove` and `isAscending`. Its methods `HandlePlay`, `JumpTo` and `ToggleSortOrder` update fields the way the source's state setters do. `Click` wires `Board` to `Game` (line 108). The predicate `Reachable` describes a history that clicks can build, and the lemmas about it show what that history guarantees.

Facts about the source that the model keeps as they are:

- `jumpTo` has no range check, so `JumpTo` requires a position inside the history.
- `handleClick` returns without calling `onPlay` both when the board is already won and when the square is taken; `HandleClick` returns `None` in both cases.
- The status texts are `Winner: X`, `Draw` and `Next player: X` (or `O`).
- A board with fewer than five marks can hold a complete line; `NoWinnerBeforeFifthPly` shows that no board a game reaches has one before the fifth ply.
- A label and its jump target use the entry's position in `sortedHistory`, not the history index, so both orders build the same list of entries (`MovesIgnoreOrder`).

## Model

| member | source | states |
|---|---|---|
| `Cells.Mark` | src/App.js:22-26 | a click writes X exactly when `xIsNext`, otherwise O; never an empty square |
| `Cells.Turn` | src/App.js:73 | X is to move at even positions and O at odd ones |
| `Cells.Count` | src/App.js:21-26 | the number of squares holding a mark, zero exactly when no square holds it; used to count the marks clicks write |
| `Cells.Full` | src/App.js:34 | `squares.every(square => square !== null)`: full exactly when no square is empty |
| `Cells.CellText` | src/App.js:33-37 | the text of a square in a concatenation: `X` exactly for X, `O` exactly for O, one character for a mark |
| `Cells.CountUpdate` | src/App.js:21-26 | writing one square moves one unit of count from its old content to the new mark |
| `Cells.ThreeOccurrences` | src/App.js:138-140 | three distinct squares holding the same mark mean that mark occurs at least three times |
| `WinnerDetector.Wins` | src/App.js:139 | a line is complete exactly when its three squares hold one and the same non-empty mark, whichever square is tested for emptiness |
| `WinnerDetector.FirstWinFrom` | src/App.js:137-143 | the result is the first position of the line table from `from` on whose line is complete, or the table length when there is none |
| `WinnerDetector.WinningLine` | src/App.js:126-144 | none exactly when no line of the table is complete; otherwise a table line whose three squares hold the same non-empty mark and before which no line is complete |
| `WinnerDetector.CalculateWinner` | src/App.js:126-144 | the loop with early return yields exactly the first complete line of the table, or none |
| `WinnerDetector.WinnerHasThreeMarks` | src/App.js:138-140 | the winner's mark is not empty and fills at least three squares |
| `BoardView.HandleClick` | src/App.js:17-28 | the click is ignored exactly when the board has a winning line or the square is taken; otherwise the result is a copy that differs only at square `i`, which gets X when `xIsNext` and O otherwise |
| `BoardView.Status` | src/App.js:30-38 | a winner exactly when some line is complete, and the winner is the mark in square `a` of the first complete line `calculateWinner` returns; a draw exactly when no line is complete and the board is full; otherwise the player to move, X exactly when `xIsNext` |
| `BoardView.StatusText` | src/App.js:32-38 | a winner is shown as `Winner: ` followed by the winner's mark, a draw exactly as `Draw`, and otherwise `Next player: ` followed by the mark of the player to move |
| `BoardView.StatusTextInjective` | src/App.js:30-38 | different outcomes never show the same status text |
| `Labels.Reverse` | src/App.js:89 | the copy has the same length, and element `k` is element `n-1-k` of the input |
| `Labels.ReverseReverse` | src/App.js:89 | reversing twice restores the original sequence |
| `Labels.Sorted` | src/App.js:89 | `sortedHistory` has the history's length; element `k` is `history[k]` when ascending and `history[n-1-k]` when descending |
| `Labels.OrdersAreReverses` | src/App.js:76-89 | whichever order is current, the other order is its exact reverse, so toggling twice restores the list element for element |
| `Labels.DigitChar` | src/App.js:94 | a digit below ten is written as a decimal digit character |
| `Labels.DigitValue` | src/App.js:94 | a decimal digit character is read as a value below ten |
| `Labels.NatToString` | src/App.js:94 | a number's text is a non-empty string of decimal digits with no leading zero |
| `Labels.NatToStringRoundTrip` | src/App.js:94 | reading a number's decimal text back gives the number |
| `Labels.LabelRow` | src/App.js:94 | the printed row is the floor of `(move-1)/3` |
| `Labels.LabelCol` | src/App.js:94 | the printed column is below 3, and row times 3 plus column is `move-1` |
| `Labels.LabelPlayer` | src/App.js:94 | the printed player is a mark, and for `move > 0` it is the player whose turn it was at position `move-1` |
| `Labels.LabelTail` | src/App.js:94 | the text after the move number is non-empty and starts with a space, so it cannot continue the number |
| `Labels.LabelTailShows` | src/App.js:94 | for moves 1 to 9 the tail reads ` at row `, the row digit, ` col  `, the column digit, `| Player's move: ` and the mover's mark, at fixed places |
| `Labels.Description` | src/App.js:93-97 | the label is `Go to game start` exactly for position 0; any other position `move` is labelled `Go to move #`, then the decimal text of `move`, then the row, column and player tail |
| `Labels.DescriptionShows` | src/App.js:93-97 | for moves 1 to 9 the label reads `Go to move #`, the move digit and the tail, with the row digit, the column digit and the mover's mark at fixed places of the label |
| `Labels.DigitsPrefix` | src/App.js:94 | a number followed by a non-digit can be read back unambiguously from the label |
| `Labels.DescriptionInjective` | src/App.js:93-97 | two positions never get the same label, so each label encodes its move number |
| `Labels.Moves` | src/App.js:91-103 | one entry per element of `sortedHistory`; entry `j` jumps to `j` and carries the label of `j` |
| `Labels.MovesIgnoreOrder` | src/App.js:89-103 | both orders build the same entries, and the labels in the list are pairwise distinct |
| `GameState.ReachablePrefix` | src/App.js:81 | keeping a prefix of a history that clicks built gives such a history again |
| `GameState.PlyCounts` | src/App.js:18-27 | after `k` plies, `k` squares are filled, `(k+1)/2` with X and `k/2` with O |
| `GameState.HistoryLength` | src/App.js:80-84 | a history that clicks built holds at most ten boards |
| `GameState.XIsNextIffEqualCounts` | src/App.js:73 | X is to move exactly when both players have made the same number of moves |
| `GameState.NoWinnerBeforeFifthPly` | src/App.js:126-143 | no board of the first five positions has a complete line |
| `GameState.WinnerIsLastMover` | src/App.js:18-20 | every complete line on a reachable board holds the mark of the player who made the last ply, and that player is the one the move label names |
| `GameState.LabelNamesMover` | src/App.js:94 | the board at `k+1` is the board at `k` with one empty square set to the player the label of `k+1` names |
| `GameState.FullIffNinePlies` | src/App.js:34 | a reachable board is full exactly at position 9 |
| `GameState.StatusOfReachable` | src/App.js:30-38 | on a reachable board, a winner appears only from position 5 on and is the last mover; a draw appears only at position 9; otherwise the status names the player to move |
| `GameState.Game.constructor` | src/App.js:70-72 | the game starts with one empty board, move 0 and ascending order, and is consistent |
| `GameState.Game.XIsNext` | src/App.js:73 | `xIsNext` gives the mark of the player whose turn it is at `currentMove` |
| `GameState.Game.CurrentSquares` | src/App.js:74 | `currentSquares` is a board of the history |
| `GameState.Game.CurrentSquaresHoldMoves` | src/App.js:74 | in a history built by clicks, the current board holds exactly `currentMove` marks |
| `GameState.Game.CurrentStatus` | src/App.js:30-38 | the status of the current board with `xIsNext` as wired at line 108: a winner exactly when that board has a complete line, namely the mark in square `a` of the first complete line; a draw exactly when no line is complete and the board is full; otherwise the player whose turn it is |
| `GameState.Game.CurrentStatusOfConsistent` | src/App.js:30-38 | in a history built by clicks a winner appears only from move 5 on and is the last mover, and a draw only at move 9 |
| `GameState.Game.SortedHistory` | src/App.js:89 | element `k` is `history[k]` when ascending and `history[n-1-k]` when descending |
| `GameState.Game.MoveList` | src/App.js:89-103 | one entry per history board; entry `j` jumps to `j`, a position inside the history, and shows the label of `j` |
| `GameState.Game.ToggleSortOrder` | src/App.js:76-78 | only the flag flips; the history and the pointer stay, and the shown list becomes its exact reverse |
| `GameState.Game.HandlePlay` | src/App.js:80-84 | the history becomes `history[0..currentMove]` followed by the new board, so its length is `currentMove + 2`; later boards are dropped, and the pointer moves to the last entry |
| `GameState.Game.JumpTo` | src/App.js:86-88 | only `currentMove` changes, to the target |
| `GameState.Game.Click` | src/App.js:108 | a click plays exactly when the current board has no winner and the square is empty; it then truncates the history and appends the current board with that square set to the player to move; otherwise nothing changes; a consistent game stays consistent |
| `GameState.ReplayFromPast` | src/App.js:80-88 | three plies, a jump back to position 1 and a click leave three boards with the pointer on the last one |

## Left out

- Rendering is left out as presentation only: `Square`, the row-building loop of `Board` (src/App.js:47-66), the buttons, CSS and `key` props.
- Winning-square highlighting is left out: `renderSquare` checks `winningLine.includes(i)` (src/App.js:40-45). The winning line itself is modelled by `WinningLine`.
- The `moves.sort(...)` call (src/App.js:115-119) is left out. Its comparator returns `-1` or `undefined`, so the displayed order depends on the JavaScript engine. The model stops at the list `sortedHistory.map(...)` builds.
- React state is replaced by plain field updates. `useState` setters, batching and re-rendering are not modelled. `handlePlay` computes both new values from the state before the call, so applying them at once is equivalent.
- `jumpTo` with a position outside the history is not modelled. The source does not guard it, and `JumpTo` requires a valid position.
- Square indices outside 0..8 are not modelled. `Index` is a subset type, and JavaScript would read `undefined` there.
- The identity of board arrays is not modelled. Boards are values; `HandleClick` copies into a fresh array as `slice` does, so the argument cannot be changed.
- `CellText` renders an empty square as `null`, which is JavaScript's text for it. A winner status never holds an empty square, so this text is never shown.
- `NatToString` models JavaScript's number-to-text conversion for non-negative integers only. Those are the only numbers the labels print.
