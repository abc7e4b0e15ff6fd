# ShufflePuzzle engine in Dafny

ShufflePuzzle is an iOS 15-puzzle. All of its game logic sits inside one
view controller, mixed in with the UIKit callbacks. This project models that
logic with the UI removed:

- `items`: a flat array of 16 cells holding 0..15, with 0 as the blank. It
  starts as `Array(0 ... 15)`.
- `initGame`: shuffles `items` in place.
- `isInArray`: the bounds test.
- The long-press handler. It accepts a drag from cell `cur` onto cell `dst`
  when `dst` holds the blank and one of the cells `cur - 1`, `cur + 1`,
  `cur + 4`, `cur - 4` exists and holds the blank. It then swaps the two
  cells and runs the win check.
- The win check. It compares cells 0..14 (or 1..15 when the blank is in
  cell 0) against "cell `i` holds `i + 1`".

Modules:

- `Board` (`board.dfy`): the board type, the starting board, the swap, and
  the permutation invariant with its consequences (values in range, no
  repeats, exactly one blank).
- `Win` (`win.dfy`): the win-check loop as a method, its meaning as a
  predicate, and its closed form on permutation boards.
- `Moves` (`moves.dfy`): `isInArray`, the guard of the handler, and one drag
  as a pure function returning the new board and the outcome.
- `Game` (`game.dfy`): the shuffle, and runs of shuffles and drags from the
  starting board.

Two behaviours of the code are modelled as written, not corrected:

- The ±1 test has no row guard. Cell 3 (end of row 0) and cell 4 (start of
  row 1) count as neighbours, and so do 7/8 and 11/12. A conventional
  15-puzzle rejects a move between these cells; the code accepts it.
  `Moves.RowWrapAccepted` and `Moves.AcceptedMovesWrapRows` state this.
- The blank-in-cell-0 branch of the win check needs cell 15 to hold 16. So
  it never succeeds on a permutation board (`Win.BlankFirstNeverWins`). On
  permutation boards the check is therefore equivalent to "the board is in
  the usual solved arrangement, 1..15 then the blank" (`Win.WonIffSolved`).

## Model

| member | source | states |
|---|---|---|
| Board.Initial | ShufflePuzzle/ViewController.swift:14 | the starting board holds value `i` in cell `i` for every cell |
| Game.InitialIsPerm | ShufflePuzzle/ViewController.swift:14 | the starting board is a permutation of 0..15 whose one and only blank is in cell 0 |
| Board.PermFacts | ShufflePuzzle/ViewController.swift:14 | on a permutation board every cell holds a value in 0..15 and no value appears twice |
| Board.ExactlyOneBlank | ShufflePuzzle/ViewController.swift:14 | a permutation board holds the blank exactly once, in some cell of the grid |
| Board.BlankUnique | ShufflePuzzle/ViewController.swift:87-91 | two cells of a permutation board that both hold the blank are the same cell |
| Board.Swap | ShufflePuzzle/ViewController.swift:95 | the two cells trade values, every other cell keeps its value, and the multiset of values is unchanged |
| Board.SwapInvolution | ShufflePuzzle/ViewController.swift:95 | swapping the same two cells twice gives back the original board |
| Board.SwapKeepsPerm | ShufflePuzzle/ViewController.swift:95 | a swap maps a permutation board to a permutation board |
| Moves.IsInArrayBounds | ShufflePuzzle/ViewController.swift:79-81 | the bounds test holds exactly for indices 0..15 |
| Moves.Press | ShufflePuzzle/ViewController.swift:87-97 | a refused drag returns the board unchanged and reports a rejection; an accepted drag leaves the blank at the source, the source's tile at the destination, every other cell unchanged, and reports the win check of the new board; the values are never changed |
| Moves.PressKeepsPerm | ShufflePuzzle/ViewController.swift:95 | a drag maps a permutation board to a permutation board |
| Moves.MoveAllowedIff | ShufflePuzzle/ViewController.swift:87-91 | on a permutation board the guard holds exactly when the destination holds the blank and the source is 1 or 4 cells from it; an accepted source never holds the blank |
| Moves.AcceptedMovesWrapRows | ShufflePuzzle/ViewController.swift:88-91 | on a permutation board with the blank at the destination, the guard holds exactly for true grid neighbours plus the ±1 pairs that lie in different rows |
| Moves.RowWrapAccepted | ShufflePuzzle/ViewController.swift:88-89 | with the blank at the start of row 1, 2 or 3, a drag from the end of the previous row is accepted although the two cells are not grid neighbours, and the same in the other direction |
| Moves.RowWrapExample | ShufflePuzzle/ViewController.swift:88-95 | on a concrete permutation board with the blank in cell 4, the drag from cell 3 is accepted and swaps the two cells |
| Moves.RejectionIsStable | ShufflePuzzle/ViewController.swift:87-95 | repeating a refused drag is refused again and still leaves the board as it was |
| Moves.PressUndo | ShufflePuzzle/ViewController.swift:87-95 | on a permutation board an accepted drag is undone by dragging the moved tile back onto its old cell, and that drag is accepted |
| Moves.SolvingMoveExample | ShufflePuzzle/ViewController.swift:87-105 | with the blank in cell 11 and tile 12 in cell 15, the drag from 15 onto 11 is accepted, gives the solved board and reports a win |
| Moves.FarMoveExample | ShufflePuzzle/ViewController.swift:87-91 | on the same board the drag from cell 0 onto the blank in cell 11 is refused and changes nothing |
| Win.WinCheck | ShufflePuzzle/ViewController.swift:97-105 | the loop with its early exit reports a win exactly when every cell of the inspected window holds its index plus one; when the blank is in cell 0, a win needs cell 15 to hold 16 |
| Win.WonIffSolved | ShufflePuzzle/ViewController.swift:97-105 | on a permutation board the win check succeeds exactly when the board is 1, 2, ..., 15 followed by the blank |
| Win.BlankFirstNeverWins | ShufflePuzzle/ViewController.swift:98-101 | on a permutation board with the blank in cell 0 the win check always fails |
| Win.BlankFirstWinsOnlyOffPerm | ShufflePuzzle/ViewController.swift:98-101 | there is a board with the blank in cell 0 that passes the win check, and it is not a permutation of 0..15 |
| Game.Shuffle | ShufflePuzzle/ViewController.swift:26-28 | the shuffled board holds the same values as before, each as often as before |
| Game.ShuffleIsPossible | ShufflePuzzle/ViewController.swift:26-28 | a shuffled board is a possible next state, and it is a permutation of 0..15 when the board before it was one |
| Game.Apply | ShufflePuzzle/ViewController.swift:25-30 | a shuffle or a drag never changes which values the board holds |
| Game.RunKeepsPerm | ShufflePuzzle/ViewController.swift:14-30 | any sequence of possible shuffles (by `initGame`, also after "Play again") and drags maps a permutation board to a permutation board with exactly one blank |
| Game.ReachableIsPerm | ShufflePuzzle/ViewController.swift:14-30 | every board reachable from the starting board is a permutation of 0..15 with exactly one blank |

## Left out

- Layout, rendering and the collection-view data source (`loadView`,
  `updateViewConstraints`, the cell setup, hiding the blank's label): they
  are presentation only.
- Gesture handling and the conversion from touch points to index paths.
  `cur` and `dst` are taken as cell indices 0..15, which is what a valid
  index path of the grid is. When the touch point is over no cell the
  handler does nothing; that path is not modelled.
- The animation calls and the asynchronous completion block. A drag is
  modelled as "swap, then run the win check".
- The "You won!" alert and the system sound. "Play again" calls `initGame`
  again, which is one more `Reshuffle` event in a `Game` run.
- Game.Shuffle: the source sorts with a comparator that returns a random
  bit, and that sort lives in the Swift standard library. The model only
  claims that the result is a reordering of the board. It does not claim
  uniformity, solvability, or that every order can come out. The random
  source is the parameter `draws`, and each draw exchanges two cells.
- A "solved" state that refuses further moves. The code has no such state.
  After a win it shows the alert, and the board stays as it is until "Play
  again" shuffles it.
- Swift's 64-bit `Int`. Every index here lies within -4..19, so no overflow
  can occur and unbounded integers model it exactly.
