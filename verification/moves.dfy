/** The long-press handler of the view controller with the UI removed. The
    player drags the tile in cell `cur` onto cell `dst`. The move goes through
    when `dst` holds the blank and some in-bounds cell at `cur - 1`,
    `cur + 1`, `cur + 4` or `cur - 4` holds the blank. Then the two cells are
    swapped and the win check runs on the new board. */
module Moves {
  import opened Board
  import opened Win

  /** `isInArray`: `i` is a valid cell index of the board. */
  predicate IsInArray(b: Board, i: int) {
    0 <= i && i < |b|
  }

  /** Cell `i` exists and holds the blank. The bounds test comes first, so
      the cell is only read when it exists. */
  predicate BlankAt(b: Board, i: int) {
    IsInArray(b, i) && b[i] == Blank
  }

  /** The source-side test: one of the four offsets from `cur` reaches the
      blank. The +1 and -1 offsets are not checked against the row. */
  predicate NextToBlank(b: Board, cur: int) {
    || BlankAt(b, cur - 1)
    || BlankAt(b, cur + 1)
    || BlankAt(b, cur + Stride)
    || BlankAt(b, cur - Stride)
  }

  /** The whole guard of the handler: the destination holds the blank and the
      source sits next to a blank. */
  predicate MoveAllowed(b: Board, cur: int, dst: int)
    requires 0 <= dst < Cells
  {
    b[dst] == Blank && NextToBlank(b, cur)
  }

  /** What one drag produces: it is either refused or it is performed and
      reports the result of the win check. */
  datatype Outcome = Rejected | Accepted(won: bool)

  datatype Reply = Reply(board: Board, outcome: Outcome)

  /** One drag from cell `cur` onto cell `dst`. Both come from index paths of
      the grid, so they are valid cell indices. */
  function Press(b: Board, cur: int, dst: int): (r: Reply)
    requires 0 <= cur < Cells && 0 <= dst < Cells
    ensures !MoveAllowed(b, cur, dst) ==> r.board == b && r.outcome == Rejected
    ensures MoveAllowed(b, cur, dst) ==>
      && r.board[cur] == Blank
      && r.board[dst] == b[cur]
      && (forall k :: 0 <= k < Cells && k != cur && k != dst ==> r.board[k] == b[k])
      && r.outcome == Accepted(Won(r.board))
    ensures multiset(r.board) == multiset(b)
  {
    if MoveAllowed(b, cur, dst) then
      var next := Swap(b, cur, dst);
      Reply(next, Accepted(Won(next)))
    else
      Reply(b, Rejected)
  }

  /** `isInArray` accepts exactly the indices 0..15. */
  lemma IsInArrayBounds(b: Board, i: int)
    ensures IsInArray(b, i) <==> 0 <= i < Cells
  {
  }

  /** A permutation board stays a permutation board, whatever the drag. */
  lemma PressKeepsPerm(b: Board, cur: int, dst: int)
    requires 0 <= cur < Cells && 0 <= dst < Cells
    requires IsPerm(b)
    ensures IsPerm(Press(b, cur, dst).board)
  {
  }

  /** On a permutation board the guard holds exactly when the destination is
      the blank and the source is 1 or 4 cells away from it, with no regard
      to rows. In particular the source is never the blank itself. */
  lemma MoveAllowedIff(b: Board, cur: int, dst: int)
    requires 0 <= cur < Cells && 0 <= dst < Cells
    requires IsPerm(b)
    ensures MoveAllowed(b, cur, dst) <==>
      b[dst] == Blank && (dst - cur == 1 || cur - dst == 1 || dst - cur == Stride || cur - dst == Stride)
    ensures MoveAllowed(b, cur, dst) ==> b[cur] != Blank
  {
    PermFacts(b);
    if MoveAllowed(b, cur, dst) {
      var n := if BlankAt(b, cur - 1) then cur - 1
        else if BlankAt(b, cur + 1) then cur + 1
        else if BlankAt(b, cur + Stride) then cur + Stride
        else cur - Stride;
      BlankUnique(b, n, dst);
    }
  }

  /** Cells that are neighbours on the 4x4 grid: same row and one column
      apart, or same column and one row apart. */
  predicate GridAdjacent(i: int, j: int) {
    || (Row(i) == Row(j) && (i - j == 1 || j - i == 1))
    || (i - j == Stride || j - i == Stride)
  }

  /** The handler accepts every true grid move, and on top of those exactly
      the moves between the last cell of one row and the first cell of the
      next. */
  lemma AcceptedMovesWrapRows(b: Board, cur: int, dst: int)
    requires 0 <= cur < Cells && 0 <= dst < Cells
    requires IsPerm(b)
    requires b[dst] == Blank
    ensures MoveAllowed(b, cur, dst) <==>
      GridAdjacent(cur, dst) || ((cur - dst == 1 || dst - cur == 1) && Row(cur) != Row(dst))
  {
    MoveAllowedIff(b, cur, dst);
  }

  /** The missing row guard: with the blank in the first cell of row `row`,
      the tile at the end of the previous row may be dragged into it, and
      the other way round, although the two cells are in different rows. */
  lemma RowWrapAccepted(b: Board, row: int)
    requires 1 <= row < Stride
    ensures b[row * Stride] == Blank ==>
      MoveAllowed(b, row * Stride - 1, row * Stride)
      && Row(row * Stride - 1) != Row(row * Stride)
      && !GridAdjacent(row * Stride - 1, row * Stride)
    ensures b[row * Stride - 1] == Blank ==>
      MoveAllowed(b, row * Stride, row * Stride - 1)
      && !GridAdjacent(row * Stride, row * Stride - 1)
  {
  }

  /** A concrete instance of the missing row guard: on the board that
      starts from `Array(0 ... 15)` with the blank moved to cell 4, the tile
      in cell 3 (end of the first row) is dragged into cell 4 (start of the
      second row), and the move is accepted. */
  lemma RowWrapExample()
    ensures var b := Swap(Initial(), 0, 4);
      && IsPerm(b) && b[4] == Blank && b[3] == 3
      && Press(b, 3, 4) == Reply(Swap(b, 3, 4), Accepted(false))
  {
    var b := Swap(Initial(), 0, 4);
    SwapKeepsPerm(Initial(), 0, 4);
    assert BlankAt(b, 3 + 1);
    assert Swap(b, 3, 4)[0] == 4;
  }

  /** Dragging the same cell onto the same illegal target again is refused
      again and still changes nothing. */
  lemma RejectionIsStable(b: Board, cur: int, dst: int)
    requires 0 <= cur < Cells && 0 <= dst < Cells
    requires Press(b, cur, dst).outcome == Rejected
    ensures Press(Press(b, cur, dst).board, cur, dst) == Press(b, cur, dst)
  {
  }

  /** An accepted drag can be undone by dragging the moved tile back onto the
      cell it came from, which now holds the blank. */
  lemma PressUndo(b: Board, cur: int, dst: int)
    requires 0 <= cur < Cells && 0 <= dst < Cells
    requires IsPerm(b)
    requires Press(b, cur, dst).outcome.Accepted?
    ensures Press(Press(b, cur, dst).board, dst, cur).outcome.Accepted?
    ensures Press(Press(b, cur, dst).board, dst, cur).board == b
  {
    MoveAllowedIff(b, cur, dst);
    var next := Swap(b, cur, dst);
    SwapKeepsPerm(b, cur, dst);
    MoveAllowedIff(next, dst, cur);
    assert Swap(next, dst, cur) == b by {
      SwapInvolution(b, cur, dst);
      assert Swap(next, dst, cur) == Swap(next, cur, dst);
    }
  }

  /** A drag that solves the puzzle: with the blank in cell 11 and tile 12
      below it in cell 15, dragging cell 15 onto cell 11 gives 1..15 followed
      by the blank, and the win check reports a win. */
  lemma SolvingMoveExample()
    ensures var b: Board := [1, 2, 3, 4, 5, 6, 7, 8, 9, 10, 11, 0, 13, 14, 15, 12];
      Press(b, 15, 11) == Reply(Solved(), Accepted(true))
  {
    var b: Board := [1, 2, 3, 4, 5, 6, 7, 8, 9, 10, 11, 0, 13, 14, 15, 12];
    assert Swap(b, 15, 11) == Solved() by {
      var s: Board := [1, 2, 3, 4, 5, 6, 7, 8, 9, 10, 11, 12, 13, 14, 15, 0];
      assert Solved() == s;
      assert b[15 := b[11]][11 := b[15]] == s;
    }
    assert MoveAllowed(b, 15, 11) by { assert BlankAt(b, 15 - Stride); }
    assert Won(Solved()) by { assert Solved()[0] == 1; }
  }

  /** A drag from a cell far from the blank: on the same board, dragging
      cell 0 (tile 1) onto the blank in cell 11 is refused, because none of
      cell 0's neighbours holds the blank. */
  lemma FarMoveExample()
    ensures var b: Board := [1, 2, 3, 4, 5, 6, 7, 8, 9, 10, 11, 0, 13, 14, 15, 12];
      Press(b, 0, 11) == Reply(b, Rejected)
  {
    var b: Board := [1, 2, 3, 4, 5, 6, 7, 8, 9, 10, 11, 0, 13, 14, 15, 12];
    assert !MoveAllowed(b, 0, 11) by { assert b[1] != Blank && b[4] != Blank; }
  }
}
