/** The win check that runs in the completion block after a move. It compares
    a window of cells against "cell i holds i + 1": cells 1..15 when the blank
    is in cell 0, cells 0..14 otherwise. */
module Win {
  import opened Board

  /** First cell the loop inspects. */
  function WindowStart(b: Board): int {
    if b[0] == Blank then 1 else 0
  }

  /** Last cell the loop inspects. */
  function WindowEnd(b: Board): int {
    if b[0] == Blank then 15 else 14
  }

  /** Every cell from `lo` to `hi` (inclusive) holds its index plus one. */
  predicate Matches(b: Board, lo: int, hi: int)
    requires 0 <= lo && hi < Cells
  {
    forall k :: lo <= k <= hi ==> b[k] == k + 1
  }

  /** The verdict of the win-check loop, as a property of the board. */
  predicate Won(b: Board) {
    Matches(b, WindowStart(b), WindowEnd(b))
  }

  /** The loop of the completion block: it starts with `won = true` and
      clears it, leaving the loop, at the first inspected cell `i` that does
      not hold `i + 1`. Every index it reads lies in 0..15. */
  method WinCheck(items: Board) returns (won: bool)
    ensures won <==> Won(items)
    ensures won && items[0] == Blank ==> items[Cells - 1] == Cells
  {
    won := true;
    var start := if items[0] == Blank then 1 else 0;
    var end := if items[0] == Blank then 15 else 14;
    var i := start;
    while i <= end
      invariant start <= i <= end + 1
      invariant won
      invariant forall k :: start <= k < i ==> items[k] == k + 1
    {
      if items[i] != i + 1 {
        won := false;
        break;
      }
      i := i + 1;
    }
  }

  /** On a permutation board the loop reports a win exactly when the board is
      1, 2, ..., 15 followed by the blank. */
  lemma WonIffSolved(b: Board)
    requires IsPerm(b)
    ensures Won(b) <==> b == Solved()
  {
    PermFacts(b);
    var s := Solved();
    assert Won(s) by { assert s[0] == 1; }
    // The blank-first window would need the last cell to hold 16, so a winning
    // window is 0..14; the last cell then holds the one value not yet used,
    // because any other value v already sits in cell v - 1.
    var last := b[Cells - 1];
    var home := if last == Blank then 0 else last - 1;
    assert b[home] == home + 1 ==> home == Cells - 1 || last == Blank;
    if Won(b) {
      forall k | 0 <= k < Cells
        ensures b[k] == s[k]
      {
      }
    }
  }

  /** The blank-first branch of the loop never reports a win on a permutation
      board: it wants the last cell to hold 16, which no board holds. */
  lemma BlankFirstNeverWins(b: Board)
    requires IsPerm(b)
    requires b[0] == Blank
    ensures !Won(b)
  {
    PermFacts(b);
    assert WindowEnd(b) == 15 && b[15] != 16;
  }

  /** Off the permutation invariant the blank-first branch can succeed, so the
      branch is dead only because `items` stays a permutation. */
  lemma BlankFirstWinsOnlyOffPerm()
    ensures var b: Board := seq(16, i => if i == 0 then 0 else i + 1);
      Won(b) && !IsPerm(b)
  {
    var b: Board := seq(16, i => if i == 0 then 0 else i + 1);
    assert 16 in multiset(b) by { assert b[15] == 16; }
    assert 16 !in multiset(Initial());
  }
}
