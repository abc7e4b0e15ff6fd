/** The puzzle state of the view controller: `items`, a flat array of sixteen
    cells holding the numbers 0..15, where 0 is the blank. Cell `i` sits in
    row `i / Stride` and column `i % Stride` of the 4x4 grid. */
module Board {

  /** Number of cells of the board. */
  const Cells: int := 16

  /** Width of one row: the vertical neighbours of a cell are `Stride` apart. */
  const Stride: int := 4

  /** The value that marks the blank cell. */
  const Blank: int := 0

  /** `items` always has sixteen cells. */
  type Board = b: seq<int> | |b| == Cells witness seq(16, i => i)

  /** The board the controller starts with, `Array(0 ... 15)`: cell `i` holds `i`. */
  function Initial(): (b: Board)
    ensures forall i :: 0 <= i < Cells ==> b[i] == i
  {
    seq(16, i => i)
  }

  /** The arrangement the win check accepts on a permutation: 1..15, blank last. */
  function Solved(): (b: Board)
    ensures forall i :: 0 <= i < Cells - 1 ==> b[i] == i + 1
    ensures b[Cells - 1] == Blank
  {
    seq(16, i => if i < 15 then i + 1 else 0)
  }

  /** The board holds every number 0..15 exactly once. */
  ghost predicate IsPerm(b: Board) {
    multiset(b) == multiset(Initial())
  }

  /** No value occurs in two cells. */
  ghost predicate Distinct(s: seq<int>) {
    forall i, j :: 0 <= i < j < |s| ==> s[i] != s[j]
  }

  function Row(i: int): int { i / Stride }

  /** `swap(&items[i], &items[j])`: the two cells trade their values and the
      rest of the board stays as it was. */
  function Swap(b: Board, i: int, j: int): (r: Board)
    requires 0 <= i < Cells && 0 <= j < Cells
    ensures r[i] == b[j] && r[j] == b[i]
    ensures forall k :: 0 <= k < Cells && k != i && k != j ==> r[k] == b[k]
    ensures multiset(r) == multiset(b)
  {
    b[i := b[j]][j := b[i]]
  }

  /** Swapping the same two cells twice gives back the board. */
  lemma SwapInvolution(b: Board, i: int, j: int)
    requires 0 <= i < Cells && 0 <= j < Cells
    ensures Swap(Swap(b, i, j), i, j) == b
  {
    var r := Swap(Swap(b, i, j), i, j);
    forall k | 0 <= k < Cells
      ensures r[k] == b[k]
    {
    }
  }

  /** A swap keeps the board a permutation of 0..15. */
  lemma SwapKeepsPerm(b: Board, i: int, j: int)
    requires 0 <= i < Cells && 0 <= j < Cells
    requires IsPerm(b)
    ensures IsPerm(Swap(b, i, j))
  {
  }

  /** In a sequence without repeats each value is counted at most once. */
  lemma {:induction false} DistinctCount(s: seq<int>, v: int)
    requires Distinct(s)
    ensures multiset(s)[v] <= 1
  {
    if s != [] {
      assert s == [s[0]] + s[1..];
      assert Distinct(s[1..]) by {
        forall i, j | 0 <= i < j < |s[1..]|
          ensures s[1..][i] != s[1..][j]
        {
          assert s[1..][i] == s[i + 1] && s[1..][j] == s[j + 1];
        }
      }
      DistinctCount(s[1..], v);
      if s[0] == v {
        assert v !in s[1..] by {
          forall k | 0 <= k < |s[1..]|
            ensures s[1..][k] != v
          {
            assert s[1..][k] == s[k + 1];
          }
        }
      }
      assert multiset(s) == multiset([s[0]]) + multiset(s[1..]);
    }
  }

  /** A value found in two different cells is counted at least twice. */
  lemma TwiceCounted(s: seq<int>, i: int, j: int)
    requires 0 <= i < j < |s| && s[i] == s[j]
    ensures multiset(s)[s[i]] >= 2
  {
    var v := s[i];
    assert s == s[..i] + [v] + s[i + 1..j] + [v] + s[j + 1..];
    assert multiset(s) == multiset(s[..i]) + multiset([v]) + multiset(s[i + 1..j])
      + multiset([v]) + multiset(s[j + 1..]);
  }

  /** Every value of a permutation board lies in 0..15 and no value repeats. */
  lemma PermFacts(b: Board)
    requires IsPerm(b)
    ensures forall k :: 0 <= k < Cells ==> 0 <= b[k] < Cells
    ensures Distinct(b)
  {
    var init := Initial();
    forall k | 0 <= k < Cells
      ensures 0 <= b[k] < Cells
    {
      assert b[k] in multiset(init);
      var m :| 0 <= m < Cells && init[m] == b[k];
    }
    forall i, j | 0 <= i < j < Cells
      ensures b[i] != b[j]
    {
      if b[i] == b[j] {
        TwiceCounted(b, i, j);
        DistinctCount(init, b[i]);
        assert false;
      }
    }
  }

  /** Exactly one cell of a permutation board holds the blank. */
  lemma ExactlyOneBlank(b: Board)
    requires IsPerm(b)
    ensures multiset(b)[Blank] == 1
    ensures exists k :: 0 <= k < Cells && b[k] == Blank
  {
    var init := Initial();
    assert init[0] == Blank;
    DistinctCount(init, Blank);
    assert Blank in multiset(b);
  }

  /** Two cells of a permutation board that both hold the blank are the same cell. */
  lemma BlankUnique(b: Board, i: int, j: int)
    requires IsPerm(b)
    requires 0 <= i < Cells && 0 <= j < Cells
    requires b[i] == Blank && b[j] == Blank
    ensures i == j
  {
    PermFacts(b);
  }
}
