/** The life of `items` over a session: it starts as `Array(0 ... 15)`, is
    shuffled by `initGame` when the view loads (and again after "Play again"),
    and otherwise changes only through accepted drags. */
module Game {
  import opened Board
  import opened Moves

  /** `initGame`: `items` is reordered in place. The source sorts with a
      comparator that answers with a random bit; here the random source is
      the parameter `draws`, and each draw exchanges two cells. All that is
      claimed of the result is that it is a reordering of the board. */
  method Shuffle(items: Board, draws: seq<nat>) returns (r: Board)
    ensures multiset(r) == multiset(items)
  {
    r := items;
    var k := 0;
    while k < |draws|
      invariant 0 <= k <= |draws|
      invariant multiset(r) == multiset(items)
    {
      r := Swap(r, k % Cells, draws[k] % Cells);
      k := k + 1;
    }
  }

  /** Something that happens to `items`: a shuffle by `initGame` that ends in
      `order`, or a drag from cell `cur` onto cell `dst`. */
  datatype Event = Reshuffle(order: Board) | Drag(cur: int, dst: int)

  /** An event that can happen to board `b`: a shuffle only reorders `b`, and
      a drag starts and ends on cells of the grid. */
  ghost predicate Possible(b: Board, e: Event) {
    match e
    case Reshuffle(order) => multiset(order) == multiset(b)
    case Drag(cur, dst) => 0 <= cur < Cells && 0 <= dst < Cells
  }

  /** The board after event `e`. */
  function Apply(b: Board, e: Event): (r: Board)
    requires Possible(b, e)
    ensures multiset(r) == multiset(b)
  {
    match e
    case Reshuffle(order) => order
    case Drag(cur, dst) => Press(b, cur, dst).board
  }

  /** Every event of `es`, applied in turn from `b`, can happen. */
  ghost predicate PossibleRun(b: Board, es: seq<Event>)
    decreases |es|
  {
    es == [] || (Possible(b, es[0]) && PossibleRun(Apply(b, es[0]), es[1..]))
  }

  /** The board after the events of `es`, applied in turn from `b`. */
  function Run(b: Board, es: seq<Event>): Board
    requires PossibleRun(b, es)
    decreases |es|
  {
    if es == [] then b else Run(Apply(b, es[0]), es[1..])
  }

  /** The board the controller starts from is a permutation of 0..15 whose
      only blank is in cell 0. */
  lemma InitialIsPerm()
    ensures IsPerm(Initial())
    ensures Initial()[0] == Blank
    ensures multiset(Initial())[Blank] == 1
  {
    ExactlyOneBlank(Initial());
  }

  /** A board shuffled by `initGame` is a possible reshuffle, and it is still a
      permutation of 0..15 when the board before it was one. */
  lemma ShuffleIsPossible(items: Board, r: Board)
    requires multiset(r) == multiset(items)
    ensures Possible(items, Reshuffle(r))
    ensures IsPerm(items) ==> IsPerm(r)
  {
  }

  /** Whatever sequence of shuffles and drags happens, a board that is a
      permutation of 0..15 stays one, so it always has exactly one blank. */
  lemma {:induction false} RunKeepsPerm(b: Board, es: seq<Event>)
    requires IsPerm(b)
    requires PossibleRun(b, es)
    ensures IsPerm(Run(b, es))
    ensures multiset(Run(b, es))[Blank] == 1
    decreases |es|
  {
    if es == [] {
      ExactlyOneBlank(b);
    } else {
      RunKeepsPerm(Apply(b, es[0]), es[1..]);
    }
  }

  /** From the controller's starting board, every reachable board is a
      permutation of 0..15 with exactly one blank. */
  lemma ReachableIsPerm(es: seq<Event>)
    requires PossibleRun(Initial(), es)
    ensures IsPerm(Run(Initial(), es))
    ensures multiset(Run(Initial(), es))[Blank] == 1
  {
    RunKeepsPerm(Initial(), es);
  }
}
