/** The global `state` object of the matcher and the operations that change
    it in place. Each method is proved against the matching transition of
    the `Game` module, so the lemmas there are what the methods promise. */
module Play {
  import opened Prelude
  import opened Board
  import opened Paths
  import opened HoldingBar
  import opened Clock
  import opened Level
  import opened Game

  /** The `tops` list of `shakePot`: the occupied cells, row by row. */
  method OccupiedCells(g: Grid, rows: int, cols: int) returns (tops: seq<Cell>)
    requires Shaped(g, rows, cols)
    ensures forall y :: y in tops <==> InBounds(y, rows, cols) && TopAt(g, y).Some?
    ensures NoDup(tops)
  {
    tops := [];
    var r := 0;
    while r < rows
      invariant 0 <= r <= rows
      invariant NoDup(tops)
      invariant forall y :: y in tops <==> InBounds(y, rows, cols) && y.r < r && TopAt(g, y).Some?
    {
      var c := 0;
      while c < cols
        invariant 0 <= c <= cols
        invariant NoDup(tops)
        invariant forall y :: y in tops <==>
          InBounds(y, rows, cols) && (y.r < r || (y.r == r && y.c < c)) && TopAt(g, y).Some?
      {
        if TopAt(g, Cell(r, c)).Some? {
          NoDupAppend(tops, Cell(r, c));
          tops := tops + [Cell(r, c)];
        }
        c := c + 1;
      }
      r := r + 1;
    }
  }

  /** The `coords` list of `buildLevel`: every cell once, row by row. */
  method RowMajorCells(rows: nat, cols: nat) returns (coords: seq<Cell>)
    ensures |coords| == rows * cols
    ensures forall y :: y in coords <==> InBounds(y, rows, cols)
    ensures NoDup(coords)
  {
    coords := [];
    var r := 0;
    while r < rows
      invariant 0 <= r <= rows
      invariant |coords| == r * cols
      invariant forall y :: y in coords <==> InBounds(y, rows, cols) && y.r < r
      invariant NoDup(coords)
    {
      var c := 0;
      while c < cols
        invariant 0 <= c <= cols
        invariant |coords| == r * cols + c
        invariant forall y :: y in coords <==> InBounds(y, rows, cols) && (y.r < r || (y.r == r && y.c < c))
        invariant NoDup(coords)
      {
        NoDupAppend(coords, Cell(r, c));
        coords := coords + [Cell(r, c)];
        c := c + 1;
      }
      r := r + 1;
    }
  }

  /** The swap loop of `shakePot`: the tops of `order[0]` and `order[1]`
      change places, then those of `order[2]` and `order[3]`, and so on for
      `swaps` pairs. `pairs` lists the pairs swapped. */
  method SwapPairs(g: Grid, rows: int, cols: int, order: seq<Cell>, swaps: nat)
    returns (h: Grid, ghost pairs: seq<(Cell, Cell)>)
    requires Shaped(g, rows, cols) && NoDup(order) && 2 * swaps <= |order|
    requires forall y :: y in order ==> InBounds(y, rows, cols) && |StackAt(g, y)| > 0
    ensures Swappable(g, rows, cols, pairs)
    ensures |pairs| == swaps && Flatten(pairs) == order[..2 * swaps]
    ensures h == SwapAll(g, rows, cols, pairs)
  {
    h, pairs := g, [];
    var i := 0;
    while i + 1 < swaps * 2
      invariant 0 <= i <= swaps * 2 && i == 2 * |pairs|
      invariant Flatten(pairs) == order[..i]
      invariant Swappable(g, rows, cols, pairs)
      invariant h == SwapAll(g, rows, cols, pairs)
    {
      var x, y := order[i], order[i + 1];
      SwapStep(g, rows, cols, order, pairs);
      h := SwapTop(h, x, y);
      pairs := pairs + [(x, y)];
      i := i + 2;
    }
  }

  /** The `tops` of `shakePot` before and after `shuffle(tops)`. */
  method ShuffledTops(g: Grid, rows: int, cols: int) returns (tops: seq<Cell>, order: seq<Cell>)
    requires Shaped(g, rows, cols)
    ensures forall y :: y in tops <==> InBounds(y, rows, cols) && TopAt(g, y).Some?
    ensures NoDup(tops) && NoDup(order) && |order| == |tops|
    ensures forall y :: y in order ==> InBounds(y, rows, cols) && |StackAt(g, y)| > 0
  {
    tops := OccupiedCells(g, rows, cols);
    var arr := new Cell[|tops|](j requires 0 <= j < |tops| => tops[j]);
    assert arr[..] == tops;
    Shuffle(arr);
    order := arr[..];
    PermutationKeepsNoDup(tops, order);
    forall y | y in order ensures InBounds(y, rows, cols) && |StackAt(g, y)| > 0 {
      assert y in multiset(order);
      assert y in tops;
    }
  }

  /** The `pool` of `buildLevel` before shuffling: the pairs pushed in
      round-robin order of the kinds. */
  method MakePool(pairs: nat, kinds: seq<Kind>) returns (pool: array<Kind>)
    requires |kinds| > 0
    ensures fresh(pool) && pool[..] == Pool(pairs, kinds)
  {
    pool := new Kind[2 * pairs];
    var i := 0;
    while i < pairs
      invariant 0 <= i <= pairs
      invariant pool[..2 * i] == Pool(i, kinds)
    {
      var k := RoundRobin(kinds, i);
      pool[2 * i] := k;
      pool[2 * i + 1] := k;
      assert pool[..2 * i + 2] == pool[..2 * i] + [k, k];
      i := i + 1;
    }
    assert pool[..] == pool[..2 * i];
  }

  /** `coords` of one layer of `buildLevel` after `shuffle(coords)`: every
      cell once, in random order. */
  method ShuffledCells(rows: nat, cols: nat) returns (order: seq<Cell>)
    ensures |order| == rows * cols
    ensures forall y :: y in order <==> InBounds(y, rows, cols)
    ensures NoDup(order)
  {
    var coords := RowMajorCells(rows, cols);
    var cs := new Cell[|coords|](j requires 0 <= j < |coords| => coords[j]);
    assert cs[..] == coords;
    Shuffle(cs);
    order := cs[..];
    PermutationKeepsNoDup(coords, order);
    forall y ensures y in order <==> y in coords {
      assert y in order <==> y in multiset(order);
      assert y in coords <==> y in multiset(coords);
    }
  }

  /** One layer of `buildLevel`: shuffle all cells and `pool.pop()` onto
      each of the first `fillCount` of them, while the pool lasts. `rest`
      is what is left of the pool; the `min(fillCount, pool.length)` items
      it lost are now on the board, at most one on each cell. */
  method DealLayer(g: Grid, rows: nat, cols: nat, pool: seq<Kind>, fillCount: nat)
    returns (h: Grid, rest: seq<Kind>)
    requires Shaped(g, rows, cols) && fillCount <= rows * cols
    ensures Shaped(h, rows, cols) && rest <= pool
    ensures Items(h) + multiset(rest) == Items(g) + multiset(pool)
    ensures ItemCount(h) + |rest| == ItemCount(g) + |pool|
    ensures |pool| - |rest| == Min(fillCount, |pool|)
    ensures forall y :: InBounds(y, rows, cols) ==> |g[y.r][y.c]| <= |h[y.r][y.c]| <= |g[y.r][y.c]| + 1
  {
    var order := ShuffledCells(rows, cols);
    h, rest := g, pool;
    var j := 0;
    while j < fillCount && |rest| > 0
      invariant 0 <= j <= fillCount && rest <= pool && |pool| - |rest| == j
      invariant Shaped(h, rows, cols)
      invariant Items(h) + multiset(rest) == Items(g) + multiset(pool)
      invariant ItemCount(h) + |rest| == ItemCount(g) + |pool|
      invariant forall y :: InBounds(y, rows, cols) ==>
        |h[y.r][y.c]| == |g[y.r][y.c]| + (if y in order[..j] then 1 else 0)
    {
      var x := order[j];
      assert x !in order[..j];
      Deal(h, rows, cols, x, rest);
      h, rest := PushAt(h, x, rest[|rest| - 1]), rest[..|rest| - 1];
      assert order[..j + 1] == order[..j] + [x];
      j := j + 1;
    }
  }

  /** The leftover loop of `buildLevel`: every item still in the pool is
      popped onto a random cell. */
  method DealLeftovers(g: Grid, rows: nat, cols: nat, pool: seq<Kind>) returns (h: Grid)
    requires Shaped(g, rows, cols) && rows >= 1 && cols >= 1
    ensures Shaped(h, rows, cols)
    ensures Items(h) == Items(g) + multiset(pool)
    ensures ItemCount(h) == ItemCount(g) + |pool|
  {
    h := g;
    var rest := pool;
    while |rest| > 0
      invariant Shaped(h, rows, cols)
      invariant Items(h) + multiset(rest) == Items(g) + multiset(pool)
      invariant ItemCount(h) + |rest| == ItemCount(g) + |pool|
    {
      var r :| 0 <= r < rows;
      var c :| 0 <= c < cols;
      Deal(h, rows, cols, Cell(r, c), rest);
      h, rest := PushAt(h, Cell(r, c), rest[|rest| - 1]), rest[..|rest| - 1];
    }
    assert multiset(rest) == multiset{};
  }

  /** The two dealing phases of `buildLevel`: `layers` passes over the
      shuffled cells, then the leftovers; every item of the pool ends up on
      an empty board of the given size. */
  method DealPool(pool: seq<Kind>, rows: nat, cols: nat, layers: nat) returns (g: Grid)
    requires rows >= 1 && cols >= 1
    ensures Shaped(g, rows, cols)
    ensures Items(g) == multiset(pool)
    ensures ItemCount(g) == |pool|
  {
    var totalCells := rows * cols;
    var rest := pool;
    g := EmptyGrid(rows, cols);
    EmptyGridItems(g);
    for d := 0 to layers
      invariant Shaped(g, rows, cols)
      invariant Items(g) + multiset(rest) == multiset(pool)
      invariant ItemCount(g) + |rest| == |pool|
    {
      g, rest := DealLayer(g, rows, cols, rest, FillCount(totalCells, d));
    }
    g := DealLeftovers(g, rows, cols, rest);
  }

  /** The board of `buildLevel`: a shuffled pool of pairs dealt onto an
      empty board, layer by layer, then the leftovers onto random cells. */
  method DealtGrid(level: int, rows: nat, cols: nat) returns (g: Grid)
    requires rows >= 1 && cols >= 1
    ensures Shaped(g, rows, cols)
    ensures Items(g) == multiset(LevelPool(rows, cols, level))
    ensures ItemCount(g) == TotalItems(rows, cols, level)
  {
    var kinds := LevelKinds(level);
    var totalItems := TotalItems(rows, cols, level);
    var pool := MakePool(totalItems / 2, kinds);
    Shuffle(pool);
    g := DealPool(pool[..], rows, cols, Layers(level));
  }

  class Session {
    var level: int
    var score: int
    var secs: int
    var goal: int
    var remaining: int
    var grid: Grid
    var rows: int
    var cols: int
    var selected: Option<Selection>
    var bar: seq<Kind>
    var ended: bool
    var outcome: Outcome

    /** The fields as a value. */
    function Model(): State
      reads this
    {
      State(level, score, secs, goal, remaining, grid, rows, cols, selected, bar, ended, outcome)
    }

    predicate Valid()
      reads this
    {
      Inv(Model())
    }

    /** The initial `state` object followed by `restart(1)`; `rows` and
        `cols` stand for what `computeSize` returns. */
    constructor (rows: int, cols: int)
      requires rows >= 1 && cols >= 1
      ensures Valid()
      ensures level == 1 && score == 0 && secs == LIMIT_SECONDS
      ensures selected == None && bar == [] && !ended
      ensures this.rows == rows && this.cols == cols
      ensures goal == remaining == TotalItems(rows, cols, 1)
      ensures Items(grid) == multiset(LevelPool(rows, cols, 1))
      ensures forall x :: Items(grid)[x] % 2 == 0
    {
      level := 1;
      score := 0;
      secs := LIMIT_SECONDS;
      goal := 0;
      remaining := 0;
      grid := [];
      this.rows := 6;
      this.cols := 6;
      selected := None;
      bar := [];
      ended := false;
      outcome := Playing;
      new;
      Restart(1, rows, cols);
    }

    /** `win`, `failByBar` and `failByTimeout`: mark the session ended with
        the end screen it shows. */
    method End(o: Outcome)
      requires o != Playing
      modifies this`ended, this`outcome
      ensures Model() == Ended(old(Model()), o)
    {
      ended := true;
      outcome := o;
    }

    /** `removeTop(r, c)`. */
    method RemoveTop(x: Cell) returns (k: Option<Kind>)
      requires Shaped(grid, rows, cols) && InBounds(x, rows, cols)
      modifies this`grid, this`remaining
      ensures k == old(TopAt(grid, x))
      ensures Model() == TakeTop(old(Model()), x)
    {
      var s := grid[x.r][x.c];
      if |s| == 0 {
        return None;
      }
      k := Some(s[|s| - 1]);
      grid := grid[x.r := grid[x.r][x.c := s[..|s| - 1]]];
      remaining := remaining - 1;
    }

    /** `pushBar(kind)`. */
    method PushBar(k: Kind)
      modifies this`bar
      ensures bar == Pushed(old(bar), k)
    {
      bar := bar + [k];
      if |bar| > BAR_CAP {
        bar := bar[..BAR_CAP];
      }
    }

    /** `clearPairFromBar(kind)`: copy the bar, skipping the first two
        entries of `kind`. */
    method ClearPairFromBar(k: Kind)
      modifies this`bar
      ensures bar == WithoutFirst(old(bar), k, 2)
    {
      var need: nat := 2;
      var next := [];
      var entries := bar;
      var i := 0;
      while i < |entries|
        invariant 0 <= i <= |entries|
        invariant next + WithoutFirst(entries[i..], k, need) == WithoutFirst(entries, k, 2)
      {
        CopyStep(next, entries, i, k, need, WithoutFirst(entries, k, 2));
        if entries[i] == k && need > 0 {
          need := need - 1;
        } else {
          next := next + [entries[i]];
        }
        i := i + 1;
      }
      assert entries[i..] == [];
      bar := next;
    }

    /** `pick(r, c)`: a click on a cell of the board. */
    method Pick(x: Cell)
      requires Valid() && InBounds(x, rows, cols)
      modifies this
      ensures Valid()
      ensures Model() == Picked(old(Model()), x)
    {
      ghost var s := Model();
      PickKeepsInv(s, x);
      if ended {
        return;
      }
      var top := TopAt(grid, x);
      if top.None? {
        return;
      }
      var kind := top.value;
      if selected.None? {
        selected := Some(Selection(x, kind));
        PushBar(kind);
        if |bar| >= BAR_CAP {
          End(LostByBar);
        }
        assert Model() == Selected(s, x, kind);
        return;
      }
      var a := selected.value;
      if a.at == x {
        selected := None;
        return;
      }
      SecondPick(x, kind);
    }

    /** The second pick of `pick(r, c)`, on a cell other than the selected
        one: push the kind, try the match, drop the selection, then check
        for a win before checking the bar. */
    method SecondPick(x: Cell, kind: Kind)
      requires Valid() && InBounds(x, rows, cols) && !ended
      requires selected.Some? && selected.value.at != x && TopAt(grid, x) == Some(kind)
      modifies this
      ensures Model() == Picked(old(Model()), x)
    {
      ghost var s := Model();
      var a := selected.value;
      PushBar(kind);
      ghost var pushed := Model();
      assert pushed == s.(bar := Pushed(s.bar, kind));
      var ok := a.kind == kind;
      if ok {
        ok := HasPath(grid, rows, cols, a.at, x);
      }
      if ok {
        TakePair(a.at, x, kind);
      } else {
        score := FloorAtZero(score - 5);
        assert Model() == pushed.(score := FloorAtZero(s.score - 5));
      }
      selected := None;
      ghost var settling := Model();
      assert Picked(s, x) == Settled(settling);
      if remaining <= 0 {
        End(Won);
        return;
      }
      if |bar| >= BAR_CAP {
        End(LostByBar);
      }
    }

    /** The legal match of `pick`: both tops leave the board, one pair
        leaves the bar, and the score rises by 40. */
    method TakePair(a: Cell, x: Cell, kind: Kind)
      requires Shaped(grid, rows, cols) && InBounds(a, rows, cols) && InBounds(x, rows, cols)
      modifies this`grid, this`remaining, this`bar, this`score
      ensures Model() == Matched(old(Model()), a, x, kind)
    {
      var _ := RemoveTop(a);
      var _ := RemoveTop(x);
      ClearPairFromBar(kind);
      score := score + 40;
    }

    /** The body of the one-second interval of `startTimer`. */
    method Tick()
      requires Valid()
      modifies this`secs, this`ended, this`outcome
      ensures Valid()
      ensures Model() == Ticked(old(Model()))
    {
      TickCountsDown(Model());
      if ended {
        return;
      }
      secs := secs - 1;
      if secs <= 0 {
        secs := 0;
        End(LostByTimeout);
      }
    }

    /** `shakePot()`: shuffle the occupied cells, swap the tops of the first
        `floor(n * 0.2)` pairs of them, and charge 10 points. `occupied` and
        `pairs` are the cells found and the pairs swapped. */
    method ShakePot() returns (ghost occupied: seq<Cell>, ghost pairs: seq<(Cell, Cell)>)
      requires Valid()
      modifies this`grid, this`score, this`selected
      ensures Valid()
      ensures !old(ended) ==>
        && NoDup(occupied)
        && (forall y :: y in occupied <==> InBounds(y, rows, cols) && TopAt(old(grid), y).Some?)
        && |pairs| == |occupied| / 5
        && Swappable(old(grid), rows, cols, pairs)
      ensures Model() == Shaken(old(Model()), pairs)
    {
      occupied, pairs := [], [];
      if ended {
        return;
      }
      ghost var s := Model();
      var tops, order := ShuffledTops(grid, rows, cols);
      occupied := tops;
      var swaps := |order| / 5;
      grid, pairs := SwapPairs(grid, rows, cols, order, swaps);
      score := FloorAtZero(score - 10);
      selected := None;
      assert Model() == s.(grid := grid, score := score, selected := None);
      ShakeKeepsInv(s, pairs);
    }

    /** `buildLevel(level)`: a newly dealt board and its item count. */
    method BuildLevel(level: int, rows: int, cols: int)
      requires rows >= 1 && cols >= 1
      modifies this`rows, this`cols, this`grid, this`goal, this`remaining
      ensures this.rows == rows && this.cols == cols
      ensures Shaped(grid, rows, cols)
      ensures Items(grid) == multiset(LevelPool(rows, cols, level))
      ensures goal == remaining == ItemCount(grid) == TotalItems(rows, cols, level)
    {
      var totalItems := TotalItems(rows, cols, level);
      var g := DealtGrid(level, rows, cols);
      this.rows, this.cols, grid := rows, cols, g;
      goal, remaining := totalItems, totalItems;
    }

    /** `restart(level)`: a fresh board and timer; the score carries over
        except on level 1. */
    method Restart(level: int, rows: int, cols: int)
      requires rows >= 1 && cols >= 1 && score >= 0
      modifies this
      ensures Valid() && Fresh(Model())
      ensures this.level == level && this.rows == rows && this.cols == cols
      ensures score == if level == 1 then 0 else old(score)
      ensures goal == TotalItems(rows, cols, level)
      ensures Items(grid) == multiset(LevelPool(rows, cols, level))
      ensures forall x :: Items(grid)[x] % 2 == 0
    {
      this.level := level;
      secs := LIMIT_SECONDS;
      selected := None;
      bar := [];
      ended := false;
      outcome := Playing;
      score := if level == 1 then 0 else score;
      BuildLevel(level, rows, cols);
      TotalItemsPositive(rows, cols, level);
      FreshInv(Model());
      DealtEven(grid, rows, cols, level);
    }
  }

  /** Moving the last item of `rest` onto cell `x` keeps the items of board
      and pool together. */
  lemma Deal(g: Grid, rows: int, cols: int, x: Cell, rest: seq<Kind>)
    requires Shaped(g, rows, cols) && InBounds(x, rows, cols) && |rest| > 0
    ensures Shaped(PushAt(g, x, rest[|rest| - 1]), rows, cols)
    ensures Items(PushAt(g, x, rest[|rest| - 1])) + multiset(rest[..|rest| - 1]) == Items(g) + multiset(rest)
    ensures ItemCount(PushAt(g, x, rest[|rest| - 1])) == ItemCount(g) + 1
  {
    var k := rest[|rest| - 1];
    PushAtItems(g, x, k);
    assert rest == rest[..|rest| - 1] + [k];
    assert multiset(rest) == multiset(rest[..|rest| - 1]) + multiset{k};
  }

  /** One more pair from `order` for the swap loop: the next two cells are
      distinct, occupied and in no earlier pair, and swapping them after the
      earlier pairs is swapping the longer list. */
  lemma SwapStep(g: Grid, rows: int, cols: int, order: seq<Cell>, pairs: seq<(Cell, Cell)>)
    requires Shaped(g, rows, cols) && NoDup(order)
    requires forall y :: y in order ==> InBounds(y, rows, cols) && |StackAt(g, y)| > 0
    requires 2 * |pairs| + 1 < |order| && Flatten(pairs) == order[..2 * |pairs|]
    requires Swappable(g, rows, cols, pairs)
    ensures var i, h := 2 * |pairs|, SwapAll(g, rows, cols, pairs);
      var x, y, more := order[i], order[i + 1], pairs + [(order[i], order[i + 1])];
      && OnGrid(h, x) && OnGrid(h, y) && x != y
      && |StackAt(h, x)| > 0 && |StackAt(h, y)| > 0
      && Flatten(more) == order[..i + 2]
      && Swappable(g, rows, cols, more)
      && SwapAll(g, rows, cols, more) == SwapTop(h, x, y)
  {
    var i := 2 * |pairs|;
    var x, y := order[i], order[i + 1];
    var more := pairs + [(x, y)];
    assert x in order && y in order;
    assert more[..|more| - 1] == pairs;
    FlattenPrefix(more);
    assert Flatten(more) == order[..i + 2];
    NoDupPrefix(order, i + 2);
    assert Swappable(g, rows, cols, more) by {
      forall z | z in Flatten(more) ensures InBounds(z, rows, cols) && |StackAt(g, z)| > 0 {
        assert z in order;
      }
    }
    SwapAllLast(g, rows, cols, more);
  }
}
