/** The board of the connect-path matcher: a `rows x cols` grid in which
    every cell holds a stack of items. Only the top of a stack is visible;
    items leave the board only by being popped. */
module Board {
  import opened Prelude

  /** The six item kinds of `KINDS`. */
  datatype Kind = Leaf | Star | Berry | Shell | Feather | Stone

  const KINDS: seq<Kind> := [Leaf, Star, Berry, Shell, Feather, Stone]

  /** A board coordinate `(r, c)`. */
  datatype Cell = Cell(r: int, c: int)

  /** A stack lists its items bottom first: the top is the last element,
      as with a JavaScript array used through `push` and `pop`. */
  type Stack = seq<Kind>

  /** `state.grid`: rows of cells, each cell a stack. */
  type Grid = seq<seq<Stack>>

  predicate Shaped(g: Grid, rows: int, cols: int) {
    |g| == rows && cols >= 0 && forall r :: 0 <= r < rows ==> |g[r]| == cols
  }

  predicate InBounds(x: Cell, rows: int, cols: int) {
    0 <= x.r < rows && 0 <= x.c < cols
  }

  predicate OnGrid(g: Grid, x: Cell) {
    0 <= x.r < |g| && 0 <= x.c < |g[x.r]|
  }

  lemma InBoundsOnGrid(g: Grid, rows: int, cols: int, x: Cell)
    requires Shaped(g, rows, cols) && InBounds(x, rows, cols)
    ensures OnGrid(g, x)
  {
  }

  /** The stack of cell `x`. The swap lemmas quantify over cells through
      this name rather than through the nested index, which keeps their
      quantifiers from firing on every index term of the grid. */
  function StackAt(g: Grid, x: Cell): (s: Stack)
    requires OnGrid(g, x)
  {
    g[x.r][x.c]
  }

  /** `topAt(r, c)`: the top item of the cell, or `null` for an empty stack. */
  function TopAt(g: Grid, x: Cell): (k: Option<Kind>)
    requires OnGrid(g, x)
    ensures k == None <==> g[x.r][x.c] == []
    ensures k.Some? ==> g[x.r][x.c] == g[x.r][x.c][..|g[x.r][x.c]| - 1] + [k.value]
  {
    var s := g[x.r][x.c];
    if |s| > 0 then Some(s[|s| - 1]) else None
  }

  /** The grid with the stack at `x` replaced by `s`. */
  function SetStack(g: Grid, x: Cell, s: Stack): (h: Grid)
    requires OnGrid(g, x)
    ensures |h| == |g| && forall r :: 0 <= r < |g| ==> |h[r]| == |g[r]|
    ensures h[x.r][x.c] == s
    ensures forall y :: OnGrid(g, y) && y != x ==> h[y.r][y.c] == g[y.r][y.c]
  {
    g[x.r := g[x.r][x.c := s]]
  }

  /** `grid[r][c].pop()` on a non-empty stack. */
  function PopAt(g: Grid, x: Cell): (h: Grid)
    requires OnGrid(g, x) && TopAt(g, x).Some?
    ensures |h| == |g| && forall r :: 0 <= r < |g| ==> |h[r]| == |g[r]|
    ensures h[x.r][x.c] + [TopAt(g, x).value] == g[x.r][x.c]
    ensures forall y :: OnGrid(g, y) && y != x ==> h[y.r][y.c] == g[y.r][y.c]
  {
    var s := g[x.r][x.c];
    SetStack(g, x, s[..|s| - 1])
  }

  /** `grid[r][c].push(k)`. */
  function PushAt(g: Grid, x: Cell, k: Kind): (h: Grid)
    requires OnGrid(g, x)
    ensures |h| == |g| && forall r :: 0 <= r < |g| ==> |h[r]| == |g[r]|
    ensures h[x.r][x.c] == g[x.r][x.c] + [k]
    ensures forall y :: OnGrid(g, y) && y != x ==> h[y.r][y.c] == g[y.r][y.c]
  {
    SetStack(g, x, g[x.r][x.c] + [k])
  }

  /** Pushing an item makes it the top, and popping it again gives back the
      board it was pushed onto. */
  lemma PushThenPop(g: Grid, x: Cell, k: Kind)
    requires OnGrid(g, x)
    ensures OnGrid(PushAt(g, x, k), x) && TopAt(PushAt(g, x, k), x) == Some(k)
    ensures PopAt(PushAt(g, x, k), x) == g
  {
    var h := PushAt(g, x, k);
    assert h[x.r][x.c][..|h[x.r][x.c]| - 1] == g[x.r][x.c];
    assert PopAt(h, x)[x.r] == g[x.r];
  }

  /** Popping the top and pushing it back gives back the board. */
  lemma PopThenPush(g: Grid, x: Cell)
    requires OnGrid(g, x) && TopAt(g, x).Some?
    ensures OnGrid(PopAt(g, x), x)
    ensures PushAt(PopAt(g, x), x, TopAt(g, x).value) == g
  {
    var s := g[x.r][x.c];
    assert s[..|s| - 1] + [s[|s| - 1]] == s;
    assert PushAt(PopAt(g, x), x, TopAt(g, x).value)[x.r] == g[x.r];
  }

  // ---- counting the items on the board

  function RowCount(row: seq<Stack>): (n: nat) {
    if row == [] then 0 else |row[0]| + RowCount(row[1..])
  }

  /** The number of stacked items: the sum of all stack lengths. */
  function ItemCount(g: Grid): (n: nat) {
    if g == [] then 0 else RowCount(g[0]) + ItemCount(g[1..])
  }

  function RowItems(row: seq<Stack>): (m: multiset<Kind>) {
    if row == [] then multiset{} else multiset(row[0]) + RowItems(row[1..])
  }

  /** The multiset of all items on the board. */
  function Items(g: Grid): (m: multiset<Kind>) {
    if g == [] then multiset{} else RowItems(g[0]) + Items(g[1..])
  }

  lemma {:induction false} RowItemsSize(row: seq<Stack>)
    ensures |RowItems(row)| == RowCount(row)
  {
    if row != [] {
      RowItemsSize(row[1..]);
    }
  }

  /** There are exactly `ItemCount(g)` items on the board. */
  lemma {:induction false} ItemsSize(g: Grid)
    ensures |Items(g)| == ItemCount(g)
  {
    if g != [] {
      RowItemsSize(g[0]);
      ItemsSize(g[1..]);
    }
  }

  lemma {:induction false} RowItemsUpdate(row: seq<Stack>, c: int, s: Stack)
    requires 0 <= c < |row|
    ensures RowItems(row[c := s]) + multiset(row[c]) == RowItems(row) + multiset(s)
  {
    var updated := row[c := s];
    if c == 0 {
      assert updated[1..] == row[1..];
    } else {
      assert updated[1..] == row[1..][c - 1 := s];
      assert updated[0] == row[0] && row[1..][c - 1] == row[c];
      RowItemsUpdate(row[1..], c - 1, s);
      forall k ensures (RowItems(updated) + multiset(row[c]))[k] == (RowItems(row) + multiset(s))[k] {
        assert (RowItems(updated[1..]) + multiset(row[c]))[k] == (RowItems(row[1..]) + multiset(s))[k];
      }
    }
  }

  lemma {:induction false} ItemsUpdateRow(g: Grid, r: int, row: seq<Stack>)
    requires 0 <= r < |g|
    ensures Items(g[r := row]) + RowItems(g[r]) == Items(g) + RowItems(row)
  {
    var updated := g[r := row];
    if r == 0 {
      assert updated[1..] == g[1..];
    } else {
      assert updated[1..] == g[1..][r - 1 := row];
      assert updated[0] == g[0] && g[1..][r - 1] == g[r];
      ItemsUpdateRow(g[1..], r - 1, row);
      forall k ensures (Items(updated) + RowItems(g[r]))[k] == (Items(g) + RowItems(row))[k] {
        assert (Items(updated[1..]) + RowItems(g[r]))[k] == (Items(g[1..]) + RowItems(row))[k];
      }
    }
  }

  /** Replacing one stack changes the board's items by exactly the items of
      the old and the new stack. */
  lemma ItemsUpdate(g: Grid, x: Cell, s: Stack)
    requires OnGrid(g, x)
    ensures Items(SetStack(g, x, s)) + multiset(g[x.r][x.c]) == Items(g) + multiset(s)
  {
    var row := g[x.r][x.c := s];
    ItemsUpdateRow(g, x.r, row);
    RowItemsUpdate(g[x.r], x.c, s);
    var lhs := Items(SetStack(g, x, s)) + multiset(g[x.r][x.c]);
    var rhs := Items(g) + multiset(s);
    forall k ensures lhs[k] == rhs[k] {
      assert (Items(g[x.r := row]) + RowItems(g[x.r]))[k] == (Items(g) + RowItems(row))[k];
      assert (RowItems(row) + multiset(g[x.r][x.c]))[k] == (RowItems(g[x.r]) + multiset(s))[k];
    }
    assert lhs == rhs;
  }

  /** Popping removes exactly the top item from the board: one item fewer,
      and the multiset of items loses that item. */
  lemma PopAtItems(g: Grid, x: Cell)
    requires OnGrid(g, x) && TopAt(g, x).Some?
    ensures Items(PopAt(g, x)) + multiset{TopAt(g, x).value} == Items(g)
    ensures ItemCount(PopAt(g, x)) + 1 == ItemCount(g)
  {
    var s := g[x.r][x.c];
    assert s == s[..|s| - 1] + [s[|s| - 1]];
    ItemsUpdate(g, x, s[..|s| - 1]);
    assert multiset(s) == multiset(s[..|s| - 1]) + multiset{s[|s| - 1]};
    forall k ensures (Items(PopAt(g, x)) + multiset{s[|s| - 1]})[k] == Items(g)[k] {
      assert (Items(PopAt(g, x)) + multiset(s))[k] == (Items(g) + multiset(s[..|s| - 1]))[k];
      assert multiset(s)[k] == (multiset(s[..|s| - 1]) + multiset{s[|s| - 1]})[k];
    }
    ItemsSize(g);
    ItemsSize(PopAt(g, x));
  }

  /** Pushing adds exactly the pushed item to the board. */
  lemma PushAtItems(g: Grid, x: Cell, k: Kind)
    requires OnGrid(g, x)
    ensures Items(PushAt(g, x, k)) == Items(g) + multiset{k}
    ensures ItemCount(PushAt(g, x, k)) == ItemCount(g) + 1
  {
    ItemsUpdate(g, x, g[x.r][x.c] + [k]);
    assert multiset(g[x.r][x.c] + [k]) == multiset(g[x.r][x.c]) + multiset{k};
    forall j ensures Items(PushAt(g, x, k))[j] == (Items(g) + multiset{k})[j] {
      assert (Items(PushAt(g, x, k)) + multiset(g[x.r][x.c]))[j]
          == (Items(g) + multiset(g[x.r][x.c] + [k]))[j];
      assert multiset(g[x.r][x.c] + [k])[j] == (multiset(g[x.r][x.c]) + multiset{k})[j];
    }
    ItemsSize(g);
    ItemsSize(PushAt(g, x, k));
  }

  /** `Array.from({length: rows}, () => Array.from({length: cols}, () => []))`. */
  function EmptyGrid(rows: nat, cols: nat): (g: Grid)
    ensures Shaped(g, rows, cols)
    ensures forall x :: InBounds(x, rows, cols) ==> g[x.r][x.c] == []
  {
    seq(rows, _ => seq(cols, _ => []))
  }

  lemma {:induction false} EmptyRowItems(row: seq<Stack>)
    requires forall c :: 0 <= c < |row| ==> row[c] == []
    ensures RowItems(row) == multiset{}
  {
    if row != [] {
      EmptyRowItems(row[1..]);
    }
  }

  /** A board of empty stacks holds no item. */
  lemma {:induction false} EmptyGridItems(g: Grid)
    requires forall r, c :: 0 <= r < |g| && 0 <= c < |g[r]| ==> g[r][c] == []
    ensures Items(g) == multiset{} && ItemCount(g) == 0
  {
    if g != [] {
      EmptyRowItems(g[0]);
      EmptyGridItems(g[1..]);
    }
    ItemsSize(g);
  }

  /** Taking the tops of two distinct cells that show the same kind `k`:
      the second top is still there after the first is gone, and the board
      loses exactly two items `k`. */
  lemma PopTwo(g: Grid, rows: int, cols: int, a: Cell, x: Cell, k: Kind)
    requires Shaped(g, rows, cols) && InBounds(a, rows, cols) && InBounds(x, rows, cols)
    requires a != x && TopAt(g, a) == Some(k) && TopAt(g, x) == Some(k)
    ensures OnGrid(PopAt(g, a), x) && TopAt(PopAt(g, a), x) == Some(k)
    ensures Shaped(PopAt(PopAt(g, a), x), rows, cols)
    ensures Items(PopAt(PopAt(g, a), x)) + multiset{k, k} == Items(g)
    ensures ItemCount(PopAt(PopAt(g, a), x)) + 2 == ItemCount(g)
  {
    var u := PopAt(g, a);
    assert u[x.r][x.c] == g[x.r][x.c];
    PopAtItems(g, a);
    PopAtItems(u, x);
    var v := PopAt(u, x);
    forall j ensures (Items(v) + multiset{k, k})[j] == Items(g)[j] {
      assert (Items(v) + multiset{k})[j] == Items(u)[j];
      assert (Items(u) + multiset{k})[j] == Items(g)[j];
    }
  }
}
