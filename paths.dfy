/** Connectivity on the board: `neighbors` and the breadth-first `hasPath`.
    Two cells are connected when a 4-directional path joins them whose
    interior cells all have empty stacks; the two ends may be occupied. */
module Paths {
  import opened Prelude
  import opened Board

  function Abs(n: int): (m: nat) {
    if n < 0 then -n else n
  }

  /** Orthogonal neighbours: the cells one step up, down, left or right. */
  predicate Adjacent(x: Cell, y: Cell) {
    Abs(x.r - y.r) + Abs(x.c - y.c) == 1
  }

  /** The `filter` in `neighbors`: keeps the cells that lie on the board,
      in their original order. */
  function OnBoard(cs: seq<Cell>, rows: int, cols: int): (r: seq<Cell>)
    ensures forall y :: y in r <==> y in cs && InBounds(y, rows, cols)
    ensures |r| <= |cs|
  {
    if cs == [] then []
    else (if InBounds(cs[0], rows, cols) then [cs[0]] else []) + OnBoard(cs[1..], rows, cols)
  }

  /** `neighbors(r, c)`: up, down, left and right, as far as they are on the
      board. */
  function Neighbors(rows: int, cols: int, x: Cell): (ns: seq<Cell>)
    ensures forall y :: y in ns <==> InBounds(y, rows, cols) && Adjacent(x, y)
    ensures |ns| <= 4
  {
    OnBoard([Cell(x.r - 1, x.c), Cell(x.r + 1, x.c), Cell(x.r, x.c - 1), Cell(x.r, x.c + 1)], rows, cols)
  }

  /** `p` leads from `a` to `b` over board cells, one orthogonal step at a
      time, and every cell strictly between the two ends is empty. */
  ghost predicate IsPath(g: Grid, rows: int, cols: int, p: seq<Cell>, a: Cell, b: Cell)
    requires Shaped(g, rows, cols)
  {
    && |p| >= 1 && p[0] == a && p[|p| - 1] == b
    && (forall i :: 0 <= i < |p| ==> InBounds(p[i], rows, cols))
    && (forall i :: 0 <= i < |p| - 1 ==> Adjacent(p[i], p[i + 1]))
    && (forall i :: 0 < i < |p| - 1 ==> TopAt(g, p[i]) == None)
  }

  /** The connectivity that `hasPath` decides. */
  ghost predicate Connected(g: Grid, rows: int, cols: int, a: Cell, b: Cell)
    requires Shaped(g, rows, cols)
  {
    exists p :: IsPath(g, rows, cols, p, a, b)
  }

  /** A cell the search may enter on its way to `b`: an empty one, or `b`. */
  predicate Passable(g: Grid, b: Cell, y: Cell) {
    OnGrid(g, y) && (TopAt(g, y) == None || y == b)
  }

  /** Every on-board cell, plus the start of the search. */
  function Universe(rows: int, cols: int, a: Cell): (u: set<Cell>)
    ensures forall y :: y in u <==> y == a || InBounds(y, rows, cols)
  {
    var cells := set r, c | 0 <= r < rows && 0 <= c < cols :: Cell(r, c);
    assert forall y :: InBounds(y, rows, cols) ==> y in cells by {
      forall y | InBounds(y, rows, cols) ensures y in cells {
        assert y == Cell(y.r, y.c);
      }
    }
    cells + {a}
  }

  /** The search's closure property: every passable neighbour of a finished
      cell has been seen. */
  ghost predicate Closed(g: Grid, rows: int, cols: int, b: Cell, done: set<Cell>, seen: set<Cell>)
    requires Shaped(g, rows, cols)
  {
    forall x, y :: x in done && Adjacent(x, y) && InBounds(y, rows, cols) && Passable(g, b, y) ==> y in seen
  }

  /** Extending a path by one passable step. */
  lemma ExtendPath(g: Grid, rows: int, cols: int, p: seq<Cell>, a: Cell, x: Cell, y: Cell)
    requires Shaped(g, rows, cols)
    requires IsPath(g, rows, cols, p, a, x)
    requires |p| == 1 || TopAt(g, x) == None
    requires InBounds(y, rows, cols) && Adjacent(x, y)
    ensures IsPath(g, rows, cols, p + [y], a, y)
  {
    var q := p + [y];
    forall i | 0 < i < |q| - 1 ensures TopAt(g, q[i]) == None {
      assert q[i] == p[i];
    }
  }

  /** A cell reached from `a` through empty cells connects `a` to each of
      its neighbours. */
  lemma ExtendConnected(g: Grid, rows: int, cols: int, a: Cell, x: Cell, y: Cell)
    requires Shaped(g, rows, cols) && InBounds(a, rows, cols)
    requires Connected(g, rows, cols, a, x)
    requires x == a || TopAt(g, x) == None
    requires InBounds(y, rows, cols) && Adjacent(x, y)
    ensures Connected(g, rows, cols, a, y)
  {
    if x == a {
      assert IsPath(g, rows, cols, [a], a, a);
      ExtendPath(g, rows, cols, [a], a, a, y);
    } else {
      var p :| IsPath(g, rows, cols, p, a, x);
      ExtendPath(g, rows, cols, p, a, x, y);
    }
  }

  /** Every cell of a path from a seen start through a closed set is seen. */
  lemma {:induction false} ClosedReaches(g: Grid, rows: int, cols: int, a: Cell, b: Cell,
                                         seen: set<Cell>, p: seq<Cell>, n: nat)
    requires Shaped(g, rows, cols)
    requires IsPath(g, rows, cols, p, a, b)
    requires a in seen && Closed(g, rows, cols, b, seen, seen)
    requires n < |p|
    ensures p[n] in seen
  {
    if n > 0 {
      ClosedReaches(g, rows, cols, a, b, seen, p, n - 1);
      assert Adjacent(p[n - 1], p[n]);
      assert Passable(g, b, p[n]);
    }
  }

  /** What the search knows of every cell it has seen: it is on the board,
      it is the start, the target or an empty cell, and `a` connects to it. */
  ghost predicate SeenSound(g: Grid, rows: int, cols: int, a: Cell, b: Cell, seen: set<Cell>)
    requires Shaped(g, rows, cols)
  {
    forall x :: x in seen ==>
      && InBounds(x, rows, cols)
      && (x == a || x == b || TopAt(g, x) == None)
      && Connected(g, rows, cols, a, x)
  }

  /** When the queue runs dry without meeting `b`, the cells seen are closed
      under passable steps, so no path reaches `b`. */
  lemma ExhaustedMeansDisconnected(g: Grid, rows: int, cols: int, a: Cell, b: Cell, seen: set<Cell>)
    requires Shaped(g, rows, cols)
    requires a in seen && b !in seen
    requires Closed(g, rows, cols, b, seen, seen)
    ensures !Connected(g, rows, cols, a, b)
  {
    if Connected(g, rows, cols, a, b) {
      var p :| IsPath(g, rows, cols, p, a, b);
      ClosedReaches(g, rows, cols, a, b, seen, p, |p| - 1);
      assert false;
    }
  }

  /** Marking a passable neighbour of a seen cell as seen keeps what the
      search knows of its seen cells. */
  lemma SeenSoundAdd(g: Grid, rows: int, cols: int, a: Cell, b: Cell, seen: set<Cell>, cur: Cell, y: Cell)
    requires Shaped(g, rows, cols) && InBounds(a, rows, cols)
    requires SeenSound(g, rows, cols, a, b, seen) && cur in seen && cur != b
    requires InBounds(y, rows, cols) && Adjacent(cur, y) && (TopAt(g, y) == None || y == b)
    ensures SeenSound(g, rows, cols, a, b, seen + {y})
  {
    ExtendConnected(g, rows, cols, a, cur, y);
  }

  /** What the inner loop of `hasPath` knows after looking at the first `i`
      neighbours `ns` of `cur`: the cells it marked seen are passable cells
      of `ns`, each of them queued, and every passable one among the first
      `i` is seen. */
  ghost predicate Enqueued(g: Grid, b: Cell, ns: seq<Cell>, i: int,
                           seen: set<Cell>, q: seq<Cell>, seen': set<Cell>, q': seq<Cell>)
  {
    && 0 <= i <= |ns|
    && seen <= seen'
    && (seen' == seen ==> q' == q)
    && (forall x :: x in q' <==> x in q || x in seen' - seen)
    && (forall j :: 0 <= j < i && Passable(g, b, ns[j]) ==> ns[j] in seen')
    && (forall y :: y in seen' - seen ==> y in ns && Passable(g, b, y))
  }

  /** A turn of the inner loop that marks the unseen passable neighbour
      `ns[i]` seen and queues it. */
  lemma EnqueueAdd(g: Grid, b: Cell, ns: seq<Cell>, i: int,
                   seen: set<Cell>, q: seq<Cell>, seen': set<Cell>, q': seq<Cell>)
    requires Enqueued(g, b, ns, i, seen, q, seen', q') && i < |ns|
    requires ns[i] !in seen' && Passable(g, b, ns[i])
    ensures Enqueued(g, b, ns, i + 1, seen, q, seen' + {ns[i]}, q' + [ns[i]])
  {
    var nb := ns[i];
    var s2, q2 := seen' + {nb}, q' + [nb];
    assert forall x :: x in q2 <==> x in q' || x == nb;
    assert forall y :: y in s2 - seen ==> y in seen' - seen || y == nb;
  }

  /** A turn of the inner loop that skips `ns[i]`: it is seen already, or
      not passable. */
  lemma EnqueueSkip(g: Grid, b: Cell, ns: seq<Cell>, i: int,
                    seen: set<Cell>, q: seq<Cell>, seen': set<Cell>, q': seq<Cell>)
    requires Enqueued(g, b, ns, i, seen, q, seen', q') && i < |ns|
    requires ns[i] in seen' || !Passable(g, b, ns[i])
    ensures Enqueued(g, b, ns, i + 1, seen, q, seen', q')
  {
  }

  /** The inner `for (const [nr, nc] of neighbors(r, c))` loop of `hasPath`:
      every neighbour of `cur` not yet seen and passable (empty, or the
      target) is marked seen and queued, and no other cell is. */
  method EnqueueNeighbours(g: Grid, rows: int, cols: int, a: Cell, b: Cell, cur: Cell,
                           seen: set<Cell>, q: seq<Cell>)
    returns (seen': set<Cell>, q': seq<Cell>)
    requires Shaped(g, rows, cols) && InBounds(a, rows, cols)
    requires cur in seen && cur != b
    requires SeenSound(g, rows, cols, a, b, seen)
    ensures seen <= seen'
    ensures seen' == seen ==> q' == q
    ensures forall x :: x in q' <==> x in q || x in seen' - seen
    ensures SeenSound(g, rows, cols, a, b, seen')
    ensures forall y :: InBounds(y, rows, cols) && Adjacent(cur, y) && Passable(g, b, y) ==> y in seen'
    ensures forall y :: y in seen' - seen ==> InBounds(y, rows, cols) && Adjacent(cur, y) && Passable(g, b, y)
  {
    seen', q' := seen, q;
    var ns := Neighbors(rows, cols, cur);
    var i := 0;
    while i < |ns|
      invariant Enqueued(g, b, ns, i, seen, q, seen', q')
      invariant SeenSound(g, rows, cols, a, b, seen')
    {
      var nb := ns[i];
      assert nb in ns;
      InBoundsOnGrid(g, rows, cols, nb);
      if nb !in seen' && (TopAt(g, nb) == None || nb == b) {
        SeenSoundAdd(g, rows, cols, a, b, seen', cur, nb);
        EnqueueAdd(g, b, ns, i, seen, q, seen', q');
        seen' := seen' + {nb};
        q' := q' + [nb];
      } else {
        EnqueueSkip(g, b, ns, i, seen, q, seen', q');
      }
      i := i + 1;
    }
    forall y | InBounds(y, rows, cols) && Adjacent(cur, y) && Passable(g, b, y) ensures y in seen' {
      var j :| 0 <= j < |ns| && ns[j] == y;
    }
  }

  /** `hasPath(a, b)`: a breadth-first search from `a` that enters only
      empty cells or `b`, with a `seen` set so that each cell is queued at
      most once. It answers exactly whether `a` and `b` are connected. */
  method HasPath(g: Grid, rows: int, cols: int, a: Cell, b: Cell) returns (found: bool)
    requires Shaped(g, rows, cols)
    requires InBounds(a, rows, cols) && InBounds(b, rows, cols)
    ensures found <==> Connected(g, rows, cols, a, b)
  {
    var q := [a];
    var seen := {a};
    ConnectedReflexive(g, rows, cols, a);
    ghost var done: set<Cell> := {};
    ghost var u := Universe(rows, cols, a);
    while |q| > 0
      invariant seen <= u && a in seen && done <= seen
      invariant forall x :: x in q ==> x in seen
      invariant forall x :: x in seen ==> x in done || x in q
      invariant b !in done
      invariant Closed(g, rows, cols, b, done, seen)
      invariant SeenSound(g, rows, cols, a, b, seen)
      decreases u - seen, |q|
    {
      var cur := q[0];
      q := q[1..];
      if cur == b {
        return true;
      }
      seen, q := EnqueueNeighbours(g, rows, cols, a, b, cur, seen, q);
      done := done + {cur};
    }
    ExhaustedMeansDisconnected(g, rows, cols, a, b, seen);
    found := false;
  }

  /** A cell is connected to itself by the one-cell path. */
  lemma ConnectedReflexive(g: Grid, rows: int, cols: int, a: Cell)
    requires Shaped(g, rows, cols) && InBounds(a, rows, cols)
    ensures Connected(g, rows, cols, a, a)
  {
    assert IsPath(g, rows, cols, [a], a, a);
  }

  /** Orthogonal neighbours are always connected, occupied or not. */
  lemma ConnectedNeighbours(g: Grid, rows: int, cols: int, a: Cell, b: Cell)
    requires Shaped(g, rows, cols)
    requires InBounds(a, rows, cols) && InBounds(b, rows, cols) && Adjacent(a, b)
    ensures Connected(g, rows, cols, a, b)
  {
    assert IsPath(g, rows, cols, [a, b], a, b);
  }

  function Reverse(p: seq<Cell>): (r: seq<Cell>)
    ensures |r| == |p|
    ensures forall i :: 0 <= i < |p| ==> r[i] == p[|p| - 1 - i]
  {
    if p == [] then [] else Reverse(p[1..]) + [p[0]]
  }

  /** Connectivity does not depend on the direction of the search. */
  lemma ConnectedSymmetric(g: Grid, rows: int, cols: int, a: Cell, b: Cell)
    requires Shaped(g, rows, cols)
    requires Connected(g, rows, cols, a, b)
    ensures Connected(g, rows, cols, b, a)
  {
    var p :| IsPath(g, rows, cols, p, a, b);
    var q := Reverse(p);
    forall i | 0 <= i < |q| - 1 ensures Adjacent(q[i], q[i + 1]) {
      assert Adjacent(p[|p| - 2 - i], p[|p| - 1 - i]);
    }
    forall i | 0 < i < |q| - 1 ensures TopAt(g, q[i]) == None {
      assert q[i] == p[|p| - 1 - i];
    }
    assert IsPath(g, rows, cols, q, b, a);
  }
}
