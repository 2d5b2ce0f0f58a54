/** The session as a value: the fields of the global `state` object, and the
    transitions `pick`, the timer tick and `shakePot` as functions of it.
    The `Session` class performs these transitions in place; the lemmas
    here say what they promise. */
module Game {
  import opened Prelude
  import opened Board
  import opened Paths
  import opened HoldingBar
  import opened Clock

  /** `state.selected`: the first cell of a pending pair and its kind. */
  datatype Selection = Selection(at: Cell, kind: Kind)

  /** Which end screen the session has shown: `win`, `failByBar` or
      `failByTimeout`. */
  datatype Outcome = Playing | Won | LostByBar | LostByTimeout

  datatype State = State(
    level: int, score: int, secs: int, goal: int, remaining: int,
    grid: Grid, rows: int, cols: int,
    selected: Option<Selection>, bar: seq<Kind>,
    ended: bool, outcome: Outcome)

  /** The grid has the board's shape and `remaining` counts its items. */
  predicate Consistent(s: State) {
    Shaped(s.grid, s.rows, s.cols) && s.remaining == ItemCount(s.grid)
  }

  /** A pending selection names an on-board cell whose top is still the
      selected kind, and that kind is the last entry of the bar. */
  predicate SelectionHolds(s: State)
    requires Shaped(s.grid, s.rows, s.cols)
  {
    match s.selected
    case None => true
    case Some(a) =>
      && InBounds(a.at, s.rows, s.cols)
      && TopAt(s.grid, a.at) == Some(a.kind)
      && |s.bar| > 0 && s.bar[|s.bar| - 1] == a.kind
  }

  /** What every transition keeps. */
  predicate Inv(s: State) {
    && Consistent(s)
    && s.remaining <= s.goal
    && s.score >= 0
    && 0 <= s.secs <= LIMIT_SECONDS
    && |s.bar| <= BAR_CAP
    && (s.ended <==> s.outcome != Playing)
    && (!s.ended ==> |s.bar| < BAR_CAP && s.secs > 0 && s.remaining > 0)
    && (s.outcome == Won ==> s.remaining == 0)
    && (s.outcome == LostByBar ==> |s.bar| == BAR_CAP)
    && (s.outcome == LostByTimeout ==> s.secs == 0)
    && SelectionHolds(s)
  }

  /** A session just dealt by `restart`: full time, empty bar, nothing
      selected, every dealt item still on the board. */
  predicate Fresh(s: State) {
    && Consistent(s)
    && s.remaining == s.goal > 0
    && s.score >= 0
    && s.secs == LIMIT_SECONDS
    && s.selected.None? && s.bar == []
    && !s.ended && s.outcome == Playing
  }

  lemma FreshInv(s: State)
    requires Fresh(s)
    ensures Inv(s)
  {
  }

  /** `win`, `failByBar`, `failByTimeout`: the session ends. */
  function Ended(s: State, o: Outcome): (t: State)
    requires o != Playing
    ensures t.ended && t.outcome == o
    ensures t == s.(ended := t.ended, outcome := t.outcome)
  {
    s.(ended := true, outcome := o)
  }

  // ---- removeTop

  /** `removeTop(r, c)`: pop the top item of a non-empty cell and count it
      off `remaining`; an empty cell is left alone. */
  function TakeTop(s: State, x: Cell): (t: State)
    requires Shaped(s.grid, s.rows, s.cols) && InBounds(x, s.rows, s.cols)
    ensures Shaped(t.grid, t.rows, t.cols)
    ensures t == s.(grid := t.grid, remaining := t.remaining)
  {
    if TopAt(s.grid, x) == None then s
    else s.(grid := PopAt(s.grid, x), remaining := s.remaining - 1)
  }

  /** `removeTop` keeps `remaining` equal to the number of items on the
      board: it takes exactly the top item off, or nothing from an empty
      cell. */
  lemma TakeTopCounts(s: State, x: Cell)
    requires Consistent(s) && InBounds(x, s.rows, s.cols)
    ensures Consistent(TakeTop(s, x))
    ensures TopAt(s.grid, x) == None ==> TakeTop(s, x) == s
    ensures TopAt(s.grid, x).Some? ==>
      && TakeTop(s, x).remaining == s.remaining - 1
      && Items(TakeTop(s, x).grid) + multiset{TopAt(s.grid, x).value} == Items(s.grid)
  {
    if TopAt(s.grid, x).Some? {
      PopAtItems(s.grid, x);
    }
  }

  // ---- pick

  /** The first pick: select the cell, put its kind in the bar, and lose if
      the bar is now full. */
  function Selected(s: State, x: Cell, k: Kind): (t: State)
    ensures t.selected == Some(Selection(x, k)) && t.bar == Pushed(s.bar, k)
    ensures t.grid == s.grid && t.remaining == s.remaining && t.score == s.score
    ensures t.ended <==> s.ended || |t.bar| == BAR_CAP
    ensures |t.bar| == BAR_CAP ==> t.outcome == LostByBar
  {
    var t := s.(selected := Some(Selection(x, k)), bar := Pushed(s.bar, k));
    if |t.bar| >= BAR_CAP then Ended(t, LostByBar) else t
  }

  /** A legal match: both tops leave the board, one pair leaves the bar, and
      the score rises by 40. */
  function Matched(s: State, a: Cell, x: Cell, k: Kind): (t: State)
    requires Shaped(s.grid, s.rows, s.cols)
    requires InBounds(a, s.rows, s.cols) && InBounds(x, s.rows, s.cols)
    ensures Shaped(t.grid, t.rows, t.cols)
    ensures t.bar == WithoutFirst(s.bar, k, 2) && t.score == s.score + 40
  {
    var t := TakeTop(TakeTop(s, a), x);
    t.(bar := WithoutFirst(t.bar, k, 2), score := t.score + 40)
  }

  /** The checks after a second pick: a cleared board wins before a full bar
      loses. */
  function Settled(s: State): (t: State)
    ensures t == s.(ended := t.ended, outcome := t.outcome)
    ensures t.ended <==> s.ended || s.remaining <= 0 || |s.bar| >= BAR_CAP
    ensures s.remaining <= 0 ==> t.outcome == Won
    ensures s.remaining > 0 && |s.bar| >= BAR_CAP ==> t.outcome == LostByBar
  {
    if s.remaining <= 0 then Ended(s, Won)
    else if |s.bar| >= BAR_CAP then Ended(s, LostByBar)
    else s
  }

  /** `pick(r, c)`. */
  ghost function Picked(s: State, x: Cell): (t: State)
    requires Shaped(s.grid, s.rows, s.cols) && InBounds(x, s.rows, s.cols)
    requires s.selected.Some? ==> InBounds(s.selected.value.at, s.rows, s.cols)
    ensures Shaped(t.grid, t.rows, t.cols)
    ensures t.level == s.level && t.rows == s.rows && t.cols == s.cols
    ensures t.goal == s.goal && t.secs == s.secs
  {
    if s.ended || TopAt(s.grid, x) == None then s
    else
      var k := TopAt(s.grid, x).value;
      match s.selected
      case None => Selected(s, x, k)
      case Some(a) =>
        if a.at == x then s.(selected := None)
        else
          var pushed := s.(bar := Pushed(s.bar, k));
          var t :=
            if a.kind == k && Connected(s.grid, s.rows, s.cols, a.at, x)
            then Matched(pushed, a.at, x, k)
            else pushed.(score := FloorAtZero(s.score - 5));
          Settled(t.(selected := None))
  }

  /** A pick on a finished session or on an empty cell changes nothing. */
  lemma PickIgnored(s: State, x: Cell)
    requires Inv(s) && InBounds(x, s.rows, s.cols)
    requires s.ended || TopAt(s.grid, x) == None
    ensures Picked(s, x) == s
  {
  }

  /** The first pick selects the cell and appends its kind to the bar; a
      bar that reaches `BAR_CAP` loses at once. */
  lemma FirstPick(s: State, x: Cell)
    requires Inv(s) && InBounds(x, s.rows, s.cols)
    requires !s.ended && TopAt(s.grid, x).Some? && s.selected.None?
    ensures Picked(s, x).selected == Some(Selection(x, TopAt(s.grid, x).value))
    ensures Picked(s, x).bar == s.bar + [TopAt(s.grid, x).value]
    ensures Picked(s, x).grid == s.grid && Picked(s, x).score == s.score
    ensures Picked(s, x).ended <==> |s.bar| + 1 == BAR_CAP
  {
  }

  /** Picking the selected cell again only drops the selection: the bar
      keeps the kind the first pick put there. */
  lemma PickSameCell(s: State, x: Cell)
    requires Inv(s) && InBounds(x, s.rows, s.cols)
    requires !s.ended && s.selected.Some? && s.selected.value.at == x
    ensures Picked(s, x) == s.(selected := None)
  {
  }

  /** A legal second pick (same kind, connected): exactly the two tops leave
      the board, `remaining` drops by two, the bar loses the selected entry
      (the new pick's entry and one earlier one of that kind go), and the
      score rises by 40. */
  lemma PickMatch(s: State, x: Cell)
    requires Inv(s) && InBounds(x, s.rows, s.cols)
    requires !s.ended && s.selected.Some?
    requires s.selected.value.at != x && TopAt(s.grid, x) == Some(s.selected.value.kind)
    requires Connected(s.grid, s.rows, s.cols, s.selected.value.at, x)
    ensures var a, t := s.selected.value, Picked(s, x);
      && t.grid == PopAt(PopAt(s.grid, a.at), x)
      && Items(t.grid) + multiset{a.kind, a.kind} == Items(s.grid)
      && t.remaining == s.remaining - 2
      && multiset(t.bar) == multiset(s.bar) - multiset{a.kind}
      && |t.bar| == |s.bar| - 1
      && t.score == s.score + 40
      && t.selected.None?
      && (t.ended <==> t.remaining == 0)
  {
    var a, k := s.selected.value, s.selected.value.kind;
    var pushed := s.(bar := Pushed(s.bar, k));
    MatchedBoard(pushed, a.at, x, k);
    PairAfterPush(s.bar, k);
  }

  /** Both tops of a legal match are there to be taken: the board loses
      exactly two items of the matched kind. */
  lemma MatchedBoard(s: State, a: Cell, x: Cell, k: Kind)
    requires Consistent(s) && InBounds(a, s.rows, s.cols) && InBounds(x, s.rows, s.cols)
    requires a != x && TopAt(s.grid, a) == Some(k) && TopAt(s.grid, x) == Some(k)
    ensures var t := Matched(s, a, x, k);
      && Consistent(t)
      && t.grid == PopAt(PopAt(s.grid, a), x)
      && Items(t.grid) + multiset{k, k} == Items(s.grid)
      && t.remaining == s.remaining - 2
      && t.bar == WithoutFirst(s.bar, k, 2)
      && t.score == s.score + 40
  {
    PopTwo(s.grid, s.rows, s.cols, a, x, k);
    var u := TakeTop(s, a);
    assert u == s.(grid := PopAt(s.grid, a), remaining := s.remaining - 1);
    assert TakeTop(u, x) == u.(grid := PopAt(u.grid, x), remaining := u.remaining - 1);
  }

  /** An illegal second pick (another kind, or no path): the board stays as
      it is, the pick's kind joins the bar, the score loses 5 but never goes
      below zero, and the selection is dropped. */
  lemma PickMiss(s: State, x: Cell)
    requires Inv(s) && InBounds(x, s.rows, s.cols)
    requires !s.ended && s.selected.Some? && s.selected.value.at != x
    requires TopAt(s.grid, x).Some?
    requires TopAt(s.grid, x) != Some(s.selected.value.kind)
          || !Connected(s.grid, s.rows, s.cols, s.selected.value.at, x)
    ensures var t := Picked(s, x);
      && t.grid == s.grid && t.remaining == s.remaining
      && t.bar == s.bar + [TopAt(s.grid, x).value]
      && t.score == FloorAtZero(s.score - 5) && t.score >= 0
      && t.selected.None?
      && (t.ended <==> |t.bar| == BAR_CAP)
  {
  }

  /** Win and bar overflow never compete: a legal match shortens the bar,
      and a miss leaves items on the board. So the session is won exactly
      by a match that clears the board, and lost to the bar exactly by a
      pick that fills it. */
  lemma PickEndings(s: State, x: Cell)
    requires Inv(s) && InBounds(x, s.rows, s.cols) && !s.ended
    ensures Picked(s, x).outcome == Won ==> Picked(s, x).remaining == 0 && |Picked(s, x).bar| < BAR_CAP
    ensures Picked(s, x).outcome == LostByBar ==> Picked(s, x).remaining > 0
  {
    if TopAt(s.grid, x).Some? && s.selected.Some? && s.selected.value.at != x {
      var a := s.selected.value;
      if a.kind == TopAt(s.grid, x).value && Connected(s.grid, s.rows, s.cols, a.at, x) {
        PickMatch(s, x);
      } else {
        PickMiss(s, x);
      }
    }
  }

  /** Every pick keeps the session's invariant. */
  lemma PickKeepsInv(s: State, x: Cell)
    requires Inv(s) && InBounds(x, s.rows, s.cols)
    ensures Inv(Picked(s, x))
  {
    if !s.ended && TopAt(s.grid, x).Some? && s.selected.Some? && s.selected.value.at != x {
      var a := s.selected.value;
      if a.kind == TopAt(s.grid, x).value && Connected(s.grid, s.rows, s.cols, a.at, x) {
        PickMatch(s, x);
        var t := Picked(s, x);
        assert Consistent(t) by {
          var pushed := s.(bar := Pushed(s.bar, a.kind));
          TakeTopCounts(pushed, a.at);
          TakeTopCounts(TakeTop(pushed, a.at), x);
        }
      } else {
        PickMiss(s, x);
      }
    }
  }

  // ---- the timer

  /** One tick of the countdown started by `startTimer`. */
  function Ticked(s: State): (t: State)
    ensures t == s.(secs := t.secs, ended := t.ended, outcome := t.outcome)
    ensures s.ended ==> t == s
    ensures !s.ended ==> t.secs == FloorAtZero(s.secs - 1)
  {
    if s.ended then s
    else if s.secs - 1 <= 0 then Ended(s.(secs := 0), LostByTimeout)
    else s.(secs := s.secs - 1)
  }

  /** A tick counts one second down and ends the session exactly when the
      time is up; once ended, ticks change nothing. */
  lemma TickCountsDown(s: State)
    requires Inv(s)
    ensures Inv(Ticked(s))
    ensures s.ended ==> Ticked(s) == s
    ensures !s.ended ==> Ticked(s).secs == s.secs - 1
    ensures !s.ended ==> (Ticked(s).ended <==> Ticked(s).secs == 0)
    ensures Ticked(s) == s.(secs := Ticked(s).secs, ended := Ticked(s).ended, outcome := Ticked(s).outcome)
  {
  }

  /** `n` ticks. */
  function Ticks(s: State, n: nat): (t: State)
    decreases n
  {
    if n == 0 then s else Ticks(Ticked(s), n - 1)
  }

  /** Nobody can play on past the time limit: after as many ticks as there
      are seconds left, the session has ended, by timeout unless it had
      ended before. */
  lemma {:induction false} TimeRunsOut(s: State)
    requires Inv(s)
    decreases s.secs
    ensures Inv(Ticks(s, s.secs))
    ensures Ticks(s, s.secs).ended
    ensures !s.ended ==> Ticks(s, s.secs).outcome == LostByTimeout
  {
    if s.secs > 0 {
      TickCountsDown(s);
      var t := Ticked(s);
      if s.ended {
        EndedStays(s, s.secs);
      } else {
        TimeRunsOut(t);
        assert t.secs == s.secs - 1;
      }
    } else {
      assert s.ended;
    }
  }

  /** Ticks leave an ended session as it is. */
  lemma {:induction false} EndedStays(s: State, n: nat)
    requires s.ended
    ensures Ticks(s, n) == s
  {
    if n > 0 {
      EndedStays(Ticked(s), n - 1);
    }
  }

  // ---- shakePot

  /** The cells of a list of pairs, in order. */
  function Flatten(ps: seq<(Cell, Cell)>): (cs: seq<Cell>)
    ensures |cs| == 2 * |ps|
  {
    if ps == [] then []
    else Flatten(ps[..|ps| - 1]) + [ps[|ps| - 1].0, ps[|ps| - 1].1]
  }

  lemma FlattenAt(ps: seq<(Cell, Cell)>, i: int)
    requires 0 <= i < |ps|
    ensures Flatten(ps)[2 * i] == ps[i].0 && Flatten(ps)[2 * i + 1] == ps[i].1
  {
    if i < |ps| - 1 {
      FlattenAt(ps[..|ps| - 1], i);
    }
  }

  /** Pairs that `shakePot` may swap: distinct occupied board cells, no cell
      in two pairs. */
  ghost predicate Swappable(g: Grid, rows: int, cols: int, ps: seq<(Cell, Cell)>)
    requires Shaped(g, rows, cols)
  {
    && NoDup(Flatten(ps))
    && forall x :: x in Flatten(ps) ==> InBounds(x, rows, cols) && |StackAt(g, x)| > 0
  }

  /** The same cells, with only the items in them moved around. */
  predicate SameDepths(g: Grid, h: Grid) {
    && |h| == |g|
    && (forall r :: 0 <= r < |g| ==> |h[r]| == |g[r]|)
    && (forall r, c :: 0 <= r < |g| && 0 <= c < |g[r]| ==> |h[r][c]| == |g[r][c]|)
  }

  /** One swap of `shakePot`: `s1.pop(); s2.pop(); s1.push(t2); s2.push(t1)`,
      which exchanges the top items of the two cells. */
  function SwapTop(g: Grid, x: Cell, y: Cell): (h: Grid)
    requires OnGrid(g, x) && OnGrid(g, y) && x != y
    requires |StackAt(g, x)| > 0 && |StackAt(g, y)| > 0
    ensures SameDepths(g, h)
    ensures var sx, sy := StackAt(g, x), StackAt(g, y);
      && h[x.r][x.c] == sx[..|sx| - 1] + [sy[|sy| - 1]]
      && h[y.r][y.c] == sy[..|sy| - 1] + [sx[|sx| - 1]]
    ensures forall z :: OnGrid(g, z) && z != x && z != y ==> h[z.r][z.c] == g[z.r][z.c]
  {
    var sx, sy := StackAt(g, x), StackAt(g, y);
    var g1 := SetStack(g, x, sx[..|sx| - 1] + [sy[|sy| - 1]]);
    SetStack(g1, y, sy[..|sy| - 1] + [sx[|sx| - 1]])
  }

  lemma FlattenPrefix(ps: seq<(Cell, Cell)>)
    requires |ps| > 0
    ensures Flatten(ps) == Flatten(ps[..|ps| - 1]) + [ps[|ps| - 1].0, ps[|ps| - 1].1]
  {
  }

  lemma NoDupPrefix<T>(s: seq<T>, n: int)
    requires NoDup(s) && 0 <= n <= |s|
    ensures NoDup(s[..n])
  {
  }

  /** The swaps one after the other. */
  function SwapAll(g: Grid, rows: int, cols: int, ps: seq<(Cell, Cell)>): (h: Grid)
    requires Shaped(g, rows, cols) && Swappable(g, rows, cols, ps)
    ensures Shaped(h, rows, cols) && SameDepths(g, h)
    decreases |ps|
  {
    if ps == [] then g
    else
      var init, p := ps[..|ps| - 1], ps[|ps| - 1];
      var fs := Flatten(ps);
      NoDupPrefix(fs, |fs| - 2);
      assert fs[|fs| - 2] == p.0 && fs[|fs| - 1] == p.1;
      var h := SwapAll(g, rows, cols, init);
      assert p.0 in fs && p.1 in fs;
      SwapTop(h, p.0, p.1)
  }

  /** `shakePot` with the pairs it drew. */
  ghost function Shaken(s: State, ps: seq<(Cell, Cell)>): (t: State)
    requires Shaped(s.grid, s.rows, s.cols)
    requires !s.ended ==> Swappable(s.grid, s.rows, s.cols, ps)
    ensures t == s.(grid := t.grid, score := t.score, selected := t.selected)
    ensures !s.ended ==> SameDepths(s.grid, t.grid) && Shaped(t.grid, t.rows, t.cols)
    ensures !s.ended ==> t.score == FloorAtZero(s.score - 10) && t.selected.None?
  {
    if s.ended then s
    else s.(grid := SwapAll(s.grid, s.rows, s.cols, ps),
            score := FloorAtZero(s.score - 10), selected := None)
  }

  /** Replacing the top item of a stack by `t` trades that item for `t`
      among the board's items. */
  lemma ReplaceTopItems(g: Grid, x: Cell, t: Kind)
    requires OnGrid(g, x) && |StackAt(g, x)| > 0
    ensures var s := StackAt(g, x);
      Items(SetStack(g, x, s[..|s| - 1] + [t])) + multiset{s[|s| - 1]} == Items(g) + multiset{t}
  {
    var s := StackAt(g, x);
    var top, n := s[|s| - 1], s[..|s| - 1] + [t];
    var h := SetStack(g, x, n);
    ItemsUpdate(g, x, n);
    assert s == s[..|s| - 1] + [top];
    forall j ensures (Items(h) + multiset{top})[j] == (Items(g) + multiset{t})[j] {
      assert (Items(h) + multiset(s))[j] == (Items(g) + multiset(n))[j];
      assert multiset(s)[j] == (multiset(s[..|s| - 1]) + multiset{top})[j];
      assert multiset(n)[j] == (multiset(s[..|s| - 1]) + multiset{t})[j];
    }
  }

  /** One swap keeps the board's items: the two tops trade places. */
  lemma SwapTopKeepsItems(g: Grid, x: Cell, y: Cell)
    requires OnGrid(g, x) && OnGrid(g, y) && x != y
    requires |StackAt(g, x)| > 0 && |StackAt(g, y)| > 0
    ensures Items(SwapTop(g, x, y)) == Items(g)
  {
    var sx, sy := StackAt(g, x), StackAt(g, y);
    var tx, ty := sx[|sx| - 1], sy[|sy| - 1];
    var g1 := SetStack(g, x, sx[..|sx| - 1] + [ty]);
    var g2 := SetStack(g1, y, sy[..|sy| - 1] + [tx]);
    ReplaceTopItems(g, x, ty);
    assert StackAt(g1, y) == sy;
    ReplaceTopItems(g1, y, tx);
    forall j ensures Items(g2)[j] == Items(g)[j] {
      assert (Items(g1) + multiset{tx})[j] == (Items(g) + multiset{ty})[j];
      assert (Items(g2) + multiset{ty})[j] == (Items(g1) + multiset{tx})[j];
    }
  }

  /** Shaking keeps the multiset of items on the board, and so their
      number. */
  lemma {:induction false} SwapAllKeepsItems(g: Grid, rows: int, cols: int, ps: seq<(Cell, Cell)>)
    requires Shaped(g, rows, cols) && Swappable(g, rows, cols, ps)
    ensures Items(SwapAll(g, rows, cols, ps)) == Items(g)
    ensures ItemCount(SwapAll(g, rows, cols, ps)) == ItemCount(g)
    decreases |ps|
  {
    if ps != [] {
      var init, p := ps[..|ps| - 1], ps[|ps| - 1];
      var fs := Flatten(ps);
      NoDupPrefix(fs, |fs| - 2);
      assert fs[|fs| - 2] == p.0 && fs[|fs| - 1] == p.1;
      assert p.0 in fs && p.1 in fs;
      SwapAllKeepsItems(g, rows, cols, init);
      var h := SwapAll(g, rows, cols, init);
      SwapTopKeepsItems(h, p.0, p.1);
    }
    ItemsSize(g);
    ItemsSize(SwapAll(g, rows, cols, ps));
  }

  /** The last pair of a duplicate-free list: two distinct cells that no
      earlier pair names. */
  lemma FlattenLast(ps: seq<(Cell, Cell)>)
    requires NoDup(Flatten(ps)) && |ps| > 0
    ensures var init, p := ps[..|ps| - 1], ps[|ps| - 1];
      && NoDup(Flatten(init))
      && Flatten(init) == Flatten(ps)[..2 * |init|]
      && p.0 in Flatten(ps) && p.1 in Flatten(ps) && p.0 != p.1
      && p.0 !in Flatten(init) && p.1 !in Flatten(init)
  {
    var init, p := ps[..|ps| - 1], ps[|ps| - 1];
    var fs := Flatten(ps);
    NoDupPrefix(fs, |fs| - 2);
    assert fs[|fs| - 2] == p.0 && fs[|fs| - 1] == p.1;
    assert fs[..|fs| - 2] == Flatten(init);
    forall j | 0 <= j < |fs| - 2 ensures fs[j] != p.0 && fs[j] != p.1 {
    }
  }

  /** The last swap of a list, taken apart: it is done after the others,
      on two distinct cells that no earlier pair touches. */
  lemma SwapAllLast(g: Grid, rows: int, cols: int, ps: seq<(Cell, Cell)>)
    requires Shaped(g, rows, cols) && Swappable(g, rows, cols, ps) && |ps| > 0
    ensures var init, p := ps[..|ps| - 1], ps[|ps| - 1];
      && Swappable(g, rows, cols, init)
      && Flatten(init) == Flatten(ps)[..2 * |init|]
      && InBounds(p.0, rows, cols) && InBounds(p.1, rows, cols) && p.0 != p.1
      && p.0 !in Flatten(init) && p.1 !in Flatten(init)
      && |StackAt(SwapAll(g, rows, cols, init), p.0)| > 0
      && |StackAt(SwapAll(g, rows, cols, init), p.1)| > 0
      && SwapAll(g, rows, cols, ps) == SwapTop(SwapAll(g, rows, cols, init), p.0, p.1)
  {
    var init := ps[..|ps| - 1];
    FlattenLast(ps);
    assert forall x :: x in Flatten(init) ==> x in Flatten(ps);
  }

  /** A cell that is in no pair keeps its stack. */
  lemma {:induction false} SwapAllUntouched(g: Grid, rows: int, cols: int, ps: seq<(Cell, Cell)>, z: Cell)
    requires Shaped(g, rows, cols) && Swappable(g, rows, cols, ps)
    requires InBounds(z, rows, cols) && z !in Flatten(ps)
    ensures SwapAll(g, rows, cols, ps)[z.r][z.c] == g[z.r][z.c]
    decreases |ps|
  {
    if ps != [] {
      var init, p := ps[..|ps| - 1], ps[|ps| - 1];
      SwapAllLast(g, rows, cols, ps);
      FlattenPrefix(ps);
      SwapAllUntouched(g, rows, cols, init, z);
    }
  }

  /** The two cells of every pair trade their top items, and nothing below
      the tops moves. */
  lemma {:induction false} SwapAllExchanges(g: Grid, rows: int, cols: int, ps: seq<(Cell, Cell)>, i: int)
    requires Shaped(g, rows, cols) && Swappable(g, rows, cols, ps)
    requires 0 <= i < |ps|
    ensures var h, x, y := SwapAll(g, rows, cols, ps), ps[i].0, ps[i].1;
      && InBounds(x, rows, cols) && InBounds(y, rows, cols)
      && |g[x.r][x.c]| > 0 && |g[y.r][y.c]| > 0
      && h[x.r][x.c] == g[x.r][x.c][..|g[x.r][x.c]| - 1] + [g[y.r][y.c][|g[y.r][y.c]| - 1]]
      && h[y.r][y.c] == g[y.r][y.c][..|g[y.r][y.c]| - 1] + [g[x.r][x.c][|g[x.r][x.c]| - 1]]
    decreases |ps|
  {
    var init, p := ps[..|ps| - 1], ps[|ps| - 1];
    var fs := Flatten(ps);
    SwapAllLast(g, rows, cols, ps);
    FlattenAt(ps, i);
    assert ps[i].0 in fs && ps[i].1 in fs;
    if i < |ps| - 1 {
      var h0, x, y := SwapAll(g, rows, cols, init), ps[i].0, ps[i].1;
      SwapAllExchanges(g, rows, cols, init, i);
      FlattenAt(init, i);
      assert x in Flatten(init) && y in Flatten(init);
      assert SwapAll(g, rows, cols, ps)[x.r][x.c] == h0[x.r][x.c];
      assert SwapAll(g, rows, cols, ps)[y.r][y.c] == h0[y.r][y.c];
    } else {
      var h0 := SwapAll(g, rows, cols, init);
      SwapAllUntouched(g, rows, cols, init, p.0);
      SwapAllUntouched(g, rows, cols, init, p.1);
      assert StackAt(h0, p.0) == g[p.0.r][p.0.c] && StackAt(h0, p.1) == g[p.1.r][p.1.c];
    }
  }

  /** `shakePot` on a running session keeps the invariant: the same number
      of items in the same stack depths, the score lowered by 10 but not
      below zero, and no selection. On an ended session it does nothing. */
  lemma ShakeKeepsInv(s: State, ps: seq<(Cell, Cell)>)
    requires Inv(s)
    requires !s.ended ==> Swappable(s.grid, s.rows, s.cols, ps)
    ensures Inv(Shaken(s, ps))
    ensures s.ended ==> Shaken(s, ps) == s
    ensures !s.ended ==>
      && Items(Shaken(s, ps).grid) == Items(s.grid)
      && SameDepths(s.grid, Shaken(s, ps).grid)
      && Shaken(s, ps).remaining == s.remaining
      && Shaken(s, ps).score == FloorAtZero(s.score - 10)
      && Shaken(s, ps).selected.None?
  {
    if !s.ended {
      SwapAllKeepsItems(s.grid, s.rows, s.cols, ps);
    }
  }
}
