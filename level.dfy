/** The numbers `buildLevel` derives from the level and the board size, and
    the pool of items it deals out. */
module Level {
  import opened Prelude
  import opened Board

  /** `layers = clamp(2 + floor(level / 2), 2, 4)`. */
  function Layers(level: int): (n: int)
    ensures 2 <= n <= 4
    ensures 2 <= 2 + level / 2 <= 4 ==> n == 2 + level / 2
  {
    Clamp(2 + level / 2, 2, 4)
  }

  /** `kindsCount = clamp(4 + floor(level / 2), 4, KINDS.length)`. */
  function KindsCount(level: int): (n: int)
    ensures 4 <= n <= |KINDS|
    ensures 4 <= 4 + level / 2 <= |KINDS| ==> n == 4 + level / 2
  {
    Clamp(4 + level / 2, 4, |KINDS|)
  }

  /** `KINDS.slice(0, kindsCount)`. */
  function LevelKinds(level: int): (ks: seq<Kind>)
    ensures 4 <= |ks| <= |KINDS|
    ensures forall k :: k in ks ==> k in KINDS
    ensures |ks| == KindsCount(level) && ks <= KINDS
  {
    KINDS[..KindsCount(level)]
  }

  /** The kinds of a level are distinct: a level with `kindsCount` kinds
      uses exactly that many different kinds. */
  lemma LevelKindsDistinct(level: int)
    ensures NoDup(LevelKinds(level))
    ensures |set k | k in LevelKinds(level)| == KindsCount(level)
  {
    var ks := LevelKinds(level);
    var n := KindsCount(level);
    if n == 4 {
      assert ks == [Leaf, Star, Berry, Shell];
      assert (set k | k in ks) == {Leaf, Star, Berry, Shell};
    } else if n == 5 {
      assert ks == [Leaf, Star, Berry, Shell, Feather];
      assert (set k | k in ks) == {Leaf, Star, Berry, Shell, Feather};
    } else {
      assert ks == KINDS;
      assert (set k | k in ks) == {Leaf, Star, Berry, Shell, Feather, Stone};
    }
  }

  /** `totalItems`: one item per cell and layer, rounded down to an even
      number so that the items can be dealt in pairs. */
  function TotalItems(rows: nat, cols: nat, level: int): (n: nat)
    ensures n % 2 == 0
  {
    var cells: nat := rows * cols;
    RoundedDown(cells * Layers(level))
  }

  /** `totalItems` is `totalItemsRaw` when that is even and one less when it
      is odd: at most one cell-layer goes unfilled. */
  lemma TotalItemsNearRaw(rows: nat, cols: nat, level: int)
    ensures TotalItems(rows, cols, level) <= rows * cols * Layers(level) < TotalItems(rows, cols, level) + 2
  {
    var cells: nat := rows * cols;
    assert cells * Layers(level) == rows * cols * Layers(level);
  }

  /** `raw - raw % 2`: the largest even number not above `raw`. */
  function RoundedDown(raw: nat): (n: nat)
    ensures n % 2 == 0 && n <= raw < n + 2
  {
    raw - raw % 2
  }

  /** Every non-empty board gets at least one pair. */
  lemma TotalItemsPositive(rows: nat, cols: nat, level: int)
    requires rows >= 1 && cols >= 1
    ensures TotalItems(rows, cols, level) >= 2
  {
    TotalItemsNearRaw(rows, cols, level);
    var cells := rows * cols;
    assert cells >= 1 by {
      assert rows * cols >= 1 * cols;
    }
    assert cells * Layers(level) >= cells * 2;
  }

  /** `fillCount` for layer `d`: all cells in the first layer, then
      `floor(totalCells * 0.15)` fewer per layer, but never below half the
      cells. */
  function FillCount(totalCells: nat, d: nat): (n: int)
    ensures totalCells / 2 <= n <= totalCells
  {
    Clamp(totalCells - d * (totalCells * 15 / 100), totalCells / 2, totalCells)
  }

  lemma ModBelow(j: int, n: int)
    requires 0 <= j < n
    ensures j % n == j
  {
  }

  /** The kind of pair `i` when the kinds are dealt out in turn: `kinds[i %
      kinds.length]`, written by repeated subtraction (see `RoundRobinIsModulo`). */
  function RoundRobin(kinds: seq<Kind>, i: nat): (k: Kind)
    requires |kinds| > 0
    ensures k in kinds
    decreases i
  {
    if i < |kinds| then kinds[i] else RoundRobin(kinds, i - |kinds|)
  }

  /** The round-robin choice is the source's `kinds[i % kinds.length]`. */
  lemma {:induction false} RoundRobinIsModulo(kinds: seq<Kind>, i: nat)
    requires |kinds| > 0
    ensures RoundRobin(kinds, i) == kinds[i % |kinds|]
    decreases i
  {
    if i < |kinds| {
      ModBelow(i, |kinds|);
    } else {
      RoundRobinIsModulo(kinds, i - |kinds|);
      ModShift(i, |kinds|);
    }
  }

  lemma ModShift(i: int, n: int)
    requires n > 0 && i >= n
    ensures i % n == (i - n) % n
  {
    var q, r := (i - n) / n, (i - n) % n;
    assert i == n * (q + 1) + r;
    ModUnique(i, n, q + 1, r);
  }

  /** The remainder is the one `r` in `[0, n)` with `i == n * q + r`. */
  lemma ModUnique(i: int, n: int, q: int, r: int)
    requires n > 0 && 0 <= r < n && i == n * q + r
    ensures i % n == r
  {
    var q', r' := i / n, i % n;
    assert n * (q - q') == r' - r;
    if q - q' >= 1 {
      MulAtLeast(n, q - q');
    } else if q' - q >= 1 {
      MulAtLeast(n, q' - q);
    }
  }

  lemma MulAtLeast(n: int, d: int)
    requires n > 0 && d >= 1
    ensures n * d >= n
  {
  }

  /** The pool before shuffling: for `i` below the number of pairs, two
      copies of `kinds[i % kinds.length]`. */
  function Pool(pairs: nat, kinds: seq<Kind>): (p: seq<Kind>)
    requires |kinds| > 0
    ensures |p| == 2 * pairs
  {
    if pairs == 0 then []
    else
      var k := RoundRobin(kinds, pairs - 1);
      Pool(pairs - 1, kinds) + [k, k]
  }

  /** How many of the first `pairs` round-robin choices are `x`. */
  function PairCount(pairs: nat, kinds: seq<Kind>, x: Kind): (n: nat)
    requires |kinds| > 0
  {
    if pairs == 0 then 0
    else PairCount(pairs - 1, kinds, x) + (if RoundRobin(kinds, pairs - 1) == x then 1 else 0)
  }

  /** Each pair puts two copies of its kind into the pool. */
  lemma {:induction false} PoolCounts(pairs: nat, kinds: seq<Kind>, x: Kind)
    requires |kinds| > 0
    ensures multiset(Pool(pairs, kinds))[x] == 2 * PairCount(pairs, kinds, x)
  {
    if pairs > 0 {
      var k := RoundRobin(kinds, pairs - 1);
      var before := Pool(pairs - 1, kinds);
      assert Pool(pairs, kinds) == before + [k, k];
      PoolCounts(pairs - 1, kinds, x);
      calc {
        multiset(Pool(pairs, kinds))[x];
        multiset(before)[x] + multiset([k, k])[x];
        { assert multiset([k, k]) == multiset{k, k}; }
        multiset(before)[x] + multiset{k, k}[x];
        2 * PairCount(pairs - 1, kinds, x) + multiset{k, k}[x];
        2 * PairCount(pairs - 1, kinds, x) + (if k == x then 2 else 0);
        2 * PairCount(pairs, kinds, x);
      }
    }
  }

  /** Every kind occurs an even number of times in the pool, so every item
      can in principle be matched. */
  lemma PoolEven(pairs: nat, kinds: seq<Kind>, x: Kind)
    requires |kinds| > 0
    ensures multiset(Pool(pairs, kinds))[x] % 2 == 0
  {
    PoolCounts(pairs, kinds, x);
  }

  /** The pool holds only kinds of the level. */
  lemma {:induction false} PoolKinds(pairs: nat, kinds: seq<Kind>)
    requires |kinds| > 0
    ensures forall x :: x in Pool(pairs, kinds) ==> x in kinds
  {
    if pairs > 0 {
      PoolKinds(pairs - 1, kinds);
      var k := RoundRobin(kinds, pairs - 1);
      assert Pool(pairs, kinds) == Pool(pairs - 1, kinds) + [k, k];
    }
  }

  lemma {:induction false} PoolGrows(m: nat, n: nat, kinds: seq<Kind>)
    requires |kinds| > 0 && m <= n
    ensures Pool(m, kinds) <= Pool(n, kinds)
  {
    if m < n {
      PoolGrows(m, n - 1, kinds);
    }
  }

  /** With at least as many pairs as kinds, the round-robin uses every kind
      of the level. */
  lemma PoolUsesEveryKind(pairs: nat, kinds: seq<Kind>)
    requires |kinds| > 0 && pairs >= |kinds|
    ensures forall j :: 0 <= j < |kinds| ==> kinds[j] in Pool(pairs, kinds)
  {
    forall j | 0 <= j < |kinds| ensures kinds[j] in Pool(pairs, kinds) {
      PoolGrows(j + 1, pairs, kinds);
      var p := Pool(j + 1, kinds);
      assert p == Pool(j, kinds) + [kinds[j], kinds[j]];
      assert Pool(pairs, kinds)[|p| - 1] == p[|p| - 1] == kinds[j];
    }
  }

  /** The pool `buildLevel` deals on a `rows x cols` board at `level`:
      `totalItems / 2` pairs of the level's kinds. */
  function LevelPool(rows: nat, cols: nat, level: int): (p: seq<Kind>)
    ensures |p| == TotalItems(rows, cols, level)
  {
    Pool(TotalItems(rows, cols, level) / 2, LevelKinds(level))
  }

  /** On every board `buildLevel` deals, each kind has an even number of
      items, so a board can in principle be cleared pair by pair. */
  lemma LevelPoolEven(rows: nat, cols: nat, level: int, x: Kind)
    ensures multiset(LevelPool(rows, cols, level))[x] % 2 == 0
  {
    PoolEven(TotalItems(rows, cols, level) / 2, LevelKinds(level), x);
  }

  /** A board holding exactly the level's pool has an even number of items
      of every kind. */
  lemma DealtEven(g: Grid, rows: nat, cols: nat, level: int)
    requires Items(g) == multiset(LevelPool(rows, cols, level))
    ensures forall x :: Items(g)[x] % 2 == 0
  {
    forall x ensures Items(g)[x] % 2 == 0 {
      LevelPoolEven(rows, cols, level, x);
    }
  }
}
