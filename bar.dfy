/** The holding bar: one entry per picked item, at most `BAR_CAP` of them.
    A legal match takes one pair of its kind out of the bar, wherever the
    two entries stand. */
module HoldingBar {
  import opened Board

  const BAR_CAP: nat := 7

  /** `pushBar(kind)`: append, then cut the bar back to `BAR_CAP` entries. */
  function Pushed(bar: seq<Kind>, k: Kind): (r: seq<Kind>)
    ensures |r| <= BAR_CAP
    ensures |r| == if |bar| < BAR_CAP then |bar| + 1 else BAR_CAP
    ensures r == (bar + [k])[..|r|]
    ensures |bar| < BAR_CAP ==> r == bar + [k]
  {
    var s := bar + [k];
    if |s| > BAR_CAP then s[..BAR_CAP] else s
  }

  /** `s` without its first `n` occurrences of `k`: the loop of
      `clearPairFromBar` with its `need` counter. */
  function WithoutFirst(s: seq<Kind>, k: Kind, n: nat): (r: seq<Kind>)
    ensures |r| <= |s|
  {
    if s == [] then []
    else if s[0] == k && n > 0 then WithoutFirst(s[1..], k, n - 1)
    else [s[0]] + WithoutFirst(s[1..], k, n)
  }

  /** One step of the copy loop of `clearPairFromBar`: the entry at `i` is
      either one of the `need` copies to skip, or kept at the end of the
      copy so far. Either way the copy plus what is left to process still
      comes to the whole result `w`. */
  lemma CopyStep(kept: seq<Kind>, s: seq<Kind>, i: int, k: Kind, need: nat, w: seq<Kind>)
    requires 0 <= i < |s|
    requires kept + WithoutFirst(s[i..], k, need) == w
    ensures s[i] == k && need > 0 ==> kept + WithoutFirst(s[i + 1..], k, need - 1) == w
    ensures !(s[i] == k && need > 0) ==> (kept + [s[i]]) + WithoutFirst(s[i + 1..], k, need) == w
  {
    assert s[i..][1..] == s[i + 1..];
    if !(s[i] == k && need > 0) {
      var rest := WithoutFirst(s[i + 1..], k, need);
      assert kept + ([s[i]] + rest) == (kept + [s[i]]) + rest;
    }
  }

  /** The entries other than `k`, in order. */
  function Others(s: seq<Kind>, k: Kind): (r: seq<Kind>) {
    if s == [] then []
    else if s[0] == k then Others(s[1..], k)
    else [s[0]] + Others(s[1..], k)
  }

  function Min(x: int, y: int): (m: int) {
    if x < y then x else y
  }

  /** How often `x` occurs in `WithoutFirst(s, k, n)`: `min(n, count of k)`
      fewer times when `x` is `k`, as often as in `s` otherwise. */
  lemma {:induction false} WithoutFirstCount(s: seq<Kind>, k: Kind, n: nat, x: Kind)
    ensures multiset(WithoutFirst(s, k, n))[x]
         == multiset(s)[x] - (if x == k then Min(n, multiset(s)[k]) else 0)
  {
    if s != [] {
      var h, t := s[0], s[1..];
      assert s == [h] + t;
      assert multiset(s)[x] == multiset([h])[x] + multiset(t)[x];
      assert multiset(s)[k] == multiset([h])[k] + multiset(t)[k];
      if h == k && n > 0 {
        WithoutFirstCount(t, k, n - 1, x);
      } else {
        WithoutFirstCount(t, k, n, x);
        var w := WithoutFirst(t, k, n);
        assert multiset([h] + w)[x] == multiset([h])[x] + multiset(w)[x];
      }
    }
  }

  /** Removing the first `n` occurrences of `k` takes `min(n, count of k)`
      copies of `k` out and leaves the count of every other kind alone. */
  lemma WithoutFirstCounts(s: seq<Kind>, k: Kind, n: nat)
    ensures multiset(WithoutFirst(s, k, n))[k] == multiset(s)[k] - Min(n, multiset(s)[k])
    ensures forall x :: x != k ==> multiset(WithoutFirst(s, k, n))[x] == multiset(s)[x]
    ensures |WithoutFirst(s, k, n)| == |s| - Min(n, multiset(s)[k])
  {
    WithoutFirstCount(s, k, n, k);
    forall x | x != k ensures multiset(WithoutFirst(s, k, n))[x] == multiset(s)[x] {
      WithoutFirstCount(s, k, n, x);
    }
    WithoutFirstLength(s, k, n);
  }

  lemma {:induction false} WithoutFirstLength(s: seq<Kind>, k: Kind, n: nat)
    ensures |WithoutFirst(s, k, n)| == |s| - Min(n, multiset(s)[k])
  {
    if s != [] {
      var h, t := s[0], s[1..];
      assert s == [h] + t;
      assert multiset(s)[k] == multiset([h])[k] + multiset(t)[k];
      if h == k && n > 0 {
        WithoutFirstLength(t, k, n - 1);
      } else {
        WithoutFirstLength(t, k, n);
      }
    }
  }

  /** The entries of other kinds keep their order: removing occurrences of
      `k` changes nothing once the `k`s are filtered out. */
  lemma {:induction false} WithoutFirstKeepsOthers(s: seq<Kind>, k: Kind, n: nat)
    ensures Others(WithoutFirst(s, k, n), k) == Others(s, k)
  {
    if s != [] {
      if s[0] == k && n > 0 {
        WithoutFirstKeepsOthers(s[1..], k, n - 1);
      } else {
        WithoutFirstKeepsOthers(s[1..], k, n);
        var w := [s[0]] + WithoutFirst(s[1..], k, n);
        assert w[0] == s[0] && w[1..] == WithoutFirst(s[1..], k, n);
      }
    }
  }

  /** The occurrences removed are the FIRST ones: if the prefix `p` holds
      exactly `n` copies of `k`, then those are the ones that go, and the
      rest of the bar after `p` is kept as it stands. */
  lemma {:induction false} WithoutFirstTakesEarliest(p: seq<Kind>, t: seq<Kind>, k: Kind)
    ensures WithoutFirst(p + t, k, multiset(p)[k]) == Others(p, k) + t
  {
    if p == [] {
      WithoutNoneIsIdentity(t, k);
      assert p + t == t;
    } else {
      assert p == [p[0]] + p[1..];
      assert (p + t)[0] == p[0] && (p + t)[1..] == p[1..] + t;
      assert multiset(p)[k] == multiset([p[0]])[k] + multiset(p[1..])[k];
      WithoutFirstTakesEarliest(p[1..], t, k);
    }
  }

  /** Once `need` reaches zero the loop copies the rest unchanged. */
  lemma {:induction false} WithoutNoneIsIdentity(s: seq<Kind>, k: Kind)
    ensures WithoutFirst(s, k, 0) == s
  {
    if s != [] {
      WithoutNoneIsIdentity(s[1..], k);
      assert s == [s[0]] + s[1..];
    }
  }

  /** After a legal match the bar holds the two matched entries no more:
      when the kind is there at least twice, exactly one pair leaves. */
  lemma ClearPairRemovesOnePair(bar: seq<Kind>, k: Kind)
    requires multiset(bar)[k] >= 2
    ensures |WithoutFirst(bar, k, 2)| == |bar| - 2
    ensures multiset(WithoutFirst(bar, k, 2)) == multiset(bar) - multiset{k, k}
  {
    WithoutFirstCounts(bar, k, 2);
    var w := WithoutFirst(bar, k, 2);
    forall x ensures multiset(w)[x] == (multiset(bar) - multiset{k, k})[x] {
    }
  }

  /** The bar after the second pick of a legal match, whose kind `k` the
      first pick left as the bar's last entry: clearing the pair takes out
      the second pick's entry and one earlier `k`, so the bar is one entry
      shorter than before the second pick and has lost one `k`. */
  lemma PairAfterPush(bar: seq<Kind>, k: Kind)
    requires |bar| > 0 && bar[|bar| - 1] == k
    ensures |WithoutFirst(bar + [k], k, 2)| == |bar| - 1
    ensures multiset(WithoutFirst(bar + [k], k, 2)) == multiset(bar) - multiset{k}
  {
    var pushed := bar + [k];
    assert pushed[|pushed| - 2] == k;
    assert multiset(pushed)[k] >= 2 by {
      assert multiset(pushed) == multiset(bar[..|bar| - 1]) + multiset{k, k} by {
        assert pushed == bar[..|bar| - 1] + [k, k];
      }
    }
    ClearPairRemovesOnePair(pushed, k);
    var w := WithoutFirst(pushed, k, 2);
    forall j ensures multiset(w)[j] == (multiset(bar) - multiset{k})[j] {
      assert multiset(pushed)[j] == (multiset(bar) + multiset{k})[j];
    }
  }
}
