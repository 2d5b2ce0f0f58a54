/** Small shared pieces: an option type for JavaScript's `null`, the
    `clamp` helper, the in-place Fisher-Yates `shuffle`, and facts about
    duplicate-free sequences. */
module Prelude {

  /** `null` or a value, as `topAt` and `removeTop` return. */
  datatype Option<T> = None | Some(value: T)

  /** `clamp(n, a, b)`: `Math.max(a, Math.min(b, n))`. */
  function Clamp(n: int, lo: int, hi: int): (r: int)
    ensures lo <= hi ==> lo <= r <= hi
    ensures lo <= n <= hi ==> r == n
    ensures n < lo ==> r == lo
    ensures lo <= hi < n ==> r == hi
  {
    var m := if hi < n then hi else n;
    if m < lo then lo else m
  }

  /** `Math.max(0, x)`, the score floor. */
  function FloorAtZero(x: int): (r: nat)
    ensures x <= r
    ensures r == 0 || r == x
  {
    if x < 0 then 0 else x
  }

  /** The in-place Fisher-Yates shuffle. Each `Math.random()` draw is a
      nondeterministic choice of `j` in `[0, i]`, so all that can be said of
      the result is that it is a permutation of the input. */
  method Shuffle<T>(a: array<T>)
    modifies a
    ensures multiset(a[..]) == multiset(old(a[..]))
  {
    var i := a.Length - 1;
    while i > 0
      invariant -1 <= i < a.Length
      invariant multiset(a[..]) == multiset(old(a[..]))
    {
      var j :| 0 <= j <= i;
      a[i], a[j] := a[j], a[i];
      i := i - 1;
    }
  }

  ghost predicate NoDup<T>(s: seq<T>) {
    forall i, j :: 0 <= i < j < |s| ==> s[i] != s[j]
  }

  lemma {:induction false} NoDupCountsAtMostOne<T>(s: seq<T>, x: T)
    requires NoDup(s)
    ensures multiset(s)[x] <= 1
  {
    if s != [] {
      assert s == [s[0]] + s[1..];
      assert NoDup(s[1..]) by {
        forall i, j | 0 <= i < j < |s[1..]| ensures s[1..][i] != s[1..][j] {
          assert s[1..][i] == s[i + 1] && s[1..][j] == s[j + 1];
        }
      }
      NoDupCountsAtMostOne(s[1..], x);
      if x == s[0] {
        assert x !in s[1..] by {
          forall i | 0 <= i < |s[1..]| ensures s[1..][i] != x {
            assert s[1..][i] == s[i + 1];
          }
        }
      }
    }
  }

  lemma RepeatCountsTwice<T>(s: seq<T>, i: int, j: int)
    requires 0 <= i < j < |s| && s[i] == s[j]
    ensures multiset(s)[s[i]] >= 2
  {
    var x := s[i];
    assert s == s[..i] + [x] + s[i + 1..];
    assert s[i + 1..][j - i - 1] == x;
    assert x in multiset(s[i + 1..]);
    assert multiset(s) == multiset(s[..i]) + multiset{x} + multiset(s[i + 1..]);
  }

  /** A permutation of a duplicate-free sequence is duplicate-free: the
      shuffled list of occupied cells still names each cell once. */
  lemma PermutationKeepsNoDup<T>(s: seq<T>, t: seq<T>)
    requires multiset(s) == multiset(t)
    requires NoDup(s)
    ensures NoDup(t)
  {
    forall i, j | 0 <= i < j < |t| ensures t[i] != t[j] {
      if t[i] == t[j] {
        RepeatCountsTwice(t, i, j);
        NoDupCountsAtMostOne(s, t[i]);
        assert false;
      }
    }
  }

  /** Appending an element not yet present keeps a sequence duplicate-free. */
  lemma NoDupAppend<T>(s: seq<T>, x: T)
    requires NoDup(s) && x !in s
    ensures NoDup(s + [x])
  {
  }
}
