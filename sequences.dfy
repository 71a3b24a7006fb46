/** Order-preserving filtering of sequences, used to state what the pool's
    eviction pass leaves behind. */
module Sequences {

  /** No element occurs twice. */
  ghost predicate Distinct<T>(s: seq<T>) {
    forall i, j :: 0 <= i < j < |s| ==> s[i] != s[j]
  }

  /** The set of elements of `s`. */
  function Elems<T>(s: seq<T>): set<T> {
    set x | x in s
  }

  /** The elements of `s` that are not in `drop`, in their original order. */
  function Without<T>(s: seq<T>, drop: set<T>): seq<T> {
    if s == [] then []
    else (if s[0] in drop then [] else [s[0]]) + Without(s[1..], drop)
  }

  /** An element survives exactly when it was in `s` and is not dropped. */
  lemma {:induction false} WithoutMembers<T>(s: seq<T>, drop: set<T>, x: T)
    ensures x in Without(s, drop) <==> x in s && x !in drop
  {
    if s != [] {
      WithoutMembers(s[1..], drop, x);
      assert s == [s[0]] + s[1..];
    }
  }

  /** Filtering never lengthens a sequence, and shortens it exactly when
      something was dropped. */
  lemma {:induction false} WithoutLength<T>(s: seq<T>, drop: set<T>)
    ensures |Without(s, drop)| <= |s|
    ensures |Without(s, drop)| == |s| <==> forall x :: x in s ==> x !in drop
  {
    if s != [] {
      WithoutLength(s[1..], drop);
      assert s == [s[0]] + s[1..];
      if s[0] !in drop && |Without(s, drop)| == |s| {
        forall x | x in s ensures x !in drop {
          if x != s[0] { assert x in s[1..]; }
        }
      }
    }
  }

  /** Filtering a suffix of `s` from position `k` looks at `s[k]` first. */
  lemma WithoutFrom<T>(s: seq<T>, k: nat, drop: set<T>)
    requires k < |s|
    ensures Without(s[k..], drop) == (if s[k] in drop then [] else [s[k]]) + Without(s[k + 1..], drop)
  {
    assert s[k..][0] == s[k] && s[k..][1..] == s[k + 1..];
  }

  /** A deque over `s` after `n` steps of a pass that looks at its last
      element and either pops it (when it is in `drop`) or rotates it to
      the front: the kept elements of the last `n`, then the rest. */
  function RotatePass<T>(s: seq<T>, drop: set<T>, n: nat): seq<T>
    requires n <= |s|
  {
    Without(s[|s| - n..], drop) + s[..|s| - n]
  }

  /** One more step of the pass looks at `s[|s| - n - 1]`, the deque's last
      element, and pops or rotates it. */
  lemma RotatePassStep<T>(s: seq<T>, drop: set<T>, n: nat)
    requires n < |s|
    ensures var d := RotatePass(s, drop, n);
            && |d| > 0 && d[|d| - 1] == s[|s| - n - 1]
            && RotatePass(s, drop, n + 1)
               == if s[|s| - n - 1] in drop then d[..|d| - 1] else [d[|d| - 1]] + d[..|d| - 1]
  {
    var k := |s| - n - 1;
    var tail := Without(s[k + 1..], drop);
    WithoutFrom(s, k, drop);
    assert s[..k + 1] == s[..k] + [s[k]];
    var d := RotatePass(s, drop, n);
    assert d == tail + s[..k] + [s[k]];
    assert d[..|d| - 1] == tail + s[..k];
  }

  /** After a step for every element, the deque holds exactly the kept
      elements in their original order. */
  lemma RotatePassComplete<T>(s: seq<T>, drop: set<T>)
    ensures RotatePass(s, drop, |s|) == Without(s, drop)
  {
    assert s[0..] == s && s[..0] == [];
  }

  /** Filtering keeps distinct sequences distinct. */
  lemma {:induction false} WithoutDistinct<T>(s: seq<T>, drop: set<T>)
    requires Distinct(s)
    ensures Distinct(Without(s, drop))
  {
    if s != [] {
      assert Distinct(s[1..]) by {
        forall i, j | 0 <= i < j < |s[1..]| ensures s[1..][i] != s[1..][j] {
          assert s[1..][i] == s[i + 1] && s[1..][j] == s[j + 1];
        }
      }
      WithoutDistinct(s[1..], drop);
      WithoutMembers(s[1..], drop, s[0]);
      assert s[0] !in s[1..] by {
        forall k | 0 <= k < |s[1..]| ensures s[1..][k] != s[0] {
          assert s[1..][k] == s[k + 1];
        }
      }
    }
  }
}
