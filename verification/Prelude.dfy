/** Shared vocabulary: optional values, results that stand for exceptions, powers of two and real sums. */
module Prelude {
  datatype Option<+T> = None | Some(value: T)

  datatype Result<+T, +E> = Ok(value: T) | Err(error: E)

  function Pow2(n: nat): (p: nat)
    ensures p >= 1
  {
    if n == 0 then 1 else 2 * Pow2(n - 1)
  }

  lemma {:induction false} Pow2Monotone(m: nat, n: nat)
    requires m <= n
    ensures Pow2(m) <= Pow2(n)
    decreases n
  {
    if m >= n {
    } else {
      Pow2Monotone(m, n - 1);
    }
  }

  function Min(a: int, b: int): int { if a < b then a else b }

  function Max(a: int, b: int): int { if a > b then a else b }

  function AbsR(x: real): real { if x < 0.0 then -x else x }

  function MinR(a: real, b: real): real { if a < b then a else b }

  function MaxR(a: real, b: real): real { if a > b then a else b }

  /** A sequence slice `s[:n]` with Python's meaning, including negative `n`. */
  function Head<T>(s: seq<T>, n: int): seq<T> {
    if n >= |s| then s else if n >= 0 then s[..n] else s[..Max(0, |s| + n)]
  }

  /** The sum of `s`, folded from the left as an accumulating loop does. */
  function Sum(s: seq<real>): real {
    if s == [] then 0.0 else Sum(s[..|s| - 1]) + s[|s| - 1]
  }

  ghost predicate Distinct<T>(s: seq<T>) {
    forall i, j :: 0 <= i < j < |s| ==> s[i] != s[j]
  }

  /** An arbitrary element, as taken when a set or dictionary is iterated. */
  method Pick<T(==)>(s: set<T>) returns (x: T)
    requires s != {}
    ensures x in s
  {
    x :| x in s;
  }

  // ---- counting places ----

  /** At how many places `p` holds. */
  function CountOf<T>(s: seq<T>, p: T -> bool): nat {
    |set i | 0 <= i < |s| && p(s[i])|
  }

  lemma CountMore<T>(s: seq<T>, p: T -> bool)
    requires s != []
    ensures CountOf(s, p) == CountOf(s[..|s| - 1], p) + if p(s[|s| - 1]) then 1 else 0
  {
    var n := |s| - 1;
    var all, before := set i | 0 <= i < |s| && p(s[i]), set i | 0 <= i < n && p(s[..n][i]);
    assert all == before + if p(s[n]) then {n} else {};
  }

  lemma CountNone<T>(s: seq<T>, p: T -> bool)
    requires s == []
    ensures CountOf(s, p) == 0
  {
    var all := set i | 0 <= i < |s| && p(s[i]);
    assert all == {};
  }

  // ---- taking one element out of a sequence ----

  function Without<T>(s: seq<T>, k: nat): (r: seq<T>)
    requires k < |s|
  {
    s[..k] + s[k + 1..]
  }

  lemma WithoutIsLess<T>(s: seq<T>, k: nat)
    requires k < |s|
    ensures multiset(s) == multiset(Without(s, k)) + multiset{s[k]}
  {
    assert s == s[..k] + [s[k]] + s[k + 1..];
  }

  lemma WithoutFront<T>(s: seq<T>, k: nat)
    requires k < |s|
    ensures k == |s| - 1 ==> Without(s, k) == s[..|s| - 1]
    ensures k < |s| - 1 ==>
      Without(s, k) == Without(s[..|s| - 1], k) + [s[|s| - 1]] &&
      Without(s, k)[..|s| - 2] == Without(s[..|s| - 1], k)
  {
  }

  lemma CancelOne<T>(a: multiset<T>, b: multiset<T>, x: T)
    requires a + multiset{x} == b + multiset{x}
    ensures a == b
  {
    assert a == (a + multiset{x}) - multiset{x};
    assert b == (b + multiset{x}) - multiset{x};
  }

  lemma DropCommon<T>(a: multiset<T>, b: multiset<T>, x: T)
    requires a + multiset{x} <= b + multiset{x}
    ensures a <= b
  {
    forall y ensures a[y] <= b[y] {
      assert (a + multiset{x})[y] <= (b + multiset{x})[y];
    }
  }

  lemma DropAbsent<T>(a: multiset<T>, b: multiset<T>, y: T)
    requires a <= b + multiset{y} && y !in a
    ensures a <= b
  {
    forall z ensures a[z] <= b[z] {
      assert a[z] <= (b + multiset{y})[z];
    }
  }

  /** Same elements with the same multiplicities: the last of `s` can be found in `t`, and both shrink. */
  lemma MatchLast<T>(s: seq<T>, t: seq<T>) returns (k: nat)
    requires s != [] && multiset(s) == multiset(t)
    ensures k < |t| && t[k] == s[|s| - 1]
    ensures multiset(s[..|s| - 1]) == multiset(Without(t, k)) && |s| == |t|
  {
    var n := |s| - 1;
    assert s == s[..n] + [s[n]];
    assert s[n] in multiset(t);
    assert |multiset(s)| == |multiset(t)|;
    k :| 0 <= k < |t| && t[k] == s[n];
    WithoutIsLess(t, k);
    CancelOne(multiset(s[..n]), multiset(Without(t, k)), s[n]);
  }

  // ---- folds ----

  /** `for x in s: a = f(a, x)`. */
  function Fold<A, T>(f: (A, T) -> A, a: A, s: seq<T>): A {
    if s == [] then a else f(Fold(f, a, s[..|s| - 1]), s[|s| - 1])
  }

  lemma FoldOneMore<A, T>(f: (A, T) -> A, a: A, s: seq<T>, x: T)
    ensures Fold(f, a, s + [x]) == f(Fold(f, a, s), x)
  {
    assert (s + [x])[..|s|] == s;
  }

  ghost predicate Commutes<A(!new), T(!new)>(f: (A, T) -> A) {
    forall a, x, y :: f(f(a, x), y) == f(f(a, y), x)
  }

  lemma {:induction false} FoldTakesAnyLast<A(!new), T(!new)>(f: (A, T) -> A, a: A, s: seq<T>, k: nat)
    requires Commutes(f) && k < |s|
    ensures Fold(f, a, s) == f(Fold(f, a, Without(s, k)), s[k])
  {
    WithoutFront(s, k);
    if k >= |s| - 1 {
    } else {
      var front := s[..|s| - 1];
      FoldTakesAnyLast(f, a, front, k);
      assert Without(s, k) == Without(front, k) + [s[|s| - 1]];
    }
  }

  /** A fold whose steps commute does not depend on the order of the elements. */
  lemma {:induction false} FoldIgnoresOrder<A(!new), T(!new)>(f: (A, T) -> A, a: A, s: seq<T>, t: seq<T>)
    requires Commutes(f) && multiset(s) == multiset(t)
    ensures Fold(f, a, s) == Fold(f, a, t)
  {
    if s == [] {
      assert |multiset(t)| == 0;
    } else {
      var k := MatchLast(s, t);
      FoldIgnoresOrder(f, a, s[..|s| - 1], Without(t, k));
      FoldTakesAnyLast(f, a, t, k);
    }
  }
}
