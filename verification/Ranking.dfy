/** metrics.py: NDCG over graded labels. The discount is any positive, strictly decreasing sequence, as
    1/log2(rank + 1) is; values are exact, before rounding. */
module Ranking {
  import opened Prelude
  import opened RealFacts

  type Id = int

  /** The label dictionary, with the order its items are listed in. */
  datatype Labels = Labels(ids: seq<Id>, grade: map<Id, nat>)

  ghost predicate Valid(labels: Labels) {
    Distinct(labels.ids) && forall x :: x in labels.ids <==> x in labels.grade
  }

  type Discount = nat -> real

  predicate Drops(d: Discount, i: nat) {
    d(i) > d(i + 1) > 0.0
  }

  ghost predicate Decreasing(d: Discount) {
    forall i: nat {:trigger Drops(d, i)} :: Drops(d, i)
  }

  function Gain(grade: nat): real {
    (Pow2(grade) - 1) as real
  }

  function GainOf(labels: Labels, id: Id): real {
    Gain(if id in labels.grade then labels.grade[id] else 0)
  }

  function Gains(labels: Labels, ids: seq<Id>): seq<real> {
    if ids == [] then [] else Gains(labels, ids[..|ids| - 1]) + [GainOf(labels, ids[|ids| - 1])]
  }

  function Dcg(d: Discount, gains: seq<real>): real {
    if gains == [] then 0.0
    else Dcg(d, gains[..|gains| - 1]) + gains[|gains| - 1] * d(|gains| - 1)
  }

  function InsertDescending(s: seq<real>, x: real): seq<real> {
    if s == [] then [x]
    else if x > s[|s| - 1] then InsertDescending(s[..|s| - 1], x) + [s[|s| - 1]]
    else s + [x]
  }

  /** `sorted(..., reverse=True)`. */
  function Descending(s: seq<real>): seq<real> {
    if s == [] then [] else InsertDescending(Descending(s[..|s| - 1]), s[|s| - 1])
  }

  function Ideal(labels: Labels): seq<real> {
    Descending(Gains(labels, labels.ids))
  }

  /** The unrounded score. */
  function NdcgAtK(d: Discount, ranked: seq<Id>, labels: Labels, k: int): real {
    if labels.ids == [] then 0.0
    else
      var ideal := Dcg(d, Head(Ideal(labels), k));
      if ideal != 0.0 then Dcg(d, Head(Gains(labels, ranked), k)) / ideal else 0.0
  }

  // ---- descending order and largest sums ----

  ghost predicate IsDescending(s: seq<real>) {
    forall i, j :: 0 <= i < j < |s| ==> s[i] >= s[j]
  }

  ghost predicate NonNegative(s: seq<real>) {
    forall i :: 0 <= i < |s| ==> s[i] >= 0.0
  }

  lemma {:induction false} InsertedElements(s: seq<real>, x: real)
    ensures multiset(InsertDescending(s, x)) == multiset(s) + multiset{x}
  {
    if s == [] || x <= s[|s| - 1] {
    } else {
      assert s == s[..|s| - 1] + [s[|s| - 1]];
      InsertedElements(s[..|s| - 1], x);
    }
  }

  lemma {:induction false} InsertedOrder(s: seq<real>, x: real)
    requires IsDescending(s)
    ensures IsDescending(InsertDescending(s, x))
  {
    if s == [] || x <= s[|s| - 1] {
    } else {
      var front, last := s[..|s| - 1], s[|s| - 1];
      InsertedOrder(front, x);
      InsertedElements(front, x);
      var t := InsertDescending(front, x);
      forall i | 0 <= i < |t| ensures t[i] >= last {
        assert t[i] in multiset(t);
        assert t[i] in front || t[i] == x;
      }
    }
  }

  lemma {:induction false} SortedGains(s: seq<real>)
    ensures multiset(Descending(s)) == multiset(s) && IsDescending(Descending(s))
  {
    if s == [] {
    } else {
      var front := s[..|s| - 1];
      assert s == front + [s[|s| - 1]];
      SortedGains(front);
      InsertedElements(Descending(front), s[|s| - 1]);
      InsertedOrder(Descending(front), s[|s| - 1]);
    }
  }

  lemma {:induction false} SumWithout(s: seq<real>, k: nat)
    requires k < |s|
    ensures Sum(s) == Sum(Without(s, k)) + s[k]
  {
    WithoutFront(s, k);
    if k >= |s| - 1 {
    } else {
      SumWithout(s[..|s| - 1], k);
      hide Without;
    }
  }

  ghost predicate Among(g: seq<real>, s: seq<real>) {
    multiset(g) <= multiset(s)
  }

  lemma AmongWithout(g: seq<real>, k: nat, s: seq<real>)
    requires k < |g| && s != [] && g[k] == s[|s| - 1] && Among(g, s)
    ensures Among(Without(g, k), s[..|s| - 1])
  {
    WithoutIsLess(g, k);
    assert s == s[..|s| - 1] + [s[|s| - 1]];
    DropCommon(multiset(Without(g, k)), multiset(s[..|s| - 1]), g[k]);
  }

  lemma AmongFront(g: seq<real>, s: seq<real>)
    requires s != [] && s[|s| - 1] !in g && Among(g, s)
    ensures Among(g, s[..|s| - 1])
  {
    assert s == s[..|s| - 1] + [s[|s| - 1]];
    DropAbsent(multiset(g), multiset(s[..|s| - 1]), s[|s| - 1]);
  }

  lemma AmongNothing(g: seq<real>)
    requires Among(g, [])
    ensures g == []
  {
    assert |multiset(g)| == |g|;
    assert multiset(g) == multiset{};
  }

  /** No choice of members beats the leading ones of a descending sequence. */
  lemma {:induction false} LeadingSumIsLargest(g: seq<real>, s: seq<real>)
    requires IsDescending(s) && Among(g, s)
    ensures |g| <= |s| && Sum(g) <= Sum(s[..|g|])
    decreases |s|
  {
    hide Among, Without;
    if s == [] {
      AmongNothing(g);
    } else {
      var n := |s| - 1;
      var front := s[..n];
      if s[n] in g {
        var k :| 0 <= k < |g| && g[k] == s[n];
        var h := Without(g, k);
        AmongWithout(g, k, s);
        SumWithout(g, k);
        LeadingSumIsLargest(h, front);
        WithoutLength(g, k);
        NextInLine(s, |h|);
        assert front[..|h|] == s[..|h|];
      } else {
        AmongFront(g, s);
        LeadingSumIsLargest(g, front);
        assert front[..|g|] == s[..|g|];
      }
    }
  }

  lemma WithoutLength(g: seq<real>, k: nat)
    requires k < |g|
    ensures |Without(g, k)| == |g| - 1
  {
  }

  lemma NextInLine(s: seq<real>, m: nat)
    requires m < |s| && IsDescending(s)
    ensures Sum(s[..m + 1]) == Sum(s[..m]) + s[m] && s[m] >= s[|s| - 1]
  {
    assert s[..m + 1][..m] == s[..m];
  }

  // ---- summation by parts ----

  function At(s: seq<real>, i: nat): real {
    if i < |s| then s[i] else 0.0
  }

  function SumTo(s: seq<real>, n: nat): real {
    if n == 0 then 0.0 else SumTo(s, n - 1) + At(s, n - 1)
  }

  function DcgTo(d: Discount, s: seq<real>, n: nat): real {
    if n == 0 then 0.0 else DcgTo(d, s, n - 1) + At(s, n - 1) * d(n - 1)
  }

  lemma {:induction false} SumToPrefix(s: seq<real>, n: nat)
    ensures SumTo(s, n) == if n <= |s| then Sum(s[..n]) else Sum(s)
  {
    if n == 0 {
    } else {
      SumToPrefix(s, n - 1);
      if n <= |s| {
        assert s[..n][..n - 1] == s[..n - 1];
      } else {
        assert s[..|s|] == s;
      }
    }
  }

  lemma {:induction false} DcgToPrefix(d: Discount, s: seq<real>, n: nat)
    ensures DcgTo(d, s, n) == if n <= |s| then Dcg(d, s[..n]) else Dcg(d, s)
  {
    if n == 0 {
    } else {
      DcgToPrefix(d, s, n - 1);
      if n <= |s| {
        assert s[..n][..n - 1] == s[..n - 1];
      } else {
        assert s[..|s|] == s;
      }
    }
  }

  lemma StepUp(x: real, a: real, b: real, y: real)
    requires x >= 0.0 && a >= b
    ensures x * a + y * b >= (x + y) * b
    ensures x > 0.0 && a > b ==> x * a + y * b > (x + y) * b
  {
    assert x * a >= x * b;
    assert (x + y) * b == x * b + y * b;
  }

  ghost predicate Dominated(g: seq<real>, s: seq<real>, n: nat) {
    forall t: nat {:trigger SumTo(g, t)} :: t <= n ==> SumTo(g, t) <= SumTo(s, t)
  }

  /** Summation by parts: the discounted gap is at least the last undiscounted gap at the last discount. */
  lemma {:induction false} DiscountedGap(d: Discount, g: seq<real>, s: seq<real>, n: nat)
    requires Decreasing(d) && Dominated(g, s, n)
    ensures n > 0 ==> DcgTo(d, s, n) - DcgTo(d, g, n) >= (SumTo(s, n) - SumTo(g, n)) * d(n - 1)
  {
    if n <= 1 {
    } else {
      DiscountedGap(d, g, s, n - 1);
      assert SumTo(g, n - 1) <= SumTo(s, n - 1);
      assert Drops(d, n - 2);
      StepUp(SumTo(s, n - 1) - SumTo(g, n - 1), d(n - 2), d(n - 1), At(s, n - 1) - At(g, n - 1));
    }
  }

  /** If every prefix sum of `g` is at most that of `s`, so is the discounted sum. */
  lemma DominatedDcg(d: Discount, g: seq<real>, s: seq<real>, n: nat)
    requires Decreasing(d) && Dominated(g, s, n)
    ensures DcgTo(d, g, n) <= DcgTo(d, s, n)
  {
    if n > 0 {
      DiscountedGap(d, g, s, n);
      assert SumTo(g, n) <= SumTo(s, n) && Drops(d, n - 1);
      Product(SumTo(s, n) - SumTo(g, n), d(n - 1));
    }
  }

  lemma Product(x: real, y: real)
    requires x >= 0.0 && y > 0.0
    ensures x * y >= 0.0 && (x > 0.0 ==> x * y > 0.0)
  {
  }

  lemma NoSlack(x: real, a: real, b: real, y: real)
    requires x >= 0.0 && a > b && x + y == 0.0 && x * a + y * b <= 0.0
    ensures x == 0.0
  {
    assert y * b == 0.0 - x * b;
    assert x * (a - b) == x * a - x * b;
    NonNegativeProduct(x, a - b);
    ZeroFactor(x, a - b);
  }

  /** Equal discounted sums force equal prefix sums: the discount is strict. */
  lemma {:induction false} EqualDcgEqualSums(d: Discount, g: seq<real>, s: seq<real>, n: nat)
    requires Decreasing(d) && Dominated(g, s, n) && DcgTo(d, g, n) == DcgTo(d, s, n)
    ensures forall t: nat :: t <= n ==> SumTo(g, t) == SumTo(s, t)
  {
    if n == 0 {
    } else {
      assert SumTo(g, n) <= SumTo(s, n) && Drops(d, n - 1);
      DiscountedGap(d, g, s, n);
      ZeroFactor(SumTo(s, n) - SumTo(g, n), d(n - 1));
      var x, y := SumTo(s, n - 1) - SumTo(g, n - 1), At(s, n - 1) - At(g, n - 1);
      assert y * d(n - 1) == At(s, n - 1) * d(n - 1) - At(g, n - 1) * d(n - 1);
      if n > 1 {
        DiscountedGap(d, g, s, n - 1);
        assert SumTo(g, n - 1) <= SumTo(s, n - 1) && Drops(d, n - 2);
        NoSlack(x, d(n - 2), d(n - 1), y);
      }
      EqualDcgEqualSums(d, g, s, n - 1);
    }
  }

  // ---- the ranking's gains are a choice among the label gains ----

  function Filter(labels: Labels, ids: seq<Id>): seq<Id> {
    if ids == [] then []
    else
      var last := ids[|ids| - 1];
      Filter(labels, ids[..|ids| - 1]) + if last in labels.grade then [last] else []
  }

  lemma {:induction false} FilterFacts(labels: Labels, ids: seq<Id>)
    ensures |Filter(labels, ids)| <= |ids|
    ensures forall i :: 0 <= i < |Filter(labels, ids)| ==>
      Filter(labels, ids)[i] in ids && Filter(labels, ids)[i] in labels.grade
    ensures Distinct(ids) ==> Distinct(Filter(labels, ids))
  {
    if ids == [] {
    } else {
      var front, last := ids[..|ids| - 1], ids[|ids| - 1];
      FilterFacts(labels, front);
      assert ids == front + [last];
      assert Distinct(ids) ==> last !in front;
    }
  }

  lemma {:induction false} FilterKeepsSum(labels: Labels, ids: seq<Id>)
    ensures Sum(Gains(labels, ids)) == Sum(Gains(labels, Filter(labels, ids)))
  {
    if ids == [] {
    } else {
      var front, last := ids[..|ids| - 1], ids[|ids| - 1];
      assert ids == front + [last];
      FilterKeepsSum(labels, front);
      GainsSnoc(labels, front, last);
      GainsSnoc(labels, Filter(labels, front), last);
      assert Filter(labels, front) + [] == Filter(labels, front);
    }
  }

  lemma GainsSnoc(labels: Labels, ids: seq<Id>, last: Id)
    ensures Gains(labels, ids + [last]) == Gains(labels, ids) + [GainOf(labels, last)]
    ensures Sum(Gains(labels, ids + [last])) == Sum(Gains(labels, ids)) + GainOf(labels, last)
  {
    assert (ids + [last])[..|ids|] == ids;
    assert (Gains(labels, ids) + [GainOf(labels, last)])[..|Gains(labels, ids)|] == Gains(labels, ids);
  }

  lemma {:induction false} GainsLength(labels: Labels, ids: seq<Id>)
    ensures |Gains(labels, ids)| == |ids|
    ensures forall i :: 0 <= i < |ids| ==> Gains(labels, ids)[i] == GainOf(labels, ids[i]) >= 0.0
  {
    if ids == [] {
    } else {
      GainsLength(labels, ids[..|ids| - 1]);
    }
  }

  lemma {:induction false} GainsPrefix(labels: Labels, ids: seq<Id>, n: nat)
    requires n <= |ids|
    ensures |Gains(labels, ids)| == |ids| && Gains(labels, ids)[..n] == Gains(labels, ids[..n])
  {
    GainsLength(labels, ids);
    GainsLength(labels, ids[..n]);
  }

  lemma GainsWithout(labels: Labels, ids: seq<Id>, k: nat)
    requires k < |ids|
    ensures multiset(Gains(labels, ids)) ==
            multiset(Gains(labels, Without(ids, k))) + multiset{GainOf(labels, ids[k])}
  {
    var gains := Gains(labels, ids);
    GainsLength(labels, ids);
    GainsLength(labels, Without(ids, k));
    hide Gains;
    assert Gains(labels, Without(ids, k)) == Without(gains, k);
    WithoutIsLess(gains, k);
  }

  ghost predicate DrawnFrom(chosen: seq<Id>, ids: seq<Id>) {
    Distinct(chosen) && forall i :: 0 <= i < |chosen| ==> chosen[i] in ids
  }

  lemma DrawnFront(chosen: seq<Id>, ids: seq<Id>, k: nat)
    requires chosen != [] && DrawnFrom(chosen, ids) && k < |ids| && ids[k] == chosen[|chosen| - 1]
    ensures DrawnFrom(chosen[..|chosen| - 1], Without(ids, k))
  {
    var rest, front := Without(ids, k), chosen[..|chosen| - 1];
    forall i | 0 <= i < |front| ensures front[i] in rest {
      assert chosen[i] in ids;
      var j :| 0 <= j < |ids| && ids[j] == chosen[i];
      assert front[i] == if j < k then rest[j] else rest[j - 1];
    }
  }

  /** Distinct ids drawn from a list contribute no more gains than the list holds. */
  lemma {:induction false} ChosenGains(labels: Labels, chosen: seq<Id>, ids: seq<Id>)
    requires DrawnFrom(chosen, ids)
    ensures multiset(Gains(labels, chosen)) <= multiset(Gains(labels, ids))
    decreases |chosen|
  {
    if chosen == [] {
    } else {
      var n := |chosen| - 1;
      assert chosen[n] in ids;
      var k :| 0 <= k < |ids| && ids[k] == chosen[n];
      DrawnFront(chosen, ids, k);
      ChosenGains(labels, chosen[..n], Without(ids, k));
      WithoutFront(chosen, n);
      hide Without, DrawnFrom, Gains;
      GainsWithout(labels, ids, k);
      GainsWithout(labels, chosen, n);
      AddCommon(multiset(Gains(labels, chosen[..n])), multiset(Gains(labels, Without(ids, k))), GainOf(labels, ids[k]));
    }
  }

  lemma AddCommon<T>(a: multiset<T>, b: multiset<T>, x: T)
    requires a <= b
    ensures a + multiset{x} <= b + multiset{x}
  {
  }

  lemma {:induction false} LongerPrefixSum(s: seq<real>, m: nat, n: nat)
    requires m <= n <= |s| && NonNegative(s)
    ensures Sum(s[..m]) <= Sum(s[..n])
    decreases n
  {
    if m >= n {
    } else {
      LongerPrefixSum(s, m, n - 1);
      assert s[..n][..n - 1] == s[..n - 1];
    }
  }

  lemma IdealFacts(labels: Labels)
    ensures |Ideal(labels)| == |labels.ids| && IsDescending(Ideal(labels)) && NonNegative(Ideal(labels))
    ensures multiset(Ideal(labels)) == multiset(Gains(labels, labels.ids))
  {
    var raw, ideal := Gains(labels, labels.ids), Ideal(labels);
    GainsLength(labels, labels.ids);
    SortedGains(raw);
    assert |multiset(ideal)| == |ideal| && |multiset(raw)| == |raw|;
    forall i | 0 <= i < |ideal| ensures ideal[i] >= 0.0 {
      assert ideal[i] in multiset(ideal);
      assert ideal[i] in raw;
    }
  }

  lemma PrefixDominated(labels: Labels, ranked: seq<Id>, t: nat)
    requires Valid(labels) && Distinct(ranked) && t <= |ranked|
    ensures Sum(Gains(labels, ranked[..t])) <=
            Sum(Ideal(labels)[..if t <= |Ideal(labels)| then t else |Ideal(labels)|])
  {
    hide Gains, Descending;
    var top, ideal := ranked[..t], Ideal(labels);
    FilterFacts(labels, top);
    FilterKeepsSum(labels, top);
    var chosen := Filter(labels, top);
    forall i | 0 <= i < |chosen| ensures chosen[i] in labels.ids {
      var x := chosen[i];
      assert x in labels.grade;
      assert x in labels.ids;
    }
    ChosenGains(labels, chosen, labels.ids);
    IdealFacts(labels);
    assert Among(Gains(labels, chosen), ideal);
    LeadingSumIsLargest(Gains(labels, chosen), ideal);
    GainsLength(labels, chosen);
    LongerPrefixSum(ideal, |chosen|, if t <= |ideal| then t else |ideal|);
  }

  lemma RankingDominated(labels: Labels, ranked: seq<Id>, n: nat)
    requires Valid(labels) && Distinct(ranked)
    ensures Dominated(Gains(labels, ranked), Ideal(labels), n)
  {
    hide Gains, Descending, Sum, SumTo;
    var g, s := Gains(labels, ranked), Ideal(labels);
    GainsLength(labels, ranked);
    forall t: nat | t <= n ensures SumTo(g, t) <= SumTo(s, t) {
      SumToPrefix(g, t);
      SumToPrefix(s, t);
      var m := if t <= |ranked| then t else |ranked|;
      PrefixDominated(labels, ranked, m);
      GainsPrefix(labels, ranked, m);
      assert ranked[..|ranked|] == ranked && g[..|g|] == g && s[..|s|] == s;
      IdealFacts(labels);
      var a, b := if m <= |s| then m else |s|, if t <= |s| then t else |s|;
      LongerPrefixSum(s, a, b);
    }
  }

  lemma HeadIsDcgTo(d: Discount, s: seq<real>, k: nat)
    ensures Dcg(d, Head(s, k)) == DcgTo(d, s, k)
  {
    DcgToPrefix(d, s, k);
    assert s[..|s|] == s;
  }

  /** For every ranking without repetitions, every labelling and every non-negative cut-off, the score is
      at most 1; and it is never negative. */
  lemma NdcgAtMostOne(d: Discount, ranked: seq<Id>, labels: Labels, k: nat)
    requires Decreasing(d) && Valid(labels) && Distinct(ranked)
    ensures 0.0 <= NdcgAtK(d, ranked, labels, k) <= 1.0
  {
    if labels.ids != [] {
      var g, s := Gains(labels, ranked), Ideal(labels);
      HeadIsDcgTo(d, g, k);
      HeadIsDcgTo(d, s, k);
      RankingDominated(labels, ranked, k);
      DominatedDcg(d, g, s, k);
      GainsLength(labels, ranked);
      DcgNonNegative(d, g, k);
      Ratio(DcgTo(d, g, k), DcgTo(d, s, k));
    }
  }

  lemma {:induction false} DcgNonNegative(d: Discount, s: seq<real>, n: nat)
    requires Decreasing(d) && NonNegative(s)
    ensures DcgTo(d, s, n) >= 0.0
  {
    if n == 0 {
    } else {
      DcgNonNegative(d, s, n - 1);
      assert Drops(d, n - 1);
      Product(At(s, n - 1), d(n - 1));
    }
  }

  lemma Ratio(x: real, y: real)
    requires 0.0 <= x <= y
    ensures y != 0.0 ==> 0.0 <= x / y <= 1.0 && (x / y == 1.0 <==> x == y)
  {
  }

  /** Some label has a positive grade. */
  predicate SomeGraded(labels: Labels) {
    exists id :: id in labels.grade && labels.grade[id] > 0
  }

  lemma PositiveGain(grade: nat)
    ensures Gain(grade) > 0.0 <==> grade > 0
  {
  }

  lemma {:induction false} FirstTermCounts(d: Discount, s: seq<real>, n: nat)
    requires Decreasing(d) && NonNegative(s) && n > 0
    ensures DcgTo(d, s, n) >= At(s, 0) * d(0)
  {
    if n == 1 {
      assert DcgTo(d, s, 0) == 0.0;
    } else {
      FirstTermCounts(d, s, n - 1);
      assert Drops(d, n - 1);
      Product(At(s, n - 1), d(n - 1));
    }
  }

  lemma {:induction false} NothingCounts(d: Discount, s: seq<real>, n: nat)
    requires forall i :: 0 <= i < |s| ==> s[i] == 0.0
    ensures DcgTo(d, s, n) == 0.0
  {
    if n == 0 {
    } else {
      NothingCounts(d, s, n - 1);
    }
  }

  /** A label is graded exactly when some gain is positive. */
  lemma GradedGain(labels: Labels)
    requires Valid(labels)
    ensures SomeGraded(labels) <==> exists x :: x in Gains(labels, labels.ids) && x > 0.0
  {
    hide Gains, Gain, Distinct;
    var own := Gains(labels, labels.ids);
    GainsLength(labels, labels.ids);
    if id :| id in labels.grade && labels.grade[id] > 0 {
      var i :| 0 <= i < |labels.ids| && labels.ids[i] == id;
      PositiveGain(labels.grade[id]);
      assert own[i] in own;
    }
    if i :| 0 <= i < |own| && own[i] > 0.0 {
      assert labels.ids[i] in labels.grade;
      PositiveGain(labels.grade[labels.ids[i]]);
    }
  }

  lemma SameElements<T>(s: seq<T>, t: seq<T>, x: T)
    requires multiset(s) == multiset(t)
    ensures x in s <==> x in t
  {
    assert x in s <==> x in multiset(s);
    assert x in t <==> x in multiset(t);
  }

  /** The ideal is worth something exactly when the cut-off keeps a place and some label is graded. */
  lemma IdealWorthIff(d: Discount, labels: Labels, k: nat)
    requires Decreasing(d) && Valid(labels)
    ensures DcgTo(d, Ideal(labels), k) != 0.0 <==> k > 0 && SomeGraded(labels)
  {
    hide Gains, Descending, DcgTo, Ideal, SomeGraded, Valid;
    var own, s := Gains(labels, labels.ids), Ideal(labels);
    GradedGain(labels);
    IdealFacts(labels);
    forall x ensures x in s <==> x in own {
      SameElements(s, own, x);
    }
    if k == 0 {
      NothingCounts(d, [], 0);
      SameTermsSameDcg(d, s, [], 0);
    } else if SomeGraded(labels) {
      var x :| x in own && x > 0.0;
      assert x in s;
      assert s[0] >= x;
      assert Drops(d, 0);
      FirstTermCounts(d, s, k);
      Product(s[0], d(0));
    } else {
      assert forall i :: 0 <= i < |s| ==> s[i] in s;
      NothingCounts(d, s, k);
    }
  }

  /** The score is 1 exactly when the cut-off keeps a place, some label is graded, and the first k gains are the k
      largest, largest first. */
  lemma NdcgIsOneIff(d: Discount, ranked: seq<Id>, labels: Labels, k: nat)
    requires Decreasing(d) && Valid(labels) && Distinct(ranked)
    ensures NdcgAtK(d, ranked, labels, k) == 1.0 <==>
            k > 0 && SomeGraded(labels) &&
            forall i: nat :: i < k ==> At(Gains(labels, ranked), i) == At(Ideal(labels), i)
  {
    assert SomeGraded(labels) ==> labels.ids != [];
    hide Gains, Descending, DcgTo, Dcg, Dominated, Drops, SomeGraded;
    var g, s := Gains(labels, ranked), Ideal(labels);
    IdealWorthIff(d, labels, k);
    HeadIsDcgTo(d, g, k);
    HeadIsDcgTo(d, s, k);
    RankingDominated(labels, ranked, k);
    DominatedDcg(d, g, s, k);
    GainsLength(labels, ranked);
    DcgNonNegative(d, g, k);
    Ratio(DcgTo(d, g, k), DcgTo(d, s, k));
    if DcgTo(d, g, k) == DcgTo(d, s, k) {
      EqualDcgEqualSums(d, g, s, k);
      EqualSumsEqualTerms(g, s, k);
    } else if forall i: nat :: i < k ==> At(g, i) == At(s, i) {
      SameTermsSameDcg(d, g, s, k);
    }
  }

  lemma EqualSumsEqualTerms(g: seq<real>, s: seq<real>, k: nat)
    requires forall t: nat :: t <= k ==> SumTo(g, t) == SumTo(s, t)
    ensures forall i: nat :: i < k ==> At(g, i) == At(s, i)
  {
    forall i: nat | i < k ensures At(g, i) == At(s, i) {
      assert SumTo(g, i + 1) == SumTo(s, i + 1) && SumTo(g, i) == SumTo(s, i);
    }
  }

  lemma {:induction false} SameTermsSameDcg(d: Discount, g: seq<real>, s: seq<real>, n: nat)
    requires forall i: nat :: i < n ==> At(g, i) == At(s, i)
    ensures DcgTo(d, g, n) == DcgTo(d, s, n)
  {
    if n == 0 {
    } else {
      SameTermsSameDcg(d, g, s, n - 1);
    }
  }

  // ---- negative cut-offs: a slice counts from the end, and the bound is lost ----

  function Upto(n: nat): seq<Id> {
    seq(n, i => i)
  }

  /** `n` labels, all of grade 1. */
  function AllGood(n: nat): Labels {
    Labels(Upto(n), map x | x in Upto(n) :: 1)
  }

  lemma {:induction false} EqualGains(s: seq<real>, x: real)
    requires forall i :: 0 <= i < |s| ==> s[i] == x
    ensures Descending(s) == s
  {
    if s == [] {
    } else {
      EqualGains(s[..|s| - 1], x);
    }
  }

  lemma AllGoodGains(n: nat, m: nat)
    requires n >= 1
    ensures Valid(AllGood(n)) && Distinct(Upto(m))
    ensures |Gains(AllGood(n), Upto(m))| == m
    ensures forall i :: 0 <= i < m && i < n ==> Gains(AllGood(n), Upto(m))[i] == 1.0
  {
    GainsLength(AllGood(n), Upto(m));
    forall i | 0 <= i < m && i < n ensures GainOf(AllGood(n), Upto(m)[i]) == 1.0 {
      assert Upto(n)[i] == i;
      assert i in Upto(n);
    }
  }

  /** A negative cut-off drops that many entries from either list: with one label more than it drops,
      and a ranking one longer still, two gains face an ideal of one. */
  lemma NegativeCutoffExceedsOne(d: Discount, k: int)
    requires Decreasing(d) && k < 0
    ensures Valid(AllGood(1 - k)) && Distinct(Upto(2 - k))
    ensures NdcgAtK(d, Upto(2 - k), AllGood(1 - k), k) > 1.0
  {
    hide Gains, Dcg, Upto, Descending;
    var labels, ranked := AllGood(1 - k), Upto(2 - k);
    AllGoodGains(1 - k, 2 - k);
    AllGoodGains(1 - k, 1 - k);
    EqualGains(Gains(labels, labels.ids), 1.0);
    var g, s := Head(Gains(labels, ranked), k), Head(Ideal(labels), k);
    assert |g| == 2 && |s| == 1 && g[0] == 1.0 && g[1] == 1.0 && s[0] == 1.0;
    TwoTerms(d, g, s);
    assert Drops(d, 0);
    AboveOne(d(0), d(1));
    LongEnough(1 - k);
  }

  lemma LongEnough(n: nat)
    ensures |Upto(n)| == n
  {
  }

  lemma TwoTerms(d: Discount, g: seq<real>, s: seq<real>)
    requires |g| == 2 && |s| == 1 && g[0] == 1.0 && g[1] == 1.0 && s[0] == 1.0
    ensures Dcg(d, s) == d(0) && Dcg(d, g) == d(0) + d(1)
  {
    assert s[..0] == [] && g[..1] == s;
    assert Dcg(d, s) == Dcg(d, []) + 1.0 * d(0);
  }

  lemma AboveOne(x: real, y: real)
    requires x > 0.0 && y > 0.0
    ensures (x + y) / x > 1.0
  {
  }

  ghost predicate NeverAboveOne(d: Discount, k: int) {
    forall ranked: seq<Id>, labels: Labels :: Valid(labels) && Distinct(ranked) ==> NdcgAtK(d, ranked, labels, k) <= 1.0
  }

  /** The bound holds for a cut-off exactly when the cut-off is not negative. */
  lemma BoundHoldsIffCutoffNotNegative(d: Discount, k: int)
    requires Decreasing(d)
    ensures NeverAboveOne(d, k) <==> k >= 0
  {
    if k >= 0 {
      forall ranked: seq<Id>, labels: Labels | Valid(labels) && Distinct(ranked)
        ensures NdcgAtK(d, ranked, labels, k) <= 1.0
      {
        NdcgAtMostOne(d, ranked, labels, k);
      }
    } else {
      NegativeCutoffExceedsOne(d, k);
    }
  }

  // ---- gains and places ----

  /** Grades earn 0, 1, 3, 7 and so on, and an item without a label earns nothing. */
  lemma GainsAreExact(labels: Labels, id: Id, grade: nat)
    ensures Gain(0) == 0.0 && Gain(grade + 1) == 2.0 * Gain(grade) + 1.0
    ensures id in labels.grade ==> GainOf(labels, id) == Gain(labels.grade[id])
    ensures id !in labels.grade ==> GainOf(labels, id) == 0.0
  {
  }

  /** A gain counts with the discount of its own place, and with nothing else. */
  lemma {:induction false} PlaceCounts(d: Discount, s: seq<real>, i: nat, x: real)
    requires i < |s|
    ensures Dcg(d, s[i := x]) == Dcg(d, s) + (x - s[i]) * d(i)
    ensures Dcg(d, []) == 0.0
    decreases |s|
  {
    var n := |s| - 1;
    if i == n {
      assert s[i := x][..n] == s[..n];
      Difference(x, s[i], d(i));
    } else {
      PlaceCounts(d, s[..n], i, x);
      assert s[i := x][..n] == s[..n][i := x];
    }
  }

  lemma Difference(a: real, b: real, x: real)
    ensures (a - b) * x == a * x - b * x
  {
  }

  function Swapped<T>(s: seq<T>, i: nat, j: nat): seq<T>
    requires i < j < |s|
  {
    s[i := s[j]][j := s[i]]
  }

  lemma SwapCounts(d: Discount, s: seq<real>, i: nat, j: nat)
    requires i < j < |s|
    ensures Dcg(d, Swapped(s, i, j)) == Dcg(d, s) + (s[j] - s[i]) * (d(i) - d(j))
  {
    hide Dcg;
    PlaceCounts(d, s, i, s[j]);
    PlaceCounts(d, s[i := s[j]], j, s[i]);
    Difference(d(i), d(j), s[j] - s[i]);
    NegatedProduct(s[j] - s[i], s[i] - s[j], d(j));
  }

  lemma {:induction false} DropsTogether(d: Discount, i: nat, j: nat)
    requires Decreasing(d) && i < j
    ensures d(i) > d(j) > 0.0
  {
    assert Drops(d, j - 1) && Drops(d, i);
    if i == j - 1 {
    } else {
      DropsTogether(d, i, j - 1);
    }
  }

  lemma {:induction false} GainsSwapped(labels: Labels, ids: seq<Id>, i: nat, j: nat)
    requires i < j < |ids| == |Gains(labels, ids)|
    ensures Gains(labels, Swapped(ids, i, j)) == Swapped(Gains(labels, ids), i, j)
  {
    hide Gains;
    GainsLength(labels, ids);
    GainsLength(labels, Swapped(ids, i, j));
  }

  /** Within the cut-off, moving a better item ahead of a worse one raises the score, by their difference in gain times
      the difference of the discounts, over the ideal. */
  lemma PromotionRaisesScore(d: Discount, ranked: seq<Id>, labels: Labels, k: int, i: nat, j: nat)
    requires Decreasing(d) && i < j < |ranked| <= k && labels.ids != [] && Dcg(d, Head(Ideal(labels), k)) != 0.0
    ensures var ideal := Dcg(d, Head(Ideal(labels), k));
            NdcgAtK(d, Swapped(ranked, i, j), labels, k) * ideal == NdcgAtK(d, ranked, labels, k) * ideal +
              (GainOf(labels, ranked[j]) - GainOf(labels, ranked[i])) * (d(i) - d(j))
    ensures d(i) - d(j) > 0.0
  {
    hide Dcg, Gains, Ideal, GainOf;
    var g := Gains(labels, ranked);
    GainsLength(labels, ranked);
    GainsLength(labels, Swapped(ranked, i, j));
    GainsSwapped(labels, ranked, i, j);
    SwapCounts(d, g, i, j);
    DropsTogether(d, i, j);
    var ideal := Dcg(d, Head(Ideal(labels), k));
    Undo(Dcg(d, Swapped(g, i, j)), ideal);
    Undo(Dcg(d, g), ideal);
  }

  lemma Undo(x: real, y: real)
    requires y != 0.0
    ensures x / y * y == x
  {
  }
}
