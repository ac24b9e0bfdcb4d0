/** metrics.py: annotator agreement corrected for chance, before rounding. */
module Agreement {
  import opened Prelude
  import opened RealFacts

  datatype MetricError = DifferentLengths | DifferentRaterCounts

  /** The relative tolerance of `math.isclose`. */
  const TOLERANCE: real := 0.000000001

  predicate CloseToOne(x: real) {
    AbsR(x - 1.0) <= TOLERANCE * MaxR(AbsR(x), 1.0)
  }

  function Corrected(observed: real, expected: real): real {
    if CloseToOne(expected) then if CloseToOne(observed) then 1.0 else 0.0
    else (observed - expected) / (1.0 - expected)
  }

  function Count(s: seq<int>, c: int): nat {
    if s == [] then 0 else Count(s[..|s| - 1], c) + if s[|s| - 1] == c then 1 else 0
  }

  function InsertDistinct(s: seq<int>, x: int): seq<int> {
    if s == [] then [x]
    else if x < s[|s| - 1] then InsertDistinct(s[..|s| - 1], x) + [s[|s| - 1]]
    else if x == s[|s| - 1] then s
    else s + [x]
  }

  /** `sorted(set(s))`. */
  function Categories(s: seq<int>): seq<int> {
    if s == [] then [] else InsertDistinct(Categories(s[..|s| - 1]), s[|s| - 1])
  }

  // ---- sorted distinct categories ----

  ghost predicate Ascending(s: seq<int>) {
    forall i, j :: 0 <= i < j < |s| ==> s[i] < s[j]
  }

  ghost predicate Covers(cats: seq<int>, s: seq<int>) {
    forall i :: 0 <= i < |s| ==> s[i] in cats
  }

  lemma {:induction false} InsertFacts(s: seq<int>, x: int)
    requires Ascending(s)
    ensures Ascending(InsertDistinct(s, x))
    ensures forall y :: y in InsertDistinct(s, x) <==> y in s || y == x
    ensures |InsertDistinct(s, x)| <= |s| + 1
  {
    if s == [] {
    } else {
      var front, last := s[..|s| - 1], s[|s| - 1];
      assert s == front + [last];
      if x < last {
        InsertFacts(front, x);
        var t := InsertDistinct(front, x);
        forall i | 0 <= i < |t| ensures t[i] < last {
          assert t[i] in t;
        }
      }
    }
  }

  lemma {:induction false} CategoriesFacts(s: seq<int>)
    ensures Ascending(Categories(s)) && Covers(Categories(s), s)
    ensures forall y :: y in Categories(s) ==> y in s
  {
    if s == [] {
    } else {
      var front, last := s[..|s| - 1], s[|s| - 1];
      CategoriesFacts(front);
      InsertFacts(Categories(front), last);
      assert s == front + [last];
      forall i | 0 <= i < |s| ensures s[i] in Categories(s) {
        var y := s[i];
        if i < |front| {
          assert front[i] in Categories(front);
        }
        assert y in Categories(s);
      }
    }
  }

  function Share(s: seq<int>, c: int): real
    requires s != []
  {
    Count(s, c) as real / |s| as real
  }

  // ---- two annotators ----

  function Agreements(a: seq<int>, b: seq<int>): nat
    requires |a| == |b|
  {
    if a == [] then 0
    else Agreements(a[..|a| - 1], b[..|a| - 1]) + if a[|a| - 1] == b[|a| - 1] then 1 else 0
  }

  function Observed(a: seq<int>, b: seq<int>): real
    requires |a| == |b| > 0
  {
    Agreements(a, b) as real / |a| as real
  }

  function ExpectedOver(cats: seq<int>, a: seq<int>, b: seq<int>): real
    requires a != [] && b != []
  {
    if cats == [] then 0.0
    else
      var c := cats[|cats| - 1];
      ExpectedOver(cats[..|cats| - 1], a, b) + Share(a, c) * Share(b, c)
  }

  function Expected(a: seq<int>, b: seq<int>): real
    requires |a| == |b| > 0
  {
    ExpectedOver(Categories(a + b), a, b)
  }

  function CohensKappa(a: seq<int>, b: seq<int>): Result<real, MetricError> {
    if |a| != |b| then Err(DifferentLengths)
    else if a == [] then Ok(0.0)
    else Ok(Corrected(Observed(a, b), Expected(a, b)))
  }

  /** The program: chance agreement is accumulated category by category. */
  method ComputeCohensKappa(a: seq<int>, b: seq<int>) returns (r: Result<real, MetricError>)
    ensures r == CohensKappa(a, b)
  {
    if |a| != |b| {
      return Err(DifferentLengths);
    }
    if a == [] {
      return Ok(0.0);
    }
    var categories := Categories(a + b);
    var expected := 0.0;
    for i := 0 to |categories|
      invariant expected == ExpectedOver(categories[..i], a, b)
    {
      assert categories[..i + 1][..i] == categories[..i];
      expected := expected + Share(a, categories[i]) * Share(b, categories[i]);
    }
    assert categories[..|categories|] == categories;
    r := Ok(Corrected(Observed(a, b), expected));
  }

  // ---- counting by category ----

  function SumCounts(cats: seq<int>, s: seq<int>): int {
    if cats == [] then 0 else SumCounts(cats[..|cats| - 1], s) + Count(s, cats[|cats| - 1])
  }

  lemma {:induction false} SumCountsSnoc(cats: seq<int>, s: seq<int>)
    requires Ascending(cats) && s != []
    ensures SumCounts(cats, s) == SumCounts(cats, s[..|s| - 1]) + if s[|s| - 1] in cats then 1 else 0
  {
    if cats == [] {
    } else {
      assert cats == cats[..|cats| - 1] + [cats[|cats| - 1]];
      SumCountsSnoc(cats[..|cats| - 1], s);
    }
  }

  lemma {:induction false} SumCountsNone(cats: seq<int>)
    ensures SumCounts(cats, []) == 0
  {
    if cats == [] {
    } else {
      SumCountsNone(cats[..|cats| - 1]);
    }
  }

  /** Every item falls in exactly one category. */
  lemma {:induction false} CountsTotal(cats: seq<int>, s: seq<int>)
    requires Ascending(cats) && Covers(cats, s)
    ensures SumCounts(cats, s) == |s|
  {
    if s == [] {
      SumCountsNone(cats);
    } else {
      CountsTotal(cats, s[..|s| - 1]);
      SumCountsSnoc(cats, s);
    }
  }

  function BothIn(a: seq<int>, b: seq<int>, c: int): nat
    requires |a| == |b|
  {
    if a == [] then 0
    else BothIn(a[..|a| - 1], b[..|a| - 1], c) + if a[|a| - 1] == c && b[|a| - 1] == c then 1 else 0
  }

  lemma {:induction false} BothBounds(a: seq<int>, b: seq<int>, c: int)
    requires |a| == |b|
    ensures Count(a, c) + Count(b, c) - |a| <= BothIn(a, b, c)
    ensures Count(a, c) <= |a| && Count(b, c) <= |b|
  {
    if a == [] {
    } else {
      BothBounds(a[..|a| - 1], b[..|a| - 1], c);
    }
  }

  lemma {:induction false} AgreementsFacts(a: seq<int>, b: seq<int>)
    requires |a| == |b|
    ensures Agreements(a, b) == Agreements(b, a) <= |a|
    ensures Agreements(a, b) == |a| <==> a == b
  {
    if a == [] {
    } else {
      var n := |a| - 1;
      AgreementsFacts(a[..n], b[..n]);
      SameByLast(a, b);
    }
  }

  lemma SameByLast<T>(a: seq<T>, b: seq<T>)
    requires |a| == |b| > 0
    ensures a == b <==> a[..|a| - 1] == b[..|a| - 1] && a[|a| - 1] == b[|a| - 1]
  {
    assert a == a[..|a| - 1] + [a[|a| - 1]] && b == b[..|a| - 1] + [b[|a| - 1]];
  }

  lemma FourProducts(x: int, y: int)
    ensures 4 * (x * y) <= (x + y) * (x + y)
  {
    assert (x + y) * (x + y) - 4 * (x * y) == (x - y) * (x - y);
    Square(x - y);
  }

  lemma Square(d: int)
    ensures d * d >= 0
  {
  }

  lemma MulMonotone(n: int, x: int, y: int)
    requires n >= 0 && x <= y
    ensures n * x <= n * y
  {
  }

  function Products(cats: seq<int>, a: seq<int>, b: seq<int>): int {
    if cats == [] then 0
    else
      var c := cats[|cats| - 1];
      Products(cats[..|cats| - 1], a, b) + Count(a, c) * Count(b, c)
  }

  lemma Spread(n: int, x: int, y: int)
    ensures n * (x + y) == n * x + n * y
  {
  }

  function SquareSum(cats: seq<int>, row: seq<int>): int {
    if cats == [] then 0
    else
      var n := Count(row, cats[|cats| - 1]);
      SquareSum(cats[..|cats| - 1], row) + n * n
  }

  lemma {:induction false} SquareSumWhole(cats: seq<int>, row: seq<int>)
    ensures 0 <= SumCounts(cats, row) && 0 <= SquareSum(cats, row) <= SumCounts(cats, row) * SumCounts(cats, row)
  {
    if cats == [] {
    } else {
      var front, n := cats[..|cats| - 1], Count(row, cats[|cats| - 1]);
      SquareSumWhole(front, row);
      Absorb(SumCounts(front, row), n);
    }
  }

  lemma Absorb(y: int, n: int)
    requires y >= 0 && n >= 0
    ensures 0 <= n * n && y * y + n * n <= (y + n) * (y + n)
  {
    MulMonotone(y, 0, n);
    assert (y + n) * (y + n) == y * y + n * n + 2 * (y * n);
  }

  /** One category apart, the others are squared at most as a whole. */
  lemma {:induction false} SquareSumSplit(cats: seq<int>, row: seq<int>, c: int)
    requires c in cats
    ensures var n := Count(row, c);
            n <= SumCounts(cats, row) &&
            n * n <= SquareSum(cats, row) <= n * n + (SumCounts(cats, row) - n) * (SumCounts(cats, row) - n)
  {
    var front, last := cats[..|cats| - 1], cats[|cats| - 1];
    assert cats == front + [last];
    SquareSumWhole(front, row);
    if last == c {
    } else {
      SquareSumSplit(front, row, c);
      Absorb(SumCounts(front, row) - Count(row, c), Count(row, last));
    }
  }

  lemma TwoParts(x: int, r: int)
    requires 1 <= x <= r - 1
    ensures x * x + (r - x) * (r - x) <= r * r - 2 * (r - 1)
  {
    MulMonotone(x - 1, 0, r - x - 1);
    assert r * r - 2 * (r - 1) - x * x - (r - x) * (r - x) == 2 * ((x - 1) * (r - x - 1));
  }

  lemma {:induction false} CountFacts(row: seq<int>, c: int)
    ensures Count(row, c) <= |row|
    ensures Count(row, c) == |row| <==> forall i :: 0 <= i < |row| ==> row[i] == c
    ensures Count(row, c) == 0 <==> c !in row
  {
    if row == [] {
    } else {
      CountFacts(row[..|row| - 1], c);
      assert row == row[..|row| - 1] + [row[|row| - 1]];
    }
  }

  lemma {:induction false} CountConcat(s: seq<int>, t: seq<int>, c: int)
    ensures Count(s + t, c) == Count(s, c) + Count(t, c)
  {
    if t == [] {
      assert s + t == s;
    } else {
      assert (s + t)[..|s + t| - 1] == s + t[..|t| - 1];
      CountConcat(s, t[..|t| - 1], c);
    }
  }

  lemma {:induction false} BothInAtMost(a: seq<int>, b: seq<int>, c: int)
    requires |a| == |b|
    ensures BothIn(a, b, c) <= Agreements(a, b)
  {
    if a == [] {
    } else {
      BothInAtMost(a[..|a| - 1], b[..|a| - 1], c);
    }
  }

  lemma {:induction false} ProductsBelowSquares(cats: seq<int>, a: seq<int>, b: seq<int>)
    ensures 0 <= 4 * Products(cats, a, b) <= SquareSum(cats, a + b)
  {
    if cats == [] {
    } else {
      var c := cats[|cats| - 1];
      ProductsBelowSquares(cats[..|cats| - 1], a, b);
      CountConcat(a, b, c);
      FourProducts(Count(a, c), Count(b, c));
      MulMonotone(Count(a, c), 0, Count(b, c));
    }
  }

  lemma {:induction false} SquareSumBelow(cats: seq<int>, row: seq<int>, m: int)
    requires forall c :: c in cats ==> Count(row, c) <= m
    ensures SquareSum(cats, row) <= m * SumCounts(cats, row)
  {
    if cats == [] {
    } else {
      var front, c := cats[..|cats| - 1], cats[|cats| - 1];
      assert cats == front + [c];
      SquareSumBelow(front, row, m);
      MulMonotone(Count(row, c), Count(row, c), m);
      Spread(m, SumCounts(front, row), Count(row, c));
    }
  }

  lemma SplitAbove(n: int, t: int, agreed: int)
    requires 0 <= t - n <= agreed
    ensures t * t + (2 * n - t) * (2 * n - t) <= 2 * (n * n) + 2 * (agreed * agreed)
  {
    assert t * t + (2 * n - t) * (2 * n - t) == 2 * (n * n) + 2 * ((t - n) * (t - n));
    MulMonotone(t - n, t - n, agreed);
    MulMonotone(agreed, t - n, agreed);
  }

  lemma BothCover(cats: seq<int>, a: seq<int>, b: seq<int>)
    requires Covers(cats, a) && Covers(cats, b)
    ensures Covers(cats, a + b)
  {
    var all := a + b;
    forall i | 0 <= i < |all| ensures all[i] in cats {
      assert all[i] == if i < |a| then a[i] else b[i - |a|];
    }
  }

  /** A grade given to more than half of all labels is one that both gave to many items. */
  lemma MajorityGrade(cats: seq<int>, a: seq<int>, b: seq<int>, c: int)
    requires |a| == |b| && c in cats && Count(a + b, c) > |a| && SumCounts(cats, a + b) == 2 * |a|
    ensures SquareSum(cats, a + b) <= 2 * (|a| * |a|) + 2 * (Agreements(a, b) * Agreements(a, b))
  {
    hide Count, SquareSum, SumCounts, Agreements, BothIn;
    SquareSumSplit(cats, a + b, c);
    CountConcat(a, b, c);
    BothBounds(a, b, c);
    BothInAtMost(a, b, c);
    SplitAbove(|a|, Count(a + b, c), Agreements(a, b));
  }

  lemma NoMajorityGrade(cats: seq<int>, row: seq<int>, n: int)
    requires (forall c :: c in cats ==> Count(row, c) <= n) && SumCounts(cats, row) == 2 * n
    ensures SquareSum(cats, row) <= 2 * (n * n)
  {
    hide Count, SquareSum, SumCounts;
    SquareSumBelow(cats, row, n);
    assert n * (2 * n) == 2 * (n * n);
  }

  /** The key bound: out of n * n pairs, twice the chance pairs are at most n * n and the squared agreements. */
  lemma ChanceIsBelowSquares(cats: seq<int>, a: seq<int>, b: seq<int>)
    requires |a| == |b| && Ascending(cats) && Covers(cats, a) && Covers(cats, b)
    ensures 0 <= 2 * Products(cats, a, b) <= |a| * |a| + Agreements(a, b) * Agreements(a, b)
  {
    hide Covers, Ascending, Products, SquareSum, Count, SumCounts, Agreements;
    ProductsBelowSquares(cats, a, b);
    BothCover(cats, a, b);
    CountsTotal(cats, a + b);
    Square(Agreements(a, b));
    if c :| c in cats && Count(a + b, c) > |a| {
      MajorityGrade(cats, a, b, c);
    } else {
      NoMajorityGrade(cats, a + b, |a|);
    }
  }

  /** So chance agreement is at most halfway between observed agreement and 1. */
  lemma ChanceIsAtMostHalfway(cats: seq<int>, a: seq<int>, b: seq<int>)
    requires |a| == |b| && Ascending(cats) && Covers(cats, a) && Covers(cats, b)
    ensures 0 <= 2 * Products(cats, a, b) <= |a| * |a| + |a| * Agreements(a, b)
  {
    ChanceIsBelowSquares(cats, a, b);
    AgreementsFacts(a, b);
    MulMonotone(Agreements(a, b), Agreements(a, b), |a|);
    assert Agreements(a, b) * |a| == |a| * Agreements(a, b);
  }

  // ---- from counts to shares ----

  lemma {:induction false} ExpectedAsFraction(cats: seq<int>, a: seq<int>, b: seq<int>)
    requires |a| == |b| > 0
    ensures |a| * |a| > 0 && ExpectedOver(cats, a, b) == Products(cats, a, b) as real / (|a| * |a|) as real
  {
    Squares(|a|);
    if cats == [] {
    } else {
      var c := cats[|cats| - 1];
      ExpectedAsFraction(cats[..|cats| - 1], a, b);
      FractionProduct(Count(a, c), Count(b, c), |a|);
      FractionSum(Products(cats[..|cats| - 1], a, b), Count(a, c) * Count(b, c), |a| * |a|);
    }
  }

  lemma FractionSum(x: int, y: int, m: int)
    requires m > 0
    ensures x as real / m as real + y as real / m as real == (x + y) as real / m as real
  {
  }

  lemma Squares(n: int)
    requires n > 0
    ensures n * n > 0
  {
  }

  lemma FractionProduct(x: int, y: int, n: int)
    requires n > 0
    ensures n * n > 0 && (x as real / n as real) * (y as real / n as real) == (x * y) as real / (n * n) as real
  {
    var u, v, m := x as real / n as real, y as real / n as real, n as real;
    assert u * m == x as real && v * m == y as real;
    assert (x * y) as real == x as real * y as real;
    assert (n * n) as real == m * m;
    assert (u * v) * (m * m) == (u * m) * (v * m);
  }

  lemma CategoriesCover(a: seq<int>, b: seq<int>)
    ensures Ascending(Categories(a + b)) && Covers(Categories(a + b), a) && Covers(Categories(a + b), b)
  {
    CategoriesFacts(a + b);
    forall i | 0 <= i < |a| ensures a[i] in Categories(a + b) {
      assert (a + b)[i] in Categories(a + b);
    }
    forall i | 0 <= i < |b| ensures b[i] in Categories(a + b) {
      assert (a + b)[|a| + i] in Categories(a + b);
    }
  }

  /** Observed and expected agreement in exact arithmetic. */
  lemma AgreementRange(a: seq<int>, b: seq<int>)
    requires |a| == |b| > 0
    ensures 0.0 <= Observed(a, b) <= 1.0 && 0.0 <= Expected(a, b)
    ensures 2.0 * Expected(a, b) <= 1.0 + Observed(a, b)
    ensures Observed(a, b) == 1.0 <==> a == b
    ensures a != b ==> Observed(a, b) <= 1.0 - 1.0 / |a| as real
  {
    CategoriesCover(a, b);
    ChanceIsAtMostHalfway(Categories(a + b), a, b);
    ExpectedAsFraction(Categories(a + b), a, b);
    AgreementsFacts(a, b);
    FractionFacts(|a|, Agreements(a, b), Products(Categories(a + b), a, b));
  }

  lemma FractionFacts(n: int, agreed: int, p: int)
    requires n > 0 && 0 <= agreed <= n && 0 <= 2 * p <= n * n + n * agreed
    ensures n * n > 0
    ensures var o, e := agreed as real / n as real, p as real / (n * n) as real;
            0.0 <= o <= 1.0 && 0.0 <= e && 2.0 * e <= 1.0 + o && (o == 1.0 <==> agreed == n) &&
            (agreed < n ==> o <= 1.0 - 1.0 / n as real)
  {
    var m := n as real;
    var o, e := agreed as real / m, p as real / (n * n) as real;
    assert (n * n) as real == m * m > 0.0;
    assert o * m == agreed as real;
    assert e * (m * m) == p as real;
    assert (n * agreed) as real == m * (o * m);
    assert (1.0 + o - 2.0 * e) * (m * m) == m * m + m * (o * m) - 2.0 * p as real;
    NonNegativeFactor(1.0 + o - 2.0 * e, m * m);
    if agreed < n {
      assert agreed as real <= m - 1.0;
      assert (1.0 - 1.0 / m) * m == m - 1.0;
      NonNegativeFactor((1.0 - 1.0 / m) - o, m);
    }
  }

  lemma CorrectedRange(o: real, e: real)
    requires 0.0 <= o <= 1.0 && 0.0 <= e && 2.0 * e <= 1.0 + o
    ensures -1.0 <= Corrected(o, e) <= 1.0
    ensures o == 1.0 ==> Corrected(o, e) == 1.0
    ensures !CloseToOne(e) ==> e < 1.0 && (Corrected(o, e) == 1.0 <==> o == 1.0)
  {
    if !CloseToOne(e) {
      var d := 1.0 - e;
      assert d > 0.0;
      var k := (o - e) / d;
      assert k * d == o - e;
      assert (1.0 - k) * d == 1.0 - o;
      assert (k + 1.0) * d == 1.0 + o - 2.0 * e;
      NonNegativeFactor(1.0 - k, d);
      NonNegativeFactor(k + 1.0, d);
      if o == 1.0 {
        ZeroFactor(1.0 - k, d);
      }
    }
  }

  /** On every pair of lists of one length Cohen's kappa lies in [-1, 1], and total agreement scores 1. */
  lemma CohenRange(a: seq<int>, b: seq<int>)
    requires |a| == |b|
    ensures CohensKappa(a, b).Ok? && -1.0 <= CohensKappa(a, b).value <= 1.0
    ensures a != [] && a == b ==> CohensKappa(a, b).value == 1.0
  {
    if a != [] {
      AgreementRange(a, b);
      CorrectedRange(Observed(a, b), Expected(a, b));
    }
  }

  /** Kappa is 1 exactly for identical lists and where the tolerance takes both agreements for 1; exact expected
      agreement of 1 always comes with observed agreement 1. */
  lemma CohenIsOneIff(a: seq<int>, b: seq<int>)
    requires |a| == |b| > 0
    ensures CohensKappa(a, b).value == 1.0 <==>
            a == b || (CloseToOne(Expected(a, b)) && CloseToOne(Observed(a, b)))
    ensures Expected(a, b) == 1.0 ==> Observed(a, b) == 1.0
  {
    AgreementRange(a, b);
    CorrectedRange(Observed(a, b), Expected(a, b));
  }

  /** One share of `n` is lost in the tolerance exactly from a thousand million shares on. */
  lemma ShareBeyondTolerance(n: int)
    requires n > 0
    ensures 1.0 / n as real > 0.0
    ensures 1.0 / n as real <= TOLERANCE <==> n >= 1000000000
  {
    var m := n as real;
    Undivide(1.0, m);
    NonNegativeFactor(1.0 / m, m);
    assert (1.0 / m - TOLERANCE) * m == 1.0 - TOLERANCE * m;
    if 1.0 / m - TOLERANCE <= 0.0 {
      NotPositive(1.0 / m - TOLERANCE, m);
    } else {
      Positive(1.0 / m - TOLERANCE, m);
    }
  }

  lemma NotPositive(x: real, y: real)
    requires x <= 0.0 && y > 0.0
    ensures x * y <= 0.0
  {
  }

  function Repeat(x: int, n: nat): (s: seq<int>)
    ensures |s| == n
  {
    if n == 0 then [] else Repeat(x, n - 1) + [x]
  }

  lemma {:induction false} RepeatFacts(x: int, y: int, n: nat)
    ensures Count(Repeat(x, n), y) == if x == y then n else 0
    ensures Agreements(Repeat(x, n), Repeat(x, n)) == n
    ensures forall b :: Count(b, x) * n == ChancePairs(Repeat(x, n), b)
  {
    if n == 0 {
    } else {
      assert Repeat(x, n)[..n - 1] == Repeat(x, n - 1);
      RepeatFacts(x, y, n - 1);
      forall b ensures Count(b, x) * n == ChancePairs(Repeat(x, n), b) {
        Spread(Count(b, x), n - 1, 1);
      }
    }
  }

  /** One annotator repeats a grade, the other departs from it once: kappa corrects to nothing. */
  lemma OneOddItem(n: nat)
    requires n > 0
    ensures var a, b := Repeat(0, n), Repeat(0, n - 1) + [1];
            Observed(a, b) == Expected(a, b) == 1.0 - 1.0 / n as real
  {
    var a, b := Repeat(0, n), Repeat(0, n - 1) + [1];
    var cats := Categories(a + b);
    assert b[..n - 1] == Repeat(0, n - 1) && a[..n - 1] == Repeat(0, n - 1);
    RepeatFacts(0, 0, n - 1);
    assert a[n - 1] == 0 && Agreements(a, b) == n - 1 && Count(b, 0) == n - 1;
    RepeatFacts(0, 0, n);
    CategoriesCover(a, b);
    ProductsArePairs(cats, a, b);
    ExpectedAsFraction(cats, a, b);
    OddShare(n);
  }

  lemma OddShare(n: int)
    requires n > 0
    ensures n * n > 0 && ((n - 1) * n) as real / (n * n) as real == (n - 1) as real / n as real == 1.0 - 1.0 / n as real
  {
    FractionProduct(n - 1, n, n);
    Undivide(1.0, n as real);
    Undivide((n - 1) as real, n as real);
    SameFactor((n - 1) as real / n as real, 1.0 - 1.0 / n as real, n as real);
  }

  /** From a thousand million items on, one odd item is scored 1.0; below, and in exact arithmetic always, 0.0. */
  lemma OneOddItemScores(n: nat)
    requires n > 0
    ensures var a, b := Repeat(0, n), Repeat(0, n - 1) + [1];
            a != b && CohensKappa(a, b) == Ok(if n >= 1000000000 then 1.0 else 0.0)
  {
    var a, b := Repeat(0, n), Repeat(0, n - 1) + [1];
    assert a[n - 1] != b[n - 1];
    OneOddItem(n);
    ShareBeyondTolerance(n);
    AgreementRange(a, b);
  }

  ghost predicate OneOnlyWhenIdentical(n: nat) {
    forall a, b :: |a| == |b| == n ==> (CohensKappa(a, b) == Ok(1.0) <==> a == b)
  }

  /** Kappa is 1 exactly for identical lists, whatever they hold, if and only if there are fewer than a thousand
      million items; from there on the float tolerance can decide. */
  lemma CohenIsOneIffIdentical(n: nat)
    requires n > 0
    ensures OneOnlyWhenIdentical(n) <==> n < 1000000000
  {
    OneOddItemScores(n);
    forall a, b | |a| == |b| == n && n < 1000000000 ensures CohensKappa(a, b) == Ok(1.0) <==> a == b {
      CohenIsOneIff(a, b);
      AgreementRange(a, b);
      ShareBeyondTolerance(n);
    }
  }

  // ---- how close the agreements come to one ----

  lemma CloseQuotient(y: real, w: real, x: real)
    requires w > 0.0 && y * w == x && 0.0 <= y <= 1.0
    ensures CloseToOne(y) <==> w - x <= TOLERANCE * w
  {
    assert (TOLERANCE - (1.0 - y)) * w == TOLERANCE * w - (w - x);
    if 1.0 - y <= TOLERANCE {
      NonNegativeProduct(TOLERANCE - (1.0 - y), w);
    } else {
      NegativeProduct(TOLERANCE - (1.0 - y), w);
    }
  }

  /** A fraction is taken for 1 when what it lacks is at most a thousand-millionth. */
  lemma CloseFraction(x: int, m: int)
    requires 0 <= x <= m && m > 0
    ensures CloseToOne(x as real / m as real) <==> 1000000000 * (m - x) <= m
  {
    hide CloseToOne;
    Undivide(x as real, m as real);
    Quotient(x, m);
    CloseQuotient(x as real / m as real, m as real, x as real);
    MillionthPart(x, m);
  }

  lemma MillionthPart(x: int, m: int)
    ensures m as real - x as real <= TOLERANCE * m as real <==> 1000000000 * (m - x) <= m
  {
    assert (1000000000 * (m - x)) as real == 1000000000.0 * (m as real - x as real);
  }

  /** What the chance pairs lack of n * n at the least, when `d` items are labelled differently. */
  function Lack(n: int, d: int): int {
    n * d - d * d / 2
  }

  lemma HalfSquares(d: int)
    ensures (d + 1) * (d + 1) / 2 <= d * d / 2 + d + 1
  {
    assert (d + 1) * (d + 1) == d * d + 2 * d + 1;
  }

  lemma {:induction false} LackGrows(n: int, d: int, e: int)
    requires 0 <= d <= e <= n
    ensures Lack(n, d) <= Lack(n, e)
    decreases e - d
  {
    if d == e {
    } else {
      LackGrows(n, d, e - 1);
      HalfSquares(e - 1);
      Spread(n, e - 1, 1);
    }
  }

  lemma HalfOf(n: int, d: int, p: int)
    requires 2 * p <= n * n + (n - d) * (n - d)
    ensures p <= n * n - Lack(n, d)
  {
    assert (n - d) * (n - d) == n * n - 2 * (n * d) + d * d;
  }

  /** Both closeness tests in whole numbers, for lists that differ in `n - Agreements(a, b)` items. */
  lemma ClosenessBounds(a: seq<int>, b: seq<int>)
    requires |a| == |b| > 0
    ensures var n, d := |a|, |a| - Agreements(a, b);
            && 0 <= d <= n
            && (CloseToOne(Observed(a, b)) <==> 1000000000 * d <= n)
            && (CloseToOne(Expected(a, b)) ==> 1000000000 * Lack(n, d) <= n * n)
  {
    hide CloseToOne, Products, Categories, Covers, Ascending, Lack, Count;
    var n, agreed, cats := |a|, Agreements(a, b), Categories(a + b);
    AgreementsFacts(a, b);
    CloseFraction(agreed, n);
    CategoriesCover(a, b);
    ChanceIsBelowSquares(cats, a, b);
    ExpectedAsFraction(cats, a, b);
    HalfOf(n, n - agreed, Products(cats, a, b));
    MulMonotone(agreed, agreed, n);
    MulMonotone(n, agreed, n);
    CloseFraction(Products(cats, a, b), n * n);
  }

  /** The 0.0 fallback: chance is taken for certain and agreement is not. */
  predicate FallbackTaken(a: seq<int>, b: seq<int>) {
    |a| == |b| > 0 && CloseToOne(Expected(a, b)) && !CloseToOne(Observed(a, b))
  }

  /** The fewest differing items that are not lost in the tolerance, and whether chance can hide them. */
  predicate FallbackFits(n: int) {
    var d := n / 1000000000 + 1;
    1000000000 * Lack(n, d) <= n * n
  }

  // ---- the lists that come closest ----

  /** `k` items odd for one annotator. */
  function OddFirst(n: nat, d: nat): (s: seq<int>)
    requires d <= n
    ensures |s| == n
  {
    Repeat(0, n - d) + (Repeat(1, d / 2) + Repeat(0, d - d / 2))
  }

  /** And as many, or one more, for the other, elsewhere. */
  function OddSecond(n: nat, d: nat): (s: seq<int>)
    requires d <= n
    ensures |s| == n
  {
    Repeat(0, n - d) + (Repeat(0, d / 2) + Repeat(1, d - d / 2))
  }

  lemma {:induction false} AgreementsConcat(a: seq<int>, b: seq<int>, x: seq<int>, y: seq<int>)
    requires |a| == |b| && |x| == |y|
    ensures Agreements(a + x, b + y) == Agreements(a, b) + Agreements(x, y)
  {
    if x == [] {
      assert a + x == a && b + y == b;
    } else {
      var n := |x| - 1;
      assert (a + x)[..|a + x| - 1] == a + x[..n] && (b + y)[..|a + x| - 1] == b + y[..n];
      AgreementsConcat(a, b, x[..n], y[..n]);
    }
  }

  lemma {:induction false} NoAgreement(x: int, y: int, n: nat)
    requires x != y
    ensures Agreements(Repeat(x, n), Repeat(y, n)) == 0
  {
    if n == 0 {
    } else {
      assert Repeat(x, n)[..n - 1] == Repeat(x, n - 1) && Repeat(y, n)[..n - 1] == Repeat(y, n - 1);
      NoAgreement(x, y, n - 1);
    }
  }

  lemma OddAgree(n: nat, d: nat)
    requires d <= n
    ensures Agreements(OddFirst(n, d), OddSecond(n, d)) == n - d
  {
    hide Agreements, Repeat;
    var k := d / 2;
    AgreementsConcat(Repeat(0, n - d), Repeat(0, n - d), Repeat(1, k) + Repeat(0, d - k), Repeat(0, k) + Repeat(1, d - k));
    AgreementsConcat(Repeat(1, k), Repeat(0, k), Repeat(0, d - k), Repeat(1, d - k));
    RepeatFacts(0, 0, n - d);
    NoAgreement(1, 0, k);
    NoAgreement(0, 1, d - k);
  }

  lemma ThreeCounts(s: seq<int>, t: seq<int>, u: seq<int>, c: int)
    ensures Count(s + (t + u), c) == Count(s, c) + Count(t, c) + Count(u, c)
  {
    CountConcat(s, t + u, c);
    CountConcat(t, u, c);
  }

  lemma AllSame(x: int, n: nat)
    ensures forall i :: 0 <= i < n ==> Repeat(x, n)[i] == x
  {
    RepeatFacts(x, x, n);
    CountFacts(Repeat(x, n), x);
  }

  lemma OddListCounts(n: nat, d: nat)
    requires d <= n
    ensures var a, b, k := OddFirst(n, d), OddSecond(n, d), d / 2;
            Count(a, 0) == n - k && Count(a, 1) == k && Count(b, 0) == n - d + k && Count(b, 1) == d - k &&
            Covers([0, 1], a)
  {
    hide Count, Repeat;
    var k := d / 2;
    forall c | c == 0 || c == 1 ensures Count(OddFirst(n, d), c) == (if c == 0 then n - k else k) &&
        Count(OddSecond(n, d), c) == (if c == 0 then n - d + k else d - k) {
      ThreeCounts(Repeat(0, n - d), Repeat(1, k), Repeat(0, d - k), c);
      ThreeCounts(Repeat(0, n - d), Repeat(0, k), Repeat(1, d - k), c);
      RepeatFacts(0, c, n - d);
      RepeatFacts(0, c, d - k);
      RepeatFacts(0, c, k);
      RepeatFacts(1, c, k);
      RepeatFacts(1, c, d - k);
    }
    AllSame(0, n - d);
    AllSame(1, k);
    AllSame(0, d - k);
  }

  lemma OddProducts(n: int, d: int, k: int)
    requires k == d / 2
    ensures (n - k) * (n - d + k) + k * (d - k) == n * n - Lack(n, d)
  {
    assert (n - k) * (n - d + k) == n * n - n * d + k * (d - k);
    if d == 2 * k {
      assert d * d == 4 * (k * k) && k * (d - k) == k * k;
    } else {
      assert d == 2 * k + 1;
      assert d * d == 4 * (k * k) + 4 * k + 1 && k * (d - k) == k * k + k;
    }
  }

  lemma TwoProducts(a: seq<int>, b: seq<int>)
    ensures Products([0, 1], a, b) == Count(a, 0) * Count(b, 0) + Count(a, 1) * Count(b, 1)
  {
    assert [0, 1][..1] == [0] && [0][..0] == [];
    assert Products([0], a, b) == Count(a, 0) * Count(b, 0);
  }

  /** With `d` differing items the chance pairs lack no more than `Lack` says. */
  lemma OddLists(n: nat, d: nat)
    requires d <= n && n > 0
    ensures var a, b := OddFirst(n, d), OddSecond(n, d);
            && (CloseToOne(Observed(a, b)) <==> 1000000000 * d <= n)
            && (CloseToOne(Expected(a, b)) <==> 1000000000 * Lack(n, d) <= n * n)
  {
    hide CloseToOne, Products, Categories, Covers, Ascending, Lack, Count, OddFirst, OddSecond, Agreements;
    var a, b := OddFirst(n, d), OddSecond(n, d);
    var cats := Categories(a + b);
    OddAgree(n, d);
    ClosenessBounds(a, b);
    OddListCounts(n, d);
    CategoriesCover(a, b);
    ProductsArePairs(cats, a, b);
    ZeroAndOne();
    ProductsArePairs([0, 1], a, b);
    TwoProducts(a, b);
    OddProducts(n, d, d / 2);
    ExpectedAsFraction(cats, a, b);
    LackIsSmall(n, d);
    CloseFraction(Products(cats, a, b), n * n);
  }

  lemma ZeroAndOne()
    ensures Ascending([0, 1])
  {
  }

  lemma LackIsSmall(n: int, d: int)
    requires 0 <= d <= n
    ensures 0 <= Lack(n, d) <= n * n
  {
    LackGrows(n, 0, d);
    LackGrows(n, d, n);
    assert 0 * 0 / 2 == 0 && n * 0 == 0;
    Square(n);
  }

  // ---- the exact sizes ----

  /** For each size: some pair of lists falls back to 0.0 exactly when the smallest visible difference fits. */
  lemma FallbackTakenIff(n: nat)
    requires n > 0
    ensures (exists a, b :: |a| == n && FallbackTaken(a, b)) <==> FallbackFits(n)
  {
    hide CloseToOne, Lack, Observed, Expected;
    var d := n / 1000000000 + 1;
    if a, b :| |a| == n && FallbackTaken(a, b) {
      ClosenessBounds(a, b);
      LackGrows(n, d, n - Agreements(a, b));
    }
    if FallbackFits(n) {
      OddLists(n, d);
      assert FallbackTaken(OddFirst(n, d), OddSecond(n, d));
    }
  }

  /** Where n * n first outgrows two thousand million times n - 1. */
  lemma FirstSize(n: int)
    requires n >= 2
    ensures 2000000000 * (n - 1) <= n * n <==> n >= 1999999999
  {
    if n < 1999999999 {
      MulMonotone(n - 2, 0, 1999999998 - n);
      assert (n - 2) * (1999999998 - n) == 2000000000 * n - n * n - 3999999996;
    } else {
      MulMonotone(n - 1, 0, n - 1999999999);
      assert (n - 1) * (n - 1999999999) == n * n - 2000000000 * n + 1999999999;
    }
  }

  lemma SmallLacks(n: int)
    ensures Lack(n, 1) == n && Lack(n, 2) == 2 * n - 2
  {
  }

  lemma TooSmall(n: int)
    requires 0 < n < 1000000000
    ensures 1000000000 * n > n * n
  {
    MulMonotone(n, n, 999999999);
  }

  lemma FallbackFirstFits(n: int)
    requires 0 < n <= 1999999999
    ensures FallbackFits(n) <==> n == 1999999999
  {
    hide Lack;
    SmallLacks(n);
    if n < 1000000000 {
      TooSmall(n);
    } else {
      FirstSize(n);
      assert n / 1000000000 == 1;
    }
  }

  /** The 0.0 fallback is dead on all lists of up to `n` items if and only if `n` is below 1,999,999,999. */
  lemma FallbackIsDead(n: nat)
    ensures (forall a, b :: |a| <= n ==> !FallbackTaken(a, b)) <==> n < 1999999999
  {
    hide FallbackTaken, FallbackFits;
    if n < 1999999999 {
      forall a: seq<int>, b: seq<int> | |a| <= n ensures !FallbackTaken(a, b) {
        if a == [] {
          NoFallback(b);
        } else {
          FallbackTakenIff(|a|);
          FallbackFirstFits(|a|);
        }
      }
    } else {
      FallbackTakenIff(1999999999);
      FallbackFirstFits(1999999999);
    }
  }

  lemma NoFallback(b: seq<int>)
    ensures !FallbackTaken([], b)
  {
  }

  ghost predicate ToleranceIdle(n: nat) {
    forall a, b :: |a| == |b| == n > 0 && CloseToOne(Expected(a, b)) ==> a == b
  }

  /** Expected agreement is taken for 1 on identical lists only, if and only if there are fewer than a thousand
      million items. */
  lemma ToleranceIsIdleIff(n: nat)
    requires n > 0
    ensures ToleranceIdle(n) <==> n < 1000000000
  {
    hide CloseToOne, Observed, Expected, Lack;
    SmallLacks(n);
    if n < 1000000000 {
      TooSmall(n);
      forall a: seq<int>, b: seq<int> | |a| == |b| == n && CloseToOne(Expected(a, b)) ensures a == b {
        ClosenessBounds(a, b);
        AgreementsFacts(a, b);
        if a != b {
          LackGrows(n, 1, n - Agreements(a, b));
        }
      }
    } else {
      OddLists(n, 1);
      MulMonotone(n, 1000000000, n);
      OddAgree(n, 1);
      AgreementsFacts(OddFirst(n, 1), OddSecond(n, 1));
    }
  }

  /** The chance pairs counted item by item: how often the other annotator used each item's category. */
  function ChancePairs(a: seq<int>, b: seq<int>): int {
    if a == [] then 0 else ChancePairs(a[..|a| - 1], b) + Count(b, a[|a| - 1])
  }

  lemma {:induction false} ProductsSnoc(cats: seq<int>, a: seq<int>, b: seq<int>)
    requires Ascending(cats) && a != []
    ensures Products(cats, a, b) ==
            Products(cats, a[..|a| - 1], b) + if a[|a| - 1] in cats then Count(b, a[|a| - 1]) else 0
  {
    if cats == [] {
    } else {
      var c := cats[|cats| - 1];
      assert cats == cats[..|cats| - 1] + [c];
      ProductsSnoc(cats[..|cats| - 1], a, b);
      if a[|a| - 1] == c {
        assert (Count(a[..|a| - 1], c) + 1) * Count(b, c) == Count(a[..|a| - 1], c) * Count(b, c) + Count(b, c);
      }
    }
  }

  lemma {:induction false} ProductsNone(cats: seq<int>, b: seq<int>)
    ensures Products(cats, [], b) == 0
  {
    if cats == [] {
    } else {
      ProductsNone(cats[..|cats| - 1], b);
    }
  }

  /** The sum over categories does not depend on which covering list of categories is used. */
  lemma {:induction false} ProductsArePairs(cats: seq<int>, a: seq<int>, b: seq<int>)
    requires Ascending(cats) && Covers(cats, a)
    ensures Products(cats, a, b) == ChancePairs(a, b)
  {
    if a == [] {
      ProductsNone(cats, b);
    } else {
      ProductsArePairs(cats, a[..|a| - 1], b);
      ProductsSnoc(cats, a, b);
    }
  }

  lemma {:induction false} ProductsSwap(cats: seq<int>, a: seq<int>, b: seq<int>)
    ensures Products(cats, a, b) == Products(cats, b, a)
  {
    if cats == [] {
    } else {
      ProductsSwap(cats[..|cats| - 1], a, b);
    }
  }

  /** The two annotators may be swapped. */
  lemma CohenIsSymmetric(a: seq<int>, b: seq<int>)
    requires |a| == |b|
    ensures CohensKappa(a, b) == CohensKappa(b, a)
  {
    if a != [] {
      var cats, other := Categories(a + b), Categories(b + a);
      AgreementsFacts(a, b);
      ExpectedAsFraction(cats, a, b);
      ExpectedAsFraction(other, b, a);
      CategoriesCover(a, b);
      CategoriesCover(b, a);
      ProductsArePairs(cats, b, a);
      ProductsArePairs(other, b, a);
      ProductsSwap(cats, a, b);
    }
  }

  // ---- kappa in whole numbers ----

  /** On how many items the two agree. */
  function Matches(a: seq<int>, b: seq<int>): nat
    requires |a| == |b|
  {
    |set i | 0 <= i < |a| && a[i] == b[i]|
  }

  lemma MatchesMore(a: seq<int>, b: seq<int>)
    requires |a| == |b| > 0
    ensures var n := |a| - 1; Matches(a, b) == Matches(a[..n], b[..n]) + if a[n] == b[n] then 1 else 0
  {
    var n := |a| - 1;
    var all, before := set i | 0 <= i < |a| && a[i] == b[i], set i | 0 <= i < n && a[..n][i] == b[..n][i];
    assert all == before + if a[n] == b[n] then {n} else {};
  }

  lemma {:induction false} AgreementsAreMatches(a: seq<int>, b: seq<int>)
    requires |a| == |b|
    ensures Agreements(a, b) == Matches(a, b)
  {
    var all := set i | 0 <= i < |a| && a[i] == b[i];
    if a == [] {
      assert all == {};
    } else {
      hide Matches;
      AgreementsAreMatches(a[..|a| - 1], b[..|a| - 1]);
      MatchesMore(a, b);
    }
  }

  /** In how many pairs of one entry of each list the two entries are the same. */
  function SamePairs(a: seq<int>, b: seq<int>): nat {
    if a == [] then 0 else SamePairs(a[..|a| - 1], b) + CountOf(b, (x: int) => x == a[|a| - 1])
  }

  lemma {:induction false} CountIsCountOf(s: seq<int>, c: int)
    ensures Count(s, c) == CountOf(s, (x: int) => x == c)
  {
    hide CountOf;
    var same := (x: int) => x == c;
    if s == [] {
      CountNone(s, same);
    } else {
      CountIsCountOf(s[..|s| - 1], c);
      CountMore(s, same);
    }
  }

  lemma {:induction false} ChanceIsSamePairs(a: seq<int>, b: seq<int>)
    ensures ChancePairs(a, b) == SamePairs(a, b)
  {
    hide CountOf, Count;
    if a == [] {
    } else {
      ChanceIsSamePairs(a[..|a| - 1], b);
      CountIsCountOf(b, a[|a| - 1]);
    }
  }

  lemma CorrectedFraction(x: int, p: int, n: int)
    requires 0 <= x <= n && n > 0 && 0 <= p <= n * n && n * n > 0 && !CloseToOne(p as real / (n * n) as real)
    ensures Corrected(x as real / n as real, p as real / (n * n) as real) * (n * n - p) as real == (x * n - p) as real
  {
    var o, e, w := x as real / n as real, p as real / (n * n) as real, (n * n) as real;
    Undivide(x as real, n as real);
    Undivide(p as real, w);
    Quotient(p, n * n);
    assert w == n as real * n as real;
    assert o * w == x as real * n as real;
    assert (1.0 - e) * w == w - p as real;
    assert 1.0 - e != 0.0;
    var k := (o - e) / (1.0 - e);
    assert k * (1.0 - e) == o - e;
    assert k * ((1.0 - e) * w) == (o - e) * w;
    assert (o - e) * w == o * w - e * w;
  }

  /** Both agreements as fractions of matches and same pairs. */
  lemma AgreementsInPairs(a: seq<int>, b: seq<int>)
    requires |a| == |b| > 0
    ensures var n := |a|;
            && n * n > 0 && 0 <= Matches(a, b) <= n && 0 <= SamePairs(a, b) <= n * n
            && Observed(a, b) == Matches(a, b) as real / n as real
            && Expected(a, b) == SamePairs(a, b) as real / (n * n) as real
  {
    hide Matches, SamePairs, Agreements, Products, Categories, Count, ChancePairs, Covers, Ascending;
    var n, cats := |a|, Categories(a + b);
    AgreementsAreMatches(a, b);
    ChanceIsSamePairs(a, b);
    CategoriesCover(a, b);
    ProductsArePairs(cats, a, b);
    ExpectedAsFraction(cats, a, b);
    AgreementsFacts(a, b);
    ChanceIsBelowSquares(cats, a, b);
    MulMonotone(Agreements(a, b), Agreements(a, b), n);
    MulMonotone(n, Agreements(a, b), n);
  }

  /** Kappa of two lists of n entries, from the matches x and the same pairs p alone: (xn - p) / (n * n - p), unless p is
      within a thousand-millionth of n * n; then 1 or 0 as x is within that of n. */
  lemma KappaIsExact(a: seq<int>, b: seq<int>)
    requires |a| == |b| > 0
    ensures var n, x, p := |a|, Matches(a, b), SamePairs(a, b);
            CohensKappa(a, b).Ok? &&
            var k := CohensKappa(a, b).value;
            if 1000000000 * (n * n - p) <= n * n then k == if 1000000000 * (n - x) <= n then 1.0 else 0.0
            else k * (n * n - p) as real == (x * n - p) as real
  {
    hide Matches, SamePairs, CloseToOne, Observed, Expected;
    var n := |a|;
    AgreementsInPairs(a, b);
    CloseFraction(Matches(a, b), n);
    CloseFraction(SamePairs(a, b), n * n);
    if !CloseToOne(Expected(a, b)) {
      CorrectedFraction(Matches(a, b), SamePairs(a, b), n);
    }
  }

  /** Lists of different lengths are refused, and empty ones score 0. */
  lemma KappaEdges(a: seq<int>, b: seq<int>)
    ensures |a| != |b| ==> CohensKappa(a, b) == Err(DifferentLengths)
    ensures a == [] && b == [] ==> CohensKappa(a, b) == Ok(0.0)
  {
  }
}
