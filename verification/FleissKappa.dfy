/** metrics.py: agreement across three or more annotators, before rounding. */
module FleissKappa {
  import opened Prelude
  import opened RealFacts
  import opened Agreement

  type Ratings = seq<seq<int>>

  function Usable(ratings: Ratings): Ratings {
    if ratings == [] then []
    else
      var last := ratings[|ratings| - 1];
      Usable(ratings[..|ratings| - 1]) + if |last| >= 2 then [last] else []
  }

  function AllGrades(rows: Ratings): seq<int> {
    if rows == [] then [] else AllGrades(rows[..|rows| - 1]) + rows[|rows| - 1]
  }

  /** How often a grade was given in all. */
  function Column(rows: Ratings, c: int): nat {
    if rows == [] then 0 else Column(rows[..|rows| - 1], c) + Count(rows[|rows| - 1], c)
  }

  function ItemAgreement(cats: seq<int>, row: seq<int>, raters: int): real
    requires raters >= 2
  {
    (SquareSum(cats, row) - raters) as real / (raters * (raters - 1)) as real
  }

  function ItemSum(cats: seq<int>, rows: Ratings, raters: int): real
    requires raters >= 2
  {
    if rows == [] then 0.0
    else ItemSum(cats, rows[..|rows| - 1], raters) + ItemAgreement(cats, rows[|rows| - 1], raters)
  }

  function ShareSquares(cats: seq<int>, rows: Ratings, raters: int): real
    requires rows != [] && raters >= 2
  {
    if cats == [] then 0.0
    else
      var p := Column(rows, cats[|cats| - 1]) as real / (|rows| * raters) as real;
      ShareSquares(cats[..|cats| - 1], rows, raters) + p * p
  }

  predicate SameLength(rows: Ratings, raters: int) {
    forall i :: 0 <= i < |rows| ==> |rows[i]| == raters
  }

  function MeanAgreement(rows: Ratings, raters: int): real
    requires rows != [] && raters >= 2
  {
    ItemSum(Categories(AllGrades(rows)), rows, raters) / |rows| as real
  }

  function ChanceAgreement(rows: Ratings, raters: int): real
    requires rows != [] && raters >= 2
  {
    ShareSquares(Categories(AllGrades(rows)), rows, raters)
  }

  function Kappa(ratings: Ratings): Result<real, MetricError> {
    var rows := Usable(ratings);
    if rows == [] then Ok(0.0)
    else if |Categories(AllGrades(rows))| < 2 then Ok(1.0)
    else
      var raters := |rows[0]|;
      UsableRows(ratings);
      if !SameLength(rows, raters) then Err(DifferentRaterCounts)
      else Ok(Corrected(MeanAgreement(rows, raters), ChanceAgreement(rows, raters)))
  }

  lemma {:induction false} UsableRows(ratings: Ratings)
    ensures forall i :: 0 <= i < |Usable(ratings)| ==> |Usable(ratings)[i]| >= 2
  {
    if ratings == [] {
    } else {
      UsableRows(ratings[..|ratings| - 1]);
    }
  }

  // ---- integer facts ----

  function SquareTotal(cats: seq<int>, rows: Ratings): int {
    if rows == [] then 0 else SquareTotal(cats, rows[..|rows| - 1]) + SquareSum(cats, rows[|rows| - 1])
  }

  function ColumnSquares(cats: seq<int>, rows: Ratings): int {
    if cats == [] then 0
    else
      var n := Column(rows, cats[|cats| - 1]);
      ColumnSquares(cats[..|cats| - 1], rows) + n * n
  }

  /** The squares of one column, row by row. */
  function SquaresIn(rows: Ratings, c: int): nat {
    if rows == [] then 0
    else
      var n := Count(rows[|rows| - 1], c);
      SquaresIn(rows[..|rows| - 1], c) + n * n
  }

  function SquaresByColumn(cats: seq<int>, rows: Ratings): int {
    if cats == [] then 0 else SquaresByColumn(cats[..|cats| - 1], rows) + SquaresIn(rows, cats[|cats| - 1])
  }

  lemma {:induction false} SquaresByColumnSnoc(cats: seq<int>, rows: Ratings)
    requires rows != []
    ensures SquaresByColumn(cats, rows) ==
            SquaresByColumn(cats, rows[..|rows| - 1]) + SquareSum(cats, rows[|rows| - 1])
  {
    if cats == [] {
    } else {
      SquaresByColumnSnoc(cats[..|cats| - 1], rows);
    }
  }

  lemma {:induction false} SquaresEitherWay(cats: seq<int>, rows: Ratings)
    ensures SquaresByColumn(cats, rows) == SquareTotal(cats, rows)
  {
    if rows == [] {
      NoSquares(cats);
    } else {
      SquaresEitherWay(cats, rows[..|rows| - 1]);
      SquaresByColumnSnoc(cats, rows);
    }
  }

  lemma {:induction false} NoSquares(cats: seq<int>)
    ensures SquaresByColumn(cats, []) == 0
  {
    if cats == [] {
    } else {
      NoSquares(cats[..|cats| - 1]);
    }
  }

  lemma CauchyStep(n: int, t: int, s: int, x: int)
    requires n >= 1 && s >= 0 && t * t <= n * s
    ensures (t + x) * (t + x) <= (n + 1) * (s + x * x)
  {
    Square(t - n * x);
    SquareOfDifference(t, n, x);
    Spread(n, s, n * (x * x) - 2 * (t * x));
    Divide(n, s + (n * (x * x) - 2 * (t * x)));
    assert (t + x) * (t + x) == t * t + 2 * (t * x) + x * x;
    assert (n + 1) * (s + x * x) == n * s + n * (x * x) + s + x * x;
  }

  lemma SquareOfDifference(t: int, n: int, x: int)
    ensures (t - n * x) * (t - n * x) == t * t + n * (n * (x * x) - 2 * (t * x))
  {
    assert (n * x) * (n * x) == n * (n * (x * x));
    assert t * (n * x) == n * (t * x);
  }

  lemma Divide(n: int, y: int)
    requires n >= 1 && n * y >= 0
    ensures y >= 0
  {
  }

  /** Cauchy-Schwarz down one column. */
  lemma {:induction false} ColumnCauchy(rows: Ratings, c: int)
    ensures Column(rows, c) * Column(rows, c) <= |rows| * SquaresIn(rows, c)
  {
    if rows == [] {
    } else {
      var n := |rows| - 1;
      ColumnCauchy(rows[..n], c);
      var x := Count(rows[n], c);
      if n == 0 {
        assert Column(rows[..n], c) == 0 && SquaresIn(rows[..n], c) == 0;
        assert Column(rows, c) == x && SquaresIn(rows, c) == x * x;
      } else {
        CauchyStep(n, Column(rows[..n], c), SquaresIn(rows[..n], c), x);
      }
    }
  }

  lemma {:induction false} ColumnsCauchy(cats: seq<int>, rows: Ratings)
    ensures ColumnSquares(cats, rows) <= |rows| * SquaresByColumn(cats, rows)
  {
    if cats == [] {
    } else {
      ColumnsCauchy(cats[..|cats| - 1], rows);
      ColumnCauchy(rows, cats[|cats| - 1]);
      Spread(|rows|, SquaresByColumn(cats[..|cats| - 1], rows), SquaresIn(rows, cats[|cats| - 1]));
    }
  }

  predicate Unanimous(row: seq<int>) {
    forall i :: 0 <= i < |row| ==> row[i] == row[0]
  }

  predicate AllUnanimous(rows: Ratings) {
    forall i :: 0 <= i < |rows| ==> Unanimous(rows[i])
  }

  /** An item's squared counts reach r * r exactly when its raters were unanimous, and are otherwise at least
      2 * (r - 1) short of it. */
  lemma ItemSquares(cats: seq<int>, row: seq<int>)
    requires Ascending(cats) && Covers(cats, row) && row != []
    ensures 0 <= SquareSum(cats, row) <= |row| * |row|
    ensures Unanimous(row) ==> SquareSum(cats, row) == |row| * |row|
    ensures !Unanimous(row) ==> SquareSum(cats, row) <= |row| * |row| - 2 * (|row| - 1) && |row| >= 2
  {
    CountsTotal(cats, row);
    SquareSumWhole(cats, row);
    var first := row[0];
    assert row[0] in cats;
    assert first in cats;
    CountFacts(row, first);
    SquareSumSplit(cats, row, first);
    if !Unanimous(row) {
      assert first in row;
      TwoParts(Count(row, first), |row|);
    }
  }

  lemma {:induction false} RowsCovered(rows: Ratings, cats: seq<int>)
    requires Covers(cats, AllGrades(rows))
    ensures forall i :: 0 <= i < |rows| ==> Covers(cats, rows[i])
    decreases |rows|
  {
    if rows == [] {
    } else {
      var front, last, all := rows[..|rows| - 1], rows[|rows| - 1], AllGrades(rows);
      forall i | 0 <= i < |AllGrades(front)| ensures AllGrades(front)[i] in cats {
        assert all[i] in cats;
      }
      RowsCovered(front, cats);
      forall i | 0 <= i < |last| ensures last[i] in cats {
        assert all[|AllGrades(front)| + i] in cats;
      }
    }
  }

  lemma OneMore(n: int, r: int)
    ensures (n + 1) * r == n * r + r
  {
  }

  lemma {:induction false} TotalSquares(cats: seq<int>, rows: Ratings, raters: int)
    requires Ascending(cats) && raters >= 2 && SameLength(rows, raters)
    requires forall i :: 0 <= i < |rows| ==> Covers(cats, rows[i])
    ensures 0 <= SquareTotal(cats, rows) <= |rows| * (raters * raters)
    ensures AllUnanimous(rows) ==> SquareTotal(cats, rows) == |rows| * (raters * raters)
    ensures !AllUnanimous(rows) ==> SquareTotal(cats, rows) <= |rows| * (raters * raters) - 2 * (raters - 1)
  {
    hide Unanimous, SquareSum, Covers, Ascending;
    if rows == [] {
    } else {
      var front, last := rows[..|rows| - 1], rows[|rows| - 1];
      TotalSquares(cats, front, raters);
      ItemSquares(cats, last);
      OneMore(|front|, raters * raters);
      assert rows == front + [last];
    }
  }

  lemma {:induction false} ColumnIsCount(rows: Ratings, c: int)
    ensures Column(rows, c) == Count(AllGrades(rows), c)
  {
    if rows == [] {
    } else {
      ColumnIsCount(rows[..|rows| - 1], c);
      CountConcat(AllGrades(rows[..|rows| - 1]), rows[|rows| - 1], c);
    }
  }

  lemma {:induction false} ColumnsAreCounts(cats: seq<int>, rows: Ratings)
    ensures ColumnSquares(cats, rows) == SquareSum(cats, AllGrades(rows))
  {
    hide Column, AllGrades, Count;
    if cats == [] {
    } else {
      ColumnsAreCounts(cats[..|cats| - 1], rows);
      ColumnIsCount(rows, cats[|cats| - 1]);
    }
  }

  lemma {:induction false} GradesGiven(rows: Ratings, raters: int)
    requires SameLength(rows, raters)
    ensures |AllGrades(rows)| == |rows| * raters
  {
    if rows == [] {
    } else {
      GradesGiven(rows[..|rows| - 1], raters);
      OneMore(|rows| - 1, raters);
    }
  }

  /** With two grades in use, the column squares lack at least twice the ratings but one of certainty. */
  lemma ChanceIsUncertain(rows: Ratings, raters: int)
    requires rows != [] && raters >= 2 && SameLength(rows, raters)
    requires |Categories(AllGrades(rows))| >= 2
    ensures var m := |rows| * raters;
            0 <= ColumnSquares(Categories(AllGrades(rows)), rows) <= m * m - 2 * (m - 1) <= (m - 1) * m
  {
    hide Categories, AllGrades, ColumnSquares, SquareSum;
    var cats, grades, m := Categories(AllGrades(rows)), AllGrades(rows), |rows| * raters;
    MulMonotone(|rows|, 2, raters);
    CategoriesFacts(grades);
    GradesGiven(rows, raters);
    ColumnsAreCounts(cats, rows);
    ItemSquares(cats, grades);
    assert cats[0] in cats && cats[1] in cats && cats[0] < cats[1];
    assert !Unanimous(grades) by { NotUnanimous(grades, cats[0], cats[1]); }
  }

  lemma NotUnanimous(row: seq<int>, x: int, y: int)
    requires x in row && y in row && x != y
    ensures !Unanimous(row)
  {
  }

  // ---- exact fractions ----

  lemma {:induction false} ItemSumAsFraction(cats: seq<int>, rows: Ratings, raters: int)
    requires raters >= 2
    ensures raters * (raters - 1) > 0
    ensures ItemSum(cats, rows, raters) ==
            (SquareTotal(cats, rows) - |rows| * raters) as real / (raters * (raters - 1)) as real
  {
    MulMonotone(raters, 1, raters - 1);
    if rows == [] {
    } else {
      var front, last := rows[..|rows| - 1], rows[|rows| - 1];
      ItemSumAsFraction(cats, front, raters);
      hide SquareSum;
      OneMore(|front|, raters);
      FractionSum(SquareTotal(cats, front) - |front| * raters, SquareSum(cats, last) - raters, raters * (raters - 1));
    }
  }

  lemma {:induction false} SharesAsFraction(cats: seq<int>, rows: Ratings, raters: int)
    requires rows != [] && raters >= 2
    ensures var m := |rows| * raters;
            m > 0 && m * m > 0 && ShareSquares(cats, rows, raters) == ColumnSquares(cats, rows) as real / (m * m) as real
  {
    var m := |rows| * raters;
    MulMonotone(|rows|, 2, raters);
    Squares(m);
    if cats == [] {
    } else {
      var n := Column(rows, cats[|cats| - 1]);
      SharesAsFraction(cats[..|cats| - 1], rows, raters);
      FractionProduct(n, n, m);
      FractionSum(ColumnSquares(cats[..|cats| - 1], rows), n * n, m * m);
    }
  }

  lemma CastProduct(x: int, y: int)
    ensures (x * y) as real == x as real * y as real
  {
  }

  lemma DoubleQuotient(x: real, d: real, n: real)
    requires d > 0.0 && n > 0.0
    ensures x / d / n * (d * n) == x
  {
    var y := x / d;
    Undivide(x, d);
    Undivide(y, n);
    assert y / n * (d * n) == (y / n * n) * d;
  }

  lemma MeanIdentity(n: real, r: real, o: real, q: real)
    requires o * ((r * (r - 1.0)) * n) == q - n * r
    ensures ((r - 1.0) * o + 1.0) * (n * r) == q
  {
    assert ((r - 1.0) * o) * (n * r) == o * ((r * (r - 1.0)) * n);
    assert ((r - 1.0) * o + 1.0) * (n * r) == ((r - 1.0) * o) * (n * r) + n * r;
  }

  lemma QuotientOfWhole(w: real, o: real, x: real)
    requires w > 0.0 && o * w == x
    ensures x <= w ==> o <= 1.0
    ensures o == 1.0 <==> x == w
  {
    assert (1.0 - o) * w == w - x;
    if x <= w {
      NonNegativeFactor(1.0 - o, w);
    }
    if x == w {
      ZeroFactor(1.0 - o, w);
    }
  }

  lemma WholeMean(n: real, r: real)
    ensures (r * (r - 1.0)) * n == n * (r * r) - n * r
  {
  }

  lemma MeanFraction(n: real, r: real, q: real, o: real)
    requires n >= 1.0 && r >= 2.0 && r * (r - 1.0) > 0.0
    requires o == (q - n * r) / (r * (r - 1.0)) / n
    ensures ((r - 1.0) * o + 1.0) * (n * r) == q
    ensures q <= n * (r * r) ==> o <= 1.0
    ensures o == 1.0 <==> q == n * (r * r)
  {
    var d := r * (r - 1.0);
    DoubleQuotient(q - n * r, d, n);
    MeanIdentity(n, r, o, q);
    Positive(d, n);
    WholeMean(n, r);
    QuotientOfWhole(d * n, o, q - n * r);
  }

  lemma ChanceFraction(m: real, t: real, e: real)
    requires m > 0.0 && 0.0 <= t <= (m - 1.0) * m && e == t / (m * m)
    ensures e * (m * m) == t && 0.0 <= e <= 1.0 - 1.0 / m
  {
    Positive(m, m);
    Undivide(t, m * m);
    NonNegativeFactor(e, m * m);
    Undivide(1.0, m);
    assert (1.0 - 1.0 / m) * m == m - 1.0;
    assert (1.0 - 1.0 / m) * (m * m) == (m - 1.0) * m;
    assert ((1.0 - 1.0 / m) - e) * (m * m) == (m - 1.0) * m - t;
    NonNegativeFactor((1.0 - 1.0 / m) - e, m * m);
  }

  lemma Compare(n: real, r: real, o: real, e: real, q: real, t: real)
    requires n > 0.0 && r > 0.0 && ((r - 1.0) * o + 1.0) * (n * r) == q
    requires e * ((n * r) * (n * r)) == t && t <= n * q
    ensures (r - 1.0) * o + 1.0 >= r * e
  {
    var x := (r - 1.0) * o + 1.0;
    var m := n * r;
    Positive(n, r);
    Positive(n, m);
    assert n * q == x * (n * m);
    assert t == (r * e) * (n * m) by {
      assert e * (m * m) == e * (r * (n * m));
    }
    assert (x - r * e) * (n * m) == n * q - t;
    NonNegativeFactor(x - r * e, n * m);
  }

  lemma Bounds(o: real, e: real, r: int)
    requires r >= 2 && o <= 1.0 && 0.0 <= e < 1.0 && (r as real - 1.0) * o + 1.0 >= r as real * e
    ensures -1.0 / (r - 1) as real <= Corrected(o, e) <= 1.0
    ensures !CloseToOne(e) ==> (Corrected(o, e) == 1.0 <==> o == 1.0)
  {
    var s := (r - 1) as real;
    assert (-1.0 / s) * s == -1.0;
    if CloseToOne(e) {
      NonNegativeFactor(0.0 - (-1.0 / s), s);
    } else {
      var d := 1.0 - e;
      var k := (o - e) / d;
      assert k * d == o - e;
      assert (1.0 - k) * d == 1.0 - o;
      NonNegativeFactor(1.0 - k, d);
      assert (k - (-1.0 / s)) * d * s == (k * d) * s + d;
      assert (k - (-1.0 / s)) * d * s == s * o + 1.0 - r as real * e;
      NonNegativeFactor((k - (-1.0 / s)) * d, s);
      NonNegativeFactor(k - (-1.0 / s), d);
      if o == 1.0 {
        ZeroFactor(1.0 - k, d);
      }
    }
  }

  /** How the mean observed agreement `o` of `n` items with `r` ratings each depends on the sum of squares `q`. */
  predicate MeanIs(n: real, r: real, q: real, o: real) {
    ((r - 1.0) * o + 1.0) * (n * r) == q && (q <= n * (r * r) ==> o <= 1.0) && (o == 1.0 <==> q == n * (r * r))
  }

  /** How the expected agreement `e` of `m` ratings depends on the column squares `t`. */
  predicate ChanceIs(m: real, t: real, e: real) {
    m > 0.0 && e * (m * m) == t && 0.0 <= e <= 1.0 - 1.0 / m
  }

  predicate SquaresFit(n: int, r: int, q: int, t: int) {
    q <= n * (r * r) && 0 <= t <= n * q && t <= (n * r - 1) * (n * r)
  }

  predicate RealSquaresFit(n: real, r: real, q: real, t: real) {
    n >= 1.0 && r >= 2.0 && q <= n * (r * r) && t <= n * q
  }

  lemma CastSquares(n: int, r: int, q: int, t: int)
    requires n >= 1 && r >= 2 && SquaresFit(n, r, q, t)
    ensures RealSquaresFit(n as real, r as real, q as real, t as real)
    ensures (n * r) as real == n as real * r as real
    ensures q == n * (r * r) <==> q as real == n as real * (r as real * r as real)
  {
    CastProduct(n, q);
    CastProduct(n, r);
    CastProduct(n, r * r);
    CastProduct(r, r);
  }

  function MeanOf(n: real, r: real, q: real): real
    requires n >= 1.0 && r >= 2.0
  {
    Positive(r, r - 1.0);
    (q - n * r) / (r * (r - 1.0)) / n
  }

  lemma MeanOfIs(n: real, r: real, q: real)
    requires n >= 1.0 && r >= 2.0
    ensures MeanIs(n, r, q, MeanOf(n, r, q))
  {
    Positive(r, r - 1.0);
    MeanFraction(n, r, q, MeanOf(n, r, q));
  }

  lemma MeanOfParts(x: real, d: real, n: real, r: real, q: real)
    requires n >= 1.0 && r >= 2.0 && d != 0.0 && x == q - n * r && d == r * (r - 1.0)
    ensures x / d / n == MeanOf(n, r, q)
  {
  }

  lemma CastMean(n: int, r: int, q: int)
    requires n >= 1 && r >= 2 && r * (r - 1) > 0
    ensures (q - n * r) as real / (r * (r - 1)) as real / n as real == MeanOf(n as real, r as real, q as real)
  {
    hide MeanOf;
    CastProduct(n, r);
    CastProduct(r, r - 1);
    MeanOfParts((q - n * r) as real, (r * (r - 1)) as real, n as real, r as real, q as real);
  }

  lemma MeanBounds(rows: Ratings, raters: int)
    requires rows != [] && raters >= 2
    ensures MeanIs(|rows| as real, raters as real, SquareTotal(Categories(AllGrades(rows)), rows) as real,
                   MeanAgreement(rows, raters))
  {
    hide Categories, AllGrades, ItemSum, SquareTotal, MeanIs, MeanOf;
    var cats := Categories(AllGrades(rows));
    ItemSumAsFraction(cats, rows, raters);
    CastMean(|rows|, raters, SquareTotal(cats, rows));
    MeanOfIs(|rows| as real, raters as real, SquareTotal(cats, rows) as real);
  }

  lemma ChanceOf(m: real, t: real, d: real, e: real)
    requires m > 0.0 && d > 0.0 && d == m * m && 0.0 <= t <= (m - 1.0) * m && e == t / d
    ensures ChanceIs(m, t, e)
  {
    ChanceFraction(m, t, e);
  }

  lemma ChanceFromSquares(m: int, t: int, e: real)
    requires m > 0 && m * m > 0 && 0 <= t <= (m - 1) * m && e == t as real / (m * m) as real
    ensures ChanceIs(m as real, t as real, e)
  {
    hide ChanceIs;
    CastProduct(m, m);
    CastProduct(m - 1, m);
    ChanceOf(m as real, t as real, (m * m) as real, e);
  }

  lemma ChanceBounds(rows: Ratings, raters: int)
    requires rows != [] && raters >= 2
    requires SquaresFit(|rows|, raters, SquareTotal(Categories(AllGrades(rows)), rows),
                        ColumnSquares(Categories(AllGrades(rows)), rows))
    ensures ChanceIs((|rows| * raters) as real, ColumnSquares(Categories(AllGrades(rows)), rows) as real,
                     ChanceAgreement(rows, raters))
  {
    hide Categories, AllGrades, ShareSquares, ColumnSquares, SquareTotal, ChanceIs;
    var cats := Categories(AllGrades(rows));
    SharesAsFraction(cats, rows, raters);
    ChanceFromSquares(|rows| * raters, ColumnSquares(cats, rows), ChanceAgreement(rows, raters));
  }

  /** The two agreements compared: observed over chance, in terms of the same totals. */
  lemma Combine(n: real, r: real, m: real, q: real, t: real, o: real, e: real)
    requires RealSquaresFit(n, r, q, t) && MeanIs(n, r, q, o) && ChanceIs(m, t, e) && m == n * r
    ensures o <= 1.0 && (o == 1.0 <==> q == n * (r * r)) && (r - 1.0) * o + 1.0 >= r * e && 0.0 <= e <= 1.0 - 1.0 / m
  {
    Compare(n, r, o, e, q, t);
  }

  lemma Numerators(rows: Ratings, raters: int)
    requires rows != [] && raters >= 2 && SameLength(rows, raters) && |Categories(AllGrades(rows))| >= 2
    ensures |rows| * raters > 0
    ensures var o, e := MeanAgreement(rows, raters), ChanceAgreement(rows, raters);
            o <= 1.0 && (o == 1.0 <==> AllUnanimous(rows)) &&
            (!AllUnanimous(rows) ==> o <= 1.0 - 2.0 / (|rows| * raters) as real) &&
            (raters as real - 1.0) * o + 1.0 >= raters as real * e &&
            0.0 <= e <= 1.0 - 1.0 / (|rows| * raters) as real
  {
    hide *;
    var cats, n := Categories(AllGrades(rows)), |rows|;
    MulMonotone(n, 2, raters);
    SquareFacts(rows, raters);
    CastSquares(n, raters, SquareTotal(cats, rows), ColumnSquares(cats, rows));
    MeanBounds(rows, raters);
    ChanceBounds(rows, raters);
    Combine(n as real, raters as real, (n * raters) as real, SquareTotal(cats, rows) as real,
            ColumnSquares(cats, rows) as real, MeanAgreement(rows, raters), ChanceAgreement(rows, raters));
    if !AllUnanimous(rows) {
      CastGap(n, raters, SquareTotal(cats, rows));
      MeanGap(n as real, raters as real, (n * raters) as real, SquareTotal(cats, rows) as real, MeanAgreement(rows, raters));
    }
  }

  lemma CastGap(n: int, r: int, q: int)
    requires q <= n * (r * r) - 2 * (r - 1)
    ensures q as real <= n as real * (r as real * r as real) - 2.0 * (r as real - 1.0)
  {
    CastProduct(n, r * r);
    CastProduct(r, r);
  }

  lemma MeanGapIdentity(n: real, r: real, m: real, q: real, o: real)
    requires ((r - 1.0) * o + 1.0) * (n * r) == q && m == n * r
    ensures (1.0 - o) * m * (r - 1.0) == n * (r * r) - q
  {
    assert ((r - 1.0) * o + 1.0) * m == (r - 1.0) * (o * m) + m;
    assert (1.0 - o) * m * (r - 1.0) == (r - 1.0) * m - (r - 1.0) * (o * m);
    assert n * (r * r) == r * m;
    assert (r - 1.0) * m + m == r * m;
  }

  /** Squares short by 2 * (r - 1) cost the mean at least two ratings' shares. */
  lemma MeanGap(n: real, r: real, m: real, q: real, o: real)
    requires r >= 2.0 && m > 0.0 && MeanIs(n, r, q, o) && m == n * r && q <= n * (r * r) - 2.0 * (r - 1.0)
    ensures o <= 1.0 - 2.0 / m
  {
    MeanGapIdentity(n, r, m, q, o);
    assert ((1.0 - o) * m - 2.0) * (r - 1.0) == (1.0 - o) * m * (r - 1.0) - 2.0 * (r - 1.0);
    NonNegativeFactor((1.0 - o) * m - 2.0, r - 1.0);
    Undivide(2.0, m);
    assert ((1.0 - o) - 2.0 / m) * m == (1.0 - o) * m - 2.0;
    NonNegativeFactor((1.0 - o) - 2.0 / m, m);
  }

  lemma SquareFacts(rows: Ratings, raters: int)
    requires rows != [] && raters >= 2 && SameLength(rows, raters) && |Categories(AllGrades(rows))| >= 2
    ensures var cats, n := Categories(AllGrades(rows)), |rows|;
            var q, t := SquareTotal(cats, rows), ColumnSquares(cats, rows);
            SquaresFit(n, raters, q, t) && (q == n * (raters * raters) <==> AllUnanimous(rows)) &&
            (!AllUnanimous(rows) ==> q <= n * (raters * raters) - 2 * (raters - 1))
  {
    hide Categories, AllGrades, SquareTotal, ColumnSquares, SquaresByColumn, Covers, Unanimous;
    var cats := Categories(AllGrades(rows));
    CategoriesFacts(AllGrades(rows));
    RowsCovered(rows, cats);
    TotalSquares(cats, rows, raters);
    ColumnsCauchy(cats, rows);
    SquaresEitherWay(cats, rows);
    ChanceIsUncertain(rows, raters);
  }

  /** Whenever the function answers, with r ratings per usable item, kappa lies in [-1/(r-1), 1]. */
  lemma FleissRange(ratings: Ratings)
    requires Usable(ratings) != [] && Kappa(ratings).Ok?
    ensures |Usable(ratings)[0]| >= 2
    ensures -1.0 / (|Usable(ratings)[0]| - 1) as real <= Kappa(ratings).value <= 1.0
  {
    hide Categories, AllGrades, MeanAgreement, ChanceAgreement, Usable, Corrected, CloseToOne, Unanimous;
    var rows := Usable(ratings);
    UsableRows(ratings);
    var raters := |rows[0]|;
    var s := (raters - 1) as real;
    if |Categories(AllGrades(rows))| < 2 {
      assert (-1.0 / s) * s == -1.0;
      NonNegativeFactor(1.0 - (-1.0 / s), s);
    } else {
      Numerators(rows, raters);
      ShortOfOne(|rows| * raters);
      Bounds(MeanAgreement(rows, raters), ChanceAgreement(rows, raters), raters);
    }
  }

  lemma ShortOfOne(m: int)
    requires m > 0
    ensures 1.0 - 1.0 / m as real < 1.0
  {
  }

  /** Kappa is 1 exactly when every usable item is unanimous and where the tolerance takes both agreements for 1;
      with two grades in use chance agreement is never exactly 1. */
  lemma FleissIsOneIff(ratings: Ratings)
    requires Usable(ratings) != [] && Kappa(ratings).Ok?
    ensures |Usable(ratings)[0]| >= 2
    ensures var rows, raters := Usable(ratings), |Usable(ratings)[0]|;
            Kappa(ratings).value == 1.0 <==>
            AllUnanimous(rows) ||
            (|Categories(AllGrades(rows))| >= 2 && CloseToOne(ChanceAgreement(rows, raters)) &&
             CloseToOne(MeanAgreement(rows, raters)))
    ensures var rows := Usable(ratings);
            |Categories(AllGrades(rows))| >= 2 ==> ChanceAgreement(rows, |rows[0]|) < 1.0
  {
    hide Categories, AllGrades, MeanAgreement, ChanceAgreement, Usable, Corrected, AllUnanimous;
    var rows := Usable(ratings);
    UsableRows(ratings);
    var raters := |rows[0]|;
    if |Categories(AllGrades(rows))| < 2 {
      OneGradeIsUnanimous(rows);
    } else {
      var o, e := MeanAgreement(rows, raters), ChanceAgreement(rows, raters);
      Numerators(rows, raters);
      ShareBeyondTolerance(|rows| * raters);
      Bounds(o, e, raters);
      CorrectedWhenClose(o, e);
    }
  }

  lemma CorrectedWhenClose(o: real, e: real)
    ensures CloseToOne(e) ==> (Corrected(o, e) == 1.0 <==> CloseToOne(o))
    ensures CloseToOne(1.0)
  {
  }

  lemma OneGradeIsUnanimous(rows: Ratings)
    requires |Categories(AllGrades(rows))| < 2
    ensures AllUnanimous(rows)
  {
    var cats := Categories(AllGrades(rows));
    CategoriesFacts(AllGrades(rows));
    RowsCovered(rows, cats);
    forall i, j | 0 <= i < |rows| && 0 <= j < |rows[i]| ensures rows[i][j] == rows[i][0] {
      assert Covers(cats, rows[i]);
      assert rows[i][j] in cats && rows[i][0] in cats;
    }
  }

  // ---- where the tolerance decides ----

  /** `n` items on which all `r` raters agree. */
  function Agreed(n: nat, r: nat): (rows: Ratings)
    ensures |rows| == n && SameLength(rows, r)
  {
    if n == 0 then [] else Agreed(n - 1, r) + [Repeat(0, r)]
  }

  /** The same with a single odd rating on the last item. */
  function OneOddRating(n: nat, r: nat): (rows: Ratings)
    requires n > 0 && r > 0
    ensures |rows| == n && SameLength(rows, r)
  {
    Agreed(n - 1, r) + [Repeat(0, r - 1) + [1]]
  }

  lemma RowsSnoc(front: Ratings, last: seq<int>)
    ensures var rows := front + [last];
            Usable(rows) == Usable(front) + (if |last| >= 2 then [last] else []) &&
            AllGrades(rows) == AllGrades(front) + last &&
            Column(rows, 0) == Column(front, 0) + Count(last, 0) && Column(rows, 1) == Column(front, 1) + Count(last, 1) &&
            SquareTotal([0, 1], rows) == SquareTotal([0, 1], front) + SquareSum([0, 1], last)
  {
    hide Count, SquareSum;
    assert (front + [last])[..|front|] == front;
  }

  lemma {:induction false} AgreedFacts(n: nat, r: nat)
    requires r >= 2
    ensures Usable(Agreed(n, r)) == Agreed(n, r) && Column(Agreed(n, r), 0) == n * r && Column(Agreed(n, r), 1) == 0
    ensures SquareTotal([0, 1], Agreed(n, r)) == n * (r * r)
    ensures Zeros(AllGrades(Agreed(n, r)))
  {
    if n == 0 {
    } else {
      AgreedFacts(n - 1, r);
      RowsSnoc(Agreed(n - 1, r), Repeat(0, r));
      RepeatedRow(r);
      OneMore(n - 1, r);
      OneMore(n - 1, r * r);
      hide Usable, AllGrades, Column, SquareTotal, SquareSum, Count, Repeat;
      assert Agreed(n, r) == Agreed(n - 1, r) + [Repeat(0, r)];
    }
  }

  predicate Zeros(s: seq<int>) {
    forall i :: 0 <= i < |s| ==> s[i] == 0
  }

  lemma RepeatedRow(r: nat)
    ensures Zeros(Repeat(0, r)) && Count(Repeat(0, r), 0) == r && Count(Repeat(0, r), 1) == 0
    ensures SquareSum([0, 1], Repeat(0, r)) == r * r
  {
    RowSquares(Repeat(0, r));
    RepeatFacts(0, 0, r);
    RepeatFacts(0, 1, r);
    CountFacts(Repeat(0, r), 0);
  }

  lemma RowSquares(row: seq<int>)
    ensures SquareSum([0, 1], row) == Count(row, 0) * Count(row, 0) + Count(row, 1) * Count(row, 1)
  {
    assert [0, 1][..1] == [0] && [0][..0] == [];
    assert SquareSum([0], row) == Count(row, 0) * Count(row, 0);
  }

  lemma OddRow(r: nat)
    requires r >= 2
    ensures var odd := Repeat(0, r - 1) + [1];
            Count(odd, 0) == r - 1 && Count(odd, 1) == 1 && !Unanimous(odd)
  {
    hide SquareSum;
    var odd := Repeat(0, r - 1) + [1];
    assert odd[..r - 1] == Repeat(0, r - 1);
    RepeatedRow(r - 1);
    assert odd[0] == 0 && odd[r - 1] == 1;
  }

  lemma OddRowSquares(r: nat)
    requires r >= 2
    ensures SquareSum([0, 1], Repeat(0, r - 1) + [1]) == r * r - 2 * (r - 1)
  {
    hide Count, Repeat, SquareSum, Unanimous;
    OddRow(r);
    RowSquares(Repeat(0, r - 1) + [1]);
    OneLess(r);
  }

  lemma OneLess(r: int)
    ensures (r - 1) * (r - 1) + 1 == r * r - 2 * (r - 1)
  {
  }

  lemma OddTotals(n: nat, r: nat)
    requires n > 0 && r >= 2
    ensures var rows := OneOddRating(n, r);
            SquareTotal([0, 1], rows) == n * (r * r) - 2 * (r - 1) && Column(rows, 0) == n * r - 1 && Column(rows, 1) == 1
  {
    hide Usable, AllGrades, Column, SquareTotal, SquareSum, Count, Repeat, Unanimous, Agreed;
    AgreedFacts(n - 1, r);
    RowsSnoc(Agreed(n - 1, r), Repeat(0, r - 1) + [1]);
    OddRow(r);
    OddRowSquares(r);
    OneMore(n - 1, r);
    OneMore(n - 1, r * r);
  }

  lemma OddCounts(n: nat, r: nat)
    requires n > 0 && r >= 2
    ensures var rows := OneOddRating(n, r);
            Usable(rows) == rows && !AllUnanimous(rows) && Categories(AllGrades(rows)) == [0, 1] &&
            SquareTotal([0, 1], rows) == n * (r * r) - 2 * (r - 1) &&
            ColumnSquares([0, 1], rows) == (n * r - 1) * (n * r - 1) + 1
  {
    hide Usable, AllGrades, Column, SquareTotal, SquareSum, Count, Repeat, Categories, ColumnSquares, Unanimous, Agreed;
    var rows, odd := OneOddRating(n, r), Repeat(0, r - 1) + [1];
    AgreedFacts(n - 1, r);
    RowsSnoc(Agreed(n - 1, r), odd);
    OddRow(r);
    OddTotals(n, r);
    OddColumns(rows);
    RepeatedRow(r - 1);
    OddCategories(AllGrades(Agreed(n - 1, r)), Repeat(0, r - 1));
    assert rows[n - 1] == odd;
  }

  lemma OddColumns(rows: Ratings)
    ensures ColumnSquares([0, 1], rows) == Column(rows, 0) * Column(rows, 0) + Column(rows, 1) * Column(rows, 1)
  {
    assert [0, 1][..1] == [0] && [0][..0] == [];
    assert ColumnSquares([0], rows) == Column(rows, 0) * Column(rows, 0);
  }

  lemma {:induction false} Climbs(s: seq<int>, i: nat)
    requires Ascending(s) && i < |s|
    ensures s[i] >= s[0] + i
  {
    if i == 0 {
    } else {
      Climbs(s, i - 1);
    }
  }

  lemma OddCategories(zeros: seq<int>, more: seq<int>)
    requires more != [] && Zeros(zeros) && Zeros(more)
    ensures Categories(zeros + (more + [1])) == [0, 1]
  {
    var all := zeros + (more + [1]);
    var cats := Categories(all);
    CategoriesFacts(all);
    assert all[|zeros|] == 0 && all[|all| - 1] == 1;
    assert 0 in cats && 1 in cats;
    forall i | 0 <= i < |cats| ensures 0 <= cats[i] <= 1 {
      assert cats[i] in cats;
      assert cats[i] in all;
    }
    Climbs(cats, |cats| - 1);
    assert cats == [0, 1];
  }

  lemma OddMean(n: real, r: real, m: real, q: real, o: real)
    requires r >= 2.0 && m > 0.0 && MeanIs(n, r, q, o) && m == n * r && q == n * (r * r) - 2.0 * (r - 1.0)
    ensures o == 1.0 - 2.0 / m
  {
    MeanGapIdentity(n, r, m, q, o);
    SameFactor((1.0 - o) * m, 2.0, r - 1.0);
    Undivide(2.0, m);
    SameFactor(1.0 - o, 2.0 / m, m);
  }

  lemma OddChance(m: real, t: real, e: real)
    requires ChanceIs(m, t, e) && t == (m - 1.0) * (m - 1.0) + 1.0
    ensures 1.0 - 2.0 / m <= e
  {
    Undivide(2.0, m);
    Positive(m, m);
    assert (2.0 / m) * (m * m) == 2.0 * m;
    assert (e - (1.0 - 2.0 / m)) * (m * m) == t - m * m + 2.0 * m;
    NonNegativeFactor(e - (1.0 - 2.0 / m), m * m);
  }

  lemma CastOdd(n: int, r: int, q: int, t: int)
    requires q == n * (r * r) - 2 * (r - 1) && t == (n * r - 1) * (n * r - 1) + 1
    ensures q as real == n as real * (r as real * r as real) - 2.0 * (r as real - 1.0)
    ensures t as real == ((n * r) as real - 1.0) * ((n * r) as real - 1.0) + 1.0
    ensures (n * r) as real == n as real * r as real
  {
    CastProduct(n, r * r);
    CastProduct(r, r);
    CastProduct(n, r);
    CastProduct(n * r - 1, n * r - 1);
  }

  /** What one odd rating leaves of the two agreements. */
  lemma OddAgreements(n: nat, r: nat)
    requires n > 0 && r >= 2
    ensures n * r > 0
    ensures var rows, m := OneOddRating(n, r), (n * r) as real;
            MeanAgreement(rows, r) == 1.0 - 2.0 / m && 1.0 - 2.0 / m <= ChanceAgreement(rows, r) < 1.0
  {
    hide *;
    var rows := OneOddRating(n, r);
    var cats, m := Categories(AllGrades(rows)), n * r;
    MulMonotone(n, 2, r);
    OddCounts(n, r);
    var q, t := SquareTotal(cats, rows), ColumnSquares(cats, rows);
    SquareFacts(rows, r);
    MeanBounds(rows, r);
    ChanceBounds(rows, r);
    CastOdd(n, r, q, t);
    OddMean(n as real, r as real, m as real, q as real, MeanAgreement(rows, r));
    OddChance(m as real, t as real, ChanceAgreement(rows, r));
    Numerators(rows, r);
    ShareBeyondTolerance(m);
  }

  lemma DoubleShare(m: int)
    requires m > 0
    ensures 2.0 / m as real > 0.0
    ensures 2.0 / m as real <= TOLERANCE <==> m >= 2000000000
  {
    var x := m as real;
    Undivide(2.0, x);
    NonNegativeFactor(2.0 / x, x);
    assert (2.0 / x - TOLERANCE) * x == 2.0 - TOLERANCE * x;
    if 2.0 / x - TOLERANCE <= 0.0 {
      NotPositive(2.0 / x - TOLERANCE, x);
    } else {
      Positive(2.0 / x - TOLERANCE, x);
    }
  }

  /** From two thousand million ratings on, a single odd rating is scored 1.0. */
  lemma OneOddRatingScoresOne(n: nat, r: nat)
    requires n > 0 && r >= 2 && n * r >= 2000000000
    ensures Kappa(OneOddRating(n, r)) == Ok(1.0) && !AllUnanimous(Usable(OneOddRating(n, r)))
  {
    OddCounts(n, r);
    OddAgreements(n, r);
    DoubleShare(n * r);
  }

  ghost predicate OneOnlyWhenUnanimous(n: nat, r: nat) {
    forall ratings :: |Usable(ratings)| == n && SameLength(Usable(ratings), r) ==>
      (Kappa(ratings) == Ok(1.0) <==> AllUnanimous(Usable(ratings)))
  }

  /** With n usable items of r ratings each, kappa is 1 exactly when every usable item is unanimous, whatever the
      grades, if and only if there are fewer than two thousand million ratings. */
  lemma FleissIsOneIffUnanimous(n: nat, r: nat)
    requires n > 0 && r >= 2
    ensures OneOnlyWhenUnanimous(n, r) <==> n * r < 2000000000
  {
    if n * r >= 2000000000 {
      OddCounts(n, r);
      OneOddRatingScoresOne(n, r);
    } else {
      forall ratings | |Usable(ratings)| == n && SameLength(Usable(ratings), r)
        ensures Kappa(ratings) == Ok(1.0) <==> AllUnanimous(Usable(ratings))
      {
        FewRatings(ratings, r);
      }
    }
  }

  lemma FewRatings(ratings: Ratings, r: nat)
    requires Usable(ratings) != [] && r >= 2 && SameLength(Usable(ratings), r)
    requires |Usable(ratings)| * r < 2000000000
    ensures Kappa(ratings) == Ok(1.0) <==> AllUnanimous(Usable(ratings))
  {
    hide Categories, AllGrades, MeanAgreement, ChanceAgreement, Usable, Corrected, AllUnanimous;
    var rows := Usable(ratings);
    assert |rows[0]| == r;
    FleissIsOneIff(ratings);
    if |Categories(AllGrades(rows))| >= 2 {
      Numerators(rows, r);
      DoubleShare(|rows| * r);
    }
  }

  /** Chance agreement in whole numbers: what its column squares lack of the square of all ratings. */
  lemma ChanceCloseness(rows: Ratings, raters: int)
    requires rows != [] && raters >= 2 && SameLength(rows, raters) && |Categories(AllGrades(rows))| >= 2
    ensures var m, t := |rows| * raters, ColumnSquares(Categories(AllGrades(rows)), rows);
            CloseToOne(ChanceAgreement(rows, raters)) <==> 1000000000 * (m * m - t) <= m * m
  {
    hide Categories, AllGrades, ColumnSquares, ShareSquares, CloseToOne;
    var cats, m := Categories(AllGrades(rows)), |rows| * raters;
    MulMonotone(|rows|, 2, raters);
    ChanceIsUncertain(rows, raters);
    SharesAsFraction(cats, rows, raters);
    CloseFraction(ColumnSquares(cats, rows), m * m);
  }

  /** `n` usable items of `r` ratings each, with two grades in use. */
  predicate Contested(ratings: Ratings, n: nat, r: nat) {
    var rows := Usable(ratings);
    |rows| == n && SameLength(rows, r) && |Categories(AllGrades(rows))| >= 2
  }

  /** On no such input is chance agreement taken for 1. */
  ghost predicate NeverCertain(n: nat, r: nat)
    requires n > 0 && r >= 2
  {
    forall ratings :: Contested(ratings, n, r) ==> !CloseToOne(ChanceAgreement(Usable(ratings), r))
  }

  /** Neither branch of the tolerance is ever taken, if and only if there are fewer than 1,999,999,999 ratings. */
  lemma FallbacksAreDead(n: nat, r: nat)
    requires n > 0 && r >= 2
    ensures NeverCertain(n, r) <==> n * r < 1999999999
  {
    hide Categories, AllGrades, ChanceAgreement, ColumnSquares, CloseToOne, Usable, OneOddRating;
    var m := n * r;
    MulMonotone(n, 2, r);
    FirstSize(m);
    if m < 1999999999 {
      forall ratings | Contested(ratings, n, r)
        ensures !CloseToOne(ChanceAgreement(Usable(ratings), r))
      {
        ChanceIsUncertain(Usable(ratings), r);
        ChanceCloseness(Usable(ratings), r);
      }
    } else {
      var rows := OneOddRating(n, r);
      OddCounts(n, r);
      ChanceCloseness(rows, r);
      OneLess(m);
      assert Contested(rows, n, r);
    }
  }

  // ---- kappa in whole numbers ----

  /** The usable items are those that two or more annotators rated, each as often as it was given. */
  lemma {:induction false} UsableIsExact(ratings: Ratings, row: seq<int>)
    ensures row in Usable(ratings) <==> row in ratings && |row| >= 2
    ensures |Usable(ratings)| == CountOf(ratings, (r: seq<int>) => |r| >= 2)
  {
    hide CountOf;
    var twice := (r: seq<int>) => |r| >= 2;
    if ratings == [] {
      CountNone(ratings, twice);
    } else {
      var n := |ratings| - 1;
      UsableIsExact(ratings[..n], row);
      CountMore(ratings, twice);
      assert ratings == ratings[..n] + [ratings[n]];
    }
  }

  /** Pairs of equal ratings of one item, over all items; every rating pairs with itself. */
  function SameOnItems(rows: Ratings): nat {
    if rows == [] then 0 else SameOnItems(rows[..|rows| - 1]) + SamePairs(rows[|rows| - 1], rows[|rows| - 1])
  }

  lemma {:induction false} SquaresAreProducts(cats: seq<int>, row: seq<int>)
    ensures SquareSum(cats, row) == Products(cats, row, row)
  {
    if cats == [] {
    } else {
      SquaresAreProducts(cats[..|cats| - 1], row);
    }
  }

  lemma SquaresArePairs(cats: seq<int>, row: seq<int>)
    requires Ascending(cats) && Covers(cats, row)
    ensures SquareSum(cats, row) == SamePairs(row, row)
  {
    hide SquareSum, Products, SamePairs, ChancePairs;
    SquaresAreProducts(cats, row);
    ProductsArePairs(cats, row, row);
    ChanceIsSamePairs(row, row);
  }

  lemma {:induction false} TotalIsPairs(cats: seq<int>, rows: Ratings)
    requires Ascending(cats) && forall i :: 0 <= i < |rows| ==> Covers(cats, rows[i])
    ensures SquareTotal(cats, rows) == SameOnItems(rows)
  {
    hide Ascending, Covers, SquareSum, SamePairs;
    if rows == [] {
    } else {
      TotalIsPairs(cats, rows[..|rows| - 1]);
      SquaresArePairs(cats, rows[|rows| - 1]);
    }
  }

  lemma {:induction false} SquaresAtLeast(cats: seq<int>, row: seq<int>)
    ensures SquareSum(cats, row) >= SumCounts(cats, row)
  {
    if cats == [] {
    } else {
      SquaresAtLeast(cats[..|cats| - 1], row);
      OneLessSquare(Count(row, cats[|cats| - 1]));
    }
  }

  lemma OneLessSquare(n: nat)
    ensures n * n >= n
  {
  }

  /** At least every rating pairs with itself, and at most all ratings of an item with each other. */
  lemma {:induction false} PairsInRange(cats: seq<int>, rows: Ratings, raters: int)
    requires Ascending(cats) && raters >= 2 && SameLength(rows, raters)
    requires forall i :: 0 <= i < |rows| ==> Covers(cats, rows[i])
    ensures |rows| * raters <= SquareTotal(cats, rows)
  {
    hide Ascending, Covers, SquareSum;
    if rows == [] {
    } else {
      PairsInRange(cats, rows[..|rows| - 1], raters);
      CountsTotal(cats, rows[|rows| - 1]);
      SquaresAtLeast(cats, rows[|rows| - 1]);
      OneMore(|rows| - 1, raters);
    }
  }

  lemma FleissFraction(k: real, o: real, e: real, m: real, r: real, pairs: real, all: real)
    requires o * (m * (r - 1.0)) == pairs - m && e * (m * m) == all && k * (1.0 - e) == o - e
    ensures k * ((m * m - all) * (r - 1.0)) == (pairs - m) * m - all * (r - 1.0)
  {
    var q := r - 1.0;
    assert (m * m - all) * q == (1.0 - e) * ((m * m) * q) by {
      assert (1.0 - e) * (m * m) == m * m - all;
    }
    assert k * ((1.0 - e) * ((m * m) * q)) == (o - e) * ((m * m) * q);
    assert o * ((m * m) * q) == (o * (m * q)) * m;
    assert e * ((m * m) * q) == (e * (m * m)) * q;
    Difference(o, e, (m * m) * q);
  }

  lemma Difference(a: real, b: real, x: real)
    ensures (a - b) * x == a * x - b * x
  {
  }

  lemma CastFleiss(k: real, m: int, r: int, pairs: int, all: int)
    requires k * ((m as real * m as real - all as real) * (r as real - 1.0)) ==
             (pairs as real - m as real) * m as real - all as real * (r as real - 1.0)
    ensures k * ((m * m - all) * (r - 1)) as real == ((pairs - m) * m - all * (r - 1)) as real
  {
    CastProduct(m, m);
    CastProduct(m * m - all, r - 1);
    CastProduct(pairs - m, m);
    CastProduct(all, r - 1);
  }

  lemma CorrectedInPairs(k: real, o: real, e: real, m: int, r: int, pairs: int, all: int)
    requires o * (m * (r - 1)) as real == (pairs - m) as real && e * (m * m) as real == all as real
    requires k * (1.0 - e) == o - e
    ensures k * ((m * m - all) * (r - 1)) as real == ((pairs - m) * m - all * (r - 1)) as real
  {
    CastProduct(m, m);
    CastProduct(m, r - 1);
    FleissFraction(k, o, e, m as real, r as real, pairs as real, all as real);
    CastFleiss(k, m, r, pairs, all);
  }

  /** Both agreements of the usable items in pairs. */
  lemma FleissInPairs(rows: Ratings, r: int)
    requires rows != [] && r >= 2 && SameLength(rows, r) && |Categories(AllGrades(rows))| >= 2
    ensures var m, pairs, all := |rows| * r, SameOnItems(rows), SamePairs(AllGrades(rows), AllGrades(rows));
            && m <= pairs <= m * r && m * (r - 1) > 0
            && MeanAgreement(rows, r) * (m * (r - 1)) as real == (pairs - m) as real
            && ChanceAgreement(rows, r) * (m * m) as real == all as real && ChanceAgreement(rows, r) < 1.0
            && (CloseToOne(ChanceAgreement(rows, r)) <==> 1000000000 * (m * m - all) <= m * m)
  {
    hide *;
    var cats, grades, n := Categories(AllGrades(rows)), AllGrades(rows), |rows|;
    CategoriesFacts(grades);
    RowsCovered(rows, cats);
    TotalIsPairs(cats, rows);
    TotalSquares(cats, rows, r);
    MulMonotone(n, 2, r);
    RowsNotEmpty(rows, r);
    PairsInRange(cats, rows, r);
    ColumnsAreCounts(cats, rows);
    SquaresArePairs(cats, grades);
    ChanceCloseness(rows, r);
    MeanInPairs(rows, r);
    ChanceInPairs(rows, r);
    Numerators(rows, r);
    ShareBeyondTolerance(n * r);
    Regroup(n, r);
  }

  lemma RowsNotEmpty(rows: Ratings, r: int)
    requires rows != [] && r >= 2
    ensures |rows| * r > 0 && |rows| * r * (r - 1) > 0
  {
    MulMonotone(|rows|, 2, r);
    MulMonotone(|rows| * r, 1, r - 1);
  }

  lemma Regroup(n: int, r: int)
    ensures n * (r * r) == n * r * r
  {
  }

  lemma MeanCloseness(o: real, pairs: int, m: int, r: int)
    requires m <= pairs <= m * r && m * (r - 1) > 0 && o * (m * (r - 1)) as real == (pairs - m) as real
    ensures CloseToOne(o) <==> 1000000000 * (m * r - pairs) <= m * (r - 1)
  {
    hide CloseToOne;
    var w := m * (r - 1);
    Undivide((pairs - m) as real, w as real);
    SameFactor(o, (pairs - m) as real / w as real, w as real);
    CloseFraction(pairs - m, w);
    assert w - (pairs - m) == m * r - pairs;
  }

  lemma ScoredInPairs(o: real, e: real, m: int, r: int, pairs: int, all: int)
    requires m <= pairs <= m * r && m * (r - 1) > 0 && e < 1.0
    requires o * (m * (r - 1)) as real == (pairs - m) as real && e * (m * m) as real == all as real
    requires CloseToOne(e) <==> 1000000000 * (m * m - all) <= m * m
    ensures ScoreOf(Corrected(o, e), m, r, pairs, all)
  {
    hide CloseToOne, Corrected;
    MeanCloseness(o, pairs, m, r);
    CorrectedTimes(o, e);
    if !CloseToOne(e) {
      CorrectedInPairs(Corrected(o, e), o, e, m, r, pairs, all);
    }
  }

  /** What kappa is, from m ratings, r to an item, of which `pairs` agree on items and `all` overall. */
  predicate ScoreOf(k: real, m: int, r: int, pairs: int, all: int) {
    if 1000000000 * (m * m - all) <= m * m then k == if 1000000000 * (m * r - pairs) <= m * (r - 1) then 1.0 else 0.0
    else k * ((m * m - all) * (r - 1)) as real == ((pairs - m) * m - all * (r - 1)) as real
  }

  /** Kappa of n usable items with r ratings each, m = nr in all, from the equal pairs on items and the equal pairs
      overall: ((pairs - m)m - all(r - 1)) / ((m * m - all)(r - 1)), unless almost all pairs are equal; then 1 or 0 as
      those on items almost all are. */
  lemma FleissIsExact(ratings: Ratings)
    requires Usable(ratings) != [] && |Categories(AllGrades(Usable(ratings)))| >= 2
    requires SameLength(Usable(ratings), |Usable(ratings)[0]|)
    ensures var rows, r := Usable(ratings), |Usable(ratings)[0]|;
            r >= 2 && Kappa(ratings).Ok? &&
            ScoreOf(Kappa(ratings).value, |rows| * r, r, SameOnItems(rows), SamePairs(AllGrades(rows), AllGrades(rows)))
  {
    hide *;
    UsableRows(ratings);
    var rows, r := Usable(ratings), |Usable(ratings)[0]|;
    FleissInPairs(rows, r);
    KappaCorrects(ratings);
    ScoredInPairs(MeanAgreement(rows, r), ChanceAgreement(rows, r), |rows| * r, r, SameOnItems(rows),
                  SamePairs(AllGrades(rows), AllGrades(rows)));
  }

  lemma KappaCorrects(ratings: Ratings)
    requires Usable(ratings) != [] && |Categories(AllGrades(Usable(ratings)))| >= 2
    requires SameLength(Usable(ratings), |Usable(ratings)[0]|) && |Usable(ratings)[0]| >= 2
    ensures var rows, r := Usable(ratings), |Usable(ratings)[0]|;
            Kappa(ratings) == Ok(Corrected(MeanAgreement(rows, r), ChanceAgreement(rows, r)))
  {
    hide Usable, Categories, AllGrades, Corrected, MeanAgreement, ChanceAgreement;
    UsableRows(ratings);
  }

  lemma CorrectedTimes(o: real, e: real)
    requires e < 1.0
    ensures CloseToOne(e) ==> Corrected(o, e) == if CloseToOne(o) then 1.0 else 0.0
    ensures !CloseToOne(e) ==> Corrected(o, e) * (1.0 - e) == o - e
  {
  }

  lemma MeanInPairs(rows: Ratings, r: int)
    requires rows != [] && r >= 2
    ensures MeanAgreement(rows, r) * (|rows| * r * (r - 1)) as real ==
            (SquareTotal(Categories(AllGrades(rows)), rows) - |rows| * r) as real
  {
    hide Categories, AllGrades, ItemSum, SquareTotal;
    var n := |rows|;
    ItemSumAsFraction(Categories(AllGrades(rows)), rows, r);
    var x, d := (SquareTotal(Categories(AllGrades(rows)), rows) - n * r) as real, (r * (r - 1)) as real;
    DoubleQuotient(x, d, n as real);
    CastProduct(n, r * (r - 1));
    assert n * (r * (r - 1)) == n * r * (r - 1);
  }

  lemma ChanceInPairs(rows: Ratings, r: int)
    requires rows != [] && r >= 2
    ensures var m := |rows| * r;
            ChanceAgreement(rows, r) * (m * m) as real == ColumnSquares(Categories(AllGrades(rows)), rows) as real
  {
    hide Categories, AllGrades, ShareSquares, ColumnSquares;
    SharesAsFraction(Categories(AllGrades(rows)), rows, r);
    Undivide(ColumnSquares(Categories(AllGrades(rows)), rows) as real, (|rows| * r * (|rows| * r)) as real);
  }

  /** The other answers: nothing usable, one grade only, unequal numbers of ratings. */
  lemma FleissEdges(ratings: Ratings)
    ensures (forall row :: row in ratings ==> |row| < 2) ==> Kappa(ratings) == Ok(0.0)
    ensures Usable(ratings) != [] && |Categories(AllGrades(Usable(ratings)))| < 2 ==> Kappa(ratings) == Ok(1.0)
    ensures var rows := Usable(ratings);
            rows != [] && |Categories(AllGrades(rows))| >= 2 && !SameLength(rows, |rows[0]|) ==>
              Kappa(ratings) == Err(DifferentRaterCounts)
  {
    hide Categories, AllGrades;
    if Usable(ratings) != [] {
      UsableIsExact(ratings, Usable(ratings)[0]);
    }
  }
}
