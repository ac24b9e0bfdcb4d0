/** What the fit guarantees over all its iterations: when it stops, symmetry under flipped labels, independence
    of order, equal treatment of collinear features and bounded coefficients. */
module PreferenceTheory {
  import opened Prelude
  import opened RealFacts
  import opened Scoring
  import opened PreferenceFit

  // ---- where the descent stops ----

  /** The model after `k` full iterations, with no early stop. */
  function After(f: Fitter, examples: seq<Example>, k: nat): Model
    requires examples != []
  {
    if k == 0 then START.model else Step(f, After(f, examples, k - 1), examples)
  }

  function LossAfter(f: Fitter, examples: seq<Example>, k: nat): real
    requires examples != []
  {
    Loss(f, After(f, examples, k), examples)
  }

  /** The losses before the last two of `k` iterations differ by less than the tolerance. */
  predicate Settled(f: Fitter, examples: seq<Example>, k: nat)
    requires examples != []
  {
    k >= 2 && AbsR(LossAfter(f, examples, k - 2) - LossAfter(f, examples, k - 1)) < f.tolerance
  }

  ghost predicate Reached(f: Fitter, examples: seq<Example>, p: Progress)
    requires examples != []
  {
    var k := p.iteration;
    && p.model == After(f, examples, k)
    && p.previous == (if k == 0 then None else Some(LossAfter(f, examples, k - 1)))
    && p.converged == Settled(f, examples, k)
    && k <= Max(0, f.maxIterations)
    && forall j: nat :: j < k ==> !Settled(f, examples, j)
  }

  lemma {:induction false} DescendReaches(f: Fitter, p: Progress, examples: seq<Example>)
    requires examples != [] && Reached(f, examples, p)
    ensures var q := Descend(f, p, examples);
            Reached(f, examples, q) && (q.converged || q.iteration >= f.maxIterations)
    decreases f.maxIterations - p.iteration
  {
    hide Step, Loss, AbsR;
    if p.converged || p.iteration >= f.maxIterations {
    } else {
      DescendReaches(f, Advance(f, p, examples), examples);
    }
  }

  /** The fit is plain descent stopped at the first settled iteration or at the limit; the reported loss is
      that of the model before the last step. */
  lemma FitStopsWhenSettled(f: Fitter, examples: seq<Example>)
    requires Fit(f, examples).Ok?
    ensures examples != []
    ensures var c := Fit(f, examples).value; var k := c.iterations;
            && 0 <= k <= Max(0, f.maxIterations) && (c.converged <==> Settled(f, examples, k))
            && (c.converged || k == Max(0, f.maxIterations)) && (forall j: nat :: j < k ==> !Settled(f, examples, j))
            && c.logLoss == (if k == 0 then 0.0 else LossAfter(f, examples, k - 1))
            && (forall t: Term :: c.values[t] == After(f, examples, k).weights[Position(t)])
            && c.rankControl == After(f, examples, k).rank && c.intercept == After(f, examples, k).intercept
  {
    hide Step, Loss, AbsR, Descend;
    DescendReaches(f, START, examples);
  }

  // ---- order of the examples ----

  lemma SumsIgnoreOrder(f: Fitter, m: Model, maxRank: int, a: seq<Example>, b: seq<Example>)
    requires multiset(a) == multiset(b)
    ensures forall slot :: Fold(Slope(f, m, maxRank, slot), 0.0, a) == Fold(Slope(f, m, maxRank, slot), 0.0, b)
    ensures Fold(Surprise(f, m, maxRank), 0.0, a) == Fold(Surprise(f, m, maxRank), 0.0, b)
  {
    hide Error, Multiplier, Probability, ToRow;
    forall slot ensures Fold(Slope(f, m, maxRank, slot), 0.0, a) == Fold(Slope(f, m, maxRank, slot), 0.0, b) {
      FoldIgnoresOrder(Slope(f, m, maxRank, slot), 0.0, a, b);
    }
    FoldIgnoresOrder(Surprise(f, m, maxRank), 0.0, a, b);
  }

  lemma TotalsIgnoreOrder(a: seq<Example>, b: seq<Example>)
    requires multiset(a) == multiset(b)
    ensures |a| == |b| && Positives(a) == Positives(b) && MaxRank(a) == MaxRank(b)
  {
    assert |multiset(a)| == |multiset(b)|;
    FoldIgnoresOrder(CountPositive, 0, a, b);
    FoldIgnoresOrder(HigherRank, None, a, b);
  }

  lemma AdvanceIgnoresOrder(f: Fitter, p: Progress, a: seq<Example>, b: seq<Example>)
    requires a != [] && b != [] && multiset(a) == multiset(b)
    ensures Advance(f, p, a) == Advance(f, p, b)
  {
    hide Fold, MaxRank, Slope, Surprise, Penalised, Moved, SumSquares;
    TotalsIgnoreOrder(a, b);
    SumsIgnoreOrder(f, p.model, MaxRank(a), a, b);
  }

  lemma {:induction false} DescentIgnoresOrder(f: Fitter, p: Progress, a: seq<Example>, b: seq<Example>)
    requires a != [] && b != [] && multiset(a) == multiset(b)
    ensures Descend(f, p, a) == Descend(f, p, b)
    decreases f.maxIterations - p.iteration
  {
    hide Step, Loss;
    if p.converged || p.iteration >= f.maxIterations {
    } else {
      AdvanceIgnoresOrder(f, p, a, b);
      DescentIgnoresOrder(f, Advance(f, p, a), a, b);
    }
  }

  lemma FitIgnoresOrder(f: Fitter, a: seq<Example>, b: seq<Example>)
    requires multiset(a) == multiset(b)
    ensures Fit(f, a) == Fit(f, b)
  {
    hide Descend, Outcome, Positives, MaxRank;
    TotalsIgnoreOrder(a, b);
    if a != [] {
      DescentIgnoresOrder(f, START, a, b);
    }
  }

  // ---- the sigmoid ----

  /** `_sigmoid`, split on the sign of `z` so that no branch can overflow. */
  function Sigmoid(exp: real -> real, z: real): real
    requires exp(z) > 0.0 && exp(-z) > 0.0
  {
    if z >= 0.0 then 1.0 / (1.0 + exp(-z)) else exp(z) / (1.0 + exp(z))
  }

  /** What is used of it: values strictly between 0 and 1, and s(-z) = 1 - s(z). */
  predicate Logistic(s: real -> real, z: real) {
    0.0 < s(z) < 1.0 && s(-z) == 1.0 - s(z)
  }

  ghost predicate IsSigmoid(s: real -> real) {
    forall z {:trigger Logistic(s, z)} :: Logistic(s, z)
  }

  lemma Complement(x: real, y: real)
    requires x > 0.0 && y > 0.0 && x * y == 1.0
    ensures 0.0 < 1.0 / (1.0 + x) < 1.0 && 0.0 < y / (1.0 + y) < 1.0
    ensures 1.0 / (1.0 + x) == y / (1.0 + y) && x / (1.0 + x) == 1.0 - 1.0 / (1.0 + x)
    ensures 1.0 / (1.0 + y) == 1.0 - y / (1.0 + y)
  {
    var s, t := 1.0 / (1.0 + x), y / (1.0 + y);
    assert s * (1.0 + x) == 1.0 && t * (1.0 + y) == y;
    assert y * (1.0 + x) == 1.0 + y;
  }

  /** The split form agrees with the one-line logistic function, on both branches. */
  lemma SplitSigmoid(exp: real -> real, z: real)
    requires exp(z) > 0.0 && exp(-z) > 0.0 && exp(z) * exp(-z) == 1.0
    ensures Sigmoid(exp, z) == 1.0 / (1.0 + exp(-z)) && 0.0 < Sigmoid(exp, z) < 1.0
    ensures - -z == z && Sigmoid(exp, -z) == 1.0 - Sigmoid(exp, z)
  {
    Complement(exp(-z), exp(z));
    Complement(exp(z), exp(-z));
    assert - -z == z;
  }

  // ---- flipping every label ----

  function Flip(e: Example): Example {
    e.(positive := !e.positive)
  }

  function FlipAll(examples: seq<Example>): (r: seq<Example>)
    ensures |r| == |examples| && forall i :: 0 <= i < |r| ==> r[i] == Flip(examples[i])
  {
    if examples == [] then [] else FlipAll(examples[..|examples| - 1]) + [Flip(examples[|examples| - 1])]
  }

  function Opposite(ws: Vector): Vector {
    [-ws[0], -ws[1], -ws[2], -ws[3], -ws[4]]
  }

  function Negated(m: Model): Model {
    Model(Opposite(m.weights), -m.rank, -m.intercept)
  }

  function NegatedCoefficients(c: Coefficients): Coefficients {
    c.(values := map t: Term :: if t in c.values then -c.values[t] else 0.0,
       intercept := -c.intercept, rankControl := -c.rankControl)
  }

  lemma {:induction false} DotNegated(ws: seq<real>, vs: seq<real>, xs: seq<real>)
    requires |ws| == |vs| == |xs| && forall i :: 0 <= i < |ws| ==> vs[i] == -ws[i]
    ensures Dot(vs, xs) == -Dot(ws, xs)
  {
    if ws == [] {
    } else {
      var n := |ws| - 1;
      DotNegated(ws[..n], vs[..n], xs[..n]);
      NegatedProduct(ws[n], vs[n], xs[n]);
    }
  }

  lemma {:induction false} SquaresNegated(ws: seq<real>, vs: seq<real>)
    requires |ws| == |vs| && forall i :: 0 <= i < |ws| ==> vs[i] == -ws[i]
    ensures SumSquares(vs) == SumSquares(ws)
  {
    if ws == [] {
    } else {
      var n := |ws| - 1;
      SquaresNegated(ws[..n], vs[..n]);
    }
  }

  lemma ErrorNegated(f: Fitter, m: Model, e: Example, maxRank: int)
    requires IsSigmoid(f.sigmoid)
    ensures Error(f, Negated(m), ToRow(Flip(e), maxRank)) == -Error(f, m, ToRow(e, maxRank))
    ensures Probability(f, Negated(m), ToRow(Flip(e), maxRank)) == Probability(f, m, ToRow(e, maxRank))
  {
    hide Dot, IsSigmoid;
    var row, flipped := ToRow(e, maxRank), ToRow(Flip(e), maxRank);
    DotNegated(m.weights, Opposite(m.weights), row.features);
    NegatedProduct(m.rank, -m.rank, row.rank);
    assert Score(Negated(m), flipped) == -Score(m, row);
    SigmoidAt(f.sigmoid, Score(m, row));
  }

  lemma SigmoidAt(s: real -> real, z: real)
    requires IsSigmoid(s)
    ensures 0.0 < s(z) < 1.0 && s(-z) == 1.0 - s(z)
  {
    assert Logistic(s, z);
  }

  lemma FlipKeepsMultiplier(e: Example, maxRank: int, slot: Slot)
    ensures Multiplier(ToRow(Flip(e), maxRank), slot) == Multiplier(ToRow(e, maxRank), slot)
  {
  }

  lemma StepNegated(f: Fitter, m: Model, maxRank: int, slot: Slot, e: Example, sum: real, opposite: real, loss: real)
    requires IsSigmoid(f.sigmoid) && opposite == -sum
    ensures Slope(f, Negated(m), maxRank, slot)(opposite, Flip(e)) == -Slope(f, m, maxRank, slot)(sum, e)
    ensures Surprise(f, Negated(m), maxRank)(loss, Flip(e)) == Surprise(f, m, maxRank)(loss, e)
  {
    hide Error, Probability, Negated, IsSigmoid, ToRow, Multiplier, Flip, MaxR;
    ErrorNegated(f, m, e, maxRank);
    FlipKeepsMultiplier(e, maxRank, slot);
    NegatedProduct(Error(f, m, ToRow(e, maxRank)), Error(f, Negated(m), ToRow(Flip(e), maxRank)),
                   Multiplier(ToRow(e, maxRank), slot));
  }

  lemma {:induction false} SumsNegated(f: Fitter, m: Model, maxRank: int, slot: Slot, examples: seq<Example>)
    requires IsSigmoid(f.sigmoid)
    ensures Fold(Slope(f, Negated(m), maxRank, slot), 0.0, FlipAll(examples)) == -Fold(Slope(f, m, maxRank, slot), 0.0, examples)
    ensures Fold(Surprise(f, Negated(m), maxRank), 0.0, FlipAll(examples)) == Fold(Surprise(f, m, maxRank), 0.0, examples)
  {
    hide Slope, Surprise, Negated, IsSigmoid, Flip;
    if examples == [] {
    } else {
      var front, e := examples[..|examples| - 1], examples[|examples| - 1];
      SumsNegated(f, m, maxRank, slot, front);
      StepNegated(f, m, maxRank, slot, e, Fold(Slope(f, m, maxRank, slot), 0.0, front),
                  Fold(Slope(f, Negated(m), maxRank, slot), 0.0, FlipAll(front)),
                  Fold(Surprise(f, m, maxRank), 0.0, front));
      hide FlipAll;
      assert FlipAll(examples)[..|front|] == FlipAll(front);
    }
  }

  lemma {:induction false} FlippedTotals(examples: seq<Example>)
    ensures Positives(FlipAll(examples)) == |examples| - Positives(examples)
    ensures Fold(HigherRank, None, FlipAll(examples)) == Fold(HigherRank, None, examples)
  {
    if examples == [] {
    } else {
      var front := examples[..|examples| - 1];
      FlippedTotals(front);
      assert FlipAll(examples)[..|front|] == FlipAll(front);
    }
  }

  lemma MovedNegated(f: Fitter, slot: Slot, w: real, g: real, n: real)
    requires n > 0.0
    ensures Moved(f, slot, -w, -g, n) == -Moved(f, slot, w, g, n)
  {
    NegatedProduct(f.learningRate, -f.learningRate, g);
    assert -g / n == -(g / n) && f.l2 * -w / n == -(f.l2 * w / n);
  }

  lemma AdvanceNegated(f: Fitter, p: Progress, examples: seq<Example>)
    requires examples != [] && IsSigmoid(f.sigmoid)
    ensures Advance(f, p.(model := Negated(p.model)), FlipAll(examples)) ==
            var q := Advance(f, p, examples); q.(model := Negated(q.model))
  {
    hide Fold, Slope, Surprise, Penalised, Moved, SumSquares, IsSigmoid, AbsR;
    var m, flipped := p.model, FlipAll(examples);
    FlippedTotals(examples);
    SquaresNegated(m.weights, Opposite(m.weights));
    forall slot ensures MovedIn(f, Negated(m), flipped, slot) == -MovedIn(f, m, examples, slot) {
      SumsNegated(f, m, MaxRank(examples), slot, examples);
      MovedNegated(f, slot, Coordinate(m, slot), Gradient(f, m, examples, slot), |examples| as real);
    }
    SumsNegated(f, m, MaxRank(examples), Rank, examples);
    hide MovedIn;
    assert Loss(f, Negated(m), flipped) == Loss(f, m, examples);
  }

  lemma {:induction false} DescentNegated(f: Fitter, p: Progress, examples: seq<Example>)
    requires examples != [] && IsSigmoid(f.sigmoid)
    ensures Descend(f, p.(model := Negated(p.model)), FlipAll(examples)) ==
            var q := Descend(f, p, examples); q.(model := Negated(q.model))
    decreases f.maxIterations - p.iteration
  {
    hide Step, Loss, IsSigmoid, Negated, AbsR;
    if p.converged || p.iteration >= f.maxIterations {
    } else {
      AdvanceNegated(f, p, examples);
      DescentNegated(f, Advance(f, p, examples), examples);
    }
  }

  lemma OutcomeNegated(p: Progress)
    ensures Outcome(p.(model := Negated(p.model))) == NegatedCoefficients(Outcome(p))
  {
    var ws, c, d := p.model.weights, Outcome(p), Outcome(p.(model := Negated(p.model)));
    forall t: Term ensures d.values[t] == NegatedCoefficients(c).values[t] {
      OppositeAt(ws, t);
    }
  }

  lemma OppositeAt(ws: Vector, t: Term)
    ensures Opposite(ws)[Position(t)] == -ws[Position(t)]
  {
  }

  /** Flipping every label negates all coefficients and keeps loss, iterations and convergence. */
  lemma MirrorSymmetry(f: Fitter, examples: seq<Example>)
    requires IsSigmoid(f.sigmoid)
    ensures Fit(f, FlipAll(examples)) ==
            match Fit(f, examples) case Ok(c) => Ok(NegatedCoefficients(c)) case Err(e) => Err(e)
  {
    hide Descend, Positives, IsSigmoid, Outcome, NegatedCoefficients, Negated, FlipAll;
    FlippedTotals(examples);
    if examples != [] {
      DescentNegated(f, START, examples);
      NothingNegated();
      OutcomeNegated(Descend(f, START, examples));
    }
  }

  lemma NothingNegated()
    ensures START.(model := Negated(START.model)) == START
  {
  }

  // ---- collinear features ----

  ghost predicate Alike(examples: seq<Example>, s: Term, t: Term) {
    forall i :: 0 <= i < |examples| ==> Subscore(examples[i], s) == Subscore(examples[i], t)
  }

  lemma FeatureOfRow(e: Example, maxRank: int, t: Term)
    ensures Multiplier(ToRow(e, maxRank), Feature(t)) == Subscore(e, t)
  {
  }

  lemma {:induction false} SlopesAlike(f: Fitter, m: Model, maxRank: int, examples: seq<Example>, s: Term, t: Term)
    requires Alike(examples, s, t)
    ensures Fold(Slope(f, m, maxRank, Feature(s)), 0.0, examples) == Fold(Slope(f, m, maxRank, Feature(t)), 0.0, examples)
  {
    hide Error, ToRow, Multiplier, Subscore;
    if examples == [] {
    } else {
      var e := examples[|examples| - 1];
      SlopesAlike(f, m, maxRank, examples[..|examples| - 1], s, t);
      FeatureOfRow(e, maxRank, s);
      FeatureOfRow(e, maxRank, t);
    }
  }

  lemma {:induction false} WeightsAlike(f: Fitter, examples: seq<Example>, s: Term, t: Term, k: nat)
    requires examples != [] && Alike(examples, s, t)
    ensures After(f, examples, k).weights[Position(s)] == After(f, examples, k).weights[Position(t)]
  {
    hide Fold, Slope, Alike, Moved;
    if k == 0 {
    } else {
      var m := After(f, examples, k - 1);
      WeightsAlike(f, examples, s, t, k - 1);
      SlopesAlike(f, m, MaxRank(examples), examples, s, t);
      MovedAlike(f, s, t, m.weights[Position(s)], Gradient(f, m, examples, Feature(s)), |examples| as real);
      assert MovedIn(f, m, examples, Feature(s)) == MovedIn(f, m, examples, Feature(t));
    }
  }

  lemma MovedAlike(f: Fitter, s: Term, t: Term, w: real, g: real, n: real)
    requires n > 0.0
    ensures Moved(f, Feature(s), w, g, n) == Moved(f, Feature(t), w, g, n)
  {
  }

  /** Two sub-scores that agree on every example get the same coefficient, never opposite ones. */
  lemma CollinearFeaturesShare(f: Fitter, examples: seq<Example>, s: Term, t: Term)
    requires Fit(f, examples).Ok? && Alike(examples, s, t)
    ensures Fit(f, examples).value.values[s] == Fit(f, examples).value.values[t]
  {
    hide Alike, Step, Fit, Settled;
    FitStopsWhenSettled(f, examples);
    WeightsAlike(f, examples, s, t, Fit(f, examples).value.iterations);
  }

  // ---- how far a coefficient can go ----

  predicate ScoresInUnit(e: Example) {
    forall t :: 0.0 <= Subscore(e, t) <= 1.0
  }

  predicate Scaled(examples: seq<Example>) {
    forall i :: 0 <= i < |examples| ==>
      ScoresInUnit(examples[i]) && (examples[i].rank.Some? ==> examples[i].rank.value >= 0)
  }

  lemma {:induction false} RanksBelowMax(examples: seq<Example>, i: nat)
    requires i < |examples| && examples[i].rank.Some?
    ensures examples[i].rank.value <= MaxRank(examples)
    ensures Fold(HigherRank, None, examples).Some?
  {
    if i >= |examples| - 1 {
    } else {
      RanksBelowMax(examples[..|examples| - 1], i);
    }
  }

  lemma MultipliersInUnit(examples: seq<Example>, i: nat, slot: Slot)
    requires Scaled(examples) && i < |examples|
    ensures 0.0 <= Multiplier(ToRow(examples[i], MaxRank(examples)), slot) <= 1.0
  {
    hide MaxRank;
    var e, maxRank := examples[i], MaxRank(examples);
    assert ScoresInUnit(e);
    if e.rank.Some? {
      RanksBelowMax(examples, i);
      if maxRank > 0 {
        Quotient(e.rank.value, maxRank);
      }
    }
    if slot.Feature? {
      FeatureOfRow(e, maxRank, slot.term);
    }
  }

  lemma SlopeInUnit(f: Fitter, m: Model, slot: Slot, examples: seq<Example>, i: nat, sum: real)
    requires IsSigmoid(f.sigmoid) && Scaled(examples) && i < |examples|
    ensures -1.0 <= Slope(f, m, MaxRank(examples), slot)(sum, examples[i]) - sum <= 1.0
  {
    hide Score, Scaled, MaxRank, IsSigmoid, ToRow, Multiplier;
    var row := ToRow(examples[i], MaxRank(examples));
    MultipliersInUnit(examples, i, slot);
    SigmoidAt(f.sigmoid, Score(m, row));
    SmallProduct(Error(f, m, row), Multiplier(row, slot));
  }

  lemma {:induction false} SlopesBounded(f: Fitter, m: Model, slot: Slot, examples: seq<Example>, n: nat)
    requires IsSigmoid(f.sigmoid) && Scaled(examples) && n <= |examples|
    ensures AbsR(Fold(Slope(f, m, MaxRank(examples), slot), 0.0, examples[..n])) <= n as real
  {
    hide Slope, Scaled, MaxRank, IsSigmoid;
    if n == 0 {
      assert examples[..0] == [];
    } else {
      SlopesBounded(f, m, slot, examples, n - 1);
      SlopeInUnit(f, m, slot, examples, n - 1, Fold(Slope(f, m, MaxRank(examples), slot), 0.0, examples[..n - 1]));
      assert examples[..n][..n - 1] == examples[..n - 1];
    }
  }

  lemma GradientBounded(f: Fitter, m: Model, slot: Slot, examples: seq<Example>)
    requires IsSigmoid(f.sigmoid) && Scaled(examples)
    ensures AbsR(Gradient(f, m, examples, slot)) <= |examples| as real
  {
    assert examples[..|examples|] == examples;
    SlopesBounded(f, m, slot, examples, |examples|);
  }

  /** Shrinking by the L2 term outweighs the largest possible push once a coordinate reaches n / l2. */
  lemma StepBounded(rate: real, l2: real, n: real, w: real, g: real)
    requires rate >= 0.0 && l2 > 0.0 && n > 0.0 && rate * l2 <= n
    requires AbsR(w) <= n / l2 && AbsR(g) <= n
    ensures AbsR(w - rate * (g / n + l2 * w / n)) <= n / l2
  {
    hide AbsR;
    var b, a, u, v := n / l2, rate * l2 / n, g / n, l2 * w / n;
    Undivide(n, l2);
    Undivide(rate * l2, n);
    Undivide(g, n);
    Undivide(l2 * w, n);
    UnitQuotient(a, n, rate, l2);
    SignedUnit(u, n, g);
    SameRate(rate, l2, n, a, b);
    SameShrink(rate, l2, n, a, w, v);
    NonNegativeFactor(b, l2);
    Contracts(a, b, w, u, rate);
    Distributes(rate, u, v);
  }

  lemma UnitQuotient(a: real, n: real, x: real, y: real)
    requires n > 0.0 && a * n == x * y && x >= 0.0 && y > 0.0 && x * y <= n
    ensures 0.0 <= a <= 1.0
  {
    NonNegativeProduct(x, y);
    NonNegativeFactor(a, n);
    NonNegativeFactor(1.0 - a, n);
  }

  lemma SignedUnit(u: real, n: real, g: real)
    requires n > 0.0 && u * n == g && AbsR(g) <= n
    ensures -1.0 <= u <= 1.0
  {
    NonNegativeFactor(1.0 - u, n);
    NonNegativeFactor(1.0 + u, n);
  }

  lemma SameRate(rate: real, l2: real, n: real, a: real, b: real)
    requires l2 > 0.0 && n > 0.0 && a * n == rate * l2 && b * l2 == n
    ensures rate == a * b
  {
    assert (a * b) * l2 == a * (b * l2);
    SameFactor(rate, a * b, l2);
  }

  lemma SameShrink(rate: real, l2: real, n: real, a: real, w: real, v: real)
    requires n > 0.0 && a * n == rate * l2 && v * n == l2 * w
    ensures rate * v == a * w
  {
    assert (rate * v) * n == rate * (v * n);
    assert (a * w) * n == (a * n) * w;
    assert rate * (l2 * w) == (rate * l2) * w;
    SameFactor(rate * v, a * w, n);
  }

  lemma Contracts(a: real, b: real, w: real, u: real, c: real)
    requires 0.0 <= a <= 1.0 && b >= 0.0 && AbsR(w) <= b && -1.0 <= u <= 1.0 && c == a * b
    ensures AbsR(w - (c * u + a * w)) <= b
  {
    NonNegativeProduct(a, b);
    NonNegativeProduct(1.0 - a, b - w);
    NonNegativeProduct(1.0 - a, b + w);
    NonNegativeProduct(c, 1.0 - u);
    NonNegativeProduct(c, 1.0 + u);
  }

  predicate Within(m: Model, b: real) {
    AbsR(m.rank) <= b && forall t: Term :: AbsR(m.weights[Position(t)]) <= b
  }

  lemma CoordinateBounded(f: Fitter, m: Model, examples: seq<Example>, slot: Slot)
    requires examples != [] && IsSigmoid(f.sigmoid) && Scaled(examples) && slot != Intercept
    requires f.learningRate >= 0.0 && f.l2 > 0.0 && f.learningRate * f.l2 <= |examples| as real
    requires AbsR(Coordinate(m, slot)) <= |examples| as real / f.l2
    ensures AbsR(MovedIn(f, m, examples, slot)) <= |examples| as real / f.l2
  {
    hide Scaled, IsSigmoid, Gradient, Coordinate, Moved;
    GradientBounded(f, m, slot, examples);
    MovedBounded(f, slot, Coordinate(m, slot), Gradient(f, m, examples, slot), |examples| as real);
  }

  lemma MovedBounded(f: Fitter, slot: Slot, w: real, g: real, n: real)
    requires n > 0.0 && slot != Intercept && f.learningRate >= 0.0 && f.l2 > 0.0 && f.learningRate * f.l2 <= n
    requires AbsR(w) <= n / f.l2 && AbsR(g) <= n
    ensures AbsR(Moved(f, slot, w, g, n)) <= n / f.l2
  {
    hide AbsR;
    StepBounded(f.learningRate, f.l2, n, w, g);
  }

  lemma {:induction false} DescentBounded(f: Fitter, examples: seq<Example>, k: nat)
    requires examples != [] && IsSigmoid(f.sigmoid) && Scaled(examples)
    requires f.learningRate >= 0.0 && f.l2 > 0.0 && f.learningRate * f.l2 <= |examples| as real
    ensures Within(After(f, examples, k), |examples| as real / f.l2)
  {
    hide Scaled, IsSigmoid, MovedIn, AbsR;
    if k == 0 {
      Undivide(|examples| as real, f.l2);
      NonNegativeFactor(|examples| as real / f.l2, f.l2);
      Nothing(|examples| as real / f.l2);
    } else {
      var m := After(f, examples, k - 1);
      DescentBounded(f, examples, k - 1);
      CoordinateBounded(f, m, examples, Rank);
      forall t: Term ensures AbsR(After(f, examples, k).weights[Position(t)]) <= |examples| as real / f.l2 {
        CoordinateBounded(f, m, examples, Feature(t));
      }
    }
  }

  lemma Nothing(b: real)
    requires b >= 0.0
    ensures AbsR(0.0) <= b
  {
  }

  /** No sub-score coefficient, nor the rank control, exceeds n / l2, wherever the descent stops. */
  lemma CoefficientsBounded(f: Fitter, examples: seq<Example>)
    requires IsSigmoid(f.sigmoid) && Scaled(examples) && Fit(f, examples).Ok?
    requires f.learningRate >= 0.0 && f.l2 > 0.0 && f.learningRate * f.l2 <= |examples| as real
    ensures var c, b := Fit(f, examples).value, |examples| as real / f.l2;
            AbsR(c.rankControl) <= b && forall t: Term :: AbsR(c.values[t]) <= b
  {
    hide Scaled, IsSigmoid, Step, Fit, Settled, AbsR;
    FitStopsWhenSettled(f, examples);
    DescentBounded(f, examples, Fit(f, examples).value.iterations);
  }

  // ---- which way a coefficient moves ----

  /** Term `t` scores on positive examples only. */
  ghost predicate OneSided(examples: seq<Example>, t: Term) {
    forall i :: 0 <= i < |examples| ==>
      Subscore(examples[i], t) >= 0.0 && (!examples[i].positive ==> Subscore(examples[i], t) == 0.0)
  }

  ghost predicate Seen(examples: seq<Example>, t: Term) {
    exists i :: 0 <= i < |examples| && Subscore(examples[i], t) > 0.0
  }

  lemma SlopeOneSided(f: Fitter, m: Model, maxRank: int, t: Term, e: Example, sum: real)
    requires IsSigmoid(f.sigmoid) && Subscore(e, t) >= 0.0 && (!e.positive ==> Subscore(e, t) == 0.0)
    ensures Slope(f, m, maxRank, Feature(t))(sum, e) <= sum
    ensures Subscore(e, t) > 0.0 ==> Slope(f, m, maxRank, Feature(t))(sum, e) < sum
  {
    hide Score, ToRow, Multiplier, Subscore, IsSigmoid;
    var row, x := ToRow(e, maxRank), Subscore(e, t);
    FeatureOfRow(e, maxRank, t);
    RowKeepsLabel(e, maxRank);
    SigmoidAt(f.sigmoid, Score(m, row));
    SignedPush(Error(f, m, row), x, e.positive);
  }

  lemma RowKeepsLabel(e: Example, maxRank: int)
    ensures ToRow(e, maxRank).positive == e.positive
  {
  }

  lemma SignedPush(error: real, x: real, positive: bool)
    requires x >= 0.0 && (positive ==> error < 0.0) && (!positive ==> x == 0.0)
    ensures error * x <= 0.0 && (x > 0.0 ==> error * x < 0.0)
  {
    if x > 0.0 {
      NegativeProduct(error, x);
    }
  }

  lemma {:induction false} OneSidedGradient(f: Fitter, m: Model, maxRank: int, t: Term, examples: seq<Example>)
    requires IsSigmoid(f.sigmoid) && OneSided(examples, t)
    ensures Fold(Slope(f, m, maxRank, Feature(t)), 0.0, examples) <= 0.0
    ensures Seen(examples, t) ==> Fold(Slope(f, m, maxRank, Feature(t)), 0.0, examples) < 0.0
  {
    hide Slope, IsSigmoid, Subscore;
    if examples == [] {
    } else {
      var front, e := examples[..|examples| - 1], examples[|examples| - 1];
      OneSidedGradient(f, m, maxRank, t, front);
      SlopeOneSided(f, m, maxRank, t, e, Fold(Slope(f, m, maxRank, Feature(t)), 0.0, front));
      assert Seen(examples, t) ==> Seen(front, t) || Subscore(e, t) > 0.0 by {
        if i :| 0 <= i < |examples| && Subscore(examples[i], t) > 0.0 {
          assert i < |front| ==> front[i] == examples[i];
        }
      }
    }
  }

  lemma StepUpwards(rate: real, l2: real, n: real, w: real, g: real)
    requires rate >= 0.0 && l2 >= 0.0 && n > 0.0 && rate * l2 <= n && w >= 0.0 && g <= 0.0
    ensures w - rate * (g / n + l2 * w / n) >= 0.0
    ensures rate > 0.0 && g < 0.0 ==> w - rate * (g / n + l2 * w / n) > 0.0
  {
    var a, u, v := rate * l2 / n, g / n, l2 * w / n;
    Undivide(rate * l2, n);
    Undivide(g, n);
    Undivide(l2 * w, n);
    SameShrink(rate, l2, n, a, w, v);
    NonNegativeFactor(1.0 - a, n);
    NonNegativeProduct(1.0 - a, w);
    NonNegativeFactor(-u, n);
    NonNegativeProduct(rate, -u);
    Distributes(rate, u, v);
    if rate > 0.0 && g < 0.0 {
      Positive(rate, -u);
    }
  }

  lemma MovedUpwards(f: Fitter, t: Term, w: real, g: real, n: real)
    requires f.learningRate >= 0.0 && f.l2 >= 0.0 && n > 0.0 && f.learningRate * f.l2 <= n && w >= 0.0 && g <= 0.0
    ensures Moved(f, Feature(t), w, g, n) >= 0.0
    ensures f.learningRate > 0.0 && g < 0.0 ==> Moved(f, Feature(t), w, g, n) > 0.0
  {
    StepUpwards(f.learningRate, f.l2, n, w, g);
  }

  lemma {:induction false} WeightStaysPositive(f: Fitter, examples: seq<Example>, t: Term, k: nat)
    requires examples != [] && IsSigmoid(f.sigmoid) && OneSided(examples, t)
    requires f.learningRate >= 0.0 && f.l2 >= 0.0 && f.learningRate * f.l2 <= |examples| as real
    ensures After(f, examples, k).weights[Position(t)] >= 0.0
    ensures k > 0 && f.learningRate > 0.0 && Seen(examples, t) ==> After(f, examples, k).weights[Position(t)] > 0.0
  {
    hide Fold, Slope, IsSigmoid, OneSided, Seen, Moved;
    if k == 0 {
    } else {
      var m := After(f, examples, k - 1);
      WeightStaysPositive(f, examples, t, k - 1);
      OneSidedGradient(f, m, MaxRank(examples), t, examples);
      MovedUpwards(f, t, m.weights[Position(t)], Gradient(f, m, examples, Feature(t)), |examples| as real);
      assert After(f, examples, k).weights[Position(t)] == MovedIn(f, m, examples, Feature(t));
    }
  }

  /** A sub-score that only positive examples show never gets a negative coefficient, and after one iteration
      it has a positive one. */
  lemma PositiveSignalIsRewarded(f: Fitter, examples: seq<Example>, t: Term)
    requires Fit(f, examples).Ok? && IsSigmoid(f.sigmoid) && OneSided(examples, t)
    requires f.learningRate >= 0.0 && f.l2 >= 0.0 && f.learningRate * f.l2 <= |examples| as real
    ensures Fit(f, examples).value.values[t] >= 0.0
    ensures f.learningRate > 0.0 && f.maxIterations > 0 && Seen(examples, t) ==> Fit(f, examples).value.values[t] > 0.0
  {
    hide IsSigmoid, OneSided, Seen, Step, Fit, AbsR;
    FitStopsWhenSettled(f, examples);
    WeightStaysPositive(f, examples, t, Fit(f, examples).value.iterations);
  }
}
