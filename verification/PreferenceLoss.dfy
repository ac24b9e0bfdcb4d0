/** What the fit descends on: the gradient it sums up is that of the loss it reports, with the rank control penalised
    as well. */
module PreferenceLoss {
  import opened Prelude
  import opened RealFacts
  import opened Scoring
  import opened PreferenceFit
  import opened PreferenceTheory

  // ---- the score is linear ----

  lemma {:induction false} DotOfFive(ws: Vector, xs: Vector)
    ensures Dot(ws, xs) == ws[0] * xs[0] + ws[1] * xs[1] + ws[2] * xs[2] + ws[3] * xs[3] + ws[4] * xs[4]
  {
    DotPrefix(ws, xs, 0);
    DotPrefix(ws, xs, 1);
    DotPrefix(ws, xs, 2);
    DotPrefix(ws, xs, 3);
    DotPrefix(ws, xs, 4);
    hide Dot;
    assert ws[..0] == [] && ws[..5] == ws && xs[..5] == xs;
  }

  lemma {:induction false} DotPrefix(ws: Vector, xs: Vector, n: nat)
    requires n < 5
    ensures Dot(ws[..n + 1], xs[..n + 1]) == Dot(ws[..n], xs[..n]) + ws[n] * xs[n]
    ensures Dot(ws[..0], xs[..0]) == 0.0
  {
    assert ws[..n + 1][..n] == ws[..n] && xs[..n + 1][..n] == xs[..n];
  }

  /** The zero model scores nothing, and moving the coordinates moves the score by what the row has there: its
      features, its rank and one. */
  lemma ScoreMoves(m: Model, k: Model, row: Row)
    ensures Score(Model(ZEROS, 0.0, 0.0), row) == 0.0
    ensures Score(k, row) - Score(m, row) ==
            (k.weights[0] - m.weights[0]) * row.features[0] + (k.weights[1] - m.weights[1]) * row.features[1] +
            (k.weights[2] - m.weights[2]) * row.features[2] + (k.weights[3] - m.weights[3]) * row.features[3] +
            (k.weights[4] - m.weights[4]) * row.features[4] + (k.rank - m.rank) * row.rank + (k.intercept - m.intercept)
  {
    DotOfFive(m.weights, row.features);
    DotOfFive(k.weights, row.features);
    DotOfFive(ZEROS, row.features);
    hide Dot;
    forall i | 0 <= i < 5 ensures (k.weights[i] - m.weights[i]) * row.features[i] ==
        k.weights[i] * row.features[i] - m.weights[i] * row.features[i] {
      Difference(k.weights[i], m.weights[i], row.features[i]);
    }
    Difference(k.rank, m.rank, row.rank);
  }

  lemma Difference(a: real, b: real, x: real)
    ensures (a - b) * x == a * x - b * x
  {
  }

  // ---- sums over the seven coordinates ----

  function Seven(g: Slot -> real): real {
    g(Feature(SkillCoverage)) + g(Feature(RequirementAlignment)) + g(Feature(SeniorityFit)) +
    g(Feature(SemanticSimilarity)) + g(Feature(Freshness)) + g(Rank) + g(Intercept)
  }

  function Move(m: Model, k: Model, slot: Slot): real {
    Coordinate(k, slot) - Coordinate(m, slot)
  }

  /** What a row makes of the moves. */
  function Along(m: Model, k: Model, row: Row): Slot -> real {
    slot => Multiplier(row, slot) * Move(m, k, slot)
  }

  lemma ScoreIsSeven(m: Model, k: Model, row: Row)
    ensures Score(k, row) - Score(m, row) == Seven(Along(m, k, row))
  {
    ScoreMoves(m, k, row);
    hide Score;
    assert row.features[Position(SkillCoverage)] == row.features[0];
  }

  // ---- one example ----

  /** The tangent of -log(sigmoid) at `z`, whose slope is sigmoid - 1, lies below the curve at `y`. */
  predicate TangentBelow(f: Fitter, z: real, y: real) {
    -f.log(f.sigmoid(y)) >= -f.log(f.sigmoid(z)) + (f.sigmoid(z) - 1.0) * (y - z)
  }

  ghost predicate Convex(f: Fitter) {
    forall z, y :: TangentBelow(f, z, y)
  }

  predicate Clear(f: Fitter, m: Model, row: Row) {
    Probability(f, m, row) >= 0.000000000001
  }

  /** No predicted probability is clamped. */
  predicate Unclamped(f: Fitter, m: Model, maxRank: int, examples: seq<Example>) {
    forall i :: 0 <= i < |examples| ==> Clear(f, m, ToRow(examples[i], maxRank))
  }

  lemma Mirrored(f: Fitter, z: real, y: real)
    requires Convex(f) && IsSigmoid(f.sigmoid)
    ensures -f.log(1.0 - f.sigmoid(y)) >= -f.log(1.0 - f.sigmoid(z)) + f.sigmoid(z) * (y - z)
  {
    SigmoidAt(f.sigmoid, z);
    SigmoidAt(f.sigmoid, y);
    assert TangentBelow(f, -z, -y);
    TwoSigns(f.sigmoid(z), y - z);
    assert (f.sigmoid(-z) - 1.0) * (-y - -z) == f.sigmoid(z) * (y - z);
  }

  lemma TwoSigns(a: real, d: real)
    ensures (1.0 - a - 1.0) * -d == a * d
  {
  }

  lemma RowTangent(f: Fitter, m: Model, k: Model, row: Row)
    requires Convex(f) && IsSigmoid(f.sigmoid) && Clear(f, m, row) && Clear(f, k, row)
    ensures -f.log(MaxR(Probability(f, k, row), 0.000000000001)) >=
            -f.log(MaxR(Probability(f, m, row), 0.000000000001)) + Error(f, m, row) * (Score(k, row) - Score(m, row))
  {
    hide Score, Convex, IsSigmoid;
    if row.positive {
      TangentHere(f, Score(m, row), Score(k, row));
    } else {
      Mirrored(f, Score(m, row), Score(k, row));
    }
  }

  lemma TangentHere(f: Fitter, z: real, y: real)
    requires Convex(f)
    ensures TangentBelow(f, z, y)
  {
  }

  // ---- all examples ----

  function RawLoss(f: Fitter, m: Model, maxRank: int, examples: seq<Example>): real {
    Fold(Surprise(f, m, maxRank), 0.0, examples)
  }

  /** What one example adds to the loss: the negative logarithm of the probability given to its label, which is clamped
      at 1e-12. */
  lemma LossGrowsByLabel(f: Fitter, m: Model, maxRank: int, examples: seq<Example>, e: Example)
    ensures var row, x := ToRow(e, maxRank), ToRow(e, maxRank).features;
            var z := m.intercept + m.rank * row.rank + m.weights[0] * x[0] + m.weights[1] * x[1] + m.weights[2] * x[2] +
                     m.weights[3] * x[3] + m.weights[4] * x[4];
            var p := if e.positive then f.sigmoid(z) else 1.0 - f.sigmoid(z);
            RawLoss(f, m, maxRank, examples + [e]) ==
            RawLoss(f, m, maxRank, examples) - f.log(if p < 0.000000000001 then 0.000000000001 else p)
    ensures RawLoss(f, m, maxRank, []) == 0.0
  {
    FoldOneMore(Surprise(f, m, maxRank), 0.0, examples, e);
    DotOfFive(m.weights, ToRow(e, maxRank).features);
    LabelKept(e, maxRank);
    assert RawLoss(f, m, maxRank, []) == 0.0;
    hide Fold, Dot, ToRow;
    var row, x := ToRow(e, maxRank), ToRow(e, maxRank).features;
    var z := m.intercept + m.rank * row.rank + m.weights[0] * x[0] + m.weights[1] * x[1] + m.weights[2] * x[2] +
             m.weights[3] * x[3] + m.weights[4] * x[4];
    assert Score(m, row) == z;
    hide Score;
    var p := if e.positive then f.sigmoid(z) else 1.0 - f.sigmoid(z);
    assert Probability(f, m, row) == p;
    assert MaxR(p, 0.000000000001) == if p < 0.000000000001 then 0.000000000001 else p;
    var sum := RawLoss(f, m, maxRank, examples);
    assert RawLoss(f, m, maxRank, examples + [e]) == Surprise(f, m, maxRank)(sum, e);
    assert Surprise(f, m, maxRank)(sum, e) == sum - f.log(MaxR(p, 0.000000000001));
  }

  lemma LabelKept(e: Example, maxRank: int)
    ensures ToRow(e, maxRank).positive == e.positive
  {
  }

  /** Error times change of score, over all examples. */
  function Pull(f: Fitter, m: Model, k: Model, maxRank: int, examples: seq<Example>): real {
    if examples == [] then 0.0
    else
      var row := ToRow(examples[|examples| - 1], maxRank);
      Pull(f, m, k, maxRank, examples[..|examples| - 1]) + Error(f, m, row) * (Score(k, row) - Score(m, row))
  }

  lemma {:induction false} LossAbovePull(f: Fitter, m: Model, k: Model, maxRank: int, examples: seq<Example>)
    requires Convex(f) && IsSigmoid(f.sigmoid) && Unclamped(f, m, maxRank, examples) && Unclamped(f, k, maxRank, examples)
    ensures RawLoss(f, k, maxRank, examples) >= RawLoss(f, m, maxRank, examples) + Pull(f, m, k, maxRank, examples)
  {
    hide Convex, IsSigmoid, Clear, Error, Score, Probability, ToRow, MaxR;
    if examples == [] {
    } else {
      var n := |examples| - 1;
      LossAbovePull(f, m, k, maxRank, examples[..n]);
      RowTangent(f, m, k, ToRow(examples[n], maxRank));
    }
  }

  function Times(a: real, g: Slot -> real): Slot -> real {
    slot => a * g(slot)
  }

  lemma SevenTimes(a: real, g: Slot -> real)
    ensures Seven(Times(a, g)) == a * Seven(g)
  {
    var x, y := g(Feature(SkillCoverage)) + g(Feature(RequirementAlignment)), g(Feature(SeniorityFit)) + g(Feature(SemanticSimilarity));
    var z := g(Feature(Freshness)) + g(Rank);
    Distributes(a, g(Feature(SkillCoverage)), g(Feature(RequirementAlignment)));
    Distributes(a, g(Feature(SeniorityFit)), g(Feature(SemanticSimilarity)));
    Distributes(a, g(Feature(Freshness)), g(Rank));
    Distributes(a, x, y);
    Distributes(a, x + y, z);
    Distributes(a, x + y + z, g(Intercept));
  }

  lemma SevenPlus(g: Slot -> real, h: Slot -> real, k: Slot -> real)
    requires forall slot :: k(slot) == g(slot) + h(slot)
    ensures Seven(k) == Seven(g) + Seven(h)
  {
  }

  function Summand(f: Fitter, m: Model, k: Model, maxRank: int, examples: seq<Example>): Slot -> real {
    slot => Fold(Slope(f, m, maxRank, slot), 0.0, examples) * Move(m, k, slot)
  }

  lemma SummandGrows(f: Fitter, m: Model, k: Model, maxRank: int, examples: seq<Example>, slot: Slot)
    requires examples != []
    ensures var n := |examples| - 1;
            var row := ToRow(examples[n], maxRank);
            Summand(f, m, k, maxRank, examples)(slot) ==
            Summand(f, m, k, maxRank, examples[..n])(slot) + Error(f, m, row) * (Multiplier(row, slot) * Move(m, k, slot))
  {
    hide Error, ToRow, Multiplier, Move;
    var n := |examples| - 1;
    var row := ToRow(examples[n], maxRank);
    Product3(Fold(Slope(f, m, maxRank, slot), 0.0, examples[..n]), Error(f, m, row), Multiplier(row, slot), Move(m, k, slot));
  }

  lemma Product3(s: real, e: real, x: real, d: real)
    ensures (s + e * x) * d == s * d + e * (x * d)
  {
  }

  lemma SummandsGrow(f: Fitter, m: Model, k: Model, maxRank: int, examples: seq<Example>)
    requires examples != []
    ensures var n := |examples| - 1;
            var row := ToRow(examples[n], maxRank);
            Seven(Summand(f, m, k, maxRank, examples)) ==
            Seven(Summand(f, m, k, maxRank, examples[..n])) + Seven(Times(Error(f, m, row), Along(m, k, row)))
  {
    hide Seven, Error, ToRow, Multiplier, Move, Summand;
    var n := |examples| - 1;
    var row := ToRow(examples[n], maxRank);
    var own := Times(Error(f, m, row), Along(m, k, row));
    forall slot ensures Summand(f, m, k, maxRank, examples)(slot) == Summand(f, m, k, maxRank, examples[..n])(slot) + own(slot) {
      SummandGrows(f, m, k, maxRank, examples, slot);
    }
    SevenPlus(Summand(f, m, k, maxRank, examples[..n]), own, Summand(f, m, k, maxRank, examples));
  }

  /** Error times change of score. */
  function Tug(f: Fitter, m: Model, k: Model, row: Row): real {
    Error(f, m, row) * (Score(k, row) - Score(m, row))
  }

  lemma OnePull(f: Fitter, m: Model, k: Model, row: Row)
    ensures Seven(Times(Error(f, m, row), Along(m, k, row))) == Tug(f, m, k, row)
  {
    hide Seven, Times, Along, Error, Score;
    SevenTimes(Error(f, m, row), Along(m, k, row));
    ScoreIsSeven(m, k, row);
  }

  lemma {:induction false} PullIsGradient(f: Fitter, m: Model, k: Model, maxRank: int, examples: seq<Example>)
    ensures Pull(f, m, k, maxRank, examples) == Seven(Summand(f, m, k, maxRank, examples))
  {
    if examples == [] {
      NothingPulled(f, m, k, maxRank);
    } else {
      hide *;
      var n := |examples| - 1;
      var row := ToRow(examples[n], maxRank);
      PullIsGradient(f, m, k, maxRank, examples[..n]);
      SummandsGrow(f, m, k, maxRank, examples);
      OnePull(f, m, k, row);
      PullGrows(f, m, k, maxRank, examples);
    }
  }

  lemma PullGrows(f: Fitter, m: Model, k: Model, maxRank: int, examples: seq<Example>)
    requires examples != []
    ensures var n := |examples| - 1;
            var row := ToRow(examples[n], maxRank);
            Pull(f, m, k, maxRank, examples) ==
            Pull(f, m, k, maxRank, examples[..n]) + Tug(f, m, k, row)
  {
  }

  lemma NothingPulled(f: Fitter, m: Model, k: Model, maxRank: int)
    ensures Seven(Summand(f, m, k, maxRank, [])) == 0.0
  {
  }

  /** The unpenalised loss lies above its tangent planes: what the passes sum up is its gradient in every coordinate. */
  lemma LossAboveTangent(f: Fitter, m: Model, k: Model, examples: seq<Example>)
    requires Convex(f) && IsSigmoid(f.sigmoid)
    requires Unclamped(f, m, MaxRank(examples), examples) && Unclamped(f, k, MaxRank(examples), examples)
    ensures RawLoss(f, k, MaxRank(examples), examples) >= RawLoss(f, m, MaxRank(examples), examples) +
            Seven(slot => Gradient(f, m, examples, slot) * Move(m, k, slot))
  {
    hide Convex, IsSigmoid, Unclamped, Fold, MaxRank, Move;
    LossAbovePull(f, m, k, MaxRank(examples), examples);
    PullIsGradient(f, m, k, MaxRank(examples), examples);
  }

  // ---- the penalty ----

  /** What is descended on, times the number of examples: the loss with every coordinate but the intercept penalised. */
  function Penalty(m: Model): real {
    m.weights[0] * m.weights[0] + m.weights[1] * m.weights[1] + m.weights[2] * m.weights[2] +
    m.weights[3] * m.weights[3] + m.weights[4] * m.weights[4] + m.rank * m.rank
  }

  function Objective(f: Fitter, m: Model, examples: seq<Example>): real {
    RawLoss(f, m, MaxRank(examples), examples) + f.l2 * Penalty(m) / 2.0
  }

  /** Its derivative in one coordinate. */
  function Derivative(f: Fitter, m: Model, examples: seq<Example>, slot: Slot): real {
    Gradient(f, m, examples, slot) + if slot == Intercept then 0.0 else f.l2 * Coordinate(m, slot)
  }

  lemma {:induction false} SquaresOfFive(ws: Vector)
    ensures SumSquares(ws) == ws[0] * ws[0] + ws[1] * ws[1] + ws[2] * ws[2] + ws[3] * ws[3] + ws[4] * ws[4]
  {
    SquaresPrefix(ws, 0);
    SquaresPrefix(ws, 1);
    SquaresPrefix(ws, 2);
    SquaresPrefix(ws, 3);
    SquaresPrefix(ws, 4);
    hide SumSquares;
    assert ws[..5] == ws;
  }

  lemma {:induction false} SquaresPrefix(ws: Vector, n: nat)
    requires n < 5
    ensures SumSquares(ws[..n + 1]) == SumSquares(ws[..n]) + ws[n] * ws[n]
    ensures SumSquares(ws[..0]) == 0.0
  {
    assert ws[..n + 1][..n] == ws[..n];
  }

  /** The reported loss is the objective per example, except that it leaves out the penalty on the rank control. */
  lemma LossIsObjective(f: Fitter, m: Model, examples: seq<Example>)
    requires examples != []
    ensures Loss(f, m, examples) * |examples| as real == Objective(f, m, examples) - f.l2 * (m.rank * m.rank) / 2.0
  {
    hide Fold, MaxRank, SumSquares;
    SquaresOfFive(m.weights);
    var raw, squares, n := RawLoss(f, m, MaxRank(examples), examples), SumSquares(m.weights), |examples| as real;
    PerExample(raw, f.l2, squares, n);
    Distributes(f.l2, squares, m.rank * m.rank);
  }

  lemma PerExample(raw: real, l2: real, squares: real, n: real)
    requires n > 0.0
    ensures Penalised(raw, l2, squares, n) * n == raw + l2 * squares / 2.0
  {
    Undivide(raw, n);
    Undivide(l2 * squares, 2.0 * n);
    var x := l2 * squares / (2.0 * n);
    assert x * (2.0 * n) == 2.0 * (x * n);
    assert (raw / n + x) * n == raw / n * n + x * n;
  }

  /** Each iteration moves every coordinate against its derivative, by the rate over the number of examples. */
  lemma StepIsDescent(f: Fitter, m: Model, examples: seq<Example>, slot: Slot)
    requires examples != []
    ensures Coordinate(Step(f, m, examples), slot) ==
            Coordinate(m, slot) - f.learningRate * (Derivative(f, m, examples, slot) / |examples| as real)
  {
    hide Gradient, Moved;
    assert Coordinate(Step(f, m, examples), slot) == MovedIn(f, m, examples, slot);
    MovedAgainst(f, slot, Coordinate(m, slot), Gradient(f, m, examples, slot), |examples| as real);
  }

  lemma MovedAgainst(f: Fitter, slot: Slot, w: real, g: real, n: real)
    requires n > 0.0
    ensures Moved(f, slot, w, g, n) == w - f.learningRate * ((g + if slot == Intercept then 0.0 else f.l2 * w) / n)
  {
    var penalty := f.l2 * w;
    assert (g + penalty) / n == g / n + penalty / n;
    Undivide(g, n);
    Quotients(f.learningRate, g, n);
  }

  lemma Quotients(rate: real, g: real, n: real)
    requires n > 0.0
    ensures rate * g / n == rate * (g / n)
  {
    Undivide(rate * g, n);
    Undivide(g, n);
    assert rate * (g / n) * n == rate * (g / n * n);
    SameFactor(rate * g / n, rate * (g / n), n);
  }

  lemma SquareTangent(w: real, v: real)
    ensures v * v >= w * w + 2.0 * (w * (v - w))
  {
    assert v * v - w * w - 2.0 * (w * (v - w)) == (v - w) * (v - w);
  }

  function Bend(m: Model, k: Model): Slot -> real {
    slot => if slot == Intercept then 0.0 else Coordinate(m, slot) * Move(m, k, slot)
  }

  function Squared(m: Model): Slot -> real {
    slot => if slot == Intercept then 0.0 else Coordinate(m, slot) * Coordinate(m, slot)
  }

  lemma PenaltyAsSlots(m: Model)
    ensures Penalty(m) == Seven(Squared(m))
  {
    assert Position(SkillCoverage) == 0 && Position(RequirementAlignment) == 1 && Position(SeniorityFit) == 2;
    assert Position(SemanticSimilarity) == 3 && Position(Freshness) == 4;
  }

  lemma SevenAtLeast(g: Slot -> real, h: Slot -> real)
    requires forall slot :: g(slot) >= h(slot)
    ensures Seven(g) >= Seven(h)
  {
  }

  function Plus(g: Slot -> real, h: Slot -> real): Slot -> real {
    slot => g(slot) + h(slot)
  }

  lemma PenaltyTangent(m: Model, k: Model)
    ensures Penalty(k) >= Penalty(m) + 2.0 * Seven(Bend(m, k))
  {
    hide Seven, Penalty, Coordinate;
    var tangent := Plus(Squared(m), Times(2.0, Bend(m, k)));
    forall slot ensures Squared(k)(slot) >= tangent(slot) {
      SquareTangent(Coordinate(m, slot), Coordinate(k, slot));
    }
    SevenAtLeast(Squared(k), tangent);
    SevenPlus(Squared(m), Times(2.0, Bend(m, k)), tangent);
    SevenTimes(2.0, Bend(m, k));
    PenaltyAsSlots(m);
    PenaltyAsSlots(k);
  }

  function Steep(f: Fitter, m: Model, k: Model, examples: seq<Example>): Slot -> real {
    slot => Derivative(f, m, examples, slot) * Move(m, k, slot)
  }

  lemma SteepParts(f: Fitter, m: Model, k: Model, examples: seq<Example>)
    ensures Seven(Steep(f, m, k, examples)) ==
            Seven(Summand(f, m, k, MaxRank(examples), examples)) + f.l2 * Seven(Bend(m, k))
  {
    hide Seven, Fold, MaxRank, Move, Coordinate;
    var g, h := Summand(f, m, k, MaxRank(examples), examples), Times(f.l2, Bend(m, k));
    forall slot ensures Steep(f, m, k, examples)(slot) == g(slot) + h(slot) {
      SteepPart(Gradient(f, m, examples, slot), f.l2, Coordinate(m, slot), Move(m, k, slot));
    }
    SevenPlus(g, h, Steep(f, m, k, examples));
    SevenTimes(f.l2, Bend(m, k));
  }

  lemma SteepPart(g: real, l2: real, w: real, d: real)
    ensures (g + l2 * w) * d == g * d + l2 * (w * d)
  {
  }

  /** The objective lies above its tangent planes, so `Derivative` is its gradient and the descent is on a convex bowl. */
  lemma ObjectiveAboveTangent(f: Fitter, m: Model, k: Model, examples: seq<Example>)
    requires Convex(f) && IsSigmoid(f.sigmoid) && f.l2 >= 0.0
    requires Unclamped(f, m, MaxRank(examples), examples) && Unclamped(f, k, MaxRank(examples), examples)
    ensures Objective(f, k, examples) >= Objective(f, m, examples) + Seven(Steep(f, m, k, examples))
  {
    hide Convex, IsSigmoid, Unclamped, Fold, MaxRank, Seven, Penalty, RawLoss, Pull;
    LossAbovePull(f, m, k, MaxRank(examples), examples);
    PullIsGradient(f, m, k, MaxRank(examples), examples);
    PenaltyTangent(m, k);
    SteepParts(f, m, k, examples);
    WeighPenalty(f.l2, Penalty(k), Penalty(m), Seven(Bend(m, k)));
    var x, y := RawLoss(f, k, MaxRank(examples), examples), RawLoss(f, m, MaxRank(examples), examples);
    assert x >= y + Seven(Summand(f, m, k, MaxRank(examples), examples));
    assert Objective(f, k, examples) == x + f.l2 * Penalty(k) / 2.0;
    assert Objective(f, m, examples) == y + f.l2 * Penalty(m) / 2.0;
  }

  lemma WeighPenalty(l2: real, x: real, y: real, b: real)
    requires l2 >= 0.0 && x >= y + 2.0 * b
    ensures l2 * x / 2.0 >= l2 * y / 2.0 + l2 * b
  {
    NonNegativeProduct(l2, x - y - 2.0 * b);
  }

  /** A model that an iteration leaves where it is has the least objective of all. */
  lemma FixedModelIsOptimal(f: Fitter, m: Model, k: Model, examples: seq<Example>)
    requires Convex(f) && IsSigmoid(f.sigmoid) && f.l2 >= 0.0 && examples != [] && f.learningRate != 0.0
    requires Unclamped(f, m, MaxRank(examples), examples) && Unclamped(f, k, MaxRank(examples), examples)
    requires Step(f, m, examples) == m
    ensures Objective(f, m, examples) <= Objective(f, k, examples)
  {
    hide Convex, IsSigmoid, Unclamped, MaxRank, Objective, Step, Derivative;
    forall slot ensures Steep(f, m, k, examples)(slot) == 0.0 {
      StepIsDescent(f, m, examples, slot);
      Undivide(Derivative(f, m, examples, slot), |examples| as real);
      NoMove(f.learningRate, Derivative(f, m, examples, slot), |examples| as real);
    }
    ObjectiveAboveTangent(f, m, k, examples);
  }

  lemma NoMove(rate: real, g: real, n: real)
    requires rate != 0.0 && n > 0.0 && rate * (g / n) == 0.0
    ensures g == 0.0
  {
    Undivide(g, n);
  }

  // ---- the rows ----

  lemma {:induction false} HighestRank(examples: seq<Example>)
    ensures var best := Fold(HigherRank, None, examples);
            && (best.None? <==> forall i :: 0 <= i < |examples| ==> examples[i].rank.None?)
            && (best.Some? ==> exists i :: 0 <= i < |examples| && examples[i].rank == best)
            && forall i :: 0 <= i < |examples| && examples[i].rank.Some? ==> best.Some? && examples[i].rank.value <= best.value
  {
    if examples == [] {
    } else {
      var n := |examples| - 1;
      HighestRank(examples[..n]);
      var before := Fold(HigherRank, None, examples[..n]);
      if before.Some? {
        var i :| 0 <= i < n && examples[..n][i].rank == before;
        assert examples[i].rank == before;
      }
      assert forall i :: 0 <= i < n ==> examples[..n][i] == examples[i];
    }
  }

  /** Each row carries the example's own sub-scores, zero for missing ones, its label, and its rank as a share of the
      highest; an unknown rank sits at one half. */
  lemma RowsAreExact(examples: seq<Example>, i: nat)
    requires i < |examples|
    ensures var e, row, top := examples[i], ToRow(examples[i], MaxRank(examples)), MaxRank(examples);
            && row.positive == e.positive
            && (forall t: Term :: t in e.subscores ==> row.features[Position(t)] == e.subscores[t])
            && (forall t: Term :: t !in e.subscores ==> row.features[Position(t)] == 0.0)
            && (e.rank.Some? ==> e.rank.value <= top)
            && (top > 0 ==> exists k :: 0 <= k < |examples| && examples[k].rank == Some(top))
            && if e.rank.Some? && top > 0 then row.rank * top as real == e.rank.value as real else row.rank == 0.5
  {
    HighestRank(examples);
  }

  lemma {:induction false} PositivesAreCounted(examples: seq<Example>)
    ensures Positives(examples) == CountOf(examples, (e: Example) => e.positive)
  {
    hide CountOf;
    var positive := (e: Example) => e.positive;
    if examples == [] {
      CountNone(examples, positive);
    } else {
      PositivesAreCounted(examples[..|examples| - 1]);
      CountMore(examples, positive);
    }
  }

  /** The fit is refused exactly below twenty positive or twenty other examples. */
  lemma RefusedIff(f: Fitter, examples: seq<Example>)
    ensures var positives := CountOf(examples, (e: Example) => e.positive);
            Fit(f, examples).Err? <==> positives < 20 || |examples| - positives < 20
  {
    PositivesAreCounted(examples);
  }
}
