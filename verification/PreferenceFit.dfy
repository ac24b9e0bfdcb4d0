/** preferences.py: batch gradient descent on a logistic loss, with rank as a control feature. Values are
    exact; `sigmoid` and `log` are given functions. */
module PreferenceFit {
  import opened Prelude
  import opened Scoring

  const MIN_POSITIVES := 20
  const MIN_NEGATIVES := 20

  datatype Example = Example(subscores: map<Term, real>, positive: bool, rank: Option<int>)

  datatype Row = Row(features: Vector, rank: real, positive: bool)

  datatype Fitter = Fitter(sigmoid: real -> real, log: real -> real,
                           l2: real, learningRate: real, maxIterations: int, tolerance: real)

  datatype Model = Model(weights: Vector, rank: real, intercept: real)

  datatype Coefficients = Coefficients(values: map<Term, real>, intercept: real, rankControl: real,
                                       iterations: int, converged: bool, logLoss: real)

  datatype FitError = NotEnoughSignal

  /** What a coordinate of the model multiplies. */
  datatype Slot = Feature(term: Term) | Rank | Intercept

  // ---- one fit, as functions of the examples ----

  function CountPositive(n: nat, e: Example): nat {
    if e.positive then n + 1 else n
  }

  function Positives(examples: seq<Example>): nat {
    Fold(CountPositive, 0, examples)
  }

  function HigherRank(best: Option<int>, e: Example): Option<int> {
    if e.rank.None? then best
    else if best.None? then e.rank
    else Some(Max(best.value, e.rank.value))
  }

  function MaxRank(examples: seq<Example>): int {
    var best := Fold(HigherRank, None, examples);
    if best.Some? then best.value else 0
  }

  function Subscore(e: Example, t: Term): real {
    if t in e.subscores then e.subscores[t] else 0.0
  }

  function ToRow(e: Example, maxRank: int): Row {
    Row([Subscore(e, SkillCoverage), Subscore(e, RequirementAlignment), Subscore(e, SeniorityFit),
         Subscore(e, SemanticSimilarity), Subscore(e, Freshness)],
        if maxRank > 0 && e.rank.Some? then e.rank.value as real / maxRank as real else 0.5,
        e.positive)
  }

  function Multiplier(row: Row, slot: Slot): real {
    match slot
    case Feature(t) => row.features[Position(t)]
    case Rank => row.rank
    case Intercept => 1.0
  }

  function Coordinate(m: Model, slot: Slot): real {
    match slot
    case Feature(t) => m.weights[Position(t)]
    case Rank => m.rank
    case Intercept => m.intercept
  }

  function Dot(ws: seq<real>, xs: seq<real>): real
    requires |ws| == |xs|
  {
    if ws == [] then 0.0 else Dot(ws[..|ws| - 1], xs[..|xs| - 1]) + ws[|ws| - 1] * xs[|xs| - 1]
  }

  function SumSquares(ws: seq<real>): real {
    if ws == [] then 0.0 else SumSquares(ws[..|ws| - 1]) + ws[|ws| - 1] * ws[|ws| - 1]
  }

  function Score(m: Model, row: Row): real {
    m.intercept + m.rank * row.rank + Dot(m.weights, row.features)
  }

  function Target(row: Row): real {
    if row.positive then 1.0 else 0.0
  }

  function Error(f: Fitter, m: Model, row: Row): real {
    f.sigmoid(Score(m, row)) - Target(row)
  }

  function Probability(f: Fitter, m: Model, row: Row): real {
    var prediction := f.sigmoid(Score(m, row));
    if row.positive then prediction else 1.0 - prediction
  }

  /** How one example adds to the gradient in one coordinate. */
  function Slope(f: Fitter, m: Model, maxRank: int, slot: Slot): (real, Example) -> real {
    (sum: real, e: Example) => sum + Error(f, m, ToRow(e, maxRank)) * Multiplier(ToRow(e, maxRank), slot)
  }

  /** How one example adds to the loss. */
  function Surprise(f: Fitter, m: Model, maxRank: int): (real, Example) -> real {
    (sum: real, e: Example) => sum - f.log(MaxR(Probability(f, m, ToRow(e, maxRank)), 0.000000000001))
  }

  function Gradient(f: Fitter, m: Model, examples: seq<Example>, slot: Slot): real {
    Fold(Slope(f, m, MaxRank(examples), slot), 0.0, examples)
  }

  function Penalised(raw: real, l2: real, squares: real, n: real): real
    requires n > 0.0
  {
    raw / n + l2 * squares / (2.0 * n)
  }

  function Loss(f: Fitter, m: Model, examples: seq<Example>): real
    requires examples != []
  {
    Penalised(Fold(Surprise(f, m, MaxRank(examples)), 0.0, examples), f.l2, SumSquares(m.weights), |examples| as real)
  }

  function Moved(f: Fitter, slot: Slot, w: real, gradient: real, n: real): real
    requires n > 0.0
  {
    if slot == Intercept then w - f.learningRate * gradient / n
    else w - f.learningRate * (gradient / n + f.l2 * w / n)
  }

  function MovedIn(f: Fitter, m: Model, examples: seq<Example>, slot: Slot): real
    requires examples != []
  {
    Moved(f, slot, Coordinate(m, slot), Gradient(f, m, examples, slot), |examples| as real)
  }

  function Step(f: Fitter, m: Model, examples: seq<Example>): Model
    requires examples != []
  {
    Model([MovedIn(f, m, examples, Feature(SkillCoverage)), MovedIn(f, m, examples, Feature(RequirementAlignment)),
           MovedIn(f, m, examples, Feature(SeniorityFit)), MovedIn(f, m, examples, Feature(SemanticSimilarity)),
           MovedIn(f, m, examples, Feature(Freshness))],
          MovedIn(f, m, examples, Rank), MovedIn(f, m, examples, Intercept))
  }

  /** The state between two iterations; `None` stands for an infinite previous loss. */
  datatype Progress = Progress(model: Model, previous: Option<real>, iteration: nat, converged: bool)

  const START := Progress(Model(ZEROS, 0.0, 0.0), None, 0, false)

  function Advance(f: Fitter, p: Progress, examples: seq<Example>): Progress
    requires examples != []
  {
    var loss := Loss(f, p.model, examples);
    Progress(Step(f, p.model, examples), Some(loss), p.iteration + 1,
             p.previous.Some? && AbsR(p.previous.value - loss) < f.tolerance)
  }

  function Descend(f: Fitter, p: Progress, examples: seq<Example>): Progress
    requires examples != []
    decreases f.maxIterations - p.iteration
  {
    if p.converged || p.iteration >= f.maxIterations then p else Descend(f, Advance(f, p, examples), examples)
  }

  function Outcome(p: Progress): Coefficients {
    Coefficients(map t: Term :: p.model.weights[Position(t)], p.model.intercept, p.model.rank, p.iteration, p.converged,
                 if p.previous.Some? then p.previous.value else 0.0)
  }

  function Fit(f: Fitter, examples: seq<Example>): Result<Coefficients, FitError> {
    var positives := Positives(examples);
    if positives < MIN_POSITIVES || |examples| - positives < MIN_NEGATIVES then Err(NotEnoughSignal)
    else Ok(Outcome(Descend(f, START, examples)))
  }

  // ---- the loops ----

  method Predict(m: Model, row: Row) returns (z: real)
    ensures z == Score(m, row)
  {
    z := m.intercept + m.rank * row.rank;
    for i := 0 to 5
      invariant z == m.intercept + m.rank * row.rank + Dot(m.weights[..i], row.features[..i])
    {
      z := z + m.weights[i] * row.features[i];
      assert m.weights[..i + 1][..i] == m.weights[..i] && row.features[..i + 1][..i] == row.features[..i];
    }
    assert m.weights[..5] == m.weights && row.features[..5] == row.features;
  }

  method AddTo(sums: array<real>, error: real, features: Vector)
    requires sums.Length == 5
    modifies sums
    ensures forall k :: 0 <= k < 5 ==> sums[k] == old(sums[k]) + error * features[k]
  {
    for i := 0 to 5
      invariant forall k :: 0 <= k < i ==> sums[k] == old(sums[k]) + error * features[k]
      invariant forall k :: i <= k < 5 ==> sums[k] == old(sums[k])
    {
      sums[i] := sums[i] + error * features[i];
    }
  }

  /** The sums over the first `j` examples. */
  ghost predicate Summed(f: Fitter, m: Model, maxRank: int, examples: seq<Example>, gradient: seq<real>,
                         rankGradient: real, interceptGradient: real, loss: real)
  {
    |gradient| == 5 &&
    (forall t: Term :: gradient[Position(t)] == Fold(Slope(f, m, maxRank, Feature(t)), 0.0, examples)) &&
    rankGradient == Fold(Slope(f, m, maxRank, Rank), 0.0, examples) &&
    interceptGradient == Fold(Slope(f, m, maxRank, Intercept), 0.0, examples) &&
    loss == Fold(Surprise(f, m, maxRank), 0.0, examples)
  }

  lemma SumOneMore(f: Fitter, m: Model, maxRank: int, examples: seq<Example>, g: seq<real>, r: real, i: real, l: real,
                   e: Example, row: Row, error: real, h: seq<real>)
    requires Summed(f, m, maxRank, examples, g, r, i, l) && |h| == 5
    requires row == ToRow(e, maxRank) && error == Error(f, m, row)
    requires forall k :: 0 <= k < 5 ==> h[k] == g[k] + error * row.features[k]
    ensures Summed(f, m, maxRank, examples + [e], h, r + error * row.rank, i + error,
                   l - f.log(MaxR(Probability(f, m, row), 0.000000000001)))
  {
    hide Error, Probability, ToRow, Fold;
    forall t: Term ensures h[Position(t)] == Fold(Slope(f, m, maxRank, Feature(t)), 0.0, examples + [e]) {
      FoldOneMore(Slope(f, m, maxRank, Feature(t)), 0.0, examples, e);
    }
    FoldOneMore(Slope(f, m, maxRank, Rank), 0.0, examples, e);
    FoldOneMore(Slope(f, m, maxRank, Intercept), 0.0, examples, e);
    FoldOneMore(Surprise(f, m, maxRank), 0.0, examples, e);
  }

  lemma SummedNothing(f: Fitter, m: Model, maxRank: int, g: seq<real>)
    requires |g| == 5 && forall k :: 0 <= k < 5 ==> g[k] == 0.0
    ensures Summed(f, m, maxRank, [], g, 0.0, 0.0, 0.0)
  {
  }

  method Zeros() returns (sums: array<real>)
    ensures fresh(sums) && sums.Length == 5 && forall k :: 0 <= k < 5 ==> sums[k] == 0.0
  {
    sums := new real[5](_ => 0.0);
  }

  method OnePass(f: Fitter, m: Model, rows: seq<Row>, ghost examples: seq<Example>, ghost maxRank: int)
    returns (gradient: Vector, rankGradient: real, interceptGradient: real, loss: real)
    requires |rows| == |examples|
    requires forall j :: 0 <= j < |rows| ==> rows[j] == ToRow(examples[j], maxRank)
    ensures Summed(f, m, maxRank, examples, gradient, rankGradient, interceptGradient, loss)
  {
    hide Summed, Score, ToRow, Fold;
    var sums := Zeros();
    rankGradient, interceptGradient, loss := 0.0, 0.0, 0.0;
    SummedNothing(f, m, maxRank, sums[..]);
    assert examples[..0] == [];
    for j := 0 to |rows|
      invariant Summed(f, m, maxRank, examples[..j], sums[..], rankGradient, interceptGradient, loss)
    {
      ghost var before := sums[..];
      var row := rows[j];
      var z := Predict(m, row);
      var prediction := f.sigmoid(z);
      var error := prediction - Target(row);
      assert error == Error(f, m, row);
      AddTo(sums, error, row.features);
      SumOneMore(f, m, maxRank, examples[..j], before, rankGradient, interceptGradient, loss,
                 examples[j], row, error, sums[..]);
      rankGradient := rankGradient + error * row.rank;
      interceptGradient := interceptGradient + error;
      var probability := if row.positive then prediction else 1.0 - prediction;
      assert probability == Probability(f, m, row);
      loss := loss - f.log(MaxR(probability, 0.000000000001));
      assert examples[..j + 1] == examples[..j] + [examples[j]];
    }
    assert examples[..|rows|] == examples;
    gradient := sums[..];
  }

  method MoveWeights(f: Fitter, weights: array<real>, gradient: Vector, n: real)
    requires weights.Length == 5 && n > 0.0
    modifies weights
    ensures forall t: Term :: weights[Position(t)] == Moved(f, Feature(t), old(weights[Position(t)]), gradient[Position(t)], n)
  {
    for i := 0 to 5
      invariant forall k :: 0 <= k < i ==> weights[k] == Moved(f, Feature(FEATURES[k]), old(weights[k]), gradient[k], n)
      invariant forall k :: i <= k < 5 ==> weights[k] == old(weights[k])
    {
      weights[i] := weights[i] - f.learningRate * (gradient[i] / n + f.l2 * weights[i] / n);
    }
  }

  method MovedWeights(f: Fitter, m: Model, gradient: Vector, n: real) returns (ws: Vector)
    requires n > 0.0
    ensures forall t: Term :: ws[Position(t)] == Moved(f, Feature(t), m.weights[Position(t)], gradient[Position(t)], n)
  {
    hide Moved;
    var weights := Zeros();
    forall i | 0 <= i < 5 {
      weights[i] := m.weights[i];
    }
    MoveWeights(f, weights, gradient, n);
    ws := weights[..];
  }

  lemma StepFrom(f: Fitter, m: Model, examples: seq<Example>, ws: Vector)
    requires examples != []
    requires forall t: Term :: ws[Position(t)] == MovedIn(f, m, examples, Feature(t))
    ensures ws == Step(f, m, examples).weights
  {
    hide MovedIn;
    assert ws[Position(SkillCoverage)] == ws[0] && ws[Position(RequirementAlignment)] == ws[1];
    assert ws[Position(SeniorityFit)] == ws[2] && ws[Position(SemanticSimilarity)] == ws[3];
    assert ws[Position(Freshness)] == ws[4];
  }

  method Iterate(f: Fitter, p: Progress, rows: seq<Row>, ghost examples: seq<Example>) returns (q: Progress)
    requires rows != [] && |rows| == |examples|
    requires forall j :: 0 <= j < |rows| ==> rows[j] == ToRow(examples[j], MaxRank(examples))
    ensures q == Advance(f, p, examples)
  {
    hide ToRow, MaxRank, Fold, SumSquares, Moved, Penalised, AbsR;
    var m, n := p.model, |rows| as real;
    var gradient, rankGradient, interceptGradient, raw := OnePass(f, m, rows, examples, MaxRank(examples));
    var loss := Penalised(raw, f.l2, SumSquares(m.weights), n);
    var weights := MovedWeights(f, m, gradient, n);
    StepFrom(f, m, examples, weights);
    var rank := Moved(f, Rank, m.rank, rankGradient, n);
    var intercept := Moved(f, Intercept, m.intercept, interceptGradient, n);
    q := Progress(Model(weights, rank, intercept), Some(loss), p.iteration + 1,
                  p.previous.Some? && AbsR(p.previous.value - loss) < f.tolerance);
  }

  method FitLogistic(f: Fitter, examples: seq<Example>) returns (r: Result<Coefficients, FitError>)
    ensures r == Fit(f, examples)
  {
    hide ToRow, Step, Loss, Outcome, AbsR;
    var positives := Positives(examples);
    if positives < MIN_POSITIVES || |examples| - positives < MIN_NEGATIVES {
      return Err(NotEnoughSignal);
    }
    var maxRank := MaxRank(examples);
    var rows: seq<Row> := [];
    for j := 0 to |examples|
      invariant |rows| == j && forall i :: 0 <= i < j ==> rows[i] == ToRow(examples[i], maxRank)
    {
      rows := rows + [ToRow(examples[j], maxRank)];
    }
    var p := START;
    while !p.converged && p.iteration < f.maxIterations
      invariant Descend(f, START, examples) == Descend(f, p, examples)
      decreases f.maxIterations - p.iteration
    {
      p := Iterate(f, p, rows, examples);
    }
    r := Ok(Outcome(p));
  }
}
