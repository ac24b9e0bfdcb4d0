/** aggregate.py: the gated, weighted match score, exact before rounding. */
module Aggregate {
  import opened Prelude
  import opened RealFacts
  import opened Scoring
  import opened PersonalWeights

  const DEFAULT_WEIGHTS: Vector := [0.35, 0.25, 0.15, 0.15, 0.10]

  datatype MatchScore = MatchScore(total: real, gatePassed: bool, contributions: map<Term, real>,
                                   unavailable: set<Term>, assessedWeight: real)

  /** Sums over the terms still in a dictionary, in feature order. */
  function WeightOf(terms: seq<Term>, available: map<Term, (real, real)>): real {
    if terms == [] then 0.0
    else
      var t := terms[|terms| - 1];
      WeightOf(terms[..|terms| - 1], available) + if t in available then available[t].0 else 0.0
  }

  function Contribution(available: map<Term, (real, real)>, t: Term): real {
    if t in available then available[t].0 * available[t].1 else 0.0
  }

  function Weighted(terms: seq<Term>, available: map<Term, (real, real)>): real {
    if terms == [] then 0.0
    else
      var t := terms[|terms| - 1];
      Weighted(terms[..|terms| - 1], available) + Contribution(available, t)
  }

  function Available(weights: Vector, subscores: Vector, unavailable: set<Term>): map<Term, (real, real)> {
    map t: Term | t !in unavailable :: (weights[Position(t)], subscores[Position(t)])
  }

  /** The sum before the cap. */
  function Total(weights: Vector, subscores: Vector, unavailable: set<Term>): real {
    Weighted(FEATURES, Available(weights, subscores, unavailable))
  }

  function Scored(subscores: Vector, gatePassed: bool, weights: Vector, unavailable: set<Term>): MatchScore {
    if !gatePassed then MatchScore(0.0, false, map[], {}, 1.0)
    else
      var available := Available(weights, subscores, unavailable);
      MatchScore(MinR(Weighted(FEATURES, available), 1.0), true,
                 map t | t in available :: available[t].0 * available[t].1, unavailable, WeightOf(FEATURES, available))
  }

  method Aggregate(subscores: Vector, gatePassed: bool, chosen: Option<Vector>, unavailable: seq<Term>)
    returns (score: MatchScore)
    ensures score == Scored(subscores, gatePassed, if chosen.Some? then chosen.value else DEFAULT_WEIGHTS,
                            set t | t in unavailable)
  {
    hide Weighted, WeightOf, Position;
    var weights := if chosen.Some? then chosen.value else DEFAULT_WEIGHTS;
    if !gatePassed {
      return MatchScore(0.0, false, map[], {}, 1.0);
    }
    var available := Available(weights, subscores, {});
    for j := 0 to |unavailable|
      invariant available == Available(weights, subscores, set t | t in unavailable[..j])
    {
      var term := unavailable[j];
      available := available - {term};
      assert unavailable[..j + 1] == unavailable[..j] + [term];
    }
    assert unavailable[..|unavailable|] == unavailable;
    score := MatchScore(MinR(Weighted(FEATURES, available), 1.0), true,
                        map t | t in available :: available[t].0 * available[t].1, (set t | t in unavailable),
                        WeightOf(FEATURES, available));
  }

  // ---- the score written out ----

  /** The weight of a term, and its sub-score. */
  function WeightFor(weights: Vector, t: Term): real {
    match t
    case SkillCoverage => weights[0]
    case RequirementAlignment => weights[1]
    case SeniorityFit => weights[2]
    case SemanticSimilarity => weights[3]
    case Freshness => weights[4]
  }

  function Earned(weights: Vector, subscores: Vector, t: Term): real {
    WeightFor(weights, t) * WeightFor(subscores, t)
  }

  /** Only the terms that are not unavailable give anything. */
  function Given(unavailable: set<Term>, t: Term, x: real): real {
    if t in unavailable then 0.0 else x
  }

  function Assessed(available: map<Term, (real, real)>, t: Term): real {
    if t in available then available[t].0 else 0.0
  }

  lemma {:induction false} LastTerm(terms: seq<Term>, t: Term, available: map<Term, (real, real)>)
    ensures Weighted(terms + [t], available) == Weighted(terms, available) + Contribution(available, t)
    ensures WeightOf(terms + [t], available) == WeightOf(terms, available) + Assessed(available, t)
  {
    assert (terms + [t])[..|terms|] == terms;
  }

  lemma {:induction false} FiveTerms(available: map<Term, (real, real)>)
    ensures Weighted(FEATURES, available) ==
            Contribution(available, SkillCoverage) + Contribution(available, RequirementAlignment) +
            Contribution(available, SeniorityFit) + Contribution(available, SemanticSimilarity) +
            Contribution(available, Freshness)
    ensures WeightOf(FEATURES, available) ==
            Assessed(available, SkillCoverage) + Assessed(available, RequirementAlignment) +
            Assessed(available, SeniorityFit) + Assessed(available, SemanticSimilarity) + Assessed(available, Freshness)
  {
    var a, b, c, d, e := SkillCoverage, RequirementAlignment, SeniorityFit, SemanticSimilarity, Freshness;
    assert Weighted([], available) == 0.0 && WeightOf([], available) == 0.0;
    hide Weighted, WeightOf, Contribution, Assessed;
    var none: seq<Term> := [];
    LastTerm(none, a, available);
    LastTerm(none + [a], b, available);
    LastTerm(none + [a] + [b], c, available);
    LastTerm(none + [a] + [b] + [c], d, available);
    LastTerm(none + [a] + [b] + [c] + [d], e, available);
    FeaturesInOrder();
  }

  lemma FeaturesInOrder()
    ensures FEATURES == [] + [SkillCoverage] + [RequirementAlignment] + [SeniorityFit] + [SemanticSimilarity] + [Freshness]
  {
  }

  lemma TermAt(weights: Vector, subscores: Vector, unavailable: set<Term>, t: Term)
    ensures var available := Available(weights, subscores, unavailable);
            && Contribution(available, t) == Given(unavailable, t, Earned(weights, subscores, t))
            && Assessed(available, t) == Given(unavailable, t, WeightFor(weights, t))
            && (t in available <==> t !in unavailable)
            && (t in available ==> available[t].0 * available[t].1 == Earned(weights, subscores, t))
  {
  }

  /** Behind a passed gate: exactly the terms that are not unavailable contribute, each its weight times its
      sub-score, and the total is the sum of the five, cut at 1. */
  lemma {:induction false} ScoreIsExact(subscores: Vector, weights: Vector, unavailable: set<Term>)
    ensures var score := Scored(subscores, true, weights, unavailable);
            && score.gatePassed && score.unavailable == unavailable
            && (forall t: Term :: t in score.contributions <==> t !in unavailable)
            && forall t: Term :: t in score.contributions ==> score.contributions[t] == Earned(weights, subscores, t)
    ensures var sum :=
              Given(unavailable, SkillCoverage, Earned(weights, subscores, SkillCoverage)) +
              Given(unavailable, RequirementAlignment, Earned(weights, subscores, RequirementAlignment)) +
              Given(unavailable, SeniorityFit, Earned(weights, subscores, SeniorityFit)) +
              Given(unavailable, SemanticSimilarity, Earned(weights, subscores, SemanticSimilarity)) +
              Given(unavailable, Freshness, Earned(weights, subscores, Freshness));
            Scored(subscores, true, weights, unavailable).total == if sum <= 1.0 then sum else 1.0
    ensures Scored(subscores, true, weights, unavailable).assessedWeight ==
            Given(unavailable, SkillCoverage, weights[0]) + Given(unavailable, RequirementAlignment, weights[1]) +
            Given(unavailable, SeniorityFit, weights[2]) + Given(unavailable, SemanticSimilarity, weights[3]) +
            Given(unavailable, Freshness, weights[4])
  {
    hide Weighted, WeightOf, Available, Contribution, Assessed, Given, Earned;
    FiveTerms(Available(weights, subscores, unavailable));
    forall t: Term ensures
        var available := Available(weights, subscores, unavailable);
        && Contribution(available, t) == Given(unavailable, t, Earned(weights, subscores, t))
        && Assessed(available, t) == Given(unavailable, t, WeightFor(weights, t))
        && (t in available <==> t !in unavailable)
        && (t in available ==> available[t].0 * available[t].1 == Earned(weights, subscores, t))
    {
      TermAt(weights, subscores, unavailable, t);
    }
  }

  /** A failed gate scores nothing at all. */
  lemma FailedGateScoresNothing(subscores: Vector, weights: Vector, unavailable: set<Term>)
    ensures Scored(subscores, false, weights, unavailable) == MatchScore(0.0, false, map[], {}, 1.0)
  {
  }

  /** A perfect posting scores the weight that could be assessed. */
  lemma PerfectScoresAssessedWeight(weights: Vector, unavailable: set<Term>)
    ensures var score := Scored([1.0, 1.0, 1.0, 1.0, 1.0], true, weights, unavailable);
            score.total == if score.assessedWeight <= 1.0 then score.assessedWeight else 1.0
  {
    hide Scored;
    ScoreIsExact([1.0, 1.0, 1.0, 1.0, 1.0], weights, unavailable);
  }

  /** With the shipped weights and everything available that is exactly 1. */
  lemma PerfectScoresOne()
    ensures Scored([1.0, 1.0, 1.0, 1.0, 1.0], true, DEFAULT_WEIGHTS, {}).total == 1.0
  {
    hide Scored;
    ScoreIsExact([1.0, 1.0, 1.0, 1.0, 1.0], DEFAULT_WEIGHTS, {});
  }

  // ---- what the score can be ----

  ghost predicate InUnit(subscores: Vector) {
    forall i :: 0 <= i < 5 ==> 0.0 <= subscores[i] <= 1.0
  }

  ghost predicate NonNegative(weights: Vector) {
    forall i :: 0 <= i < 5 ==> weights[i] >= 0.0
  }

  lemma {:induction false} WeightedAtMost(terms: seq<Term>, a: map<Term, (real, real)>, b: map<Term, (real, real)>, k: real)
    requires forall t :: Contribution(a, t) <= k * Contribution(b, t)
    ensures Weighted(terms, a) <= k * Weighted(terms, b)
  {
    hide Contribution;
    if terms == [] {
    } else {
      var n := |terms| - 1;
      WeightedAtMost(terms[..n], a, b, k);
      Distributes(k, Weighted(terms[..n], b), Contribution(b, terms[n]));
    }
  }

  lemma {:induction false} WeightedAtLeast(terms: seq<Term>, a: map<Term, (real, real)>, b: map<Term, (real, real)>, k: real)
    requires forall t :: Contribution(a, t) >= k * Contribution(b, t)
    ensures Weighted(terms, a) >= k * Weighted(terms, b)
  {
    hide Contribution;
    if terms == [] {
    } else {
      var n := |terms| - 1;
      WeightedAtLeast(terms[..n], a, b, k);
      Distributes(k, Weighted(terms[..n], b), Contribution(b, terms[n]));
    }
  }

  lemma {:induction false} WeightedBelowWeight(terms: seq<Term>, a: map<Term, (real, real)>)
    requires forall t :: t in a ==> a[t].0 >= 0.0 && 0.0 <= a[t].1 <= 1.0
    ensures 0.0 <= Weighted(terms, a) <= WeightOf(terms, a)
  {
    if terms == [] {
    } else {
      var n := |terms| - 1;
      WeightedBelowWeight(terms[..n], a);
      if terms[n] in a {
        NonNegativeProduct(a[terms[n]].0, a[terms[n]].1);
        NonNegativeProduct(a[terms[n]].0, 1.0 - a[terms[n]].1);
      }
    }
  }

  lemma ContributionAt(weights: Vector, subscores: Vector, unavailable: set<Term>, t: Term)
    ensures Contribution(Available(weights, subscores, unavailable), t) ==
            if t in unavailable then 0.0 else weights[Position(t)] * subscores[Position(t)]
  {
  }

  lemma TotalBelowWeight(weights: Vector, subscores: Vector, unavailable: set<Term>)
    requires InUnit(subscores) && NonNegative(weights)
    ensures 0.0 <= Total(weights, subscores, unavailable) <= WeightOf(FEATURES, Available(weights, subscores, unavailable))
  {
    hide Position;
    WeightedBelowWeight(FEATURES, Available(weights, subscores, unavailable));
  }

  lemma {:induction false} WeightIsSum(weights: Vector, subscores: Vector, n: nat)
    requires n <= 5
    ensures WeightOf(FEATURES[..n], Available(weights, subscores, {})) == Sum(weights[..n])
  {
    if n == 0 {
    } else {
      WeightIsSum(weights, subscores, n - 1);
      assert FEATURES[..n][..n - 1] == FEATURES[..n - 1] && weights[..n][..n - 1] == weights[..n - 1];
      assert Position(FEATURES[n - 1]) == n - 1;
    }
  }

  /** A posting never scores above the weight that could be assessed, and a failed gate scores zero. */
  lemma ScoreWithinAssessedWeight(subscores: Vector, gatePassed: bool, weights: Vector, unavailable: set<Term>)
    requires InUnit(subscores) && NonNegative(weights)
    ensures var score := Scored(subscores, gatePassed, weights, unavailable);
            0.0 <= score.total <= MinR(score.assessedWeight, 1.0) && (!gatePassed ==> score.total == 0.0)
  {
    hide Weighted, WeightOf, Available;
    TotalBelowWeight(weights, subscores, unavailable);
  }

  lemma UnavailableNeverRaises(subscores: Vector, weights: Vector, fewer: set<Term>, more: set<Term>)
    requires InUnit(subscores) && NonNegative(weights) && fewer <= more
    ensures Total(weights, subscores, more) <= Total(weights, subscores, fewer)
  {
    var a, b := Available(weights, subscores, more), Available(weights, subscores, fewer);
    hide Weighted, WeightOf, Available, Position;
    forall t ensures Contribution(a, t) <= 1.0 * Contribution(b, t) {
      ContributionAt(weights, subscores, more, t);
      ContributionAt(weights, subscores, fewer, t);
      NonNegativeProduct(weights[Position(t)], subscores[Position(t)]);
    }
    hide Contribution;
    WeightedAtMost(FEATURES, a, b, 1.0);
  }

  /** Losing a term never raises a score. */
  lemma UnavailableNeverHelps(subscores: Vector, gatePassed: bool, weights: Vector, fewer: set<Term>, more: set<Term>)
    requires InUnit(subscores) && NonNegative(weights) && fewer <= more
    ensures Scored(subscores, gatePassed, weights, more).total <= Scored(subscores, gatePassed, weights, fewer).total
  {
    hide Weighted, WeightOf, Available;
    UnavailableNeverRaises(subscores, weights, fewer, more);
  }

  lemma ScaledPart(d: real, bound: real, lower: real, w: real, upper: real, x: real, own: real, plain: real)
    requires lower == d * (1.0 - bound) && upper == d * (1.0 + bound) && lower <= w <= upper && x >= 0.0
    requires own == w * x && plain == d * x
    ensures (1.0 - bound) * plain <= own <= (1.0 + bound) * plain
  {
    NonNegativeProduct(w - lower, x);
    NonNegativeProduct(upper - w, x);
    assert (w - lower) * x == own - lower * x && (upper - w) * x == upper * x - own;
    assert lower * x == (1.0 - bound) * plain && upper * x == (1.0 + bound) * plain;
  }

  lemma TotalsWithinBand(subscores: Vector, base: Vector, weights: Vector, bound: real, unavailable: set<Term>)
    requires ValidDefaults(base, bound) && InUnit(subscores)
    requires Between(Lower(base, bound), weights, Upper(base, bound))
    ensures var t, d := Total(weights, subscores, unavailable), Total(base, subscores, unavailable);
            (1.0 - bound) * d <= t <= (1.0 + bound) * d
  {
    var a, b := Available(weights, subscores, unavailable), Available(base, subscores, unavailable);
    hide *;
    forall t ensures (1.0 - bound) * Contribution(b, t) <= Contribution(a, t) <= (1.0 + bound) * Contribution(b, t) {
      PartWithinBand(subscores, base, weights, bound, unavailable, t);
    }
    WeightedAtLeast(FEATURES, a, b, 1.0 - bound);
    WeightedAtMost(FEATURES, a, b, 1.0 + bound);
    TotalIs(weights, subscores, unavailable);
    TotalIs(base, subscores, unavailable);
  }

  lemma TotalIs(weights: Vector, subscores: Vector, unavailable: set<Term>)
    ensures Total(weights, subscores, unavailable) == Weighted(FEATURES, Available(weights, subscores, unavailable))
  {
  }

  lemma PartWithinBand(subscores: Vector, base: Vector, weights: Vector, bound: real, unavailable: set<Term>, t: Term)
    requires ValidDefaults(base, bound) && InUnit(subscores)
    requires Between(Lower(base, bound), weights, Upper(base, bound))
    ensures var a, b := Available(weights, subscores, unavailable), Available(base, subscores, unavailable);
            (1.0 - bound) * Contribution(b, t) <= Contribution(a, t) <= (1.0 + bound) * Contribution(b, t)
  {
    hide Available, Contribution, Lower, Upper, ValidDefaults, Position;
    var i := Position(t);
    ContributionAt(weights, subscores, unavailable, t);
    ContributionAt(base, subscores, unavailable, t);
    DefaultAt(base, bound, i);
    if t !in unavailable {
      ScaledPart(base[i], bound, Lower(base, bound)[i], weights[i], Upper(base, bound)[i], subscores[i],
                 Contribution(Available(weights, subscores, unavailable), t),
                 Contribution(Available(base, subscores, unavailable), t));
    }
    if t in unavailable {
      assert (1.0 - bound) * 0.0 == 0.0;
    }
  }

  /** Whatever was fitted, a personalised total stays within the bound of the default-weight total, cap included. */
  lemma PersonalTotalWithinBand(tanh: real -> real, values: map<Term, real>, base: Vector, bound: real,
                                subscores: Vector, gatePassed: bool, unavailable: set<Term>)
    requires ValidDefaults(base, bound) && InUnit(subscores)
    ensures var own := Scored(subscores, gatePassed, Weights(tanh, values, base, bound), unavailable);
            var plain := Scored(subscores, gatePassed, base, unavailable);
            (1.0 - bound) * plain.total <= own.total <= (1.0 + bound) * plain.total
  {
    hide Weights, Lower, Upper, Available, Weighted, WeightOf, Sum, Position;
    WeightsBounded(tanh, values, base, bound);
    TotalsWithinBand(subscores, base, Weights(tanh, values, base, bound), bound, unavailable);
    BaseTotalInUnit(subscores, base, bound, unavailable);
    if gatePassed {
      var d := Total(base, subscores, unavailable);
      NonNegativeProduct(bound, d);
      assert (1.0 - bound) * d == d - bound * d;
    }
  }

  lemma BaseTotalInUnit(subscores: Vector, base: Vector, bound: real, unavailable: set<Term>)
    requires ValidDefaults(base, bound) && InUnit(subscores)
    ensures 0.0 <= Total(base, subscores, unavailable) <= 1.0
  {
    hide Sum, Weighted, WeightOf, Position, Contribution;
    TotalBelowWeight(base, subscores, unavailable);
    TotalBelowWeight(base, subscores, {});
    UnavailableNeverRaises(subscores, base, {}, unavailable);
    WeightIsSum(base, subscores, 5);
    assert FEATURES[..5] == FEATURES && base[..5] == base;
  }

  const WEIGHT_BOUND := 0.40

  /** The shipped defaults meet every assumption above, so no total moves by more than 40 percent. */
  lemma ShippedDefaultsAreValid()
    ensures ValidDefaults(DEFAULT_WEIGHTS, WEIGHT_BOUND)
  {
    var d := DEFAULT_WEIGHTS;
    assert d[..4][..3] == d[..3] && d[..3][..2] == d[..2] && d[..2][..1] == d[..1] && d[..1][..0] == [];
    assert Sum(d[..1]) == 0.35;
    assert Sum(d[..2]) == 0.60;
    assert Sum(d[..3]) == 0.75;
    assert Sum(d[..4]) == 0.90;
  }
}
