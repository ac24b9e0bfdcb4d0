/** The five score terms, in the order every weight vector lists them. */
module Scoring {
  datatype Term = SkillCoverage | RequirementAlignment | SeniorityFit | SemanticSimilarity | Freshness

  const FEATURES: seq<Term> := [SkillCoverage, RequirementAlignment, SeniorityFit, SemanticSimilarity, Freshness]

  function Position(t: Term): (i: nat)
    ensures i < 5 && FEATURES[i] == t
  {
    match t
    case SkillCoverage => 0
    case RequirementAlignment => 1
    case SeniorityFit => 2
    case SemanticSimilarity => 3
    case Freshness => 4
  }

  /** One number per term. */
  type Vector = v: seq<real> | |v| == 5 witness [0.0, 0.0, 0.0, 0.0, 0.0]

  const ZEROS: Vector := [0.0, 0.0, 0.0, 0.0, 0.0]
}
