/** preferences.py and aggregate.py: coefficients turned into bounded weights that sum to one, and the
    match score that uses them. Values are exact, before rounding; `tanh` is a given function. */
module PersonalWeights {
  import opened Prelude
  import opened RealFacts
  import opened Scoring

  const REFERENCE_EFFECT := 2.0

  function Clamp(lower: real, upper: real, x: real): real {
    MinR(upper, MaxR(lower, x))
  }

  function Lower(defaults: seq<real>, bound: real): (r: seq<real>)
    ensures |r| == |defaults|
  {
    seq(|defaults|, i requires 0 <= i < |defaults| => defaults[i] * (1.0 - bound))
  }

  function Upper(defaults: seq<real>, bound: real): (r: seq<real>)
    ensures |r| == |defaults|
  {
    seq(|defaults|, i requires 0 <= i < |defaults| => defaults[i] * (1.0 + bound))
  }

  function Clamped(raw: seq<real>, lower: seq<real>, upper: seq<real>): (r: seq<real>)
    requires |raw| == |lower| == |upper|
    ensures |r| == |raw|
  {
    seq(|raw|, i requires 0 <= i < |raw| => Clamp(lower[i], upper[i], raw[i]))
  }

  /** Headroom in the direction of travel. */
  function Headroom(ws: seq<real>, lower: seq<real>, upper: seq<real>, down: bool): (r: seq<real>)
    requires |ws| == |lower| == |upper|
    ensures |r| == |ws|
  {
    seq(|ws|, i requires 0 <= i < |ws| => if down then ws[i] - lower[i] else upper[i] - ws[i])
  }

  function Nudged(w: real, direction: real, movement: real, capacity: real, available: real): real
    requires available > 0.0
  {
    w + direction * movement * capacity / available
  }

  function Shifted(ws: seq<real>, direction: real, movement: real, capacity: seq<real>, available: real): (r: seq<real>)
    requires |ws| == |capacity| && available > 0.0
    ensures |r| == |ws|
  {
    seq(|ws|, i requires 0 <= i < |ws| => Nudged(ws[i], direction, movement, capacity[i], available))
  }

  function Project(raw: seq<real>, defaults: seq<real>, bound: real): (r: seq<real>)
    requires |raw| == |defaults|
    ensures |r| == |raw|
  {
    var lower, upper := Lower(defaults, bound), Upper(defaults, bound);
    var ws := Clamped(raw, lower, upper);
    var surplus := Sum(ws) - 1.0;
    if AbsR(surplus) < 0.000000000000001 then ws
    else
      var capacity := Headroom(ws, lower, upper, surplus > 0.0);
      var available := Sum(capacity);
      if available <= 0.0 then ws
      else
        Clamped(Shifted(ws, if surplus > 0.0 then -1.0 else 1.0, MinR(AbsR(surplus), available), capacity, available),
                lower, upper)
  }

  method ProjectToSimplex(raw: seq<real>, defaults: seq<real>, bound: real) returns (r: seq<real>)
    requires |raw| == |defaults|
    ensures r == Project(raw, defaults, bound)
  {
    hide Lower, Upper, Clamped, Headroom, Sum, Nudged, AbsR, MinR;
    var lower, upper := Lower(defaults, bound), Upper(defaults, bound);
    var start := Clamped(raw, lower, upper);
    var surplus := Sum(start) - 1.0;
    if AbsR(surplus) < 0.000000000000001 {
      return start;
    }
    var capacity := Headroom(start, lower, upper, surplus > 0.0);
    var available := Sum(capacity);
    if available <= 0.0 {
      return start;
    }
    var movement := MinR(AbsR(surplus), available);
    var direction := if surplus > 0.0 then -1.0 else 1.0;
    var weights := new real[|start|];
    forall i | 0 <= i < |start| {
      weights[i] := start[i];
    }
    for i := 0 to weights.Length
      invariant forall k :: 0 <= k < i ==> weights[k] == Nudged(start[k], direction, movement, capacity[k], available)
      invariant forall k :: i <= k < weights.Length ==> weights[k] == start[k]
    {
      weights[i] := Nudged(weights[i], direction, movement, capacity[i], available);
    }
    assert weights[..] == Shifted(start, direction, movement, capacity, available);
    r := Clamped(weights[..], lower, upper);
  }

  // ---- sums ----

  lemma {:induction false} SumScaled(x: seq<real>, z: seq<real>, a: real)
    requires |x| == |z| && forall i :: 0 <= i < |x| ==> z[i] == a * x[i]
    ensures Sum(z) == a * Sum(x)
  {
    if x == [] {
    } else {
      var n := |x| - 1;
      SumScaled(x[..n], z[..n], a);
      Distributes(a, Sum(x[..n]), x[n]);
    }
  }

  lemma {:induction false} SumLess(x: seq<real>, y: seq<real>, z: seq<real>)
    requires |x| == |y| == |z| && forall i :: 0 <= i < |x| ==> z[i] == x[i] - y[i]
    ensures Sum(z) == Sum(x) - Sum(y)
  {
    if x == [] {
    } else {
      var n := |x| - 1;
      SumLess(x[..n], y[..n], z[..n]);
    }
  }

  // ---- the projection ----

  ghost predicate Between(lower: seq<real>, ws: seq<real>, upper: seq<real>) {
    |lower| == |ws| == |upper| && forall i :: 0 <= i < |ws| ==> lower[i] <= ws[i] <= upper[i]
  }

  ghost predicate ValidDefaults(defaults: seq<real>, bound: real) {
    0.0 <= bound <= 1.0 && Sum(defaults) == 1.0 && forall i :: 0 <= i < |defaults| ==> defaults[i] > 0.0
  }

  lemma DefaultAt(defaults: seq<real>, bound: real, i: nat)
    requires ValidDefaults(defaults, bound) && i < |defaults|
    ensures defaults[i] > 0.0 && Lower(defaults, bound)[i] == defaults[i] * (1.0 - bound)
    ensures Upper(defaults, bound)[i] == defaults[i] * (1.0 + bound)
    ensures Lower(defaults, bound)[i] <= defaults[i] <= Upper(defaults, bound)[i]
  {
    hide Sum;
    NonNegativeProduct(defaults[i], bound);
    Spread(defaults[i], bound);
  }

  lemma BoundsFit(defaults: seq<real>, bound: real)
    requires ValidDefaults(defaults, bound)
    ensures Sum(Lower(defaults, bound)) == 1.0 - bound && Sum(Upper(defaults, bound)) == 1.0 + bound
    ensures forall i :: 0 <= i < |defaults| ==> Lower(defaults, bound)[i] <= Upper(defaults, bound)[i]
  {
    hide Sum;
    SumScaled(defaults, Lower(defaults, bound), 1.0 - bound);
    SumScaled(defaults, Upper(defaults, bound), 1.0 + bound);
    hide Lower, Upper;
    forall i | 0 <= i < |defaults| ensures Lower(defaults, bound)[i] <= Upper(defaults, bound)[i] {
      DefaultAt(defaults, bound, i);
    }
  }

  lemma Spread(d: real, b: real)
    ensures d * (1.0 - b) == d - d * b && d * (1.0 + b) == d + d * b
  {
  }

  lemma ClampedIsBetween(raw: seq<real>, lower: seq<real>, upper: seq<real>)
    requires |raw| == |lower| == |upper| && forall i :: 0 <= i < |raw| ==> lower[i] <= upper[i]
    ensures Between(lower, Clamped(raw, lower, upper), upper)
    ensures Between(lower, raw, upper) ==> Clamped(raw, lower, upper) == raw
  {
  }

  /** What the code divides the surplus by is never too small: the whole surplus can be moved. */
  lemma HeadroomSuffices(ws: seq<real>, defaults: seq<real>, bound: real)
    requires ValidDefaults(defaults, bound) && Between(Lower(defaults, bound), ws, Upper(defaults, bound))
    ensures var surplus := Sum(ws) - 1.0;
            var capacity := Headroom(ws, Lower(defaults, bound), Upper(defaults, bound), surplus > 0.0);
            Sum(capacity) == AbsR(surplus) + bound && forall i :: 0 <= i < |capacity| ==> capacity[i] >= 0.0
  {
    hide Lower, Upper, Sum, ValidDefaults;
    var lower, upper := Lower(defaults, bound), Upper(defaults, bound);
    BoundsFit(defaults, bound);
    BoundIsNonNegative(defaults, bound);
    var surplus := Sum(ws) - 1.0;
    var capacity := Headroom(ws, lower, upper, surplus > 0.0);
    if surplus > 0.0 {
      SumLess(ws, lower, capacity);
    } else {
      SumLess(upper, ws, capacity);
    }
  }

  /** The fraction of its headroom that every weight gives up: below 1 whenever the bound is positive. */
  function Share(ws: seq<real>, bound: real): real
    requires AbsR(Sum(ws) - 1.0) + bound > 0.0
  {
    AbsR(Sum(ws) - 1.0) / (AbsR(Sum(ws) - 1.0) + bound)
  }

  lemma ShareFacts(surplus: real, bound: real, share: real)
    requires surplus != 0.0 && bound >= 0.0 && share == AbsR(surplus) / (AbsR(surplus) + bound)
    ensures 0.0 <= share <= 1.0 && (bound > 0.0 ==> share < 1.0)
    ensures share * (AbsR(surplus) + bound) == AbsR(surplus)
  {
    var s := AbsR(surplus);
    Undivide(s, s + bound);
    NonNegativeFactor(share, s + bound);
    NonNegativeFactor(1.0 - share, s + bound);
    if bound > 0.0 && share >= 1.0 {
      NonNegativeProduct(share - 1.0, s + bound);
    }
  }

  lemma MoveBy(w: real, direction: real, s: real, c: real, available: real, share: real)
    requires available > 0.0 && share == s / available
    ensures w + direction * s * c / available == w + (direction * share) * c
  {
    var x := direction * s * c / available;
    Undivide(direction * s * c, available);
    Undivide(s, available);
    assert ((direction * share) * c) * available == direction * (share * available) * c;
    SameFactor(x, (direction * share) * c, available);
  }

  /** One weight after giving up a share of its headroom. */
  function Moves(w: real, lower: real, upper: real, share: real, down: bool): real {
    w + share * (if down then lower - w else upper - w)
  }

  lemma NudgeIsMove(w: real, lower: real, upper: real, s: real, available: real, share: real, down: bool)
    requires available > 0.0 && share == s / available && 0.0 <= share <= 1.0 && lower <= w <= upper
    ensures var direction, c := if down then -1.0 else 1.0, if down then w - lower else upper - w;
            Nudged(w, direction, s, c, available) == Moves(w, lower, upper, share, down)
    ensures lower <= Moves(w, lower, upper, share, down) <= upper
  {
    var direction, c := if down then -1.0 else 1.0, if down then w - lower else upper - w;
    MoveBy(w, direction, s, c, available, share);
    StaysInside(lower, w, upper, share);
    Turn(share, lower - w, c, direction);
  }

  /** Without the early return, every weight gives up the same share of its headroom, and nothing is clamped. */
  lemma ProjectionIsShift(raw: seq<real>, defaults: seq<real>, bound: real)
    requires |raw| == |defaults| && ValidDefaults(defaults, bound)
    ensures var lower, upper, r := Lower(defaults, bound), Upper(defaults, bound), Project(raw, defaults, bound);
            var ws := Clamped(raw, lower, upper);
            var surplus := Sum(ws) - 1.0;
            Between(lower, ws, upper) && Between(lower, r, upper) &&
            if AbsR(surplus) < 0.000000000000001 then r == ws
            else
              AbsR(surplus) + bound > 0.0 &&
              forall i :: 0 <= i < |r| ==> r[i] == Moves(ws[i], lower[i], upper[i], Share(ws, bound), surplus > 0.0)
  {
    hide Lower, Upper, Clamped, Sum, Nudged, Moves, ValidDefaults;
    var lower, upper := Lower(defaults, bound), Upper(defaults, bound);
    BoundsFit(defaults, bound);
    ClampedIsBetween(raw, lower, upper);
    var ws := Clamped(raw, lower, upper);
    var surplus := Sum(ws) - 1.0;
    BoundIsNonNegative(defaults, bound);
    if AbsR(surplus) >= 0.000000000000001 {
      HeadroomSuffices(ws, defaults, bound);
      var down := surplus > 0.0;
      var capacity, direction := Headroom(ws, lower, upper, down), if down then -1.0 else 1.0;
      var available, share := Sum(capacity), Share(ws, bound);
      ShareFacts(surplus, bound, share);
      var moved := Shifted(ws, direction, AbsR(surplus), capacity, available);
      forall i | 0 <= i < |ws|
        ensures moved[i] == Moves(ws[i], lower[i], upper[i], share, down) && lower[i] <= moved[i] <= upper[i]
      {
        NudgeIsMove(ws[i], lower[i], upper[i], AbsR(surplus), available, share, down);
      }
      ClampedIsBetween(moved, lower, upper);
      assert MinR(AbsR(surplus), available) == AbsR(surplus);
    }
  }

  lemma BoundIsNonNegative(defaults: seq<real>, bound: real)
    requires ValidDefaults(defaults, bound)
    ensures 0.0 <= bound <= 1.0
  {
  }

  lemma Turn(share: real, x: real, c: real, direction: real)
    ensures direction == -1.0 && c == -x ==> (direction * share) * c == share * x
    ensures direction == 1.0 ==> (direction * share) * c == share * c
  {
  }

  lemma StaysInside(lower: real, w: real, upper: real, share: real)
    requires lower <= w <= upper && 0.0 <= share <= 1.0
    ensures lower <= w + share * (lower - w) <= upper && lower <= w + share * (upper - w) <= upper
  {
    NonNegativeProduct(share, w - lower);
    NonNegativeProduct(1.0 - share, w - lower);
    NonNegativeProduct(share, upper - w);
    NonNegativeProduct(1.0 - share, upper - w);
  }

  /** `r` is `share` of the way from `w` to `t`. */
  predicate IsMove(share: real, w: real, t: real, r: real) {
    r == w + share * (t - w)
  }

  lemma {:induction false} SumOfMoves(ws: seq<real>, target: seq<real>, r: seq<real>, share: real)
    requires |ws| == |target| == |r| && forall i :: 0 <= i < |r| ==> IsMove(share, ws[i], target[i], r[i])
    ensures IsMove(share, Sum(ws), Sum(target), Sum(r))
  {
    if ws == [] {
    } else {
      hide IsMove;
      var n := |ws| - 1;
      SumOfMoves(ws[..n], target[..n], r[..n], share);
      TwoMoves(share, Sum(ws[..n]), Sum(target[..n]), Sum(r[..n]), ws[n], target[n], r[n]);
    }
  }

  lemma TwoMoves(share: real, w: real, t: real, r: real, x: real, y: real, z: real)
    requires IsMove(share, w, t, r) && IsMove(share, x, y, z)
    ensures IsMove(share, w + x, t + y, r + z)
  {
    Distributes(share, t - w, y - x);
  }

  lemma LandsOnOne(sum: real, surplus: real, bound: real, share: real)
    requires surplus == sum - 1.0 && share * (AbsR(surplus) + bound) == AbsR(surplus)
    ensures surplus > 0.0 ==> sum + share * ((1.0 - bound) - sum) == 1.0
    ensures surplus <= 0.0 ==> sum + share * ((1.0 + bound) - sum) == 1.0
  {
    if surplus > 0.0 {
      assert share * ((1.0 - bound) - sum) == -(share * (AbsR(surplus) + bound));
    } else {
      assert share * ((1.0 + bound) - sum) == share * (AbsR(surplus) + bound);
    }
  }

  /** The result keeps every weight within the bound of its default and sums to one, within 1e-15 when the
      clamped input was already that close. */
  lemma ProjectionMeetsSimplex(raw: seq<real>, defaults: seq<real>, bound: real)
    requires |raw| == |defaults| && ValidDefaults(defaults, bound)
    ensures Between(Lower(defaults, bound), Project(raw, defaults, bound), Upper(defaults, bound))
    ensures var close := Clamped(raw, Lower(defaults, bound), Upper(defaults, bound));
            if AbsR(Sum(close) - 1.0) < 0.000000000000001 then Project(raw, defaults, bound) == close
            else Sum(Project(raw, defaults, bound)) == 1.0
  {
    hide Project, Lower, Upper, Clamped, Sum, ValidDefaults, Share;
    var lower, upper, r := Lower(defaults, bound), Upper(defaults, bound), Project(raw, defaults, bound);
    ProjectionIsShift(raw, defaults, bound);
    BoundsFit(defaults, bound);
    BoundIsNonNegative(defaults, bound);
    var ws := Clamped(raw, lower, upper);
    var surplus := Sum(ws) - 1.0;
    if AbsR(surplus) >= 0.000000000000001 {
      var share := Share(ws, bound);
      ShareOf(ws, bound);
      var target := if surplus > 0.0 then lower else upper;
      SumOfMoves(ws, target, r, share);
      assert Sum(r) == Sum(ws) + share * (Sum(target) - Sum(ws));
      LandsOnOne(Sum(ws), surplus, bound, share);
    }
  }

  lemma ShareOf(ws: seq<real>, bound: real)
    requires Sum(ws) != 1.0 && bound >= 0.0
    ensures AbsR(Sum(ws) - 1.0) + bound > 0.0
    ensures 0.0 <= Share(ws, bound) <= 1.0 && (bound > 0.0 ==> Share(ws, bound) < 1.0)
    ensures Share(ws, bound) * (AbsR(Sum(ws) - 1.0) + bound) == AbsR(Sum(ws) - 1.0)
  {
    ShareFacts(Sum(ws) - 1.0, bound, Share(ws, bound));
  }

  /** The projection leaves exactly the feasible inputs alone. */
  lemma FixedExactlyWhenFeasible(raw: seq<real>, defaults: seq<real>, bound: real)
    requires |raw| == |defaults| && ValidDefaults(defaults, bound)
    ensures Project(raw, defaults, bound) == raw <==>
            Between(Lower(defaults, bound), raw, Upper(defaults, bound)) && AbsR(Sum(raw) - 1.0) < 0.000000000000001
  {
    hide Lower, Upper, Clamped, Sum, ValidDefaults, Headroom, Shifted;
    ProjectionMeetsSimplex(raw, defaults, bound);
    BoundsFit(defaults, bound);
    ClampedIsBetween(raw, Lower(defaults, bound), Upper(defaults, bound));
  }

  // ---- coefficients to weights ----

  function Coefficient(values: map<Term, real>, t: Term): real {
    if t in values then values[t] else 0.0
  }

  /** The multiplier a term starts from. */
  function Multiplier(tanh: real -> real, values: map<Term, real>, bound: real, t: Term): real {
    1.0 + bound * tanh(Coefficient(values, t) / REFERENCE_EFFECT)
  }

  function RawWeight(tanh: real -> real, values: map<Term, real>, base: Vector, bound: real, t: Term): real {
    base[Position(t)] * Multiplier(tanh, values, bound, t)
  }

  function RawWeights(tanh: real -> real, values: map<Term, real>, base: Vector, bound: real): Vector {
    [RawWeight(tanh, values, base, bound, SkillCoverage), RawWeight(tanh, values, base, bound, RequirementAlignment),
     RawWeight(tanh, values, base, bound, SeniorityFit), RawWeight(tanh, values, base, bound, SemanticSimilarity),
     RawWeight(tanh, values, base, bound, Freshness)]
  }

  function Weights(tanh: real -> real, values: map<Term, real>, base: Vector, bound: real): Vector {
    if forall t :: t in values ==> values[t] == 0.0 then base
    else Project(RawWeights(tanh, values, base, bound), base, bound)
  }

  function Adjustment(tanh: real -> real, values: map<Term, real>, base: Vector, bound: real, t: Term): real {
    if (forall u :: u in values ==> values[u] == 0.0) || base[Position(t)] == 0.0 then 0.0
    else Weights(tanh, values, base, bound)[Position(t)] / base[Position(t)] - 1.0
  }

  /** What is used of tanh: between -1 and 1, and strictly increasing. */
  predicate Squashes(f: real -> real, x: real, y: real) {
    -1.0 < f(x) < 1.0 && (x < y ==> f(x) < f(y))
  }

  ghost predicate IsSquash(f: real -> real) {
    forall x, y {:trigger Squashes(f, x, y)} :: Squashes(f, x, y)
  }

  lemma MultiplierInBand(tanh: real -> real, values: map<Term, real>, bound: real, t: Term)
    requires IsSquash(tanh) && bound >= 0.0
    ensures 1.0 - bound <= Multiplier(tanh, values, bound, t) <= 1.0 + bound
  {
    var x := Coefficient(values, t) / REFERENCE_EFFECT;
    assert Squashes(tanh, x, x);
    SmallMultiple(bound, tanh(x));
  }

  lemma ScaledOrder(d: real, x: real, y: real)
    requires d > 0.0
    ensures x <= y <==> d * x <= d * y
  {
    if x <= y {
      NonNegativeProduct(y - x, d);
    } else {
      NegativeProduct(y - x, d);
    }
  }

  lemma RawIsFeasible(tanh: real -> real, values: map<Term, real>, base: Vector, bound: real, t: Term)
    requires IsSquash(tanh) && ValidDefaults(base, bound)
    ensures Lower(base, bound)[Position(t)] <= RawWeight(tanh, values, base, bound, t) <= Upper(base, bound)[Position(t)]
  {
    hide Sum, IsSquash, Multiplier, Position, Lower, Upper, ValidDefaults;
    var d, m := base[Position(t)], Multiplier(tanh, values, bound, t);
    DefaultAt(base, bound, Position(t));
    BoundIsNonNegative(base, bound);
    MultiplierInBand(tanh, values, bound, t);
    ScaledOrder(d, 1.0 - bound, m);
    ScaledOrder(d, m, 1.0 + bound);
  }

  lemma SmallMultiple(b: real, x: real)
    requires b >= 0.0 && -1.0 <= x <= 1.0
    ensures -b <= b * x <= b
  {
    NonNegativeProduct(b, 1.0 - x);
    NonNegativeProduct(b, 1.0 + x);
  }

  lemma RawIsUnclamped(tanh: real -> real, values: map<Term, real>, base: Vector, bound: real)
    requires IsSquash(tanh) && ValidDefaults(base, bound)
    ensures var raw := RawWeights(tanh, values, base, bound);
            Clamped(raw, Lower(base, bound), Upper(base, bound)) == raw
  {
    hide RawWeight, Lower, Upper, IsSquash, ValidDefaults, Sum, Clamped;
    var raw, lower, upper := RawWeights(tanh, values, base, bound), Lower(base, bound), Upper(base, bound);
    BoundsFit(base, bound);
    forall i | 0 <= i < 5 ensures lower[i] <= raw[i] <= upper[i] {
      RawIsFeasible(tanh, values, base, bound, FEATURES[i]);
      assert Position(FEATURES[i]) == i;
    }
    ClampedIsBetween(raw, lower, upper);
  }

  lemma MovesScales(d: real, m: real, l: real, u: real, share: real, down: bool, w: real, lower: real, upper: real)
    requires w == d * m && lower == d * l && upper == d * u
    ensures Moves(w, lower, upper, share, down) == d * Moves(m, l, u, share, down)
  {
    if down {
      assert share * (d * l - d * m) == d * (share * (l - m));
    } else {
      assert share * (d * u - d * m) == d * (share * (u - m));
    }
  }

  lemma Ratio(w: real, d: real, x: real)
    requires d > 0.0 && w == d * x
    ensures w / d == x
  {
    Undivide(w, d);
    SameFactor(w / d, x, d);
  }

  /** Unless nothing was fitted, each adjustment is its multiplier moved by the share common to all terms. */
  lemma AdjustmentIsMove(tanh: real -> real, values: map<Term, real>, base: Vector, bound: real, t: Term)
    requires IsSquash(tanh) && ValidDefaults(base, bound) && exists u :: u in values && values[u] != 0.0
    ensures var raw, m, a := RawWeights(tanh, values, base, bound), Multiplier(tanh, values, bound, t),
                             Adjustment(tanh, values, base, bound, t);
            var surplus := Sum(raw) - 1.0;
            if AbsR(surplus) < 0.000000000000001 then a == m - 1.0
            else AbsR(surplus) + bound > 0.0 &&
                 a == Moves(m, 1.0 - bound, 1.0 + bound, Share(raw, bound), surplus > 0.0) - 1.0
  {
    hide *;
    var raw, i := RawWeights(tanh, values, base, bound), Position(t);
    var d, m := base[i], Multiplier(tanh, values, bound, t);
    DefaultAt(base, bound, i);
    RawAt(tanh, values, base, bound, t);
    RawIsUnclamped(tanh, values, base, bound);
    ProjectionIsShift(raw, base, bound);
    AdjustmentAt(tanh, values, base, bound, t);
    var surplus := Sum(raw) - 1.0;
    if AbsR(surplus) < 0.000000000000001 {
      Ratio(raw[i], d, m);
    } else {
      var share := Share(raw, bound);
      MovesScales(d, m, 1.0 - bound, 1.0 + bound, share, surplus > 0.0, raw[i], Lower(base, bound)[i], Upper(base, bound)[i]);
      Ratio(Project(raw, base, bound)[i], d, Moves(m, 1.0 - bound, 1.0 + bound, share, surplus > 0.0));
    }
  }

  lemma AdjustmentAt(tanh: real -> real, values: map<Term, real>, base: Vector, bound: real, t: Term)
    requires base[Position(t)] > 0.0 && exists u :: u in values && values[u] != 0.0
    ensures Adjustment(tanh, values, base, bound, t) ==
            Project(RawWeights(tanh, values, base, bound), base, bound)[Position(t)] / base[Position(t)] - 1.0
  {
    hide Project, RawWeights;
  }

  lemma RawAt(tanh: real -> real, values: map<Term, real>, base: Vector, bound: real, t: Term)
    ensures RawWeights(tanh, values, base, bound)[Position(t)] == base[Position(t)] * Multiplier(tanh, values, bound, t)
  {
    hide Multiplier;
    assert RawWeights(tanh, values, base, bound)[Position(t)] == RawWeight(tanh, values, base, bound, t) by {
      hide RawWeight;
    }
  }

  lemma MovesOrdered(m: real, n: real, l: real, u: real, share: real, down: bool)
    requires share < 1.0
    ensures m <= n <==> Moves(m, l, u, share, down) <= Moves(n, l, u, share, down)
  {
    var gap := Moves(n, l, u, share, down) - Moves(m, l, u, share, down);
    assert gap == (n - m) * (1.0 - share);
    hide Moves;
    SignOfFactor(n - m, 1.0 - share, gap);
  }

  lemma SignOfFactor(x: real, y: real, product: real)
    requires y > 0.0 && product == x * y
    ensures x >= 0.0 <==> product >= 0.0
  {
    if x >= 0.0 {
      NonNegativeProduct(x, y);
    } else {
      NegativeProduct(x, y);
    }
  }

  lemma SameScale(a: real, b: real)
    ensures a <= b <==> a / REFERENCE_EFFECT <= b / REFERENCE_EFFECT
  {
  }

  lemma SquashKeepsOrder(f: real -> real, x: real, y: real)
    requires IsSquash(f)
    ensures x <= y <==> f(x) <= f(y)
  {
    assert Squashes(f, x, y) && Squashes(f, y, x);
  }

  lemma MultipliersOrdered(tanh: real -> real, values: map<Term, real>, bound: real, s: Term, t: Term)
    requires IsSquash(tanh) && bound > 0.0
    ensures Multiplier(tanh, values, bound, s) <= Multiplier(tanh, values, bound, t) <==>
            Coefficient(values, s) <= Coefficient(values, t)
  {
    hide IsSquash, Coefficient;
    var x, y := Coefficient(values, s) / REFERENCE_EFFECT, Coefficient(values, t) / REFERENCE_EFFECT;
    SameScale(Coefficient(values, s), Coefficient(values, t));
    SquashKeepsOrder(tanh, x, y);
    ScaledOrder(bound, tanh(x), tanh(y));
  }

  /** Relative adjustments are ordered exactly as the coefficients are, ties included. */
  lemma AdjustmentsFollowCoefficients(tanh: real -> real, values: map<Term, real>, base: Vector, bound: real, s: Term, t: Term)
    requires IsSquash(tanh) && ValidDefaults(base, bound) && bound > 0.0
    ensures Coefficient(values, s) <= Coefficient(values, t) <==>
            Adjustment(tanh, values, base, bound, s) <= Adjustment(tanh, values, base, bound, t)
  {
    hide Sum, IsSquash, Multiplier, RawWeights, Weights, Moves, ValidDefaults, Share;
    if u :| u in values && values[u] != 0.0 {
      hide Adjustment;
      AdjustmentIsMove(tanh, values, base, bound, s);
      AdjustmentIsMove(tanh, values, base, bound, t);
      MultipliersOrdered(tanh, values, bound, s, t);
      var raw := RawWeights(tanh, values, base, bound);
      var surplus := Sum(raw) - 1.0;
      if AbsR(surplus) >= 0.000000000000001 {
        ShareOf(raw, bound);
        MovesOrdered(Multiplier(tanh, values, bound, s), Multiplier(tanh, values, bound, t), 1.0 - bound, 1.0 + bound,
                     Share(raw, bound), surplus > 0.0);
      }
    }
  }

  /** Personalised weights never leave the band around their defaults. */
  lemma WeightsBounded(tanh: real -> real, values: map<Term, real>, base: Vector, bound: real)
    requires ValidDefaults(base, bound)
    ensures Between(Lower(base, bound), Weights(tanh, values, base, bound), Upper(base, bound))
    ensures AbsR(Sum(Weights(tanh, values, base, bound)) - 1.0) < 0.000000000000001
    ensures forall i :: 0 <= i < 5 ==>
      base[i] * (1.0 - bound) <= Weights(tanh, values, base, bound)[i] <= base[i] * (1.0 + bound)
  {
    hide Sum, RawWeights, Project, Clamped;
    forall i | 0 <= i < 5 ensures Lower(base, bound)[i] == base[i] * (1.0 - bound) && Upper(base, bound)[i] == base[i] * (1.0 + bound) {
      DefaultAt(base, bound, i);
    }
    if exists t :: t in values && values[t] != 0.0 {
      hide Lower, Upper, ValidDefaults;
      ProjectionMeetsSimplex(RawWeights(tanh, values, base, bound), base, bound);
    } else {
      forall i | 0 <= i < 5 ensures Lower(base, bound)[i] <= base[i] <= Upper(base, bound)[i] {
        DefaultAt(base, bound, i);
      }
    }
  }

  // ---- a weak fit stays weak ----

  lemma {:induction false} SumAtMost(x: seq<real>, y: seq<real>, k: real)
    requires |x| == |y| && forall i :: 0 <= i < |x| ==> x[i] <= k * y[i]
    ensures Sum(x) <= k * Sum(y)
  {
    if x == [] {
    } else {
      var n := |x| - 1;
      SumAtMost(x[..n], y[..n], k);
      Distributes(k, Sum(y[..n]), y[n]);
    }
  }

  lemma {:induction false} SumAtLeast(x: seq<real>, y: seq<real>, k: real)
    requires |x| == |y| && forall i :: 0 <= i < |x| ==> x[i] >= k * y[i]
    ensures Sum(x) >= k * Sum(y)
  {
    if x == [] {
    } else {
      var n := |x| - 1;
      SumAtLeast(x[..n], y[..n], k);
      Distributes(k, Sum(y[..n]), y[n]);
    }
  }

  /** Every squashed coefficient is at most `e`. */
  ghost predicate Weak(tanh: real -> real, values: map<Term, real>, e: real) {
    forall t :: AbsR(tanh(Coefficient(values, t) / REFERENCE_EFFECT)) <= e
  }

  lemma MultiplierNearOne(tanh: real -> real, values: map<Term, real>, bound: real, e: real, t: Term)
    requires Weak(tanh, values, e) && bound >= 0.0
    ensures AbsR(Multiplier(tanh, values, bound, t) - 1.0) <= bound * e
  {
    var y := tanh(Coefficient(values, t) / REFERENCE_EFFECT);
    assert AbsR(y) <= e;
    NonNegativeProduct(bound, e - y);
    NonNegativeProduct(bound, e + y);
    Distributes(bound, e, -y);
    Distributes(bound, e, y);
  }

  lemma NearOneScales(d: real, m: real, gap: real, w: real)
    requires d > 0.0 && AbsR(m - 1.0) <= gap && w == d * m
    ensures (1.0 - gap) * d <= w <= (1.0 + gap) * d
  {
    NonNegativeProduct(d, m - (1.0 - gap));
    NonNegativeProduct(d, (1.0 + gap) - m);
  }

  lemma RawNearDefaults(tanh: real -> real, values: map<Term, real>, base: Vector, bound: real, e: real)
    requires Weak(tanh, values, e) && ValidDefaults(base, bound)
    ensures AbsR(Sum(RawWeights(tanh, values, base, bound)) - 1.0) <= bound * e
  {
    hide Sum, Weak, RawWeights, Multiplier;
    var raw, gap := RawWeights(tanh, values, base, bound), bound * e;
    forall i | 0 <= i < 5 ensures (1.0 - gap) * base[i] <= raw[i] <= (1.0 + gap) * base[i] {
      var t := FEATURES[i];
      assert Position(t) == i;
      RawAt(tanh, values, base, bound, t);
      MultiplierNearOne(tanh, values, bound, e, t);
      NearOneScales(base[i], Multiplier(tanh, values, bound, t), gap, raw[i]);
    }
    SumAtLeast(raw, base, 1.0 - gap);
    SumAtMost(raw, base, 1.0 + gap);
  }

  lemma ShareIsSmall(s: real, b: real, e: real, share: real)
    requires s >= 0.0 && b > 0.0 && s <= b * e && share >= 0.0 && share * (s + b) == s
    ensures share <= e
  {
    NonNegativeProduct(share, s);
    Distributes(share, s, b);
    Distributes(b, e, -share);
    NonNegativeFactor(e - share, b);
  }

  lemma MovesLittle(m: real, b: real, e: real, share: real, down: bool)
    requires 0.0 <= share <= e && b >= 0.0 && 1.0 - b <= m <= 1.0 + b && AbsR(m - 1.0) <= b * e
    ensures AbsR(Moves(m, 1.0 - b, 1.0 + b, share, down) - 1.0) <= 3.0 * (b * e)
  {
    var room := if down then m - (1.0 - b) else (1.0 + b) - m;
    var moved := share * room;
    NonNegativeProduct(share, room);
    NonNegativeProduct(share, 2.0 * b - room);
    NonNegativeProduct(e - share, 2.0 * b);
    Distributes(share, 2.0 * b, -room);
    assert moved <= 2.0 * (b * e);
    assert Moves(m, 1.0 - b, 1.0 + b, share, down) == if down then m - moved else m + moved;
  }

  /** A coefficient near zero moves a weight only near zero, even after the projection: the relative adjustment
      is at most three times the bound times the largest squashed coefficient. */
  lemma WeakFitsStayWeak(tanh: real -> real, values: map<Term, real>, base: Vector, bound: real, e: real, t: Term)
    requires IsSquash(tanh) && ValidDefaults(base, bound) && bound > 0.0 && Weak(tanh, values, e) && e >= 0.0
    ensures AbsR(Adjustment(tanh, values, base, bound, t)) <= 3.0 * (bound * e)
  {
    hide Sum, IsSquash, Weak, RawWeights, Multiplier, Moves, Share, Weights, ValidDefaults;
    NonNegativeProduct(bound, e);
    if u :| u in values && values[u] != 0.0 {
      hide Adjustment;
      var raw, m := RawWeights(tanh, values, base, bound), Multiplier(tanh, values, bound, t);
      AdjustmentIsMove(tanh, values, base, bound, t);
      MultiplierNearOne(tanh, values, bound, e, t);
      var surplus := Sum(raw) - 1.0;
      if AbsR(surplus) >= 0.000000000000001 {
        RawNearDefaults(tanh, values, base, bound, e);
        ShareOf(raw, bound);
        ShareIsSmall(AbsR(surplus), bound, e, Share(raw, bound));
        MultiplierInBand(tanh, values, bound, t);
        MovesLittle(m, bound, e, Share(raw, bound), surplus > 0.0);
      }
    }
  }

  // ---- the weights written out ----

  /** One plus the bounded, squashed coefficient; a missing coefficient counts as zero. */
  function Factor(tanh: real -> real, values: map<Term, real>, bound: real, t: Term): real {
    1.0 + bound * tanh(if t in values then values[t] / 2.0 else 0.0 / 2.0)
  }

  /** What the scaled defaults sum to beyond one. */
  function Surplus(tanh: real -> real, values: map<Term, real>, base: Vector, bound: real): real {
    base[0] * Factor(tanh, values, bound, SkillCoverage) + base[1] * Factor(tanh, values, bound, RequirementAlignment) +
    base[2] * Factor(tanh, values, bound, SeniorityFit) + base[3] * Factor(tanh, values, bound, SemanticSimilarity) +
    base[4] * Factor(tanh, values, bound, Freshness) - 1.0
  }

  /** A factor moved by `share` of its way to the end of the band that the surplus calls for. */
  function Settled(factor: real, bound: real, surplus: real, share: real): real {
    if surplus > 0.0 then factor - share * (factor - (1.0 - bound)) else factor + share * ((1.0 + bound) - factor)
  }

  lemma {:induction false} SumOfFive(x: Vector)
    ensures Sum(x) == x[0] + x[1] + x[2] + x[3] + x[4]
  {
    assert x[..0] == [] && x[..5] == x;
    SumPrefix(x, 0);
    SumPrefix(x, 1);
    SumPrefix(x, 2);
    SumPrefix(x, 3);
    SumPrefix(x, 4);
  }

  lemma {:induction false} SumPrefix(x: Vector, n: nat)
    requires n < 5
    ensures Sum(x[..n + 1]) == Sum(x[..n]) + x[n]
  {
    assert x[..n + 1][..n] == x[..n];
  }

  lemma SurplusIsExact(tanh: real -> real, values: map<Term, real>, base: Vector, bound: real)
    ensures Sum(RawWeights(tanh, values, base, bound)) - 1.0 == Surplus(tanh, values, base, bound)
  {
    SumOfFive(RawWeights(tanh, values, base, bound));
    hide Sum;
  }

  lemma FactorIsMultiplier(tanh: real -> real, values: map<Term, real>, bound: real, t: Term)
    ensures Factor(tanh, values, bound, t) == Multiplier(tanh, values, bound, t)
  {
  }

  lemma SettledIsMove(m: real, bound: real, s: real, share: real)
    ensures Settled(m, bound, s, share) == Moves(m, 1.0 - bound, 1.0 + bound, share, s > 0.0)
  {
    NegatedProduct(m - (1.0 - bound), (1.0 - bound) - m, share);
  }

  lemma Unadjust(w: real, d: real, x: real)
    requires d > 0.0 && w / d - 1.0 == x - 1.0
    ensures w == d * x
  {
    Undivide(w, d);
  }

  /** The personalised weights in closed form: each default times its factor, after all factors have gone the same
      share of their way to one end of the band so that the weights sum to one. */
  lemma WeightsAreExact(tanh: real -> real, values: map<Term, real>, base: Vector, bound: real, t: Term)
    requires IsSquash(tanh) && ValidDefaults(base, bound) && exists u :: u in values && values[u] != 0.0
    ensures var s, m := Surplus(tanh, values, base, bound), Factor(tanh, values, bound, t);
            var w, d := Weights(tanh, values, base, bound)[Position(t)], base[Position(t)];
            if -0.000000000000001 < s < 0.000000000000001 then w == d * m
            else
              var size := if s > 0.0 then s else -s;
              size + bound > 0.0 && w == d * Settled(m, bound, s, size / (size + bound))
  {
    hide *;
    AdjustmentIsMove(tanh, values, base, bound, t);
    SurplusIsExact(tanh, values, base, bound);
    DefaultAt(base, bound, Position(t));
    FactorIsMultiplier(tanh, values, bound, t);
    var raw, s, m := RawWeights(tanh, values, base, bound), Surplus(tanh, values, base, bound), Factor(tanh, values, bound, t);
    var w, d := Weights(tanh, values, base, bound)[Position(t)], base[Position(t)];
    AdjustmentIsRatio(tanh, values, base, bound, t);
    SizeOf(s);
    if AbsR(s) < 0.000000000000001 {
      Unadjust(w, d, m);
    } else {
      ShareIs(raw, bound);
      SettledIsMove(m, bound, s, Share(raw, bound));
      Unadjust(w, d, Settled(m, bound, s, Share(raw, bound)));
    }
  }

  lemma SizeOf(s: real)
    ensures AbsR(s) == if s > 0.0 then s else -s
  {
  }

  lemma ShareIs(raw: seq<real>, bound: real)
    requires AbsR(Sum(raw) - 1.0) + bound > 0.0
    ensures Share(raw, bound) == AbsR(Sum(raw) - 1.0) / (AbsR(Sum(raw) - 1.0) + bound)
  {
  }

  lemma AdjustmentIsRatio(tanh: real -> real, values: map<Term, real>, base: Vector, bound: real, t: Term)
    requires base[Position(t)] > 0.0 && exists u :: u in values && values[u] != 0.0
    ensures Adjustment(tanh, values, base, bound, t) == Weights(tanh, values, base, bound)[Position(t)] / base[Position(t)] - 1.0
  {
  }

  /** Nothing fitted leaves the defaults. */
  lemma NothingFitted(tanh: real -> real, values: map<Term, real>, base: Vector, bound: real)
    requires forall u :: u in values ==> values[u] == 0.0
    ensures Weights(tanh, values, base, bound) == base
    ensures forall t: Term :: Adjustment(tanh, values, base, bound, t) == 0.0
  {
  }

  /** The adjustment reported for a term is its weight relative to the default. */
  lemma AdjustmentsAreRelative(tanh: real -> real, values: map<Term, real>, base: Vector, bound: real, t: Term)
    ensures base[Position(t)] != 0.0 ==>
      Weights(tanh, values, base, bound)[Position(t)] == base[Position(t)] * (1.0 + Adjustment(tanh, values, base, bound, t))
    ensures base[Position(t)] == 0.0 ==> Adjustment(tanh, values, base, bound, t) == 0.0
  {
    hide Project, RawWeights;
    var w, d := Weights(tanh, values, base, bound)[Position(t)], base[Position(t)];
    if d != 0.0 {
      assert w / d * d == w;
    }
  }
}
