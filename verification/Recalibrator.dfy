/**
 Recalibration of the three score weights, in exact reals: the bounds projection really
 gives, when the declared bounds survive it, and where repeated cycles lead.
 */
module Recalibrator {

  datatype Weights = Weights(relevance: real, temporal: real, importance: real)

  const LEARNING_RATE := 0.02
  const WEIGHT_MIN := 0.05
  const WEIGHT_MAX := 0.85
  const EPS := 0.000000001
  const THIRD := 1.0 / 3.0

  function Clip(x: real): (r: real)
    ensures WEIGHT_MIN <= r <= WEIGHT_MAX
  {
    if x < WEIGHT_MIN then WEIGHT_MIN else if x > WEIGHT_MAX then WEIGHT_MAX else x
  }

  function Clipped(w: Weights): Weights {
    Weights(Clip(w.relevance), Clip(w.temporal), Clip(w.importance))
  }

  function Total(w: Weights): real {
    w.relevance + w.temporal + w.importance
  }

  function Project(w: Weights): Weights {
    var c := Clipped(w);
    var total := Total(c);
    if total < EPS then Weights(THIRD, THIRD, THIRD)
    else Weights(c.relevance / total, c.temporal / total, c.importance / total)
  }

  /** Relevance goes up, the other two down by half as much, or the reverse. */
  function Nudged(w: Weights, positive: bool): Weights {
    var direction := if positive then 1.0 else -1.0;
    Weights(w.relevance + direction * LEARNING_RATE,
            w.temporal - direction * LEARNING_RATE * 0.5,
            w.importance - direction * LEARNING_RATE * 0.5)
  }

  class ScoreConfig {
    var weights: Weights

    constructor (w: Weights)
      ensures weights == w
    {
      weights := w;
    }

    method RunRecalibration(enabled: bool, sessions: nat, pearson: real, threshold: real)
      modifies this
      ensures weights == if enabled && sessions >= 10 && pearson > threshold
                         then Project(Nudged(old(weights), pearson > 0.0)) else old(weights)
    {
      if !enabled {
        return;
      }
      if sessions < 10 {
        return;
      }
      if pearson > threshold {
        var direction := if pearson > 0.0 then 1.0 else -1.0;
        var alpha := weights.relevance + direction * LEARNING_RATE;
        var beta := weights.temporal - direction * LEARNING_RATE * 0.5;
        var gamma := weights.importance - direction * LEARNING_RATE * 0.5;
        weights := Project(Weights(alpha, beta, gamma));
      }
    }
  }

  // ------------------------------------------------------------------ the true bounds

  predicate Within(w: Weights, lo: real, hi: real) {
    lo <= w.relevance <= hi && lo <= w.temporal <= hi && lo <= w.importance <= hi
  }

  predicate OnSimplex(w: Weights) {
    Total(w) == 1.0 && Within(w, 1.0 / 35.0, 17.0 / 19.0)
  }

  lemma QuotientAtMost(x: real, t: real, y: real)
    requires t > 0.0 && x <= y * t
    ensures x / t <= y
  {
    var q := x / t;
    assert q * t == x;
    assert (y - q) * t >= 0.0;
  }

  lemma QuotientAtLeast(x: real, t: real, y: real)
    requires t > 0.0 && x >= y * t
    ensures x / t >= y
  {
    var q := x / t;
    assert q * t == x;
    assert (q - y) * t >= 0.0;
  }

  lemma QuotientBounds(x: real, y: real, z: real)
    requires WEIGHT_MIN <= x <= WEIGHT_MAX && WEIGHT_MIN <= y <= WEIGHT_MAX && WEIGHT_MIN <= z <= WEIGHT_MAX
    ensures 1.0 / 35.0 <= x / (x + y + z) <= 17.0 / 19.0
  {
    QuotientAtLeast(x, x + y + z, 1.0 / 35.0);
    QuotientAtMost(x, x + y + z, 17.0 / 19.0);
  }

  lemma SumOfQuotients(x: real, y: real, z: real)
    requires x + y + z > 0.0
    ensures x / (x + y + z) + y / (x + y + z) + z / (x + y + z) == 1.0
  {
    var t := x + y + z;
    var p, q, r := x / t, y / t, z / t;
    assert p * t == x && q * t == y && r * t == z;
    assert (p + q + r) * t == p * t + q * t + r * t;
    assert (p + q + r - 1.0) * t == 0.0;
  }

  /** Any three numbers project to weights that sum to 1 and lie in [1/35, 17/19]. */
  lemma ProjectBounds(w: Weights)
    ensures OnSimplex(Project(w))
  {
    var c := Clipped(w);
    QuotientBounds(c.relevance, c.temporal, c.importance);
    QuotientBounds(c.temporal, c.relevance, c.importance);
    QuotientBounds(c.importance, c.relevance, c.temporal);
    SumOfQuotients(c.relevance, c.temporal, c.importance);
  }

  /** Both true bounds are attained, and both lie outside the declared ones. */
  lemma BoundsAttained()
    ensures 1.0 / 35.0 < WEIGHT_MIN && WEIGHT_MAX < 17.0 / 19.0
    ensures Project(Weights(0.0, 1.0, 1.0)).relevance == 1.0 / 35.0
    ensures Project(Weights(1.0, 0.0, 0.0)).relevance == 17.0 / 19.0
  {
  }

  predicate AllAtMost(w: Weights, bound: real) {
    w.relevance <= bound && w.temporal <= bound && w.importance <= bound
  }

  predicate AllAtLeast(w: Weights, bound: real) {
    w.relevance >= bound && w.temporal >= bound && w.importance >= bound
  }

  lemma QuotientAbove(x: real, t: real, y: real)
    requires t > 0.0 && x > y * t
    ensures x / t > y
  {
    var q := x / t;
    assert q * t == x;
    assert (q - y) * t > 0.0;
  }

  lemma QuotientBelow(x: real, t: real, y: real)
    requires t > 0.0 && x < y * t
    ensures x / t < y
  {
    var q := x / t;
    assert q * t == x;
    assert (y - q) * t > 0.0;
  }

  /** A share of less than 1 cannot fall below the floor. */
  lemma CeilingAtRisk(x: real, t: real)
    requires 0.0 < t < 1.0 && x >= WEIGHT_MIN
    ensures x / t >= WEIGHT_MIN
    ensures x / t <= WEIGHT_MAX <==> x <= WEIGHT_MAX * t
  {
    QuotientAtLeast(x, t, WEIGHT_MIN);
    if x <= WEIGHT_MAX * t { QuotientAtMost(x, t, WEIGHT_MAX); } else { QuotientAbove(x, t, WEIGHT_MAX); }
  }

  /** A share of at least 1 cannot rise above the ceiling. */
  lemma FloorAtRisk(x: real, t: real)
    requires t >= 1.0 && x <= WEIGHT_MAX
    ensures x / t <= WEIGHT_MAX
    ensures x / t >= WEIGHT_MIN <==> x >= WEIGHT_MIN * t
  {
    QuotientAtMost(x, t, WEIGHT_MAX);
    if x >= WEIGHT_MIN * t { QuotientAtLeast(x, t, WEIGHT_MIN); } else { QuotientBelow(x, t, WEIGHT_MIN); }
  }

  /**
   For any weights, only one declared bound is ever at risk: the ceiling when the clipped
   weights sum to less than 1, the floor otherwise.
   */
  lemma DeclaredBoundsAnyWeights(w: Weights)
    ensures var c, t := Clipped(w), Total(Clipped(w));
            Within(Project(w), WEIGHT_MIN, WEIGHT_MAX)
            <==> if t < 1.0 then AllAtMost(c, WEIGHT_MAX * t) else AllAtLeast(c, WEIGHT_MIN * t)
  {
    var c, t := Clipped(w), Total(Clipped(w));
    if t < 1.0 {
      CeilingAtRisk(c.relevance, t);
      CeilingAtRisk(c.temporal, t);
      CeilingAtRisk(c.importance, t);
    } else {
      FloorAtRisk(c.relevance, t);
      FloorAtRisk(c.temporal, t);
      FloorAtRisk(c.importance, t);
    }
  }

  /**
   The declared floor and ceiling survive the projection of weights that sum to 1 exactly
   when the clipped weights still sum to 1.
   */
  lemma DeclaredBoundsExact(w: Weights)
    requires Total(w) == 1.0
    ensures Within(Project(w), WEIGHT_MIN, WEIGHT_MAX) <==> Total(Clipped(w)) == 1.0
  {
    var c, t := Clipped(w), Total(Clipped(w));
    DeclaredBoundsAnyWeights(w);
    if t > 1.0 {
      assert c.relevance == WEIGHT_MIN || c.temporal == WEIGHT_MIN || c.importance == WEIGHT_MIN;
    } else if t < 1.0 {
      assert c.relevance == WEIGHT_MAX || c.temporal == WEIGHT_MAX || c.importance == WEIGHT_MAX;
    }
  }

  /** Weights that need no clipping are left as they are. */
  lemma ProjectIdentity(w: Weights)
    requires Total(w) == 1.0 && Within(w, WEIGHT_MIN, WEIGHT_MAX)
    ensures Project(w) == w
  {
  }

  /** Away from the bounds a cycle moves relevance by 0.02 and takes half of that from each of the others, or gives it back. */
  lemma InteriorCycle(w: Weights, positive: bool)
    requires Total(w) == 1.0 && Within(w, 0.07, 0.83)
    ensures var r := Project(Nudged(w, positive));
            && r.relevance == w.relevance + (if positive then 0.02 else -0.02)
            && r.temporal == w.temporal - (if positive then 0.01 else -0.01)
            && r.importance == w.importance - (if positive then 0.01 else -0.01)
  {
    ProjectIdentity(Nudged(w, positive));
  }

  // ------------------------------------------------------------- where cycles lead

  const SATURATED := Weights(17.0 / 19.0, 1.0 / 19.0, 1.0 / 19.0)

  /** One triggered cycle with positive correlation. */
  function Cycle(w: Weights): Weights {
    Project(Nudged(w, true))
  }

  function Cycles(w: Weights, n: nat): Weights
    decreases n
  {
    if n == 0 then w else Cycles(Cycle(w), n - 1)
  }

  /** With both lesser weights at most 0.06, one cycle lands on the saturated weights. */
  lemma LastCycle(w: Weights)
    requires Total(w) == 1.0 && w.temporal <= 0.06 && w.importance <= 0.06
    ensures Cycle(w) == SATURATED
  {
  }

  lemma {:induction false} SaturatedStays(n: nat)
    ensures Cycles(SATURATED, n) == SATURATED
  {
    if n > 0 {
      LastCycle(SATURATED);
      SaturatedStays(n - 1);
    }
  }

  /** What one cycle projects. */
  function Pushed(w: Weights): Weights {
    Clipped(Nudged(w, true))
  }

  lemma PushedTotal(w: Weights)
    requires Total(w) == 1.0
    ensures w.relevance <= 0.83 && w.temporal <= 0.86 && w.importance <= 0.86 ==> Total(Pushed(w)) >= 1.0
    ensures Total(Pushed(w)) >= 0.95 || w.relevance <= 0.83
    ensures Cycle(w).temporal == Pushed(w).temporal / Total(Pushed(w))
    ensures Cycle(w).importance == Pushed(w).importance / Total(Pushed(w))
  {
  }

  lemma ProductNonNegative(a: real, b: real)
    requires a >= 0.0 && b >= 0.0
    ensures a * b >= 0.0
  {
  }

  /** A lesser weight above its own ceiling is cut harder still. */
  lemma TopHeavy(x: real, t: real, big: real, bound: real)
    requires x == WEIGHT_MAX && t >= 1.86 - big && 0.86 < big <= 17.0 / 19.0 && big <= bound
    ensures x / t <= bound - 0.003
  {
    var y := big - 0.003;
    ProductNonNegative(big - 0.86, 0.9 - big);
    ProductNonNegative(y, t - (1.86 - big));
    assert (big - 0.86) * (0.9 - big) == 1.76 * big - big * big - 0.774;
    assert y * (1.86 - big) == 1.863 * big - big * big - 0.00558;
    assert y * (t - (1.86 - big)) == y * t - y * (1.86 - big);
    QuotientAtMost(x, t, y);
  }

  lemma TopHeavyTotal(w: Weights)
    requires OnSimplex(w) && (w.temporal > 0.86 || w.importance > 0.86)
    ensures Total(Pushed(w)) >= 1.86 - w.temporal || w.temporal <= 0.86
    ensures Total(Pushed(w)) >= 1.86 - w.importance || w.importance <= 0.86
    ensures Total(Pushed(w)) >= 0.95
    ensures w.temporal > 0.86 ==> Pushed(w).temporal == WEIGHT_MAX && Pushed(w).importance <= 0.14
    ensures w.importance > 0.86 ==> Pushed(w).importance == WEIGHT_MAX && Pushed(w).temporal <= 0.14
  {
  }

  lemma ShrinkOne(x: real, t: real, bound: real)
    requires 0.06 <= bound && x <= bound - 0.01
    requires t >= 1.0 || (t >= 0.95 && bound <= 0.142)
    ensures x / t <= bound - 0.003
  {
    var y := bound - 0.003;
    assert y * t >= y * if t >= 1.0 then 1.0 else 0.95;
    QuotientAtMost(x, t, y);
  }

  /** One cycle shrinks the lesser weights while they are not yet small, seen from a bound on both. */
  lemma Shrinks(w: Weights, bound: real)
    requires OnSimplex(w) && w.temporal <= bound && w.importance <= bound && 0.06 <= bound
    requires bound <= 0.142 || w.relevance <= 0.83
    ensures Cycle(w).temporal <= bound - 0.003 && Cycle(w).importance <= bound - 0.003
  {
    var p := Pushed(w);
    var t := Total(p);
    PushedTotal(w);
    if w.temporal > 0.86 {
      TopHeavyTotal(w);
      TopHeavy(p.temporal, t, w.temporal, bound);
      QuotientAtMost(p.importance, t, 0.2);
    } else if w.importance > 0.86 {
      TopHeavyTotal(w);
      TopHeavy(p.importance, t, w.importance, bound);
      QuotientAtMost(p.temporal, t, 0.2);
    } else {
      ShrinkOne(p.temporal, t, bound);
      ShrinkOne(p.importance, t, bound);
    }
  }

  /** Enough cycles for the bound on the lesser weights to run down to 0.06. */
  lemma {:induction false} RunsDown(w: Weights, n: nat, bound: real)
    requires OnSimplex(w) && w.temporal <= bound && w.importance <= bound
    requires 0.06 <= bound <= 0.06 + 0.003 * n as real
    ensures Cycles(w, n + 1) == SATURATED
    decreases n
  {
    if w.temporal <= 0.06 && w.importance <= 0.06 {
      LastCycle(w);
      SaturatedStays(n);
    } else {
      var tight := if w.relevance > 0.83 && bound > 0.142 then 0.142 else bound;
      Shrinks(w, tight);
      ProjectBounds(Nudged(w, true));
      var next := if tight - 0.003 < 0.06 then 0.06 else tight - 0.003;
      RunsDown(Cycle(w), n - 1, next);
    }
  }

  /**
   Repeated triggering with positive correlation is a ratchet: from any weights at all,
   282 cycles end at (17/19, 1/19, 1/19), and every later cycle stays there.
   */
  lemma CyclesSaturate(w: Weights, n: nat)
    requires n >= 282
    ensures Cycles(w, n) == SATURATED
  {
    var first := Cycle(w);
    ProjectBounds(Nudged(w, true));
    assert 17.0 / 19.0 <= 0.9;
    RunsDown(first, n - 2, 0.9);
  }
}
