/** EXP3.M: adversarial multiple-play bandit with one exponential weight per path. Weights
    above a cap alpha_t (the set S0) are clipped before the weights become selection
    probabilities, which are then rounded to l paths; only paths below the cap are reweighted.
    The exponential is a parameter `exp`. */
module Exp3MPolicy {
  import opened Wrappers
  import opened BanditUtil
  import opened TopIndices
  import DR = DependentRounding

  /** The value of `alpha_t`. `Unclipped` is the source's -1 sentinel for an empty S0; a cap
      found by `getAlpha` is finite, or +infinity when its denominator 1 - k*rhs is zero. */
  datatype Alpha = Unclipped | Cap(v: real) | Infinite

  /** `wi[k] < alpha_t` as written: the sentinel compares as the number -1. */
  predicate Below(w: real, a: Alpha)
  {
    match a
    case Unclipped => w < -1.0
    case Cap(v) => w < v
    case Infinite => true
  }

  /** `min(alpha_t, wi[i])` under a cap; without a cap the weight itself. */
  function Clip(w: real, a: Alpha): (c: real)
    ensures c <= w && (c == w || (a.Cap? && c == a.v))
    ensures a.Cap? ==> c <= a.v
  {
    if a.Cap? && a.v < w then a.v else w
  }

  /** The vector `wsd`: every weight clipped. */
  function Clipped(ws: seq<real>, a: Alpha): (r: seq<real>)
    ensures |r| == |ws| && forall i :: 0 <= i < |ws| ==> r[i] == Clip(ws[i], a)
  {
    seq(|ws|, i requires 0 <= i < |ws| => Clip(ws[i], a))
  }

  /** The weights in descending order (`std::sort` with `std::greater`): a rearrangement of
      the weights whose first entry is the largest. */
  function SortedDescending(ws: seq<real>): (r: seq<real>)
    ensures |r| == |ws|
    ensures forall i, j :: 0 <= i < j < |r| ==> r[i] >= r[j]
    ensures forall i :: 0 <= i < |r| ==> r[i] in ws
    ensures multiset(r) == multiset(ws)
    ensures |ws| > 0 ==> r[0] == VectorMax(ws)
  {
    var idx := VectorMaxIndices(ws, |ws|);
    var r := NewVectorWithIndices(ws, idx);
    assert forall i, j :: 0 <= i < j < |r| ==> Outranks(ws, idx[i], idx[j]);
    PermutedPick(ws, idx);
    if |ws| > 0 then
      FirstOutranksAll(ws, idx);
      r
    else r
  }

  /** The first of the indices ordered by `Outranks`, all of them kept, points at an entry no
      other entry exceeds. */
  lemma FirstOutranksAll(ws: seq<real>, idx: seq<nat>)
    requires |idx| == |ws| > 0 && InRange(ws, idx)
    requires forall i, j :: 0 <= i < j < |idx| ==> Outranks(ws, idx[i], idx[j])
    requires forall a, b: nat :: a in idx && b < |ws| && b !in idx ==> Outranks(ws, a, b)
    ensures forall b :: 0 <= b < |ws| ==> ws[idx[0]] >= ws[b]
  {
    forall b | 0 <= b < |ws|
      ensures ws[idx[0]] >= ws[b]
    {
      if b in idx {
        var j :| 0 <= j < |idx| && idx[j] == b;
        if j > 0 {
          assert Outranks(ws, idx[0], idx[j]);
        }
      } else {
        assert Outranks(ws, idx[0], b);
      }
    }
  }

  /** The denominator 1 - k * rhs of a candidate cap. */
  function Denominator(rhs: real, k: nat): real
  {
    1.0 - k as real * rhs
  }

  /** The numerator rhs * s of a candidate cap. */
  function Numerator(rhs: real, s: real): real
  {
    rhs * s
  }

  /** A finite candidate cap rhs * s / (1 - k * rhs). */
  function CapValue(rhs: real, s: real, k: nat): real
    requires Denominator(rhs, k) != 0.0
  {
    Numerator(rhs, s) / Denominator(rhs, k)
  }

  /** The cap equation: clipping k weights to a and adding the rest s gives each clipped
      weight the share rhs, a = rhs * (k * a + s). */
  predicate SolvesCap(rhs: real, s: real, k: nat, a: real)
  {
    rhs * (k as real * a + s) == a
  }

  /** rhs * s / (1 - k * rhs) as the source's double division evaluates it: +infinity for a zero
      denominator and a positive numerator; None for a NaN or -infinity, which no weight is
      below. */
  function Candidate(rhs: real, s: real, k: nat): (c: Option<Alpha>)
    ensures c != Some(Unclipped)
  {
    if Denominator(rhs, k) != 0.0 then Some(Cap(CapValue(rhs, s, k)))
    else if Numerator(rhs, s) > 0.0 then Some(Infinite)
    else None
  }

  /** `alpha > current` for a candidate. */
  predicate Exceeds(c: Alpha, w: real)
  {
    match c
    case Unclipped => false
    case Cap(v) => v > w
    case Infinite => true
  }

  /** `getAlpha(rhs, ws)` from position k on: the first candidate, computed from the sum s of the
      weights not yet passed, that exceeds the current weight; None when none does (the source
      aborts). */
  function AlphaFrom(rhs: real, ws: seq<real>, k: nat): (r: Option<Alpha>)
    ensures r != Some(Unclipped)
    decreases |ws| - k
  {
    if k >= |ws| then None
    else
      var c := Candidate(rhs, VectorSum(ws[k..]), k);
      if c.Some? && Exceeds(c.value, ws[k]) then c else AlphaFrom(rhs, ws, k + 1)
  }

  /** The sum of a suffix is its first entry plus the sum of the rest. */
  lemma {:induction false} SuffixSum(ws: seq<real>, k: nat)
    requires k < |ws|
    ensures VectorSum(ws[k..]) == ws[k] + VectorSum(ws[k + 1..])
  {
    assert ws[k..] == [ws[k]] + ws[k + 1..];
    VectorSumAppend([ws[k]], ws[k + 1..]);
    assert VectorSum([ws[k]]) == ws[k] by { assert [ws[k]][..0] == []; }
  }

  /** Every finite candidate solves the cap equation. */
  lemma {:induction false} CapEquation(rhs: real, s: real, k: nat)
    requires Denominator(rhs, k) != 0.0
    ensures SolvesCap(rhs, s, k, CapValue(rhs, s, k))
  {
    var a, d := CapValue(rhs, s, k), Denominator(rhs, k);
    assert a * d == rhs * s;
    assert a * d == a - rhs * (k as real * a);
  }

  /** A finite cap found at position j exceeds the j-th weight and solves the cap equation with
      the weights from j on: clipping the j largest weights to alpha leaves each of them exactly
      the share rhs of the clipped total. */
  lemma {:induction false} AlphaShare(rhs: real, ws: seq<real>, k: nat, a: real) returns (j: nat)
    requires AlphaFrom(rhs, ws, k) == Some(Cap(a))
    ensures k <= j < |ws| && ws[j] < a && SolvesCap(rhs, VectorSum(ws[j..]), j, a)
    decreases |ws| - k
  {
    var s := VectorSum(ws[k..]);
    var c := Candidate(rhs, s, k);
    if c.Some? && Exceeds(c.value, ws[k]) {
      CapEquation(rhs, s, k);
      j := k;
    } else {
      j := AlphaShare(rhs, ws, k + 1, a);
    }
  }

  /** The factor `exp(l * gamma * (b / p) / K)` of a reweighting. */
  function Factor(exp: real -> real, l: nat, gamma: real, b: real, p: real, k: nat): real
    requires p != 0.0 && k > 0
  {
    exp(l as real * gamma * (b / p) / k as real)
  }

  /** `w *= f`: a weight scaled by a factor; positive factors keep weights positive. */
  function Scaled(w: real, f: real): (r: real)
    ensures w > 0.0 && f > 0.0 ==> r > 0.0
  {
    w * f
  }

  /** Whether a selected path is reweighted: as written, when its weight is below alpha_t; as
      intended, also whenever S0 is empty (no cap at all). */
  predicate Gate(w: real, a: Alpha, intended: bool)
  {
    (intended && a == Unclipped) || Below(w, a)
  }

  /** The weights after the first n steps of `updateState(is, rs)`. */
  function Reweighted(w: seq<real>, pi: seq<real>, a: Alpha, sel: seq<nat>, rs: seq<Metric>,
                      exp: real -> real, gamma: real, intended: bool, n: nat): (r: seq<real>)
    requires n <= |sel| <= |rs| && |pi| == |w|
    requires forall i :: 0 <= i < |sel| ==> sel[i] < |w|
    requires forall k :: 0 <= k < |pi| ==> pi[k] != 0.0
    ensures |r| == |w|
  {
    if n == 0 then w
    else
      var prev := Reweighted(w, pi, a, sel, rs, exp, gamma, intended, n - 1);
      var k := sel[n - 1];
      if Gate(prev[k], a, intended)
      then prev[k := Scaled(prev[k], Factor(exp, |sel|, gamma, rs[n - 1].b, pi[k], |w|))]
      else prev
  }

  /** Only reweighting touches a weight: a path never selected keeps its weight, and so does a
      path of S0 (weight at least a finite cap). */
  lemma {:induction false} ReweightedFrame(w: seq<real>, pi: seq<real>, a: Alpha, sel: seq<nat>, rs: seq<Metric>,
                                           exp: real -> real, gamma: real, intended: bool, n: nat, k: nat)
    requires n <= |sel| <= |rs| && |pi| == |w| && k < |w|
    requires forall i :: 0 <= i < |sel| ==> sel[i] < |w|
    requires forall j :: 0 <= j < |pi| ==> pi[j] != 0.0
    ensures (forall i :: 0 <= i < n ==> sel[i] != k) ==> Reweighted(w, pi, a, sel, rs, exp, gamma, intended, n)[k] == w[k]
    ensures a.Cap? && w[k] >= a.v ==> Reweighted(w, pi, a, sel, rs, exp, gamma, intended, n)[k] == w[k]
  {
    if n > 0 {
      ReweightedFrame(w, pi, a, sel, rs, exp, gamma, intended, n - 1, k);
    }
  }

  /** As written, an empty S0 freezes every (positive) weight: the sentinel -1 is below all of
      them. */
  lemma {:induction false} AsWrittenUnclippedFrozen(w: seq<real>, pi: seq<real>, sel: seq<nat>, rs: seq<Metric>,
                                                    exp: real -> real, gamma: real, n: nat)
    requires n <= |sel| <= |rs| && |pi| == |w|
    requires forall i :: 0 <= i < |sel| ==> sel[i] < |w|
    requires forall j :: 0 <= j < |pi| ==> pi[j] != 0.0
    requires forall j :: 0 <= j < |w| ==> w[j] > 0.0
    ensures Reweighted(w, pi, Unclipped, sel, rs, exp, gamma, false, n) == w
  {
    if n > 0 {
      AsWrittenUnclippedFrozen(w, pi, sel, rs, exp, gamma, n - 1);
    }
  }

  /** As intended, an empty S0 reweights every selected path: with distinct selections the i-th
      selected path's weight is multiplied by its own factor, and the others keep theirs. */
  lemma {:induction false} IntendedUnclippedUpdatesAll(w: seq<real>, pi: seq<real>, sel: seq<nat>, rs: seq<Metric>,
                                                       exp: real -> real, gamma: real, n: nat)
    requires n <= |sel| <= |rs| && |pi| == |w|
    requires forall i :: 0 <= i < |sel| ==> sel[i] < |w|
    requires forall j :: 0 <= j < |pi| ==> pi[j] != 0.0
    requires forall i, j :: 0 <= i < j < |sel| ==> sel[i] != sel[j]
    ensures forall i :: 0 <= i < n ==>
      Reweighted(w, pi, Unclipped, sel, rs, exp, gamma, true, n)[sel[i]] == Scaled(w[sel[i]], Factor(exp, |sel|, gamma, rs[i].b, pi[sel[i]], |w|))
    ensures forall k :: 0 <= k < |w| && (forall i :: 0 <= i < n ==> sel[i] != k) ==>
      Reweighted(w, pi, Unclipped, sel, rs, exp, gamma, true, n)[k] == w[k]
  {
    if n > 0 {
      IntendedUnclippedUpdatesAll(w, pi, sel, rs, exp, gamma, n - 1);
      var prev := Reweighted(w, pi, Unclipped, sel, rs, exp, gamma, true, n - 1);
      assert prev[sel[n - 1]] == w[sel[n - 1]];
    }
  }

  /** `rhs` of `selectNextPaths`: (1/l - gamma/K) / (1 - gamma). */
  function Rhs(l: nat, gamma: real, k: nat): real
    requires l > 0 && k > 0 && gamma != 1.0
  {
    (1.0 / l as real - gamma / k as real) / (1.0 - gamma)
  }

  /** `threshold` of `selectNextPaths`: (1/l - gamma/K) * sum(w) / (1 - gamma). */
  function Threshold(l: nat, gamma: real, ws: seq<real>): real
    requires l > 0 && |ws| > 0 && gamma != 1.0
  {
    ThresholdOf(l, gamma, |ws|, VectorSum(ws))
  }

  /** The threshold for K paths of total weight `total`. */
  function ThresholdOf(l: nat, gamma: real, k: nat, total: real): real
    requires l > 0 && k > 0 && gamma != 1.0
  {
    (1.0 / l as real - gamma / k as real) * total / (1.0 - gamma)
  }

  /** Whether S0 is non-empty: the largest weight reaches the threshold. */
  predicate ClipsS0(l: nat, gamma: real, ws: seq<real>)
    requires l > 0 && |ws| > 0 && gamma != 1.0
  {
    VectorMax(ws) >= Threshold(l, gamma, ws)
  }

  /** The alpha_t a selection settles on; None when `getAlpha` aborts. */
  function NextAlpha(l: nat, gamma: real, ws: seq<real>): (r: Option<Alpha>)
    requires l > 0 && |ws| > 0 && gamma != 1.0
    ensures r.Some? && r.value != Unclipped ==> ClipsS0(l, gamma, ws)
  {
    if ClipsS0(l, gamma, ws) then AlphaFrom(Rhs(l, gamma, |ws|), SortedDescending(ws), 0) else Some(Unclipped)
  }

  lemma {:induction false} VectorSumFill(n: nat, v: real)
    ensures VectorSum(Fill(n, v)) == n as real * v
  {
    if n > 0 {
      assert Fill(n, v)[..n - 1] == Fill(n - 1, v);
      VectorSumFill(n - 1, v);
    }
  }

  lemma {:induction false} DivAboveOne(y: real, d: real)
    requires 0.0 < d < y
    ensures y / d > 1.0
  {
    assert y / d * d == y;
  }

  lemma {:induction false} QuotientAboveOne(k: nat, l: nat)
    requires 1 <= l < k
    ensures k as real / l as real > 1.0
  {
    DivAboveOne(k as real, l as real);
  }

  lemma {:induction false} SharesTimesK(k: nat, l: nat, gamma: real)
    requires 1 <= l && 1 <= k
    ensures (1.0 / l as real - gamma / k as real) * k as real == k as real / l as real - gamma
  {
    var kr, lr := k as real, l as real;
    assert (1.0 / lr) * kr == kr / lr;
    assert (gamma / kr) * kr == gamma;
  }

  /** With l < K equal unit weights, (1/l - gamma/K) * K / (1 - gamma) exceeds 1. */
  lemma {:induction false} UniformThresholdAboveOne(k: nat, l: nat, gamma: real)
    requires 1 <= l < k && 0.0 <= gamma < 1.0
    ensures ThresholdOf(l, gamma, k, k as real) > 1.0
  {
    QuotientAboveOne(k, l);
    SharesTimesK(k, l, gamma);
    DivAboveOne((1.0 / l as real - gamma / k as real) * k as real, 1.0 - gamma);
  }

  /** From equal weights (the state after `reset`), selecting l < K paths never finds a cap: the
      threshold exceeds the common weight 1, so alpha_t becomes the -1 sentinel. */
  lemma {:induction false} UniformWeightsUnclipped(k: nat, l: nat, gamma: real)
    requires 1 <= l < k && 0.0 <= gamma < 1.0
    ensures NextAlpha(l, gamma, Fill(k, 1.0)) == Some(Unclipped)
  {
    var ws := Fill(k, 1.0);
    VectorSumFill(k, 1.0);
    assert VectorSum(ws) == k as real;
    UniformThresholdAboveOne(k, l, gamma);
    assert Threshold(l, gamma, ws) > 1.0;
    assert VectorMax(ws) == 1.0;
  }

  /** `pi[i] = l * ((1 - gamma) * wsd[i] / sum(wsd) + gamma / K)` for one weight. */
  function Probability(l: nat, gamma: real, w: real, total: real, k: nat): real
    requires total != 0.0 && k > 0
  {
    l as real * ((1.0 - gamma) * w / total + gamma / k as real)
  }

  /** The probability vector of the clipped weights. */
  function Probabilities(l: nat, gamma: real, wsd: seq<real>): (pi: seq<real>)
    requires |wsd| > 0 && VectorSum(wsd) != 0.0
    ensures |pi| == |wsd| && forall i :: 0 <= i < |wsd| ==> pi[i] == Probability(l, gamma, wsd[i], VectorSum(wsd), |wsd|)
  {
    seq(|wsd|, i requires 0 <= i < |wsd| => Probability(l, gamma, wsd[i], VectorSum(wsd), |wsd|))
  }

  /** a * x + b for every entry x. */
  function Affine(ws: seq<real>, a: real, b: real): (r: seq<real>)
    ensures |r| == |ws| && forall i :: 0 <= i < |ws| ==> r[i] == Scaled(a, ws[i]) + b
  {
    seq(|ws|, i requires 0 <= i < |ws| => Scaled(a, ws[i]) + b)
  }

  lemma {:induction false} ScaledDistributes(a: real, x: real, y: real)
    ensures Scaled(a, x + y) == Scaled(a, x) + Scaled(a, y)
  {
  }

  lemma {:induction false} ScaledCountSucc(n: nat, b: real)
    ensures Scaled((n + 1) as real, b) == Scaled(n as real, b) + b
  {
  }

  lemma {:induction false} AffineSum(ws: seq<real>, a: real, b: real)
    ensures VectorSum(Affine(ws, a, b)) == Scaled(a, VectorSum(ws)) + Scaled(|ws| as real, b)
  {
    if |ws| > 0 {
      var n := |ws|;
      var init := ws[..n - 1];
      var r := Affine(ws, a, b);
      assert r[..n - 1] == Affine(init, a, b);
      AffineSum(init, a, b);
      ScaledDistributes(a, VectorSum(init), ws[n - 1]);
      ScaledCountSucc(n - 1, b);
    }
  }

  /** The weight coefficient l * (1 - gamma) / sum(wsd) of a probability. */
  function Slope(l: nat, gamma: real, total: real): real
    requires total != 0.0
  {
    l as real * (1.0 - gamma) / total
  }

  /** The uniform part l * gamma / K of every probability: its floor. */
  function Floor(l: nat, gamma: real, k: nat): real
    requires k > 0
  {
    l as real * gamma / k as real
  }

  /** One probability is affine in its weight. */
  lemma {:induction false} ProbabilityAffine(l: nat, gamma: real, w: real, total: real, k: nat)
    requires total != 0.0 && k > 0
    ensures Probability(l, gamma, w, total, k) == Scaled(Slope(l, gamma, total), w) + Floor(l, gamma, k)
  {
    var lr, c := l as real, 1.0 - gamma;
    var q := c / total;
    var x := c * w / total;
    assert x == q * w;
    assert Slope(l, gamma, total) == lr * q;
    assert lr * (x + gamma / k as real) == lr * x + lr * (gamma / k as real);
    assert lr * (q * w) == (lr * q) * w;
    assert Floor(l, gamma, k) == lr * (gamma / k as real);
  }

  /** The slope over the total weight plus K floors is l. */
  lemma {:induction false} SlopeAndFloors(l: nat, gamma: real, total: real, k: nat)
    requires total != 0.0 && k > 0
    ensures Scaled(Slope(l, gamma, total), total) + Scaled(k as real, Floor(l, gamma, k)) == l as real
  {
    var lr := l as real;
    assert Slope(l, gamma, total) * total == lr * (1.0 - gamma);
    assert k as real * Floor(l, gamma, k) == lr * gamma;
    assert lr * (1.0 - gamma) + lr * gamma == lr;
  }

  /** The probabilities are the clipped weights scaled by the slope and lifted by the floor. */
  lemma {:induction false} ProbabilitiesAffine(l: nat, gamma: real, wsd: seq<real>)
    requires |wsd| > 0 && VectorSum(wsd) != 0.0
    ensures Probabilities(l, gamma, wsd) == Affine(wsd, Slope(l, gamma, VectorSum(wsd)), Floor(l, gamma, |wsd|))
  {
    var pi := Probabilities(l, gamma, wsd);
    var aff := Affine(wsd, Slope(l, gamma, VectorSum(wsd)), Floor(l, gamma, |wsd|));
    forall i | 0 <= i < |wsd|
      ensures pi[i] == aff[i]
    {
      ProbabilityAffine(l, gamma, wsd[i], VectorSum(wsd), |wsd|);
    }
  }

  /** The probabilities sum to l exactly, which is what dependent rounding checks. */
  lemma {:induction false} ProbabilitiesSum(l: nat, gamma: real, wsd: seq<real>)
    requires |wsd| > 0 && VectorSum(wsd) != 0.0
    ensures VectorSum(Probabilities(l, gamma, wsd)) == l as real
  {
    var total, k := VectorSum(wsd), |wsd|;
    var a, b := Slope(l, gamma, total), Floor(l, gamma, k);
    ProbabilitiesAffine(l, gamma, wsd);
    AffineSum(wsd, a, b);
    assert VectorSum(Probabilities(l, gamma, wsd)) == Scaled(a, total) + Scaled(k as real, b);
    SlopeAndFloors(l, gamma, total, k);
  }

  lemma {:induction false} ProductNonNegative(x: real, y: real)
    requires x >= 0.0 && y >= 0.0
    ensures x * y >= 0.0
  {
  }

  lemma {:induction false} ProductPositive(x: real, y: real)
    requires x > 0.0 && y > 0.0
    ensures x * y > 0.0
  {
  }

  /** With 0 <= gamma <= 1 and a non-negative weight of positive total, the probability keeps
      the floor l * gamma / K; with gamma < 1 and a positive weight it is positive. */
  lemma {:induction false} ProbabilityFloor(l: nat, gamma: real, w: real, total: real, k: nat)
    requires total > 0.0 && k > 0 && 0.0 <= gamma <= 1.0 && w >= 0.0
    ensures Probability(l, gamma, w, total, k) >= Floor(l, gamma, k)
    ensures l > 0 && gamma < 1.0 && w > 0.0 ==> Probability(l, gamma, w, total, k) > 0.0
  {
    ProbabilityAffine(l, gamma, w, total, k);
    var lr := l as real;
    ProductNonNegative(lr, 1.0 - gamma);
    var a := Slope(l, gamma, total);
    assert a >= 0.0;
    ProductNonNegative(a, w);
    ProductNonNegative(lr, gamma);
    assert Floor(l, gamma, k) >= 0.0;
    if l > 0 && gamma < 1.0 && w > 0.0 {
      ProductPositive(lr, 1.0 - gamma);
      assert a > 0.0;
      ProductPositive(a, w);
    }
  }

  /** A cap found for positive weights is positive, so clipping keeps every weight positive. */
  lemma {:induction false} ClippedPositive(ws: seq<real>, rhs: real, a: Alpha)
    requires a == Unclipped || AlphaFrom(rhs, SortedDescending(ws), 0) == Some(a)
    requires forall i :: 0 <= i < |ws| ==> ws[i] > 0.0
    ensures forall i :: 0 <= i < |ws| ==> Clipped(ws, a)[i] > 0.0
  {
    if a.Cap? {
      var sorted := SortedDescending(ws);
      var j := AlphaShare(rhs, sorted, 0, a.v);
      assert sorted[j] in ws;
    }
  }

  class Exp3M {
    const K: nat
    const gamma: real
    var alphaT: Alpha
    var wi: seq<real>
    var pi: seq<real>

    /** Weights and probabilities are positive, one per path. */
    ghost predicate Valid()
      reads this
    {
      |wi| == |pi| == K && (forall k :: 0 <= k < K ==> wi[k] > 0.0) && forall k :: 0 <= k < K ==> pi[k] > 0.0
    }

    /** alpha_t starts as the -1 sentinel, then `reset`. */
    constructor (K: nat, gamma: real)
      ensures Valid() && this.K == K && this.gamma == gamma && alphaT == Unclipped
      ensures wi == Fill(K, 1.0) && pi == Fill(K, 1.0)
    {
      this.K := K;
      this.gamma := gamma;
      alphaT := Unclipped;
      new;
      Reset();
    }

    /** `reset`: every weight (and the unused initial probability) is 1; alpha_t is kept. */
    method Reset()
      modifies this
      ensures Valid() && wi == Fill(K, 1.0) && pi == Fill(K, 1.0) && alphaT == old(alphaT)
    {
      wi, pi := Fill(K, 1.0), Fill(K, 1.0);
    }

    /** `getAlpha(rhs, wsSorted)`: walks the sorted weights keeping s, the sum of those not yet
        passed; None stands for the abort when no candidate exceeds its weight. */
    method GetAlpha(rhs: real, wsSorted: seq<real>) returns (r: Option<Alpha>)
      requires |wsSorted| == K
      ensures r == AlphaFrom(rhs, wsSorted, 0)
    {
      var s := VectorSum(wsSorted);
      assert wsSorted[0..] == wsSorted;
      for k := 0 to K
        invariant s == VectorSum(wsSorted[k..])
        invariant AlphaFrom(rhs, wsSorted, k) == AlphaFrom(rhs, wsSorted, 0)
      {
        var alpha := Candidate(rhs, s, k);
        var current := wsSorted[k];
        if alpha.Some? && Exceeds(alpha.value, current) {
          return alpha;
        }
        SuffixSum(wsSorted, k);
        s := s - current;
      }
      return None;
    }

    /** The first part of `selectNextPaths(l)`: no cap when the largest weight stays below the
        threshold, otherwise the cap `getAlpha` finds on the sorted weights. */
    method ChooseAlpha(l: nat) returns (found: Option<Alpha>)
      requires Valid() && 1 <= l && 0 < K && 0.0 <= gamma < 1.0
      ensures found == NextAlpha(l, gamma, wi)
    {
      var wsSorted := SortedDescending(wi);
      var threshold := Threshold(l, gamma, wi);
      if wsSorted[0] >= threshold {
        found := GetAlpha(Rhs(l, gamma, K), wsSorted);
      } else {
        found := Some(Unclipped);
      }
    }

    /** `selectNextPaths(l)` with the generator read from `pos`: settles alpha_t (None when
        `getAlpha` aborts), clips the weights into `wsd`, turns them into probabilities that sum
        to l with the floor l * gamma / K, and rounds them to l paths. */
    method SelectNextPaths(l: nat, rng: nat -> real, pos: nat)
      returns (r: Option<Result<seq<nat>, DR.RoundingError>>, next: nat)
      requires Valid() && 1 <= l && 0 < K && 0.0 <= gamma < 1.0
      modifies this
      ensures Valid() && wi == old(wi)
      ensures r.None? <==> NextAlpha(l, gamma, wi).None?
      ensures r.None? ==> alphaT == old(alphaT) && pi == old(pi) && next == pos
      ensures r.Some? ==> alphaT == NextAlpha(l, gamma, wi).value
      ensures r.Some? ==> (forall i :: 0 <= i < K ==> Clipped(wi, alphaT)[i] > 0.0) && VectorSum(Clipped(wi, alphaT)) > 0.0
      ensures r.Some? ==> pi == Probabilities(l, gamma, Clipped(wi, alphaT))
      ensures r.Some? ==> VectorSum(pi) == l as real && forall i :: 0 <= i < K ==> pi[i] >= Floor(l, gamma, K)
      ensures r.Some? ==> DR.RoundingOutcome(r.value, l, pi, pos, next) && !(r.value.Failure? && r.value.error.SumMismatch?)
    {
      var found := ChooseAlpha(l);
      if found.None? {
        return None, pos;
      }
      var rounded;
      rounded, next := ApplyAlpha(l, found.value, rng, pos);
      r := Some(rounded);
    }

    /** The rest of `selectNextPaths(l)` once alpha_t is settled: the clipped weights, their
        probabilities, and the dependent rounding of those. */
    method ApplyAlpha(l: nat, alpha: Alpha, rng: nat -> real, pos: nat)
      returns (r: Result<seq<nat>, DR.RoundingError>, next: nat)
      requires Valid() && 1 <= l && 0 < K && 0.0 <= gamma < 1.0
      requires NextAlpha(l, gamma, wi) == Some(alpha)
      modifies this
      ensures Valid() && wi == old(wi) && alphaT == alpha
      ensures (forall i :: 0 <= i < K ==> Clipped(wi, alphaT)[i] > 0.0) && VectorSum(Clipped(wi, alphaT)) > 0.0
      ensures pi == Probabilities(l, gamma, Clipped(wi, alphaT))
      ensures VectorSum(pi) == l as real && forall i :: 0 <= i < K ==> pi[i] >= Floor(l, gamma, K)
      ensures DR.RoundingOutcome(r, l, pi, pos, next) && !(r.Failure? && r.error.SumMismatch?)
    {
      ClippedPositive(wi, Rhs(l, gamma, K), alpha);
      var wsd := ClipAll(wi, alpha);
      alphaT := alpha;
      VectorSumPositive(wsd);
      SetProbabilities(l, wsd);
      r, next := DR.Round(l, pi, rng, pos);
    }

    /** The `wsd` loop: `min(alpha_t, wi[i])` under a cap; without one the copy of the weights. */
    static method ClipAll(ws: seq<real>, alpha: Alpha) returns (wsd: seq<real>)
      ensures wsd == Clipped(ws, alpha)
    {
      wsd := ws;
      if alpha != Unclipped {
        for i := 0 to |ws|
          invariant |wsd| == |ws| && wsd[..i] == Clipped(ws, alpha)[..i] && wsd[i..] == ws[i..]
        {
          wsd := wsd[i := Clip(ws[i], alpha)];
        }
      }
    }

    /** The `pi` loop, entry by entry: the probabilities of the clipped weights, which sum to l
        and keep the floor l * gamma / K. */
    method SetProbabilities(l: nat, wsd: seq<real>)
      requires |pi| == |wsd| == K > 0 && 1 <= l && 0.0 <= gamma < 1.0
      requires forall i :: 0 <= i < K ==> wsd[i] > 0.0
      requires VectorSum(wsd) > 0.0
      modifies this
      ensures pi == Probabilities(l, gamma, wsd) && wi == old(wi) && alphaT == old(alphaT)
      ensures VectorSum(pi) == l as real
      ensures forall i :: 0 <= i < K ==> pi[i] >= Floor(l, gamma, K) && pi[i] > 0.0
    {
      var wsdsum := VectorSum(wsd);
      ghost var probs := Probabilities(l, gamma, wsd);
      for i := 0 to K
        invariant |pi| == K && pi[..i] == probs[..i]
        invariant wi == old(wi) && alphaT == old(alphaT)
      {
        pi := pi[i := Probability(l, gamma, wsd[i], wsdsum, K)];
      }
      assert pi == probs;
      ProbabilitiesSum(l, gamma, wsd);
      forall i | 0 <= i < K
        ensures pi[i] >= Floor(l, gamma, K) && pi[i] > 0.0
      {
        ProbabilityFloor(l, gamma, wsd[i], wsdsum, K);
      }
    }

    /** `updateState(is, rs)` as written: the i-th selected path is reweighted only when its
        weight is below alpha_t; so with the -1 sentinel nothing ever changes. */
    method UpdateState(sel: seq<nat>, rs: seq<Metric>, exp: real -> real)
      requires Valid() && |rs| >= |sel| && forall i :: 0 <= i < |sel| ==> sel[i] < K
      requires forall x :: exp(x) > 0.0
      modifies this
      ensures Valid() && alphaT == old(alphaT) && pi == old(pi)
      ensures wi == Reweighted(old(wi), pi, alphaT, sel, rs, exp, gamma, false, |sel|)
      ensures alphaT == Unclipped ==> wi == old(wi)
    {
      ghost var w0 := wi;
      var l := |sel|;
      for i := 0 to |sel|
        invariant pi == old(pi) && alphaT == old(alphaT) && |w0| == |pi| == K
        invariant forall k :: 0 <= k < K ==> pi[k] > 0.0
        invariant |wi| == K && wi == Reweighted(w0, pi, alphaT, sel, rs, exp, gamma, false, i)
        invariant forall k :: 0 <= k < K ==> wi[k] > 0.0
      {
        var k := sel[i];
        var measurement := rs[i];
        if Below(wi[k], alphaT) {
          wi := wi[k := Scaled(wi[k], Factor(exp, l, gamma, measurement.b, pi[k], K))];
        }
      }
      if alphaT == Unclipped {
        AsWrittenUnclippedFrozen(w0, pi, sel, rs, exp, gamma, |sel|);
      }
    }

    /** `updateState(is, rs)` as EXP3.M intends it: every selected path outside S0 is
        reweighted, which with an empty S0 means every selected path. */
    method UpdateStateIntended(sel: seq<nat>, rs: seq<Metric>, exp: real -> real)
      requires Valid() && |rs| >= |sel| && forall i :: 0 <= i < |sel| ==> sel[i] < K
      requires forall x :: exp(x) > 0.0
      modifies this
      ensures Valid() && alphaT == old(alphaT) && pi == old(pi)
      ensures wi == Reweighted(old(wi), pi, alphaT, sel, rs, exp, gamma, true, |sel|)
    {
      ghost var w0 := wi;
      var l := |sel|;
      for i := 0 to |sel|
        invariant pi == old(pi) && alphaT == old(alphaT) && |w0| == |pi| == K
        invariant forall k :: 0 <= k < K ==> pi[k] > 0.0
        invariant |wi| == K && wi == Reweighted(w0, pi, alphaT, sel, rs, exp, gamma, true, i)
        invariant forall k :: 0 <= k < K ==> wi[k] > 0.0
      {
        var k := sel[i];
        var measurement := rs[i];
        if alphaT == Unclipped || Below(wi[k], alphaT) {
          wi := wi[k := Scaled(wi[k], Factor(exp, l, gamma, measurement.b, pi[k], K))];
        }
      }
    }
  }
}
