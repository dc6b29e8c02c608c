/** MP-TS: unconstrained multiple-play Thompson sampling with one Beta posterior per path,
    rewarded by whether the measured bandwidth signal exceeds one half. */
module MPTSPolicy {
  import opened BanditUtil
  import opened TopIndices
  import opened BetaTrials

  /** Whether the i-th measurement counts as a success: its b component exceeds 0.5. */
  function Wins(rs: seq<Metric>): (ok: seq<bool>)
    ensures |ok| == |rs| && forall i :: 0 <= i < |rs| ==> ok[i] == (rs[i].b > 0.5)
  {
    seq(|rs|, i requires 0 <= i < |rs| => rs[i].b > 0.5)
  }

  class MPTS {
    const K: nat
    var alphas: seq<real>
    var betas: seq<real>

    ghost predicate Valid()
      reads this
    {
      |alphas| == |betas| == K
    }

    /** Every path's prior is Beta(alpha, beta). */
    constructor (K: nat, alpha: real, beta: real)
      ensures Valid() && this.K == K && alphas == Fill(K, alpha) && betas == Fill(K, beta)
    {
      var a0, b0 := [], [];
      for i := 0 to K
        invariant a0 == Fill(i, alpha) && b0 == Fill(i, beta)
      {
        a0, b0 := a0 + [alpha], b0 + [beta];
      }
      this.K := K;
      alphas, betas := a0, b0;
    }

    /** `selectNextPaths(m)` given the sampled thetas: the min(m, K) paths of largest theta,
        best first, ties to the lower index; every chosen theta is at least every other. */
    method SelectNextPaths(m: nat, thetas: seq<real>) returns (r: seq<nat>)
      requires Valid() && |thetas| == K
      ensures r == VectorMaxIndices(thetas, m)
      ensures |r| == Min(m, K) && forall i :: 0 <= i < |r| ==> r[i] < K
      ensures forall i, j :: 0 <= i < j < |r| ==> r[i] != r[j]
      ensures forall a, b :: a in r && 0 <= b < K && b !in r ==> thetas[a] >= thetas[b]
    {
      r := VectorMaxIndices(thetas, m);
      forall i, j | 0 <= i < j < |r|
        ensures r[i] != r[j]
      {
        assert Outranks(thetas, r[i], r[j]);
      }
      forall a, b | a in r && 0 <= b < K && b !in r
        ensures thetas[a] >= thetas[b]
      {
        assert Outranks(thetas, a, b);
      }
    }

    /** `updateState(is, rs)`: a selected path's alpha grows by one when its measured b
        exceeds 0.5 and its beta otherwise, once per occurrence; the total of all counters
        grows by exactly |is|. */
    method UpdateState(sel: seq<nat>, rs: seq<Metric>)
      requires Valid() && |rs| >= |sel| && forall i :: 0 <= i < |sel| ==> sel[i] < K
      modifies this
      ensures Valid()
      ensures alphas == Tally(old(alphas), sel, Indicator(Wins(rs)))
      ensures betas == Tally(old(betas), sel, Indicator(Negated(Wins(rs))))
      ensures VectorSum(alphas) + VectorSum(betas) == VectorSum(old(alphas)) + VectorSum(old(betas)) + |sel| as real
    {
      ghost var ok := Wins(rs);
      var a, b := alphas, betas;
      ghost var a0, b0 := a, b;
      for i := 0 to |sel|
        invariant a == Tally(a0, sel[..i], Indicator(ok))
        invariant b == Tally(b0, sel[..i], Indicator(Negated(ok)))
      {
        var k := sel[i];
        assert ok[i] == (rs[i].b > 0.5);
        TrialStep(a0, b0, sel, ok, i);
        if rs[i].b > 0.5 {
          a := a[k := a[k] + 1.0];
        } else {
          b := b[k := b[k] + 1.0];
        }
      }
      assert sel[..|sel|] == sel;
      TallyTotal(a0, b0, sel, ok);
      alphas, betas := a, b;
    }
  }
}
