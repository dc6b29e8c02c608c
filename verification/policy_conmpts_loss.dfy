/** ConMPTS-Loss: constrained multi-path Thompson sampling that maximises the sampled
    bandwidth of the chosen paths while keeping their total sampled loss under a threshold.
    Per path it keeps Beta posterior counters for the bandwidth and loss signals. */
module ConMPTSLossPolicy {
  import opened Wrappers
  import opened BanditUtil
  import opened TopIndices
  import opened DependentRounding
  import opened LPSolving
  import opened BetaTrials

  /** The 2 x K constraint matrix of the loss LP: the sampled losses (hatl . v <= Cl), then
      the all-ones row (sum of v = M, the fixed last row). */
  function LossMatrix(hatl: seq<real>): (a: Matrix)
    ensures IsMatrix(a, 2, |hatl|)
  {
    [hatl, Fill(|hatl|, 1.0)]
  }

  /** The meaning of the loss LP: v satisfies it exactly when it lies in the unit box, its
      sampled loss hatl . v stays within Cl, and the weights sum to M. */
  lemma {:induction false} LossLPMeaning(lp: Problem, hatl: seq<real>, hatb: seq<real>, cl: real, mpath: real, v: seq<real>)
    requires |hatb| == |hatl| && Describes(lp, LossMatrix(hatl), [cl], hatb, mpath, 2, |hatl|)
    ensures IsMatrix(LossMatrix(hatl), |lp.rows|, |lp.cols|)
    ensures Satisfies(lp, LossMatrix(hatl), v) <==>
      |v| == |hatl| && (forall j :: 0 <= j < |v| ==> 0.0 <= v[j] <= 1.0) &&
      DotSum(hatl, v) <= cl && VectorSum(v) == mpath
  {
    var a := LossMatrix(hatl);
    SatisfiesDescribed(lp, a, [cl], hatb, mpath, 2, |hatl|, v);
    if |v| == |hatl| {
      DotWithOnes(v);
      assert DotSum(a[1], v) == VectorSum(v);
      assert (forall i :: 0 <= i < 1 ==> DotSum(a[i], v) <= [cl][i]) <==> DotSum(hatl, v) <= cl by {
        assert a[0] == hatl;
      }
    }
  }

  /** The matrix of `solveConTSLP`, filled row by row into a zero matrix. */
  method BuildMatrix(hatl: seq<real>) returns (a: Matrix)
    ensures a == LossMatrix(hatl)
  {
    var k := |hatl|;
    a := Zeros(2, k);
    for i := 0 to k
      invariant IsMatrix(a, 2, k)
      invariant a[0] == hatl[..i] + Fill(k - i, 0.0) && a[1] == Fill(k, 0.0)
    {
      a := a[0 := a[0][i := hatl[i]]];
      assert a[0] == hatl[..i + 1] + Fill(k - i - 1, 0.0);
    }
    assert hatl[..k] == hatl;
    for i := 0 to k
      invariant IsMatrix(a, 2, k)
      invariant a[0] == hatl && a[1] == Fill(i, 1.0) + Fill(k - i, 0.0)
    {
      a := a[1 := a[1][i := 1.0]];
      assert a[1] == Fill(i + 1, 1.0) + Fill(k - i - 1, 0.0);
    }
    assert a[1] == Fill(k, 1.0);
  }

  class ConMPTSLoss {
    const K: nat
    var threshold: real
    var sb: seq<real>
    var fb: seq<real>
    var sl: seq<real>
    var fl: seq<real>

    ghost predicate Valid()
      reads this
    {
      |sb| == |fb| == |sl| == |fl| == K
    }

    /** Every counter of the prior is s (successes) or f (failures). */
    constructor (K: nat, threshold: real, s: real, f: real)
      ensures Valid() && this.K == K && this.threshold == threshold
      ensures sb == sl == Fill(K, s) && fb == fl == Fill(K, f)
    {
      var s0, f0 := [], [];
      for i := 0 to K
        invariant s0 == Fill(i, s) && f0 == Fill(i, f)
      {
        s0, f0 := s0 + [s], f0 + [f];
      }
      this.K := K;
      this.threshold := threshold;
      sb, fb, sl, fl := s0, f0, s0, f0;
    }

    /** `solveConTSLP(hatb, hatl, M, Cl, lp_x)`: builds the loss LP with the sampled
        bandwidths as objective and solves it as a maximisation. `simplexRet` and `colPrim`
        are the simplex call's outcome; `lp` is the problem handed to it. */
    method SolveConTSLP(hatb: seq<real>, hatl: seq<real>, mpath: real, cl: real,
                        simplexRet: int, colPrim: nat -> real, lpX: seq<real>)
      returns (status: LPStatus, x: seq<real>, ghost lp: Problem)
      requires |hatb| == K && |hatl| == K
      ensures status == Feasible <==> simplexRet == 0
      ensures status == Feasible ==> x == Primal(colPrim, K)
      ensures status == Error ==> x == lpX
      ensures Describes(lp, LossMatrix(hatl), [cl], hatb, mpath, 2, K) && lp.dir == Maximize
    {
      var a := BuildMatrix(hatl);
      var solver := new LPSolver(a, [cl], hatb, mpath);
      solver.SetMaximization();
      status, x := solver.Solve(simplexRet, colPrim, lpX);
      lp := solver.lp;
    }

    /** `selectNextPaths(M)` given the Beta samples `hatb`, `hatl` and the simplex outcome: on
        a feasible LP, dependent rounding of the LP solution (reading the generator from
        `pos`); otherwise the M paths of smallest sampled loss. */
    method SelectNextPaths(m: nat, hatb: seq<real>, hatl: seq<real>, simplexRet: int,
                           colPrim: nat -> real, rng: nat -> real, pos: nat)
      returns (r: Result<seq<nat>, RoundingError>, next: nat)
      requires |hatb| == K && |hatl| == K
      ensures simplexRet != 0 ==> r == Success(VectorMinIndices(hatl, m)) && next == pos
      ensures simplexRet == 0 ==> RoundingOutcome(r, m, Primal(colPrim, K), pos, next)
    {
      var status, vt, lp := SolveConTSLP(hatb, hatl, m as real, threshold, simplexRet, colPrim, Fill(K, 0.0));
      if status == Feasible {
        r, next := Round(m, vt, rng, pos);
      } else {
        r, next := Success(VectorMinIndices(hatl, m)), pos;
      }
    }

    /** `computeOracleLoss`: aborts when the LP has no solution, otherwise the bandwidth
        v* . Ab of the LP solution v*. */
    method ComputeOracleLoss(ab: seq<real>, lr: seq<real>, m: nat, cl: real,
                             simplexRet: int, colPrim: nat -> real)
      returns (r: Result<real, string>)
      requires |ab| == K && |lr| == K
      ensures r.Success? <==> simplexRet == 0
      ensures r.Success? ==> r.value == DotSum(Primal(colPrim, K), ab)
    {
      var status, vStar, lp := SolveConTSLP(ab, lr, m as real, cl, simplexRet, colPrim, []);
      if status == Error {
        return Failure("cannot find the oracle");
      }
      r := VectorDot(vStar, ab);
    }

    /** `updateState`: for the i-th selected path, draw pos + 2i decides its bandwidth trial and
        draw pos + 2i + 1 its loss trial; each counter ends as its tally over the trials. */
    method UpdateState(sel: seq<nat>, ms: seq<Metric>, rng: nat -> real, pos: nat) returns (next: nat)
      requires Valid() && |ms| >= |sel| && forall i :: 0 <= i < |sel| ==> sel[i] < K
      modifies this
      ensures Valid() && next == pos + 2 * |sel| && threshold == old(threshold)
      ensures sb == Tally(old(sb), sel, Indicator(TrialOutcomes(ms, rng, pos, Bw, 0)))
      ensures fb == Tally(old(fb), sel, Indicator(Negated(TrialOutcomes(ms, rng, pos, Bw, 0))))
      ensures sl == Tally(old(sl), sel, Indicator(TrialOutcomes(ms, rng, pos, Loss, 1)))
      ensures fl == Tally(old(fl), sel, Indicator(Negated(TrialOutcomes(ms, rng, pos, Loss, 1))))
    {
      sb, fb, sl, fl, next := PairedTrials(sb, fb, sl, fl, sel, ms, rng, pos, Bw, Loss);
    }
  }
}
