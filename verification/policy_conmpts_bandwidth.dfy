/** ConMPTS-Bandwidth: constrained multi-path Thompson sampling that minimises the largest
    sampled latency r_i * v_i over the chosen paths while keeping their total sampled
    bandwidth under a threshold. Its LP has K+1 columns x = (u, v_1, ..., v_K): the objective
    is u, and u bounds every r_i * v_i from above. */
module ConMPTSBandwidthPolicy {
  import opened Wrappers
  import opened BanditUtil
  import opened TopIndices
  import opened DependentRounding
  import opened LPSolving
  import opened BetaTrials

  /** Row i < K of the LP: -u + hatr[i] * v_i (bounded above by 0). */
  function LatencyBoundRow(hatr: seq<real>, i: nat): (row: seq<real>)
    requires i < |hatr|
    ensures |row| == |hatr| + 1
  {
    [-1.0] + UnitRow(|hatr|, i, hatr[i])
  }

  /** The (K+2) x (K+1) constraint matrix as the LP is meant to read: K rows u >= hatr[i] * v_i,
      then the bandwidth budget hatb . v, then the path count 1 . v (the fixed last row). */
  function BandwidthMatrix(hatr: seq<real>, hatb: seq<real>): (a: Matrix)
    requires |hatb| == |hatr|
    ensures IsMatrix(a, |hatr| + 2, |hatr| + 1)
  {
    seq(|hatr| + 2, i requires 0 <= i < |hatr| + 2 => BandwidthRow(hatr, hatb, i))
  }

  function BandwidthRow(hatr: seq<real>, hatb: seq<real>, i: nat): (row: seq<real>)
    requires |hatb| == |hatr| && i < |hatr| + 2
    ensures |row| == |hatr| + 1
  {
    if i < |hatr| then LatencyBoundRow(hatr, i)
    else if i == |hatr| then [0.0] + hatb
    else [0.0] + Fill(|hatr|, 1.0)
  }

  /** The matrix `solveConTSLP` actually fills: the budget row is first filled from hatb one
      position too far right and then overwritten with ones by the loop meant for the last row,
      so the budget row counts paths and the fixed last row stays all zero. */
  function BandwidthMatrixAsWritten(hatr: seq<real>): (a: Matrix)
    ensures IsMatrix(a, |hatr| + 2, |hatr| + 1)
  {
    seq(|hatr| + 2, i requires 0 <= i < |hatr| + 2 => AsWrittenRow(hatr, i))
  }

  function AsWrittenRow(hatr: seq<real>, i: nat): (row: seq<real>)
    requires i < |hatr| + 2
    ensures |row| == |hatr| + 1
  {
    if i < |hatr| then LatencyBoundRow(hatr, i)
    else if i == |hatr| then [0.0] + Fill(|hatr|, 1.0)
    else Fill(|hatr| + 1, 0.0)
  }

  /** lp_b: 0 for the K latency rows, Cb for the budget row. */
  function BandwidthBounds(k: nat, cb: real): (b: seq<real>)
    ensures |b| == k + 1 && b[k] == cb && forall i :: 0 <= i < k ==> b[i] == 0.0
  {
    Fill(k, 0.0) + [cb]
  }

  /** lp_c: the objective is u alone. */
  function Objective(k: nat): (c: seq<real>)
    ensures |c| == k + 1 && c[0] == 1.0 && forall j :: 1 <= j <= k ==> c[j] == 0.0
  {
    [1.0] + Fill(k, 0.0)
  }

  /** The objective value of x is its first column, u. */
  lemma {:induction false} ObjectiveValue(k: nat, x: seq<real>)
    requires |x| == k + 1
    ensures DotSum(Objective(k), x) == x[0]
  {
    assert x == [x[0]] + x[1..];
    assert Objective(k) == [1.0] + Fill(|x[1..]|, 0.0);
    DotCons(1.0, Fill(k, 0.0), x[0], x[1..]);
    DotZeros(x[1..]);
  }

  lemma {:induction false} LatencyBoundRowValue(hatr: seq<real>, i: nat, x: seq<real>)
    requires i < |hatr| && |x| == |hatr| + 1
    ensures DotSum(LatencyBoundRow(hatr, i), x) == hatr[i] * x[i + 1] - x[0]
  {
    assert x == [x[0]] + x[1..];
    DotCons(-1.0, UnitRow(|hatr|, i, hatr[i]), x[0], x[1..]);
    DotUnitRow(|hatr|, i, hatr[i], x[1..]);
  }

  /** A row with a leading 0 ignores u. */
  lemma {:induction false} LeadingZeroRow(row: seq<real>, x: seq<real>)
    requires |x| == |row| + 1
    ensures DotSum([0.0] + row, x) == DotSum(row, x[1..])
  {
    assert x == [x[0]] + x[1..];
    DotCons(0.0, row, x[0], x[1..]);
  }

  lemma {:induction false} BandwidthRows(hatr: seq<real>, hatb: seq<real>, x: seq<real>)
    requires |hatb| == |hatr| && |x| == |hatr| + 1
    ensures forall i :: 0 <= i < |hatr| ==> DotSum(BandwidthMatrix(hatr, hatb)[i], x) == hatr[i] * x[i + 1] - x[0]
    ensures DotSum(BandwidthMatrix(hatr, hatb)[|hatr|], x) == DotSum(hatb, x[1..])
    ensures DotSum(BandwidthMatrix(hatr, hatb)[|hatr| + 1], x) == VectorSum(x[1..])
  {
    var k := |hatr|;
    var a := BandwidthMatrix(hatr, hatb);
    forall i | 0 <= i < k
      ensures DotSum(a[i], x) == hatr[i] * x[i + 1] - x[0]
    {
      assert a[i] == LatencyBoundRow(hatr, i);
      LatencyBoundRowValue(hatr, i, x);
    }
    assert a[k] == [0.0] + hatb;
    LeadingZeroRow(hatb, x);
    assert a[k + 1] == [0.0] + Fill(k, 1.0);
    LeadingZeroRow(Fill(k, 1.0), x);
    DotWithOnes(x[1..]);
  }

  /** The meaning of the (corrected) bandwidth LP: x = (u, v) satisfies it exactly when x lies
      in the unit box, u is at least every hatr[i] * v_i, the sampled bandwidth hatb . v stays
      within Cb, and the weights v sum to M. Minimising u therefore minimises the largest
      weighted latency. */
  lemma {:induction false} BandwidthLPMeaning(lp: Problem, hatr: seq<real>, hatb: seq<real>, cb: real, mpath: real, x: seq<real>)
    requires |hatb| == |hatr|
    requires Describes(lp, BandwidthMatrix(hatr, hatb), BandwidthBounds(|hatr|, cb), Objective(|hatr|), mpath, |hatr| + 2, |hatr| + 1)
    ensures IsMatrix(BandwidthMatrix(hatr, hatb), |lp.rows|, |lp.cols|)
    ensures Satisfies(lp, BandwidthMatrix(hatr, hatb), x) <==>
      |x| == |hatr| + 1 && (forall j :: 0 <= j < |x| ==> 0.0 <= x[j] <= 1.0) &&
      (forall i :: 0 <= i < |hatr| ==> hatr[i] * x[i + 1] <= x[0]) &&
      DotSum(hatb, x[1..]) <= cb && VectorSum(x[1..]) == mpath
  {
    var k := |hatr|;
    SatisfiesDescribed(lp, BandwidthMatrix(hatr, hatb), BandwidthBounds(k, cb), Objective(k), mpath, k + 2, k + 1, x);
    if |x| == k + 1 {
      BandwidthRows(hatr, hatb, x);
    }
  }

  /** The LP as written has no feasible point once M is not 0: its fixed last row is all zero,
      so it demands 0 == M. */
  lemma {:induction false} AsWrittenInfeasible(lp: Problem, hatr: seq<real>, cb: real, mpath: real, x: seq<real>)
    requires mpath != 0.0
    requires Describes(lp, BandwidthMatrixAsWritten(hatr), BandwidthBounds(|hatr|, cb), Objective(|hatr|), mpath, |hatr| + 2, |hatr| + 1)
    ensures IsMatrix(BandwidthMatrixAsWritten(hatr), |lp.rows|, |lp.cols|)
    ensures !Satisfies(lp, BandwidthMatrixAsWritten(hatr), x)
  {
    var k := |hatr|;
    SatisfiesDescribed(lp, BandwidthMatrixAsWritten(hatr), BandwidthBounds(k, cb), Objective(k), mpath, k + 2, k + 1, x);
    if |x| == k + 1 {
      assert BandwidthMatrixAsWritten(hatr)[k + 1] == Fill(|x|, 0.0);
      DotZeros(x);
    }
  }

  /** The budget row as written ignores hatb entirely: it sums the weights. */
  lemma {:induction false} AsWrittenIgnoresBandwidth(hatr: seq<real>, x: seq<real>)
    requires |x| == |hatr| + 1
    ensures DotSum(BandwidthMatrixAsWritten(hatr)[|hatr|], x) == VectorSum(x[1..])
  {
    var k := |hatr|;
    assert BandwidthMatrixAsWritten(hatr)[k] == [0.0] + Fill(k, 1.0);
    LeadingZeroRow(Fill(k, 1.0), x);
    DotWithOnes(x[1..]);
  }

  /** Part 1 of `solveConTSLP`, shared by both fillings: row i gets -1 in column 0 and hatr[i]
      in column i+1. */
  method FillLatencyRows(hatr: seq<real>) returns (a: Matrix)
    ensures IsMatrix(a, |hatr| + 2, |hatr| + 1)
    ensures forall i :: 0 <= i < |hatr| ==> a[i] == LatencyBoundRow(hatr, i)
    ensures a[|hatr|] == Fill(|hatr| + 1, 0.0) && a[|hatr| + 1] == Fill(|hatr| + 1, 0.0)
  {
    var k := |hatr|;
    a := Zeros(k + 2, k + 1);
    for i := 0 to k
      invariant IsMatrix(a, k + 2, k + 1)
      invariant forall r :: 0 <= r < i ==> a[r] == LatencyBoundRow(hatr, r)
      invariant forall r :: i <= r < k + 2 ==> a[r] == Fill(k + 1, 0.0)
    {
      a := a[i := a[i][0 := -1.0][i + 1 := hatr[i]]];
      assert a[i] == LatencyBoundRow(hatr, i);
    }
  }

  /** The matrix of `solveConTSLP` as the source fills it. Reading hatb[i] for i = 1..K reads
      one element past the end at i = K; that value is `beyond` here, and it is overwritten
      by the next loop in any case. */
  method BuildMatrixAsWritten(hatr: seq<real>, hatb: seq<real>, beyond: real) returns (a: Matrix)
    requires |hatb| == |hatr|
    ensures a == BandwidthMatrixAsWritten(hatr)
  {
    var k := |hatr|;
    a := FillLatencyRows(hatr);
    a := a[k := a[k][0 := 0.0]];
    for i := 1 to k + 1
      invariant IsMatrix(a, k + 2, k + 1)
      invariant forall r :: 0 <= r < k ==> a[r] == LatencyBoundRow(hatr, r)
      invariant a[k][0] == 0.0 && a[k + 1] == Fill(k + 1, 0.0)
    {
      a := a[k := a[k][i := if i < k then hatb[i] else beyond]];
    }
    a := a[k + 1 := a[k + 1][0 := 0.0]];
    for j := 1 to k + 1
      invariant IsMatrix(a, k + 2, k + 1)
      invariant forall r :: 0 <= r < k ==> a[r] == LatencyBoundRow(hatr, r)
      invariant a[k][0] == 0.0 && forall c :: 1 <= c < j ==> a[k][c] == 1.0
      invariant a[k + 1] == Fill(k + 1, 0.0)
    {
      a := a[k := a[k][j := 1.0]];
    }
    assert a[k] == [0.0] + Fill(k, 1.0);
  }

  /** The matrix as the LP is meant to read: the budget row takes hatb[i-1] in column i and the
      last row takes the ones. */
  method BuildMatrix(hatr: seq<real>, hatb: seq<real>) returns (a: Matrix)
    requires |hatb| == |hatr|
    ensures a == BandwidthMatrix(hatr, hatb)
  {
    var k := |hatr|;
    a := FillLatencyRows(hatr);
    a := a[k := a[k][0 := 0.0]];
    for i := 1 to k + 1
      invariant IsMatrix(a, k + 2, k + 1)
      invariant forall r :: 0 <= r < k ==> a[r] == LatencyBoundRow(hatr, r)
      invariant a[k][0] == 0.0 && forall c :: 1 <= c < i ==> a[k][c] == hatb[c - 1]
      invariant a[k + 1] == Fill(k + 1, 0.0)
    {
      a := a[k := a[k][i := hatb[i - 1]]];
    }
    assert a[k] == [0.0] + hatb;
    var last := k + 1;
    a := a[last := a[last][0 := 0.0]];
    for j := 1 to k + 1
      invariant IsMatrix(a, k + 2, k + 1)
      invariant forall r :: 0 <= r < k ==> a[r] == LatencyBoundRow(hatr, r)
      invariant a[k] == [0.0] + hatb
      invariant a[last][0] == 0.0 && forall c :: 1 <= c < j ==> a[last][c] == 1.0
    {
      a := a[last := a[last][j := 1.0]];
    }
    assert a[last] == [0.0] + Fill(k, 1.0);
  }

  class ConMPTSBandwidth {
    const K: nat
    var threshold: real
    var sb: seq<real>
    var fb: seq<real>
    var sr: seq<real>
    var fr: seq<real>

    ghost predicate Valid()
      reads this
    {
      |sb| == |fb| == |sr| == |fr| == K
    }

    /** Every counter of the prior is s (successes) or f (failures). */
    constructor (K: nat, threshold: real, s: real, f: real)
      ensures Valid() && this.K == K && this.threshold == threshold
      ensures sb == sr == Fill(K, s) && fb == fr == Fill(K, f)
    {
      var s0, f0 := [], [];
      for i := 0 to K
        invariant s0 == Fill(i, s) && f0 == Fill(i, f)
      {
        s0, f0 := s0 + [s], f0 + [f];
      }
      this.K := K;
      this.threshold := threshold;
      sb, fb, sr, fr := s0, f0, s0, f0;
    }

    /** `solveConTSLP(hatr, hatb, M, Cb, lp_x)` as written: builds the matrix of
        `BuildMatrixAsWritten` (`beyond` is the element read past the end of hatb) and solves it
        as a minimisation. `simplexRet` and `colPrim` are the simplex call's outcome; `lp` is the
        problem handed to it, which no point satisfies once M is not 0. */
    method SolveConTSLP(hatr: seq<real>, hatb: seq<real>, mpath: real, cb: real, beyond: real,
                        simplexRet: int, colPrim: nat -> real, lpX: seq<real>)
      returns (status: LPStatus, x: seq<real>, ghost lp: Problem)
      requires |hatr| == K && |hatb| == K
      ensures status == Feasible <==> simplexRet == 0
      ensures status == Feasible ==> x == Primal(colPrim, K + 1)
      ensures status == Error ==> x == lpX
      ensures Describes(lp, BandwidthMatrixAsWritten(hatr), BandwidthBounds(K, cb), Objective(K), mpath, K + 2, K + 1)
      ensures lp.dir == Minimize
      ensures mpath != 0.0 ==> forall y :: !Satisfies(lp, BandwidthMatrixAsWritten(hatr), y)
    {
      var a := BuildMatrixAsWritten(hatr, hatb, beyond);
      var solver := new LPSolver(a, BandwidthBounds(K, cb), Objective(K), mpath);
      solver.SetMinimization();
      status, x := solver.Solve(simplexRet, colPrim, lpX);
      lp := solver.lp;
      if mpath != 0.0 {
        forall y {
          AsWrittenInfeasible(lp, hatr, cb, mpath, y);
        }
      }
    }

    /** `solveConTSLP` as it is meant to read: the LP of `BuildMatrix`, whose feasible points
        are exactly the weightings `BandwidthLPMeaning` describes. */
    method SolveConTSLPIntended(hatr: seq<real>, hatb: seq<real>, mpath: real, cb: real,
                                simplexRet: int, colPrim: nat -> real, lpX: seq<real>)
      returns (status: LPStatus, x: seq<real>, ghost lp: Problem)
      requires |hatr| == K && |hatb| == K
      ensures status == Feasible <==> simplexRet == 0
      ensures status == Feasible ==> x == Primal(colPrim, K + 1)
      ensures status == Error ==> x == lpX
      ensures Describes(lp, BandwidthMatrix(hatr, hatb), BandwidthBounds(K, cb), Objective(K), mpath, K + 2, K + 1)
      ensures lp.dir == Minimize
    {
      var a := BuildMatrix(hatr, hatb);
      var solver := new LPSolver(a, BandwidthBounds(K, cb), Objective(K), mpath);
      solver.SetMinimization();
      status, x := solver.Solve(simplexRet, colPrim, lpX);
      lp := solver.lp;
    }

    /** `selectNextPaths(M)` given the Beta samples `hatb`, `hatr` and the simplex outcome on
        the LP as written (`beyond` as in `SolveConTSLP`): when GLPK reports success, dependent rounding of the weights v = lp_x[1..] (reading the generator
        from `pos`); otherwise the M paths of smallest sampled latency. */
    method SelectNextPaths(m: nat, hatb: seq<real>, hatr: seq<real>, beyond: real, simplexRet: int,
                           colPrim: nat -> real, rng: nat -> real, pos: nat)
      returns (r: Result<seq<nat>, RoundingError>, next: nat)
      requires |hatb| == K && |hatr| == K
      ensures simplexRet != 0 ==> r == Success(VectorMinIndices(hatr, m)) && next == pos
      ensures simplexRet == 0 ==> RoundingOutcome(r, m, Primal(colPrim, K + 1)[1..], pos, next)
    {
      var status, lpX, lp := SolveConTSLP(hatr, hatb, m as real, threshold, beyond, simplexRet, colPrim, []);
      if status == Feasible {
        var vt := lpX[1..];
        r, next := Round(m, vt, rng, pos);
      } else {
        r, next := Success(VectorMinIndices(hatr, m)), pos;
      }
    }

    /** `computeOracleBandwidth`: aborts when the LP has no solution, otherwise the optimal
        objective u = lp_x[0], the smallest achievable largest weighted latency. */
    method ComputeOracleBandwidth(rtprop: seq<real>, btlbw: seq<real>, m: nat, cb: real, beyond: real,
                                  simplexRet: int, colPrim: nat -> real)
      returns (r: Result<real, string>)
      requires |rtprop| == K && |btlbw| == K
      ensures r.Success? <==> simplexRet == 0
      ensures r.Success? ==> r.value == colPrim(1)
    {
      var status, lpXStar, lp := SolveConTSLP(rtprop, btlbw, m as real, cb, beyond, simplexRet, colPrim, []);
      if status == Error {
        return Failure("cannot find the oracle");
      }
      r := Success(lpXStar[0]);
    }

    /** `updateState`: for the i-th selected path, draw pos + 2i decides its bandwidth trial and
        draw pos + 2i + 1 its latency trial; each counter ends as its tally over the trials. */
    method UpdateState(sel: seq<nat>, ms: seq<Metric>, rng: nat -> real, pos: nat) returns (next: nat)
      requires Valid() && |ms| >= |sel| && forall i :: 0 <= i < |sel| ==> sel[i] < K
      modifies this
      ensures Valid() && next == pos + 2 * |sel| && threshold == old(threshold)
      ensures sb == Tally(old(sb), sel, Indicator(TrialOutcomes(ms, rng, pos, Bw, 0)))
      ensures fb == Tally(old(fb), sel, Indicator(Negated(TrialOutcomes(ms, rng, pos, Bw, 0))))
      ensures sr == Tally(old(sr), sel, Indicator(TrialOutcomes(ms, rng, pos, Rtt, 1)))
      ensures fr == Tally(old(fr), sel, Indicator(Negated(TrialOutcomes(ms, rng, pos, Rtt, 1))))
    {
      sb, fb, sr, fr, next := PairedTrials(sb, fb, sr, fr, sel, ms, rng, pos, Bw, Rtt);
    }
  }
}
