/** ConMPTS-Latency: constrained multi-path Thompson sampling that maximises the expected
    bandwidth of the chosen paths while keeping each chosen path's latency signal under a
    threshold. Per path it keeps Beta posterior counters for the bandwidth and latency
    signals, running averages, and selection counts. */
module ConMPTSLatencyPolicy {
  import opened Wrappers
  import opened BanditUtil
  import opened TopIndices
  import opened DependentRounding
  import opened LPSolving
  import opened BetaTrials

  /** The constraint matrix of the latency LP: (K+1) x K, latency rtt[i] on the diagonal of the
      first K rows (rtt[i] * v[i] <= Cr), and an all-ones last row (sum of v = M). */
  function LatencyMatrix(rtt: seq<real>): (a: Matrix)
    ensures IsMatrix(a, |rtt| + 1, |rtt|)
  {
    seq(|rtt| + 1, i requires 0 <= i <= |rtt| => if i < |rtt| then UnitRow(|rtt|, i, rtt[i]) else Fill(|rtt|, 1.0))
  }

  /** Row i < K of the latency matrix weighs v[i] by rtt[i]. */
  lemma {:induction false} LatencyRow(rtt: seq<real>, v: seq<real>, i: nat)
    requires |v| == |rtt| && i < |rtt|
    ensures DotSum(LatencyMatrix(rtt)[i], v) == rtt[i] * v[i]
  {
    assert LatencyMatrix(rtt)[i] == UnitRow(|rtt|, i, rtt[i]);
    DotUnitRow(|rtt|, i, rtt[i], v);
  }

  /** The last row of the latency matrix sums v. */
  lemma {:induction false} LatencyLastRow(rtt: seq<real>, v: seq<real>)
    requires |v| == |rtt|
    ensures DotSum(LatencyMatrix(rtt)[|rtt|], v) == VectorSum(v)
  {
    assert LatencyMatrix(rtt)[|rtt|] == Fill(|rtt|, 1.0);
    DotWithOnes(v);
  }

  /** The latency LP's meaning: v satisfies it exactly when v lies in the unit box, every path's
      weighted latency rtt[i] * v[i] is at most Cr, and the weights sum to M. */
  lemma {:induction false} LatencyLPMeaning(lp: Problem, rtt: seq<real>, bw: seq<real>, cr: real, mpath: real, v: seq<real>)
    requires |bw| == |rtt| && Describes(lp, LatencyMatrix(rtt), Fill(|rtt|, cr), bw, mpath, |rtt| + 1, |rtt|)
    ensures IsMatrix(LatencyMatrix(rtt), |lp.rows|, |lp.cols|)
    ensures Satisfies(lp, LatencyMatrix(rtt), v) <==>
      |v| == |rtt| && (forall j :: 0 <= j < |v| ==> 0.0 <= v[j] <= 1.0) &&
      (forall i :: 0 <= i < |rtt| ==> rtt[i] * v[i] <= cr) && VectorSum(v) == mpath
  {
    var a, b := LatencyMatrix(rtt), Fill(|rtt|, cr);
    SatisfiesDescribed(lp, a, b, bw, mpath, |rtt| + 1, |rtt|, v);
    if |v| == |rtt| {
      forall i | 0 <= i < |rtt|
        ensures DotSum(a[i], v) <= b[i] <==> rtt[i] * v[i] <= cr
      {
        LatencyRow(rtt, v, i);
      }
      LatencyLastRow(rtt, v);
    }
  }

  class ConMPTSLatency {
    const K: nat
    var threshold: real
    var dampingFactor: real
    var avgb: seq<real>
    var avgr: seq<real>
    var selectedTimes: seq<nat>
    var sb: seq<real>
    var fb: seq<real>
    var sr: seq<real>
    var fr: seq<real>

    ghost predicate Valid()
      reads this
    {
      |avgb| == |avgr| == |selectedTimes| == |sb| == |fb| == |sr| == |fr| == K
    }

    /** Every counter of the prior is s (successes) or f (failures); averages start at 0.5. */
    constructor (K: nat, threshold: real, dampingFactor: real, s: real, f: real)
      ensures Valid() && this.K == K && this.threshold == threshold && this.dampingFactor == dampingFactor
      ensures sb == sr == Fill(K, s) && fb == fr == Fill(K, f)
      ensures avgb == avgr == Fill(K, 0.5) && selectedTimes == Fill(K, 0)
    {
      var sb0, fb0, avg0, times0 := [], [], [], [];
      for i := 0 to K
        invariant sb0 == Fill(i, s) && fb0 == Fill(i, f) && avg0 == Fill(i, 0.5) && times0 == Fill(i, 0)
      {
        sb0, fb0, avg0, times0 := sb0 + [s], fb0 + [f], avg0 + [0.5], times0 + [0];
      }
      this.K := K;
      this.threshold := threshold;
      this.dampingFactor := dampingFactor;
      sb, fb, sr, fr := sb0, fb0, sb0, fb0;
      avgb, avgr, selectedTimes := avg0, avg0, times0;
    }

    /** `solveConTSLP(rtt, bw, M, Cr, lp_x)`: builds the latency LP and solves it as a
        maximisation. `simplexRet` and `colPrim` are the simplex call's outcome; `lp` is the
        problem handed to it. */
    method SolveConTSLP(rtt: seq<real>, bw: seq<real>, mpath: real, cr: real,
                        simplexRet: int, colPrim: nat -> real, lpX: seq<real>)
      returns (status: LPStatus, x: seq<real>, ghost lp: Problem)
      requires |rtt| == K && |bw| == K
      ensures status == Feasible <==> simplexRet == 0
      ensures status == Feasible ==> |x| == K && forall j :: 0 <= j < K ==> x[j] == colPrim(j + 1)
      ensures status == Error ==> x == lpX
      ensures Describes(lp, LatencyMatrix(rtt), Fill(K, cr), bw, mpath, K + 1, K) && lp.dir == Maximize
    {
      var a := BuildMatrix(rtt);
      var solver := new LPSolver(a, Fill(K, cr), bw, mpath);
      solver.SetMaximization();
      status, x := solver.Solve(simplexRet, colPrim, lpX);
      lp := solver.lp;
    }

    /** The matrix of `solveConTSLP`, filled cell by cell into a zero matrix. */
    method BuildMatrix(rtt: seq<real>) returns (a: Matrix)
      requires |rtt| == K
      ensures a == LatencyMatrix(rtt)
    {
      a := Zeros(K + 1, K);
      for i := 0 to K
        invariant IsMatrix(a, K + 1, K)
        invariant forall r :: 0 <= r < i ==> a[r] == UnitRow(K, r, rtt[r])
        invariant forall r :: i <= r <= K ==> a[r] == Fill(K, 0.0)
      {
        a := a[i := a[i][i := rtt[i]]];
      }
      for j := 0 to K
        invariant IsMatrix(a, K + 1, K)
        invariant forall r :: 0 <= r < K ==> a[r] == UnitRow(K, r, rtt[r])
        invariant a[K] == Fill(j, 1.0) + Fill(K - j, 0.0)
      {
        a := a[K := a[K][j := 1.0]];
        assert a[K] == Fill(j + 1, 1.0) + Fill(K - j - 1, 0.0);
      }
      assert a[K] == Fill(K, 1.0);
    }

    /** `selectNextPaths(M)` given the Beta samples `hatb`, `hatr` and the simplex outcome: on
        a feasible LP, dependent rounding of the LP solution (reading the generator from
        `pos`); otherwise the M paths of smallest sampled latency. */
    method SelectNextPaths(m: nat, hatb: seq<real>, hatr: seq<real>, simplexRet: int,
                           colPrim: nat -> real, rng: nat -> real, pos: nat)
      returns (r: Result<seq<nat>, RoundingError>, next: nat)
      requires |hatb| == K && |hatr| == K
      ensures simplexRet != 0 ==> r == Success(VectorMinIndices(hatr, m)) && next == pos
      ensures simplexRet == 0 ==> RoundingOutcome(r, m, Primal(colPrim, K), pos, next)
    {
      r, next := SelectWith(m, hatr, hatb, simplexRet, colPrim, rng, pos);
    }

    /** `selectNextPathsAvg(M)`: the same selection with the running averages in place of the
        Beta samples. */
    method SelectNextPathsAvg(m: nat, simplexRet: int, colPrim: nat -> real, rng: nat -> real, pos: nat)
      returns (r: Result<seq<nat>, RoundingError>, next: nat)
      requires Valid()
      ensures simplexRet != 0 ==> r == Success(VectorMinIndices(avgr, m)) && next == pos
      ensures simplexRet == 0 ==> RoundingOutcome(r, m, Primal(colPrim, K), pos, next)
    {
      r, next := SelectWith(m, avgr, avgb, simplexRet, colPrim, rng, pos);
    }

    method SelectWith(m: nat, rtt: seq<real>, bw: seq<real>, simplexRet: int,
                      colPrim: nat -> real, rng: nat -> real, pos: nat)
      returns (r: Result<seq<nat>, RoundingError>, next: nat)
      requires |rtt| == K && |bw| == K
      ensures simplexRet != 0 ==> r == Success(VectorMinIndices(rtt, m)) && next == pos
      ensures simplexRet == 0 ==> RoundingOutcome(r, m, Primal(colPrim, K), pos, next)
    {
      var status, vt, lp := SolveConTSLP(rtt, bw, m as real, threshold, simplexRet, colPrim, Fill(K, 0.0));
      if status == Feasible {
        assert vt == Primal(colPrim, K);
        r, next := Round(m, vt, rng, pos);
      } else {
        r, next := Success(VectorMinIndices(rtt, m)), pos;
      }
    }

    /** `computeOracleLatency`: aborts when the LP has no solution, otherwise the bandwidth
        v* . bw of the LP solution v*. */
    method ComputeOracleLatency(rtt: seq<real>, bw: seq<real>, m: nat, cr: real,
                                simplexRet: int, colPrim: nat -> real)
      returns (r: Result<real, string>)
      requires |rtt| == K && |bw| == K
      ensures r.Success? <==> simplexRet == 0
      ensures r.Success? ==> r.value == DotSum(Primal(colPrim, K), bw)
    {
      var status, vStar, lp := SolveConTSLP(rtt, bw, m as real, cr, simplexRet, colPrim, []);
      if status == Error {
        return Failure("cannot find the oracle");
      }
      assert vStar == Primal(colPrim, K);
      r := VectorDot(vStar, bw);
    }

    /** `updateState`: for the i-th selected path k, draw pos + 2i decides the bandwidth trial
        (success when it falls below the measured b) and draw pos + 2i + 1 the latency trial;
        the matching success or failure counter of k grows by one. Nothing else changes. */
    method UpdateState(sel: seq<nat>, ms: seq<Metric>, rng: nat -> real, pos: nat) returns (next: nat)
      requires Valid() && |ms| >= |sel| && forall i :: 0 <= i < |sel| ==> sel[i] < K
      modifies this
      ensures Valid() && next == pos + 2 * |sel|
      ensures sb == Tally(old(sb), sel, Indicator(TrialOutcomes(ms, rng, pos, Bw, 0)))
      ensures fb == Tally(old(fb), sel, Indicator(Negated(TrialOutcomes(ms, rng, pos, Bw, 0))))
      ensures sr == Tally(old(sr), sel, Indicator(TrialOutcomes(ms, rng, pos, Rtt, 1)))
      ensures fr == Tally(old(fr), sel, Indicator(Negated(TrialOutcomes(ms, rng, pos, Rtt, 1))))
      ensures avgb == old(avgb) && avgr == old(avgr) && selectedTimes == old(selectedTimes)
      ensures threshold == old(threshold) && dampingFactor == old(dampingFactor)
    {
      sb, fb, sr, fr, next := PairedTrials(sb, fb, sr, fr, sel, ms, rng, pos, Bw, Rtt);
    }

    /** `updateStateDamped`: for every path j, the inner pass over the selected entries
        (DampPath) rewrites j's four counters. Every counter it writes is at least 1, and the
        generator advances by two draws per selected entry. */
    method UpdateStateDamped(sel: seq<nat>, ms: seq<Metric>, rng: nat -> real, pos: nat) returns (next: nat)
      requires Valid() && |ms| >= |sel| && forall i :: 0 <= i < |sel| ==> sel[i] < K
      modifies this
      ensures Valid() && next == pos + 2 * |sel|
      ensures forall k :: 0 <= k < K ==>
        (sb[k] >= 1.0 || sb[k] == old(sb[k])) && (fb[k] >= 1.0 || fb[k] == old(fb[k])) &&
        (sr[k] >= 1.0 || sr[k] == old(sr[k])) && (fr[k] >= 1.0 || fr[k] == old(fr[k]))
      ensures forall k :: 0 <= k < K && k !in sel ==>
        var c := Decay(Counters(old(sb[k]), old(fb[k]), old(sr[k]), old(fr[k])), 1.0 - dampingFactor, |sel|);
        sb[k] == c.sb && fb[k] == c.fb && sr[k] == c.sr && fr[k] == c.fr
      ensures avgb == old(avgb) && avgr == old(avgr) && selectedTimes == old(selectedTimes)
      ensures threshold == old(threshold) && dampingFactor == old(dampingFactor)
    {
      var memoryFactor := 1.0 - dampingFactor;
      next := pos;
      for j := 0 to K
        invariant Valid() && next == pos + 2 * Below(sel, j)
        invariant forall k :: 0 <= k < K ==>
          (sb[k] >= 1.0 || sb[k] == old(sb[k])) && (fb[k] >= 1.0 || fb[k] == old(fb[k])) &&
          (sr[k] >= 1.0 || sr[k] == old(sr[k])) && (fr[k] >= 1.0 || fr[k] == old(fr[k]))
        invariant forall k :: 0 <= k < j && k !in sel ==>
          var c := Decay(Counters(old(sb[k]), old(fb[k]), old(sr[k]), old(fr[k])), memoryFactor, |sel|);
          sb[k] == c.sb && fb[k] == c.fb && sr[k] == c.sr && fr[k] == c.fr
        invariant forall k :: j <= k < K ==>
          sb[k] == old(sb[k]) && fb[k] == old(fb[k]) && sr[k] == old(sr[k]) && fr[k] == old(fr[k])
        invariant avgb == old(avgb) && avgr == old(avgr) && selectedTimes == old(selectedTimes)
        invariant threshold == old(threshold) && dampingFactor == old(dampingFactor)
      {
        var c, after := DampPath(j, sel, ms, rng, next, memoryFactor, Counters(sb[j], fb[j], sr[j], fr[j]));
        next := after;
        sb, fb, sr, fr := sb[j := c.sb], fb[j := c.fb], sr[j := c.sr], fr[j := c.fr];
      }
      BelowAll(sel, K);
    }

    /** The inner loop of `updateStateDamped` for path j, on j's four counters: a selected
        entry naming j draws the two trials and sets the hit counter to max(mf*(x+1), 1); any
        other entry shrinks all four to max(mf*x, 1). */
    static method DampPath(j: nat, sel: seq<nat>, ms: seq<Metric>, rng: nat -> real, pos: nat,
                           memoryFactor: real, c0: Counters)
      returns (c: Counters, next: nat)
      requires |ms| >= |sel|
      ensures next == pos + 2 * Occurrences(sel, j)
      ensures (c.sb >= 1.0 || c.sb == c0.sb) && (c.fb >= 1.0 || c.fb == c0.fb) &&
              (c.sr >= 1.0 || c.sr == c0.sr) && (c.fr >= 1.0 || c.fr == c0.fr)
      ensures j !in sel ==> c == Decay(c0, memoryFactor, |sel|)
    {
      c, next := c0, pos;
      for i := 0 to |sel|
        invariant next == pos + 2 * Occurrences(sel[..i], j)
        invariant (c.sb >= 1.0 || c.sb == c0.sb) && (c.fb >= 1.0 || c.fb == c0.fb) &&
                  (c.sr >= 1.0 || c.sr == c0.sr) && (c.fr >= 1.0 || c.fr == c0.fr)
        invariant j !in sel[..i] ==> c == Decay(c0, memoryFactor, i)
      {
        assert sel[..i + 1][..i] == sel[..i];
        var k := sel[i];
        if j == k {
          var measurement := ms[i];
          var randB := rng(next);
          var randR := rng(next + 1);
          next := next + 2;
          var tb := BernoulliTrial(randB, measurement.b);
          var tr := BernoulliTrial(randR, measurement.r);
          if tb > 0.5 {
            c := c.(sb := MaxReal(memoryFactor * (c.sb + 1.0), 1.0));
          } else {
            c := c.(fb := MaxReal(memoryFactor * (c.fb + 1.0), 1.0));
          }
          if tr > 0.5 {
            c := c.(sr := MaxReal(memoryFactor * (c.sr + 1.0), 1.0));
          } else {
            c := c.(fr := MaxReal(memoryFactor * (c.fr + 1.0), 1.0));
          }
        } else {
          c := Shrink(c, memoryFactor);
        }
      }
      assert sel[..|sel|] == sel;
    }

    /** `updateStateAvg`: the running averages of the selected paths absorb their measurements
        and their selection counts grow; afterwards avg[k] * times[k] is the old total plus the
        new measurements of k, for both signals. Nothing else changes. */
    method UpdateStateAvg(sel: seq<nat>, ms: seq<Metric>)
      requires Valid() && |ms| >= |sel| && forall i :: 0 <= i < |sel| ==> sel[i] < K
      modifies this
      ensures Valid()
      ensures forall k :: 0 <= k < K ==> selectedTimes[k] == old(selectedTimes[k]) + Occurrences(sel, k)
      ensures Consistent(avgb, selectedTimes, Tally(Totals(old(avgb), old(selectedTimes)), sel, Readings(ms, Bw)))
      ensures Consistent(avgr, selectedTimes, Tally(Totals(old(avgr), old(selectedTimes)), sel, Readings(ms, Rtt)))
      ensures forall k :: 0 <= k < K && Occurrences(sel, k) == 0 ==> avgb[k] == old(avgb[k]) && avgr[k] == old(avgr[k])
      ensures sb == old(sb) && fb == old(fb) && sr == old(sr) && fr == old(fr)
      ensures threshold == old(threshold) && dampingFactor == old(dampingFactor)
    {
      ghost var totB0 := Totals(avgb, selectedTimes);
      ghost var totR0 := Totals(avgr, selectedTimes);
      ghost var bs, rs := Readings(ms, Bw), Readings(ms, Rtt);
      for i := 0 to |sel|
        invariant Valid()
        invariant forall k :: 0 <= k < K ==> selectedTimes[k] == old(selectedTimes[k]) + Occurrences(sel[..i], k)
        invariant Consistent(avgb, selectedTimes, Tally(totB0, sel[..i], bs))
        invariant Consistent(avgr, selectedTimes, Tally(totR0, sel[..i], rs))
        invariant forall k :: 0 <= k < K && Occurrences(sel[..i], k) == 0 ==> avgb[k] == old(avgb[k]) && avgr[k] == old(avgr[k])
        invariant sb == old(sb) && fb == old(fb) && sr == old(sr) && fr == old(fr)
        invariant threshold == old(threshold) && dampingFactor == old(dampingFactor)
      {
        assert sel[..i + 1][..i] == sel[..i];
        var k := sel[i];
        var measurement := ms[i];
        var kTimes := selectedTimes[k];
        var kAvgb := avgb[k];
        var kAvgr := avgr[k];
        assert bs[i] == measurement.b && rs[i] == measurement.r;
        AbsorbStep(avgb, selectedTimes, totB0, sel, bs, i);
        AbsorbStep(avgr, selectedTimes, totR0, sel, rs, i);
        avgb := avgb[k := RunningAverage(kAvgb, kTimes, measurement.b)];
        avgr := avgr[k := RunningAverage(kAvgr, kTimes, measurement.r)];
        selectedTimes := selectedTimes[k := kTimes + 1];
      }
      assert sel[..|sel|] == sel;
    }
  }

  /** The loop step of `updateStateAvg` for one signal: folding entry i's value into its
      path's running average keeps the averages consistent with the tally one entry longer. */
  lemma {:induction false} AbsorbStep(avg: seq<real>, times: seq<nat>, tot0: seq<real>, ks: seq<nat>, vals: seq<real>, i: nat)
    requires i < |ks| <= |vals| && |tot0| == |avg| && ks[i] < |avg|
    requires Consistent(avg, times, Tally(tot0, ks[..i], vals))
    ensures Consistent(avg[ks[i] := RunningAverage(avg[ks[i]], times[ks[i]], vals[i])],
                       times[ks[i] := times[ks[i]] + 1], Tally(tot0, ks[..i + 1], vals))
  {
    TallyStep(tot0, ks, vals, i);
    Absorb(avg, times, Tally(tot0, ks[..i], vals), ks[i], vals[i]);
  }

  /** The running averages stand for the totals: avg[k] * times[k] == tot[k] for every path. */
  ghost predicate Consistent(avg: seq<real>, times: seq<nat>, tot: seq<real>)
  {
    |avg| == |times| == |tot| && forall k :: 0 <= k < |avg| ==> avg[k] * times[k] as real == tot[k]
  }

  /** Folding one measurement m of path k into its running average keeps the averages
      consistent with the totals grown by m. */
  lemma {:induction false} Absorb(avg: seq<real>, times: seq<nat>, tot: seq<real>, k: nat, m: real)
    requires Consistent(avg, times, tot) && k < |avg|
    ensures Consistent(avg[k := RunningAverage(avg[k], times[k], m)], times[k := times[k] + 1], tot[k := tot[k] + m])
  {
    var a2 := avg[k := RunningAverage(avg[k], times[k], m)];
    var t2 := times[k := times[k] + 1];
    assert a2[k] * t2[k] as real == avg[k] * times[k] as real + m;
  }

  /** The per-path totals avg[k] * times[k] that the running averages stand for. */
  function Totals(avg: seq<real>, times: seq<nat>): (t: seq<real>)
    requires |avg| == |times|
    ensures |t| == |avg| && forall k :: 0 <= k < |avg| ==> t[k] == avg[k] * times[k] as real
  {
    seq(|avg|, k requires 0 <= k < |avg| => avg[k] * times[k] as real)
  }

  function MaxReal(a: real, b: real): (m: real)
    ensures m >= a && m >= b && (m == a || m == b)
  {
    if a > b then a else b
  }

  /** The four Beta counters of one path. */
  datatype Counters = Counters(sb: real, fb: real, sr: real, fr: real)

  /** One forgetting step: every counter times the memory factor, but at least 1. */
  function Shrink(c: Counters, mf: real): (d: Counters)
    ensures d.sb >= 1.0 && d.fb >= 1.0 && d.sr >= 1.0 && d.fr >= 1.0
  {
    Counters(MaxReal(mf * c.sb, 1.0), MaxReal(mf * c.fb, 1.0), MaxReal(mf * c.sr, 1.0), MaxReal(mf * c.fr, 1.0))
  }

  /** n forgetting steps. */
  function Decay(c: Counters, mf: real, n: nat): Counters
  {
    if n == 0 then c else Shrink(Decay(c, mf, n - 1), mf)
  }

  /** Number of selected entries naming a path below j. */
  function Below(sel: seq<nat>, j: nat): nat
  {
    if j == 0 then 0 else Below(sel, j - 1) + Occurrences(sel, j - 1)
  }

  /** When every selected entry names a path below j, the entries below j are all of them. */
  lemma {:induction false} BelowAll(sel: seq<nat>, j: nat)
    requires forall i :: 0 <= i < |sel| ==> sel[i] < j
    ensures Below(sel, j) == |sel|
  {
    if |sel| > 0 {
      var last := sel[|sel| - 1];
      var init := sel[..|sel| - 1];
      assert sel == init + [last];
      BelowAll(init, j);
      BelowAppend(init, last, j);
      assert Below(init + [last], j) == |init| + 1;
    } else {
      BelowNothing(sel, j);
    }
  }

  lemma {:induction false} BelowNothing(sel: seq<nat>, j: nat)
    requires |sel| == 0
    ensures Below(sel, j) == 0
  {
    if j > 0 {
      BelowNothing(sel, j - 1);
    }
  }

  lemma {:induction false} BelowAppend(sel: seq<nat>, x: nat, j: nat)
    ensures Below(sel + [x], j) == Below(sel, j) + (if x < j then 1 else 0)
  {
    if j > 0 {
      BelowAppend(sel, x, j - 1);
      assert (sel + [x])[..|sel|] == sel;
    }
  }

  /** ((n * old) + m) / (n + 1). */
  function RunningAverage(avg: real, n: nat, m: real): (r: real)
    ensures r * (n + 1) as real == avg * n as real + m
  {
    (n as real * avg + m) / (n as real + 1.0)
  }

  /** The first observation of a path replaces its average with that measurement. */
  lemma {:induction false} FirstObservation(avg: real, m: real)
    ensures RunningAverage(avg, 0, m) == m
  {
  }
}
