/** The simulator's round loop: in each round a policy selects paths, every path is measured
    once, the full log records the measurements and the selections, and the policy is updated
    with the selected paths' measurements. Policies are given by what they select in each round;
    the calls the round makes on them, on the kernel and on the paths are kept as a trace. */
module Simulation {
  import opened Wrappers
  import opened BanditUtil
  import opened Paths
  import opened RoundwiseLogs
  import KernelUtil

  /** The calls of a round, in order. */
  datatype Event =
    | Select(p: nat, t: nat, sel: seq<nat>)
    | Prefer(ids: seq<nat>)
    | Fetch(status: int)
    | Exit(status: int)
    | Measure(i: nat, m: Metric)
    | Update(p: nat, sel: seq<nat>, ms: seq<Metric>)

  /** The measurements of the selected paths among the first n, in ascending path order: the
      list `execSingleRound` hands to `updateState`. */
  function AscendingSelected(sel: seq<nat>, ms: seq<Metric>, n: nat): (r: seq<Metric>)
    requires n <= |ms|
    ensures |r| <= n
  {
    if n == 0 then [] else AscendingSelected(sel, ms, n - 1) + (if n - 1 in sel then [ms[n - 1]] else [])
  }

  /** The measurements of the selected paths in the order of the selection, the j-th one being
      the measurement of path sel[j]: the pairing `updateState` relies on. */
  function SelectionOrder(sel: seq<nat>, ms: seq<Metric>): (r: seq<Metric>)
    requires forall j :: 0 <= j < |sel| ==> sel[j] < |ms|
    ensures |r| == |sel|
  {
    seq(|sel|, j requires 0 <= j < |sel| => ms[sel[j]])
  }

  lemma {:induction false} AscendingSelectedPrefix(sel: seq<nat>, ms: seq<Metric>, more: seq<Metric>, n: nat)
    requires n <= |ms|
    ensures AscendingSelected(sel, ms + more, n) == AscendingSelected(sel, ms, n)
  {
    if n > 0 {
      AscendingSelectedPrefix(sel, ms, more, n - 1);
      assert (ms + more)[n - 1] == ms[n - 1];
    }
  }

  /** Only which indices below n are selected matters. */
  lemma {:induction false} AscendingSelectedMembers(sel1: seq<nat>, sel2: seq<nat>, ms: seq<Metric>, n: nat)
    requires n <= |ms| && forall k :: 0 <= k < n ==> (k in sel1 <==> k in sel2)
    ensures AscendingSelected(sel1, ms, n) == AscendingSelected(sel2, ms, n)
  {
    if n > 0 {
      AscendingSelectedMembers(sel1, sel2, ms, n - 1);
    }
  }

  lemma {:induction false} SelectionOrderAppend(init: seq<nat>, x: nat, ms: seq<Metric>)
    requires x < |ms| && forall j :: 0 <= j < |init| ==> init[j] < |ms|
    ensures SelectionOrder(init + [x], ms) == SelectionOrder(init, ms) + [ms[x]]
  {
    var l, r := SelectionOrder(init + [x], ms), SelectionOrder(init, ms) + [ms[x]];
    assert |l| == |r|;
    forall j | 0 <= j < |l|
      ensures l[j] == r[j]
    {
      if j < |init| {
        assert (init + [x])[j] == init[j];
      }
    }
  }

  /** A selection of indices below n without n - 1 has all its indices below n - 1. */
  lemma {:induction false} LastNotSelected(sel: seq<nat>, n: nat)
    requires n > 0 && n - 1 !in sel && forall j :: 0 <= j < |sel| ==> sel[j] < n
    ensures forall j :: 0 <= j < |sel| ==> sel[j] < n - 1
  {
    forall j | 0 <= j < |sel|
      ensures sel[j] < n - 1
    {
      assert sel[j] in sel;
    }
  }

  /** In an ascending selection of indices below n that holds n - 1, that index comes last,
      and the rest is an ascending selection of indices below n - 1 with the same members. */
  lemma {:induction false} LastSelected(sel: seq<nat>, n: nat)
    requires n > 0 && n - 1 in sel && Ascending(sel) && forall j :: 0 <= j < |sel| ==> sel[j] < n
    ensures |sel| > 0 && sel[|sel| - 1] == n - 1 && sel == sel[..|sel| - 1] + [n - 1]
    ensures Ascending(sel[..|sel| - 1]) && forall j :: 0 <= j < |sel| - 1 ==> sel[j] < n - 1
    ensures forall k :: 0 <= k < n - 1 ==> (k in sel <==> k in sel[..|sel| - 1])
  {
    var last := |sel| - 1;
    assert sel[last] == n - 1 by {
      var j :| 0 <= j < |sel| && sel[j] == n - 1;
    }
    var init := sel[..last];
    assert sel == init + [n - 1];
    forall j | 0 <= j < last
      ensures sel[j] < n - 1
    {
      assert sel[j] < sel[last];
    }
  }

  /** For an ascending selection of measured paths the list handed to `updateState` pairs up
      with the selection. */
  lemma {:induction false} AscendingSelectionAligned(sel: seq<nat>, ms: seq<Metric>, n: nat)
    requires n <= |ms| && Ascending(sel) && forall j :: 0 <= j < |sel| ==> sel[j] < n
    ensures AscendingSelected(sel, ms, n) == SelectionOrder(sel, ms)
  {
    if n > 0 {
      if n - 1 in sel {
        var init := sel[..|sel| - 1];
        LastSelected(sel, n);
        AscendingSelectedMembers(sel, init, ms, n - 1);
        AscendingSelectionAligned(init, ms, n - 1);
        SelectionOrderAppend(init, n - 1, ms);
        assert AscendingSelected(sel, ms, n) == AscendingSelected(sel, ms, n - 1) + [ms[n - 1]];
      } else {
        LastNotSelected(sel, n);
        AscendingSelectionAligned(sel, ms, n - 1);
        assert AscendingSelected(sel, ms, n) == AscendingSelected(sel, ms, n - 1);
      }
    } else {
      assert |sel| == 0;
    }
  }

  /** With the selection [1, 0] of two paths measuring a and b, `updateState` receives [a, b]
      and so credits path 1 with path 0's measurement; with the selection [0, 0] it receives one
      measurement for two selected entries. */
  lemma {:induction false} UpdateMisaligned(a: Metric, b: Metric)
    requires a != b
    ensures AscendingSelected([1, 0], [a, b], 2) == [a, b] != SelectionOrder([1, 0], [a, b]) == [b, a]
    ensures |AscendingSelected([0, 0], [a], 1)| == 1 < |[0, 0]|
  {
    assert AscendingSelected([1, 0], [a, b], 1) == [a];
    assert AscendingSelected([0, 0], [a], 1) == [a];
  }

  /** A row of selection counts after the selected paths among the first n are counted: each
      such path once, however often it is selected. */
  function MarkRow(row: seq<nat>, sel: seq<nat>, n: nat): (r: seq<nat>)
    requires n <= |row|
    ensures |r| == |row| && forall j :: 0 <= j < |row| ==> r[j] == row[j] + (if j < n && j in sel then 1 else 0)
  {
    if n == 0 then row
    else
      var prev := MarkRow(row, sel, n - 1);
      if n - 1 in sel then prev[n - 1 := prev[n - 1] + 1] else prev
  }

  /** A row of measurement sums after the first n measurements are added. */
  function AddRow(row: seq<Metric>, ms: seq<Metric>, n: nat): (r: seq<Metric>)
    requires n <= |row| && n <= |ms|
    ensures |r| == |row| && forall j :: 0 <= j < |row| ==> r[j] == if j < n then Plus(row[j], ms[j]) else row[j]
  {
    if n == 0 then row
    else
      var prev := AddRow(row, ms, n - 1);
      prev[n - 1 := Plus(prev[n - 1], ms[n - 1])]
  }

  lemma {:induction false} AddRowPrefix(row: seq<Metric>, ms: seq<Metric>, more: seq<Metric>, n: nat)
    requires n <= |row| && n <= |ms|
    ensures AddRow(row, ms + more, n) == AddRow(row, ms, n)
  {
    if n > 0 {
      AddRowPrefix(row, ms, more, n - 1);
      assert (ms + more)[n - 1] == ms[n - 1];
    }
  }

  /** Recording path i of round [p][t] moves the counts one path further. */
  lemma {:induction false} CountStep(c0: seq<seq<seq<nat>>>, c: seq<seq<seq<nat>>>, p: nat, t: nat, sel: seq<nat>, i: nat)
    requires p < |c0| && t < |c0[p]| && i < |c0[p][t]|
    requires c == c0[p := c0[p][t := MarkRow(c0[p][t], sel, i)]]
    ensures i in sel ==> AddCount(c, p, t, i) == c0[p := c0[p][t := MarkRow(c0[p][t], sel, i + 1)]]
    ensures i !in sel ==> c == c0[p := c0[p][t := MarkRow(c0[p][t], sel, i + 1)]]
  {
    var row := MarkRow(c0[p][t], sel, i);
    var row1 := MarkRow(c0[p][t], sel, i + 1);
    assert row1 == if i in sel then row[i := row[i] + 1] else row;
    assert c[p][t] == row;
    if i in sel {
      assert AddCount(c, p, t, i) == c[p := c[p][t := row1]];
      assert c[p][t := row1] == c0[p][t := row1];
      assert c[p := c0[p][t := row1]] == c0[p := c0[p][t := row1]];
    }
  }

  /** Adding measurement x of path i to round [p][t] moves the sums one path further. */
  lemma {:induction false} MetricStep(m0: seq<seq<seq<Metric>>>, m: seq<seq<seq<Metric>>>, p: nat, t: nat, ms: seq<Metric>, x: Metric)
    requires p < |m0| && t < |m0[p]| && |ms| < |m0[p][t]|
    requires m == m0[p := m0[p][t := AddRow(m0[p][t], ms, |ms|)]]
    ensures AddMetric(m, p, t, |ms|, x) == m0[p := m0[p][t := AddRow(m0[p][t], ms + [x], |ms| + 1)]]
  {
    var n := |ms|;
    AddRowPrefix(m0[p][t], ms, [x], n);
    var row := AddRow(m0[p][t], ms, n);
    var row1 := AddRow(m0[p][t], ms + [x], n + 1);
    assert row1 == row[n := Plus(row[n], x)];
    assert m[p][t] == row;
    assert AddMetric(m, p, t, n, x) == m[p := m[p][t := row1]];
    assert m[p][t := row1] == m0[p][t := row1];
    assert m[p := m0[p][t := row1]] == m0[p := m0[p][t := row1]];
  }

  /** One Measure event per measurement, in path order. */
  function MeasureEvents(ms: seq<Metric>): (r: seq<Event>)
    ensures |r| == |ms| && forall i :: 0 <= i < |ms| ==> r[i] == Measure(i, ms[i])
  {
    seq(|ms|, i requires 0 <= i < |ms| => Measure(i, ms[i]))
  }

  /** The rounds (p, t) of the first n policies at time t. */
  function Row(t: nat, n: nat): (r: seq<(nat, nat)>)
    ensures |r| == n
  {
    if n == 0 then [] else Row(t, n - 1) + [(n - 1, t)]
  }

  /** The rounds of `runSimulation` over times below t with P policies: t outer, p inner. */
  function Schedule(P: nat, t: nat): seq<(nat, nat)>
  {
    if t == 0 then [] else Schedule(P, t - 1) + Row(t - 1, P)
  }

  lemma {:induction false} RowMeaning(t: nat, n: nat)
    ensures forall k :: 0 <= k < n ==> Row(t, n)[k] == (k, t)
  {
    if n > 0 {
      RowMeaning(t, n - 1);
    }
  }

  /** Every round (p, t) with p < P and t < T is in the schedule, and no other. */
  lemma {:induction false} ScheduleCovers(P: nat, T: nat, p: nat, t: nat)
    ensures (p, t) in Schedule(P, T) <==> p < P && t < T
  {
    if T > 0 {
      ScheduleCovers(P, T - 1, p, t);
      RowMeaning(T - 1, P);
      if p < P && t == T - 1 {
        assert Row(T - 1, P)[p] == (p, t);
      }
    }
  }

  /** Rounds are run in strictly increasing (t, p) order, so each round exactly once. */
  lemma {:induction false} ScheduleOrdered(P: nat, T: nat)
    ensures forall i, j :: 0 <= i < j < |Schedule(P, T)| ==>
      Schedule(P, T)[i].1 < Schedule(P, T)[j].1 ||
      (Schedule(P, T)[i].1 == Schedule(P, T)[j].1 && Schedule(P, T)[i].0 < Schedule(P, T)[j].0)
  {
    if T > 0 {
      ScheduleOrdered(P, T - 1);
      RowMeaning(T - 1, P);
      var prev := Schedule(P, T - 1);
      forall k | 0 <= k < |prev|
        ensures prev[k].1 < T - 1
      {
        ScheduleCovers(P, T - 1, prev[k].0, prev[k].1);
      }
    }
  }

  lemma {:induction false} SchedulePrefix(P: nat, t: nat, T: nat)
    requires t <= T
    ensures Schedule(P, t) <= Schedule(P, T)
  {
    if t < T {
      SchedulePrefix(P, t, T - 1);
    }
  }

  /** Running round (p, t) after the rounds before it at time t extends the row by one. */
  lemma RowNext(r0: seq<(nat, nat)>, t: nat, p: nat)
    ensures r0 + Row(t, p + 1) == r0 + Row(t, p) + [(p, t)]
  {
  }

  /** Running the rounds of time t after the times before it extends the schedule by a row. */
  lemma ScheduleNext(r0: seq<(nat, nat)>, P: nat, t: nat)
    ensures r0 + Schedule(P, t + 1) == r0 + Schedule(P, t) + Row(t, P)
  {
  }

  lemma {:induction false} RowPrefix(t: nat, p: nat, n: nat)
    requires p <= n
    ensures Row(t, p) <= Row(t, n)
  {
    if p < n {
      RowPrefix(t, p, n - 1);
    }
  }

  /** Round (q, s) of the schedule comes before round (p, t) for policy counts below P. */
  predicate Done(P: nat, q: nat, s: nat, t: nat, p: nat)
  {
    q < P && (s < t || (s == t && q < p))
  }

  /** The selection counts c hold the counts c0 plus one for each path selected in each round
      before (p, t): path j counted once in cell [q][s][j] when round (q, s) selected it. */
  predicate Tallied(c0: seq<seq<seq<nat>>>, c: seq<seq<seq<nat>>>, select: (nat, nat) -> seq<nat>,
                    P: nat, K: nat, t: nat, p: nat)
  {
    |c| == |c0| &&
    (forall q :: 0 <= q < |c0| ==> |c[q]| == |c0[q]|) &&
    (forall q, s :: 0 <= q < |c0| && 0 <= s < |c0[q]| ==> |c[q][s]| == |c0[q][s]|) &&
    forall q, s, j :: 0 <= q < |c0| && 0 <= s < |c0[q]| && 0 <= j < |c0[q][s]| ==>
      c[q][s][j] == c0[q][s][j] + (if Done(P, q, s, t, p) && j < K && j in select(q, s) then 1 else 0)
  }

  /** Counting round (p, t) into its own cell moves the tally past that round. */
  lemma {:induction false} TalliedStep(c0: seq<seq<seq<nat>>>, c: seq<seq<seq<nat>>>, select: (nat, nat) -> seq<nat>,
                    P: nat, K: nat, t: nat, p: nat)
    requires Tallied(c0, c, select, P, K, t, p) && p < P && p < |c| && t < |c[p]| && K <= |c[p][t]|
    ensures Tallied(c0, c[p := c[p][t := MarkRow(c[p][t], select(p, t), K)]], select, P, K, t, p + 1)
  {
    var c1 := c[p := c[p][t := MarkRow(c[p][t], select(p, t), K)]];
    forall q, s, j | 0 <= q < |c0| && 0 <= s < |c0[q]| && 0 <= j < |c0[q][s]|
      ensures c1[q][s][j] == c0[q][s][j] + (if Done(P, q, s, t, p + 1) && j < K && j in select(q, s) then 1 else 0)
    {
      if q == p && s == t {
        assert !Done(P, q, s, t, p);
      } else {
        assert Done(P, q, s, t, p + 1) == Done(P, q, s, t, p);
      }
    }
  }

  /** Before any round, the counts are the initial ones. */
  lemma {:induction false} TalliedNone(c0: seq<seq<seq<nat>>>, select: (nat, nat) -> seq<nat>, P: nat, K: nat)
    ensures Tallied(c0, c0, select, P, K, 0, 0)
  {
    forall q, s | 0 <= q < |c0| && 0 <= s < |c0[q]|
      ensures !Done(P, q, s, 0, 0)
    {
    }
  }

  /** Once every time below T has run, a cell holds one more count exactly when its round ran
      and selected the path. */
  lemma {:induction false} TalliedAll(c0: seq<seq<seq<nat>>>, c: seq<seq<seq<nat>>>, select: (nat, nat) -> seq<nat>,
                                      P: nat, K: nat, T: nat)
    requires Tallied(c0, c, select, P, K, T, 0)
    ensures forall q, s, j :: 0 <= q < |c0| && 0 <= s < |c0[q]| && 0 <= j < |c0[q][s]| ==>
      c[q][s][j] == c0[q][s][j] + (if q < P && s < T && j < K && j in select(q, s) then 1 else 0)
  {
    forall q, s, j | 0 <= q < |c0| && 0 <= s < |c0[q]| && 0 <= j < |c0[q][s]|
      ensures c[q][s][j] == c0[q][s][j] + (if q < P && s < T && j < K && j in select(q, s) then 1 else 0)
    {
      assert Done(P, q, s, T, 0) == (q < P && s < T);
    }
  }

  /** A run that ends during time t < T has started the rounds before t and part of the row
      at t: more than before the run, and no more than the whole schedule. */
  lemma {:induction false} ScheduleExit(r0: seq<(nat, nat)>, rs: seq<(nat, nat)>, P: nat, t: nat, T: nat)
    requires t < T
    requires r0 + Schedule(P, t) < rs <= r0 + Schedule(P, t) + Row(t, P)
    ensures r0 < rs <= r0 + Schedule(P, T)
  {
    SchedulePrefix(P, t + 1, T);
    assert r0 + Schedule(P, t) + Row(t, P) == r0 + Schedule(P, t + 1);
  }

  /** How many uniforms the policy of the n-th round of a run (rounds counted in schedule
      order from 0) takes from the shared generator before its paths are measured (in
      `selectNextPaths`) and after (in `updateState`). */
  type PolicyDraws = nat -> (nat, nat)

  /** The uniforms the n-th round takes in all: its policy's draws around the d draws of
      measuring every path. */
  function RoundDraws(d: nat, pd: PolicyDraws, n: nat): nat
  {
    pd(n).0 + d + pd(n).1
  }

  /** The uniforms the first n rounds of a run take. */
  function Elapsed(d: nat, pd: PolicyDraws, n: nat): nat
  {
    if n == 0 then 0 else Elapsed(d, pd, n - 1) + RoundDraws(d, pd, n - 1)
  }

  /** The place of round (q, s) in a run with P policies: rounds run t outer and p inner, so
      the s whole times before it hold P rounds each. */
  function RoundIndex(P: nat, q: nat, s: nat): nat
  {
    if s == 0 then q else RoundIndex(P, q, s - 1) + P
  }

  /** Round (q, s) is round s·P + q. */
  lemma {:induction false} RoundIndexIs(P: nat, q: nat, s: nat)
    ensures RoundIndex(P, q, s) == s * P + q
  {
    if s > 0 {
      RoundIndexIs(P, q, s - 1);
      assert s * P == (s - 1) * P + P;
    }
  }

  /** The next policy's round follows this one, and the first round of the next time follows
      the last round of this time. */
  lemma {:induction false} RoundIndexNext(P: nat, q: nat, s: nat)
    ensures RoundIndex(P, q + 1, s) == RoundIndex(P, q, s) + 1
    ensures RoundIndex(P, 0, s + 1) == RoundIndex(P, P, s)
  {
    RoundIndexIs(P, q, s);
    RoundIndexIs(P, q + 1, s);
    RoundIndexIs(P, 0, s + 1);
    RoundIndexIs(P, P, s);
    assert (s + 1) * P == s * P + P;
  }

  /** Where the generator stands when round (q, s) of a run starts: the run starts at pos and
      every round before it has taken its draws. */
  function RoundStart(pos: nat, P: nat, d: nat, pd: PolicyDraws, q: nat, s: nat): nat
  {
    pos + Elapsed(d, pd, RoundIndex(P, q, s))
  }

  /** The next policy's round starts after this round's draws, and the first round of the
      next time starts where round P of this time would. */
  lemma {:induction false} RoundStartNext(pos: nat, P: nat, d: nat, pd: PolicyDraws, q: nat, s: nat)
    ensures RoundStart(pos, P, d, pd, q + 1, s)
         == RoundStart(pos, P, d, pd, q, s) + RoundDraws(d, pd, RoundIndex(P, q, s))
    ensures RoundStart(pos, P, d, pd, 0, s + 1) == RoundStart(pos, P, d, pd, P, s)
  {
    RoundIndexNext(P, q, s);
  }

  /** When every round's policy draws a before measuring and b after, n rounds take
      n·(a + d + b) uniforms. */
  lemma {:induction false} ElapsedUniform(d: nat, pd: PolicyDraws, a: nat, b: nat, n: nat)
    requires forall k :: pd(k) == (a, b)
    ensures Elapsed(d, pd, n) == n * (a + d + b)
  {
    if n > 0 {
      ElapsedUniform(d, pd, a, b, n - 1);
      assert pd(n - 1) == (a, b);
      assert n * (a + d + b) == (n - 1) * (a + d + b) + (a + d + b);
    }
  }

  /** So with such uniform policies round (q, s) starts after s·P + q whole rounds; with
      policies that never draw (a = b = 0) only the paths move the cursor. */
  lemma {:induction false} RoundStartUniform(pos: nat, P: nat, d: nat, pd: PolicyDraws, a: nat, b: nat, q: nat, s: nat)
    requires forall k :: pd(k) == (a, b)
    ensures RoundStart(pos, P, d, pd, q, s) == pos + (s * P + q) * (a + d + b)
  {
    RoundIndexIs(P, q, s);
    ElapsedUniform(d, pd, a, b, s * P + q);
  }

  /** The measurements of round (q, s) of a run over `paths` that starts reading the generator
      at pos with P policies: every path measured once, right after the round's policy took
      its first draws. */
  function RoundMeasured(paths: seq<Path>, rng: nat -> real, pos: nat, pd: PolicyDraws, P: nat, q: nat, s: nat): (ms: seq<Metric>)
    ensures |ms| == |paths|
    ensures forall i :: 0 <= i < |paths| && paths[i].FixValuePath? ==> ms[i] == paths[i].mean
  {
    MeasureAll(paths, rng, RoundStart(pos, P, Draws(paths, |paths|), pd, q, s) + pd(RoundIndex(P, q, s)).0, |paths|).0
  }

  /** Round (q, s) measures at the cursor where its policy's first draws end. */
  lemma MeasuredAt(paths: seq<Path>, rng: nat -> real, pos: nat, pd: PolicyDraws, P: nat, q: nat, s: nat, K: nat, at: nat)
    requires K == |paths| && at == RoundStart(pos, P, Draws(paths, K), pd, q, s) + pd(RoundIndex(P, q, s)).0
    ensures RoundMeasured(paths, rng, pos, pd, P, q, s) == MeasureAll(paths, rng, at, K).0
  {
  }

  /** The tables a run's loops keep of its rounds: `meas(q, s)` is what round (q, s) measures
      and `start(q, s)` where the generator stands when it starts, for a run that starts the
      generator at pos. */
  ghost predicate Tables(meas: (nat, nat) -> seq<Metric>, start: (nat, nat) -> nat, paths: seq<Path>,
                         rng: nat -> real, pos: nat, pd: PolicyDraws, P: nat)
  {
    (forall q, s {:trigger RoundMeasured(paths, rng, pos, pd, P, q, s)} ::
       meas(q, s) == RoundMeasured(paths, rng, pos, pd, P, q, s)) &&
    (forall q, s {:trigger RoundStart(pos, P, Draws(paths, |paths|), pd, q, s)} ::
       start(q, s) == RoundStart(pos, P, Draws(paths, |paths|), pd, q, s))
  }

  /** The first round of time t + 1 starts where round P of time t would: where the last
      policy of time t leaves the generator. */
  lemma StartNextTime(meas: (nat, nat) -> seq<Metric>, start: (nat, nat) -> nat, paths: seq<Path>,
                      rng: nat -> real, pos: nat, pd: PolicyDraws, P: nat, t: nat)
    requires Tables(meas, start, paths, rng, pos, pd, P)
    ensures start(0, t + 1) == start(P, t)
  {
    RoundStartNext(pos, P, Draws(paths, |paths|), pd, P, t);
  }

  /** The measurement table holds K measurements per round. */
  lemma MeasuredLengths(meas: (nat, nat) -> seq<Metric>, start: (nat, nat) -> nat, paths: seq<Path>,
                        rng: nat -> real, pos: nat, pd: PolicyDraws, P: nat)
    requires Tables(meas, start, paths, rng, pos, pd, P)
    ensures forall q, s :: |meas(q, s)| == |paths|
  {
    forall q, s
      ensures |meas(q, s)| == |paths|
    {
      assert meas(q, s) == RoundMeasured(paths, rng, pos, pd, P, q, s);
    }
  }

  /** The metric sums m hold the sums m0 plus, in every cell [q][s] of a round before (p, t),
      the K measurements `meas(q, s)` of that round; every other cell is untouched. */
  predicate Summed(m0: seq<seq<seq<Metric>>>, m: seq<seq<seq<Metric>>>, meas: (nat, nat) -> seq<Metric>, K: nat,
                   P: nat, t: nat, p: nat)
  {
    |m| == |m0| &&
    (forall q :: 0 <= q < |m0| ==> |m[q]| == |m0[q]|) &&
    (forall q, s :: 0 <= q < |m0| && 0 <= s < |m0[q]| ==> K <= |m0[q][s]| && K <= |meas(q, s)|) &&
    forall q, s :: 0 <= q < |m0| && 0 <= s < |m0[q]| ==>
      m[q][s] == if Done(P, q, s, t, p) then AddRow(m0[q][s], meas(q, s), K) else m0[q][s]
  }

  /** Before any round, the sums are the initial ones. */
  lemma {:induction false} SummedNone(m0: seq<seq<seq<Metric>>>, meas: (nat, nat) -> seq<Metric>, K: nat, P: nat)
    requires forall q, s :: 0 <= q < |m0| && 0 <= s < |m0[q]| ==> K <= |m0[q][s]| && K <= |meas(q, s)|
    ensures Summed(m0, m0, meas, K, P, 0, 0)
  {
    forall q, s | 0 <= q < |m0| && 0 <= s < |m0[q]|
      ensures !Done(P, q, s, 0, 0)
    {
    }
  }

  /** Adding the measurements of round (p, t) into its own cell moves the sums past that round. */
  lemma {:induction false} SummedStep(m0: seq<seq<seq<Metric>>>, m: seq<seq<seq<Metric>>>, meas: (nat, nat) -> seq<Metric>,
                                      K: nat, P: nat, t: nat, p: nat)
    requires Summed(m0, m, meas, K, P, t, p) && p < P && p < |m| && t < |m[p]|
    ensures Summed(m0, m[p := m[p][t := AddRow(m[p][t], meas(p, t), K)]], meas, K, P, t, p + 1)
  {
    assert !Done(P, p, t, t, p);
    var m1 := m[p := m[p][t := AddRow(m[p][t], meas(p, t), K)]];
    forall q, s | 0 <= q < |m0| && 0 <= s < |m0[q]|
      ensures m1[q][s] == if Done(P, q, s, t, p + 1) then AddRow(m0[q][s], meas(q, s), K) else m0[q][s]
    {
      if q != p || s != t {
        assert Done(P, q, s, t, p + 1) == Done(P, q, s, t, p);
      }
    }
  }

  /** Having summed every policy at time t is having summed none at time t + 1. */
  lemma {:induction false} SummedNextTime(m0: seq<seq<seq<Metric>>>, m: seq<seq<seq<Metric>>>,
                                          meas: (nat, nat) -> seq<Metric>, K: nat, P: nat, t: nat)
    requires Summed(m0, m, meas, K, P, t, P)
    ensures Summed(m0, m, meas, K, P, t + 1, 0)
  {
    forall q, s | 0 <= q < |m0| && 0 <= s < |m0[q]|
      ensures Done(P, q, s, t, P) == Done(P, q, s, t + 1, 0)
    {
    }
  }

  /** A run stands after every round before (p, t): the counts tally those rounds' selections
      and the metric sums hold their measurements. */
  predicate Progress(c0: seq<seq<seq<nat>>>, c: seq<seq<seq<nat>>>, m0: seq<seq<seq<Metric>>>, m: seq<seq<seq<Metric>>>,
                     select: (nat, nat) -> seq<nat>, meas: (nat, nat) -> seq<Metric>, P: nat, K: nat, t: nat, p: nat)
  {
    Tallied(c0, c, select, P, K, t, p) && Summed(m0, m, meas, K, P, t, p)
  }

  /** Running round (p, t), which marks its selection and adds its measurements into its own
      cell, moves the run past that round. */
  lemma {:induction false} ProgressStep(c0: seq<seq<seq<nat>>>, c: seq<seq<seq<nat>>>, m0: seq<seq<seq<Metric>>>,
                                        m: seq<seq<seq<Metric>>>, select: (nat, nat) -> seq<nat>,
                                        meas: (nat, nat) -> seq<Metric>, P: nat, K: nat, t: nat, p: nat)
    requires Progress(c0, c, m0, m, select, meas, P, K, t, p)
    requires p < P && p < |c| && t < |c[p]| && K <= |c[p][t]| && p < |m| && t < |m[p]|
    ensures Progress(c0, c[p := c[p][t := MarkRow(c[p][t], select(p, t), K)]],
                     m0, m[p := m[p][t := AddRow(m[p][t], meas(p, t), K)]],
                     select, meas, P, K, t, p + 1)
  {
    TalliedStep(c0, c, select, P, K, t, p);
    SummedStep(m0, m, meas, K, P, t, p);
  }

  /** The full log after the first i paths of round [p][t] are recorded, starting from counts
      c0 and sums m0, with measurements ms; in forever mode the log is untouched. */
  ghost predicate RecordedUpTo(log: RoundwiseFullLog, c0: seq<seq<seq<nat>>>, m0: seq<seq<seq<Metric>>>,
                               p: nat, t: nat, sel: seq<nat>, ms: seq<Metric>, i: nat)
    reads log
  {
    log.Valid() &&
    (log.forever ==> log.counts == c0 && log.metrics == m0) &&
    (!log.forever ==>
      p < log.P && t < log.T && i <= log.K && |ms| == i &&
      |c0| == |m0| == log.P && |c0[p]| == |m0[p]| == log.T && |c0[p][t]| == |m0[p][t]| == log.K &&
      log.counts == c0[p := c0[p][t := MarkRow(c0[p][t], sel, i)]] &&
      log.metrics == m0[p := m0[p][t := AddRow(m0[p][t], ms, i)]])
  }

  /** Having run every policy at time t is having run none at time t + 1. */
  lemma {:induction false} TalliedNextTime(c0: seq<seq<seq<nat>>>, c: seq<seq<seq<nat>>>, select: (nat, nat) -> seq<nat>,
                        P: nat, K: nat, t: nat)
    requires Tallied(c0, c, select, P, K, t, P)
    ensures Tallied(c0, c, select, P, K, t + 1, 0)
  {
    forall q, s | 0 <= q < |c0| && 0 <= s < |c0[q]|
      ensures Done(P, q, s, t, P) == Done(P, q, s, t + 1, 0)
    {
    }
  }

  /** `Simulator` over the full log: the simulated paths, P policies, M paths to select out of
      K, and whether it is built against the kernel module. */
  class Simulator {
    const paths: seq<Path>
    const P: nat
    const M: nat
    const K: nat
    const threshold: real
    const deltaT: nat
    const allPaths: seq<nat>
    const kernelBuild: bool
    /** The calls made so far, and the rounds (p, t) started so far. */
    ghost var trace: seq<Event>
    ghost var rounds: seq<(nat, nat)>

    ghost predicate Valid()
      reads this
    {
      K == |paths| && M <= K && allPaths == Iota(K)
    }

    /** The constructor past its M > K check: `all_paths` becomes 0 .. K - 1. */
    constructor (paths: seq<Path>, P: nat, M: nat, threshold: real, deltaT: nat, kernelBuild: bool)
      requires M <= |paths|
      ensures Valid() && this.paths == paths && this.P == P && this.M == M && this.threshold == threshold
      ensures this.deltaT == deltaT && this.kernelBuild == kernelBuild && trace == [] && rounds == []
    {
      var all := [];
      for i := 0 to |paths|
        invariant all == Iota(i)
      {
        all := all + [i];
      }
      this.paths, this.P, this.M, K := paths, P, M, |paths|;
      this.threshold, this.deltaT, this.kernelBuild := threshold, deltaT, kernelBuild;
      allPaths := all;
      trace, rounds := [], [];
    }

    /** `Simulator(paths, policies, M, threshold, Delta_t)`: aborts (None) exactly when M > K. */
    static method Create(paths: seq<Path>, P: nat, M: nat, threshold: real, deltaT: nat, kernelBuild: bool)
      returns (r: Option<Simulator>)
      ensures r.None? <==> M > |paths|
      ensures r.Some? ==> fresh(r.value) && r.value.Valid() && r.value.paths == paths && r.value.P == P
      ensures r.Some? ==> r.value.M == M && r.value.allPaths == Iota(|paths|) && r.value.rounds == []
    {
      if M > |paths| {
        return None;
      }
      var sim := new Simulator(paths, P, M, threshold, deltaT, kernelBuild);
      r := Some(sim);
    }

    /** The kernel calls of a round in a kernel build: preferred paths, then the fetch. */
    function KernelEvents(sel: seq<nat>, status: int): seq<Event>
    {
      if kernelBuild then [Prefer(KernelUtil.PreferredIds(sel, K)), Fetch(status)] else []
    }

    /** The start of a round: the policy's selection, the kernel calls, and in forever mode the
        end of the run on a negative fetch status. */
    method BeginRound(log: RoundwiseFullLog, p: nat, t: nat, sel: seq<nat>, status: int) returns (exited: bool)
      modifies this
      ensures exited <==> kernelBuild && status < 0 && log.forever
      ensures rounds == old(rounds) + [(p, t)]
      ensures trace == old(trace) + [Select(p, t, sel)] + KernelEvents(sel, status) + (if exited then [Exit(status)] else [])
    {
      rounds := rounds + [(p, t)];
      trace := trace + [Select(p, t, sel)];
      exited := false;
      if kernelBuild {
        trace := trace + [Prefer(KernelUtil.PreferredIds(sel, K)), Fetch(status)];
        if status < 0 && log.forever {
          trace := trace + [Exit(status)];
          exited := true;
        }
      }
    }

    /** The measuring loop of `execSingleRound`: every path measured once in path order, each
        measurement recorded in cell [p][t][i], each selected path counted there once, and the
        selected paths' measurements collected in ascending path order. */
    method MeasureRound(log: RoundwiseFullLog, p: nat, t: nat, sel: seq<nat>, rng: nat -> real, pos: nat)
      returns (measured: seq<Metric>, ascending: seq<Metric>, next: nat)
      requires Valid() && log.Valid() && (!log.forever ==> p < log.P && t < log.T && K <= log.K)
      modifies this, log
      ensures log.Valid() && rounds == old(rounds) && log.simulationTimes == old(log.simulationTimes)
      ensures (measured, next) == MeasureAll(paths, rng, pos, K)
      ensures ascending == AscendingSelected(sel, measured, K)
      ensures trace == old(trace) + MeasureEvents(measured)
      ensures log.forever ==> log.counts == old(log.counts) && log.metrics == old(log.metrics)
      ensures !log.forever ==> log.counts == old(log.counts)[p := old(log.counts)[p][t := MarkRow(old(log.counts)[p][t], sel, K)]]
      ensures !log.forever ==> log.metrics == old(log.metrics)[p := old(log.metrics)[p][t := AddRow(old(log.metrics)[p][t], measured, K)]]
    {
      measured, ascending, next := MeasureLoop(paths, allPaths, log, p, t, sel, rng, pos);
      trace := trace + MeasureEvents(measured);
    }

    static method MeasureLoop(paths: seq<Path>, all: seq<nat>, log: RoundwiseFullLog, p: nat, t: nat, sel: seq<nat>,
                              rng: nat -> real, pos: nat)
      returns (measured: seq<Metric>, ascending: seq<Metric>, next: nat)
      requires all == Iota(|paths|) && log.Valid() && (!log.forever ==> p < log.P && t < log.T && |paths| <= log.K)
      modifies log
      ensures log.Valid() && log.simulationTimes == old(log.simulationTimes)
      ensures (measured, next) == MeasureAll(paths, rng, pos, |paths|)
      ensures ascending == AscendingSelected(sel, measured, |paths|)
      ensures log.forever ==> log.counts == old(log.counts) && log.metrics == old(log.metrics)
      ensures !log.forever ==> log.counts == old(log.counts)[p := old(log.counts)[p][t := MarkRow(old(log.counts)[p][t], sel, |paths|)]]
      ensures !log.forever ==> log.metrics == old(log.metrics)[p := old(log.metrics)[p][t := AddRow(old(log.metrics)[p][t], measured, |paths|)]]
    {
      ghost var c0, m0 := log.counts, log.metrics;
      measured, ascending, next := [], [], pos;
      if !log.forever {
        assert c0[p := c0[p][t := MarkRow(c0[p][t], sel, 0)]] == c0 by {
          assert c0[p][t := c0[p][t]] == c0[p];
        }
        assert m0[p := m0[p][t := AddRow(m0[p][t], [], 0)]] == m0 by {
          assert m0[p][t := m0[p][t]] == m0[p];
        }
      }
      assert RecordedUpTo(log, c0, m0, p, t, sel, measured, 0);
      for i := 0 to |paths|
        invariant log.simulationTimes == old(log.simulationTimes)
        invariant (measured, next) == MeasureAll(paths, rng, pos, i)
        invariant ascending == AscendingSelected(sel, measured, i)
        invariant RecordedUpTo(log, c0, m0, p, t, sel, measured, i)
      {
        var path := all[i];
        var o := Measurement(paths[path], rng, next);
        if path in sel {
          ascending := ascending + [o.0];
        }
        RecordPath(log, p, t, sel, path, o.0, c0, m0, measured);
        AscendingSelectedPrefix(sel, measured, [o.0], i);
        measured, next := measured + [o.0], o.1;
      }
    }

    /** The log calls for path i in round [p][t]: `recordSelectedPaths` when i is selected,
        then `recordMeasurements` with its measurement x. */
    static method RecordPath(log: RoundwiseFullLog, p: nat, t: nat, sel: seq<nat>, i: nat, x: Metric,
                             ghost c0: seq<seq<seq<nat>>>, ghost m0: seq<seq<seq<Metric>>>, ghost ms: seq<Metric>)
      requires RecordedUpTo(log, c0, m0, p, t, sel, ms, i) && (!log.forever ==> i < log.K)
      modifies log
      ensures RecordedUpTo(log, c0, m0, p, t, sel, ms + [x], i + 1)
      ensures log.simulationTimes == old(log.simulationTimes)
    {
      if !log.forever {
        CountStep(c0, log.counts, p, t, sel, i);
        MetricStep(m0, log.metrics, p, t, ms, x);
      }
      if i in sel {
        log.RecordSelectedPaths(p, t, i);
      }
      log.RecordMeasurements(p, t, i, x);
    }

    /** `execSingleRound(log, p, t)` as written, with the policy's selection `sel` and the
        kernel's fetch status given: the policy is updated with the selected paths'
        measurements in ascending path order. */
    method ExecSingleRound(log: RoundwiseFullLog, p: nat, t: nat, sel: seq<nat>, status: int, rng: nat -> real, pos: nat)
      returns (exited: bool, measured: seq<Metric>, updated: seq<Metric>, next: nat)
      requires Valid() && log.Valid() && (!log.forever ==> p < log.P && t < log.T && K <= log.K)
      modifies this, log
      ensures log.Valid() && log.simulationTimes == old(log.simulationTimes)
      ensures exited <==> kernelBuild && status < 0 && log.forever
      ensures rounds == old(rounds) + [(p, t)]
      ensures exited ==> measured == [] && updated == [] && next == pos
      ensures !exited ==> measured == MeasureAll(paths, rng, pos, K).0 && next == pos + Draws(paths, K)
      ensures !exited ==> updated == AscendingSelected(sel, measured, K)
      ensures trace == old(trace) + [Select(p, t, sel)] + KernelEvents(sel, status) +
        (if exited then [Exit(status)] else MeasureEvents(measured) + [Update(p, sel, updated)])
      ensures log.forever ==> log.counts == old(log.counts) && log.metrics == old(log.metrics)
      ensures !log.forever ==> log.counts == old(log.counts)[p := old(log.counts)[p][t := MarkRow(old(log.counts)[p][t], sel, K)]]
      ensures !log.forever ==> log.metrics == old(log.metrics)[p := old(log.metrics)[p][t := AddRow(old(log.metrics)[p][t], measured, K)]]
    {
      exited := BeginRound(log, p, t, sel, status);
      if exited {
        return exited, [], [], pos;
      }
      measured, updated, next := MeasureRound(log, p, t, sel, rng, pos);
      trace := trace + [Update(p, sel, updated)];
    }

    /** `execSingleRound` with the policy updated in the order of its selection: the j-th
        measurement handed over is that of path sel[j]. */
    method ExecSingleRoundIntended(log: RoundwiseFullLog, p: nat, t: nat, sel: seq<nat>, status: int, rng: nat -> real, pos: nat)
      returns (exited: bool, measured: seq<Metric>, updated: seq<Metric>, next: nat)
      requires Valid() && log.Valid() && (!log.forever ==> p < log.P && t < log.T && K <= log.K)
      requires forall j :: 0 <= j < |sel| ==> sel[j] < K
      modifies this, log
      ensures log.Valid() && log.simulationTimes == old(log.simulationTimes)
      ensures exited <==> kernelBuild && status < 0 && log.forever
      ensures rounds == old(rounds) + [(p, t)]
      ensures exited ==> measured == [] && updated == [] && next == pos
      ensures !exited ==> (measured, next) == MeasureAll(paths, rng, pos, K)
      ensures !exited ==> |updated| == |sel| && forall j :: 0 <= j < |sel| ==> updated[j] == measured[sel[j]]
      ensures trace == old(trace) + [Select(p, t, sel)] + KernelEvents(sel, status) +
        (if exited then [Exit(status)] else MeasureEvents(measured) + [Update(p, sel, updated)])
      ensures log.forever ==> log.counts == old(log.counts) && log.metrics == old(log.metrics)
      ensures !log.forever ==> log.counts == old(log.counts)[p := old(log.counts)[p][t := MarkRow(old(log.counts)[p][t], sel, K)]]
      ensures !log.forever ==> log.metrics == old(log.metrics)[p := old(log.metrics)[p][t := AddRow(old(log.metrics)[p][t], measured, K)]]
    {
      exited := BeginRound(log, p, t, sel, status);
      if exited {
        return exited, [], [], pos;
      }
      var ascending;
      measured, ascending, next := MeasureRound(log, p, t, sel, rng, pos);
      updated := [];
      for j := 0 to |sel|
        invariant |updated| == j && forall k :: 0 <= k < j ==> updated[k] == measured[sel[k]]
      {
        updated := updated + [measured[sel[j]]];
      }
      trace := trace + [Update(p, sel, updated)];
    }

    /** `runSimulation(log, T)`: one `addSimulation`, then the rounds with t outer and p inner,
        each policy's selection given by `select(p, t)` and each fetch status by
        `status(p, t)`; a forever-mode run ends at the first negative status. Outside forever
        mode every round is run and path j is counted once in cell [p][t][j] exactly when round
        (p, t) selected it. The generator is shared: `policyDraws(n)` says how many uniforms
        the policy of the n-th round (round (p, t) is round t·P + p) takes before and after
        its paths are measured. */
    method RunSimulation(log: RoundwiseFullLog, T: nat, select: (nat, nat) -> seq<nat>, status: (nat, nat) -> int,
                         rng: nat -> real, pos: nat, policyDraws: PolicyDraws)
      returns (exited: bool, next: nat)
      requires Valid() && log.Valid() && (!log.forever ==> P <= log.P && T <= log.T && K <= log.K)
      requires forall p, t, j :: 0 <= j < |select(p, t)| ==> select(p, t)[j] < K
      modifies this, log
      ensures log.Valid()
      ensures log.simulationTimes == if log.forever then old(log.simulationTimes) else old(log.simulationTimes) + 1
      ensures exited ==> kernelBuild && log.forever
      ensures !exited ==> rounds == old(rounds) + Schedule(P, T)
      ensures exited ==> old(rounds) < rounds <= old(rounds) + Schedule(P, T)
      ensures exited ==> status(rounds[|rounds| - 1].0, rounds[|rounds| - 1].1) < 0
      ensures !log.forever ==> forall q, s, j :: 0 <= q < log.P && 0 <= s < log.T && 0 <= j < log.K ==>
        log.counts[q][s][j] == old(log.counts)[q][s][j] + (if q < P && s < T && j < K && j in select(q, s) then 1 else 0)
      ensures !log.forever ==> forall q, s :: 0 <= q < log.P && 0 <= s < log.T ==>
        log.metrics[q][s] == if q < P && s < T then AddRow(old(log.metrics)[q][s], RoundMeasured(paths, rng, pos, policyDraws, P, q, s), K)
                             else old(log.metrics)[q][s]
      ensures !exited ==> next == RoundStart(pos, P, Draws(paths, K), policyDraws, 0, T)
    {
      log.AddSimulation();
      ghost var c0, m0, r0 := log.counts, log.metrics, rounds;
      ghost var meas := (q: nat, s: nat) => RoundMeasured(paths, rng, pos, policyDraws, P, q, s);
      ghost var start := (q: nat, s: nat) => RoundStart(pos, P, Draws(paths, K), policyDraws, q, s);
      assert start(0, 0) == pos;
      next, exited := pos, false;
      if !log.forever {
        TalliedNone(c0, select, P, K);
        MeasuredLengths(meas, start, paths, rng, pos, policyDraws, P);
        SummedNone(m0, meas, K, P);
      }
      var t := 0;
      while t < T
        invariant t <= T && !exited && log.Valid() && log.simulationTimes == old(log.simulationTimes) + (if log.forever then 0 else 1)
        invariant rounds == r0 + Schedule(P, t)
        invariant next == start(0, t)
        invariant !log.forever ==> Progress(c0, log.counts, m0, log.metrics, select, meas, P, K, t, 0)
      {
        exited, next := RunTime(log, t, select, status, rng, next, policyDraws, c0, m0, pos, meas, start);
        if exited {
          ghost var last := rounds[|rounds| - 1];
          assert status(last.0, last.1) < 0;
          ScheduleExit(r0, rounds, P, t, T);
          return;
        }
        ScheduleNext(r0, P, t);
        t := t + 1;
      }
      if !log.forever {
        TalliedAll(c0, log.counts, select, P, K, T);
        forall q, s | 0 <= q < log.P && 0 <= s < log.T
          ensures Done(P, q, s, T, 0) == (q < P && s < T)
        {
        }
      }
    }

    /** The rounds of all P policies at time t, in policy order; the run ends after the first
        round whose fetch status makes it end. Each round's policy takes its draws from the
        shared generator before and after the round's measurements. */
    method RunTime(log: RoundwiseFullLog, t: nat, select: (nat, nat) -> seq<nat>, status: (nat, nat) -> int,
                   rng: nat -> real, pos: nat, policyDraws: PolicyDraws, ghost c0: seq<seq<seq<nat>>>,
                   ghost m0: seq<seq<seq<Metric>>>, ghost pos0: nat, ghost meas: (nat, nat) -> seq<Metric>,
                   ghost start: (nat, nat) -> nat)
      returns (exited: bool, next: nat)
      requires Valid() && log.Valid() && (!log.forever ==> P <= log.P && t < log.T && K <= log.K)
      requires forall p, j :: 0 <= j < |select(p, t)| ==> select(p, t)[j] < K
      requires Tables(meas, start, paths, rng, pos0, policyDraws, P)
      requires pos == start(0, t)
      requires !log.forever ==> Progress(c0, log.counts, m0, log.metrics, select, meas, P, K, t, 0)
      modifies this, log
      ensures log.Valid() && log.simulationTimes == old(log.simulationTimes)
      ensures exited ==> kernelBuild && log.forever
      ensures !exited ==> rounds == old(rounds) + Row(t, P)
      ensures exited ==> old(rounds) < rounds <= old(rounds) + Row(t, P)
      ensures exited ==> status(rounds[|rounds| - 1].0, rounds[|rounds| - 1].1) < 0
      ensures !exited ==> next == start(0, t + 1)
      ensures !log.forever ==> Progress(c0, log.counts, m0, log.metrics, select, meas, P, K, t + 1, 0)
    {
      ghost var r0 := rounds;
      next := pos;
      var p := 0;
      while p < P
        invariant p <= P && log.Valid() && log.simulationTimes == old(log.simulationTimes)
        invariant rounds == r0 + Row(t, p)
        invariant next == start(p, t)
        invariant !log.forever ==> Progress(c0, log.counts, m0, log.metrics, select, meas, P, K, t, p)
      {
        var ex, nx := RunRound(log, p, t, select, status, rng, next, policyDraws, c0, m0, pos0, meas, start, r0);
        if ex {
          RowPrefix(t, p + 1, P);
          return true, next;
        }
        next := nx;
        p := p + 1;
      }
      exited := false;
      StartNextTime(meas, start, paths, rng, pos0, policyDraws, P, t);
      if !log.forever {
        TalliedNextTime(c0, log.counts, select, P, K, t);
        SummedNextTime(m0, log.metrics, meas, K, P, t);
      }
    }

    /** Round (p, t) of a run that started its generator at pos0: the policy's draws before
        the measurements, `execSingleRound`, and the policy's draws after it. Outside forever
        mode the round is counted and its measurements summed into its own cell. */
    method RunRound(log: RoundwiseFullLog, p: nat, t: nat, select: (nat, nat) -> seq<nat>, status: (nat, nat) -> int,
                    rng: nat -> real, pos: nat, policyDraws: PolicyDraws, ghost c0: seq<seq<seq<nat>>>,
                    ghost m0: seq<seq<seq<Metric>>>, ghost pos0: nat, ghost meas: (nat, nat) -> seq<Metric>,
                    ghost start: (nat, nat) -> nat, ghost r0: seq<(nat, nat)>)
      returns (exited: bool, next: nat)
      requires Valid() && log.Valid() && p < P && (!log.forever ==> P <= log.P && t < log.T && K <= log.K)
      requires forall j :: 0 <= j < |select(p, t)| ==> select(p, t)[j] < K
      requires Tables(meas, start, paths, rng, pos0, policyDraws, P)
      requires pos == start(p, t)
      requires rounds == r0 + Row(t, p)
      requires !log.forever ==> Progress(c0, log.counts, m0, log.metrics, select, meas, P, K, t, p)
      modifies this, log
      ensures log.Valid() && log.simulationTimes == old(log.simulationTimes)
      ensures exited <==> kernelBuild && status(p, t) < 0 && log.forever
      ensures rounds == r0 + Row(t, p + 1)
      ensures !exited ==> next == start(p + 1, t)
      ensures !log.forever ==> Progress(c0, log.counts, m0, log.metrics, select, meas, P, K, t, p + 1)
    {
      ghost var c, m := log.counts, log.metrics;
      var draws := policyDraws(RoundIndex(P, p, t));
      var at := pos + draws.0;
      var measured, updated;
      exited, measured, updated, next := ExecSingleRound(log, p, t, select(p, t), status(p, t), rng, at);
      RowNext(r0, t, p);
      if !exited {
        MeasuredAt(paths, rng, pos0, policyDraws, P, p, t, K, at);
        RoundStartNext(pos0, P, Draws(paths, K), policyDraws, p, t);
        next := next + draws.1;
        if !log.forever {
          ProgressStep(c0, c, m0, m, select, meas, P, K, t, p);
        }
      }
    }
  }
}
