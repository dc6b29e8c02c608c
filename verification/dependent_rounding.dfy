/** `dependentRounding(l, ps)` of the bandit library: turns a fractional selection vector whose
    entries sum to l into exactly l selected indices. Entries are repeatedly paired in a random
    order; each pairing step moves probability mass between the two entries, keeping their sum,
    until one of them reaches 0 or 1. */
module DependentRounding {
  import opened Wrappers
  import opened BanditUtil
  import opened TopIndices

  /** Entries above High are fixed as selected, entries below Low as excluded. */
  const High: real := 0.999
  const Low: real := 0.001
  /** Largest accepted distance between the sum of the entries and l. */
  const Tolerance: real := 0.001

  /** Up to this many entries, the threshold errors cannot add up to a whole selection. */
  const MaxExactSize: nat := 498

  /** Values of the per-entry `selected` marks. */
  const Undetermined: int := -1
  const Excluded: int := 0
  const Selected: int := 1

  datatype RoundingError =
    | SumMismatch(sum: real)     // the entries do not sum to l within the tolerance
    | CountMismatch(count: nat)  // the rounding ended with a different number of selections

  function Abs(x: real): real { if x < 0.0 then -x else x }

  /** Largest drift of the expected number of selections when n entries are determined by
      the thresholds, each moving it by less than Low. */
  function Slack(n: int): (r: real)
    ensures 0.0 <= r
    decreases n
  {
    if n <= 0 then 0.0 else Slack(n - 1) + Low
  }

  lemma {:induction false} SlackIsProduct(n: nat)
    ensures Slack(n) == Low * n as real
  {
    if n > 0 {
      SlackIsProduct(n - 1);
    }
  }

  lemma {:induction false} SlackAdd(a: nat, b: nat)
    ensures Slack(a) + Slack(b) == Slack(a + b)
    decreases b
  {
    if b > 0 {
      SlackAdd(a, b - 1);
    }
  }

  lemma {:induction false} SlackMonotone(a: int, b: int)
    requires a <= b
    ensures Slack(a) <= Slack(b)
    decreases b - a
  {
    if a < b {
      SlackMonotone(a, b - 1);
    }
  }

  /** A drift within the slack of the entries determined from u0 down to c1, followed by one
      within the slack of those determined from c1 down to c2, stays within the slack of
      those determined from u0 down to c2. */
  lemma {:induction false} DriftChain(m0: real, m1: real, m2: real, u0: int, c1: int, c2: int)
    requires c2 <= c1 <= u0
    requires Abs(m1 - m0) <= Slack(u0 - c1) && Abs(m2 - m1) <= Slack(c1 - c2)
    ensures Abs(m2 - m0) <= Slack(u0 - c2)
  {
    SlackAdd(u0 - c1, c1 - c2);
    assert (u0 - c1) + (c1 - c2) == u0 - c2;
  }

  function MinReal(a: real, b: real): real { if a <= b then a else b }

  /** The mark a value gets when it is compared with the two thresholds. */
  function Classify(v: real): (m: int)
    ensures m == Selected <==> v > High
    ensures m == Excluded <==> v < Low
    ensures m == Undetermined <==> Low <= v <= High
  {
    if v > High then Selected else if v < Low then Excluded else Undetermined
  }

  /** Mass that can move from the second entry of a pair to the first. */
  function Alpha(pi: real, pj: real): real { MinReal(1.0 - pi, pj) }

  /** Mass that can move from the first entry of a pair to the second. */
  function Beta(pi: real, pj: real): real { MinReal(pi, 1.0 - pj) }

  /** A positive part of a positive whole is a fraction strictly between 0 and 1. */
  lemma {:induction false} Share(part: real, rest: real)
    requires part > 0.0 && rest > 0.0
    ensures 0.0 < part / (part + rest) < 1.0
  {
    var w := part + rest;
    var q := part / w;
    assert q * w == part;
  }

  /** Probability of moving Alpha towards the first entry. */
  function Prob(pi: real, pj: real): (q: real)
    requires Low <= pi <= High && Low <= pj <= High
    ensures 0.0 < q < 1.0
  {
    var a, b := Alpha(pi, pj), Beta(pi, pj);
    assert a > 0.0 && b > 0.0;
    Share(b, a);
    b / (b + a)
  }

  /** One pairing step with the uniform draw `rand`: the pair's sum is kept, both new values
      stay in [0, 1], and at least one of them reaches 0 or 1. */
  function PairStep(pi: real, pj: real, rand: real): (r: (real, real))
    requires Low <= pi <= High && Low <= pj <= High
    ensures r.0 + r.1 == pi + pj
    ensures 0.0 <= r.0 <= 1.0 && 0.0 <= r.1 <= 1.0
    ensures r.0 == 0.0 || r.0 == 1.0 || r.1 == 0.0 || r.1 == 1.0
  {
    var alpha := Alpha(pi, pj);
    var beta := Beta(pi, pj);
    if rand < Prob(pi, pj) then (pi + alpha, pj - alpha) else (pi - beta, pj + beta)
  }

  /** Averaged over the draw, a pairing step leaves the first entry's value unchanged, so each
      entry keeps its marginal probability of being selected. */
  lemma {:induction false} PairStepKeepsMean(pi: real, pj: real)
    requires Low <= pi <= High && Low <= pj <= High
    ensures Prob(pi, pj) * (pi + Alpha(pi, pj)) + (1.0 - Prob(pi, pj)) * (pi - Beta(pi, pj)) == pi
  {
    var a, b := Alpha(pi, pj), Beta(pi, pj);
    var q := Prob(pi, pj);
    assert q * (a + b) == b;
    calc {
      q * (pi + a) + (1.0 - q) * (pi - b);
      pi + q * a - b + q * b;
      pi + q * (a + b) - b;
    }
  }

  /** Number of undetermined marks. */
  function CountUndetermined(s: seq<int>): (n: nat)
    ensures n <= |s|
  {
    if |s| == 0 then 0
    else CountUndetermined(s[..|s| - 1]) + (if s[|s| - 1] == Undetermined then 1 else 0)
  }

  /** Determining one undetermined mark lowers the count by one. */
  lemma {:induction false} CountUndeterminedSet(s: seq<int>, i: nat, v: int)
    requires i < |s| && s[i] == Undetermined && v != Undetermined
    ensures CountUndetermined(s[i := v]) == CountUndetermined(s) - 1
  {
    if i < |s| - 1 {
      assert s[i := v][..|s| - 1] == s[..|s| - 1][i := v];
      CountUndeterminedSet(s[..|s| - 1], i, v);
    } else {
      assert s[i := v][..|s| - 1] == s[..|s| - 1];
    }
  }

  /** What an entry contributes to the expected number of selections: 1 when selected,
      0 when excluded, its value while undetermined. */
  function Value(m: int, v: real): real
  {
    if m == Selected then 1.0 else if m == Excluded then 0.0 else v
  }

  /** Expected number of selections of the current state. */
  ghost function Mass(sel: seq<int>, p: seq<real>): real
    requires |sel| == |p|
  {
    if |sel| == 0 then 0.0 else Mass(sel[..|sel| - 1], p[..|p| - 1]) + Value(sel[|sel| - 1], p[|p| - 1])
  }

  lemma {:induction false} MassUpdate(sel: seq<int>, p: seq<real>, i: nat, m: int, v: real)
    requires |sel| == |p| && i < |sel|
    ensures Mass(sel[i := m], p[i := v]) == Mass(sel, p) - Value(sel[i], p[i]) + Value(m, v)
  {
    if i < |sel| - 1 {
      assert sel[i := m][..|sel| - 1] == sel[..|sel| - 1][i := m];
      assert p[i := v][..|p| - 1] == p[..|p| - 1][i := v];
      MassUpdate(sel[..|sel| - 1], p[..|p| - 1], i, m, v);
    } else {
      assert sel[i := m][..|sel| - 1] == sel[..|sel| - 1];
      assert p[i := v][..|p| - 1] == p[..|p| - 1];
    }
  }

  /** Number of Selected marks. */
  function CountSelected(s: seq<int>): (n: nat)
    ensures n <= |s|
  {
    if |s| == 0 then 0 else CountSelected(s[..|s| - 1]) + (if s[|s| - 1] == Selected then 1 else 0)
  }

  /** Once every entry is determined, the expected number of selections is the actual one. */
  lemma {:induction false} MassAllDetermined(sel: seq<int>, p: seq<real>)
    requires |sel| == |p|
    requires forall k :: 0 <= k < |sel| ==> sel[k] == Selected || sel[k] == Excluded
    ensures Mass(sel, p) == CountSelected(sel) as real
  {
    if |sel| > 0 {
      MassAllDetermined(sel[..|sel| - 1], p[..|p| - 1]);
    }
  }

  /** The marks of the initial thresholding. */
  function InitialMarks(ps: seq<real>): (m: seq<int>)
    ensures |m| == |ps| && forall k :: 0 <= k < |ps| ==> m[k] == Classify(ps[k])
  {
    seq(|ps|, k requires 0 <= k < |ps| => Classify(ps[k]))
  }

  /** For entries in [0, 1], the initial thresholding moves the expected number of selections
      by less than Low per entry it determines. */
  lemma {:induction false} InitialMass(ps: seq<real>)
    requires forall k :: 0 <= k < |ps| ==> 0.0 <= ps[k] <= 1.0
    ensures Abs(Mass(InitialMarks(ps), ps) - VectorSum(ps))
            <= Slack(|ps| - CountUndetermined(InitialMarks(ps)))
  {
    if |ps| > 0 {
      var q := ps[..|ps| - 1];
      assert InitialMarks(ps)[..|ps| - 1] == InitialMarks(q);
      InitialMass(q);
    }
  }

  /** Scan of the random order for the first two undetermined entries. n is how many were
      found; ia and ib are their positions in `order`. */
  method FindPair(order: seq<nat>, sel: seq<int>) returns (n: nat, ia: nat, ib: nat)
    requires forall x :: 0 <= x < |order| ==> order[x] < |sel|
    ensures n <= 2
    ensures n == 0 ==> forall x :: 0 <= x < |order| ==> sel[order[x]] != Undetermined
    ensures n >= 1 ==> ia < |order| && sel[order[ia]] == Undetermined
    ensures n >= 1 ==> forall x :: 0 <= x < ia ==> sel[order[x]] != Undetermined
    ensures n == 1 ==> forall x :: ia < x < |order| ==> sel[order[x]] != Undetermined
    ensures n == 2 ==> ia < ib < |order| && sel[order[ib]] == Undetermined
    ensures n == 2 ==> forall x :: ia < x < ib ==> sel[order[x]] != Undetermined
  {
    n, ia, ib := 0, 0, 0;
    var i := 0;
    while i < |order|
      invariant 0 <= i <= |order| && n <= 1
      invariant n == 0 ==> forall x :: 0 <= x < i ==> sel[order[x]] != Undetermined
      invariant n == 1 ==> ia < i && sel[order[ia]] == Undetermined
      invariant n == 1 ==> forall x :: 0 <= x < ia ==> sel[order[x]] != Undetermined
      invariant n == 1 ==> forall x :: ia < x < i ==> sel[order[x]] != Undetermined
    {
      if sel[order[i]] == Undetermined {
        if n == 0 {
          n, ia := 1, i;
        } else {
          n, ib := 2, i;
          return;
        }
      }
      i := i + 1;
    }
  }

  /** Every mark is one of the three values, and every undetermined entry lies strictly
      between the thresholds' outer values. */
  ghost predicate WellMarked(sel: seq<int>, p: seq<real>)
    requires |sel| == |p|
  {
    forall k :: 0 <= k < |sel| ==>
      sel[k] in {Undetermined, Excluded, Selected} && (sel[k] == Undetermined ==> Low <= p[k] <= High)
  }

  /** Marks fixed by the initial thresholding are still in place. */
  ghost predicate KeepsInitial(ps: seq<real>, sel: seq<int>)
    requires |sel| == |ps|
  {
    forall k :: 0 <= k < |ps| && Classify(ps[k]) != Undetermined ==> sel[k] == Classify(ps[k])
  }

  /** Every mark that was already determined before is still the same. */
  ghost predicate KeepsDetermined(before: seq<int>, after: seq<int>)
  {
    |before| == |after| &&
    forall k :: 0 <= k < |before| && before[k] != Undetermined ==> after[k] == before[k]
  }

  /** The marks and values once entry a has taken the new value v: it becomes selected or
      excluded when v crosses a threshold, otherwise its value becomes v. */
  function SettleSeq(sel: seq<int>, p: seq<real>, a: nat, v: real): (r: (seq<int>, seq<real>))
    requires |sel| == |p| && a < |sel|
    ensures |r.0| == |r.1| == |sel|
  {
    if Classify(v) != Undetermined then (sel[a := Classify(v)], p) else (sel, p[a := v])
  }

  /** Settling an undetermined entry determines one entry when v crosses a threshold, and
      moves the expected number of selections from the old value to v, off by less than Low
      when the entry became determined. */
  lemma {:induction false} SettleEffect(sel: seq<int>, p: seq<real>, a: nat, v: real)
    requires |sel| == |p| && a < |sel| && sel[a] == Undetermined
    ensures CountUndetermined(SettleSeq(sel, p, a, v).0) ==
      CountUndetermined(sel) - (if Classify(v) != Undetermined then 1 else 0)
    ensures 0.0 <= v <= 1.0 ==>
      Abs(Mass(SettleSeq(sel, p, a, v).0, SettleSeq(sel, p, a, v).1) - (Mass(sel, p) - p[a] + v))
      <= if Classify(v) != Undetermined then Low else 0.0
  {
    var m := Classify(v);
    CountUndeterminedSet(sel, a, if m == Undetermined then Selected else m);
    if m != Undetermined {
      MassUpdate(sel, p, a, m, p[a]);
      assert p[a := p[a]] == p;
    } else {
      MassUpdate(sel, p, a, Undetermined, v);
      assert sel[a := Undetermined] == sel;
    }
  }

  /** Writes one new value back after a pairing step, as SettleSeq describes. */
  method Settle(selected: array<int>, p: array<real>, a: nat, v: real)
    requires selected != p as object && selected.Length == p.Length && a < selected.Length
    modifies selected, p
    ensures selected[..] == SettleSeq(old(selected[..]), old(p[..]), a, v).0
    ensures p[..] == SettleSeq(old(selected[..]), old(p[..]), a, v).1
  {
    var m := Classify(v);
    if m != Undetermined {
      selected[a] := m;
    } else {
      p[a] := v;
    }
  }

  /** The marks and values after a pairing step on a and b with the draw `rand` and the
      settling of both entries. */
  function PairSettled(s0: seq<int>, p0: seq<real>, a: nat, b: nat, rand: real): (r: (seq<int>, seq<real>))
    requires |s0| == |p0| && a < |s0| && b < |s0| && a != b
    requires s0[a] == Undetermined && s0[b] == Undetermined && WellMarked(s0, p0)
    ensures |r.0| == |r.1| == |s0|
  {
    var step := PairStep(p0[a], p0[b], rand);
    var r1 := SettleSeq(s0, p0, a, step.0);
    SettleSeq(r1.0, r1.1, b, step.1)
  }

  /** A pairing step keeps the marks well formed and those already determined, and
      determines at least one entry of the pair. */
  lemma {:induction false} PairMarks(s0: seq<int>, p0: seq<real>, a: nat, b: nat, rand: real)
    requires |s0| == |p0| && a < |s0| && b < |s0| && a != b
    requires s0[a] == Undetermined && s0[b] == Undetermined && WellMarked(s0, p0)
    ensures WellMarked(PairSettled(s0, p0, a, b, rand).0, PairSettled(s0, p0, a, b, rand).1)
    ensures KeepsDetermined(s0, PairSettled(s0, p0, a, b, rand).0)
    ensures CountUndetermined(PairSettled(s0, p0, a, b, rand).0) < CountUndetermined(s0)
  {
    var step := PairStep(p0[a], p0[b], rand);
    var r1 := SettleSeq(s0, p0, a, step.0);
    SettleEffect(s0, p0, a, step.0);
    assert r1.0[b] == Undetermined;
    SettleEffect(r1.0, r1.1, b, step.1);
  }

  /** A pairing step moves the expected number of selections by less than Low per entry it
      determines. */
  lemma {:induction false} PairMass(s0: seq<int>, p0: seq<real>, a: nat, b: nat, rand: real)
    requires |s0| == |p0| && a < |s0| && b < |s0| && a != b
    requires s0[a] == Undetermined && s0[b] == Undetermined && WellMarked(s0, p0)
    ensures var r := PairSettled(s0, p0, a, b, rand);
            Abs(Mass(r.0, r.1) - Mass(s0, p0)) <= Slack(CountUndetermined(s0) - CountUndetermined(r.0))
  {
    var step := PairStep(p0[a], p0[b], rand);
    var r1 := SettleSeq(s0, p0, a, step.0);
    SettleEffect(s0, p0, a, step.0);
    assert r1.0[b] == Undetermined && r1.1[b] == p0[b];
    var r2 := SettleSeq(r1.0, r1.1, b, step.1);
    SettleEffect(r1.0, r1.1, b, step.1);
    var da, db := Classify(step.0) != Undetermined, Classify(step.1) != Undetermined;
    PairDrift(Mass(s0, p0), Mass(r1.0, r1.1), Mass(r2.0, r2.1), p0[a], p0[b], step.0, step.1, da, db);
  }

  /** The indices, ascending, whose mark is Selected. */
  method CollectSelected(selected: array<int>) returns (out: seq<nat>)
    ensures forall x, y :: 0 <= x < y < |out| ==> out[x] < out[y]
    ensures forall x :: 0 <= x < |out| ==> out[x] < selected.Length
    ensures forall k: nat :: k in out <==> k < selected.Length && selected[k] == Selected
    ensures |out| == CountSelected(selected[..])
  {
    out := [];
    for i := 0 to selected.Length
      invariant |out| == CountSelected(selected[..i])
      invariant forall x, y :: 0 <= x < y < |out| ==> out[x] < out[y]
      invariant forall x :: 0 <= x < |out| ==> out[x] < i
      invariant forall k: nat :: k in out <==> k < i && selected[k] == Selected
    {
      assert selected[..i + 1][..i] == selected[..i];
      if selected[i] == Selected {
        out := out + [i];
      }
    }
    assert selected[..selected.Length] == selected[..];
  }

  /** Settling both entries of a pair whose sum is kept moves the expected number of
      selections by at most Low per entry that became determined. */
  lemma {:induction false} PairDrift(m0: real, m1: real, m2: real, pa: real, pb: real, va: real, vb: real,
                                     da: bool, db: bool)
    requires va + vb == pa + pb
    requires Abs(m1 - (m0 - pa + va)) <= (if da then Low else 0.0)
    requires Abs(m2 - (m1 - pb + vb)) <= (if db then Low else 0.0)
    ensures Abs(m2 - m0) <= Slack((if da then 1 else 0) + (if db then 1 else 0))
  {
    var n := (if da then 1 else 0) + (if db then 1 else 0);
    assert Slack(n) == (if da then Low else 0.0) + (if db then Low else 0.0) by {
      if n == 2 {
        assert Slack(1) == Low;
      }
    }
  }

  /** One pairing step on the undetermined entries a and b with the uniform draw `rand`: at
      least one of them becomes determined, the marks of all other entries stay as they are,
      and the expected number of selections moves by less than Low per determined entry. */
  method PairOnce(selected: array<int>, p: array<real>, a: nat, b: nat, rand: real)
    requires selected != p as object && selected.Length == p.Length
    requires a < selected.Length && b < selected.Length && a != b
    requires selected[a] == Undetermined && selected[b] == Undetermined
    requires WellMarked(selected[..], p[..])
    modifies selected, p
    ensures WellMarked(selected[..], p[..])
    ensures KeepsDetermined(old(selected[..]), selected[..])
    ensures CountUndetermined(selected[..]) < CountUndetermined(old(selected[..]))
    ensures Abs(Mass(selected[..], p[..]) - Mass(old(selected[..]), old(p[..])))
            <= Slack(CountUndetermined(old(selected[..])) - CountUndetermined(selected[..]))
  {
    ghost var s0, p0 := selected[..], p[..];
    PairMarks(s0, p0, a, b, rand);
    PairMass(s0, p0, a, b, rand);
    var step := PairStep(p[a], p[b], rand);
    Settle(selected, p, a, step.0);
    Settle(selected, p, b, step.1);
    ghost var r := PairSettled(s0, p0, a, b, rand);
    assert selected[..] == r.0 && p[..] == r.1;
  }

  /** The last undetermined entry a is selected exactly when its value exceeds one half; the
      expected number of selections moves by at most one half. */
  method ResolveLone(selected: array<int>, p: array<real>, a: nat)
    requires selected != p as object && selected.Length == p.Length && a < selected.Length
    requires selected[a] == Undetermined
    requires WellMarked(selected[..], p[..])
    modifies selected
    ensures selected[..] == old(selected[..])[a := if p[a] > 0.5 then Selected else Excluded]
    ensures WellMarked(selected[..], p[..])
    ensures CountUndetermined(selected[..]) == CountUndetermined(old(selected[..])) - 1
    ensures Abs(Mass(selected[..], p[..]) - Mass(old(selected[..]), p[..])) <= 0.5
  {
    var m := if p[a] > 0.5 then Selected else Excluded;
    CountUndeterminedSet(selected[..], a, m);
    MassUpdate(selected[..], p[..], a, m, p[a]);
    assert p[..][a := p[a]] == p[..];
    selected[a] := m;
  }

  lemma {:induction false} KeepsTransitive(a: seq<int>, b: seq<int>, c: seq<int>)
    requires KeepsDetermined(a, b) && KeepsDetermined(b, c)
    ensures KeepsDetermined(a, c)
  {}

  /** The invariant of the pairing loop started on the marks sel0 with expected number of
      selections m0: marks are well formed, those determined at the start are kept, and the
      drift since the start stays within the slack of the entries determined since. */
  ghost predicate Pairing(sel: seq<int>, p: seq<real>, sel0: seq<int>, m0: real)
  {
    |sel| == |p| && WellMarked(sel, p) && KeepsDetermined(sel0, sel) &&
    CountUndetermined(sel) <= CountUndetermined(sel0) &&
    Abs(Mass(sel, p) - m0) <= Slack(CountUndetermined(sel0) - CountUndetermined(sel))
  }

  /** A step that keeps the marks, determines some entries and drifts by at most their slack
      keeps the loop invariant. */
  lemma {:induction false} PairingStep(sel0: seq<int>, m0: real, s1: seq<int>, p1: seq<real>, s2: seq<int>, p2: seq<real>)
    requires Pairing(s1, p1, sel0, m0)
    requires |s2| == |p2| && WellMarked(s2, p2) && KeepsDetermined(s1, s2)
    requires CountUndetermined(s2) <= CountUndetermined(s1)
    requires Abs(Mass(s2, p2) - Mass(s1, p1)) <= Slack(CountUndetermined(s1) - CountUndetermined(s2))
    ensures Pairing(s2, p2, sel0, m0)
  {
    KeepsTransitive(sel0, s1, s2);
    var u0, c1, c2 := CountUndetermined(sel0), CountUndetermined(s1), CountUndetermined(s2);
    DriftChain(m0, Mass(s1, p1), Mass(s2, p2), u0, c1, c2);
  }

  /** A last step that keeps the marks and drifts by at most one half ends within the slack of
      all entries undetermined at the start, plus one half. */
  lemma {:induction false} PairingLast(sel0: seq<int>, m0: real, s1: seq<int>, p1: seq<real>, s2: seq<int>, p2: seq<real>)
    requires Pairing(s1, p1, sel0, m0)
    requires |s2| == |p2| && KeepsDetermined(s1, s2)
    requires Abs(Mass(s2, p2) - Mass(s1, p1)) <= 0.5
    ensures KeepsDetermined(sel0, s2)
    ensures Abs(Mass(s2, p2) - m0) <= Slack(CountUndetermined(sel0)) + 0.5
  {
    KeepsTransitive(sel0, s1, s2);
    SlackMonotone(CountUndetermined(sel0) - CountUndetermined(s1), CountUndetermined(sel0));
  }

  /** When no entry reached through `order`, which lists every index, is undetermined, no
      entry is undetermined at all. */
  lemma {:induction false} NoneLeft(order: seq<nat>, sel: seq<int>)
    requires |order| == |sel|
    requires forall k :: 0 <= k < |order| ==> k in order
    requires forall x :: 0 <= x < |order| ==> order[x] < |sel| && sel[order[x]] != Undetermined
    ensures forall k :: 0 <= k < |sel| ==> sel[k] != Undetermined
  {
    forall k | 0 <= k < |sel|
      ensures sel[k] != Undetermined
    {
      assert k in order;
    }
  }

  /** One turn of the `while(true)` pairing loop with the draw `rand`: finds the first two
      undetermined entries of `order`; with two it pairs them (done is false), with one it
      resolves it and with none it changes nothing (done is true, and no mark is left
      undetermined). */
  method PairingRound(selected: array<int>, p: array<real>, order: seq<nat>, rand: real)
    returns (done: bool)
    requires selected != p as object && selected.Length == p.Length == |order|
    requires forall k :: 0 <= k < |order| ==> k in order
    requires forall x :: 0 <= x < |order| ==> order[x] < |order|
    requires forall x, y :: 0 <= x < y < |order| ==> order[x] != order[y]
    requires WellMarked(selected[..], p[..])
    modifies selected, p
    ensures WellMarked(selected[..], p[..])
    ensures KeepsDetermined(old(selected[..]), selected[..])
    ensures done ==> forall k :: 0 <= k < selected.Length ==> selected[k] != Undetermined
    ensures done ==> Abs(Mass(selected[..], p[..]) - Mass(old(selected[..]), old(p[..]))) <= 0.5
    ensures !done ==> CountUndetermined(selected[..]) < CountUndetermined(old(selected[..]))
    ensures !done ==> (Abs(Mass(selected[..], p[..]) - Mass(old(selected[..]), old(p[..])))
                       <= Slack(CountUndetermined(old(selected[..])) - CountUndetermined(selected[..])))
  {
    var found, ia, ib := FindPair(order, selected[..]);
    if found == 0 {
      NoneLeft(order, selected[..]);
      return true;
    }
    var a := order[ia];
    if found == 1 {
      ghost var before := selected[..];
      ResolveLone(selected, p, a);
      forall x | 0 <= x < |order|
        ensures selected[..][order[x]] != Undetermined
      {
        if x != ia {
          assert before[order[x]] != Undetermined;
        }
      }
      NoneLeft(order, selected[..]);
      return true;
    }
    PairOnce(selected, p, a, order[ib], rand);
    return false;
  }

  /** The `while(true)` pairing loop: pairs the first two undetermined entries of `order`
      until none is left, reading one draw per pairing step from `pos`. No undetermined mark
      remains afterwards, marks that were already set are kept, and fewer draws are read
      than there were undetermined entries. */
  method PairUntilDetermined(selected: array<int>, p: array<real>, order: seq<nat>,
                             rng: nat -> real, pos: nat) returns (next: nat)
    requires selected != p as object && selected.Length == p.Length == |order|
    requires forall x: nat :: x in order <==> x < |order|
    requires forall x, y :: 0 <= x < y < |order| ==> order[x] != order[y]
    requires WellMarked(selected[..], p[..])
    modifies selected, p
    ensures WellMarked(selected[..], p[..])
    ensures forall k :: 0 <= k < selected.Length ==> selected[k] != Undetermined
    ensures KeepsDetermined(old(selected[..]), selected[..])
    ensures pos <= next <= pos + CountUndetermined(old(selected[..]))
    ensures Abs(Mass(selected[..], p[..]) - Mass(old(selected[..]), old(p[..])))
            <= Slack(CountUndetermined(old(selected[..]))) + 0.5
  {
    ghost var sel0 := selected[..];
    ghost var u0 := CountUndetermined(sel0);
    ghost var m0 := Mass(sel0, p[..]);
    next := pos;
    assert forall x :: 0 <= x < |order| ==> order[x] in order;
    while true
      invariant Pairing(selected[..], p[..], sel0, m0)
      invariant pos <= next && next + CountUndetermined(selected[..]) <= pos + u0
      decreases CountUndetermined(selected[..])
    {
      ghost var s1, p1 := selected[..], p[..];
      var done := PairingRound(selected, p, order, rng(next));
      if done {
        PairingLast(sel0, m0, s1, p1, selected[..], p[..]);
        return;
      }
      PairingStep(sel0, m0, s1, p1, selected[..], p[..]);
      next := next + 1;
    }
  }

  /** The marks and working values before any pairing: entries above High are selected,
      entries below Low excluded, the rest undetermined with their own value. */
  method Threshold(ps: seq<real>) returns (selected: array<int>, p: array<real>)
    ensures fresh(selected) && fresh(p) && selected != p as object
    ensures selected[..] == InitialMarks(ps) && p[..] == ps
    ensures WellMarked(selected[..], p[..])
  {
    selected := new int[|ps|](_ => Undetermined);
    p := new real[|ps|];
    for i := 0 to |ps|
      invariant forall k :: 0 <= k < i ==> selected[k] == Classify(ps[k]) && p[k] == ps[k]
      invariant forall k :: i <= k < |ps| ==> selected[k] == Undetermined
    {
      if ps[i] > High {
        selected[i] := Selected;
      } else if ps[i] < Low {
        selected[i] := Excluded;
      }
      p[i] := ps[i];
    }
  }

  /** The drift of the initial thresholds and that of the pairing loop add up to the slack of
      all entries plus the one half of the lone entry. */
  lemma {:induction false} TotalDrift(count: nat, initialMass: real, sum: real, n: nat, u0: nat)
    requires u0 <= n
    requires Abs(count as real - initialMass) <= Slack(u0) + 0.5
    requires Abs(initialMass - sum) <= Slack(n - u0)
    ensures Abs(count as real - sum) <= Slack(n) + 0.5
  {
    SlackAdd(u0, n - u0);
  }

  /** The threshold errors of at most MaxExactSize entries, the lone entry and the accepted
      sum tolerance stay below one, so the integer count must equal l. */
  lemma {:induction false} ErrorsBelowOne(count: nat, l: nat, sum: real, n: nat)
    requires n <= MaxExactSize
    requires Abs(count as real - sum) <= Slack(n) + 0.5
    requires Abs(sum - l as real) <= Tolerance
    ensures count == l
  {
    SlackMonotone(n, MaxExactSize);
    SlackIsProduct(MaxExactSize);
    assert Abs(count as real - l as real) < 1.0;
  }

  /** Thresholding, K draws that order the entries, then one draw per pairing step: every
      mark ends determined, the marks of the thresholds are kept, and the expected number of
      selections drifts by the slack of the pairing steps plus the lone entry. */
  method DetermineAll(ps: seq<real>, rng: nat -> real, pos: nat)
    returns (selected: array<int>, next: nat, ghost values: seq<real>)
    ensures fresh(selected) && selected.Length == |values| == |ps|
    ensures forall k :: 0 <= k < |ps| ==> selected[k] == Selected || selected[k] == Excluded
    ensures KeepsInitial(ps, selected[..])
    ensures pos <= next <= pos + 2 * |ps|
    ensures Abs(Mass(selected[..], values) - Mass(InitialMarks(ps), ps))
            <= Slack(CountUndetermined(InitialMarks(ps))) + 0.5
  {
    var n := |ps|;
    var p;
    selected, p := Threshold(ps);
    var order := RandomIndices(n, rng, pos);
    next := PairUntilDetermined(selected, p, order, rng, pos + n);
    values := p[..];
  }

  /** For entries in [0, 1], once the thresholds and the pairing loop have determined every
      entry, the number selected is within the slack of all entries plus one half of the sum
      of the entries. */
  lemma {:induction false} RoundingDrift(ps: seq<real>, final: seq<int>, values: seq<real>)
    requires |final| == |values| == |ps|
    requires forall k :: 0 <= k < |final| ==> final[k] == Selected || final[k] == Excluded
    requires Abs(Mass(final, values) - Mass(InitialMarks(ps), ps))
             <= Slack(CountUndetermined(InitialMarks(ps))) + 0.5
    requires forall k :: 0 <= k < |ps| ==> 0.0 <= ps[k] <= 1.0
    ensures Abs(CountSelected(final) as real - VectorSum(ps)) <= Slack(|ps|) + 0.5
  {
    MassAllDetermined(final, values);
    InitialMass(ps);
    TotalDrift(CountSelected(final), Mass(InitialMarks(ps), ps), VectorSum(ps), |ps|,
               CountUndetermined(InitialMarks(ps)));
  }

  /** The work of `dependentRounding` after the sum check: the indices whose mark ended
      Selected, ascending. */
  method SelectIndices(ps: seq<real>, rng: nat -> real, pos: nat) returns (out: seq<nat>, next: nat)
    ensures forall x, y :: 0 <= x < y < |out| ==> out[x] < out[y]
    ensures forall x :: 0 <= x < |out| ==> out[x] < |ps|
    ensures forall k :: 0 <= k < |ps| && ps[k] > High ==> k in out
    ensures forall k :: 0 <= k < |ps| && ps[k] < Low ==> k !in out
    ensures pos <= next <= pos + 2 * |ps|
    ensures (forall k :: 0 <= k < |ps| ==> 0.0 <= ps[k] <= 1.0) ==>
      Abs(|out| as real - VectorSum(ps)) <= Slack(|ps|) + 0.5
  {
    var selected;
    ghost var values;
    selected, next, values := DetermineAll(ps, rng, pos);
    ghost var final := selected[..];
    out := CollectSelected(selected);
    if forall k :: 0 <= k < |ps| ==> 0.0 <= ps[k] <= 1.0 {
      RoundingDrift(ps, final, values);
    }
  }

  /** `dependentRounding(l, ps)` with the process-wide generator given as the stream `rng`
      read from `pos`: K draws order the entries, then one draw per pairing step; `next` is
      the position after the last draw. */
  method Round(l: nat, ps: seq<real>, rng: nat -> real, pos: nat)
    returns (r: Result<seq<nat>, RoundingError>, next: nat)
    ensures r.Failure? && r.error.SumMismatch? <==> Abs(VectorSum(ps) - l as real) > Tolerance
    ensures r.Success? ==> |r.value| == l
    ensures r.Success? ==> forall x, y :: 0 <= x < y < |r.value| ==> r.value[x] < r.value[y]
    ensures r.Success? ==> forall x :: 0 <= x < |r.value| ==> r.value[x] < |ps|
    ensures r.Success? ==> forall k :: 0 <= k < |ps| && ps[k] > High ==> k in r.value
    ensures r.Success? ==> forall k :: 0 <= k < |ps| && ps[k] < Low ==> k !in r.value
    ensures pos <= next <= pos + 2 * |ps|
    ensures ((forall k :: 0 <= k < |ps| ==> 0.0 <= ps[k] <= 1.0) && |ps| <= MaxExactSize &&
             Abs(VectorSum(ps) - l as real) <= Tolerance) ==> r.Success?
  {
    var sum := VectorSum(ps);
    if Abs(sum - l as real) > Tolerance {
      return Failure(SumMismatch(sum)), pos;
    }
    var out;
    out, next := SelectIndices(ps, rng, pos);
    if (forall k :: 0 <= k < |ps| ==> 0.0 <= ps[k] <= 1.0) && |ps| <= MaxExactSize {
      ErrorsBelowOne(|out|, l, sum, |ps|);
    }
    if |out| != l {
      return Failure(CountMismatch(|out|)), next;
    }
    return Success(out), next;
  }

  /** What a call of dependent rounding on the LP solution vt promises. */
  ghost predicate RoundingOutcome(r: Result<seq<nat>, RoundingError>, m: nat, vt: seq<real>, pos: nat, next: nat)
  {
    (r.Failure? && r.error.SumMismatch? <==> Abs(VectorSum(vt) - m as real) > Tolerance) &&
    (r.Success? ==> |r.value| == m && (forall x, y :: 0 <= x < y < |r.value| ==> r.value[x] < r.value[y]) &&
                    (forall x :: 0 <= x < |r.value| ==> r.value[x] < |vt|)) &&
    pos <= next <= pos + 2 * |vt| &&
    (((forall k :: 0 <= k < |vt| ==> 0.0 <= vt[k] <= 1.0) && |vt| <= MaxExactSize &&
      Abs(VectorSum(vt) - m as real) <= Tolerance) ==> r.Success?)
  }
}
