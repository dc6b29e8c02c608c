/** KL-UCB for multiple plays: per path the play count Ni and the accumulated gain Gi; the
    upper confidence index of a played path is the largest q with Ni * kl(p, q) <= log n,
    found by at most 20 clamped Newton steps. The natural logarithm is a parameter `ln`. */
module KLUCBPolicy {
  import opened BanditUtil
  import opened TopIndices
  import opened BetaTrials

  const Delta: real := 0.00000001
  const Eps: real := 0.000000000001
  const MaxIterations: nat := 20
  /** The index of a path never played ("very large number"). */
  const UnplayedIndex: real := 100000000.0

  /** Division where a zero divisor yields 0; the source's IEEE infinities are not modelled. */
  function Div(a: real, b: real): real
  {
    if b == 0.0 then 0.0 else a / b
  }

  function MinReal(a: real, b: real): (m: real)
    ensures m <= a && m <= b && (m == a || m == b)
  {
    if a < b then a else b
  }

  function MaxReal(a: real, b: real): (m: real)
    ensures m >= a && m >= b && (m == a || m == b)
  {
    if a > b then a else b
  }

  /** `kl(p, q)`: the Bernoulli Kullback-Leibler divergence. */
  function Kl(ln: real -> real, p: real, q: real): real
  {
    p * ln(Div(p, q)) + (1.0 - p) * ln(Div(1.0 - p, 1.0 - q))
  }

  /** `dkl(p, q)`: its derivative in q. */
  function Dkl(p: real, q: real): real
  {
    Div(q - p, q * (1.0 - q))
  }

  /** The residual log(n)/Ni - kl(p, q) that Newton's method drives to zero. */
  function Residual(ln: real -> real, logndn: real, p: real, q: real): real
  {
    logndn - Kl(ln, p, q)
  }

  /** Newton's test on a residual f: f * f < EPS, that is |f| < sqrt(EPS). */
  predicate Small(f: real)
  {
    f * f < Eps
  }

  /** Newton's test at q: the residual there is small. */
  predicate Converged(ln: real -> real, logndn: real, p: real, q: real)
  {
    Small(Residual(ln, logndn, p, q))
  }

  /** The clamp of every Newton iterate: at least p + DELTA, then at most 1 - DELTA (the upper
      clamp applied last), so the result never leaves the interval spanned by the two bounds. */
  function Clamp(p: real, x: real): (q: real)
    ensures MinReal(p + Delta, 1.0 - Delta) <= q <= MaxReal(p + Delta, 1.0 - Delta)
    ensures q <= 1.0 - Delta
  {
    MinReal(1.0 - Delta, MaxReal(x, p + Delta))
  }

  /** One Newton step on the residual, clamped. */
  function NewtonStep(ln: real -> real, logndn: real, p: real, q: real): real
  {
    Clamp(p, q - Div(Residual(ln, logndn, p, q), -Dkl(p, q)))
  }

  /** At most t Newton steps from q, stopping at the first converged point. */
  function Newton(ln: real -> real, logndn: real, p: real, q: real, t: nat): real
    decreases t
  {
    if t == 0 || Converged(ln, logndn, p, q) then q
    else Newton(ln, logndn, p, NewtonStep(ln, logndn, p, q), t - 1)
  }

  /** The Newton iterates never leave [min(p + DELTA, 1 - DELTA), max(p + DELTA, 1 - DELTA)]. */
  lemma {:induction false} NewtonStaysClamped(ln: real -> real, logndn: real, p: real, q: real, t: nat)
    requires MinReal(p + Delta, 1.0 - Delta) <= q <= MaxReal(p + Delta, 1.0 - Delta)
    ensures MinReal(p + Delta, 1.0 - Delta) <= Newton(ln, logndn, p, q, t) <= MaxReal(p + Delta, 1.0 - Delta)
    decreases t
  {
    if t > 0 && !Converged(ln, logndn, p, q) {
      NewtonStaysClamped(ln, logndn, p, NewtonStep(ln, logndn, p, q), t - 1);
    }
  }

  /** The KL-UCB index of a path with gain gi over ni > 0 plays, n plays in all. */
  function KLUCBUpper(ln: real -> real, gi: real, ni: nat, n: nat): real
    requires ni > 0
  {
    var p := MaxReal(gi / ni as real, Delta);
    if p >= 1.0 then 1.0 else Newton(ln, ln(n as real) / ni as real, p, p + Delta, MaxIterations)
  }

  /** The index is 1 when the empirical mean reaches 1, never exceeds 1 + DELTA, and is
      optimistic: at least the empirical mean, capped at 1 - DELTA. */
  lemma {:induction false} UpperInRange(ln: real -> real, gi: real, ni: nat, n: nat)
    requires ni > 0
    ensures gi / ni as real >= 1.0 ==> KLUCBUpper(ln, gi, ni, n) == 1.0
    ensures 0.0 < KLUCBUpper(ln, gi, ni, n) <= 1.0 + Delta
    ensures KLUCBUpper(ln, gi, ni, n) >= MinReal(gi / ni as real, 1.0 - Delta)
  {
    var p := MaxReal(gi / ni as real, Delta);
    if p < 1.0 {
      NewtonStaysClamped(ln, ln(n as real) / ni as real, p, p + Delta, MaxIterations);
    }
  }

  /** `vectorSum(Ni)`: all plays so far. */
  function Total(ns: seq<nat>): nat
  {
    if |ns| == 0 then 0 else Total(ns[..|ns| - 1]) + ns[|ns| - 1]
  }

  /** The index of every path: the unplayed marker for a path never played, else its KL-UCB
      index with n = all plays. */
  function UCBIndices(ln: real -> real, ni: seq<nat>, gi: seq<real>): (v: seq<real>)
    requires |ni| == |gi|
    ensures |v| == |ni|
    ensures forall k :: 0 <= k < |ni| ==>
      v[k] == if ni[k] == 0 then UnplayedIndex else KLUCBUpper(ln, gi[k], ni[k], Total(ni))
  {
    seq(|ni|, k requires 0 <= k < |ni| =>
      if ni[k] == 0 then UnplayedIndex else KLUCBUpper(ln, gi[k], ni[k], Total(ni)))
  }

  /** A path never played outranks every played path, so the top-l choice takes every
      unplayed path before any played one. */
  lemma {:induction false} UnplayedFirst(ln: real -> real, ni: seq<nat>, gi: seq<real>, l: nat, a: nat, b: nat)
    requires |ni| == |gi| && a < |ni|
    requires ni[a] == 0 && b in VectorMaxIndices(UCBIndices(ln, ni, gi), l) && ni[b] > 0
    ensures a in VectorMaxIndices(UCBIndices(ln, ni, gi), l)
  {
    var v := UCBIndices(ln, ni, gi);
    UpperInRange(ln, gi[b], ni[b], Total(ni));
    assert v[a] == UnplayedIndex && v[b] <= 1.0 + Delta;
    TopTakesLarger(v, l, a, b);
  }

  /** The non-basic ranking: (Gi + 1) / (Ni + 1). */
  function Means(ni: seq<nat>, gi: seq<real>): (v: seq<real>)
    requires |ni| == |gi|
    ensures |v| == |ni| && forall i :: 0 <= i < |ni| ==> v[i] == (gi[i] + 1.0) / (ni[i] + 1) as real
  {
    seq(|ni|, i requires 0 <= i < |ni| => (gi[i] + 1.0) / (ni[i] + 1) as real)
  }

  /** Entries of the top-l choice are pairwise distinct. */
  lemma {:induction false} MaxIndicesDistinct(v: seq<real>, l: nat)
    ensures forall i, j :: 0 <= i < j < |VectorMaxIndices(v, l)| ==>
      VectorMaxIndices(v, l)[i] != VectorMaxIndices(v, l)[j]
  {
    var r := VectorMaxIndices(v, l);
    forall i, j | 0 <= i < j < |r|
      ensures r[i] != r[j]
    {
      assert Outranks(v, r[i], r[j]);
    }
  }

  /** l distinct paths cannot all lie in a set of fewer than l paths. */
  lemma {:induction false} Pigeonhole(s: seq<nat>, c: set<nat>)
    requires forall i, j :: 0 <= i < j < |s| ==> s[i] != s[j]
    requires forall i :: 0 <= i < |s| ==> s[i] in c
    ensures |s| <= |c|
  {
    DistinctCard(s);
    assert Members(s) <= c;
    SubsetCard(Members(s), c);
  }

  /** Among the l top-index paths there is one outside the l - 1 top-mean paths: l distinct
      paths do not fit in a set of l - 1. */
  lemma {:induction false} FirstNew(means: seq<real>, ucb: seq<real>, l: nat, chosen: set<nat>) returns (w: nat)
    requires 1 <= l <= |means| && l <= |ucb|
    requires chosen == Members(VectorMaxIndices(means, l)[..l - 1])
    ensures w < l && VectorMaxIndices(ucb, l)[w] !in chosen
  {
    var top := VectorMaxIndices(means, l);
    MaxIndicesDistinct(means, l);
    DistinctCard(top[..l - 1]);
    MaxIndicesDistinct(ucb, l);
    var paths := VectorMaxIndices(ucb, l);
    if forall j :: 0 <= j < l ==> paths[j] in chosen {
      Pigeonhole(paths, chosen);
      assert false;
    }
    w :| 0 <= w < l && paths[w] !in chosen;
  }

  /** A path of strictly larger value than a chosen one is chosen too. */
  lemma {:induction false} TopTakesLarger(v: seq<real>, l: nat, a: nat, b: nat)
    requires a < |v| && b in VectorMaxIndices(v, l) && v[a] > v[b]
    ensures a in VectorMaxIndices(v, l)
  {
    if a !in VectorMaxIndices(v, l) {
      assert false;
    }
  }

  class KLUCB {
    const K: nat
    const basic: bool
    var ni: seq<nat>
    var gi: seq<real>

    ghost predicate Valid()
      reads this
    {
      |ni| == |gi| == K
    }

    constructor (K: nat, basic: bool)
      ensures Valid() && this.K == K && this.basic == basic
      ensures ni == Fill(K, 0) && gi == Fill(K, 0.0)
    {
      this.K := K;
      this.basic := basic;
      new;
      Reset();
    }

    /** `reset`: no path has been played. */
    method Reset()
      modifies this
      ensures Valid() && ni == Fill(K, 0) && gi == Fill(K, 0.0)
    {
      ni, gi := Fill(K, 0), Fill(K, 0.0);
    }

    /** `getKLUCBUpper(k, n)`: the Newton iteration on q, at most 20 steps. */
    method GetKLUCBUpper(ln: real -> real, k: nat, n: nat) returns (r: real)
      requires Valid() && k < K && ni[k] > 0
      ensures r == KLUCBUpper(ln, gi[k], ni[k], n)
    {
      var logndn := ln(n as real) / ni[k] as real;
      var p := MaxReal(gi[k] / ni[k] as real, Delta);
      if p >= 1.0 {
        return 1.0;
      }
      r := NewtonIteration(ln, logndn, p);
    }

    /** The loop of `getKLUCBUpper`: from q = p + DELTA, at most 20 clamped Newton steps,
        leaving early once the residual is small. */
    static method NewtonIteration(ln: real -> real, logndn: real, p: real) returns (q: real)
      ensures q == Newton(ln, logndn, p, p + Delta, MaxIterations)
    {
      var converged := false;
      q := p + Delta;
      var t := 0;
      while t < MaxIterations && !converged
        invariant 0 <= t <= MaxIterations && !converged
        invariant Newton(ln, logndn, p, q, MaxIterations - t) == Newton(ln, logndn, p, p + Delta, MaxIterations)
      {
        var f := Residual(ln, logndn, p, q);
        var df := -Dkl(p, q);
        if Small(f) {
          converged := true;
          break;
        }
        q := Clamp(p, q - Div(f, df));
        t := t + 1;
      }
    }

    /** The index vector of `selectNextPaths`, one path at a time. */
    method Indices(ln: real -> real) returns (v: seq<real>)
      requires Valid()
      ensures v == UCBIndices(ln, ni, gi)
    {
      var n := Total(ni);
      ghost var u := UCBIndices(ln, ni, gi);
      v := [];
      for k := 0 to K
        invariant v == u[..k]
      {
        var index := PathIndex(ln, k, n);
        assert u[..k + 1] == u[..k] + [index];
        v := v + [index];
      }
      assert u[..K] == u;
    }

    /** The index of path k: the unplayed marker, or `getKLUCBUpper(k, n)`. */
    method PathIndex(ln: real -> real, k: nat, n: nat) returns (index: real)
      requires Valid() && k < K && n == Total(ni)
      ensures index == UCBIndices(ln, ni, gi)[k]
    {
      if ni[k] == 0 {
        index := UnplayedIndex;
      } else {
        index := GetKLUCBUpper(ln, k, n);
      }
    }

    /** `selectNextPaths(l)` in basic mode: the l paths of largest index, so every unplayed
        path comes before any played one. */
    method SelectNextPathsBasic(ln: real -> real, l: nat) returns (r: seq<nat>)
      requires Valid()
      ensures r == VectorMaxIndices(UCBIndices(ln, ni, gi), l)
      ensures |r| == Min(l, K) && forall i, j :: 0 <= i < j < |r| ==> r[i] != r[j]
      ensures forall a, b :: 0 <= a < K && ni[a] == 0 && b in r && ni[b] > 0 ==> a in r
    {
      var indices := Indices(ln);
      r := VectorMaxIndices(indices, l);
      MaxIndicesDistinct(indices, l);
      forall a, b | 0 <= a < K && ni[a] == 0 && b in r && ni[b] > 0
        ensures a in r
      {
        UnplayedFirst(ln, ni, gi, l, a, b);
      }
    }

    /** `selectNextPaths(l)` in non-basic mode: the l-1 paths of largest mean (Gi+1)/(Ni+1),
        then in the last slot the path of highest KL-UCB index that is not among them. The
        source reads l-1 and index l-1 of vectors of length l, so 1 <= l <= K is required. */
    method SelectNextPathsNonBasic(ln: real -> real, l: nat) returns (r: seq<nat>)
      requires Valid() && 1 <= l <= K
      ensures |r| == l && r[..l - 1] == VectorMaxIndices(Means(ni, gi), l)[..l - 1]
      ensures forall i, j :: 0 <= i < j < l ==> r[i] != r[j]
      ensures exists w :: (0 <= w < l && r[l - 1] == VectorMaxIndices(UCBIndices(ln, ni, gi), l)[w] &&
        forall j :: 0 <= j < w ==> VectorMaxIndices(UCBIndices(ln, ni, gi), l)[j] in r[..l - 1])
    {
      var meanIndices := VectorMaxIndices(Means(ni, gi), l);
      var chosen := Chosen(meanIndices, l - 1);
      var ucbIndices := Indices(ln);
      var ucbPaths := VectorMaxIndices(ucbIndices, l);
      ghost var w := FirstNew(Means(ni, gi), ucbIndices, l, chosen);
      r := meanIndices;
      var i := 0;
      while i < l
        invariant i <= w && r == meanIndices
        invariant forall j :: 0 <= j < i ==> ucbPaths[j] in chosen
      {
        var index := ucbPaths[i];
        if index !in chosen {
          r := meanIndices[l - 1 := index];
          assert r[..l - 1] == meanIndices[..l - 1];
          MaxIndicesDistinct(Means(ni, gi), l);
          return;
        }
        i := i + 1;
      }
      assert false;
    }

    /** The key set of the map of the first n mean-ranked paths, filled one path at a time. */
    static method Chosen(meanIndices: seq<nat>, n: nat) returns (chosen: set<nat>)
      requires n <= |meanIndices|
      ensures chosen == Members(meanIndices[..n])
    {
      chosen := {};
      for i := 0 to n
        invariant chosen == Members(meanIndices[..i])
      {
        assert meanIndices[..i + 1] == meanIndices[..i] + [meanIndices[i]];
        chosen := chosen + {meanIndices[i]};
      }
    }

    /** `updateState(is, rs)`: every occurrence of a path adds one play and its measured b to
        the gain; paths not selected keep both. */
    method UpdateState(sel: seq<nat>, rs: seq<Metric>)
      requires Valid() && |rs| >= |sel| && forall i :: 0 <= i < |sel| ==> sel[i] < K
      modifies this
      ensures Valid()
      ensures forall k :: 0 <= k < K ==> ni[k] == old(ni[k]) + Occurrences(sel, k)
      ensures gi == Tally(old(gi), sel, Readings(rs, Bw))
    {
      ghost var n0, g0 := ni, gi;
      ghost var bs := Readings(rs, Bw);
      for i := 0 to |sel|
        invariant |ni| == |gi| == K
        invariant forall k :: 0 <= k < K ==> ni[k] == n0[k] + Occurrences(sel[..i], k)
        invariant gi == Tally(g0, sel[..i], bs)
      {
        assert sel[..i + 1][..i] == sel[..i];
        TallyStep(g0, sel, bs, i);
        var k := sel[i];
        ni := ni[k := ni[k] + 1];
        gi := gi[k := gi[k] + rs[i].b];
      }
      assert sel[..|sel|] == sel;
    }
  }
}
