/** The measurement type and the scalar/vector helpers of the bandit library. */
module BanditUtil {
  import opened Wrappers

  /** One measurement or mean of a path: latency-type, bandwidth-type and loss-type signal. */
  datatype Metric = Metric(r: real, b: real, l: real)

  /** A Bernoulli trial driven by an explicit uniform draw `rand`: success when the draw
      falls below the success probability `mu`. */
  function BernoulliTrial(rand: real, mu: real): (t: real)
    ensures t == 0.0 || t == 1.0
    ensures t == 1.0 <==> rand < mu
  {
    if rand < mu then 1.0 else 0.0
  }

  /** `operator+`; `operator+=` is this sum assigned back to the left operand. */
  function Plus(a: Metric, m: Metric): (s: Metric)
    ensures s.r - a.r == m.r && s.b - a.b == m.b && s.l - a.l == m.l
  {
    Metric(m.r + a.r, m.b + a.b, m.l + a.l)
  }

  /** `averageOver(n)`: every component divided by n. */
  function AverageOver(m: Metric, n: nat): (a: Metric)
    requires n > 0
    ensures a.r * (n as real) == m.r && a.b * (n as real) == m.b && a.l * (n as real) == m.l
  {
    Metric(m.r / n as real, m.b / n as real, m.l / n as real)
  }

  /** The metric added to the zero metric n times (how a log cell grows over n runs). */
  function RepeatedSum(m: Metric, n: nat): Metric
  {
    if n == 0 then Metric(0.0, 0.0, 0.0) else Plus(RepeatedSum(m, n - 1), m)
  }

  /** Averaging the sum of n copies of a metric gives that metric back. */
  lemma {:induction false} AverageOfRepeatedSum(m: Metric, n: nat)
    requires n > 0
    ensures AverageOver(RepeatedSum(m, n), n) == m
  {
    RepeatedSumScales(m, n);
    ScaleThenDivide(m.r, n);
    ScaleThenDivide(m.b, n);
    ScaleThenDivide(m.l, n);
  }

  /** x taken n times. */
  function Scale(x: real, n: nat): real
  {
    x * n as real
  }

  lemma {:induction false} ScaleSucc(x: real, n: nat)
    ensures Scale(x, n + 1) == Scale(x, n) + x
  {
  }

  lemma {:induction false} ScaleThenDivide(x: real, n: nat)
    requires n > 0
    ensures Scale(x, n) / n as real == x
  {
  }

  lemma {:induction false} RepeatedSumScales(m: Metric, n: nat)
    ensures RepeatedSum(m, n) == Metric(Scale(m.r, n), Scale(m.b, n), Scale(m.l, n))
  {
    if n > 0 {
      RepeatedSumScales(m, n - 1);
      ScaleSucc(m.r, n - 1);
      ScaleSucc(m.b, n - 1);
      ScaleSucc(m.l, n - 1);
    }
  }

  /** `vectorSum`: the left-to-right sum. */
  function VectorSum(s: seq<real>): real
  {
    if |s| == 0 then 0.0 else VectorSum(s[..|s| - 1]) + s[|s| - 1]
  }

  lemma {:induction false} VectorSumAppend(a: seq<real>, b: seq<real>)
    ensures VectorSum(a + b) == VectorSum(a) + VectorSum(b)
  {
    if |b| == 0 {
      assert a + b == a;
    } else {
      assert (a + b)[..|a + b| - 1] == a + b[..|b| - 1];
      VectorSumAppend(a, b[..|b| - 1]);
    }
  }

  /** Replacing one entry changes the sum by the difference of the two values. */
  lemma {:induction false} VectorSumUpdate(s: seq<real>, i: nat, v: real)
    requires i < |s|
    ensures VectorSum(s[i := v]) == VectorSum(s) - s[i] + v
  {
    assert s == s[..i] + [s[i]] + s[i + 1..];
    assert s[i := v] == s[..i] + [v] + s[i + 1..];
    VectorSumAppend(s[..i] + [s[i]], s[i + 1..]);
    VectorSumAppend(s[..i], [s[i]]);
    VectorSumAppend(s[..i] + [v], s[i + 1..]);
    VectorSumAppend(s[..i], [v]);
    assert VectorSum([s[i]]) == s[i] by { assert [s[i]][..0] == []; }
    assert VectorSum([v]) == v by { assert [v][..0] == []; }
  }

  /** A sum of non-negative entries is non-negative; of positive entries positive. */
  lemma {:induction false} VectorSumPositive(s: seq<real>)
    requires |s| > 0
    requires forall i :: 0 <= i < |s| ==> s[i] > 0.0
    ensures VectorSum(s) > 0.0
  {
    if |s| > 1 {
      VectorSumPositive(s[..|s| - 1]);
    }
  }

  /** The sum of pairwise products (the loop of `vectorDot`). */
  function DotSum(a: seq<real>, b: seq<real>): real
    requires |a| == |b|
  {
    if |a| == 0 then 0.0 else DotSum(a[..|a| - 1], b[..|b| - 1]) + a[|a| - 1] * b[|b| - 1]
  }

  /** `vectorDot`: aborts when the sizes differ. */
  function VectorDot(a: seq<real>, b: seq<real>): (r: Result<real, string>)
    ensures r.Success? <==> |a| == |b|
    ensures r.Success? ==> r.value == DotSum(a, b)
  {
    if |a| != |b| then Failure("vector sizes are not equal") else Success(DotSum(a, b))
  }

  /** A dot product with the all-ones vector is the plain sum. */
  lemma {:induction false} DotWithOnes(v: seq<real>)
    ensures VectorDot(Fill(|v|, 1.0), v) == Success(VectorSum(v))
  {
    if |v| > 0 {
      assert Fill(|v|, 1.0)[..|v| - 1] == Fill(|v| - 1, 1.0);
      DotWithOnes(v[..|v| - 1]);
    }
  }

  /** `vectorMax`: the largest entry (the source reads elems[0], so it needs an entry). */
  function VectorMax(s: seq<real>): (m: real)
    requires |s| > 0
    ensures m in s
    ensures forall i :: 0 <= i < |s| ==> s[i] <= m
  {
    if |s| == 1 then s[0]
    else
      var m := VectorMax(s[..|s| - 1]);
      assert forall i :: 0 <= i < |s| - 1 ==> s[i] == s[..|s| - 1][i];
      if s[|s| - 1] > m then s[|s| - 1] else m
  }

  /** `vectorMaxIndex`: the index of the first largest entry (strict `>` keeps the earliest). */
  function VectorMaxIndex(s: seq<real>): (k: nat)
    requires |s| > 0
    ensures k < |s|
    ensures forall i :: 0 <= i < |s| ==> s[i] <= s[k]
    ensures forall i :: 0 <= i < k ==> s[i] < s[k]
  {
    if |s| == 1 then 0
    else
      var k := VectorMaxIndex(s[..|s| - 1]);
      assert forall i :: 0 <= i < |s| - 1 ==> s[i] == s[..|s| - 1][i];
      if s[|s| - 1] > s[k] then |s| - 1 else k
  }

  /** `vectorLTHIndices`: the indices, ascending, whose entry is at most h. */
  function VectorLTHIndices(s: seq<real>, h: real): (r: seq<nat>)
    ensures forall i :: 0 <= i < |r| ==> r[i] < |s|
    ensures forall i, j :: 0 <= i < j < |r| ==> r[i] < r[j]
    ensures forall k: nat :: k in r <==> k < |s| && s[k] <= h
  {
    if |s| == 0 then []
    else
      var r := VectorLTHIndices(s[..|s| - 1], h);
      assert forall i :: 0 <= i < |s| - 1 ==> s[i] == s[..|s| - 1][i];
      if s[|s| - 1] <= h then r + [|s| - 1] else r
  }

  /** `newVectorWithIndices`: the entries at the given indices, in the given order. */
  function NewVectorWithIndices(s: seq<real>, idx: seq<nat>): (r: seq<real>)
    requires forall i :: 0 <= i < |idx| ==> idx[i] < |s|
    ensures |r| == |idx|
    ensures forall i :: 0 <= i < |idx| ==> r[i] == s[idx[i]]
  {
    if |idx| == 0 then [] else NewVectorWithIndices(s, idx[..|idx| - 1]) + [s[idx[|idx| - 1]]]
  }

  /** The entries of s that are at most h, in index order. */
  function AtMost(s: seq<real>, h: real): (r: seq<real>)
    ensures |r| <= |s|
    ensures forall i :: 0 <= i < |r| ==> r[i] <= h
  {
    if |s| == 0 then []
    else AtMost(s[..|s| - 1], h) + (if s[|s| - 1] <= h then [s[|s| - 1]] else [])
  }

  /** Picking the entries at the LTH indices keeps exactly the entries at most h, in their
      original order, one per qualifying index. */
  lemma {:induction false} PickedBelowThreshold(s: seq<real>, h: real)
    ensures var idx := VectorLTHIndices(s, h);
            var picked := NewVectorWithIndices(s, idx);
            |picked| == |idx| && picked == AtMost(s, h) &&
            forall i :: 0 <= i < |picked| ==> picked[i] <= h
  {
    if |s| > 0 {
      var n := |s| - 1;
      var t := s[..n];
      var idx0 := VectorLTHIndices(t, h);
      PickedBelowThreshold(t, h);
      PickPrefix(s, n, idx0);
      assert VectorLTHIndices(s, h) == idx0 + (if s[n] <= h then [n] else []);
      PickAppend(s, idx0, if s[n] <= h then [n] else []);
    }
  }

  /** Number of positions i naming path k whose outcome ok[i] is a success (one trial of
      path k per position of the selection list). */
  function Hits(ks: seq<nat>, k: nat, ok: seq<bool>): (n: nat)
    requires |ok| >= |ks|
    ensures n <= |ks|
  {
    if |ks| == 0 then 0
    else Hits(ks[..|ks| - 1], k, ok) + (if ks[|ks| - 1] == k && ok[|ks| - 1] then 1 else 0)
  }

  /** Number of positions naming path k. */
  function Occurrences(ks: seq<nat>, k: nat): (n: nat)
    ensures n <= |ks|
  {
    if |ks| == 0 then 0 else Occurrences(ks[..|ks| - 1], k) + (if ks[|ks| - 1] == k then 1 else 0)
  }

  function Negated(ok: seq<bool>): (r: seq<bool>)
    ensures |r| == |ok| && forall i :: 0 <= i < |ok| ==> r[i] == !ok[i]
  {
    seq(|ok|, i requires 0 <= i < |ok| => !ok[i])
  }

  /** Every occurrence of path k is a success or a failure: the two counters of a path grow
      by its number of occurrences together. */
  lemma {:induction false} HitsSplit(ks: seq<nat>, k: nat, ok: seq<bool>)
    requires |ok| >= |ks|
    ensures Hits(ks, k, ok) + Hits(ks, k, Negated(ok)) == Occurrences(ks, k)
  {
    if |ks| > 0 {
      HitsSplit(ks[..|ks| - 1], k, ok);
    }
  }

  /** A path that does not occur has no successes. */
  lemma {:induction false} HitsAbsent(ks: seq<nat>, k: nat, ok: seq<bool>)
    requires |ok| >= |ks| && k !in ks
    ensures Hits(ks, k, ok) == 0 && Occurrences(ks, k) == 0
  {
    if |ks| > 0 {
      HitsAbsent(ks[..|ks| - 1], k, ok);
    }
  }

  /** Sum of vals[i] over the positions i naming path k. */
  function SumWhere(ks: seq<nat>, k: nat, vals: seq<real>): real
    requires |vals| >= |ks|
  {
    if |ks| == 0 then 0.0
    else SumWhere(ks[..|ks| - 1], k, vals) + (if ks[|ks| - 1] == k then vals[|ks| - 1] else 0.0)
  }

  /** The per-path vector base after adding vals[i] to entry ks[i] for every position i: how
      a counter or total vector grows over one round's selected paths. */
  function Tally(base: seq<real>, ks: seq<nat>, vals: seq<real>): (r: seq<real>)
    requires |vals| >= |ks|
    ensures |r| == |base| && forall k :: 0 <= k < |base| ==> r[k] == base[k] + SumWhere(ks, k, vals)
  {
    seq(|base|, k requires 0 <= k < |base| => base[k] + SumWhere(ks, k, vals))
  }

  /** Processing one more position adds its value to its own entry and to no other. */
  lemma {:induction false} TallyStep(base: seq<real>, ks: seq<nat>, vals: seq<real>, i: nat)
    requires i < |ks| <= |vals| && ks[i] < |base|
    ensures Tally(base, ks[..i + 1], vals) ==
      Tally(base, ks[..i], vals)[ks[i] := Tally(base, ks[..i], vals)[ks[i]] + vals[i]]
  {
    assert ks[..i + 1][..i] == ks[..i];
  }

  /** 1.0 for a success, 0.0 for a failure. */
  function Indicator(ok: seq<bool>): (v: seq<real>)
    ensures |v| == |ok| && forall i :: 0 <= i < |ok| ==> v[i] == (if ok[i] then 1.0 else 0.0)
  {
    seq(|ok|, i requires 0 <= i < |ok| => if ok[i] then 1.0 else 0.0)
  }

  /** Tallying success indicators counts the hits. */
  lemma {:induction false} SumWhereIndicator(ks: seq<nat>, k: nat, ok: seq<bool>)
    requires |ok| >= |ks|
    ensures SumWhere(ks, k, Indicator(ok)) == Hits(ks, k, ok) as real
  {
    if |ks| > 0 {
      SumWhereIndicator(ks[..|ks| - 1], k, ok);
    }
  }

  /** A success counter and a failure counter tallied over the same trials: the first grows
      by the hits of path k, the second by its misses, so together they grow by exactly the
      number of times k was selected, and a path never selected keeps both. */
  lemma {:induction false} CounterPair(succ: seq<real>, fail: seq<real>, ks: seq<nat>, ok: seq<bool>, k: nat)
    requires |ok| >= |ks| && k < |succ| && k < |fail|
    ensures Tally(succ, ks, Indicator(ok))[k] == succ[k] + Hits(ks, k, ok) as real
    ensures Tally(fail, ks, Indicator(Negated(ok)))[k] == fail[k] + (Occurrences(ks, k) - Hits(ks, k, ok)) as real
    ensures k !in ks ==> Tally(succ, ks, Indicator(ok))[k] == succ[k] && Tally(fail, ks, Indicator(Negated(ok)))[k] == fail[k]
  {
    SumWhereIndicator(ks, k, ok);
    SumWhereIndicator(ks, k, Negated(ok));
    HitsSplit(ks, k, ok);
    if k !in ks {
      HitsAbsent(ks, k, ok);
    }
  }

  /** One more trial on a success/failure counter pair: a hit adds one to the success counter
      of its path, a miss one to the failure counter. */
  lemma {:induction false} TrialStep(succ: seq<real>, fail: seq<real>, ks: seq<nat>, ok: seq<bool>, i: nat)
    requires i < |ks| <= |ok| && ks[i] < |succ| && ks[i] < |fail|
    ensures var t, g, k := Tally(succ, ks[..i], Indicator(ok)), Tally(fail, ks[..i], Indicator(Negated(ok))), ks[i];
      if ok[i] then
        Tally(succ, ks[..i + 1], Indicator(ok)) == t[k := t[k] + 1.0] &&
        Tally(fail, ks[..i + 1], Indicator(Negated(ok))) == g
      else
        Tally(succ, ks[..i + 1], Indicator(ok)) == t &&
        Tally(fail, ks[..i + 1], Indicator(Negated(ok))) == g[k := g[k] + 1.0]
  {
    var t, g, k := Tally(succ, ks[..i], Indicator(ok)), Tally(fail, ks[..i], Indicator(Negated(ok))), ks[i];
    TallyStep(succ, ks, Indicator(ok), i);
    TallyStep(fail, ks, Indicator(Negated(ok)), i);
    if ok[i] {
      assert g == g[k := g[k] + 0.0];
    } else {
      assert t == t[k := t[k] + 0.0];
    }
  }

  /** A success counter vector and a failure counter vector tallied over the same trials:
      every trial adds one to exactly one of them, so their combined total grows by the
      number of trials. */
  lemma {:induction false} TallyTotal(succ: seq<real>, fail: seq<real>, ks: seq<nat>, ok: seq<bool>)
    requires |ok| >= |ks| && forall i :: 0 <= i < |ks| ==> ks[i] < |succ| && ks[i] < |fail|
    ensures VectorSum(Tally(succ, ks, Indicator(ok))) + VectorSum(Tally(fail, ks, Indicator(Negated(ok))))
      == VectorSum(succ) + VectorSum(fail) + |ks| as real
  {
    if |ks| == 0 {
      assert Tally(succ, ks, Indicator(ok)) == succ;
      assert Tally(fail, ks, Indicator(Negated(ok))) == fail;
    } else {
      var n := |ks| - 1;
      var init := ks[..n];
      TallyTotal(succ, fail, init, ok);
      TrialStep(succ, fail, ks, ok, n);
      assert ks[..n + 1] == ks;
      var t, g, k := Tally(succ, init, Indicator(ok)), Tally(fail, init, Indicator(Negated(ok))), ks[n];
      if ok[n] {
        VectorSumUpdate(t, k, t[k] + 1.0);
      } else {
        VectorSumUpdate(g, k, g[k] + 1.0);
      }
    }
  }

  /** n copies of v. */
  function Fill<T>(n: nat, v: T): (s: seq<T>)
    ensures |s| == n && forall i :: 0 <= i < n ==> s[i] == v
  {
    seq(n, _ => v)
  }

  lemma {:induction false} SubsetCard(a: set<nat>, b: set<nat>)
    requires a <= b
    ensures |a| <= |b|
  {
    if a != {} {
      var x :| x in a;
      SubsetCard(a - {x}, b - {x});
    }
  }

  /** The elements of a sequence, as a set. */
  function Members(s: seq<nat>): (r: set<nat>)
    ensures forall x :: x in r <==> x in s
  {
    set x | x in s
  }

  lemma {:induction false} DistinctCard(s: seq<nat>)
    requires forall i, j :: 0 <= i < j < |s| ==> s[i] != s[j]
    ensures |Members(s)| == |s|
  {
    if |s| > 0 {
      var init, last := s[..|s| - 1], s[|s| - 1];
      DistinctCard(init);
      assert last !in init by {
        forall i | 0 <= i < |init|
          ensures init[i] != last
        {
          assert init[i] == s[i];
        }
      }
      assert Members(s) == Members(init) + {last} by {
        assert s == init + [last];
      }
    } else {
      assert Members(s) == {};
    }
  }

  /** The numbers 0 .. n - 1. */
  function IndexSet(n: nat): (r: set<nat>)
    ensures forall x: nat :: x in r <==> x < n
  {
    if n == 0 then {} else IndexSet(n - 1) + {n - 1}
  }

  lemma {:induction false} IndexSetCard(n: nat)
    ensures |IndexSet(n)| == n
  {
    if n > 0 {
      IndexSetCard(n - 1);
    }
  }

  /** n + 1 distinct indices below n + 1 include n. */
  lemma {:induction false} TopIndexPresent(idx: seq<nat>, n: nat)
    requires |idx| == n + 1 && forall i :: 0 <= i < |idx| ==> idx[i] <= n
    requires forall i, j :: 0 <= i < j < |idx| ==> idx[i] != idx[j]
    ensures n in idx
  {
    DistinctCard(idx);
    IndexSetCard(n);
    if n !in idx {
      SubsetCard(Members(idx), IndexSet(n));
    }
  }

  /** Picking distributes over concatenation of the index lists. */
  lemma {:induction false} PickAppend(s: seq<real>, a: seq<nat>, b: seq<nat>)
    requires forall i :: 0 <= i < |a| ==> a[i] < |s|
    requires forall i :: 0 <= i < |b| ==> b[i] < |s|
    ensures NewVectorWithIndices(s, a + b) == NewVectorWithIndices(s, a) + NewVectorWithIndices(s, b)
  {
    var ab := a + b;
    assert forall i :: 0 <= i < |ab| ==> ab[i] == if i < |a| then a[i] else b[i - |a|];
  }

  /** Indices inside a prefix pick the same entries from the prefix as from the whole. */
  lemma {:induction false} PickPrefix(s: seq<real>, n: nat, idx: seq<nat>)
    requires n <= |s| && forall i :: 0 <= i < |idx| ==> idx[i] < n
    ensures NewVectorWithIndices(s[..n], idx) == NewVectorWithIndices(s, idx)
  {
  }

  /** idx lists every index below n exactly once. */
  predicate Rearranges(idx: seq<nat>, n: nat)
  {
    |idx| == n && (forall i :: 0 <= i < |idx| ==> idx[i] < n) &&
    forall i, k :: 0 <= i < k < |idx| ==> idx[i] != idx[k]
  }

  /** Taking the top index n out of a rearrangement of 0 .. n leaves a rearrangement of
      0 .. n - 1. */
  lemma {:induction false} WithoutTop(idx: seq<nat>, j: nat, n: nat)
    requires Rearranges(idx, n + 1) && j < |idx| && idx[j] == n
    ensures Rearranges(idx[..j] + idx[j + 1..], n)
  {
    var rest := idx[..j] + idx[j + 1..];
    forall i | 0 <= i < |rest|
      ensures rest[i] == (if i < j then idx[i] else idx[i + 1])
    {
    }
  }

  /** Picking at indices whose j-th is the top index: the picks before it, the top entry, and
      the picks after it. */
  lemma {:induction false} PickAroundTop(s: seq<real>, idx: seq<nat>, j: nat)
    requires |s| > 0 && j < |idx| && idx[j] == |s| - 1
    requires forall i :: 0 <= i < |idx| ==> idx[i] < |s|
    ensures NewVectorWithIndices(s, idx)
         == NewVectorWithIndices(s, idx[..j]) + [s[|s| - 1]] + NewVectorWithIndices(s, idx[j + 1..])
  {
    var front, back := idx[..j], idx[j + 1..];
    assert idx == (front + [idx[j]]) + back;
    PickAppend(s, front + [idx[j]], back);
    PickAppend(s, front, [idx[j]]);
  }

  /** Picking at a rearrangement that puts the top index n at position j: the top entry plus
      the picks of the other indices from the first n entries. */
  lemma {:induction false} PickWithoutTop(s: seq<real>, idx: seq<nat>, j: nat)
    requires |s| > 0 && Rearranges(idx, |s|) && j < |idx| && idx[j] == |s| - 1
    ensures Rearranges(idx[..j] + idx[j + 1..], |s| - 1)
    ensures multiset(NewVectorWithIndices(s, idx))
         == multiset(NewVectorWithIndices(s[..|s| - 1], idx[..j] + idx[j + 1..])) + multiset{s[|s| - 1]}
  {
    var n := |s| - 1;
    var front, back := idx[..j], idx[j + 1..];
    WithoutTop(idx, j, n);
    PickAroundTop(s, idx, j);
    PickPrefix(s, n, front + back);
    PickAppend(s, front, back);
    var pf, pb := NewVectorWithIndices(s, front), NewVectorWithIndices(s, back);
    assert multiset(pf + [s[n]] + pb) == multiset(pf + pb) + multiset{s[n]};
  }

  /** The entries of a non-empty sequence are those of its prefix and its last entry. */
  lemma {:induction false} LastSplit(s: seq<real>)
    requires |s| > 0
    ensures multiset(s) == multiset(s[..|s| - 1]) + multiset{s[|s| - 1]}
  {
    assert s == s[..|s| - 1] + [s[|s| - 1]];
  }

  /** Picking the entries of s at a rearrangement of its indices (every index once) yields the
      same entries, each as often: a sort by index keeps the multiset. */
  lemma {:induction false} PermutedPick(s: seq<real>, idx: seq<nat>)
    requires Rearranges(idx, |s|)
    ensures multiset(NewVectorWithIndices(s, idx)) == multiset(s)
    decreases |s|
  {
    if |s| > 0 {
      var n := |s| - 1;
      TopIndexPresent(idx, n);
      var j :| 0 <= j < |idx| && idx[j] == n;
      var rest := idx[..j] + idx[j + 1..];
      PickWithoutTop(s, idx, j);
      PermutedPick(s[..n], rest);
      LastSplit(s);
    }
  }

  /** Strictly ascending, hence duplicate-free. */
  predicate Ascending(s: seq<nat>)
  {
    forall i, j :: 0 <= i < j < |s| ==> s[i] < s[j]
  }

  /** The indices 0, 1, ..., n - 1 in order. */
  function Iota(n: nat): (r: seq<nat>)
    ensures |r| == n && Ascending(r) && forall i :: 0 <= i < n ==> r[i] == i
  {
    seq(n, i => i)
  }
}
