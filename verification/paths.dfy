/** The simulated paths: a path with fixed metrics and a path whose every component is an
    independent Bernoulli trial around a mean. */
module Paths {
  import opened BanditUtil

  /** The kinds a path reports from `getType`. */
  datatype PathType = FixValue | Bernoulli | Normal | Kernel

  /** A simulated path and the mean metric it was constructed with (`getMeanMetric`). */
  datatype Path = FixValuePath(mean: Metric) | BernoulliPath(mean: Metric)

  /** `getType`: each simulated path reports its own kind, never Normal or Kernel. */
  function Type(p: Path): (t: PathType)
    ensures t == FixValue <==> p.FixValuePath?
    ensures t == Bernoulli <==> p.BernoulliPath?
    ensures t != Normal && t != Kernel
  {
    match p
    case FixValuePath(_) => FixValue
    case BernoulliPath(_) => Bernoulli
  }

  /** Whether a component is a 0/1 outcome that is 1 exactly when its draw is below its mean. */
  predicate TrialOf(x: real, draw: real, mean: real)
  {
    (x == 0.0 || x == 1.0) && (x == 1.0 <==> draw < mean)
  }

  /** `getMeasurement` with the generator read from `pos`, and the position after it. A fixed
      path returns its mean and draws nothing; a Bernoulli path draws three uniforms, in the
      order r, b, l, and each component is the trial of its draw against the matching mean. */
  function Measurement(p: Path, rng: nat -> real, pos: nat): (o: (Metric, nat))
    ensures p.FixValuePath? ==> o == (p.mean, pos)
    ensures p.BernoulliPath? ==> o.1 == pos + 3
    ensures p.BernoulliPath? ==> TrialOf(o.0.r, rng(pos), p.mean.r)
    ensures p.BernoulliPath? ==> TrialOf(o.0.b, rng(pos + 1), p.mean.b)
    ensures p.BernoulliPath? ==> TrialOf(o.0.l, rng(pos + 2), p.mean.l)
  {
    match p
    case FixValuePath(m) => (m, pos)
    case BernoulliPath(m) =>
      (Metric(BernoulliTrial(rng(pos), m.r), BernoulliTrial(rng(pos + 1), m.b), BernoulliTrial(rng(pos + 2), m.l)), pos + 3)
  }

  /** A fixed path measures the same value whatever the generator holds and wherever it
      stands, so repeated measurements agree with each other and with the mean. */
  lemma {:induction false} FixValueRepeats(m: Metric, rng1: nat -> real, pos1: nat, rng2: nat -> real, pos2: nat)
    ensures Measurement(FixValuePath(m), rng1, pos1).0 == Measurement(FixValuePath(m), rng2, pos2).0 == m
  {
  }

  /** A Bernoulli path whose means are 0 or 1 measures them exactly, whatever the draws in
      [0, 1). */
  lemma {:induction false} DegenerateBernoulli(m: Metric, rng: nat -> real, pos: nat)
    requires m.r in {0.0, 1.0} && m.b in {0.0, 1.0} && m.l in {0.0, 1.0}
    requires forall i :: pos <= i < pos + 3 ==> 0.0 <= rng(i) < 1.0
    ensures Measurement(BernoulliPath(m), rng, pos).0 == m
  {
    assert 0.0 <= rng(pos) < 1.0 && 0.0 <= rng(pos + 1) < 1.0 && 0.0 <= rng(pos + 2) < 1.0;
  }

  /** How many uniforms measuring the first n paths draws: three per Bernoulli path. */
  function Draws(paths: seq<Path>, n: nat): nat
    requires n <= |paths|
  {
    if n == 0 then 0 else Draws(paths, n - 1) + (if paths[n - 1].BernoulliPath? then 3 else 0)
  }

  /** The measurements of the first n paths, each reading the generator where the previous
      one left it, and the position after them, which is the same for every generator. */
  function MeasureAll(paths: seq<Path>, rng: nat -> real, pos: nat, n: nat): (o: (seq<Metric>, nat))
    requires n <= |paths|
    ensures |o.0| == n && o.1 == pos + Draws(paths, n)
    ensures forall i :: 0 <= i < n && paths[i].FixValuePath? ==> o.0[i] == paths[i].mean
  {
    if n == 0 then ([], pos)
    else
      var prev := MeasureAll(paths, rng, pos, n - 1);
      var m := Measurement(paths[n - 1], rng, prev.1);
      (prev.0 + [m.0], m.1)
  }
}
