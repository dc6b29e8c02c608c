/** The Beta-posterior update shared by the constrained Thompson-sampling policies: for each
    selected path, one uniform draw per signal decides a Bernoulli trial against the measured
    value, and the success or the failure counter of that path grows by one. */
module BetaTrials {
  import opened BanditUtil

  /** The measured component a counter pair follows. */
  datatype Signal = Bw | Rtt | Loss

  function Read(m: Metric, s: Signal): real
  {
    match s
    case Bw => m.b
    case Rtt => m.r
    case Loss => m.l
  }

  /** The component s of every measurement. */
  function Readings(ms: seq<Metric>, s: Signal): (v: seq<real>)
    ensures |v| == |ms| && forall i :: 0 <= i < |ms| ==> v[i] == Read(ms[i], s)
  {
    seq(|ms|, i requires 0 <= i < |ms| => Read(ms[i], s))
  }

  /** Outcome of the trial on signal s of the i-th selected entry, when that trial reads draw
      pos + 2i + offset of the generator. */
  function TrialOutcomes(ms: seq<Metric>, rng: nat -> real, pos: nat, s: Signal, offset: nat): (ok: seq<bool>)
    ensures |ok| == |ms|
    ensures forall i :: 0 <= i < |ms| ==> ok[i] == (rng(pos + 2 * i + offset) < Read(ms[i], s))
  {
    seq(|ms|, i requires 0 <= i < |ms| => rng(pos + 2 * i + offset) < Read(ms[i], s))
  }

  /** The loop body of `updateState` of ConMPTS-Latency, -Bandwidth and -Loss, on the two
      counter pairs it changes: entry i draws pos + 2i for the `first` signal and pos + 2i + 1
      for the `second`. Every counter vector ends as its tally over the trials' outcomes. */
  method PairedTrials(s1: seq<real>, f1: seq<real>, s2: seq<real>, f2: seq<real>,
                      sel: seq<nat>, ms: seq<Metric>, rng: nat -> real, pos: nat,
                      first: Signal, second: Signal)
    returns (t1: seq<real>, g1: seq<real>, t2: seq<real>, g2: seq<real>, next: nat)
    requires |s1| == |f1| == |s2| == |f2| && |ms| >= |sel|
    requires forall i :: 0 <= i < |sel| ==> sel[i] < |s1|
    ensures next == pos + 2 * |sel|
    ensures t1 == Tally(s1, sel, Indicator(TrialOutcomes(ms, rng, pos, first, 0)))
    ensures g1 == Tally(f1, sel, Indicator(Negated(TrialOutcomes(ms, rng, pos, first, 0))))
    ensures t2 == Tally(s2, sel, Indicator(TrialOutcomes(ms, rng, pos, second, 1)))
    ensures g2 == Tally(f2, sel, Indicator(Negated(TrialOutcomes(ms, rng, pos, second, 1))))
  {
    ghost var ok1 := TrialOutcomes(ms, rng, pos, first, 0);
    ghost var ok2 := TrialOutcomes(ms, rng, pos, second, 1);
    t1, g1, t2, g2, next := s1, f1, s2, f2, pos;
    for i := 0 to |sel|
      invariant next == pos + 2 * i
      invariant t1 == Tally(s1, sel[..i], Indicator(ok1))
      invariant g1 == Tally(f1, sel[..i], Indicator(Negated(ok1)))
      invariant t2 == Tally(s2, sel[..i], Indicator(ok2))
      invariant g2 == Tally(f2, sel[..i], Indicator(Negated(ok2)))
    {
      var k := sel[i];
      var measurement := ms[i];
      var rand1 := rng(next);
      var rand2 := rng(next + 1);
      next := next + 2;
      var trial1 := BernoulliTrial(rand1, Read(measurement, first));
      var trial2 := BernoulliTrial(rand2, Read(measurement, second));
      assert trial1 > 0.5 <==> ok1[i];
      assert trial2 > 0.5 <==> ok2[i];
      TrialStep(s1, f1, sel, ok1, i);
      TrialStep(s2, f2, sel, ok2, i);
      if trial1 > 0.5 {
        t1 := t1[k := t1[k] + 1.0];
      } else {
        g1 := g1[k := g1[k] + 1.0];
      }
      if trial2 > 0.5 {
        t2 := t2[k := t2[k] + 1.0];
      } else {
        g2 := g2[k := g2[k] + 1.0];
      }
    }
    assert sel[..|sel|] == sel;
  }
}
