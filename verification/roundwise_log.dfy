/** The per-round logs of a simulation: P x T tables of rewards, regrets and violations, and
    the full log of P x T x K measurement sums and selection counts. */
module RoundwiseLogs {
  import opened BanditUtil

  predicate IsTable2<X>(tab: seq<seq<X>>, P: nat, T: nat)
  {
    |tab| == P && forall p :: 0 <= p < P ==> |tab[p]| == T
  }

  predicate IsTable3<X>(tab: seq<seq<seq<X>>>, P: nat, T: nat, K: nat)
  {
    |tab| == P && forall p :: 0 <= p < P ==> IsTable2(tab[p], T, K)
  }

  /** `record` on one table: v added to cell [p][t] and to no other cell. */
  function AddCell(tab: seq<seq<real>>, p: nat, t: nat, v: real): (r: seq<seq<real>>)
    requires p < |tab| && t < |tab[p]|
    ensures |r| == |tab| && forall q :: 0 <= q < |tab| ==> |r[q]| == |tab[q]|
    ensures forall q, s :: 0 <= q < |tab| && 0 <= s < |tab[q]| ==>
      r[q][s] == tab[q][s] + (if q == p && s == t then v else 0.0)
  {
    tab[p := tab[p][t := tab[p][t] + v]]
  }

  /** Two records commute: the table does not depend on the order of the calls. */
  lemma {:induction false} AddCellCommutes(tab: seq<seq<real>>, p1: nat, t1: nat, v1: real, p2: nat, t2: nat, v2: real)
    requires p1 < |tab| && t1 < |tab[p1]| && p2 < |tab| && t2 < |tab[p2]|
    ensures AddCell(AddCell(tab, p1, t1, v1), p2, t2, v2) == AddCell(AddCell(tab, p2, t2, v2), p1, t1, v1)
  {
    var a, b := AddCell(AddCell(tab, p1, t1, v1), p2, t2, v2), AddCell(AddCell(tab, p2, t2, v2), p1, t1, v1);
    forall q | 0 <= q < |tab|
      ensures a[q] == b[q]
    {
      assert |a[q]| == |b[q]|;
      forall s | 0 <= s < |a[q]|
        ensures a[q][s] == b[q][s]
      {
      }
    }
  }

  /** `recordMeasurements` on the table of metric sums: m added componentwise to cell [p][t][i]
      only. */
  function AddMetric(tab: seq<seq<seq<Metric>>>, p: nat, t: nat, i: nat, m: Metric): (r: seq<seq<seq<Metric>>>)
    requires p < |tab| && t < |tab[p]| && i < |tab[p][t]|
    ensures |r| == |tab| && forall q :: 0 <= q < |tab| ==> |r[q]| == |tab[q]|
    ensures forall q, s :: 0 <= q < |tab| && 0 <= s < |tab[q]| ==> |r[q][s]| == |tab[q][s]|
    ensures forall q, s, j :: 0 <= q < |tab| && 0 <= s < |tab[q]| && 0 <= j < |tab[q][s]| ==>
      r[q][s][j] == if q == p && s == t && j == i then Plus(tab[q][s][j], m) else tab[q][s][j]
  {
    tab[p := tab[p][t := tab[p][t][i := Plus(tab[p][t][i], m)]]]
  }

  /** `recordSelectedPaths` on the table of selection counts: cell [p][t][i] grows by one, no
      other cell changes. */
  function AddCount(tab: seq<seq<seq<nat>>>, p: nat, t: nat, i: nat): (r: seq<seq<seq<nat>>>)
    requires p < |tab| && t < |tab[p]| && i < |tab[p][t]|
    ensures |r| == |tab| && forall q :: 0 <= q < |tab| ==> |r[q]| == |tab[q]|
    ensures forall q, s :: 0 <= q < |tab| && 0 <= s < |tab[q]| ==> |r[q][s]| == |tab[q][s]|
    ensures forall q, s, j :: 0 <= q < |tab| && 0 <= s < |tab[q]| && 0 <= j < |tab[q][s]| ==>
      r[q][s][j] == tab[q][s][j] + if q == p && s == t && j == i then 1 else 0
  {
    tab[p := tab[p][t := tab[p][t][i := tab[p][t][i] + 1]]]
  }

  /** `RoundwiseLog`. */
  class RoundwiseLog {
    const P: nat
    const T: nat
    var simulationTimes: nat
    var rewards: seq<seq<real>>
    var regrets: seq<seq<real>>
    var violations: seq<seq<real>>
    var oracleRwReward: real

    ghost predicate Valid()
      reads this
    {
      IsTable2(rewards, P, T) && IsTable2(regrets, P, T) && IsTable2(violations, P, T)
    }

    /** Three P x T tables of zeros, no simulation yet and a zero oracle reward. */
    constructor (P: nat, T: nat)
      ensures Valid() && this.P == P && this.T == T
      ensures rewards == regrets == violations == Fill(P, Fill(T, 0.0))
      ensures simulationTimes == 0 && oracleRwReward == 0.0
    {
      this.P, this.T := P, T;
      rewards, regrets, violations := Fill(P, Fill(T, 0.0)), Fill(P, Fill(T, 0.0)), Fill(P, Fill(T, 0.0));
      simulationTimes, oracleRwReward := 0, 0.0;
    }

    /** `addSimulation`: one more simulation, the tables untouched. */
    method AddSimulation()
      modifies this
      ensures simulationTimes == old(simulationTimes) + 1
      ensures rewards == old(rewards) && regrets == old(regrets) && violations == old(violations)
      ensures oracleRwReward == old(oracleRwReward)
    {
      simulationTimes := simulationTimes + 1;
    }

    /** `record(p, t, reward, regret, violation)`: each value is added to cell [p][t] of its
        table and nothing else changes. */
    method Record(p: nat, t: nat, reward: real, regret: real, violation: real)
      requires Valid() && p < P && t < T
      modifies this
      ensures Valid()
      ensures rewards == AddCell(old(rewards), p, t, reward)
      ensures regrets == AddCell(old(regrets), p, t, regret)
      ensures violations == AddCell(old(violations), p, t, violation)
      ensures simulationTimes == old(simulationTimes) && oracleRwReward == old(oracleRwReward)
    {
      rewards := AddCell(rewards, p, t, reward);
      regrets := AddCell(regrets, p, t, regret);
      violations := AddCell(violations, p, t, violation);
    }
  }

  /** `RoundwiseFullLog`; in forever mode it keeps nothing. */
  class RoundwiseFullLog {
    const P: nat
    const T: nat
    const K: nat
    const forever: bool
    var simulationTimes: nat
    var metrics: seq<seq<seq<Metric>>>
    var counts: seq<seq<seq<nat>>>

    ghost predicate Valid()
      reads this
    {
      !forever ==> IsTable3(metrics, P, T, K) && IsTable3(counts, P, T, K)
    }

    /** Outside forever mode: P x T x K zero metrics, zero counts and no simulation. In forever
        mode the tables stay empty and the simulation counter is left uninitialised. */
    constructor (P: nat, T: nat, K: nat, isForever: bool)
      ensures Valid() && this.P == P && this.T == T && this.K == K && forever == isForever
      ensures !forever ==> metrics == Fill(P, Fill(T, Fill(K, Metric(0.0, 0.0, 0.0))))
      ensures !forever ==> counts == Fill(P, Fill(T, Fill<nat>(K, 0))) && simulationTimes == 0
      ensures forever ==> metrics == [] && counts == []
    {
      this.P, this.T, this.K, forever := P, T, K, isForever;
      if !isForever {
        metrics := Fill(P, Fill(T, Fill(K, Metric(0.0, 0.0, 0.0))));
        counts := Fill(P, Fill(T, Fill<nat>(K, 0)));
        simulationTimes := 0;
      } else {
        metrics, counts := [], [];
      }
    }

    /** `addSimulation`: one more simulation outside forever mode, no change in it. */
    method AddSimulation()
      modifies this
      ensures simulationTimes == if forever then old(simulationTimes) else old(simulationTimes) + 1
      ensures metrics == old(metrics) && counts == old(counts)
    {
      if !forever {
        simulationTimes := simulationTimes + 1;
      }
    }

    /** `recordMeasurements(p, t, i, m)`: outside forever mode m is added to cell [p][t][i]. */
    method RecordMeasurements(p: nat, t: nat, i: nat, m: Metric)
      requires Valid() && (!forever ==> p < P && t < T && i < K)
      modifies this
      ensures Valid() && counts == old(counts) && simulationTimes == old(simulationTimes)
      ensures metrics == if forever then old(metrics) else AddMetric(old(metrics), p, t, i, m)
    {
      if !forever {
        metrics := AddMetric(metrics, p, t, i, m);
      }
    }

    /** `recordSelectedPaths(p, t, i)`: outside forever mode cell [p][t][i] counts one more
        selection. */
    method RecordSelectedPaths(p: nat, t: nat, i: nat)
      requires Valid() && (!forever ==> p < P && t < T && i < K)
      modifies this
      ensures Valid() && metrics == old(metrics) && simulationTimes == old(simulationTimes)
      ensures counts == if forever then old(counts) else AddCount(old(counts), p, t, i)
    {
      if !forever {
        counts := AddCount(counts, p, t, i);
      }
    }
  }
}
