/** The random policy: l distinct paths drawn uniformly, reported in ascending order; it keeps
    no state between rounds. */
module RandomPolicy {
  import opened Wrappers
  import opened BanditUtil

  /** The paths named by the draws pos .. pos + n - 1. */
  function Drawn(draw: nat -> nat, pos: nat, n: nat): set<nat>
  {
    if n == 0 then {} else Drawn(draw, pos, n - 1) + {draw(pos + n - 1)}
  }

  lemma {:induction false} DrawnNext(draw: nat -> nat, pos: nat, n: nat)
    ensures Drawn(draw, pos, n + 1) == Drawn(draw, pos, n) + {draw(pos + n)}
  {
  }

  /** A path is among the drawn ones exactly when one of the n draws names it. */
  lemma {:induction false} DrawnMeaning(draw: nat -> nat, pos: nat, n: nat, x: nat)
    ensures x in Drawn(draw, pos, n) <==> exists i :: pos <= i < pos + n && draw(i) == x
  {
    if n > 0 {
      DrawnMeaning(draw, pos, n - 1, x);
    }
  }

  /** Draws below K name paths below K. */
  lemma {:induction false} DrawnBelow(draw: nat -> nat, pos: nat, n: nat, k: nat)
    requires forall i :: pos <= i < pos + n ==> draw(i) < k
    ensures forall x :: x in Drawn(draw, pos, n) ==> x < k
  {
    if n > 0 {
      DrawnBelow(draw, pos, n - 1, k);
    }
  }

  /** Draws of paths below K name at most K distinct paths. */
  lemma {:induction false} DrawnBound(draw: nat -> nat, pos: nat, n: nat, k: nat)
    requires forall i :: pos <= i < pos + n ==> draw(i) < k
    ensures |Drawn(draw, pos, n)| <= k
  {
    DrawnBelow(draw, pos, n, k);
    assert Drawn(draw, pos, n) <= IndexSet(k);
    IndexSetCard(k);
    SubsetCard(Drawn(draw, pos, n), IndexSet(k));
  }

  class Random {
    const K: nat

    constructor (K: nat)
      ensures this.K == K
    {
      this.K := K;
    }

    /** `selectNextPaths(l)`: draws paths (draw i is the uniform integer from [0, K - 1] of the
        generator's i-th step) into a map until it holds l keys, then reads the keys off in
        order. The source loops for ever when l > K; the model stops after `maxDraws` draws
        with None. Success returns l distinct paths below K in ascending order, exactly the
        paths drawn, and stops at the first draw that completes them. */
    method SelectNextPaths(l: nat, draw: nat -> nat, pos: nat, maxDraws: nat)
      returns (r: Option<seq<nat>>, next: nat)
      requires l > 0 ==> forall i :: pos <= i ==> draw(i) < K
      ensures pos <= next <= pos + maxDraws
      ensures r.Some? ==> l <= K && |r.value| == l && Ascending(r.value)
      ensures r.Some? ==> forall i :: 0 <= i < |r.value| ==> r.value[i] < K
      ensures r.Some? ==> Members(r.value) == Drawn(draw, pos, next - pos)
      ensures r.Some? && next > pos ==> |Drawn(draw, pos, next - pos - 1)| < l
      ensures r.None? ==> next == pos + maxDraws && |Drawn(draw, pos, maxDraws)| < l
    {
      var chosen;
      chosen, next := DrawUntil(l, draw, pos, maxDraws);
      if |chosen| < l {
        return None, next;
      }
      if l > 0 {
        DrawnBound(draw, pos, next - pos, K);
        DrawnBelow(draw, pos, next - pos, K);
      }
      var paths := InOrder(chosen, K);
      DistinctCard(paths);
      r := Some(paths);
    }

    /** The draw loop: adds drawn paths to the map until it holds l keys or the draws run out. */
    static method DrawUntil(l: nat, draw: nat -> nat, pos: nat, maxDraws: nat) returns (chosen: set<nat>, next: nat)
      ensures pos <= next <= pos + maxDraws
      ensures chosen == Drawn(draw, pos, next - pos) && |chosen| <= l
      ensures |chosen| < l ==> next == pos + maxDraws
      ensures next > pos ==> |Drawn(draw, pos, next - pos - 1)| < l
    {
      chosen := {};
      var n := 0;
      ghost var previous: set<nat> := {};
      while |chosen| < l && n < maxDraws
        invariant n <= maxDraws && chosen == Drawn(draw, pos, n) && |chosen| <= l
        invariant n > 0 ==> previous == Drawn(draw, pos, n - 1) && |previous| < l
        decreases maxDraws - n
      {
        var x := draw(pos + n);
        DrawnNext(draw, pos, n);
        if x !in chosen {
          assert |chosen + {x}| == |chosen| + 1;
        }
        previous := chosen;
        chosen := chosen + {x};
        n := n + 1;
      }
      next := pos + n;
      assert next - pos == n;
    }

    /** The keys of the map in ascending order, by scanning 0 .. K - 1. */
    static method InOrder(chosen: set<nat>, K: nat) returns (paths: seq<nat>)
      requires forall x :: x in chosen ==> x < K
      ensures Ascending(paths) && Members(paths) == chosen
      ensures forall i :: 0 <= i < |paths| ==> paths[i] < K
    {
      paths := [];
      for k := 0 to K
        invariant Ascending(paths) && forall i :: 0 <= i < |paths| ==> paths[i] < k
        invariant forall x :: x in paths <==> x in chosen && x < k
      {
        if k in chosen {
          paths := paths + [k];
        }
      }
    }

    /** `updateState`: the policy remembers nothing, so the method has an empty frame. */
    method UpdateState(sel: seq<nat>, rs: seq<Metric>)
    {
    }
  }
}
