/** Index orderings of the bandit library: `vectorMaxIndices`, `vectorMinIndices` and
    `randomIndices`. All three sort (key, index) pairs, so the order is by key and, between
    equal keys, by index; the result is a prefix of that order. */
module TopIndices {

  /** Index a comes strictly before index b when (keys[a], a) < (keys[b], b) lexicographically. */
  predicate Precedes(keys: seq<real>, a: nat, b: nat)
    requires a < |keys| && b < |keys|
  {
    keys[a] < keys[b] || (keys[a] == keys[b] && a < b)
  }

  predicate InRange(keys: seq<real>, s: seq<nat>)
  {
    forall i :: 0 <= i < |s| ==> s[i] < |keys|
  }

  /** s lists indices in strictly increasing (key, index) order. */
  predicate SortedBy(keys: seq<real>, s: seq<nat>)
    requires InRange(keys, s)
  {
    forall i, j :: 0 <= i < j < |s| ==> Precedes(keys, s[i], s[j])
  }

  function Insert(keys: seq<real>, s: seq<nat>, x: nat): (r: seq<nat>)
    requires x < |keys| && InRange(keys, s) && SortedBy(keys, s) && x !in s
    ensures |r| == |s| + 1 && InRange(keys, r) && SortedBy(keys, r)
    ensures forall y :: y in r <==> y == x || y in s
  {
    if |s| == 0 then [x]
    else if Precedes(keys, x, s[0]) then [x] + s
    else
      var t := Insert(keys, s[1..], x);
      InsertBehindHead(keys, s, x, t);
      [s[0]] + t
  }

  lemma {:induction false} InsertBehindHead(keys: seq<real>, s: seq<nat>, x: nat, t: seq<nat>)
    requires x < |keys| && InRange(keys, s) && SortedBy(keys, s) && x !in s && |s| > 0
    requires !Precedes(keys, x, s[0])
    requires InRange(keys, t) && SortedBy(keys, t)
    requires forall y :: y in t <==> y == x || y in s[1..]
    ensures SortedBy(keys, [s[0]] + t)
  {
    forall j | 0 <= j < |t|
      ensures Precedes(keys, s[0], t[j])
    {
      assert t[j] in t;
      if t[j] != x {
        var k :| 0 <= k < |s[1..]| && s[1..][k] == t[j];
        assert s[k + 1] == t[j];
      }
    }
  }

  /** The indices 0..n-1 sorted by (keys[i], i). */
  function SortIndices(keys: seq<real>, n: nat): (r: seq<nat>)
    requires n <= |keys|
    ensures |r| == n && InRange(keys, r) && SortedBy(keys, r)
    ensures forall k: nat :: k in r <==> k < n
  {
    if n == 0 then [] else Insert(keys, SortIndices(keys, n - 1), n - 1)
  }

  function Min(a: nat, b: nat): nat { if a < b then a else b }

  /** `vectorMinIndices(v, l)`: the first min(l, |v|) indices by ascending value. */
  function VectorMinIndices(v: seq<real>, l: nat): (r: seq<nat>)
    ensures |r| == Min(l, |v|) && InRange(v, r) && SortedBy(v, r)
    ensures forall a, b: nat :: a in r && b < |v| && b !in r ==> Precedes(v, a, b)
  {
    var all := SortIndices(v, |v|);
    var r := all[..Min(l, |v|)];
    forall a: nat, b: nat | a in r && b < |v| && b !in r
      ensures Precedes(v, a, b)
    {
      var i :| 0 <= i < |r| && r[i] == a;
      assert b in all;
      var j :| 0 <= j < |all| && all[j] == b;
    }
    r
  }

  function Negate(v: seq<real>): (w: seq<real>)
    ensures |w| == |v| && forall i :: 0 <= i < |v| ==> w[i] == -v[i]
  {
    seq(|v|, i requires 0 <= i < |v| => -v[i])
  }

  /** Index a comes strictly before b in descending-value order, ties to the lower index. */
  predicate Outranks(v: seq<real>, a: nat, b: nat)
    requires a < |v| && b < |v|
  {
    v[a] > v[b] || (v[a] == v[b] && a < b)
  }

  /** `vectorMaxIndices(v, l)`: the first min(l, |v|) indices by descending value. */
  function VectorMaxIndices(v: seq<real>, l: nat): (r: seq<nat>)
    ensures |r| == Min(l, |v|) && InRange(v, r)
    ensures forall i, j :: 0 <= i < j < |r| ==> Outranks(v, r[i], r[j])
    ensures forall a, b: nat :: a in r && b < |v| && b !in r ==> Outranks(v, a, b)
  {
    var w := Negate(v);
    var r := VectorMinIndices(w, l);
    assert forall a: nat, b: nat :: a < |v| && b < |v| ==> (Precedes(w, a, b) <==> Outranks(v, a, b));
    r
  }

  /** `randomIndices(K)`: 0..K-1 ordered by one uniform draw per index, the draw for index i
      being `rng(pos + i)`. The process-wide generator is the stream `rng`. */
  function RandomIndices(k: nat, rng: nat -> real, pos: nat): (r: seq<nat>)
    ensures |r| == k
    ensures forall x: nat :: x in r <==> x < k
    ensures forall i, j :: 0 <= i < j < |r| ==> r[i] != r[j]
    ensures forall i, j :: 0 <= i < j < |r| ==> rng(pos + r[i]) <= rng(pos + r[j])
  {
    var keys := seq(k, (i: int) => if i < 0 then 0.0 else rng(pos + i));
    SortIndices(keys, k)
  }
}
