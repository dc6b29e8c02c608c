/** The user-space side of the kernel interface: normalising the raw per-subflow counters the
    kernel reports, retrying until enough subflows report, and mapping selected path indices to
    kernel path ids. The ioctl calls themselves are inputs. */
module KernelUtil {
  import opened Wrappers
  import opened BanditUtil

  /** `MAX_NUM_PATHS`: the length of the arrays handed to the kernel. */
  const MaxNumPaths: nat := 64

  /** 2^32, the modulus of `uint` arithmetic. */
  const Word: nat := 0x1_0000_0000

  /** What one `OLMS_IOC_GET_RTT` request yields: the ioctl's return value, the count the
      kernel reports in `args.len`, and the raw rtt, bandwidth and loss arrays after it. */
  datatype RttReply = RttReply(ret: int, len: nat, rtt: seq<nat>, bw: seq<nat>, loss: seq<nat>)

  /** The kernel fills at most `MAX_NUM_PATHS` entries of arrays of that length. */
  predicate WellFormed(r: RttReply)
  {
    r.len <= MaxNumPaths && |r.rtt| == |r.bw| == |r.loss| == MaxNumPaths
  }

  function MinReal(a: real, b: real): real { if a <= b then a else b }

  /** Relative rtt: raw / max_rtt clamped to at most 1; a zero `max_rtt` makes the quotient
      +infinity, which the clamp turns into 1. */
  function RttShare(rtt: nat, maxRtt: nat): (r: real)
    requires rtt > 0
    ensures 0.0 < r <= 1.0
    ensures r == 1.0 <==> rtt >= maxRtt
  {
    if maxRtt == 0 then 1.0 else MinReal(rtt as real / maxRtt as real, 1.0)
  }

  /** Relative bandwidth raw / max_btlbw, not clamped. */
  function BwShare(bw: nat, maxBtlbw: nat): real
  {
    if maxBtlbw == 0 then 0.0 else bw as real / maxBtlbw as real
  }

  /** Loss rate: lost / delivered, or 0 when nothing was delivered. */
  function LossRate(loss: nat, delivered: nat): (r: real)
    ensures delivered == 0 ==> r == 0.0
    ensures delivered > 0 ==> r * delivered as real == loss as real
  {
    if delivered == 0 then 0.0 else loss as real / delivered as real
  }

  /** The entries among the first n whose raw rtt is not zero. */
  function Live(rtt: seq<nat>, n: nat): (r: seq<nat>)
    requires n <= |rtt|
  {
    if n == 0 then [] else Live(rtt, n - 1) + if rtt[n - 1] != 0 then [n - 1] else []
  }

  /** The live entries are exactly the non-zero raw rtts, in ascending order. */
  lemma {:induction false} LiveMeaning(rtt: seq<nat>, n: nat)
    requires n <= |rtt|
    ensures forall k, j :: 0 <= k < j < |Live(rtt, n)| ==> Live(rtt, n)[k] < Live(rtt, n)[j]
    ensures forall x: nat :: x in Live(rtt, n) <==> x < n && rtt[x] != 0
  {
    if n > 0 {
      LiveMeaning(rtt, n - 1);
      var prev := Live(rtt, n - 1);
      assert Live(rtt, n) == prev + if rtt[n - 1] != 0 then [n - 1] else [];
      forall k | 0 <= k < |prev|
        ensures prev[k] < n - 1
      {
        assert prev[k] in prev;
      }
    }
  }

  /** The normalised rtts of the live entries among the first n. */
  function RelRtt(rtt: seq<nat>, n: nat, maxRtt: nat): seq<real>
    requires n <= |rtt|
  {
    if n == 0 then [] else RelRtt(rtt, n - 1, maxRtt) + if rtt[n - 1] != 0 then [RttShare(rtt[n - 1], maxRtt)] else []
  }

  /** The normalised bandwidths of the live entries among the first n. */
  function RelBw(rtt: seq<nat>, bw: seq<nat>, n: nat, maxBtlbw: nat): seq<real>
    requires n <= |rtt| && n <= |bw|
  {
    if n == 0 then [] else RelBw(rtt, bw, n - 1, maxBtlbw) + if rtt[n - 1] != 0 then [BwShare(bw[n - 1], maxBtlbw)] else []
  }

  /** The loss rates of the live entries among the first n. */
  function RelLoss(rtt: seq<nat>, loss: seq<nat>, delivered: seq<nat>, n: nat): seq<real>
    requires n <= |rtt| && n <= |loss| && n <= |delivered|
  {
    if n == 0 then [] else RelLoss(rtt, loss, delivered, n - 1) + if rtt[n - 1] != 0 then [LossRate(loss[n - 1], delivered[n - 1])] else []
  }

  /** One normalised value per live entry in each vector, so the three always have equal
      length; every relative rtt lies in (0, 1]; and with nothing delivered every loss rate is
      zero. */
  lemma {:induction false} RelativeShape(rtt: seq<nat>, bw: seq<nat>, loss: seq<nat>, delivered: seq<nat>,
                                         n: nat, maxRtt: nat, maxBtlbw: nat)
    requires n <= |rtt| && n <= |bw| && n <= |loss| && n <= |delivered|
    ensures |RelRtt(rtt, n, maxRtt)| == |RelBw(rtt, bw, n, maxBtlbw)| == |RelLoss(rtt, loss, delivered, n)| == |Live(rtt, n)|
    ensures forall k :: 0 <= k < |RelRtt(rtt, n, maxRtt)| ==> 0.0 < RelRtt(rtt, n, maxRtt)[k] <= 1.0
    ensures (forall i :: 0 <= i < n ==> delivered[i] == 0) ==>
      RelLoss(rtt, loss, delivered, n) == Fill(|Live(rtt, n)|, 0.0)
  {
    if n > 0 {
      RelativeShape(rtt, bw, loss, delivered, n - 1, maxRtt, maxBtlbw);
    }
  }

  /** `getNumPaths`: the reported count, or 0 when the ioctl fails. */
  function NumPaths(ret: int, len: nat): nat
  {
    if ret == -1 then 0 else len
  }

  /** `setPreferredPaths`' id mapping: user path i becomes kernel id (K + 1) * i in `uint`
      arithmetic. */
  function PreferredIds(sel: seq<nat>, K: nat): (ids: seq<nat>)
    ensures |ids| == |sel| && forall j :: 0 <= j < |sel| ==> ids[j] < Word
  {
    seq(|sel|, j requires 0 <= j < |sel| => ((K + 1) % Word) * sel[j] % Word)
  }

  lemma {:induction false} MulAtLeast(a: nat, d: nat)
    requires d >= 1
    ensures a * d >= a
  {
    if d > 1 {
      MulAtLeast(a, d - 1);
      assert a * d == a * (d - 1) + a;
    }
  }

  lemma {:induction false} MultipleDivides(a: nat, b: nat)
    requires a > 0
    ensures (a * b) / a == b && (a * b) % a == 0
  {
    var q, r := (a * b) / a, (a * b) % a;
    assert a * b == a * q + r && 0 <= r < a;
    if q < b {
      MulAtLeast(a, b - q);
      assert false;
    } else if q > b {
      MulAtLeast(a, q - b);
      assert false;
    }
  }

  /** Without overflow the mapping is invertible: each kernel id is a multiple of K + 1 and
      dividing by K + 1 gives the user path back, in the same order and count. */
  lemma {:induction false} PreferredIdsDecode(sel: seq<nat>, K: nat)
    requires K + 1 < Word && forall j :: 0 <= j < |sel| ==> (K + 1) * sel[j] < Word
    ensures forall j :: 0 <= j < |sel| ==> PreferredIds(sel, K)[j] % (K + 1) == 0 && PreferredIds(sel, K)[j] / (K + 1) == sel[j]
  {
    forall j | 0 <= j < |sel|
      ensures PreferredIds(sel, K)[j] % (K + 1) == 0 && PreferredIds(sel, K)[j] / (K + 1) == sel[j]
    {
      assert PreferredIds(sel, K)[j] == (K + 1) * sel[j];
      MultipleDivides(K + 1, sel[j]);
    }
  }

  /** `OLMSKernel`: the latest normalised measurements and the bounds they are normalised by. */
  class OlmsKernel {
    var rvec: seq<real>
    var bvec: seq<real>
    var lvec: seq<real>
    var numPaths: nat
    var maxRtt: nat
    var maxBtlbw: nat

    ghost predicate Valid()
      reads this
    {
      |rvec| == |bvec| == |lvec|
    }

    /** `MAX_NUM_PATHS` zeros in each vector and a zero `max_rtt`; the device is opened by the
        source here, which is not part of this model. */
    constructor ()
      ensures Valid() && rvec == bvec == lvec == Fill(MaxNumPaths, 0.0) && maxRtt == 0
    {
      rvec, bvec, lvec := Fill(MaxNumPaths, 0.0), Fill(MaxNumPaths, 0.0), Fill(MaxNumPaths, 0.0);
      maxRtt := 0;
    }

    method SetNumPaths(v: nat)
      modifies this
      ensures numPaths == v && rvec == old(rvec) && bvec == old(bvec) && lvec == old(lvec)
      ensures maxRtt == old(maxRtt) && maxBtlbw == old(maxBtlbw)
    {
      numPaths := v;
    }

    method SetMaxRtt(v: nat)
      modifies this
      ensures maxRtt == v && rvec == old(rvec) && bvec == old(bvec) && lvec == old(lvec)
      ensures numPaths == old(numPaths) && maxBtlbw == old(maxBtlbw)
    {
      maxRtt := v;
    }

    method SetMaxBtlbw(v: nat)
      modifies this
      ensures maxBtlbw == v && rvec == old(rvec) && bvec == old(bvec) && lvec == old(lvec)
      ensures numPaths == old(numPaths) && maxRtt == old(maxRtt)
    {
      maxBtlbw := v;
    }

    /** The normalising loop of `fetchMeasurements` over one reply: entries with a zero raw
        rtt are skipped, the others pushed in order. The delivered counts are never handed to
        the kernel, so they stay zero. */
    static method Normalise(reply: RttReply, delivered: seq<nat>, maxRtt: nat, maxBtlbw: nat)
      returns (rs: seq<real>, bs: seq<real>, ls: seq<real>)
      requires WellFormed(reply) && |delivered| == MaxNumPaths
      ensures rs == RelRtt(reply.rtt, reply.len, maxRtt)
      ensures bs == RelBw(reply.rtt, reply.bw, reply.len, maxBtlbw)
      ensures ls == RelLoss(reply.rtt, reply.loss, delivered, reply.len)
    {
      rs, bs, ls := [], [], [];
      for i := 0 to reply.len
        invariant rs == RelRtt(reply.rtt, i, maxRtt)
        invariant bs == RelBw(reply.rtt, reply.bw, i, maxBtlbw)
        invariant ls == RelLoss(reply.rtt, reply.loss, delivered, i)
      {
        var rtt := reply.rtt[i];
        if rtt == 0 {
          continue;
        }
        var rttFloat := if maxRtt == 0 then 1.0 else rtt as real / maxRtt as real;
        if rttFloat > 1.0 {
          rttFloat := 1.0;
        }
        rs := rs + [rttFloat];
        bs := bs + [BwShare(reply.bw[i], maxBtlbw)];
        if delivered[i] == 0 {
          ls := ls + [0.0];
        } else {
          ls := ls + [reply.loss[i] as real / delivered[i] as real];
        }
      }
    }

    /** `fetchMeasurements`, given the `OLMS_IOC_NUMPATHS` outcome and the successive
        `OLMS_IOC_GET_RTT` replies. No subflow: -2 and nothing requested. A failing request:
        its return value and no change. Otherwise the request repeats until a reply carries at
        least `num_paths` live entries, whose normalised values then replace the vectors (None
        when the given replies run out first). `max_rtt` is never raised from the data. */
    method FetchMeasurements(numRet: int, numLen: nat, replies: seq<RttReply>)
      returns (status: Option<int>, used: nat)
      requires Valid()
      requires forall k :: 0 <= k < |replies| ==>
        replies[k].len <= MaxNumPaths && |replies[k].rtt| == |replies[k].bw| == |replies[k].loss| == MaxNumPaths
      modifies this
      ensures Valid() && maxRtt == old(maxRtt) && maxBtlbw == old(maxBtlbw) && numPaths == old(numPaths)
      ensures used <= |replies|
      ensures forall k :: 0 <= k < used - 1 ==>
        replies[k].ret >= 0 && |Live(replies[k].rtt, replies[k].len)| < NumPaths(numRet, numLen)
      ensures NumPaths(numRet, numLen) == 0 ==> status == Some(-2) && used == 0
      ensures status.None? ==> used == |replies|
      ensures NumPaths(numRet, numLen) > 0 && status.Some? ==> used > 0 && status.value <= 0
      ensures NumPaths(numRet, numLen) > 0 && status.Some? && status.value < 0 ==> status.value == replies[used - 1].ret
      ensures status == Some(0) ==>
        var r := replies[used - 1];
        r.ret >= 0 && |Live(r.rtt, r.len)| >= NumPaths(numRet, numLen) &&
        rvec == RelRtt(r.rtt, r.len, maxRtt) && bvec == RelBw(r.rtt, r.bw, r.len, maxBtlbw) &&
        lvec == Fill(|rvec|, 0.0)
      ensures status != Some(0) ==> rvec == old(rvec) && bvec == old(bvec) && lvec == old(lvec)
    {
      var n := NumPaths(numRet, numLen);
      if n == 0 {
        return Some(-2), 0;
      }
      var delivered: seq<nat> := Fill(MaxNumPaths, 0);
      used := 0;
      while used < |replies|
        invariant used <= |replies|
        invariant forall k :: 0 <= k < used ==> replies[k].ret >= 0 && |Live(replies[k].rtt, replies[k].len)| < n
        invariant rvec == old(rvec) && bvec == old(bvec) && lvec == old(lvec)
        invariant maxRtt == old(maxRtt) && maxBtlbw == old(maxBtlbw) && numPaths == old(numPaths)
      {
        var reply := replies[used];
        used := used + 1;
        if reply.ret < 0 {
          return Some(reply.ret), used;
        }
        var rs, bs, ls := Normalise(reply, delivered, maxRtt, maxBtlbw);
        RelativeShape(reply.rtt, reply.bw, reply.loss, Fill(MaxNumPaths, 0), reply.len, maxRtt, maxBtlbw);
        if |rs| >= n {
          rvec, bvec, lvec := rs, bs, ls;
          return Some(0), used;
        }
      }
      return None, used;
    }

    /** `setPreferredPaths(sel, K)`: sends the kernel ids of the selected paths, in order, and
        returns the ioctl's error or the number of ids sent. */
    method SetPreferredPaths(sel: seq<nat>, K: nat, ret: int) returns (ids: seq<nat>, status: int)
      ensures ids == PreferredIds(sel, K)
      ensures status == if ret < 0 then ret else |sel|
    {
      ids := [];
      for j := 0 to |sel|
        invariant ids == PreferredIds(sel[..j], K)
      {
        ids := ids + [((K + 1) % Word) * sel[j] % Word];
      }
      assert sel[..|sel|] == sel;
      status := if ret < 0 then ret else |ids|;
    }
  }
}
