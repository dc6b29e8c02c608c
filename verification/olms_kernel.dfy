/** The scheduling rules of the kernel module: which subflow gets the next segment, when a
    subflow is temporarily unavailable, how a user path index maps to a kernel path id, the
    preference bitmask, and the ioctl command check. Kernel socket state is given as records;
    `u32` arithmetic is written out modulo 2^32. */
module OlmsKernelModule {
  import opened Wrappers

  /** 2^32 and the largest `u32`, the "no srtt yet" sentinel. */
  const Word: nat := 0x1_0000_0000
  const U32Max: nat := 0xffff_ffff

  /** Bits in an `unsigned long` bitmask. */
  const LongBits: nat := 64

  type u32 = x: nat | x < 0x1_0000_0000

  function Add32(a: u32, b: u32): u32 { (a + b) % Word }
  function Sub32(a: u32, b: u32): u32 { (a - b) % Word }
  function Mul32(a: u32, b: u32): u32 { (a * b) % Word }
  function Min32(a: u32, b: u32): u32 { if a <= b then a else b }

  /** `before(seq1, seq2)`: the signed 32-bit difference seq1 - seq2 is negative. */
  predicate Before(seq1: u32, seq2: u32)
  {
    Sub32(seq1, seq2) >= 0x8000_0000
  }

  predicate After(seq1: u32, seq2: u32)
  {
    Before(seq2, seq1)
  }

  /** The parts of a subflow's TCP state the availability test reads. */
  datatype TcpState = TcpState(
    caLoss: bool, reno: bool, sndUna: u32, highSeq: u32,
    fullyEstablished: bool, secondPacket: bool, lastEndDataSeq: u32,
    inFlight: u32, cwnd: u32, mssCache: u32, writeSeq: u32, sndNxt: u32, wndEnd: u32, mssNow: u32)

  /** A segment: its sequence number, its length and the path indices it was already sent on. */
  datatype Skb = Skb(startSeq: u32, len: u32, pathMask: set<nat>)

  /** `mptcp_olms_is_temp_unavailable`: the subflow may not take the segment now. */
  function TempUnavailable(t: TcpState, skb: Option<Skb>, zeroWndTest: bool): (u: bool)
    ensures t.inFlight >= t.cwnd ==> u
    ensures t.caLoss && !t.reno ==> u
    ensures !u ==> t.inFlight < t.cwnd && Sub32(t.writeSeq, t.sndNxt) <= Mul32(t.cwnd - t.inFlight, t.mssCache)
    ensures !u && zeroWndTest ==> Before(t.writeSeq, t.wndEnd)
  {
    if t.caLoss && (!t.reno || t.sndUna != t.highSeq) then true
    else if !t.fullyEstablished && skb.Some? && t.secondPacket && t.lastEndDataSeq != skb.value.startSeq then true
    else if t.inFlight >= t.cwnd then true
    else if Sub32(t.writeSeq, t.sndNxt) > Mul32(t.cwnd - t.inFlight, t.mssCache) then true
    else if zeroWndTest && !Before(t.writeSeq, t.wndEnd) then true
    else if skb.Some? && zeroWndTest && After(Add32(t.writeSeq, Min32(skb.value.len, t.mssNow)), t.wndEnd) then true
    else false
  }

  /** A subflow as the selector loop sees it: whether the selector wants it, its path index,
      whether it is definitely unavailable, its TCP state and its smoothed rtt. */
  datatype Subflow = Subflow(wanted: bool, pathIndex: nat, defUnavailable: bool, tcp: TcpState, srtt: u32)

  /** The segment was not yet sent on this subflow. */
  predicate Unused(s: Subflow, skb: Option<Skb>)
  {
    !(skb.Some? && s.pathIndex in skb.value.pathMask)
  }

  /** Wanted by the selector and neither definitely nor temporarily unavailable. */
  predicate Eligible(s: Subflow, skb: Option<Skb>, zeroWndTest: bool)
  {
    s.wanted && !s.defUnavailable && !TempUnavailable(s.tcp, skb, zeroWndTest)
  }

  predicate FreshEligible(s: Subflow, skb: Option<Skb>, zeroWndTest: bool)
  {
    Eligible(s, skb, zeroWndTest) && Unused(s, skb)
  }

  /** Wanted, unused, not definitely unavailable, but temporarily unavailable. */
  predicate BlockedUnused(s: Subflow, skb: Option<Skb>, zeroWndTest: bool)
  {
    s.wanted && Unused(s, skb) && !s.defUnavailable && TempUnavailable(s.tcp, skb, zeroWndTest)
  }

  /** Some eligible unused subflow among the first n. */
  predicate AnyFresh(subs: seq<Subflow>, n: nat, skb: Option<Skb>, zeroWndTest: bool)
    requires n <= |subs|
  {
    n > 0 && (AnyFresh(subs, n - 1, skb, zeroWndTest) || FreshEligible(subs[n - 1], skb, zeroWndTest))
  }

  /** AnyFresh means what it says: some k < n is eligible and unused. */
  lemma {:induction false} AnyFreshMeaning(subs: seq<Subflow>, n: nat, skb: Option<Skb>, zeroWndTest: bool)
    requires n <= |subs|
    ensures AnyFresh(subs, n, skb, zeroWndTest) <==> exists k :: 0 <= k < n && FreshEligible(subs[k], skb, zeroWndTest)
  {
    if n > 0 {
      AnyFreshMeaning(subs, n - 1, skb, zeroWndTest);
      if FreshEligible(subs[n - 1], skb, zeroWndTest) {
        assert 0 <= n - 1 < n;
      }
    }
  }

  /** Some temporarily unavailable unused subflow among the first n. */
  predicate AnyBlocked(subs: seq<Subflow>, n: nat, skb: Option<Skb>, zeroWndTest: bool)
    requires n <= |subs|
  {
    n > 0 && (AnyBlocked(subs, n - 1, skb, zeroWndTest) || BlockedUnused(subs[n - 1], skb, zeroWndTest))
  }

  /** The subflows competing for the segment: the eligible unused ones when there are any
      (`onlyUnused`), else all eligible ones. */
  predicate InPool(s: Subflow, onlyUnused: bool, skb: Option<Skb>, zeroWndTest: bool)
  {
    if onlyUnused then FreshEligible(s, skb, zeroWndTest) else Eligible(s, skb, zeroWndTest)
  }

  /** The subflow scheduler's state: the `last_srtt` it remembers. */
  class Scheduler {
    var lastSrtt: u32

    constructor ()
      ensures lastSrtt == U32Max
    {
      lastSrtt := U32Max;
    }

    /** `olms_get_subflow_from_selectors`: the competing subflow with the smallest srtt below
        the sentinel, the earliest on ties, or None when every competitor has the sentinel srtt
        or there is none. `force` says whether the result is unused, and when nothing is
        returned whether an unused subflow was only temporarily unavailable. `last_srtt` takes
        the minimum when it is 0 or the sentinel. */
    method GetSubflowFromSelectors(subs: seq<Subflow>, skb: Option<Skb>, zeroWndTest: bool)
      returns (best: Option<nat>, force: bool)
      modifies this
      ensures best.Some? ==> best.value < |subs| && Eligible(subs[best.value], skb, zeroWndTest)
      ensures best.Some? ==> InPool(subs[best.value], AnyFresh(subs, |subs|, skb, zeroWndTest), skb, zeroWndTest)
      ensures best.Some? ==> subs[best.value].srtt < U32Max
      ensures best.Some? ==> forall k :: 0 <= k < |subs| && InPool(subs[k], AnyFresh(subs, |subs|, skb, zeroWndTest), skb, zeroWndTest) ==>
        subs[best.value].srtt <= subs[k].srtt && (k < best.value ==> subs[best.value].srtt < subs[k].srtt)
      ensures best.None? ==> forall k :: 0 <= k < |subs| && InPool(subs[k], AnyFresh(subs, |subs|, skb, zeroWndTest), skb, zeroWndTest) ==>
        subs[k].srtt == U32Max
      ensures force == if best.Some? then AnyFresh(subs, |subs|, skb, zeroWndTest) else AnyBlocked(subs, |subs|, skb, zeroWndTest)
      ensures lastSrtt == if old(lastSrtt) == 0 || old(lastSrtt) == U32Max
                          then (if best.Some? then subs[best.value].srtt else U32Max) else old(lastSrtt)
    {
      var bestsk: Option<nat> := None;
      var minSrtt: u32 := U32Max;
      var foundUnused, foundUnusedUna := false, false;
      for i := 0 to |subs|
        invariant lastSrtt == old(lastSrtt)
        invariant foundUnused == AnyFresh(subs, i, skb, zeroWndTest)
        invariant foundUnusedUna == AnyBlocked(subs, i, skb, zeroWndTest)
        invariant bestsk.None? ==> minSrtt == U32Max
        invariant bestsk.Some? ==> bestsk.value < i && minSrtt == subs[bestsk.value].srtt < U32Max
        invariant bestsk.Some? ==> InPool(subs[bestsk.value], foundUnused, skb, zeroWndTest)
        invariant forall k :: 0 <= k < i && InPool(subs[k], foundUnused, skb, zeroWndTest) ==> minSrtt <= subs[k].srtt
        invariant bestsk.Some? ==> forall k :: 0 <= k < bestsk.value && InPool(subs[k], foundUnused, skb, zeroWndTest) ==>
          minSrtt < subs[k].srtt
      {
        var s := subs[i];
        if !s.wanted {
          continue;
        }
        var unused := Unused(s, skb);
        if !unused && foundUnused {
          continue;
        }
        if s.defUnavailable {
          continue;
        }
        if TempUnavailable(s.tcp, skb, zeroWndTest) {
          if unused {
            foundUnusedUna := true;
          }
          continue;
        }
        if unused {
          if !foundUnused {
            AnyFreshMeaning(subs, i, skb, zeroWndTest);
            minSrtt := U32Max;
            bestsk := None;
          }
          foundUnused := true;
        }
        if s.srtt < minSrtt {
          minSrtt := s.srtt;
          bestsk := Some(i);
        }
      }
      best := bestsk;
      force := if bestsk.Some? then foundUnused else foundUnusedUna;
      if lastSrtt == 0 || lastSrtt == U32Max {
        lastSrtt := minSrtt;
      }
    }
  }

  function Inc32(x: u32): u32 { Add32(x, 1) }

  /** The number of set bits at positions 1..j. */
  function CountBits(bits: set<nat>, j: nat): (c: nat)
    ensures c <= j
  {
    if j == 0 then 0 else CountBits(bits, j - 1) + (if j in bits then 1 else 0)
  }

  lemma {:induction false} CountBitsMonotone(bits: set<nat>, i: nat, j: nat)
    requires i <= j
    ensures CountBits(bits, i) <= CountBits(bits, j)
  {
    if i < j {
      CountBitsMonotone(bits, i, j - 1);
    }
  }

  /** r is where a scan of positions 1..target stops when it looks for the goal-th set bit:
      the first position whose count reaches goal, or target + 1 when none does. */
  predicate FirstReach(bits: set<nat>, goal: nat, target: nat, r: nat)
  {
    1 <= r <= target + 1 &&
    (r <= target ==> CountBits(bits, r) == goal) &&
    forall j :: 1 <= j < r ==> CountBits(bits, j) != goal
  }

  /** The stopping position is determined by the bits, the goal and the range. */
  lemma {:induction false} FirstReachUnique(bits: set<nat>, goal: nat, target: nat, r1: nat, r2: nat)
    requires FirstReach(bits, goal, target, r1) && FirstReach(bits, goal, target, r2)
    ensures r1 == r2
  {
  }

  /** For a positive goal the scan stops on a set bit, the goal-th one. */
  lemma {:induction false} FirstReachSetBit(bits: set<nat>, goal: nat, target: nat, r: nat)
    requires FirstReach(bits, goal, target, r) && goal > 0 && r <= target
    ensures r in bits && CountBits(bits, r - 1) == goal - 1
  {
    if r > 1 {
      assert CountBits(bits, r - 1) != goal;
    }
  }

  /** There is some position in 1..target whose count equals any goal between 1 and the count at
      target, since the count grows by at most one per position. */
  lemma {:induction false} CountReaches(bits: set<nat>, goal: nat, target: nat)
    requires 0 < goal <= CountBits(bits, target)
    ensures exists j :: 1 <= j <= target && CountBits(bits, j) == goal
  {
    if CountBits(bits, target - 1) >= goal {
      CountReaches(bits, goal, target - 1);
    }
  }

  /** The scan reaches target + 1 exactly when fewer than goal bits are set in 1..target (for a
      positive goal). */
  lemma {:induction false} FirstReachExhausted(bits: set<nat>, goal: nat, target: nat, r: nat)
    requires FirstReach(bits, goal, target, r) && goal > 0
    ensures r == target + 1 <==> CountBits(bits, target) < goal
  {
    if r == target + 1 && CountBits(bits, target) >= goal {
      CountReaches(bits, goal, target);
    }
    if r <= target {
      CountBitsMonotone(bits, r, target);
    }
  }

  /** `cmd` fields in the Linux ioctl number layout: number in bits 0-7, type in 8-15, size in
      16-29, direction in 30-31. */
  function IocNr(cmd: u32): nat { cmd % 0x100 }
  function IocType(cmd: u32): nat { (cmd / 0x100) % 0x100 }
  function IocSize(cmd: u32): nat { (cmd / 0x100 / 0x100) % 0x4000 }
  function IocDir(cmd: u32): nat { cmd / 0x100 / 0x100 / 0x4000 }

  lemma {:induction false} MulMonotone(x: nat, y: nat, d: nat)
    requires x <= y
    ensures x * d <= y * d
  {
  }

  /** Euclidean division undoes q * d + r. */
  lemma {:induction false} DivMod(q: nat, r: nat, d: nat)
    requires r < d
    ensures (q * d + r) / d == q && (q * d + r) % d == r
  {
    var n := q * d + r;
    var a := n / d;
    if a > q {
      MulMonotone(q + 1, a, d);
      assert false;
    } else if a < q {
      MulMonotone(a + 1, q, d);
      assert false;
    }
  }

  const IocWrite: nat := 1
  const IocRead: nat := 2
  const OlmsIocMagic: nat := 0xCA
  const OlmsIocMaxNr: nat := 6
  const ENOTTY: int := 25

  /** `_IOC(dir, type, nr, size)`. */
  function Ioc(dir: nat, typ: nat, nr: nat, size: nat): (cmd: u32)
    requires dir < 4 && typ < 0x100 && nr < 0x100 && size < 0x4000
    ensures IocDir(cmd) == dir && IocType(cmd) == typ && IocNr(cmd) == nr && IocSize(cmd) == size
  {
    var hi := dir * 0x4000 + size;
    var mid := hi * 0x100 + typ;
    DivMod(dir, size, 0x4000);
    DivMod(hi, typ, 0x100);
    DivMod(mid, nr, 0x100);
    mid * 0x100 + nr
  }

  /** `sanity_check(cmd, arg)`: -ENOTTY for a foreign type or a number above the maximum;
      otherwise 1 exactly when the command carries a direction and the user buffer check
      (`accessOk`) fails, else 0. */
  function SanityCheck(cmd: u32, accessOk: bool): (err: int)
    ensures err == -ENOTTY <==> IocType(cmd) != OlmsIocMagic || IocNr(cmd) > OlmsIocMaxNr
    ensures err != -ENOTTY ==> (err == 0 || err == 1) && (err == 1 <==> IocDir(cmd) != 0 && !accessOk)
  {
    if IocType(cmd) != OlmsIocMagic then -ENOTTY
    else if IocNr(cmd) > OlmsIocMaxNr then -ENOTTY
    else if IocDir(cmd) % 2 == IocWrite then (if accessOk then 0 else 1)
    else if (IocDir(cmd) / 2) % 2 == IocRead / 2 then (if accessOk then 0 else 1)
    else 0
  }

  /** Every `_IOWR(OLMS_IOC_MAGIC, nr, size)` command of the module passes the check when the
      user buffer is accessible, and fails it with 1 when it is not. */
  lemma {:induction false} OlmsCommandsPass(nr: nat, size: nat, accessOk: bool)
    requires nr <= OlmsIocMaxNr && size < 0x4000
    ensures SanityCheck(Ioc(IocRead + IocWrite, OlmsIocMagic, nr, size), accessOk) == if accessOk then 0 else 1
  {
  }

  /** The user-to-kernel path map and the preferred paths. */
  class PathMap {
    var userPathId: u32
    var kernelPathId: u32
    var targetNumSubflows: u32
    var pathStatusBits: set<nat>
    var prefIndexBits: set<nat>
    const pref: array<u32>

    ghost predicate Valid()
      reads this
    {
      pref.Length == 2 &&
      (forall b :: b in pathStatusBits ==> b < LongBits) &&
      (forall b :: b in prefIndexBits ==> b < LongBits)
    }

    constructor ()
      ensures Valid() && fresh(pref)
      ensures userPathId == 0 && kernelPathId == 0 && targetNumSubflows == 0
      ensures pathStatusBits == {} && prefIndexBits == {} && pref[..] == [0, 0]
    {
      userPathId, kernelPathId, targetNumSubflows := 0, 0, 0;
      pathStatusBits, prefIndexBits := {}, {};
      pref := new u32[2](_ => 0);
    }

    /** `olms_set_kernel_path`: the kernel path id becomes the position of the
        (user_path_id + 1)-th set status bit in 1..target_num_subflows, or
        target_num_subflows + 1 when there are fewer. */
    method SetKernelPath()
      requires Valid() && targetNumSubflows < LongBits
      modifies this
      ensures Valid()
      ensures FirstReach(pathStatusBits, Inc32(userPathId), targetNumSubflows, kernelPathId)
      ensures userPathId == old(userPathId) && targetNumSubflows == old(targetNumSubflows)
      ensures pathStatusBits == old(pathStatusBits) && prefIndexBits == old(prefIndexBits)
    {
      var goal := Inc32(userPathId);
      var count := 0;
      var i := 1;
      while i <= targetNumSubflows
        invariant 1 <= i <= targetNumSubflows + 1
        invariant count == CountBits(pathStatusBits, i - 1)
        invariant forall j :: 1 <= j < i ==> CountBits(pathStatusBits, j) != goal
      {
        if i in pathStatusBits {
          count := count + 1;
        }
        if count == goal {
          break;
        }
        i := i + 1;
      }
      kernelPathId := i;
    }

    /** `olms_update_preference(paths, n)`: the preference bits become exactly paths[i] + 1 for
        i < n, and pref[i] records paths[i] + 1; with n <= 0 the bits are cleared. */
    method UpdatePreference(paths: seq<u32>, n: int)
      requires Valid() && n <= 2 && n <= |paths|
      requires forall i :: 0 <= i < n ==> Inc32(paths[i]) < LongBits
      modifies this, pref
      ensures Valid()
      ensures prefIndexBits == set i | 0 <= i < n :: Inc32(paths[i])
      ensures forall i :: 0 <= i < n ==> pref[i] == Inc32(paths[i])
      ensures forall i :: 0 <= i < 2 && n <= i ==> pref[i] == old(pref[i])
      ensures forall x :: x in prefIndexBits <==> exists i :: 0 <= i < n && pref[i] == x
      ensures userPathId == old(userPathId) && kernelPathId == old(kernelPathId)
      ensures targetNumSubflows == old(targetNumSubflows) && pathStatusBits == old(pathStatusBits)
    {
      prefIndexBits := {};
      var i := 0;
      while i < n
        invariant 0 <= i <= if n < 0 then 0 else n
        invariant Valid()
        invariant prefIndexBits == set k | 0 <= k < i :: Inc32(paths[k])
        invariant forall k :: 0 <= k < i ==> pref[k] == Inc32(paths[k])
        invariant forall k :: 0 <= k < 2 && i <= k ==> pref[k] == old(pref[k])
        invariant userPathId == old(userPathId) && kernelPathId == old(kernelPathId)
        invariant targetNumSubflows == old(targetNumSubflows) && pathStatusBits == old(pathStatusBits)
      {
        prefIndexBits := prefIndexBits + {Inc32(paths[i])};
        pref[i] := Inc32(paths[i]);
        i := i + 1;
      }
    }

    /** `olms_set_preferred_paths` as written: it returns the access check's verdict before the
        update, so a well-formed request reports success and leaves the preference untouched. */
    method SetPreferredPaths(paths: seq<u32>, n: int, accessOk: bool) returns (err: int)
      requires Valid()
      ensures err == 0 <==> accessOk
      ensures err == 0 || err == 1
      ensures prefIndexBits == old(prefIndexBits) && pref[..] == old(pref[..])
    {
      err := if accessOk then 0 else 1;
    }

    /** `olms_set_preferred_paths` with the update reached: a rejected buffer changes nothing, an
        accepted one makes the preference exactly paths[0..n] shifted by one. */
    method SetPreferredPathsIntended(paths: seq<u32>, n: int, accessOk: bool) returns (err: int)
      requires Valid() && n <= 2 && n <= |paths|
      requires forall i :: 0 <= i < n ==> Inc32(paths[i]) < LongBits
      modifies this, pref
      ensures Valid()
      ensures err == 0 <==> accessOk
      ensures err == 0 || err == 1
      ensures accessOk ==> prefIndexBits == set i | 0 <= i < n :: Inc32(paths[i])
      ensures accessOk ==> forall i :: 0 <= i < n ==> pref[i] == Inc32(paths[i])
      ensures !accessOk ==> prefIndexBits == old(prefIndexBits) && pref[..] == old(pref[..])
      ensures userPathId == old(userPathId) && kernelPathId == old(kernelPathId)
      ensures targetNumSubflows == old(targetNumSubflows) && pathStatusBits == old(pathStatusBits)
    {
      if !accessOk {
        return 1;
      }
      UpdatePreference(paths, n);
      err := 0;
    }
  }
}
