/** `split` (by a character) and `split2` (by a string) of the bandit library: a cursor walks
    the input, and each delimiter occurrence found from the cursor closes one piece. */
module Strings {
  import opened Wrappers

  /** The delimiter d starts at position i of s. */
  predicate OccursAt(s: string, i: nat, d: string)
  {
    i + |d| <= |s| && s[i..i + |d|] == d
  }

  /** `find(d, from)`: the first occurrence of d at or after `from`, if any. An empty d
      occurs at every position up to |s|, so it is found at `from` itself. */
  function FindFrom(s: string, d: string, from: nat): (r: Option<nat>)
    decreases |s| - from
    ensures r.Some? ==> from <= r.value && OccursAt(s, r.value, d)
    ensures r.Some? ==> forall i :: from <= i < r.value ==> !OccursAt(s, i, d)
    ensures r.None? ==> forall i :: from <= i ==> !OccursAt(s, i, d)
  {
    if from + |d| > |s| then None
    else if s[from..from + |d|] == d then Some(from)
    else FindFrom(s, d, from + 1)
  }

  /** Every piece followed by the delimiter, concatenated. */
  function JoinTerminated(ps: seq<string>, d: string): string
  {
    if |ps| == 0 then [] else JoinTerminated(ps[..|ps| - 1], d) + ps[|ps| - 1] + d
  }

  /** The pieces joined with the delimiter between consecutive ones. */
  function Join(ps: seq<string>, d: string): string
    requires |ps| > 0
  {
    JoinTerminated(ps[..|ps| - 1], d) + ps[|ps| - 1]
  }

  /** Number of occurrences of character c in s. */
  function Count(s: string, c: char): nat
  {
    if |s| == 0 then 0 else Count(s[..|s| - 1], c) + (if s[|s| - 1] == c then 1 else 0)
  }

  lemma {:induction false} CountAppend(a: string, b: string, c: char)
    ensures Count(a + b, c) == Count(a, c) + Count(b, c)
  {
    if |b| == 0 {
      assert a + b == a;
    } else {
      assert (a + b)[..|a + b| - 1] == a + b[..|b| - 1];
      CountAppend(a, b[..|b| - 1], c);
    }
  }

  lemma {:induction false} CountAbsent(s: string, c: char)
    requires c !in s
    ensures Count(s, c) == 0
  {
    if |s| > 0 {
      CountAbsent(s[..|s| - 1], c);
    }
  }

  /** The pieces found so far: free of c, one per c passed, and covering str up to the
      cursor. */
  ghost predicate SplitCharSoFar(str: string, c: char, res: seq<string>, current: nat)
  {
    current <= |str| && JoinTerminated(res, [c]) == str[..current] &&
    (forall k :: 0 <= k < |res| ==> c !in res[k]) && |res| == Count(str[..current], c)
  }

  /** `find_first_of(delim, current)` when c occurs at or after the cursor. */
  method FindChar(str: string, c: char, current: nat) returns (found: nat)
    requires current <= |str| && c in str[current..]
    ensures current <= found < |str| && str[found] == c && c !in str[current..found]
  {
    found := current;
    while str[found] != c
      invariant current <= found < |str|
      invariant c in str[found..]
      invariant c !in str[current..found]
      decreases |str| - found
    {
      assert str[found..] == [str[found]] + str[found + 1..];
      assert str[current..found + 1] == str[current..found] + [str[found]];
      found := found + 1;
    }
  }

  /** Closing the piece from the cursor to the next c, at found. */
  lemma {:induction false} SplitStep(str: string, c: char, res: seq<string>, current: nat, found: nat)
    requires SplitCharSoFar(str, c, res, current)
    requires current <= found < |str| && str[found] == c && c !in str[current..found]
    ensures SplitCharSoFar(str, c, res + [str[current..found]], found + 1)
  {
    var piece := str[current..found];
    assert (res + [piece])[..|res|] == res;
    assert str[..found + 1] == str[..current] + piece + [c];
    CountAppend(str[..current] + piece, [c], c);
    CountAppend(str[..current], piece, c);
    CountAbsent(piece, c);
    assert Count([c], c) == 1 by { assert [c][..0] == []; }
  }

  /** Closing the last piece, from the cursor to the end, when no c is left. */
  lemma {:induction false} SplitLast(str: string, c: char, res: seq<string>, current: nat)
    requires SplitCharSoFar(str, c, res, current) && c !in str[current..]
    ensures var all := res + [str[current..]];
      Join(all, [c]) == str && (forall k :: 0 <= k < |all| ==> c !in all[k]) &&
      |all| == Count(str, c) + 1
  {
    var last := str[current..];
    assert str == str[..current] + last;
    CountAppend(str[..current], last, c);
    CountAbsent(last, c);
    assert (res + [last])[..|res|] == res;
  }

  /** `split(str, delim)`: the pieces between occurrences of the character c. Joining them
      with c gives the input back, no piece holds c, and there is one piece more than there
      are occurrences of c. */
  method Split(str: string, c: char) returns (res: seq<string>)
    ensures |res| > 0 && Join(res, [c]) == str
    ensures forall k :: 0 <= k < |res| ==> c !in res[k]
    ensures |res| == Count(str, c) + 1
  {
    res := [];
    var current := 0;
    assert str[..0] == [];
    while current < |str| && c in str[current..]
      invariant SplitCharSoFar(str, c, res, current)
      decreases |str| - current
    {
      var found := FindChar(str, c, current);
      SplitStep(str, c, res, current, found);
      res := res + [str[current..found]];
      current := found + 1;
    }
    SplitLast(str, c, res, current);
    res := res + [str[current..]];
  }

  /** An occurrence inside s[lo..hi] is an occurrence in s, shifted by lo. */
  lemma {:induction false} SliceOfSlice(s: string, lo: nat, hi: nat, i: nat, d: string)
    requires lo <= hi <= |s| && OccursAt(s[lo..hi], i, d)
    ensures OccursAt(s, lo + i, d)
  {
    var w := s[lo..hi][i..i + |d|];
    forall j | 0 <= j < |d|
      ensures s[lo + i..lo + i + |d|][j] == d[j]
    {
      assert w[j] == d[j];
    }
  }

  /** d occurs nowhere in p. */
  ghost predicate Free(p: string, d: string)
  {
    forall i :: 0 <= i ==> !OccursAt(p, i, d)
  }

  /** The d written after p is the first occurrence of d starting in p + d. */
  ghost predicate EndsAtFirst(p: string, d: string)
  {
    forall i :: 0 <= i < |p| ==> !OccursAt(p + d, i, d)
  }

  /** A stretch of s in which no occurrence starts holds no occurrence itself. */
  lemma {:induction false} StretchFree(s: string, d: string, lo: nat, hi: nat)
    requires |d| > 0 && lo <= hi <= |s|
    requires forall i :: lo <= i < hi ==> !OccursAt(s, i, d)
    ensures Free(s[lo..hi], d)
  {
    forall i | 0 <= i
      ensures !OccursAt(s[lo..hi], i, d)
    {
      if OccursAt(s[lo..hi], i, d) {
        SliceOfSlice(s, lo, hi, i, d);
      }
    }
  }

  /** A piece ended by the first occurrence of d after its start. */
  lemma {:induction false} PieceEndsAtFirst(s: string, d: string, lo: nat, f: nat)
    requires |d| > 0 && lo <= f && OccursAt(s, f, d)
    requires forall i :: lo <= i < f ==> !OccursAt(s, i, d)
    ensures EndsAtFirst(s[lo..f], d)
  {
    forall i | 0 <= i < f - lo
      ensures !OccursAt(s[lo..f] + d, i, d)
    {
      if OccursAt(s[lo..f] + d, i, d) {
        assert s[lo..f] + d == s[lo..f + |d|] by {
          assert s[lo..f + |d|] == s[lo..f] + s[f..f + |d|];
        }
        SliceOfSlice(s, lo, f + |d|, i, d);
      }
    }
  }

  /** The pieces found so far: ended by the first occurrences of d, free of d, and covering
      str up to the cursor. */
  ghost predicate SplitSoFar(str: string, d: string, res: seq<string>, current: nat)
  {
    current <= |str| && JoinTerminated(res, d) == str[..current] &&
    (forall k :: 0 <= k < |res| ==> Free(res[k], d)) &&
    (forall k :: 0 <= k < |res| ==> EndsAtFirst(res[k], d))
  }

  /** Closing the piece from the cursor to the next occurrence f of d. */
  lemma {:induction false} Split2Step(str: string, d: string, res: seq<string>, current: nat, f: nat)
    requires |d| > 0 && SplitSoFar(str, d, res, current) && current <= f && OccursAt(str, f, d)
    requires forall i :: current <= i < f ==> !OccursAt(str, i, d)
    ensures SplitSoFar(str, d, res + [str[current..f]], f + |d|)
  {
    var piece := str[current..f];
    StretchFree(str, d, current, f);
    PieceEndsAtFirst(str, d, current, f);
    assert (res + [piece])[..|res|] == res;
    assert str[..f + |d|] == str[..current] + piece + str[f..f + |d|];
  }

  /** Closing the last piece, from the cursor to the end, when no occurrence is left. */
  lemma {:induction false} Split2Last(str: string, d: string, res: seq<string>, current: nat)
    requires |d| > 0 && SplitSoFar(str, d, res, current)
    requires forall i :: current <= i ==> !OccursAt(str, i, d)
    ensures var all := res + [str[current..]];
      Join(all, d) == str && (forall k :: 0 <= k < |all| ==> Free(all[k], d)) &&
      (forall k :: 0 <= k < |all| - 1 ==> EndsAtFirst(all[k], d))
  {
    var last := str[current..|str|];
    StretchFree(str, d, current, |str|);
    assert str == str[..current] + last;
    assert (res + [last])[..|res|] == res;
  }

  /** With an empty delimiter, `split2`'s loop never ends: every `find` from the cursor
      succeeds at the cursor itself, and advancing by the delimiter's length leaves the
      cursor where it was. */
  lemma {:induction false} Split2StallsOnEmpty(str: string, d: string, current: nat)
    requires |d| == 0 && current <= |str|
    ensures FindFrom(str, d, current) == Some(current)
    ensures current + |d| == current
  {
  }

  /** `split2` with the empty delimiter handled: there is nothing to split at, so the whole
      input is the one piece; otherwise as `Split2`. */
  method Split2Guarded(str: string, d: string) returns (res: seq<string>)
    ensures |res| > 0 && Join(res, d) == str
    ensures |d| == 0 ==> res == [str]
    ensures |d| > 0 ==> forall k :: 0 <= k < |res| ==> Free(res[k], d)
    ensures |d| > 0 ==> forall k :: 0 <= k < |res| - 1 ==> EndsAtFirst(res[k], d)
  {
    if |d| == 0 {
      res := [str];
      assert res[..0] == [];
    } else {
      res := Split2(str, d);
    }
  }

  /** `split2(str, delim)` for a non-empty delimiter: joining the pieces with d gives the input
      back, no piece holds d, and the delimiter after each piece is the first occurrence of d
      that starts inside that piece or right after it. */
  method Split2(str: string, d: string) returns (res: seq<string>)
    requires |d| > 0
    ensures |res| > 0 && Join(res, d) == str
    ensures forall k :: 0 <= k < |res| ==> Free(res[k], d)
    ensures forall k :: 0 <= k < |res| - 1 ==> EndsAtFirst(res[k], d)
  {
    res := [];
    var current := 0;
    var found := FindFrom(str, d, current);
    while found.Some?
      invariant SplitSoFar(str, d, res, current)
      invariant found == FindFrom(str, d, current)
      decreases |str| - current
    {
      var f := found.value;
      Split2Step(str, d, res, current, f);
      res := res + [str[current..f]];
      current := f + |d|;
      found := FindFrom(str, d, current);
    }
    Split2Last(str, d, res, current);
    res := res + [str[current..]];
  }
}
