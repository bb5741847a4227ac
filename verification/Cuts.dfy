/** Where the translator may cut a text: the scanning helpers, each a loop proved against a function. */
module Cuts {
  import opened Text
  import opened Words

  /** The translator's `_PUNCT_END`: marks that end a segment. */
  predicate IsSegmentEnd(c: char) {
    c == '.' || c == '!' || c == '?' || c == ';' || c == ':' || c == ELLIPSIS
  }

  predicate NotSegmentEnd(c: char) {
    !IsSegmentEnd(c)
  }

  /** Length of the longest common prefix. */
  function Lcp(a: string, b: string): (n: nat)
    ensures n <= |a| && n <= |b| && a[..n] == b[..n]
    ensures n < |a| && n < |b| ==> a[n] != b[n]
  {
    if a == [] || b == [] || a[0] != b[0] then 0 else 1 + Lcp(a[1..], b[1..])
  }

  lemma {:induction false} LcpIs(a: string, b: string, n: nat)
    requires n <= |a| && n <= |b| && a[..n] == b[..n]
    requires n == |a| || n == |b| || a[n] != b[n]
    ensures Lcp(a, b) == n
  {
  }

  method LcpLen(a: string, b: string) returns (i: nat)
    ensures i == Lcp(a, b)
  {
    var n := Min(|a|, |b|);
    i := 0;
    while i < n && a[i] == b[i]
      invariant 0 <= i <= n
      invariant a[..i] == b[..i]
    {
      i := i + 1;
    }
    LcpIs(a, b, i);
  }

  /** Just after the first segment end and the blanks behind it, or -1. */
  function FirstBoundary(s: string): (r: int)
    ensures r == -1 <==> forall i :: 0 <= i < |s| ==> !IsSegmentEnd(s[i])
    ensures r == -1 || 1 <= r <= |s|
  {
    var k := Run(NotSegmentEnd, s);
    if k == |s| then -1 else k + 1 + Run(IsSpace, s[k + 1..])
  }

  method FirstPunctBoundary(s: string) returns (r: int)
    ensures r == FirstBoundary(s)
  {
    var i := 0;
    while i < |s|
      invariant 0 <= i <= |s|
      invariant forall k :: 0 <= k < i ==> NotSegmentEnd(s[k])
    {
      if IsSegmentEnd(s[i]) {
        var j := i + 1;
        while j < |s| && IsSpace(s[j])
          invariant i + 1 <= j <= |s|
          invariant forall k :: i + 1 <= k < j ==> IsSpace(s[k])
        {
          j := j + 1;
        }
        RunIs(NotSegmentEnd, s, i);
        RunIs(IsSpace, s[i + 1..], j - i - 1);
        return j;
      }
      i := i + 1;
    }
    return -1;
  }

  /** The last blank at or before position `i`, or -1. */
  function LastSpaceFrom(s: string, i: int): (r: int)
    requires i < |s|
    ensures -1 <= r && (r <= i || r == -1)
    ensures r >= 0 ==> IsSpace(s[r])
    decreases i + 1
  {
    if i < 0 then -1 else if IsSpace(s[i]) then i else LastSpaceFrom(s, i - 1)
  }

  function LastSpaceBefore(s: string, idx: int): (r: int)
    ensures -1 <= r < |s| && (r < idx || r == -1)
    ensures r >= 0 ==> IsSpace(s[r])
  {
    if idx <= 0 then -1 else LastSpaceFrom(s, Min(idx - 1, |s| - 1))
  }

  method FindLastSpaceBefore(s: string, idx: int) returns (r: int)
    ensures r == LastSpaceBefore(s, idx)
  {
    if idx <= 0 {
      return -1;
    }
    var i := Min(idx - 1, |s| - 1);
    while i >= 0
      invariant -1 <= i < |s|
      invariant LastSpaceFrom(s, i) == LastSpaceBefore(s, idx)
    {
      if IsSpace(s[i]) {
        return i;
      }
      i := i - 1;
    }
    return -1;
  }

  /** The first blank in `s[i..end]`, or -1. */
  function FirstSpaceIn(s: string, i: nat, end: int): (r: int)
    requires end <= |s|
    ensures r == -1 || (i <= r < end && IsSpace(s[r]))
    decreases end - i
  {
    if i >= end then -1 else if IsSpace(s[i]) then i else FirstSpaceIn(s, i + 1, end)
  }

  function NextSpaceAfter(s: string, idx: int, maxForward: int): (r: int)
    ensures r == -1 || (Max(idx, 0) <= r < |s| && r <= Max(idx, 0) + maxForward && IsSpace(s[r]))
  {
    var i := Max(idx, 0);
    FirstSpaceIn(s, i, Min(|s|, i + maxForward + 1))
  }

  method FindNextSpaceAfter(s: string, idx: int, maxForward: int) returns (r: int)
    ensures r == NextSpaceAfter(s, idx, maxForward)
  {
    var i := if idx < 0 then 0 else idx;
    var end := Min(|s|, i + maxForward + 1);
    while i < end
      invariant 0 <= i
      invariant FirstSpaceIn(s, i, end) == NextSpaceAfter(s, idx, maxForward)
    {
      if IsSpace(s[i]) {
        return i;
      }
      i := i + 1;
    }
    return -1;
  }

  /** The longest k up to `k` for which the last k characters of `old` begin `new`. */
  function OverlapFrom(old_: string, new_: string, k: nat): (r: nat)
    requires k <= |old_| && k <= |new_|
    ensures r <= k
    ensures old_[|old_| - r..] == new_[..r]
    ensures forall j :: r < j <= k ==> old_[|old_| - j..] != new_[..j]
  {
    if k == 0 || old_[|old_| - k..] == new_[..k] then k else OverlapFrom(old_, new_, k - 1)
  }

  function SuffixPrefixOverlap(old_: string, new_: string, maxChars: int): (r: nat)
    ensures r <= |old_| && r <= |new_| && old_[|old_| - r..] == new_[..r]
  {
    OverlapFrom(old_, new_, Max(0, Min(maxChars, Min(|old_|, |new_|))))
  }

  method FindOverlap(old_: string, new_: string, maxChars: int) returns (r: nat)
    ensures r == SuffixPrefixOverlap(old_, new_, maxChars) <= Max(0, maxChars)
    ensures forall k :: r < k <= maxChars && k <= |old_| && k <= |new_| ==> old_[|old_| - k..] != new_[..k]
  {
    if old_ == [] || new_ == [] {
      return 0;
    }
    var k := Min(maxChars, Min(|old_|, |new_|));
    if k <= 0 {
      return 0;
    }
    while k > 0
      invariant 0 <= k <= |old_| && k <= |new_|
      invariant OverlapFrom(old_, new_, k) == SuffixPrefixOverlap(old_, new_, maxChars)
    {
      if old_[|old_| - k..] == new_[..k] {
        return k;
      }
      k := k - 1;
    }
    return 0;
  }

  /** A position where a window may start. */
  function BreakFrom(s: string, i: nat, end: int, dflt: nat): (r: nat)
    requires end <= |s| && dflt <= |s| && dflt <= i
    ensures dflt <= r <= |s|
    decreases end - i
  {
    if i >= end then dflt
    else if IsNoise(s[i]) then i + 1 + Run(IsSpace, s[i + 1..])
    else BreakFrom(s, i + 1, end, dflt)
  }

  /** Moves a position inside a word forward past the next blank or mark, if one is near. */
  function AdvanceToBoundary(s: string, idx: int, maxForward: int): (r: nat)
    ensures r <= |s| || (s == [] && r == idx)
    ensures r >= Min(Max(idx, 0), |s|)
  {
    if s == [] then Max(0, idx)
    else
      var i := Max(0, Min(idx, |s|));
      if i <= 0 || i >= |s| then i
      else if IsAlnum(s[i - 1]) && IsAlnum(s[i]) then BreakFrom(s, i, Min(|s|, i + maxForward), i)
      else i
  }

  method SkipSpaces(s: string, start: nat) returns (j: nat)
    requires start <= |s|
    ensures j == start + Run(IsSpace, s[start..])
  {
    hide IsSpace;
    j := start;
    while j < |s| && IsSpace(s[j])
      invariant start <= j <= |s|
      invariant forall k :: start <= k < j ==> IsSpace(s[k])
    {
      j := j + 1;
    }
    RunIs(IsSpace, s[start..], j - start);
  }

  method FindBoundaryFrom(s: string, idx: int, maxForward: int) returns (r: nat)
    ensures r == AdvanceToBoundary(s, idx, maxForward)
  {
    hide IsSpace, IsAlnum, IsPunct;
    if s == [] {
      return Max(0, idx);
    }
    var at := Max(0, Min(idx, |s|));
    if at <= 0 || at >= |s| {
      return at;
    }
    if IsAlnum(s[at - 1]) && IsAlnum(s[at]) {
      var end := Min(|s|, at + maxForward);
      var i := at;
      while i < end
        invariant at <= i
        invariant BreakFrom(s, i, end, at) == AdvanceToBoundary(s, idx, maxForward)
      {
        if IsSpace(s[i]) || IsPunct(s[i]) {
          var j := SkipSpaces(s, i + 1);
          return j;
        }
        i := i + 1;
      }
    }
    return at;
  }

  /** End of the `maxWords`-th word, the whole text when it has no more, -1 for a limit that is not positive. */
  function CutByWords(s: string, maxWords: int): (r: int)
    ensures r <= |s|
  {
    if maxWords <= 0 then -1
    else if WordCount(s) <= maxWords then |s|
    else WordEnd(s, maxWords)
  }

  /** Near `maxChars`: at the last blank before it, else at a blank soon after, else exactly there. */
  function CutByChars(s: string, maxChars: int): (r: int)
    ensures maxChars > 0 ==> 0 <= r <= |s| && r <= maxChars + 32 && (s != [] ==> r >= 1)
    ensures maxChars <= 0 ==> r == -1
  {
    if maxChars <= 0 then -1
    else if |s| <= maxChars then |s|
    else
      var b := LastSpaceBefore(s, maxChars);
      if b >= 0 && b >= Max(6, maxChars * 11 / 20) then b
      else
        var f := NextSpaceAfter(s, maxChars, 32);
        if f >= 0 then f else maxChars
  }
}
