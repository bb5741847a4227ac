/** Keeping the end of a long text: the same function stands in the service worker (`trimTailForOverlay`) and in the
    overlay (`tailForLayout`). */
module TailTrim {
  import opened Text

  /** Just behind the first end mark in `s[i..end]` that a blank follows, and behind those blanks, or -1. */
  function AfterSentence(s: string, i: nat, end: nat): (r: int)
    requires i <= end <= |s|
    ensures r == -1 || i < r <= end
    decreases end - i
  {
    if i + 1 >= end then -1
    else if IsEndMark(s[i]) && IsSpace(s[i + 1]) then i + 1 + Run(IsSpace, s[i + 1..end])
    else AfterSentence(s, i + 1, end)
  }

  /** First plain blank at or behind `i`, or -1. */
  function IndexOfBlank(s: string, i: nat): (r: int)
    requires i <= |s|
    ensures r == -1 || (i <= r < |s| && s[r] == ' ')
    decreases |s| - i
  {
    if i == |s| then -1 else if s[i] == ' ' then i else IndexOfBlank(s, i + 1)
  }

  /** Where the kept tail starts: at most `n` characters from the end, moved on to a sentence or word start nearby. */
  function TailStart(s: string, n: int): (r: nat)
    ensures n <= 0 || |s| <= n ==> r == 0
    ensures 0 < n < |s| ==> |s| - n <= r <= |s| && r <= |s| - n + 180
  {
    if n <= 0 || |s| <= n then 0
    else
      var from := |s| - n;
      var a := AfterSentence(s, from, Min(|s|, from + 180));
      if a != -1 then a
      else
        var b := IndexOfBlank(s, from);
        if b > from && b - from < 100 then b + 1 else from
  }

  function TailForLayout(s: string, n: int): (r: string)
    ensures IsSuffix(r, s)
    ensures n <= 0 || |s| <= n ==> r == s
    ensures 0 < n < |s| ==> n - 180 <= |r| <= n
  {
    s[TailStart(s, n)..]
  }

  /** The moving cursor of the source. */
  method TrimTail(s: string, n: int) returns (r: string)
    ensures r == TailForLayout(s, n)
  {
    hide AfterSentence, IndexOfBlank;
    if n <= 0 || |s| <= n {
      return s;
    }
    var from := |s| - n;
    var boundary := AfterSentence(s, from, Min(|s|, from + 180));
    if boundary != -1 {
      from := boundary;
      return s[from..];
    }
    var ws := IndexOfBlank(s, from);
    if ws > from && ws - from < 100 {
      from := ws + 1;
    }
    return s[from..];
  }

  lemma SuffixOfSuffix(a: string, b: string, c: string)
    requires IsSuffix(a, b) && IsSuffix(b, c)
    ensures IsSuffix(a, c)
  {
  }

  predicate SentenceEndsAt(s: string, i: nat, end: nat) {
    i + 1 < end <= |s| && IsEndMark(s[i]) && IsSpace(s[i + 1])
  }

  lemma {:induction false} AfterSentenceIs(s: string, i: nat, end: nat)
    requires i <= end <= |s|
    ensures var r := AfterSentence(s, i, end);
            && (r == -1 <==> forall k :: i <= k ==> !SentenceEndsAt(s, k, end))
            && (r != -1 ==> exists k :: i <= k && IsFirstEnd(s, i, k, end) && r == k + 1 + Run(IsSpace, s[k + 1..end]))
    decreases end - i
  {
    hide Run;
    if i + 1 < end {
      if SentenceEndsAt(s, i, end) {
        assert IsFirstEnd(s, i, i, end);
      } else {
        AfterSentenceIs(s, i + 1, end);
        if AfterSentence(s, i, end) != -1 {
          var k :| i + 1 <= k && IsFirstEnd(s, i + 1, k, end)
            && AfterSentence(s, i, end) == k + 1 + Run(IsSpace, s[k + 1..end]);
          assert IsFirstEnd(s, i, k, end);
        }
      }
    }
  }

  ghost predicate IsFirstEnd(s: string, i: nat, k: nat, end: nat) {
    SentenceEndsAt(s, k, end) && forall h :: i <= h < k ==> !SentenceEndsAt(s, h, end)
  }

  lemma {:induction false} IndexOfBlankIs(s: string, i: nat)
    requires i <= |s|
    ensures var r := IndexOfBlank(s, i); forall k :: i <= k < (if r == -1 then |s| else r) ==> s[k] != ' '
    decreases |s| - i
  {
    if i < |s| && s[i] != ' ' {
      IndexOfBlankIs(s, i + 1);
    }
  }

  /** Where a trimmed text begins: behind the first sentence end among the next 180 characters, blanks included; without
      one, behind the next blank if that is less than 100 characters away; and else right at the limit. */
  lemma TailStartMeans(s: string, n: int)
    requires 0 < n < |s|
    ensures var from, r := |s| - n, TailStart(s, n);
            var end := Min(|s|, from + 180);
            if exists k :: from <= k && SentenceEndsAt(s, k, end) then
              exists k :: from <= k && IsFirstEnd(s, from, k, end) && r == k + 1 + Run(IsSpace, s[k + 1..end])
            else if exists k :: from < k < Min(|s|, from + 100) && s[k] == ' ' && s[from] != ' ' then
              s[r - 1] == ' ' && from < r - 1 && forall k :: from <= k < r - 1 ==> s[k] != ' '
            else r == from
  {
    hide AfterSentence, IndexOfBlank, Run;
    var from := |s| - n;
    AfterSentenceIs(s, from, Min(|s|, from + 180));
    IndexOfBlankIs(s, from);
  }
}
