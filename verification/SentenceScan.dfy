/** The sentence expression that the server's feed writer and the overlay's layout share:
    `[^.!?...]*[.!?...]+(quotes)?(blanks|end)`, tried from each start in turn. */
module SentenceScan {
  import opened Text

  predicate IsPlain(c: char) {
    !IsEndMark(c)
  }

  /** Behind the end marks at `i` and the quotes after them. */
  function MarksEnd(t: string, i: nat): (r: nat)
    requires i <= |t|
    ensures i <= r <= |t|
  {
    var j := i + Run(IsEndMark, t[i..]);
    j + Run(IsQuote, t[j..])
  }

  /** End of the match that starts exactly at `q`, or -1. Giving characters back never helps: the marks must begin right
      behind the plain run, and neither a mark nor a quote is a blank. */
  function MatchEnd(t: string, q: nat): (r: int)
    requires q <= |t|
    ensures r == -1 || q <= r <= |t|
  {
    var i := q + Run(IsPlain, t[q..]);
    if i == |t| then -1
    else
      var k := MarksEnd(t, i);
      if k == |t| || IsSpace(t[k]) then k + Run(IsSpace, t[k..]) else -1
  }

  lemma MatchIsLonger(t: string, q: nat)
    requires q <= |t|
    ensures MatchEnd(t, q) == -1 || q < MatchEnd(t, q)
  {
  }

  datatype Found = NoMatch | Match(start: nat, end: nat)

  /** The leftmost match at or behind `q`. */
  function NextMatch(t: string, q: nat): (r: Found)
    requires q <= |t|
    ensures r.Match? ==> q <= r.start < r.end <= |t| && MatchEnd(t, r.start) == r.end
    decreases |t| - q
  {
    MatchIsLonger(t, q);
    if q == |t| then NoMatch
    else if MatchEnd(t, q) != -1 then Match(q, MatchEnd(t, q))
    else NextMatch(t, q + 1)
  }

  /** The matches from `p` on, and the text behind the last one. */
  function SplitFrom(t: string, p: nat): Split
    requires p <= |t|
    decreases |t| - p
  {
    var m := NextMatch(t, p);
    if m.NoMatch? then Split([], t[p..])
    else
      var rest := SplitFrom(t, m.end);
      Split([t[m.start..m.end]] + rest.sents, rest.tail)
  }

  lemma SplitStop(t: string, p: nat)
    requires p <= |t| && NextMatch(t, p).NoMatch?
    ensures SplitFrom(t, p) == Split([], t[p..])
  {
  }

  lemma SplitStep(t: string, p: nat, m: Found)
    requires p <= |t| && NextMatch(t, p) == m && m.Match?
    ensures SplitFrom(t, p).sents == [t[m.start..m.end]] + SplitFrom(t, m.end).sents
    ensures SplitFrom(t, p).tail == SplitFrom(t, m.end).tail
  {
    hide NextMatch;
  }

  /** The loop over the matches. */
  method SplitSentencesAndTail(t: string) returns (r: Split)
    ensures r == SplitFrom(t, 0)
  {
    hide NextMatch, SplitFrom;
    var sents: seq<string> := [];
    var lastEnd := 0;
    var m := NextMatch(t, 0);
    assert [] + SplitFrom(t, 0).sents == SplitFrom(t, 0).sents;
    while m.Match?
      invariant lastEnd <= |t| && m == NextMatch(t, lastEnd)
      invariant sents + SplitFrom(t, lastEnd).sents == SplitFrom(t, 0).sents
      invariant SplitFrom(t, lastEnd).tail == SplitFrom(t, 0).tail
      decreases |t| - lastEnd
    {
      SplitStep(t, lastEnd, m);
      ghost var rest := SplitFrom(t, m.end).sents;
      assert sents + ([t[m.start..m.end]] + rest) == (sents + [t[m.start..m.end]]) + rest;
      sents := sents + [t[m.start..m.end]];
      lastEnd := m.end;
      m := NextMatch(t, lastEnd);
    }
    SplitStop(t, lastEnd);
    assert sents + [] == sents;
    r := Split(sents, t[lastEnd..]);
  }

  // ---- growth ----

  /** A run that stops inside `t` is the same in any extension. */
  lemma RunExtends(f: char -> bool, t: string, x: string, q: nat)
    requires q <= |t| && q + Run(f, t[q..]) < |t|
    ensures Run(f, (t + x)[q..]) == Run(f, t[q..])
  {
    var n := Run(f, t[q..]);
    var u := (t + x)[q..];
    assert u[n] == t[q..][n];
    forall i | 0 <= i < n ensures f(u[i]) {
      assert u[i] == t[q..][i];
    }
    RunIs(f, u, n);
  }

  lemma RunAtEnd(f: char -> bool, t: string)
    ensures Run(f, t[|t|..]) == 0
  {
  }

  /** An attempt that meets a mark and does not reach the end of the text comes out the same in any extension. */
  lemma MatchEndExtends(t: string, x: string, q: nat)
    requires q <= |t| && q + Run(IsPlain, t[q..]) < |t| && MatchEnd(t, q) != |t|
    ensures MatchEnd(t + x, q) == MatchEnd(t, q)
  {
    hide Run, MarksEnd, IsSpace, IsPlain;
    var i := q + Run(IsPlain, t[q..]);
    RunExtends(IsPlain, t, x, q);
    var k := MarksEnd(t, i);
    RunAtEnd(IsSpace, t);
    assert k < |t|;
    MarksEndExtends(t, x, i);
    if IsSpace(t[k]) {
      RunExtends(IsSpace, t, x, k);
    }
  }

  lemma MarksEndExtends(t: string, x: string, i: nat)
    requires i <= |t| && MarksEnd(t, i) < |t|
    ensures MarksEnd(t + x, i) == MarksEnd(t, i)
  {
    hide Run, IsEndMark, IsQuote;
    RunExtends(IsEndMark, t, x, i);
    RunExtends(IsQuote, t, x, i + Run(IsEndMark, t[i..]));
  }

  lemma PlainUpTo(t: string, q: nat, a: nat)
    requires q <= a <= |t| && a + Run(IsPlain, t[a..]) < |t|
    ensures q + Run(IsPlain, t[q..]) <= a + Run(IsPlain, t[a..])
  {
  }

  /** A match that stops short of the end of the text stays the next match when the text grows. */
  lemma {:induction false} NextMatchExtends(t: string, x: string, q: nat)
    requires q <= |t| && NextMatch(t, q).Match? && NextMatch(t, q).end < |t|
    ensures NextMatch(t + x, q) == NextMatch(t, q)
    decreases |t| - q
  {
    hide MatchEnd, Run;
    var m := NextMatch(t, q);
    MatchMeetsMark(t, m.start);
    PlainUpTo(t, q, m.start);
    MatchIsLonger(t, q);
    MatchEndExtends(t, x, q);
    if MatchEnd(t, q) == -1 {
      NextMatchExtends(t, x, q + 1);
    }
  }

  lemma MatchMeetsMark(t: string, q: nat)
    requires q <= |t| && MatchEnd(t, q) != -1
    ensures q + Run(IsPlain, t[q..]) < |t|
  {
  }

  lemma NothingAtEnd(t: string)
    ensures SplitFrom(t, |t|) == Split([], "")
  {
  }

  predicate SameFirst(n: nat, a: seq<string>, b: seq<string>) {
    n <= |a| && n <= |b| && a[..n] == b[..n]
  }

  lemma SameFirstCons(s: string, n: nat, a: seq<string>, b: seq<string>)
    requires SameFirst(n, a, b)
    ensures SameFirst(n + 1, [s] + a, [s] + b)
  {
  }

  /** The firm sentences stay the first sentences when the text grows, and stay firm. */
  lemma {:induction false} FirmSentencesStay(t: string, x: string, p: nat)
    requires p <= |t|
    ensures SameFirst(Firm(SplitFrom(t, p)), SplitFrom(t, p).sents, SplitFrom(t + x, p).sents)
    ensures Firm(SplitFrom(t, p)) <= Firm(SplitFrom(t + x, p))
    decreases |t| - p
  {
    hide NextMatch, SplitFrom, SameFirst, Firm;
    var m := NextMatch(t, p);
    NothingFirm(SplitFrom(t, p).sents, SplitFrom(t + x, p).sents);
    if m.NoMatch? {
      SplitStop(t, p);
    } else {
      SplitStep(t, p, m);
      if m.end == |t| {
        NothingAtEnd(t);
        OneNotFirm(t[m.start..m.end]);
      } else {
        NextMatchExtends(t, x, p);
        FirmSentencesStay(t, x, m.end);
        OneMoreFirm(t, x, p, m);
      }
    }
  }

  /** A sentence with text behind it comes before the ones that stay. */
  lemma OneMoreFirm(t: string, x: string, p: nat, m: Found)
    requires p <= |t| && m.Match? && m.end < |t| && NextMatch(t, p) == m == NextMatch(t + x, p)
    requires SameFirst(Firm(SplitFrom(t, m.end)), SplitFrom(t, m.end).sents, SplitFrom(t + x, m.end).sents)
    requires Firm(SplitFrom(t, m.end)) <= Firm(SplitFrom(t + x, m.end))
    ensures SameFirst(Firm(SplitFrom(t, p)), SplitFrom(t, p).sents, SplitFrom(t + x, p).sents)
    ensures Firm(SplitFrom(t, p)) <= Firm(SplitFrom(t + x, p))
  {
    hide NextMatch, SplitFrom, SameFirst, Firm;
    var piece, a, b := t[m.start..m.end], SplitFrom(t, m.end), SplitFrom(t + x, m.end);
    SplitStep(t, p, m);
    SplitStep(t + x, p, m);
    assert (t + x)[m.start..m.end] == piece;
    FirmStep(t, m, piece);
    FirmStep(t + x, m, piece);
    SameFirstCons(piece, Firm(a), a.sents, b.sents);
    assert SplitFrom(t, p) == Split([piece] + a.sents, a.tail);
    assert SplitFrom(t + x, p) == Split([piece] + b.sents, b.tail);
  }

  lemma OneNotFirm(piece: string)
    ensures Firm(Split([piece] + [], "")) == 0
  {
  }

  lemma FirmStep(t: string, m: Found, piece: string)
    requires m.Match? && m.end < |t|
    ensures var s := SplitFrom(t, m.end); Firm(Split([piece] + s.sents, s.tail)) == Firm(s) + 1
  {
    hide NextMatch, SplitFrom;
    TailOrSentence(t, m.end);
  }

  lemma NothingFirm(a: seq<string>, b: seq<string>)
    ensures SameFirst(0, a, b)
  {
  }

  lemma TailOrSentence(t: string, p: nat)
    requires p < |t|
    ensures SplitFrom(t, p).sents != [] || SplitFrom(t, p).tail != ""
  {
  }

  // ---- loss ----

  /** An end mark whose run, with the quotes behind it, meets a blank or the end of the text. */
  predicate EndsSentence(t: string, i: nat) {
    i < |t| && IsEndMark(t[i]) && (MarksEnd(t, i) == |t| || IsSpace(t[MarksEnd(t, i)]))
  }

  /** An end mark that ends no sentence, such as the dot in "3.14". */
  predicate EndsNothing(t: string, i: nat) {
    i < |t| && IsEndMark(t[i]) && !EndsSentence(t, i)
  }

  ghost predicate LosesText(t: string, p: nat) {
    exists i, j :: p <= i < j < |t| && EndsNothing(t, i) && EndsSentence(t, j)
  }

  lemma MatchAtMark(t: string, j: nat)
    requires EndsSentence(t, j)
    ensures MatchEnd(t, j) != -1
  {
  }

  lemma {:induction false} NoMatchNoEnd(t: string, q: nat, j: nat)
    requires q <= j < |t| && EndsSentence(t, j)
    ensures NextMatch(t, q).Match?
    decreases j - q
  {
    hide MatchEnd, EndsSentence;
    if q == j {
      MatchAtMark(t, j);
    } else {
      NoMatchNoEnd(t, q + 1, j);
    }
  }

  /** The attempt at `q` fails exactly when the first mark it meets ends nothing. */
  lemma FirstMark(t: string, q: nat) returns (i: nat)
    requires q <= |t| && q + Run(IsPlain, t[q..]) < |t|
    ensures q <= i < |t| && IsEndMark(t[i]) && (forall h :: q <= h < i ==> !IsEndMark(t[h]))
    ensures MatchEnd(t, q) != -1 <==> EndsSentence(t, i)
    ensures MatchEnd(t, q) != -1 ==> MatchEnd(t, q) == MarksEnd(t, i) + Run(IsSpace, t[MarksEnd(t, i)..])
  {
    hide MarksEnd, IsSpace, IsEndMark, Run;
    i := q + Run(IsPlain, t[q..]);
    assert t[i] == t[q..][i - q];
    RunHas(IsPlain, t, q);
    assert forall h :: q <= h < i ==> IsPlain(t[h]);
  }

  lemma RunTail(f: char -> bool, t: string, i: nat, h: nat)
    requires i <= |t| && i <= h <= i + Run(f, t[i..])
    ensures h + Run(f, t[h..]) == i + Run(f, t[i..])
  {
  }

  /** Inside a match every mark ends a sentence. */
  lemma MatchHasNoBrokenMark(t: string, q: nat, h: nat)
    requires q <= h < |t| && MatchEnd(t, q) != -1 && h < MatchEnd(t, q) && IsEndMark(t[h])
    ensures EndsSentence(t, h)
  {
    hide Run, IsEndMark, IsQuote, IsSpace, MatchEnd, MarksEnd;
    MatchMeetsMark(t, q);
    var i := FirstMark(t, q);
    MarkInFirstRun(t, i, h);
  }

  lemma MarkInFirstRun(t: string, i: nat, h: nat)
    requires i <= h < |t| && h < MarksEnd(t, i) + Run(IsSpace, t[MarksEnd(t, i)..])
    requires IsEndMark(t[i]) && IsEndMark(t[h])
    ensures MarksEnd(t, h) == MarksEnd(t, i)
  {
    hide Run;
    var j := i + Run(IsEndMark, t[i..]);
    var k := j + Run(IsQuote, t[j..]);
    RunHas(IsQuote, t, j);
    RunHas(IsSpace, t, k);
    assert h < k;
    assert h < j;
    RunTail(IsEndMark, t, i, h);
  }

  lemma RunHas(f: char -> bool, t: string, i: nat)
    requires i <= |t|
    ensures forall h :: i <= h < i + Run(f, t[i..]) ==> f(t[h])
  {
  }

  function Size(s: Split): nat {
    |Concat(s.sents)| + |s.tail|
  }

  /** Nothing is lost exactly when no mark that ends nothing stands before one that ends a sentence; sentences and tail
      are then a partition of the text. */
  lemma {:induction false} SplitKeepsIff(t: string, p: nat)
    requires p <= |t|
    ensures Size(SplitFrom(t, p)) <= |t| - p
    ensures Size(SplitFrom(t, p)) == |t| - p <==> !LosesText(t, p)
    ensures Concat(SplitFrom(t, p).sents) + SplitFrom(t, p).tail == t[p..] <==> !LosesText(t, p)
    decreases |t| - p
  {
    hide NextMatch, MatchEnd, SplitFrom, Concat, EndsSentence;
    var m := NextMatch(t, p);
    if m.NoMatch? {
      SplitStop(t, p);
      ConcatNothing();
      assert "" + t[p..] == t[p..];
      if LosesText(t, p) {
        var i, j :| p <= i < j < |t| && EndsNothing(t, i) && EndsSentence(t, j);
        NoMatchNoEnd(t, p, j);
      }
    } else {
      SplitStep(t, p, m);
      SplitKeepsIff(t, m.end);
      var rest := SplitFrom(t, m.end);
      var piece := t[m.start..m.end];
      ConcatCons(piece, rest.sents);
      Assoc(piece, Concat(rest.sents), rest.tail);
      if m.start == p {
        assert t[p..] == piece + t[m.end..];
        SamePrefix(piece, Concat(rest.sents) + rest.tail, t[m.end..]);
        FromMatchOn(t, p, m.end);
      } else {
        SkippedLoses(t, p, m.start);
      }
    }
  }

  lemma SamePrefix(a: string, b: string, c: string)
    ensures a + b == a + c <==> b == c
  {
    assert (a + b)[|a|..] == b && (a + c)[|a|..] == c;
  }

  lemma FromMatchOn(t: string, p: nat, e: nat)
    requires p < e <= |t| && MatchEnd(t, p) == e
    ensures LosesText(t, p) <==> LosesText(t, e)
  {
    hide MatchEnd, EndsSentence;
    if LosesText(t, p) {
      var i, j :| p <= i < j < |t| && EndsNothing(t, i) && EndsSentence(t, j);
      if i < e {
        MatchHasNoBrokenMark(t, p, i);
      }
      assert e <= i;
    }
    if LosesText(t, e) {
      var i, j :| e <= i < j < |t| && EndsNothing(t, i) && EndsSentence(t, j);
      assert p <= i;
    }
  }

  /** A failed attempt before a match proves a loss. */
  lemma SkippedLoses(t: string, p: nat, a: nat)
    requires p < a <= |t| && MatchEnd(t, a) != -1 && NextMatch(t, p).Match? && NextMatch(t, p).start == a
    ensures LosesText(t, p)
  {
    hide MatchEnd, EndsSentence, Run;
    MatchMeetsMark(t, a);
    PlainUpTo(t, p, a);
    var j := FirstMark(t, a);
    var i := FirstMark(t, p);
    assert MatchEnd(t, p) == -1;
    MarkIsSentence(t, i);
    MarkIsSentence(t, j);
    assert i < j;
  }

  lemma MarkIsSentence(t: string, i: nat)
    requires i < |t| && IsEndMark(t[i])
    ensures EndsSentence(t, i) <==> !EndsNothing(t, i)
  {
  }

  /** The text before the dot of a number is lost when a sentence follows, and is only the tail when none does. */
  lemma DecimalIsLost()
    ensures SplitFrom("3.14 ok.", 0) == Split(["14 ok."], "")
    ensures SplitFrom("3.14 ok", 0) == Split([], "3.14 ok")
  {
    hide NextMatch, SplitFrom, MatchEnd;
    var t := "3.14 ok.";
    AttemptMisses(t);
    var m := Match(2, 8);
    LastSentence(t);
    NextAt(t, 0);
    NextAt(t, 1);
    NextAt(t, 2);
    SplitStep(t, 0, m);
    NothingAtEnd(t);
    assert t[2..8] == "14 ok.";
    NumberOnly();
  }

  lemma NextAt(t: string, q: nat)
    requires q < |t|
    ensures NextMatch(t, q) == if MatchEnd(t, q) != -1 then Match(q, MatchEnd(t, q)) else NextMatch(t, q + 1)
  {
    hide MatchEnd;
  }

  /** A dot with a digit behind it fails the attempts at it and before it. */
  lemma AttemptMisses(t: string)
    requires |t| >= 3 && t[0] == '3' && t[1] == '.' && t[2] == '1'
    ensures MatchEnd(t, 0) == -1 && MatchEnd(t, 1) == -1
  {
    RunIs(IsPlain, t[0..], 1);
    RunIs(IsPlain, t[1..], 0);
    RunIs(IsEndMark, t[1..], 1);
    RunIs(IsQuote, t[2..], 0);
    assert IsAscii(t[2]);
  }

  lemma LastSentence(t: string)
    requires t == "3.14 ok."
    ensures MatchEnd(t, 2) == 8
  {
    assert t[2..] == "14 ok.";
    RunIs(IsPlain, t[2..], 5);
    assert t[7..] == ".";
    RunIs(IsEndMark, t[7..], 1);
    assert t[8..] == "";
  }

  lemma NumberOnly()
    ensures SplitFrom("3.14 ok", 0) == Split([], "3.14 ok")
  {
    hide NextMatch, SplitFrom, MatchEnd;
    var t := "3.14 ok";
    AttemptMisses(t);
    NextAt(t, 0);
    NextAt(t, 1);
    assert forall i :: 2 <= i < |t| ==> !IsEndMark(t[i]);
    NoMarkNoMatch(t, 2);
    SplitStop(t, 0);
    assert t[0..] == t;
  }

  lemma {:induction false} NoMarkNoMatch(t: string, q: nat)
    requires q <= |t| && forall i :: q <= i < |t| ==> !IsEndMark(t[i])
    ensures NextMatch(t, q) == NoMatch
    decreases |t| - q
  {
    if q < |t| {
      RunIs(IsPlain, t[q..], |t| - q);
      NoMarkNoMatch(t, q + 1);
    }
  }

  // ---- the expression ----

  predicate AllOf(t: string, i: int, j: int, cs: set<char>) {
    forall k :: 0 <= i <= k < j <= |t| ==> t[k] in cs
  }

  predicate NoneOf(t: string, i: int, j: int, cs: set<char>) {
    forall k :: 0 <= i <= k < j <= |t| ==> t[k] !in cs
  }

  predicate AllBlank(t: string, i: int, j: int) {
    forall k :: 0 <= i <= k < j <= |t| ==> IsSpace(t[k])
  }

  /** A match from `q` to `e`: no marks up to `i`, marks up to `j`, quotes up to `k`, and then all the blanks there
      are, at least one unless the text ends. */
  predicate Matches(t: string, q: int, i: int, j: int, k: int, e: int) {
    && 0 <= q <= i < j <= k <= e <= |t|
    && NoneOf(t, q, i, {'.', '!', '?', '\U{2026}'})
    && AllOf(t, i, j, {'.', '!', '?', '\U{2026}'}) && AllOf(t, j, k, {'"', '\'', '\U{201D}', '\U{2019}'})
    && AllBlank(t, k, e) && (e == |t| || (k < e && !IsSpace(t[e])))
  }

  lemma MatchParts(t: string, q: nat)
    requires q <= |t|
    ensures var i := q + Run(IsPlain, t[q..]);
            i <= |t|
            && var j := i + Run(IsEndMark, t[i..]);
               var k := j + Run(IsQuote, t[j..]);
               && j <= k <= |t|
               && (i < |t| ==>
                     i < j && MatchEnd(t, q) == if k == |t| || IsSpace(t[k]) then k + Run(IsSpace, t[k..]) else -1)
               && (i == |t| ==> MatchEnd(t, q) == -1)
  {
    hide Run, IsSpace, IsQuote, IsEndMark;
    var i := q + Run(IsPlain, t[q..]);
    if i < |t| {
      assert t[q..][i - q] == t[i] && t[i..][0] == t[i];
    }
  }

  lemma EndIsMatch(t: string, q: nat)
    requires q <= |t| && MatchEnd(t, q) != -1
    ensures exists i, j, k :: Matches(t, q, i, j, k, MatchEnd(t, q))
  {
    hide Run, IsSpace, IsEndMark, IsQuote, MatchEnd, AllOf, NoneOf, AllBlank, IsPlain;
    MatchParts(t, q);
    var i, e := q + Run(IsPlain, t[q..]), MatchEnd(t, q);
    var j := i + Run(IsEndMark, t[i..]);
    var k := j + Run(IsQuote, t[j..]);
    RunsAre(t, q, i, j, k, e);
    assert e < |t| ==> t[k..][e - k] == t[e];
    assert Matches(t, q, i, j, k, e);
  }

  lemma RunsAre(t: string, q: nat, i: nat, j: nat, k: nat, e: nat)
    requires q <= i <= j <= k <= e <= |t| && i == q + Run(IsPlain, t[q..]) && j == i + Run(IsEndMark, t[i..])
    requires k == j + Run(IsQuote, t[j..]) && e == k + Run(IsSpace, t[k..])
    ensures NoneOf(t, q, i, {'.', '!', '?', '\U{2026}'}) && AllOf(t, i, j, {'.', '!', '?', '\U{2026}'})
    ensures AllOf(t, j, k, {'"', '\'', '\U{201D}', '\U{2019}'}) && AllBlank(t, k, e)
  {
    hide Run, IsSpace, IsEndMark, IsQuote;
    SameClasses();
    RunHas(IsPlain, t, q);
    RunHas(IsEndMark, t, i);
    RunHas(IsQuote, t, j);
    RunHas(IsSpace, t, k);
  }

  lemma MatchIsEnd(t: string, q: nat, i: int, j: int, k: int, e: int)
    requires Matches(t, q, i, j, k, e)
    ensures MatchEnd(t, q) == e
  {
    hide Run, IsSpace, IsEndMark, IsQuote, MatchEnd, AllOf, NoneOf, AllBlank, IsPlain;
    MatchParts(t, q);
    MatchRuns(t, q, i, j, k, e);
  }

  lemma MatchRuns(t: string, q: nat, i: int, j: int, k: int, e: int)
    requires Matches(t, q, i, j, k, e)
    ensures q <= i < j <= k <= e <= |t| && (k == |t| || IsSpace(t[k]))
    ensures q + Run(IsPlain, t[q..]) == i && i + Run(IsEndMark, t[i..]) == j && j + Run(IsQuote, t[j..]) == k
    ensures k + Run(IsSpace, t[k..]) == e
  {
    hide Run, IsSpace, IsEndMark, IsQuote;
    SameClasses();
    assert k < e ==> IsSpace(t[k]);
    RunTo(IsPlain, t, q, i);
    RunTo(IsEndMark, t, i, j);
    RunTo(IsQuote, t, j, k);
    RunTo(IsSpace, t, k, e);
  }

  /** `MatchEnd` is where the expression's match from `q` ends, if there is one. */
  lemma MatchEndIff(t: string, q: nat, e: int)
    requires q <= |t| && e != -1
    ensures MatchEnd(t, q) == e <==> exists i, j, k :: Matches(t, q, i, j, k, e)
  {
    hide MatchEnd, Matches;
    if MatchEnd(t, q) == e {
      EndIsMatch(t, q);
    }
    if i, j, k :| Matches(t, q, i, j, k, e) {
      MatchIsEnd(t, q, i, j, k, e);
    }
  }

  lemma SameClasses()
    ensures forall c: char :: IsEndMark(c) <==> c in {'.', '!', '?', '\U{2026}'}
    ensures forall c: char :: IsQuote(c) <==> c in {'"', '\'', '\U{201D}', '\U{2019}'}
    ensures forall c: char :: IsSpace(c) ==> !IsEndMark(c) && !IsQuote(c)
    ensures forall c: char :: IsQuote(c) ==> !IsEndMark(c)
  {
  }

  lemma RunTo(f: char -> bool, t: string, i: nat, j: nat)
    requires i <= j <= |t| && (forall k :: i <= k < j ==> f(t[k])) && (j < |t| ==> !f(t[j]))
    ensures i + Run(f, t[i..]) == j
  {
    RunIs(f, t[i..], j - i);
  }
}
