/** The translator's sentence splitter: SENTENCE_SPLIT_RE written as a left-to-right scanner. */
module Sentences {
  import opened Text
  import opened Normal

  /** End of the terminator run at `i` and of the closers behind it. */
  function RunsEnd(t: string, i: nat): (r: nat)
    requires i <= |t|
    ensures i <= r <= |t|
  {
    var q := i + Run(IsEndMark, t[i..]);
    q + Run(IsCloser, t[q..])
  }

  /** If a terminator stands at `i`, the end of its run and of the closers behind it, provided a blank or the end of
      the text follows; otherwise -1. Giving back a terminator or a closer never helps the expression to match,
      because neither is a blank. */
  function EndAt(t: string, i: nat): (r: int)
    requires i < |t|
    ensures r == -1 || (i < r <= |t| && IsEndMark(t[i]) && (r == |t| || IsSpace(t[r])) && !IsSpace(t[r - 1]))
  {
    if !IsEndMark(t[i]) then -1
    else
      LastOfRuns(t, i);
      var e := RunsEnd(t, i);
      if e == |t| || IsSpace(t[e]) then e else -1
  }

  lemma LastOfRuns(t: string, i: nat)
    requires i < |t| && IsEndMark(t[i])
    ensures RunsEnd(t, i) > i && !IsSpace(t[RunsEnd(t, i) - 1])
  {
  }

  /** End of the first sentence end at or behind position `i`, or -1. */
  function NextEnd(t: string, i: nat): (r: int)
    requires i <= |t|
    ensures r == -1 || (i < r <= |t| && (r == |t| || IsSpace(t[r])) && !IsSpace(t[r - 1]))
    decreases |t| - i
  {
    if i == |t| then -1
    else
      var e := EndAt(t, i);
      if e != -1 then e else NextEnd(t, i + 1)
  }

  /** The sentences from position `p` on, each with at least one character before its terminator, and the text behind
      the last one, which began at `lastEnd` if there is no further sentence. */
  function SplitFrom(t: string, p: nat, lastEnd: nat): (r: Split)
    requires p <= |t| && lastEnd <= |t|
    decreases |t| - p
  {
    var e := if p == |t| then -1 else NextEnd(t, p + 1);
    if e == -1 then Split([], Norm(t[lastEnd..]))
    else
      Prepend(Norm(t[p..e]), SplitFrom(t, e + Run(IsSpace, t[e..]), e))
  }

  function Prepend(seg: string, rest: Split): Split {
    if seg != [] then Split([seg] + rest.sents, rest.tail) else rest
  }

  lemma SplitFromStop(t: string, p: nat, lastEnd: nat)
    requires p <= |t| && lastEnd <= |t| && (p == |t| || NextEnd(t, p + 1) == -1)
    ensures SplitFrom(t, p, lastEnd) == Split([], Norm(t[lastEnd..]))
  {
  }

  lemma SplitFromStep(t: string, p: nat, lastEnd: nat, e: nat, p': nat, seg: string, rest: Split)
    requires p < |t| && lastEnd <= |t| && NextEnd(t, p + 1) == e
    requires p' == e + Run(IsSpace, t[e..]) && seg == Norm(t[p..e]) && rest == SplitFrom(t, p', e)
    ensures SplitFrom(t, p, lastEnd) == Prepend(seg, rest)
  {
    hide Norm, NextEnd, Run, Prepend;
  }

  function SplitSentences(text: string): Split {
    SplitFrom(Norm(text), 0, 0)
  }

  /** The loop over the matches. */
  method SplitCompleteSentences(text: string) returns (r: Split)
    ensures r == SplitSentences(text)
  {
    hide Norm, NextEnd, Run, SplitFrom;
    var t := Norm(text);
    var out: seq<string> := [];
    var p, lastEnd := 0, 0;
    assert [] + SplitFrom(t, 0, 0).sents == SplitFrom(t, 0, 0).sents;
    while p < |t|
      invariant 0 <= p <= |t| && 0 <= lastEnd <= |t|
      invariant Split(out + SplitFrom(t, p, lastEnd).sents, SplitFrom(t, p, lastEnd).tail) == SplitSentences(text)
    {
      var e := NextEnd(t, p + 1);
      if e == -1 {
        break;
      }
      var seg := Norm(t[p..e]);
      var p' := e + Run(IsSpace, t[e..]);
      ghost var rest := SplitFrom(t, p', e);
      SplitFromStep(t, p, lastEnd, e, p', seg, rest);
      assert out + ([seg] + rest.sents) == (out + [seg]) + rest.sents;
      if seg != [] {
        out := out + [seg];
      }
      p, lastEnd := p', e;
    }
    SplitFromStop(t, p, lastEnd);
    assert out + [] == out;
    r := Split(out, Norm(t[lastEnd..]));
  }

  function Parts(s: Split): seq<string> {
    s.sents + (if s.tail != [] then [s.tail] else [])
  }

  /** A piece of a normalised text that starts and ends with a non-blank is left alone by the normaliser. */
  lemma PieceIsNormal(t: string, p: nat, e: nat)
    requires IsNormal(t) && p < e <= |t| && !IsSpace(t[p]) && !IsSpace(t[e - 1])
    ensures Norm(t[p..e]) == t[p..e] && IsNormal(t[p..e])
  {
    hide Norm, IsNormal;
    assert t[p..e][0] == t[p] && t[p..e][e - p - 1] == t[e - 1];
    SliceOfNormal(t, p, e);
    NormFixedPoint(t[p..e]);
  }

  /** Between two pieces of a normalised text there is exactly one blank. */
  lemma GapIsOne(t: string, e: nat)
    requires IsNormal(t) && 0 < e < |t| && IsSpace(t[e])
    ensures Run(IsSpace, t[e..]) == 1 && e + 1 < |t| && !IsSpace(t[e + 1]) && t[e] == ' '
  {
  }

  /** The tail behind a sentence is the text behind the blank. */
  lemma TailIsNormal(t: string, e: nat)
    requires IsNormal(t) && 0 < e <= |t| && (e == |t| || IsSpace(t[e]))
    ensures e == |t| ==> Norm(t[e..]) == []
    ensures e < |t| ==> e + 1 < |t| && Norm(t[e..]) == t[e + 1..] != []
  {
    hide DotsCapped;
    var s := t[e..];
    PairsTail(t, e);
    if e == |t| {
      assert s == [];
    } else {
      GapIsOne(t, e);
      assert s[|s| - 1] == t[|t| - 1];
      CollapseOfNormal(s);
      assert LStrip(s) == t[e + 1..];
      var u := t[e + 1..];
      assert u[0] == t[e + 1] && u[|u| - 1] == t[|t| - 1];
      assert u == t[e + 1..|t|];
      SliceOfNormal(t, e + 1, |t|);
      StripOfTrimmed(u);
      assert Strip(s) == u;
      NormFixedPoint(u);
      CollapseOfNormal(u);
    }
  }

  lemma TrimmedEnd(t: string)
    requires IsNormal(t) && t != []
    ensures !IsSpace(t[|t| - 1]) && !IsSpace(t[0])
  {
  }

  lemma NothingLeft(t: string)
    ensures Run(IsSpace, t[|t|..]) == 0 && SplitFrom(t, |t|, |t|) == Split([], Norm(""))
    ensures Norm("") == ""
  {
  }

  lemma PartsCons(piece: string, rest: Split)
    ensures Parts(Split([piece] + rest.sents, rest.tail)) == [piece] + Parts(rest)
    ensures Parts(rest) != [] ==> Join([piece] + Parts(rest)) == piece + " " + Join(Parts(rest))
  {
  }

  /** From a sentence start on, the sentences and the tail joined with single blanks are the rest of the text. */
  lemma {:induction false} SplitFromIsLossless(t: string, p: nat, lastEnd: nat)
    requires IsNormal(t) && p < |t| && !IsSpace(t[p])
    requires lastEnd <= |t| && Norm(t[lastEnd..]) == t[p..]
    ensures Parts(SplitFrom(t, p, lastEnd)) != []
    ensures Join(Parts(SplitFrom(t, p, lastEnd))) == t[p..]
    decreases |t| - p
  {
    hide IsNormal, Norm, Run, NextEnd, SplitFrom, Join;
    var e := NextEnd(t, p + 1);
    if e == -1 {
      SplitFromStop(t, p, lastEnd);
      assert Parts(SplitFrom(t, p, lastEnd)) == [t[p..]];
      JoinOne(t[p..]);
    } else {
      PieceIsNormal(t, p, e);
      TailIsNormal(t, e);
      TrimmedEnd(t);
      var piece, p' := t[p..e], e + Run(IsSpace, t[e..]);
      var rest := SplitFrom(t, p', e);
      SplitFromStep(t, p, lastEnd, e, p', piece, rest);
      if e == |t| {
        NothingLeft(t);
        assert Parts(SplitFrom(t, p, lastEnd)) == [piece];
        assert piece == t[p..];
        JoinOne(piece);
      } else {
        GapIsOne(t, e);
        SplitFromIsLossless(t, e + 1, e);
        PartsCons(piece, rest);
        assert t[p..] == piece + " " + t[e + 1..];
      }
    }
  }

  lemma JoinOne(s: string)
    ensures Join([s]) == s
  {
  }

  /** Splitting is a lossless partition: nothing is dropped, reordered or doubled. */
  lemma SplitIsLossless(text: string)
    ensures Join(Parts(SplitSentences(text))) == Norm(text)
  {
    hide IsNormal, Norm, NextEnd;
    var t := Norm(text);
    NormIsNormal(text);
    NormIdempotent(text);
    assert t[0..] == t;
    if t != [] {
      TrimmedEnd(t);
      SplitFromIsLossless(t, 0, 0);
    } else {
      NothingLeft(t);
    }
  }

  // ---- what the pieces look like ----

  /** A normalised sentence: it ends with its only sentence end. */
  ghost predicate IsSentence(s: string) {
    s != [] && IsNormal(s) && NextEnd(s, 1) == |s|
  }

  /** A run that cannot cross position `e` is the same in a slice that ends there. */
  lemma RunInSlice(f: char -> bool, t: string, p: nat, e: nat, i: nat)
    requires p <= i <= e <= |t| && (e < |t| ==> !f(t[e]))
    ensures Run(f, t[p..e][i - p..]) == Run(f, t[i..]) <= e - i
  {
  }

  lemma BlankEndsRuns(t: string, e: nat)
    requires e <= |t| && (e < |t| ==> IsSpace(t[e]))
    ensures e < |t| ==> !IsEndMark(t[e]) && !IsCloser(t[e])
  {
  }

  lemma RunsEndSlice(t: string, p: nat, e: nat, i: nat)
    requires p <= i <= e <= |t| && (e == |t| || IsSpace(t[e]))
    ensures RunsEnd(t, i) <= e && RunsEnd(t[p..e], i - p) == RunsEnd(t, i) - p
  {
    BlankEndsRuns(t, e);
    hide Run, IsEndMark, IsCloser, IsSpace;
    RunInSlice(IsEndMark, t, p, e, i);
    RunInSlice(IsCloser, t, p, e, i + Run(IsEndMark, t[i..]));
  }

  /** A sentence end can be seen inside any slice that stops at a blank. */
  lemma EndAtSlice(t: string, p: nat, e: nat, i: nat)
    requires p <= i < e <= |t| && (e == |t| || IsSpace(t[e]))
    ensures EndAt(t[p..e], i - p) == (if EndAt(t, i) == -1 then -1 else EndAt(t, i) - p)
  {
    hide RunsEnd, IsEndMark, IsSpace;
    RunsEndSlice(t, p, e, i);
    var c := RunsEnd(t, i);
    assert t[p..e][i - p] == t[i];
    assert c < e ==> t[p..e][c - p] == t[c];
  }

  lemma {:induction false} NextEndOfPiece(t: string, p: nat, e: nat, i: nat)
    requires p <= i <= e <= |t| && NextEnd(t, i) == e
    ensures NextEnd(t[p..e], i - p) == e - p
    decreases e - i
  {
    hide EndAt;
    assert i < e;
    EndAtSlice(t, p, e, i);
    if EndAt(t, i) == -1 {
      NextEndOfPiece(t, p, e, i + 1);
    }
  }

  /** Every piece the splitter returns is a sentence with no sentence end inside it, and the tail has none at all. */
  lemma {:induction false} SplitFromShape(t: string, p: nat, lastEnd: nat)
    requires IsNormal(t) && p < |t| && !IsSpace(t[p])
    requires lastEnd <= |t| && Norm(t[lastEnd..]) == t[p..]
    ensures forall s :: s in SplitFrom(t, p, lastEnd).sents ==> IsSentence(s)
    ensures SplitFrom(t, p, lastEnd).tail == [] || NextEnd(SplitFrom(t, p, lastEnd).tail, 1) == -1
    decreases |t| - p
  {
    hide IsNormal, Norm, Run, NextEnd, SplitFrom, IsSentence;
    var e := NextEnd(t, p + 1);
    if e == -1 {
      SplitFromStop(t, p, lastEnd);
      NextEndOfTail(t, p, p + 1);
    } else {
      PieceIsNormal(t, p, e);
      PieceIsSentence(t, p, e);
      TailIsNormal(t, e);
      TrimmedEnd(t);
      NothingLeft(t);
      var p' := e + Run(IsSpace, t[e..]);
      SplitFromStep(t, p, lastEnd, e, p', t[p..e], SplitFrom(t, p', e));
      if e < |t| {
        GapIsOne(t, e);
        SplitFromShape(t, e + 1, e);
      }
    }
  }

  lemma PieceIsSentence(t: string, p: nat, e: nat)
    requires IsNormal(t) && p < |t| && !IsSpace(t[p]) && NextEnd(t, p + 1) == e
    ensures IsSentence(t[p..e])
  {
    hide IsNormal, NextEnd;
    PieceIsNormal(t, p, e);
    NextEndOfPiece(t, p, e, p + 1);
  }

  lemma {:induction false} NextEndOfTail(t: string, p: nat, i: nat)
    requires p <= i <= |t| && NextEnd(t, i) == -1
    ensures NextEnd(t[p..], i - p) == -1
    decreases |t| - i
  {
    hide EndAt;
    if i < |t| {
      EndAtSlice(t, p, |t|, i);
      assert t[p..|t|] == t[p..];
      NextEndOfTail(t, p, i + 1);
    }
  }

  lemma SplitShape(text: string)
    ensures forall s :: s in SplitSentences(text).sents ==> IsSentence(s)
    ensures SplitSentences(text).tail == [] || NextEnd(SplitSentences(text).tail, 1) == -1
  {
    hide IsNormal, Norm, NextEnd;
    var t := Norm(text);
    NormIsNormal(text);
    NormIdempotent(text);
    assert t[0..] == t;
    if t != [] {
      TrimmedEnd(t);
      SplitFromShape(t, 0, 0);
    } else {
      NothingLeft(t);
    }
  }

  /** Sentences and tail together hold every letter and digit. */
  lemma SplitAlnums(text: string)
    ensures var r := SplitSentences(text); Alnums(Concat(r.sents)) + Alnums(r.tail) == Alnums(text)
  {
    hide Norm, SplitFrom, Alnums, Concat;
    var r := SplitSentences(text);
    SplitIsLossless(text);
    NormAlnums(text);
    JoinAlnums(Parts(r));
    ConcatAppend(r.sents, if r.tail != [] then [r.tail] else []);
    ConcatSingle(r.tail);
    AlnumsConcat(Concat(r.sents), r.tail);
  }

  lemma ConcatSingle(s: string)
    ensures Concat([s]) == s && Concat([]) == "" && (s == [] ==> Alnums(s) == [])
  {
  }

  lemma {:induction false} JoinAlnums(parts: seq<string>)
    ensures Alnums(Join(parts)) == Alnums(Concat(parts))
  {
    hide Alnums;
    if parts == [] {
    } else if |parts| == 1 {
      ConcatSingle(parts[0]);
      assert parts == [parts[0]];
    } else {
      JoinAlnums(parts[1..]);
      AlnumsConcat(parts[0] + " ", Join(parts[1..]));
      AlnumsConcat(parts[0], " ");
      AlnumsOfNoise(" ");
      AlnumsConcat(parts[0], Concat(parts[1..]));
    }
  }

  // ---- the other way round ----

  /** Sentences and a tail as a text can hold them: each is what the splitter makes, and behind a blank no mark
      follows. */
  ghost predicate Presentable(r: Split) {
    && (forall i :: 0 <= i < |r.sents| ==> IsSentence(r.sents[i]))
    && (r.tail != [] ==> IsNormal(r.tail) && NextEnd(r.tail, 1) == -1)
    && NoMarkBehindBlank(Parts(r))
  }

  predicate NoMarkBehindBlank(parts: seq<string>) {
    forall i :: 1 <= i < |parts| ==> parts[i] != [] && !IsPunct(parts[i][0])
  }

  ghost predicate PartsNormal(parts: seq<string>) {
    forall i :: 0 <= i < |parts| ==> parts[i] != [] && IsNormal(parts[i])
  }

  lemma {:induction false} JoinIsNormal(parts: seq<string>)
    requires PartsNormal(parts) && NoMarkBehindBlank(parts)
    ensures IsNormal(Join(parts)) && (parts != [] ==> Join(parts) != [] && Join(parts)[0] == parts[0][0])
    decreases |parts|
  {
    hide IsNormal, IsPunct;
    if |parts| > 1 {
      var rest := parts[1..];
      assert forall i :: 0 <= i < |rest| ==> rest[i] == parts[i + 1];
      JoinIsNormal(rest);
      NormalJoin(parts[0], Join(rest));
    } else if parts == [] {
      NothingIsNormal();
    }
  }

  lemma NothingIsNormal()
    ensures IsNormal("")
  {
  }

  /** A sentence end seen in a slice that stops at a blank is one in the text. */
  lemma {:induction false} NextEndInSlice(t: string, p: nat, e: nat, i: nat)
    requires p <= i <= e <= |t| && (e == |t| || IsSpace(t[e]))
    ensures NextEnd(t[p..e], i - p) != -1 ==> NextEnd(t, i) == NextEnd(t[p..e], i - p) + p
    ensures NextEnd(t[p..e], i - p) == -1 && e == |t| ==> NextEnd(t, i) == -1
    decreases e - i
  {
    hide EndAt, IsSpace;
    if i < e {
      EndAtSlice(t, p, e, i);
      NextEndInSlice(t, p, e, i + 1);
    }
  }

  lemma PartsTail(r: Split)
    requires r.sents != []
    ensures Parts(r) == [r.sents[0]] + Parts(Split(r.sents[1..], r.tail))
    ensures Parts(r)[1..] == Parts(Split(r.sents[1..], r.tail))
    ensures Presentable(r) ==> Presentable(Split(r.sents[1..], r.tail)) && IsSentence(r.sents[0])
  {
    hide IsSentence, IsNormal, NextEnd, IsPunct;
    var rest := Split(r.sents[1..], r.tail);
    assert Parts(r) == [r.sents[0]] + Parts(rest);
    assert forall i :: 0 <= i < |Parts(rest)| ==> Parts(rest)[i] == Parts(r)[i + 1];
  }

  lemma {:induction false} JoinSplitsFrom(t: string, p: nat, lastEnd: nat, r: Split)
    requires IsNormal(t) && p < |t| && lastEnd <= |t| && Norm(t[lastEnd..]) == t[p..]
    requires Presentable(r) && Parts(r) != [] && t[p..] == Join(Parts(r))
    ensures SplitFrom(t, p, lastEnd) == r
    decreases |r.sents|
  {
    hide IsNormal, Norm, Run, NextEnd, SplitFrom, Join, Presentable;
    if r.sents == [] {
      JoinOne(r.tail);
      assert Parts(r) == [r.tail];
      TailHasNoEnd(t, p, r);
      SplitFromStop(t, p, lastEnd);
    } else {
      var s, rest := r.sents[0], Split(r.sents[1..], r.tail);
      PartsTail(r);
      var e := p + |s|;
      HeadOfJoin(t, p, s, Parts(rest));
      SentenceInText(t, p, s);
      var p' := e + Run(IsSpace, t[e..]);
      SplitFromStep(t, p, lastEnd, e, p', s, SplitFrom(t, p', e));
      if Parts(rest) == [] {
        NothingLeft(t);
        assert rest == Split([], "");
      } else {
        GapIsOne(t, e);
        TailIsNormal(t, e);
        JoinSplitsFrom(t, e + 1, e, rest);
      }
      assert [s] + rest.sents == r.sents;
    }
  }

  lemma TailHasNoEnd(t: string, p: nat, r: Split)
    requires p < |t| && r.sents == [] && r.tail == t[p..] && Presentable(r)
    ensures NextEnd(t, p + 1) == -1 && r.tail != []
  {
    hide NextEnd, IsNormal;
    assert t[p..|t|] == t[p..];
    NextEndInSlice(t, p, |t|, p + 1);
  }

  lemma HeadOfJoin(t: string, p: nat, s: string, rest: seq<string>)
    requires p < |t| && s != [] && t[p..] == Join([s] + rest)
    ensures var e := p + |s|;
            && e <= |t| && t[p..e] == s
            && (rest == [] ==> e == |t|)
            && (rest != [] ==> e < |t| && t[e] == ' ' && t[e + 1..] == Join(rest))
  {
    assert ([s] + rest)[1..] == rest;
    var e := p + |s|;
    assert t[p..][..|s|] == s;
    if rest != [] {
      assert t[p..] == s + " " + Join(rest);
      assert t[p..][|s|] == ' ' && t[p..][|s| + 1..] == Join(rest);
      assert t[p..][|s| + 1..] == t[e + 1..];
    }
  }

  lemma SentenceInText(t: string, p: nat, s: string)
    requires p < |t| && IsSentence(s) && p + |s| <= |t| && t[p..p + |s|] == s
    requires p + |s| == |t| || IsSpace(t[p + |s|])
    ensures NextEnd(t, p + 1) == p + |s| && Norm(s) == s
  {
    hide NextEnd, IsNormal, Norm, IsSpace;
    NextEndInSlice(t, p, p + |s|, p + 1);
    NormFixedPoint(s);
  }

  /** Joining and splitting again gives back the same sentences and tail: with `SplitIsLossless` and `SplitShape`, the
      splitter is the inverse of joining. */
  lemma JoinSplits(r: Split)
    requires Presentable(r)
    ensures SplitSentences(Join(Parts(r))) == r
  {
    hide IsNormal, Norm, NextEnd, SplitFrom, Join, IsPunct;
    var t := Join(Parts(r));
    assert PartsNormal(Parts(r));
    JoinIsNormal(Parts(r));
    NormFixedPoint(t);
    assert t[0..] == t;
    if Parts(r) == [] {
      NothingLeft(t);
      JoinNothing();
      assert r == Split([], "");
    } else {
      JoinSplitsFrom(t, 0, 0, r);
    }
  }

  lemma JoinNothing()
    ensures Join([]) == ""
  {
  }

  // ---- growth ----

  /** What is added to a text, if anything, begins with a blank. */
  predicate IsApart(x: string) {
    x == "" || IsSpace(x[0])
  }

  /** A sentence end that is not the end of the text, or has a blank put behind it, stays the next end. */
  lemma NextEndStays(t: string, x: string, i: nat)
    requires i <= |t| && NextEnd(t, i) != -1 && (NextEnd(t, i) == |t| ==> IsApart(x))
    ensures NextEnd(t + x, i) == NextEnd(t, i)
  {
    hide NextEnd, IsSpace;
    var e := NextEnd(t, i);
    assert t[0..e] == (t + x)[0..e];
    NextEndOfPiece(t, 0, e, i);
    NextEndInSlice(t + x, 0, e, i);
  }

  lemma FirmCons(s: string, rest: Split)
    requires Parts(rest) != []
    ensures Firm(Split([s] + rest.sents, rest.tail)) == Firm(rest) + 1
  {
  }

  lemma PrefixCons(s: string, n: nat, a: seq<string>, b: seq<string>)
    requires n <= |a|
    ensures ([s] + a)[..n + 1] <= [s] + b <==> a[..n] <= b
    ensures [s] + a <= [s] + b <==> a <= b
  {
    assert ([s] + a)[..n + 1] == [s] + a[..n];
    assert [s] + a[..n] <= [s] + b <==> a[..n] <= b by { PrefixBehind(s, a[..n], b); }
    PrefixBehind(s, a, b);
  }

  lemma PrefixBehind(s: string, a: seq<string>, b: seq<string>)
    ensures [s] + a <= [s] + b <==> a <= b
  {
    if [s] + a <= [s] + b {
      assert forall i :: 0 <= i < |a| ==> a[i] == ([s] + a)[i + 1] == ([s] + b)[i + 1] == b[i];
    }
  }

  /** What growth does to a last sentence that reaches the end of the text. */
  lemma LastSentenceGrows(t: string, x: string, p: nat, lastEnd: nat, lastEnd': nat)
    requires IsNormal(t) && IsNormal(t + x) && p < |t| && !IsSpace(t[p]) && NextEnd(t, p + 1) == |t|
    requires lastEnd <= |t| && lastEnd' <= |t + x|
    ensures var a, b := SplitFrom(t, p, lastEnd), SplitFrom(t + x, p, lastEnd');
            a == Split([t[p..]], "") && (a.sents <= b.sents <==> IsApart(x))
  {
    hide IsNormal, Norm, Run, NextEnd, SplitFrom, IsSpace;
    var u := t + x;
    PieceOfLast(t, p, lastEnd);
    var e := NextEnd(u, p + 1);
    if IsApart(x) {
      NextEndStays(t, x, p + 1);
    }
    if e == -1 {
      SplitFromStop(u, p, lastEnd');
    } else {
      PieceIsNormal(u, p, e);
      var p' := e + Run(IsSpace, u[e..]);
      SplitFromStep(u, p, lastEnd', e, p', u[p..e], SplitFrom(u, p', e));
      var b := SplitFrom(u, p, lastEnd').sents;
      assert b[0] == u[p..e] && |b[0]| == e - p;
      if e == |t| {
        assert b[0] == t[p..];
        assert x != "" ==> u[|t|] == x[0];
      } else {
        assert |t[p..]| == |t| - p && [t[p..]][0] == t[p..];
        assert !([t[p..]] <= b);
      }
    }
  }

  lemma PieceOfLast(t: string, p: nat, lastEnd: nat)
    requires IsNormal(t) && p < |t| && !IsSpace(t[p]) && NextEnd(t, p + 1) == |t| && lastEnd <= |t|
    ensures SplitFrom(t, p, lastEnd) == Split([t[p..]], "")
  {
    hide IsNormal, Norm, Run, NextEnd, SplitFrom, IsSpace;
    PieceIsNormal(t, p, |t|);
    NothingLeft(t);
    assert t[p..|t|] == t[p..] && [t[p..]] + [] == [t[p..]];
    SplitFromStep(t, p, lastEnd, |t|, |t|, t[p..], SplitFrom(t, |t|, |t|));
  }

  lemma {:induction false} SplitFromGrows(t: string, x: string, p: nat, lastEnd: nat, lastEnd': nat)
    requires IsNormal(t) && IsNormal(t + x) && p < |t| && !IsSpace(t[p])
    requires lastEnd <= |t| && Norm(t[lastEnd..]) == t[p..]
    requires lastEnd' <= |t + x| && Norm((t + x)[lastEnd'..]) == (t + x)[p..]
    ensures var a, b := SplitFrom(t, p, lastEnd), SplitFrom(t + x, p, lastEnd');
            && a.sents[..Firm(a)] <= b.sents && Firm(a) <= Firm(b)
            && (a.sents <= b.sents <==> Firm(a) == |a.sents| || IsApart(x))
    decreases |t| - p
  {
    hide IsNormal, Norm, Run, NextEnd, SplitFrom, IsSpace, IsApart;
    var u, e := t + x, NextEnd(t, p + 1);
    if e == -1 {
      SplitFromStop(t, p, lastEnd);
    } else if e == |t| {
      LastSentenceGrows(t, x, p, lastEnd, lastEnd');
    } else {
      NextEndStays(t, x, p + 1);
      GapIsOne(t, e);
      assert t[e] == u[e] && t[e + 1] == u[e + 1];
      FirstSentence(t, p, lastEnd, e);
      FirstSentence(u, p, lastEnd', e);
      SplitFromGrows(t, x, e + 1, e, e);
      var a, b := SplitFrom(t, e + 1, e), SplitFrom(u, e + 1, e);
      assert t[p..e] == u[p..e];
      hide Firm, Parts;
      FirmCons(t[p..e], a);
      FirmCons(t[p..e], b);
      PrefixCons(t[p..e], Firm(a), a.sents, b.sents);
    }
  }

  /** A sentence with more text behind it. */
  lemma FirstSentence(t: string, p: nat, lastEnd: nat, e: nat)
    requires IsNormal(t) && p < |t| && !IsSpace(t[p]) && lastEnd <= |t| && NextEnd(t, p + 1) == e < |t|
    ensures e + 1 < |t| && !IsSpace(t[e + 1]) && Norm(t[e..]) == t[e + 1..]
    ensures var rest := SplitFrom(t, e + 1, e);
            Parts(rest) != [] && SplitFrom(t, p, lastEnd) == Split([t[p..e]] + rest.sents, rest.tail)
  {
    hide IsNormal, Norm, Run, NextEnd, SplitFrom, IsSpace;
    PieceIsNormal(t, p, e);
    GapIsOne(t, e);
    TailIsNormal(t, e);
    SplitFromIsLossless(t, e + 1, e);
    SplitFromStep(t, p, lastEnd, e, e + 1, t[p..e], SplitFrom(t, e + 1, e));
  }

  /** When a normalised text grows, its firm sentences stay the first ones and stay firm. A last sentence that reaches
      the end of the text stays exactly if the text goes on with a blank. */
  lemma SplitGrows(before: string, after: string)
    requires Norm(before) == before && Norm(after) == after && before <= after
    ensures var a, b := SplitSentences(before), SplitSentences(after);
            && a.sents[..Firm(a)] <= b.sents && Firm(a) <= Firm(b)
            && (a.sents <= b.sents <==> Firm(a) == |a.sents| || IsApart(after[|before|..]))
  {
    hide IsNormal, Norm, NextEnd, SplitFrom, IsApart;
    NormFixedPoint(before);
    NormFixedPoint(after);
    var x := after[|before|..];
    assert after == before + x && before[0..] == before && after[0..] == after;
    if before == "" {
      NothingLeft(before);
    } else {
      TrimmedEnd(before);
      SplitFromGrows(before, x, 0, 0, 0);
    }
  }

  // ---- the expression ----

  predicate AllIn(t: string, i: int, j: int, cs: set<char>) {
    forall k :: 0 <= i <= k < j <= |t| ==> t[k] in cs
  }

  /** Marks from `i` on, closers up to `e`, and then a blank or the end of the text. */
  ghost predicate EndsHere(t: string, i: int, e: int) {
    && 0 <= i < e <= |t| && (e == |t| || IsSpace(t[e]))
    && exists j :: i < j <= e && AllIn(t, i, j, {'.', '!', '?', '\U{2026}'}) && AllIn(t, j, e, {'"', '\'', ')', ']'})
  }

  lemma EndIsHere(t: string, i: nat)
    requires i < |t| && EndAt(t, i) != -1
    ensures EndsHere(t, i, EndAt(t, i))
  {
    hide IsSpace, Run, IsEndMark, IsCloser, EndAt;
    SameMarks();
    EndAtParts(t, i);
    var q, e := i + Run(IsEndMark, t[i..]), EndAt(t, i);
    RunAll(IsEndMark, t, i);
    RunAll(IsCloser, t, q);
    assert AllIn(t, i, q, {'.', '!', '?', '\U{2026}'}) && AllIn(t, q, e, {'"', '\'', ')', ']'});
  }

  lemma EndAtParts(t: string, i: nat)
    requires i < |t| && IsEndMark(t[i])
    ensures var q := i + Run(IsEndMark, t[i..]);
            var e := q + Run(IsCloser, t[q..]);
            i < q <= e <= |t| && EndAt(t, i) == if e == |t| || IsSpace(t[e]) then e else -1
  {
    hide IsSpace, IsCloser;
    assert t[i..][0] == t[i];
  }

  lemma HereIsEnd(t: string, i: nat, e: int)
    requires i < |t| && EndsHere(t, i, e)
    ensures EndAt(t, i) == e
  {
    hide IsSpace, Run, IsEndMark, IsCloser, EndAt;
    SameMarks();
    var j :| i < j <= e && AllIn(t, i, j, {'.', '!', '?', '\U{2026}'}) && AllIn(t, j, e, {'"', '\'', ')', ']'});
    assert IsEndMark(t[i]);
    EndAtParts(t, i);
    BlankEndsRuns(t, e);
    assert j < e ==> !IsEndMark(t[j]);
    RunTo(IsEndMark, t, i, j);
    RunTo(IsCloser, t, j, e);
  }

  /** `EndAt` finds the place where the expression's end matches, if there is one; there never are two. */
  lemma EndAtIff(t: string, i: nat, e: int)
    requires i < |t| && e != -1
    ensures EndAt(t, i) == e <==> EndsHere(t, i, e)
  {
    hide EndAt, EndsHere;
    if EndAt(t, i) == e {
      EndIsHere(t, i);
    } else if EndsHere(t, i, e) {
      HereIsEnd(t, i, e);
    }
  }

  lemma SameMarks()
    ensures forall c: char :: IsEndMark(c) <==> c in {'.', '!', '?', '\U{2026}'}
    ensures forall c: char :: IsCloser(c) <==> c in {'"', '\'', ')', ']'}
    ensures forall c: char :: IsCloser(c) ==> !IsEndMark(c)
  {
  }

  lemma RunAll(f: char -> bool, t: string, i: nat)
    requires i <= |t|
    ensures forall k :: i <= k < i + Run(f, t[i..]) ==> f(t[k])
  {
    forall k | i <= k < i + Run(f, t[i..]) ensures f(t[k]) {
      assert t[i..][k - i] == t[k];
    }
  }

  lemma RunTo(f: char -> bool, t: string, i: nat, j: nat)
    requires i <= j <= |t| && (forall k :: i <= k < j ==> f(t[k])) && (j < |t| ==> !f(t[j]))
    ensures i + Run(f, t[i..]) == j
  {
    RunIs(f, t[i..], j - i);
  }

  /** `NextEnd` is the end that begins first. */
  lemma {:induction false} NextEndIff(t: string, i: nat)
    requires i <= |t|
    ensures NextEnd(t, i) == -1 <==> forall k, e :: i <= k ==> !EndsHere(t, k, e)
    ensures NextEnd(t, i) != -1 ==>
              exists k :: i <= k && EndsHere(t, k, NextEnd(t, i)) && forall h, e :: i <= h < k ==> !EndsHere(t, h, e)
    decreases |t| - i
  {
    hide EndAt, EndsHere;
    if i < |t| {
      var e := EndAt(t, i);
      EndAtIff(t, i, if e == -1 then 0 else e);
      forall d ensures EndsHere(t, i, d) <==> e == d && e != -1 {
        if d != -1 {
          EndAtIff(t, i, d);
        } else {
          NoEndBefore(t, i);
        }
      }
      if e == -1 {
        NextEndIff(t, i + 1);
        if NextEnd(t, i) != -1 {
          var k :| i + 1 <= k && EndsHere(t, k, NextEnd(t, i)) && forall h, d :: i + 1 <= h < k ==> !EndsHere(t, h, d);
          assert forall h, d :: i <= h < k ==> !EndsHere(t, h, d);
        }
      } else {
        assert EndsHere(t, i, NextEnd(t, i));
      }
    } else {
      NothingBehind(t);
    }
  }

  lemma NoEndBefore(t: string, i: nat)
    ensures !EndsHere(t, i, -1)
  {
  }

  lemma NothingBehind(t: string)
    ensures forall k, e :: |t| <= k ==> !EndsHere(t, k, e)
  {
  }
}
