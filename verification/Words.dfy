/** Words are the maximal non-blank runs of a text. */
module Words {
  import opened Text
  import opened Normal

  /** How many words begin in `s`, when the character before it is (`inWord`) or is not part of a word. */
  function WordStarts(s: string, inWord: bool): nat {
    if s == [] then 0
    else if IsSpace(s[0]) then WordStarts(s[1..], false)
    else (if inWord then 0 else 1) + WordStarts(s[1..], true)
  }

  function WordCount(s: string): nat {
    WordStarts(s, false)
  }

  function EndsInWord(s: string, inWord: bool): bool {
    if s == [] then inWord else !IsSpace(s[|s| - 1])
  }

  lemma {:induction false} WordStartsConcat(a: string, b: string, w: bool)
    ensures WordStarts(a + b, w) == WordStarts(a, w) + WordStarts(b, EndsInWord(a, w))
  {
    if a == [] {
      assert a + b == b;
    } else {
      assert (a + b)[1..] == a[1..] + b;
      WordStartsConcat(a[1..], b, !IsSpace(a[0]));
    }
  }

  lemma WordStartsInWord(s: string)
    ensures WordStarts(s, false) == WordStarts(s, true) + (if s != [] && !IsSpace(s[0]) then 1 else 0)
  {
  }

  lemma {:induction false} BlankHasNoWords(s: string)
    ensures WordCount(s) == 0 <==> IsBlank(s)
    ensures IsBlank(s) ==> WordStarts(s, true) == 0
  {
    if s != [] {
      BlankHasNoWords(s[1..]);
      if IsSpace(s[0]) && IsBlank(s[1..]) {
        forall i | 0 <= i < |s| ensures IsSpace(s[i]) {
          assert i > 0 ==> s[i] == s[1..][i - 1];
        }
      }
    }
  }

  lemma WordsJoinAtBlank(a: string, b: string)
    requires b == [] || IsSpace(b[0])
    ensures WordCount(a + b) == WordCount(a) + WordCount(b)
  {
    WordStartsConcat(a, b, false);
    WordStartsInWord(b);
  }

  /** A slice has no more words than the whole. */
  lemma WordsOfSlice(s: string, lo: nat, hi: nat)
    requires lo <= hi <= |s|
    ensures WordCount(s[lo..hi]) <= WordCount(s)
    ensures WordCount(s[..hi]) <= WordCount(s)
    ensures WordCount(s[lo..]) <= WordCount(s)
  {
    assert s == s[..hi] + s[hi..] == s[..lo] + s[lo..];
    WordStartsConcat(s[..hi], s[hi..], false);
    assert s[..hi] == s[..lo] + s[lo..hi];
    WordsOfSuffix(s[..lo], s[lo..hi]);
    WordsOfSuffix(s[..lo], s[lo..]);
  }

  lemma WordsOfSuffix(a: string, b: string)
    ensures WordCount(b) <= WordCount(a + b)
  {
    WordStartsConcat(a, b, false);
    WordStartsInWord(b);
    if a != [] && !IsSpace(a[|a| - 1]) {
      BlankHasNoWords(a);
      assert WordCount(a) >= 1;
    }
  }

  lemma WordsOfStrip(s: string)
    ensures WordCount(Strip(s)) == WordCount(s)
  {
    var lo, hi := StripIsSlice(s);
    assert s == s[..lo] + s[lo..hi] + s[hi..];
    WordStartsConcat(s[..lo] + s[lo..hi], s[hi..], false);
    WordStartsConcat(s[..lo], s[lo..hi], false);
    BlankHasNoWords(s[..lo]);
    BlankHasNoWords(s[hi..]);
  }

  lemma WordsOfStripNoise(s: string)
    ensures WordCount(StripLeadingNoise(s)) <= WordCount(s)
  {
    var t := Strip(s);
    var k := Run(IsNoise, t);
    WordsOfStrip(s);
    WordsOfSlice(t, k, |t|);
    WordsOfStrip(t[k..]);
  }

  lemma {:induction false} WordsOfCollapse(s: string, w: bool)
    ensures WordStarts(Collapse(s), w) == WordStarts(s, w)
    decreases |s|
  {
    if s != [] {
      if IsSpace(s[0]) {
        var k := Run(IsSpace, s);
        assert s == s[..k] + s[k..];
        WordStartsConcat(s[..k], s[k..], w);
        BlankHasNoWords(s[..k]);
        WordsOfCollapse(s[k..], false);
      } else {
        WordsOfCollapse(s[1..], true);
      }
    }
  }

  lemma {:induction false} WordsOfDropBlank(s: string, w: bool)
    ensures WordStarts(DropBlankBeforePunct(s), w) <= WordStarts(s, w)
    decreases |s|
  {
    if s != [] {
      var k := Run(IsSpace, s);
      if k == 0 {
        WordsOfDropBlank(s[1..], true);
      } else {
        var rest := DropBlankBeforePunct(s[k..]);
        assert s == s[..k] + s[k..];
        WordStartsConcat(s[..k], s[k..], w);
        WordStartsConcat(s[..k], rest, w);
        BlankHasNoWords(s[..k]);
        WordsOfDropBlank(s[k..], false);
        WordStartsInWord(rest);
      }
    }
  }

  lemma {:induction false} WordsOfSolid(s: string, w: bool)
    requires s != [] && forall i :: 0 <= i < |s| ==> !IsSpace(s[i])
    ensures WordStarts(s, w) == if w then 0 else 1
  {
    if |s| > 1 {
      WordsOfSolid(s[1..], true);
    }
  }

  lemma {:induction false} WordsOfCapDots(s: string, w: bool)
    ensures WordStarts(CapDots(s), w) == WordStarts(s, w)
    decreases |s|
  {
    if s != [] {
      var k := Run(IsDot, s);
      if k == 0 {
        WordsOfCapDots(s[1..], !IsSpace(s[0]));
      } else {
        var h := if k >= 3 then "..." else s[..k];
        assert s == s[..k] + s[k..];
        WordStartsConcat(s[..k], s[k..], w);
        WordStartsConcat(h, CapDots(s[k..]), w);
        WordsOfSolid(h, w);
        WordsOfSolid(s[..k], w);
        WordsOfCapDots(s[k..], true);
      }
    }
  }

  /** Normalising never adds words. */
  lemma WordsOfNorm(s: string)
    ensures WordCount(Norm(s)) <= WordCount(s)
  {
    WordsOfCollapse(s, false);
    WordsOfStrip(Collapse(s));
    WordsOfDropBlank(Strip(Collapse(s)), false);
    WordsOfCapDots(DropBlankBeforePunct(Strip(Collapse(s))), false);
  }

  /** Where the first word ends. */
  function FirstWordEnd(s: string): (e: nat)
    ensures e <= |s|
  {
    Run(IsSpace, s) + Run(IsNonSpace, LStrip(s))
  }

  lemma FirstWordIs(s: string)
    requires WordCount(s) >= 1
    ensures var b, e := Run(IsSpace, s), FirstWordEnd(s);
            && b < e
            && (forall i :: b <= i < e ==> !IsSpace(s[i]))
            && (e == |s| || IsSpace(s[e]))
  {
  }

  lemma FirstWordCounts(s: string)
    requires WordCount(s) >= 1
    ensures WordCount(s[..FirstWordEnd(s)]) == 1
    ensures WordCount(s[FirstWordEnd(s)..]) == WordCount(s) - 1
  {
    hide WordStarts;
    FirstWordIs(s);
    var b, e := Run(IsSpace, s), FirstWordEnd(s);
    hide Run, FirstWordEnd;
    var w := s[b..e];
    assert s[..e] == s[..b] + w;
    BlankHasNoWords(s[..b]);
    WordStartsConcat(s[..b], w, false);
    WordsOfSolid(w, false);
    assert s == s[..e] + s[e..];
    WordStartsConcat(s[..e], s[e..], false);
    WordStartsInWord(s[e..]);
  }

  /** Position just after the n-th word. */
  function WordEnd(s: string, n: nat): (e: nat)
    requires 1 <= n <= WordCount(s)
    ensures 1 <= e <= |s|
    decreases n
  {
    FirstWordIs(s);
    FirstWordCounts(s);
    var e := FirstWordEnd(s);
    if n == 1 then e else e + WordEnd(s[e..], n - 1)
  }

  /** The cut after the n-th word splits no word. */
  lemma {:induction false} WordEndIsBoundary(s: string, n: nat)
    requires 1 <= n <= WordCount(s)
    ensures var e := WordEnd(s, n); (e == |s| || IsSpace(s[e])) && !IsSpace(s[e - 1])
    decreases n
  {
    FirstWordIs(s);
    if n > 1 {
      FirstWordCounts(s);
      WordEndIsBoundary(s[FirstWordEnd(s)..], n - 1);
    }
  }

  /** The cut after the n-th word has exactly n words before it. */
  lemma {:induction false} WordEndCounts(s: string, n: nat)
    requires 1 <= n <= WordCount(s)
    ensures WordCount(s[..WordEnd(s, n)]) == n
    decreases n
  {
    hide WordCount, FirstWordEnd;
    FirstWordCounts(s);
    if n > 1 {
      var e := FirstWordEnd(s);
      var rest := s[e..];
      WordEndCounts(rest, n - 1);
      WordsAfterFirst(s, rest, e, WordEnd(rest, n - 1), n);
    }
  }

  lemma WordsAfterFirst(s: string, rest: string, e: nat, d: nat, n: nat)
    requires WordCount(s) >= 1 && e == FirstWordEnd(s) && rest == s[e..]
    requires d <= |rest| && WordCount(rest[..d]) == n - 1
    ensures WordCount(s[..e + d]) == n
  {
    FirstWordIs(s);
    FirstWordCounts(s);
    assert rest[..d] != [] ==> rest[..d][0] == s[e];
    WordsJoinAtBlank(s[..e], rest[..d]);
    assert s[..e + d] == s[..e] + rest[..d];
  }

  // ---- the normalisers in terms of words ----

  /** The words of a text, in order. */
  function WordList(s: string): seq<string>
    decreases |s|
  {
    var b := Run(IsSpace, s);
    if b == |s| then []
    else
      var e := b + Run(IsNonSpace, s[b..]);
      [s[b..e]] + WordList(s[e..])
  }

  predicate IsWord(w: string) {
    w != "" && forall i :: 0 <= i < |w| ==> !IsSpace(w[i])
  }

  lemma {:induction false} WordListIsWords(s: string)
    ensures forall w :: w in WordList(s) ==> IsWord(w)
    decreases |s|
  {
    var b := Run(IsSpace, s);
    if b < |s| {
      WordListIsWords(s[b + Run(IsNonSpace, s[b..])..]);
    }
  }

  /** The words with a blank between them, but for those that begin with a mark. */
  function GlueMarks(ws: seq<string>): string
    decreases |ws|
  {
    if ws == [] then ""
    else if |ws| == 1 then ws[0]
    else ws[0] + (if ws[1] != "" && IsPunct(ws[1][0]) then "" else " ") + GlueMarks(ws[1..])
  }

  /** Every dot behind three dots is left out. */
  function DropFourthDots(s: string, dots: nat): string {
    if s == "" then ""
    else if s[0] == '.' then (if dots >= 3 then "" else ".") + DropFourthDots(s[1..], dots + 1)
    else [s[0]] + DropFourthDots(s[1..], 0)
  }

  lemma SolidFirst(c: char, s: string)
    requires !IsSpace(c)
    ensures Collapse([c] + s) == [c] + Collapse(s)
    ensures DropBlankBeforePunct([c] + s) == [c] + DropBlankBeforePunct(s)
  {
    assert ([c] + s)[1..] == s;
    RunIs(IsSpace, [c] + s, 0);
  }

  lemma {:induction false} CollapseSolid(w: string, s: string)
    requires forall i :: 0 <= i < |w| ==> !IsSpace(w[i])
    ensures Collapse(w + s) == w + Collapse(s)
    ensures DropBlankBeforePunct(w + s) == w + DropBlankBeforePunct(s)
    decreases |w|
  {
    hide IsSpace, Collapse, DropBlankBeforePunct;
    if w == "" {
      assert w + s == s && w + Collapse(s) == Collapse(s) && w + DropBlankBeforePunct(s) == DropBlankBeforePunct(s);
    } else {
      CollapseSolid(w[1..], s);
      SolidFirst(w[0], w[1..] + s);
      assert w + s == [w[0]] + (w[1..] + s) && w == [w[0]] + w[1..];
      Assoc([w[0]], w[1..], Collapse(s));
      Assoc([w[0]], w[1..], DropBlankBeforePunct(s));
    }
  }

  /** What a text looks like from its first word on. */
  lemma WordsFrom(s: string, b: nat, e: nat)
    requires b == Run(IsSpace, s) < |s| && e == b + Run(IsNonSpace, s[b..])
    ensures b < e <= |s| && IsWord(s[b..e]) && (e == |s| || IsSpace(s[e]))
  {
    hide Run, IsSpace;
    var t := s[b..];
    assert t[0] == s[b];
    forall i | 0 <= i < |s[b..e]| ensures !IsSpace(s[b..e][i]) {
      assert s[b..e][i] == t[i] && IsNonSpace(t[i]);
    }
    assert e < |s| ==> t[e - b] == s[e] && !IsNonSpace(t[e - b]);
  }

  lemma CollapseFirst(s: string, b: nat)
    requires b == Run(IsSpace, s)
    ensures Collapse(s) == (if b > 0 then " " else "") + Collapse(s[b..])
  {
    if b == 0 {
      assert s[0..] == s;
    }
  }

  /** `" ".join(s.split())`: the words with single blanks between them. */
  lemma {:induction false} JoinWordsIs(s: string)
    ensures JoinWords(s) == Join(WordList(s))
    decreases |s|
  {
    hide Collapse, Strip, Join, Run, WordList, IsSpace;
    var b := Run(IsSpace, s);
    NoWords(s);
    if b == |s| {
      NothingToJoin(s);
    } else {
      var e := b + Run(IsNonSpace, s[b..]);
      WordsFrom(s, b, e);
      JoinWordsIs(s[e..]);
      WordListStep(s, b, e);
      JoinFirstWord(s, b, e);
      JoinStep(s[b..e], WordList(s[e..]));
    }
  }

  lemma WordListStep(s: string, b: nat, e: nat)
    requires b == Run(IsSpace, s) < |s| && e == b + Run(IsNonSpace, s[b..])
    ensures WordList(s) == [s[b..e]] + WordList(s[e..])
  {
    hide Run;
  }

  lemma JoinFirstWord(s: string, b: nat, e: nat)
    requires b == Run(IsSpace, s) && b < e <= |s| && IsWord(s[b..e]) && (e == |s| || IsSpace(s[e]))
    requires JoinWords(s[e..]) == Join(WordList(s[e..]))
    ensures JoinWords(s) == if WordList(s[e..]) == [] then s[b..e] else s[b..e] + " " + Join(WordList(s[e..]))
  {
    hide Collapse, Strip, Join, Run, WordList, IsSpace, RStrip, IsWord;
    var w, rest := s[b..e], s[e..];
    CollapseFirst(s, b);
    assert s[b..] == w + rest;
    WordCollapsed(w, rest);
    CollapseRest(w, rest);
    var t := w + Collapse(rest);
    StripLead(b, t);
  }

  lemma WordCollapsed(w: string, rest: string)
    requires IsWord(w)
    ensures var t := w + Collapse(rest); Collapse(w + rest) == t && t != "" && !IsSpace(t[0])
  {
    hide Collapse, IsSpace;
    CollapseSolid(w, rest);
    assert (w + Collapse(rest))[0] == w[0];
  }

  lemma NothingToJoin(s: string)
    requires Run(IsSpace, s) == |s|
    ensures JoinWords(s) == "" == Join([])
  {
    CollapseFirst(s, |s|);
    assert Collapse(s[|s|..]) == "";
  }

  lemma StripLead(b: nat, t: string)
    requires t != "" && !IsSpace(t[0])
    ensures Strip((if b > 0 then " " else "") + t) == RStrip(t) == Strip(t)
  {
    var u := " " + t;
    assert u[1..] == t;
    RunIs(IsSpace, u, 1);
    RunIs(IsSpace, t, 0);
    assert "" + t == t;
  }

  lemma JoinStep(w: string, ws: seq<string>)
    ensures Join([w] + ws) == if ws == [] then w else w + " " + Join(ws)
  {
    assert ([w] + ws)[1..] == ws;
  }

  /** Behind a word the collapsed rest is blank, or a blank and the joined rest. */
  lemma CollapseRest(w: string, rest: string)
    requires IsWord(w) && (rest == "" || IsSpace(rest[0])) && JoinWords(rest) == Join(WordList(rest))
    ensures Strip(w + Collapse(rest)) == if WordList(rest) == [] then w else w + " " + Join(WordList(rest))
  {
    hide Collapse, Join, Run, Strip, RStrip, LStrip, WordList;
    var b := Run(IsSpace, rest);
    CollapseFirst(rest, b);
    NoWords(rest);
    if b == |rest| {
      NothingCollapsed(rest);
      if b > 0 {
        assert " " + "" == " ";
        StripBehind(w, " ");
      } else {
        StripBehind(w, "");
        assert w + "" == w;
      }
    } else {
      var t := Collapse(rest[b..]);
      assert rest[b..][0] == rest[b];
      CollapseShape(rest[b..]);
      StripLead(b, t);
      assert b > 0 && JoinWords(rest) == Strip(" " + t) == Strip(t);
      StripAcross(w, t);
      assert w + (" " + t) == w + " " + t;
    }
  }

  lemma NoWords(s: string)
    ensures WordList(s) == [] <==> Run(IsSpace, s) == |s|
  {
  }

  lemma NothingCollapsed(rest: string)
    ensures Collapse(rest[|rest|..]) == ""
  {
  }

  lemma {:induction false} StripBehind(w: string, t: string)
    requires IsWord(w) && IsBlank(t)
    ensures Strip(w + t) == w
    decreases |t|
  {
    RunIs(IsSpace, w + t, 0);
    if t == "" {
      assert w + t == w;
      StripOfTrimmed(w);
    } else {
      StripBehind(w, t[..|t| - 1]);
      assert (w + t)[..|w + t| - 1] == w + t[..|t| - 1];
      RunIs(IsSpace, w + t[..|t| - 1], 0);
    }
  }

  lemma StripAcross(w: string, t: string)
    requires IsWord(w) && t != "" && !IsSpace(t[0])
    ensures Strip(w + " " + t) == w + " " + Strip(t)
  {
    RunIs(IsSpace, w + " " + t, 0);
    RunIs(IsSpace, t, 0);
    RStripAcross(w + " ", t);
  }

  lemma {:induction false} RStripAcross(a: string, t: string)
    requires t != "" && !IsSpace(t[0])
    ensures RStrip(a + t) == a + RStrip(t)
    decreases |t|
  {
    assert (a + t)[|a + t| - 1] == t[|t| - 1];
    if IsSpace(t[|t| - 1]) {
      RStripAcross(a, t[..|t| - 1]);
      assert (a + t)[..|a + t| - 1] == a + t[..|t| - 1];
    }
  }

  lemma {:induction false} DropBlankIsGlue(ws: seq<string>)
    requires forall w :: w in ws ==> IsWord(w)
    ensures DropBlankBeforePunct(Join(ws)) == GlueMarks(ws)
    decreases |ws|
  {
    hide DropBlankBeforePunct;
    if ws == [] {
      DropBlankNothing();
    } else if |ws| == 1 {
      assert ws[0] in ws;
      CollapseSolid(ws[0], "");
      DropBlankNothing();
      assert ws[0] + "" == ws[0];
    } else {
      assert ws[0] in ws && ws[1] in ws && forall w :: w in ws[1..] ==> w in ws;
      DropBlankIsGlue(ws[1..]);
      JoinFirst(ws[1..]);
      DropBlankBehindWord(ws[0], Join(ws[1..]));
    }
  }

  lemma DropBlankBehindWord(w: string, t: string)
    requires IsWord(w) && t != "" && !IsSpace(t[0])
    ensures DropBlankBeforePunct(w + " " + t) == w + (if IsPunct(t[0]) then "" else " ") + DropBlankBeforePunct(t)
  {
    hide DropBlankBeforePunct, IsSpace, IsPunct;
    CollapseSolid(w, " " + t);
    assert w + (" " + t) == w + " " + t;
    DropOneBlank(t);
    Assoc(w, if IsPunct(t[0]) then "" else " ", DropBlankBeforePunct(t));
  }

  lemma DropBlankNothing()
    ensures DropBlankBeforePunct("") == ""
  {
  }

  lemma JoinFirst(ws: seq<string>)
    requires ws != [] && ws[0] != ""
    ensures Join(ws) != "" && Join(ws)[0] == ws[0][0]
  {
  }

  lemma DropOneBlank(t: string)
    requires t != "" && !IsSpace(t[0])
    ensures DropBlankBeforePunct(" " + t) == (if IsPunct(t[0]) then "" else " ") + DropBlankBeforePunct(t)
  {
    var u := " " + t;
    RunIs(IsSpace, u, 1);
    assert u[1..] == t && u[..1] == " ";
  }

  lemma {:induction false} CapDotsIs(s: string)
    ensures CapDots(s) == DropFourthDots(s, 0)
    decreases |s|
  {
    if s != "" {
      var k := Run(IsDot, s);
      if k == 0 {
        CapDotsIs(s[1..]);
      } else {
        CapDotsIs(s[k..]);
        DotsDropped(s, k, 0);
        hide DropFourthDots, Run, CapDots;
        CapDotsRun(s, k);
      }
    }
  }

  lemma CapDotsRun(s: string, k: nat)
    requires k == Run(IsDot, s) > 0
    ensures CapDots(s) == Dots(Min(k, 3)) + CapDots(s[k..])
  {
    hide Run;
    assert Dots(3) == "...";
    assert k < 3 ==> s[..k] == Dots(k);
  }

  function Dots(n: nat): string {
    seq(n, _ => '.')
  }

  lemma {:induction false} DotsDropped(s: string, k: nat, seen: nat)
    requires k <= |s| && (forall i :: 0 <= i < k ==> s[i] == '.') && (k < |s| ==> s[k] != '.')
    ensures DropFourthDots(s, seen)
            == Dots(Min(k, Max(0, 3 - seen))) + DropFourthDots(s[k..], 0)
    decreases k
  {
    if k == 0 {
      assert s[0..] == s;
    } else {
      DotsDropped(s[1..], k - 1, seen + 1);
      assert s[1..][k - 1..] == s[k..];
      var m := Min(k, Max(0, 3 - seen));
      if m > 0 {
        assert "." + Dots(m - 1) == Dots(m);
        Assoc(".", Dots(m - 1), DropFourthDots(s[k..], 0));
      }
    }
  }

  /** The four passes of the translator's normaliser in one line: the words of the text with a blank before each that
      does not begin with a mark, and no dot behind three dots. */
  lemma NormIs(s: string)
    ensures Norm(s) == DropFourthDots(GlueMarks(WordList(s)), 0)
  {
    hide Collapse, Strip, CapDots, DropBlankBeforePunct, GlueMarks, WordList;
    JoinWordsIs(s);
    WordListIsWords(s);
    DropBlankIsGlue(WordList(s));
    CapDotsIs(GlueMarks(WordList(s)));
  }

  /** What is counted are the words. */
  lemma {:induction false} WordsAreCounted(s: string)
    ensures WordCount(s) == |WordList(s)|
    decreases |s|
  {
    hide WordStarts, Run, IsSpace, WordList;
    var b := Run(IsSpace, s);
    NoWords(s);
    if b == |s| {
      BlankRun(s);
      BlankHasNoWords(s);
    } else {
      var e := b + Run(IsNonSpace, s[b..]);
      WordsFrom(s, b, e);
      WordListStep(s, b, e);
      WordsAreCounted(s[e..]);
      assert s == (s[..b] + s[b..e]) + s[e..];
      WordsJoinAtBlank(s[..b] + s[b..e], s[e..]);
      WordStartsConcat(s[..b], s[b..e], false);
      BlankRun(s[..b]);
      BlankHasNoWords(s[..b]);
      WordsOfSolid(s[b..e], EndsInWord(s[..b], false));
      assert b > 0 ==> IsSpace(s[..b][b - 1]);
    }
  }

  lemma BlankRun(s: string)
    requires forall i :: 0 <= i < |s| ==> i < Run(IsSpace, s) || IsSpace(s[i])
    ensures IsBlank(s)
  {
  }
}
