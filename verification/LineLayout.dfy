/** The overlay's line breaking. Widths are whatever the browser measures: a parameter. */
module LineLayout {
  import opened Text
  import opened SentenceScan

  /** How wide a text is, how wide a line may be, and how many pieces a line may take. */
  datatype Screen = Screen(width: string -> real, maxPx: real, maxPieces: int)

  // ---- fitting a prefix ----

  /** Length of the run of blanks, or of non-blanks, that the text begins with. */
  function FirstRun(s: string): (k: nat)
    requires s != ""
    ensures 0 < k <= |s|
  {
    if IsSpace(s[0]) then Run(IsSpace, s) else Run(IsNonSpace, s)
  }

  /** Runs of blanks and runs of non-blanks, in turn. The empty tokens of JavaScript's split are skipped by its loop. */
  function Tokens(s: string): seq<string>
    decreases |s|
  {
    if s == "" then [] else [s[..FirstRun(s)]] + Tokens(s[FirstRun(s)..])
  }

  lemma {:induction false} TokensJoin(s: string)
    ensures Concat(Tokens(s)) == s
    decreases |s|
  {
    hide FirstRun;
    if s == "" {
      ConcatNothing();
    } else {
      var k := FirstRun(s);
      TokensJoin(s[k..]);
      hide Concat;
      ConcatCons(s[..k], Tokens(s[k..]));
      assert s[..k] + s[k..] == s;
    }
  }

  lemma {:induction false} TokensAreSolid(s: string)
    ensures Solid(Tokens(s))
    decreases |s|
  {
    hide FirstRun;
    if s != "" {
      TokensAreSolid(s[FirstRun(s)..]);
    }
  }

  function Mid(lo: nat, hi: int): (m: nat)
    requires lo <= hi
    ensures lo <= m <= hi
    ensures m == 0 ==> lo == 0 && hi <= 1
  {
    (lo + hi) / 2
  }

  /** The binary search for the longest prefix that fits, from the interval `lo..hi`. */
  function Search(sc: Screen, rem: real, tok: string, lo: nat, hi: int, best: nat): (r: nat)
    requires hi <= |tok| && best <= |tok|
    ensures r <= |tok|
    decreases hi - lo
  {
    if lo > hi then best
    else
      var mid := Mid(lo, hi);
      if mid == 0 then Search(sc, rem, tok, mid + 1, hi, best)
      else if sc.width(tok[..mid]) <= rem then Search(sc, rem, tok, mid + 1, hi, mid)
      else Search(sc, rem, tok, lo, mid - 1, best)
  }

  function BestCut(sc: Screen, rem: real, tok: string): (r: nat)
    ensures r <= |tok|
  {
    Search(sc, rem, tok, 0, |tok|, 0)
  }

  /** What the search finds fits; and it finds something if the first character fits, whatever the widths. */
  lemma {:induction false} SearchFits(sc: Screen, rem: real, tok: string, lo: nat, hi: int, best: nat)
    requires hi <= |tok| && best <= |tok|
    requires best > 0 ==> sc.width(tok[..best]) <= rem
    requires best > 0 || (lo <= 1 && hi >= 1)
    ensures var r := Search(sc, rem, tok, lo, hi, best);
            && (r > 0 ==> sc.width(tok[..r]) <= rem)
            && (tok != "" && sc.width(tok[..1]) <= rem ==> r > 0)
    decreases hi - lo
  {
    hide Mid;
    if lo <= hi {
      var mid := Mid(lo, hi);
      if mid == 0 {
        SearchFits(sc, rem, tok, mid + 1, hi, best);
      } else if sc.width(tok[..mid]) <= rem {
        SearchFits(sc, rem, tok, mid + 1, hi, mid);
      } else if best > 0 || mid > 1 {
        SearchFits(sc, rem, tok, lo, mid - 1, best);
      }
    }
  }

  ghost predicate Monotone(w: string -> real) {
    forall a: string, b: string :: w(a) <= w(a + b)
  }

  /** With widths that grow with the text, the search is exact. */
  lemma {:induction false} SearchIsExact(sc: Screen, rem: real, tok: string, lo: nat, hi: int, best: nat)
    requires Monotone(sc.width) && hi <= |tok| && best <= |tok| && lo <= hi + 1
    requires best == Max(0, lo - 1)
    requires forall m :: hi < m <= |tok| ==> sc.width(tok[..m]) > rem
    requires best > 0 ==> sc.width(tok[..best]) <= rem
    ensures var r := Search(sc, rem, tok, lo, hi, best);
            forall m :: 0 < m <= |tok| ==> (m <= r <==> sc.width(tok[..m]) <= rem)
    decreases hi - lo
  {
    hide Mid;
    if lo <= hi {
      var mid := Mid(lo, hi);
      if mid == 0 {
        SearchIsExact(sc, rem, tok, mid + 1, hi, best);
      } else if sc.width(tok[..mid]) <= rem {
        SearchIsExact(sc, rem, tok, mid + 1, hi, mid);
      } else {
        forall m | mid - 1 < m <= |tok| ensures sc.width(tok[..m]) > rem {
          assert tok[..m] == tok[..mid] + tok[mid..m];
        }
        SearchIsExact(sc, rem, tok, lo, mid - 1, best);
      }
    } else {
      forall m | 0 < m <= |tok| && m <= best ensures sc.width(tok[..m]) <= rem {
        assert tok[..best] == tok[..m] + tok[m..best];
      }
    }
  }

  /** `BestCut` is the length of the longest fitting prefix, 0 if not even one character fits. */
  lemma BestCutIsLongest(sc: Screen, rem: real, tok: string)
    requires Monotone(sc.width)
    ensures var r := BestCut(sc, rem, tok);
            forall m :: 0 < m <= |tok| ==> (m <= r <==> sc.width(tok[..m]) <= rem)
  {
    SearchIsExact(sc, rem, tok, 0, |tok|, 0);
  }

  method FindBestCut(sc: Screen, rem: real, tok: string) returns (best: nat)
    ensures best == BestCut(sc, rem, tok)
  {
    var lo: nat, hi: int := 0, |tok|;
    best := 0;
    while lo <= hi
      invariant hi <= |tok| && best <= |tok|
      invariant Search(sc, rem, tok, lo, hi, best) == BestCut(sc, rem, tok)
      decreases hi - lo
    {
      var mid := Mid(lo, hi);
      var cand := tok[..mid];
      if cand == "" {
        lo := mid + 1;
      } else if sc.width(cand) <= rem {
        best, lo := mid, mid + 1;
      } else {
        hi := mid - 1;
      }
    }
  }

  datatype Fitted = Fitted(fit: string, rest: string)

  function FitTokens(sc: Screen, rem: real, fit: string, tokens: seq<string>): Fitted
    decreases |tokens|
  {
    if tokens == [] then Fitted(fit, "")
    else
      var tok := tokens[0];
      if sc.width(fit + tok) <= rem then FitTokens(sc, rem, fit + tok, tokens[1..])
      else if fit == "" then
        var k := BestCut(sc, rem, tok);
        Fitted(tok[..k], tok[k..] + Concat(tokens[1..]))
      else Fitted(fit, Concat(tokens))
  }

  function Fit(sc: Screen, rem: real, sentence: string): Fitted {
    if rem <= 0.0 then Fitted("", sentence) else FitTokens(sc, rem, "", Tokens(sentence))
  }

  method FitPrefixByWidth(sc: Screen, rem: real, sentence: string) returns (r: Fitted)
    ensures r == Fit(sc, rem, sentence)
  {
    hide Tokens, BestCut, Concat;
    if rem <= 0.0 {
      return Fitted("", sentence);
    }
    var tokens := Tokens(sentence);
    var fit := "";
    var i := 0;
    while i < |tokens|
      invariant 0 <= i <= |tokens|
      invariant FitTokens(sc, rem, fit, tokens[i..]) == Fit(sc, rem, sentence)
    {
      var tok := tokens[i];
      assert tokens[i..][1..] == tokens[i + 1..];
      var next := fit + tok;
      if sc.width(next) <= rem {
        fit := next;
      } else {
        if fit == "" {
          var best := FindBestCut(sc, rem, tok);
          return Fitted(tok[..best], tok[best..] + Concat(tokens[i + 1..]));
        }
        return Fitted(fit, Concat(tokens[i..]));
      }
      i := i + 1;
    }
    r := Fitted(fit, "");
  }

  lemma {:induction false} FitTokensKeeps(sc: Screen, rem: real, fit: string, tokens: seq<string>)
    ensures var r := FitTokens(sc, rem, fit, tokens); r.fit + r.rest == fit + Concat(tokens)
    decreases |tokens|
  {
    hide Concat, BestCut;
    if tokens == [] {
      assert Concat(tokens) == "" by { ConcatNothing(); }
    } else {
      var tok := tokens[0];
      ConcatUnfold(tokens);
      Assoc(fit, tok, Concat(tokens[1..]));
      if sc.width(fit + tok) <= rem {
        FitTokensKeeps(sc, rem, fit + tok, tokens[1..]);
      } else if fit == "" {
        var k := BestCut(sc, rem, tok);
        assert tok[..k] + tok[k..] == tok;
        Assoc(tok[..k], tok[k..], Concat(tokens[1..]));
      }
    }
  }

  /** Nothing is lost or added: the two parts are the sentence. */
  lemma FitKeeps(sc: Screen, rem: real, sentence: string)
    ensures Fit(sc, rem, sentence).fit + Fit(sc, rem, sentence).rest == sentence
    ensures rem <= 0.0 ==> Fit(sc, rem, sentence).fit == ""
  {
    hide Tokens, FitTokens;
    TokensJoin(sentence);
    FitTokensKeeps(sc, rem, "", Tokens(sentence));
    assert "" + sentence == sentence;
  }

  lemma {:induction false} FitTokensFits(sc: Screen, rem: real, fit: string, tokens: seq<string>)
    requires fit != "" ==> sc.width(fit) <= rem
    requires Solid(tokens)
    ensures var r := FitTokens(sc, rem, fit, tokens).fit; r != "" ==> sc.width(r) <= rem
    ensures fit != "" ==> FitTokens(sc, rem, fit, tokens).fit != ""
    ensures fit == "" && tokens != [] && sc.width(tokens[0][..1]) <= rem ==> FitTokens(sc, rem, fit, tokens).fit != ""
    decreases |tokens|
  {
    hide Concat;
    if tokens != [] {
      var tok := tokens[0];
      if sc.width(fit + tok) <= rem {
        FitTokensFits(sc, rem, fit + tok, tokens[1..]);
      } else if fit == "" {
        SearchFits(sc, rem, tok, 0, |tok|, 0);
      }
    }
  }

  /** The prefix fits, and there is one if there is room and the first character fits. */
  lemma FitFits(sc: Screen, rem: real, sentence: string)
    ensures var r := Fit(sc, rem, sentence);
            && (r.fit != "" ==> sc.width(r.fit) <= rem)
            && (rem > 0.0 && sentence != "" && sc.width(sentence[..1]) <= rem ==> r.fit != "")
  {
    hide Concat, FitTokens, Tokens;
    TokensAreSolid(sentence);
    FitTokensFits(sc, rem, "", Tokens(sentence));
    if sentence != "" {
      FirstToken(sentence);
    }
  }

  lemma FirstToken(s: string)
    requires s != ""
    ensures Tokens(s) != [] && Tokens(s)[0][..1] == s[..1]
  {
  }

  // ---- filling lines ----

  datatype Line = Line(text: string, queue: seq<string>)

  function Push(rest: string, queue: seq<string>): seq<string> {
    if rest != "" then [rest] + queue else queue
  }

  /** The inner loop: pieces are taken while they fit, the last one perhaps in part. */
  function Fill(sc: Screen, line: string, used: nat, queue: seq<string>): Line
    decreases |queue|
  {
    if used >= sc.maxPieces || queue == [] || used >= 10000 then Line(line, queue)
    else
      var s, rest := queue[0], queue[1..];
      if sc.width(line + s) <= sc.maxPx then Fill(sc, line + s, used + 1, rest)
      else
        var rem := sc.maxPx - sc.width(line);
        if rem <= 0.0 then Line(line, queue)
        else
          var f := Fit(sc, rem, s);
          if f.fit != "" then Line(line + f.fit, Push(f.rest, rest)) else Line(line, queue)
  }

  predicate Solid(queue: seq<string>) {
    forall i :: 0 <= i < |queue| ==> queue[i] != ""
  }

  lemma {:induction false} FillKeeps(sc: Screen, line: string, used: nat, queue: seq<string>)
    requires Solid(queue)
    ensures var r := Fill(sc, line, used, queue);
            && r.text + Concat(r.queue) == line + Concat(queue) && Solid(r.queue)
            && (r.text == "" ==> line == "" && r.queue == queue)
            && |r.queue| <= |queue|
            && (used <= sc.maxPieces ==> |queue| - |r.queue| <= sc.maxPieces - used)
    decreases |queue|
  {
    hide Concat, Fit;
    if used < sc.maxPieces && queue != [] && used < 10000 {
      var s, rest := queue[0], queue[1..];
      ConcatUnfold(queue);
      if sc.width(line + s) <= sc.maxPx {
        Assoc(line, s, Concat(rest));
        FillKeeps(sc, line + s, used + 1, rest);
      } else if sc.maxPx - sc.width(line) > 0.0 {
        var rem := sc.maxPx - sc.width(line);
        var f := Fit(sc, rem, s);
        FitKeeps(sc, rem, s);
        PushJoins(f.rest, rest);
        Assoc(f.fit, f.rest, Concat(rest));
        Assoc(line, f.fit, f.rest + Concat(rest));
        assert f.fit != "" && f.rest == "" ==> line + f.fit + Concat(rest) == line + (f.fit + Concat(rest));
      }
    }
  }

  lemma PushJoins(s: string, queue: seq<string>)
    ensures Concat(Push(s, queue)) == s + Concat(queue)
  {
  }

  ghost predicate Subadditive(w: string -> real) {
    forall a: string, b: string :: w(a + b) <= w(a) + w(b)
  }

  /** With subadditive widths a filled line fits. */
  lemma {:induction false} FillFits(sc: Screen, line: string, used: nat, queue: seq<string>)
    requires Subadditive(sc.width) && (line == "" || sc.width(line) <= sc.maxPx)
    ensures var r := Fill(sc, line, used, queue); r.text == "" || sc.width(r.text) <= sc.maxPx
    decreases |queue|
  {
    hide Fit;
    if used < sc.maxPieces && queue != [] && used < 10000 {
      var s := queue[0];
      if sc.width(line + s) <= sc.maxPx {
        FillFits(sc, line + s, used + 1, queue[1..]);
      } else if sc.maxPx - sc.width(line) > 0.0 {
        var rem := sc.maxPx - sc.width(line);
        FitFits(sc, rem, s);
        assert sc.width(line + Fit(sc, rem, s).fit) <= sc.width(line) + sc.width(Fit(sc, rem, s).fit);
      }
    }
  }

  /** A filled line takes as much as it may: it ends with the queue, at the number of pieces, or because the next piece
      would not fit whole. */
  lemma {:induction false} FillIsGreedy(sc: Screen, line: string, used: nat, queue: seq<string>)
    requires Subadditive(sc.width) && used <= sc.maxPieces <= 10000
    ensures var r := Fill(sc, line, used, queue);
            || r.queue == [] || |queue| - |r.queue| == sc.maxPieces - used
            || sc.width(r.text + r.queue[0]) > sc.maxPx
    decreases |queue|
  {
    hide Fit;
    if used < sc.maxPieces && queue != [] {
      var s := queue[0];
      if sc.width(line + s) <= sc.maxPx {
        FillIsGreedy(sc, line + s, used + 1, queue[1..]);
      } else if sc.maxPx - sc.width(line) > 0.0 {
        var rem := sc.maxPx - sc.width(line);
        var f := Fit(sc, rem, s);
        FitKeeps(sc, rem, s);
        FitFits(sc, rem, s);
        Assoc(line, f.fit, f.rest);
        assert sc.width(line + f.fit) <= sc.width(line) + sc.width(f.fit);
        assert f.fit + "" == f.fit;
      }
    }
  }

  /** One round of the outer loop. When the line comes out empty, a prefix of the next piece is forced; and when even
      that is empty, one character is shown but the whole piece goes back on the queue. */
  function NextLine(sc: Screen, queue: seq<string>): Line
    requires queue != [] && Solid(queue)
  {
    var l := Fill(sc, "", 0, queue);
    if l.text != "" then l
    else
      FillKeeps(sc, "", 0, queue);
      var f := Fit(sc, sc.maxPx, queue[0]);
      Line(if f.fit != "" then f.fit else queue[0][..1], Push(f.rest, queue[1..]))
  }

  /** The round is stuck: it shows a character and puts everything back. */
  predicate Stuck(sc: Screen, queue: seq<string>)
    requires queue != [] && Solid(queue)
  {
    Fill(sc, "", 0, queue).text == "" && Fit(sc, sc.maxPx, queue[0]).fit == ""
  }

  lemma NextLineKeeps(sc: Screen, queue: seq<string>)
    requires queue != [] && Solid(queue)
    ensures var l := NextLine(sc, queue);
            && l.text != "" && Solid(l.queue)
            && (Stuck(sc, queue) ==> l.queue == queue)
            && (!Stuck(sc, queue) ==> l.text + Concat(l.queue) == Concat(queue) && |Concat(l.queue)| < |Concat(queue)|)
            && (Subadditive(sc.width) && !Stuck(sc, queue) ==> sc.width(l.text) <= sc.maxPx)
  {
    hide Concat, Fit, Fill;
    FillKeeps(sc, "", 0, queue);
    assert "" + Concat(queue) == Concat(queue);
    if Subadditive(sc.width) {
      FillFits(sc, "", 0, queue);
    }
    if Fill(sc, "", 0, queue).text == "" {
      var s := queue[0];
      var f := Fit(sc, sc.maxPx, s);
      FitKeeps(sc, sc.maxPx, s);
      FitFits(sc, sc.maxPx, s);
      ConcatUnfold(queue);
      PushJoins(f.rest, queue[1..]);
      Assoc(f.fit, f.rest, Concat(queue[1..]));
      if f.fit == "" {
        assert f.rest == s;
        assert [s] + queue[1..] == queue;
      }
    }
  }

  /** Positive line width, and each single character fits. */
  predicate Usable(sc: Screen, text: string) {
    && sc.maxPx > 0.0
    && forall i :: 0 <= i < |text| ==> sc.width([text[i]]) <= sc.maxPx
  }

  lemma UsableIsNotStuck(sc: Screen, queue: seq<string>)
    requires queue != [] && Solid(queue) && Usable(sc, Concat(queue))
    ensures !Stuck(sc, queue)
  {
    hide Concat, Fit, Fill;
    ConcatUnfold(queue);
    var s := queue[0];
    assert Concat(queue)[0] == s[0] && s[..1] == [s[0]];
    FitFits(sc, sc.maxPx, s);
  }

  lemma UsableRest(sc: Screen, a: string, b: string, ab: string)
    requires Usable(sc, ab) && a + b == ab
    ensures Usable(sc, b)
  {
    forall i | 0 <= i < |b| ensures sc.width([b[i]]) <= sc.maxPx {
      assert ab[|a| + i] == b[i];
    }
  }

  /** The pieces of a text: its sentences, and a tail if there is one. */
  function Pieces(text: string): seq<string> {
    var s := SplitFrom(text, 0);
    s.sents + if s.tail != "" then [s.tail] else []
  }

  lemma PiecesJoin(text: string)
    ensures Solid(Pieces(text))
    ensures Concat(Pieces(text)) == Concat(SplitFrom(text, 0).sents) + SplitFrom(text, 0).tail
  {
    hide SplitFrom, Concat;
    var s := SplitFrom(text, 0);
    SentencesAreSolid(text, 0);
    ConcatAppend(s.sents, if s.tail != "" then [s.tail] else []);
    ConcatNothing();
    ConcatSnoc([], s.tail);
    assert [] + [s.tail] == [s.tail] && "" + s.tail == s.tail;
  }

  lemma {:induction false} SentencesAreSolid(t: string, p: nat)
    requires p <= |t|
    ensures Solid(SplitFrom(t, p).sents)
    decreases |t| - p
  {
    hide NextMatch, SplitFrom;
    var m := NextMatch(t, p);
    if m.NoMatch? {
      SplitStop(t, p);
    } else {
      SplitStep(t, p, m);
      SentencesAreSolid(t, m.end);
    }
  }

  method FillLine(sc: Screen, pieces: seq<string>) returns (line: string, queue: seq<string>)
    ensures Line(line, queue) == Fill(sc, "", 0, pieces)
  {
    hide Fit;
    line, queue := "", pieces;
    var used := 0;
    var guard := 0;
    while used < sc.maxPieces && queue != [] && guard < 10000
      invariant 0 <= used == guard <= 10000
      invariant Fill(sc, line, used, queue) == Fill(sc, "", 0, pieces)
      decreases |queue|
    {
      guard := guard + 1;
      var sentence := queue[0];
      var candidate := line + sentence;
      if sc.width(candidate) <= sc.maxPx {
        queue := queue[1..];
        line := candidate;
        used := used + 1;
      } else {
        var rem := sc.maxPx - sc.width(line);
        if rem <= 0.0 {
          return;
        }
        var f := FitPrefixByWidth(sc, rem, sentence);
        if f.fit != "" {
          return line + f.fit, Push(f.rest, queue[1..]);
        }
        return;
      }
    }
  }

  /** One round of the loop over lines. */
  method BuildLine(sc: Screen, pieces: seq<string>) returns (line: string, queue: seq<string>)
    requires pieces != [] && Solid(pieces)
    ensures Line(line, queue) == NextLine(sc, pieces)
  {
    hide Fill, Fit;
    FillKeeps(sc, "", 0, pieces);
    line, queue := FillLine(sc, pieces);
    if line == "" {
      var s := queue[0];
      var f := FitPrefixByWidth(sc, sc.maxPx, s);
      line, queue := if f.fit != "" then f.fit else s[..1], Push(f.rest, queue[1..]);
    }
  }

  /** The loop over lines ends for a usable screen; the lines are the pieces end to end, and fit where widths add up. */
  method BuildLines(sc: Screen, text: string) returns (lines: seq<string>)
    requires Usable(sc, Concat(Pieces(text)))
    ensures Concat(lines) == Concat(SplitFrom(text, 0).sents) + SplitFrom(text, 0).tail
    ensures forall i :: 0 <= i < |lines| ==> lines[i] != ""
    ensures Subadditive(sc.width) ==> forall i :: 0 <= i < |lines| ==> sc.width(lines[i]) <= sc.maxPx
  {
    hide Concat, Fill, Fit, SplitFrom, Usable, Pieces, Subadditive;
    var split := SplitSentencesAndTail(text);
    var queue := PiecesOf(split, text);
    PiecesJoin(text);
    lines := [];
    ConcatNothing();
    assert "" + Concat(queue) == Concat(queue);
    while queue != []
      invariant Solid(queue) && Usable(sc, Concat(queue))
      invariant Concat(lines) + Concat(queue) == Concat(Pieces(text))
      invariant forall i :: 0 <= i < |lines| ==> lines[i] != ""
      invariant Subadditive(sc.width) ==> forall i :: 0 <= i < |lines| ==> sc.width(lines[i]) <= sc.maxPx
      decreases |Concat(queue)|
    {
      UsableIsNotStuck(sc, queue);
      NextLineKeeps(sc, queue);
      ghost var all, next := Concat(queue), NextLine(sc, queue);
      UsableRest(sc, next.text, Concat(next.queue), all);
      ConcatSnoc(lines, next.text);
      Assoc(Concat(lines), next.text, Concat(next.queue));
      var line, after := BuildLine(sc, queue);
      lines, queue := lines + [line], after;
    }
    assert Concat(lines) + "" == Concat(lines);
  }

  method PiecesOf(split: Split, text: string) returns (queue: seq<string>)
    requires split == SplitFrom(text, 0)
    ensures queue == Pieces(text)
  {
    hide SplitFrom;
    queue := split.sents;
    if split.tail != "" {
      queue := queue + [split.tail];
    }
    assert split.sents + [] == split.sents;
  }

  // ---- when the loop ends ----

  /** The queue after `n` rounds. */
  function After(sc: Screen, queue: seq<string>, n: nat): (r: seq<string>)
    requires Solid(queue)
    ensures Solid(r)
    decreases n
  {
    if n == 0 || queue == [] then queue
    else
      NextLineKeeps(sc, queue);
      After(sc, NextLine(sc, queue).queue, n - 1)
  }

  ghost predicate Ends(sc: Screen, queue: seq<string>)
    requires Solid(queue)
  {
    exists n: nat :: After(sc, queue, n) == []
  }

  lemma {:induction false} StuckForever(sc: Screen, queue: seq<string>, n: nat)
    requires queue != [] && Solid(queue) && Stuck(sc, queue)
    ensures After(sc, queue, n) == queue
    decreases n
  {
    hide NextLine;
    if n > 0 {
      NextLineKeeps(sc, queue);
      StuckForever(sc, queue, n - 1);
    }
  }

  /** A character counts in every text around it. */
  ghost predicate Covers(w: string -> real) {
    forall a: string, i: nat :: i < |a| ==> w([a[i]]) <= w(a)
  }

  lemma {:induction false} EndsMeansFits(sc: Screen, queue: seq<string>, n: nat)
    requires Solid(queue) && Subadditive(sc.width) && Covers(sc.width)
    requires After(sc, queue, n) == []
    ensures forall i :: 0 <= i < |Concat(queue)| ==> sc.width([Concat(queue)[i]]) <= sc.maxPx
    decreases n
  {
    hide NextLine, Concat, Stuck;
    if queue == [] {
      ConcatNothing();
    } else {
      if Stuck(sc, queue) {
        StuckForever(sc, queue, n);
      }
      NextLineKeeps(sc, queue);
      var l := NextLine(sc, queue);
      EndsMeansFits(sc, l.queue, n - 1);
      var all, rest := Concat(queue), Concat(l.queue);
      forall i | 0 <= i < |all| ensures sc.width([all[i]]) <= sc.maxPx {
        if i < |l.text| {
          assert all[i] == l.text[i];
        } else {
          assert all[i] == rest[i - |l.text|];
        }
      }
    }
  }

  lemma {:induction false} UsableEnds(sc: Screen, queue: seq<string>)
    requires Solid(queue) && Usable(sc, Concat(queue))
    ensures Ends(sc, queue)
    decreases |Concat(queue)|
  {
    hide NextLine, Concat, Stuck, Usable;
    if queue == [] {
      assert After(sc, queue, 0) == [];
    } else {
      UsableIsNotStuck(sc, queue);
      NextLineKeeps(sc, queue);
      var l := NextLine(sc, queue);
      UsableRest(sc, l.text, Concat(l.queue), Concat(queue));
      UsableEnds(sc, l.queue);
      var n: nat :| After(sc, l.queue, n) == [];
      assert After(sc, queue, n + 1) == [];
    }
  }

  /** On a line of positive width, the loop ends exactly when each character of the pieces fits on a line by itself. */
  lemma EndsIff(sc: Screen, queue: seq<string>)
    requires Solid(queue) && sc.maxPx > 0.0 && Subadditive(sc.width) && Covers(sc.width)
    ensures Ends(sc, queue) <==> Usable(sc, Concat(queue))
  {
    hide After, Concat, Subadditive, Covers, Solid;
    if Ends(sc, queue) {
      var n: nat :| After(sc, queue, n) == [];
      EndsMeansFits(sc, queue, n);
      hide Ends;
      assert Usable(sc, Concat(queue));
    } else if Usable(sc, Concat(queue)) {
      UsableEnds(sc, queue);
      assert false;
    }
  }

  // ---- where a line breaks ----

  /** A place between a blank and a character that is none. */
  predicate Seam(s: string, k: int) {
    0 < k < |s| && (IsSpace(s[k - 1]) <==> !IsSpace(s[k]))
  }

  predicate NextSeam(s: string, from: int, n: int) {
    0 <= from < n <= |s| && (n == |s| || Seam(s, n)) && forall k :: from < k < n ==> !Seam(s, k)
  }

  lemma FirstRunIs(s: string, p: nat)
    requires p < |s|
    ensures NextSeam(s, p, p + FirstRun(s[p..]))
  {
    var t := s[p..];
    var n := FirstRun(t);
    assert forall i :: 0 <= i < n ==> (IsSpace(t[i]) <==> IsSpace(t[0]));
    assert forall i :: 0 <= i < |t| ==> t[i] == s[p + i];
    if n < |t| {
      assert IsSpace(t[n]) <==> !IsSpace(t[0]);
      assert t[n] == s[p + n] && t[n - 1] == s[p + n - 1];
    }
    forall k | p < k < p + n ensures !Seam(s, k) {
      assert t[k - p] == s[k] && t[k - p - 1] == s[k - 1];
    }
  }

  /** From a seam on: the fitting stops at a seam, or inside the first run; and it stops because up to the next seam
      the text would be too wide. */
  lemma {:induction false} FitTokensBreak(sc: Screen, rem: real, s: string, p: nat)
    requires p <= |s| && (p == 0 || p == |s| || Seam(s, p))
    ensures var r := FitTokens(sc, rem, s[..p], Tokens(s[p..]));
            && r.fit <= s
            && (|r.fit| < |s| ==>
                  && (|r.fit| == 0 || Seam(s, |r.fit|) || (forall k :: 0 < k <= |r.fit| ==> !Seam(s, k)))
                  && exists n :: NextSeam(s, |r.fit|, n) && sc.width(s[..n]) > rem)
    decreases |s| - p
  {
    hide FirstRun, Seam, BestCut;
    if p == |s| {
      assert s[p..] == "" && s[..p] == s;
    } else {
      FirstRunIs(s, p);
      var n := p + FirstRun(s[p..]);
      var tok, rest := s[p..n], Tokens(s[n..]);
      TokensStep(s, p, n);
      assert s[..p] + tok == s[..n];
      assert ([tok] + rest)[1..] == rest;
      if sc.width(s[..n]) <= rem {
        FitTokensBreak(sc, rem, s, n);
      } else if p == 0 {
        assert s[..0] == "" && tok == s[..n];
        TooWide(sc, rem, tok);
        var k := BestCut(sc, rem, tok);
        assert tok[..k] == s[..k];
        SeamLater(s, k, n);
        assert NextSeam(s, k, n);
      }
    }
  }

  lemma TokensStep(s: string, p: nat, n: nat)
    requires p < |s| && n == p + FirstRun(s[p..])
    ensures Tokens(s[p..]) == [s[p..n]] + Tokens(s[n..])
  {
    hide FirstRun;
    var t := s[p..];
    assert t[..n - p] == s[p..n] && t[n - p..] == s[n..];
  }

  lemma TooWide(sc: Screen, rem: real, tok: string)
    requires tok != "" && sc.width(tok) > rem
    ensures BestCut(sc, rem, tok) < |tok|
  {
    SearchFits(sc, rem, tok, 0, |tok|, 0);
    assert tok[..|tok|] == tok;
  }

  lemma SeamLater(s: string, k: nat, n: nat)
    requires NextSeam(s, 0, n) && k < n
    ensures NextSeam(s, k, n) && forall i :: 0 < i <= k ==> !Seam(s, i)
  {
  }

  /** A sentence breaks between a blank and a character that is none, and inside a word only if not even its first
      word fits; and it breaks as late as that allows: up to the next such place it would be too wide. */
  lemma FitBreaksAtSeams(sc: Screen, rem: real, sentence: string)
    ensures var r := Fit(sc, rem, sentence);
            rem > 0.0 && r.rest != "" ==>
              && (r.fit == "" || Seam(sentence, |r.fit|) || (forall k :: 0 < k <= |r.fit| ==> !Seam(sentence, k)))
              && exists n :: NextSeam(sentence, |r.fit|, n) && sc.width(sentence[..n]) > rem
  {
    hide FitTokens, Tokens, Seam;
    FitKeeps(sc, rem, sentence);
    assert sentence[..0] == "" && sentence[0..] == sentence;
    FitTokensBreak(sc, rem, sentence, 0);
  }
}
