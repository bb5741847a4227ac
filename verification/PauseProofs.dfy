/** The pause flush asks every piece for a minimum number of words. With room for at least 32 characters it
    drops nothing all the same; with less room it can. */
module PauseProofs {
  import opened Text
  import opened Normal
  import opened Words
  import opened Cuts
  import opened SegmentSpec
  import opened ChunkProofs
  import opened WindowProofs

  predicate Roomy(cfg: Config) {
    cfg.maxWords >= 1 && cfg.maxChars >= 32
  }

  /** How far along a blank must be for a character cut to go back to it. */
  function BackLimit(cfg: Config): (r: int)
    ensures Roomy(cfg) ==> 6 <= r <= cfg.maxChars - 2
  {
    Max(6, cfg.maxChars * 11 / 20)
  }

  /** All blanks of `s` lie before `n`. */
  predicate BlanksBefore(s: string, n: int) {
    forall i :: 0 <= i < |s| && IsSpace(s[i]) ==> i < n
  }

  /** Over the character limit only because a long word runs across it. */
  predicate LongLastWord(cfg: Config, h: string) {
    WordCount(h) <= cfg.maxWords && cfg.maxChars < |h| <= cfg.maxChars + 32 && BlanksBefore(h, BackLimit(cfg))
  }

  lemma {:induction false} LastSpaceFromIs(s: string, i: int)
    requires i < |s|
    ensures forall k :: Max(0, LastSpaceFrom(s, i) + 1) <= k <= i ==> !IsSpace(s[k])
    decreases i + 1
  {
    if i >= 0 && !IsSpace(s[i]) {
      LastSpaceFromIs(s, i - 1);
    }
  }

  lemma {:induction false} FirstSpaceInIs(s: string, i: nat, end: int)
    requires end <= |s|
    ensures var r := FirstSpaceIn(s, i, end);
            forall k :: i <= k < (if r == -1 then end else r) ==> !IsSpace(s[k])
    decreases end - i
  {
    if i < end && !IsSpace(s[i]) {
      FirstSpaceInIs(s, i + 1, end);
    }
  }

  /** A character cut past the limit runs to the end of the word that crosses it. */
  lemma CutByCharsFar(s: string, m: int)
    requires m >= 1 && CutByChars(s, m) > m
    ensures var c := CutByChars(s, m);
            m < c < |s| && IsSpace(s[c]) && BlanksBefore(s[..c], Max(6, m * 11 / 20))
  {
    var b, c := LastSpaceBefore(s, m), CutByChars(s, m);
    LastSpaceFromIs(s, Min(m - 1, |s| - 1));
    FirstSpaceInIs(s, m, Min(|s|, m + 33));
    forall i | 0 <= i < |s[..c]| && IsSpace(s[..c][i]) ensures i < Max(6, m * 11 / 20) {
      assert s[..c][i] == s[i];
    }
  }

  /** A character cut exactly at the limit is far from the next blank. */
  lemma CutByCharsExact(s: string, m: int)
    requires m >= 1 && CutByChars(s, m) == m < |s| && !IsSpace(s[m])
    ensures NextSpaceAfter(s, m, 24) == -1
  {
    FirstSpaceInIs(s, m, Min(|s|, m + 33));
    FirstSpaceInIs(s, m, Min(|s|, m + 25));
  }

  /** The limit cut is at a word end, at a blank, or exactly at the character limit inside a long word. */
  lemma LimitCutCases(cfg: Config, t: string)
    requires Roomy(cfg) && t != []
    ensures var r := LimitCut(cfg, t);
            && WordCount(t[..r]) <= cfg.maxWords
            && (r > cfg.maxChars ==> r == |t| || BlanksBefore(t[..r], BackLimit(cfg)))
            && (r < |t| && !IsSpace(t[r]) && !IsSpace(t[r - 1]) ==> r <= cfg.maxChars && NextSpaceAfter(t, r, 24) == -1)
            && r <= cfg.maxChars + 32
            && (r == |t| ==> |t| <= cfg.maxChars)
  {
    hide WordCount, WordEnd, LastSpaceBefore, NextSpaceAfter, BlanksBefore;
    LimitCutBounds2(cfg, t);
    var r := LimitCut(cfg, t);
    var w, c := CutByWords(t, cfg.maxWords), CutByChars(t, cfg.maxChars);
    if c > cfg.maxChars {
      CutByCharsFar(t, cfg.maxChars);
      BlanksBeforePrefix(t, r, c, BackLimit(cfg));
    }
    if w < |t| {
      WordEndIsBoundary(t, cfg.maxWords);
    }
    if c == cfg.maxChars < |t| && !IsSpace(t[c]) {
      CutByCharsExact(t, cfg.maxChars);
    }
    CutByCharsAtBlank(t, cfg.maxChars);
  }

  lemma CutByCharsAtBlank(s: string, m: int)
    requires m >= 1 && s != []
    ensures var c := CutByChars(s, m); c == |s| || IsSpace(s[c]) || c == m
    ensures var c := CutByChars(s, m); c == |s| ==> |s| <= m
  {
  }

  lemma BlanksBeforePrefix(t: string, r: nat, c: nat, n: int)
    requires r <= c <= |t| && BlanksBefore(t[..c], n)
    ensures BlanksBefore(t[..r], n)
  {
  }

  lemma LimitCutBounds2(cfg: Config, s: string)
    requires Roomy(cfg) && s != []
    ensures var r := LimitCut(cfg, s);
            && r == Min(CutByWords(s, cfg.maxWords), CutByChars(s, cfg.maxChars))
            && r <= cfg.maxChars + 32 && WordCount(s[..r]) <= cfg.maxWords
  {
    hide WordCount, CutByChars;
    CutByWordsPositive(s, cfg.maxWords);
    WordsWithinCut(s, cfg.maxWords, LimitCut(cfg, s));
  }

  /** The buffer cut never runs past the character limit except to the end of a long word. */
  lemma BufCutShape(cfg: Config, buf: string)
    requires Roomy(cfg) && buf != [] && !IsSpace(buf[0])
    ensures var cut := BufCut(cfg, buf);
            && 1 <= cut <= |buf|
            && WordCount(buf[..cut]) <= cfg.maxWords
            && cut <= cfg.maxChars + 32
            && (cut > cfg.maxChars ==> BlanksBefore(buf[..cut], BackLimit(cfg)))
  {
    hide WordCount, LimitCut, BackLimit, BlanksBefore;
    RunIs(IsSpace, buf, 0);
    assert LStrip(buf) == buf;
    var r := LimitCut(cfg, buf);
    LimitCutCases(cfg, buf);
    var cut := UnsplitWord(buf, r, cfg.maxChars * 9 / 20);
    hide LStrip, Run, UnsplitWord;
    if WithinLimits(cfg, buf) {
      assert buf[..|buf|] == buf;
    } else {
      UnsplitShape(buf, r, cfg.maxChars * 9 / 20);
      assert cut <= r;
      assert buf[..r][..cut] == buf[..cut];
      WordsOfSlice(buf[..r], 0, cut);
    }
  }

  lemma UnsplitShape(s: string, cut: int, back: int)
    requires s != [] && 1 <= cut <= |s|
    requires cut < |s| && !IsSpace(s[cut]) && !IsSpace(s[cut - 1]) ==> NextSpaceAfter(s, cut, 24) == -1
    ensures UnsplitWord(s, cut, back) <= cut
    ensures UnsplitWord(s, cut, back) < cut ==> cut < |s| && !IsSpace(s[cut]) && !IsSpace(s[cut - 1])
  {
  }

  /** What the pause flush hands to the chunker: within the limits, or over them by one long word only. */
  lemma HeadShape(cfg: Config, buf: string)
    requires Roomy(cfg) && buf != [] && !IsSpace(buf[0])
    ensures var head := Head(buf, BufCut(cfg, buf));
            WithinLimits(cfg, head) || LongLastWord(cfg, head)
  {
    hide BufCut, WordCount, BackLimit, StripLeadingNoise, Strip;
    BufCutShape(cfg, buf);
    var t := buf[..BufCut(cfg, buf)];
    var head := Head(buf, BufCut(cfg, buf));
    WordsOfStrip(t);
    WordsOfStripNoise(Strip(t));
    StripIsTrimmed(t);
    StripLeadingNoiseKeeps(Strip(t));
    if |head| > cfg.maxChars {
      var a, b := StripIsSlice(t);
      var lo, hi := StripLeadingNoiseIsSlice(Strip(t));
      forall i | 0 <= i < |head| && IsSpace(head[i]) ensures i < BackLimit(cfg) {
        assert head[i] == Strip(t)[lo + i] == t[a + lo + i];
      }
    }
  }

  /** A word cut across its middle still counts, so the piece before the cut has all the words. */
  lemma WordsBeforeSolid(s: string, k: nat)
    requires 1 <= k <= |s| && forall i :: k - 1 <= i < |s| ==> !IsSpace(s[i])
    ensures WordCount(s[..k]) == WordCount(s)
    ensures WordCount(s[k..]) <= 1
  {
    assert s == s[..k] + s[k..];
    WordStartsConcat(s[..k], s[k..], false);
    WordStartsInWord(s[k..]);
    if k < |s| {
      forall i | 0 <= i < |s[k..]| ensures !IsSpace(s[k..][i]) {
        assert s[k..][i] == s[k + i];
      }
      WordsOfSolid(s[k..], true);
    }
  }

  /** A text over the limit only by its last word is cut at the limit, inside that word. */
  lemma LongWordCut(cfg: Config, h: string)
    requires cfg.maxWords >= 1 && cfg.maxChars >= 2 && LongLastWord(cfg, h) && BlanksBefore(h, cfg.maxChars - 1)
    requires WordCount(h) >= NeedWords(cfg)
    ensures ChunkCut(cfg, h, false) == cfg.maxChars
    ensures WordCount(h[..cfg.maxChars]) == WordCount(h)
    ensures WordCount(h[cfg.maxChars..]) <= 1
  {
    hide WordCount, WordEnd;
    var m := cfg.maxChars;
    forall i | m - 1 <= i < |h| ensures !IsSpace(h[i]) {
    }
    WordsBeforeSolid(h, m);
    LastSpaceBlank(h, m, m - 1);
    assert LastSpaceBefore(h, m) < BackLimit(cfg);
    assert CutByChars(h, m) == m;
    assert CutByWords(h, cfg.maxWords) == |h|;
    assert LimitCut(cfg, h) == m;
  }

  lemma LastSpaceBlank(h: string, m: int, n: int)
    requires BlanksBefore(h, n) && 0 <= n <= m < |h|
    ensures LastSpaceBefore(h, m) < n || LastSpaceBefore(h, m) == -1
    ensures NextSpaceAfter(h, m, 32) == -1
  {
  }

  /** Neither kind of head loses anything in the chunker. */
  lemma NothingDropped(cfg: Config, h: string)
    requires Roomy(cfg) && Trimmed(h) && h != [] && !IsNoise(h[0])
    requires WithinLimits(cfg, h) || LongLastWord(cfg, h)
    requires WordCount(h) >= NeedWords(cfg)
    ensures !DropsShort(cfg, h, false)
  {
    hide WordCount, ChunkCut, StripLeadingNoise, Strip, BackLimit, NeedWords, BlanksBefore;
    StripLeadingNoiseId(h);
    if !WithinLimits(cfg, h) {
      BlanksBeforeWider(h, BackLimit(cfg), cfg.maxChars - 1);
      LongWordCut(cfg, h);
      var m := cfg.maxChars;
      WordsOfHead(h, m);
      var tail := Strip(h[m..]);
      StripIsTrimmed(h[m..]);
      WordsOfStrip(h[m..]);
      TinyTextDropsNothing(cfg, tail);
    }
  }

  lemma BlanksBeforeWider(h: string, n: int, k: int)
    requires BlanksBefore(h, n) && n <= k
    ensures BlanksBefore(h, k)
  {
  }

  lemma TinyTextDropsNothing(cfg: Config, s: string)
    requires WordCount(s) <= cfg.maxWords && |s| <= cfg.maxChars
    ensures !DropsShort(cfg, s, false)
  {
    hide WordCount, StripLeadingNoise, PieceHead, CutPiece;
    StripLeadingNoiseKeeps(s);
    WordsOfStripNoise(s);
  }

  /** Stripping a prefix of a text without leading noise drops no word. */
  lemma WordsOfHead(cur: string, cut: nat)
    requires cur != [] && !IsNoise(cur[0]) && 1 <= cut <= |cur|
    ensures WordCount(StripLeadingNoise(cur[..cut])) == WordCount(cur[..cut])
  {
    hide WordCount;
    var h := cur[..cut];
    RunIs(IsSpace, h, 0);
    StripIsTrimmed(h);
    assert LStrip(h) == h;
    var t := Strip(h);
    assert t != [] && t[0] == h[0];
    RunIs(IsNoise, t, 0);
    StripOfTrimmed(t);
    WordsOfStrip(h);
  }

  /** With room for 32 characters the pause flush never drops a piece. */
  lemma PauseNeverDrops(cfg: Config, f: Flush, gapMs: real)
    requires Roomy(cfg) && WindowOk(f.seg.win)
    ensures !PauseDrops(cfg, f, gapMs)
  {
    hide IsNormal, Head, BufCut, WordCount, StripLeadingNoise, DropsShort;
    hide Roomy, Chunks, Norm, WithinLimits, LongLastWord;
    var buf := f.seg.win.buf;
    var cut := BufCut(cfg, buf);
    if cut > 0 && KeepsPiece(cfg, Head(buf, cut), false) {
      var head := Head(buf, cut);
      HeadIsNormal(f.seg.win, cut);
      NormFixedPoint(head);
      StripLeadingNoiseId(head);
      HeadShape(cfg, buf);
      NothingDropped(cfg, head);
    }
  }

  lemma HeadIsNormal(w: Window, cut: int)
    requires WindowOk(w) && 0 <= cut <= |w.buf|
    ensures IsNormal(Head(w.buf, cut)) && Trimmed(Head(w.buf, cut))
    ensures Head(w.buf, cut) != [] ==> !IsNoise(Head(w.buf, cut)[0])
  {
    hide IsNormal, Strip, StripLeadingNoise, Alnums, IsNoise;
    var t := w.buf[..cut];
    var a, b := StripBounds(t);
    var lo, hi := StripLeadingNoiseIsSlice(Strip(t));
    StripLeadingNoiseKeeps(Strip(t));
    SliceOfSlice(t, a, b, lo, hi);
    assert t == w.base[w.start..w.start + cut];
    SliceOfSlice(w.base, w.start, w.start + cut, a + lo, a + hi);
    SliceOfNormal(w.base, w.start + a + lo, w.start + a + hi);
  }

  // ---- with less room the pause flush can drop a piece ----

  function Rep(c: char, n: nat): (r: string)
    ensures |r| == n && forall i :: 0 <= i < n ==> r[i] == c
  {
    seq(n, _ => c)
  }

  /** Two one-letter words and a word that runs 32 characters past the limit. */
  function Crossing(m: nat): string {
    "a b " + Rep('c', m + 28)
  }

  lemma CrossingShape(m: nat)
    ensures var h := Crossing(m);
            && |h| == m + 32 && WordCount(h) == 3
            && (forall i :: 0 <= i < |h| ==> (IsSpace(h[i]) <==> i == 1 || i == 3))
            && h[0] == 'a' && Trimmed(h)
  {
    var c := Rep('c', m + 28);
    WordStartsConcat("a b ", c, false);
    WordsOfSolid(c, false);
    assert "a b "[1..] == " b " && " b "[1..] == "b " && "b "[1..] == " ";
  }

  lemma NormalWithBlanks(t: string)
    requires Trimmed(t) && (forall i :: 0 <= i < |t| ==> (IsSpace(t[i]) ==> t[i] == ' ') && !IsPunct(t[i]))
    requires forall i, j :: 0 <= i < j < |t| && j == i + 1 ==> !IsSpace(t[i]) || !IsSpace(t[j])
    ensures IsNormal(t)
  {
  }

  lemma CrossingBuf(cfg: Config, m: nat) returns (buf: string)
    requires 5 <= m == cfg.maxChars && cfg.maxWords >= 4
    ensures buf == Crossing(m) + " d" && IsNormal(buf) && buf[0] == 'a'
    ensures WordCount(buf) == 4 && BufCut(cfg, buf) == m + 32
  {
    var h := Crossing(m);
    CrossingShape(m);
    buf := h + " d";
    WordsJoinAtBlank(h, " d");
    assert " d"[1..] == "d";
    assert WordCount(" d") == 1;
    forall i | 0 <= i < |buf| ensures IsSpace(buf[i]) <==> i == 1 || i == 3 || i == m + 32 {
    }
    NormalWithBlanks(buf);
    CrossingCut(cfg, buf, m);
  }

  lemma CrossingCut(cfg: Config, buf: string, m: nat)
    requires 5 <= m == cfg.maxChars && cfg.maxWords >= 4 && |buf| == m + 34 && WordCount(buf) == 4
    requires forall i :: 0 <= i < |buf| ==> (IsSpace(buf[i]) <==> i == 1 || i == 3 || i == m + 32)
    requires WordCount(buf[..m + 32]) == 3
    ensures BufCut(cfg, buf) == m + 32
  {
    hide WordCount, WordEnd;
    RunIs(IsSpace, buf, 0);
    assert LStrip(buf) == buf;
    LastSpaceFromIs(buf, m - 1);
    FirstSpaceInIs(buf, m, Min(|buf|, m + 33));
    assert LastSpaceBefore(buf, m) < 6;
    assert IsSpace(buf[m + 32]);
    assert FirstSpaceIn(buf, m, m + 33) == m + 32;
    assert CutByChars(buf, m) == m + 32;
    assert LimitCut(cfg, buf) == m + 32;
  }

  /** The pieces of the crossing text: its last 32 characters do not fit one piece and are one word. */
  lemma CrossingDrops(cfg: Config, m: nat)
    requires 5 <= m == cfg.maxChars < 32 && cfg.maxWords >= 4 && cfg.minWords == 3
    ensures Chunks(cfg, Crossing(m), false) != []
    ensures DropsShort(cfg, StripLeadingNoise(Norm(Crossing(m))), false)
    ensures KeepsPiece(cfg, Crossing(m), false) && StripLeadingNoise(Strip(Crossing(m))) == Crossing(m)
  {
    hide WordCount, ChunkCut, Strip, StripLeadingNoise, CutByWords, LimitCut, Run, WordEnd;
    var h := Crossing(m);
    CrossingShape(m);
    NormalWithBlanks(h);
    NormFixedPoint(h);
    StripOfTrimmed(h);
    StripLeadingNoiseId(h);
    assert HasAlnum(h);
    LongWordCut(cfg, h);
    WordsOfHead(h, m);
    var head := PieceHead(cfg, h, false);
    HasAlnumIfWords(h[..m]);
    CrossingTail(cfg, m);
    ChunksStart(cfg, h);
  }

  lemma HasAlnumIfWords(s: string)
    requires s != [] && s[0] == 'a'
    ensures HasAlnum(StripLeadingNoise(s))
  {
  }

  /** A text over the limits whose first piece is kept has chunks. */
  lemma ChunksStart(cfg: Config, h: string)
    requires IsNormal(h) && h != [] && !IsNoise(h[0]) && HasAlnum(h)
    requires !WithinLimits(cfg, h) && WordCount(h) > 0 && KeepsPiece(cfg, PieceHead(cfg, h, false), false)
    ensures Chunks(cfg, h, false) != []
  {
    hide WordCount, ChunkCut, Strip, StripLeadingNoise, WithinLimits, Run;
    NormFixedPoint(h);
    StripLeadingNoiseId(h);
    hide IsNormal, Norm;
    var c := CutPiece(cfg, h, false);
    assert c.piece == [PieceHead(cfg, h, false)];
    assert ChunkFrom(cfg, h, false)[0] == PieceHead(cfg, h, false);
  }

  lemma CrossingTail(cfg: Config, m: nat)
    requires 5 <= m == cfg.maxChars < 32 && cfg.maxWords >= 4 && cfg.minWords == 3
    ensures Strip(Crossing(m)[m..]) == Rep('c', 32)
    ensures DropsShort(cfg, Rep('c', 32), false)
  {
    hide WordStarts, Strip, StripLeadingNoise, Run, WordEnd;
    var t := Rep('c', 32);
    assert Crossing(m)[m..] == t;
    StripOfTrimmed(t);
    StripLeadingNoiseId(t);
    WordsOfSolid(t, false);
    var h := t[..m];
    WordsOfSolid(h, false);
    SolidCut(cfg, t, m);
    WordsOfHead(t, m);
    AlnumsEmpty(h);
    StripLeadingNoiseKeeps(h);
    AlnumsEmpty(StripLeadingNoise(h));
    assert IsAlnum(h[0]);
  }

  /** One word longer than the character limit is cut at the limit. */
  lemma SolidCut(cfg: Config, t: string, m: nat)
    requires 1 <= m == cfg.maxChars < |t| && cfg.maxWords >= 1 && cfg.minWords >= 1
    requires forall i :: 0 <= i < |t| ==> !IsSpace(t[i])
    requires WordCount(t) == 1
    ensures ChunkCut(cfg, t, false) == m
  {
  }

  /** Exactly when the pause flush is safe: with the default minimum of three words and at least five characters of
      room, it never drops anything, from any state and at any moment, if and only if there is room for 32. */
  lemma PauseSafeIff(cfg: Config)
    requires cfg.minWords == 3 && cfg.maxWords >= 4 && cfg.maxChars >= 5
    ensures (forall f: Flush, gapMs: real :: WindowOk(f.seg.win) ==> !PauseDrops(cfg, f, gapMs)) <==> cfg.maxChars >= 32
  {
    if cfg.maxChars >= 32 {
      forall f: Flush, gapMs: real | WindowOk(f.seg.win) ensures !PauseDrops(cfg, f, gapMs) {
        PauseNeverDrops(cfg, f, gapMs);
      }
    } else {
      var f := CrossingFlush(cfg);
      assert PauseDrops(cfg, f, cfg.pauseMs);
    }
  }

  lemma CrossingFlush(cfg: Config) returns (f: Flush)
    requires cfg.minWords == 3 && cfg.maxWords >= 4 && 5 <= cfg.maxChars < 32
    ensures WindowOk(f.seg.win) && PauseDrops(cfg, f, cfg.pauseMs)
  {
    hide BufCut, WordCount, StripLeadingNoise, Strip, Chunks, DropsShort, Norm, IsNormal, KeepsPiece;
    var m := cfg.maxChars;
    var buf := CrossingBuf(cfg, m);
    CrossingDrops(cfg, m);
    assert buf[..m + 32] == Crossing(m);
    assert buf[0..] == buf;
    f := Flush(Seg(Window(buf, buf, 0), Clock(0.0, 0.0, None, None), Gates("", 0, "", 0, 0.0)), []);
  }
}
