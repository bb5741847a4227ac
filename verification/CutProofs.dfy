/** Where a text over the limits is cut, and the pieces that the chunker makes of it, without the chunker. */
module CutProofs {
  import opened Text
  import opened Normal
  import opened Words
  import opened Cuts
  import opened SegmentSpec
  import opened ChunkProofs
  import opened PauseProofs
  import opened PieceProofs

  // ---- cuts ----

  predicate BlankIn(s: string, from: int, to: int, k: int) {
    0 <= from <= k < to && k < |s| && IsSpace(s[k])
  }

  predicate BlankWithin(s: string, from: int, reach: int, k: int) {
    0 <= from <= k <= from + reach && k < |s| && IsSpace(s[k])
  }

  /** A cut at `m` moved to a blank: to the last one before it from `back` on, else to the first within `reach`
      characters, else not at all. */
  ghost predicate MovesToBlank(s: string, m: int, back: int, reach: int, r: int) {
    if exists k :: BlankIn(s, back, m, k) then
      BlankIn(s, back, m, r) && forall k :: BlankIn(s, back, m, k) ==> k <= r
    else if exists k :: BlankWithin(s, m, reach, k) then
      BlankWithin(s, m, reach, r) && forall k :: BlankWithin(s, m, reach, k) ==> r <= k
    else r == m
  }

  /** Near the m-th character, or the end of a text with no more. */
  ghost predicate EndsChars(s: string, m: int, r: int) {
    if |s| <= m then r == |s| else MovesToBlank(s, m, Max(6, m * 11 / 20), 32, r)
  }

  /** Behind the n-th word, or the end of a text with no more words. */
  predicate EndsWords(s: string, n: int, w: int) {
    if WordCount(s) <= n then w == |s|
    else 0 < w < |s| && WordCount(s[..w]) == n && IsSpace(s[w]) && !IsSpace(s[w - 1])
  }

  lemma CutByCharsMeans(s: string, m: int)
    requires m >= 1
    ensures EndsChars(s, m, CutByChars(s, m))
  {
    hide IsSpace;
    if m < |s| {
      LastSpaceFromIs(s, m - 1);
      FirstSpaceInIs(s, m, Min(|s|, m + 33));
      hide LastSpaceFrom, FirstSpaceIn;
      var b, back := LastSpaceBefore(s, m), Max(6, m * 11 / 20);
      assert forall k :: BlankIn(s, back, m, k) ==> k <= b;
      var f := NextSpaceAfter(s, m, 32);
      assert b >= back ==> BlankIn(s, back, m, b);
      assert f >= 0 ==> BlankWithin(s, m, 32, f);
    }
  }

  /** A cut inside a word moves, any other stays. */
  ghost predicate Unsplit(s: string, c: int, back: int, r: int)
    requires 0 < c <= |s|
  {
    if c == |s| || IsSpace(s[c]) || IsSpace(s[c - 1]) then r == c else MovesToBlank(s, c, back, 24, r)
  }

  lemma UnsplitWordMeans(s: string, cut: int, minBack: int)
    requires s != "" && 1 <= cut <= |s|
    ensures Unsplit(s, cut, Max(6, minBack), UnsplitWord(s, cut, minBack))
  {
    hide IsSpace;
    LastSpaceFromIs(s, cut - 1);
    FirstSpaceInIs(s, cut, Min(|s|, cut + 25));
    hide LastSpaceFrom, FirstSpaceIn;
    var b, back := LastSpaceBefore(s, cut), Max(6, minBack);
    assert forall k :: BlankIn(s, back, cut, k) ==> k <= b;
    var f := NextSpaceAfter(s, cut, 24);
    assert b >= back ==> BlankIn(s, back, cut, b);
    assert f >= 0 ==> BlankWithin(s, cut, 24, f);
  }

  lemma CutByWordsMeans(s: string, n: int)
    requires s != "" && n >= 1
    ensures EndsWords(s, n, CutByWords(s, n))
  {
    hide WordCount, WordEnd;
    CutByWordsPositive(s, n);
    if WordCount(s) > n {
      WordEndIsBoundary(s, n);
      WordEndCounts(s, n);
      assert s[..|s|] == s;
    }
  }

  /** A cut at the limits: behind the last word that may still come, or near the last character that may, whichever is
      first. */
  ghost predicate AtTheLimits(cfg: Config, s: string, r: int) {
    exists w, m :: r == Min(w, m) && EndsWords(s, cfg.maxWords, w) && EndsChars(s, cfg.maxChars, m)
  }

  lemma LimitCutMeans(cfg: Config, s: string)
    requires s != "" && cfg.maxWords >= 1 && cfg.maxChars >= 1
    ensures AtTheLimits(cfg, s, LimitCut(cfg, s))
  {
    hide EndsWords, EndsChars, CutByWords, CutByChars;
    CutByWordsMeans(s, cfg.maxWords);
    CutByCharsMeans(s, cfg.maxChars);
    CutByWordsPositive(s, cfg.maxWords);
    var w, m := CutByWords(s, cfg.maxWords), CutByChars(s, cfg.maxChars);
    assert LimitCut(cfg, s) == Min(w, m);
    assert EndsWords(s, cfg.maxWords, w) && EndsChars(s, cfg.maxChars, m);
  }

  /** Where a buffer without a blank in front is cut: nowhere if it is within the limits, else at them, or if that is
      inside a word, at a blank nearby. */
  ghost predicate CutsBuffer(cfg: Config, s: string, r: int) {
    if WordCount(s) <= cfg.maxWords && |s| <= cfg.maxChars then r == |s|
    else
      exists c :: 0 < c <= |s| && AtTheLimits(cfg, s, c) && Unsplit(s, c, Max(6, cfg.maxChars * 9 / 20), r)
  }

  lemma BufCutMeans(cfg: Config, s: string)
    requires s != "" && !IsSpace(s[0]) && cfg.maxWords >= 1 && cfg.maxChars >= 1
    ensures CutsBuffer(cfg, s, BufCut(cfg, s))
  {
    hide WordCount, LimitCut, UnsplitWord, Unsplit, AtTheLimits, IsSpace;
    RunIs(IsSpace, s, 0);
    assert LStrip(s) == s && !IsBlank(s);
    if !WithinLimits(cfg, s) {
      var c := LimitCut(cfg, s);
      LimitCutMeans(cfg, s);
      UnsplitWordMeans(s, c, cfg.maxChars * 9 / 20);
      assert BufCut(cfg, s) == UnsplitWord(s, c, cfg.maxChars * 9 / 20);
    }
  }

  // ---- chunks ----

  /** Where a piece over the limits is cut: at the limits, unless short pieces count for nothing and one with the
      required words is to be had within the characters. */
  ghost predicate CutsPiece(cfg: Config, s: string, allowShort: bool, r: int) {
    exists c, n :: 0 < c <= |s| && AtTheLimits(cfg, s, c) && EndsWords(s, Max(1, cfg.minWords), n)
                   && var short := !allowShort && WordCount(s[..c]) < Max(1, cfg.minWords);
                      r == if short && n <= cfg.maxChars then Max(c, n) else c
  }

  lemma ChunkCutMeans(cfg: Config, s: string, allowShort: bool)
    requires s != "" && cfg.maxWords >= 1 && cfg.maxChars >= 1
    ensures CutsPiece(cfg, s, allowShort, ChunkCut(cfg, s, allowShort))
  {
    hide WordCount, LimitCut, AtTheLimits, EndsWords, CutByWords;
    LimitCutMeans(cfg, s);
    CutByWordsMeans(s, Max(1, cfg.minWords));
    CutByWordsPositive(s, Max(1, cfg.minWords));
    var c, n := LimitCut(cfg, s), CutByWords(s, Max(1, cfg.minWords));
    assert AtTheLimits(cfg, s, c) && EndsWords(s, Max(1, cfg.minWords), n);
  }

  /** `pieces` is what becomes of a text: one piece, without leading noise, if it has a letter or digit and is within
      the limits, else what stands before a cut, if it is enough, and what becomes of the rest. */
  ghost predicate ChunkedAs(cfg: Config, text: string, allowShort: bool, pieces: seq<string>)
    decreases |text|
  {
    StripLeadingNoiseKeeps(text);
    var s := StripLeadingNoise(text);
    if !HasAlnum(s) then pieces == []
    else if WordCount(s) <= cfg.maxWords && |s| <= cfg.maxChars then pieces == [s]
    else
      exists r :: 0 < r <= |s| && CutsPiece(cfg, s, allowShort, r) && CutInTwo(cfg, s, allowShort, r, pieces)
  }

  ghost predicate CutInTwo(cfg: Config, s: string, allowShort: bool, r: int, pieces: seq<string>)
    requires 0 < r <= |s|
    decreases |s|, 0
  {
    StripIsTrimmed(s[r..]);
    var first, rest := Strip(s[..r]), Strip(s[r..]);
    if HasAlnum(first) && (allowShort || WordCount(first) >= Max(1, cfg.minWords)) then
      pieces != [] && pieces[0] == first && ChunkedAs(cfg, rest, allowShort, pieces[1..])
    else ChunkedAs(cfg, rest, allowShort, pieces)
  }

  lemma {:induction false} NothingFromMute(cfg: Config, text: string, allowShort: bool)
    requires !HasAlnum(text)
    ensures DropEmpty(ChunkFrom(cfg, text, allowShort)) == []
    decreases |text|
  {
    hide WithinLimits, WordCount, StripLeadingNoise, Strip, CutPiece, HasAlnum, IsPunctOnly, KeepsPiece;
    StripLeadingNoiseKeeps(text);
    var s := StripLeadingNoise(text);
    MuteKept(text, s);
    BlankHasNoWords(s);
    MuteStaysMute(s);
    if WordCount(s) > 0 && !WithinLimits(cfg, s) {
      MuteCut(cfg, s, allowShort);
      NothingFromMute(cfg, CutPiece(cfg, s, allowShort).tail, allowShort);
      NothingFromNothing(cfg, allowShort);
      assert ChunkFrom(cfg, text, allowShort) == AfterCut(cfg, s, allowShort);
      assert [] + ChunkFrom(cfg, CutPiece(cfg, s, allowShort).tail, allowShort)
             == ChunkFrom(cfg, CutPiece(cfg, s, allowShort).tail, allowShort);
    }
  }

  lemma MuteCut(cfg: Config, s: string, allowShort: bool)
    requires !HasAlnum(s) && s != ""
    ensures CutPiece(cfg, s, allowShort).piece == [] && !HasAlnum(CutPiece(cfg, s, allowShort).tail)
  {
    hide WordCount, StripLeadingNoise, Strip, ChunkCut, HasAlnum, IsPunctOnly, KeepsPiece;
    var r := ChunkCut(cfg, s, allowShort);
    MuteSlice(s, 0, r);
    MuteSlice(s, r, |s|);
    assert s[0..r] == s[..r] && s[r..|s|] == s[r..];
    StripLeadingNoiseKeeps(s[..r]);
    MuteKept(s[..r], StripLeadingNoise(s[..r]));
    MuteStaysMute(StripLeadingNoise(s[..r]));
    var d, e := StripSlice(s[r..]);
    MuteSlice(s[r..], d, e);
  }

  lemma MuteSlice(s: string, a: nat, b: nat)
    requires !HasAlnum(s) && a <= b <= |s|
    ensures !HasAlnum(s[a..b])
  {
    assert forall i :: 0 <= i < |s[a..b]| ==> s[a..b][i] == s[a + i];
  }

  lemma MuteKept(s: string, t: string)
    requires !HasAlnum(s) && Alnums(t) == Alnums(s)
    ensures !HasAlnum(t)
  {
    AlnumsEmpty(s);
    AlnumsEmpty(t);
  }

  /** Nothing without a letter or digit is kept. */
  lemma MuteStaysMute(head: string)
    requires !HasAlnum(head) && Trimmed(head)
    ensures forall cfg, allowShort :: !KeepsPiece(cfg, head, allowShort)
    ensures DropEmpty([Strip(head)]) == []
  {
    StripOfTrimmed(head);
  }

  /** The chunker makes exactly these pieces. */
  lemma {:induction false} ChunkFromIs(cfg: Config, text: string, allowShort: bool)
    requires cfg.maxWords >= 1 && cfg.maxChars >= 1
    ensures ChunkedAs(cfg, text, allowShort, DropEmpty(ChunkFrom(cfg, text, allowShort)))
    decreases |text|
  {
    hide WordCount, StripLeadingNoise, Strip, CutPiece, ChunkCut, HasAlnum, CutsPiece, CutInTwo, IsPunctOnly;
    StripLeadingNoiseKeeps(text);
    var s := StripLeadingNoise(text);
    BlankHasNoWords(s);
    if !HasAlnum(s) {
      MuteKept(s, text);
      NothingFromMute(cfg, text, allowShort);
    } else {
      SpeaksInWords(s);
      if WithinLimits(cfg, s) {
        StripOfTrimmed(s);
        assert DropEmpty([s]) == [s] + DropEmpty([s][1..]) && DropEmpty([]) == [];
      } else {
        var r := ChunkCut(cfg, s, allowShort);
        ChunkCutMeans(cfg, s, allowShort);
        ChunkFromIs(cfg, CutPiece(cfg, s, allowShort).tail, allowShort);
        TwoParts(cfg, s, allowShort);
        assert ChunkFrom(cfg, text, allowShort) == AfterCut(cfg, s, allowShort);
      }
    }
  }

  lemma SpeaksInWords(s: string)
    requires HasAlnum(s)
    ensures WordCount(s) > 0 && s != "" && !IsPunctOnly(s)
  {
    if WordCount(s) <= 0 {
      NoWordsNoAlnums(s);
      AlnumsEmpty(s);
    }
  }

  function AfterCut(cfg: Config, s: string, allowShort: bool): seq<string>
    requires s != ""
  {
    var c := CutPiece(cfg, s, allowShort);
    if c.tail == [] then c.piece else c.piece + ChunkFrom(cfg, c.tail, allowShort)
  }

  lemma TwoParts(cfg: Config, s: string, allowShort: bool)
    requires s != "" && Trimmed(s) && !IsNoise(s[0])
    requires var tail := CutPiece(cfg, s, allowShort).tail;
             ChunkedAs(cfg, tail, allowShort, DropEmpty(ChunkFrom(cfg, tail, allowShort)))
    ensures CutInTwo(cfg, s, allowShort, ChunkCut(cfg, s, allowShort), DropEmpty(AfterCut(cfg, s, allowShort)))
  {
    hide WordCount, StripLeadingNoise, Strip, ChunkCut, HasAlnum, ChunkedAs, IsPunctOnly, ChunkFrom, KeepsPiece;
    var r, c := ChunkCut(cfg, s, allowShort), CutPiece(cfg, s, allowShort);
    var first, rest := Strip(s[..r]), ChunkFrom(cfg, c.tail, allowShort);
    FirstOfSolid(s, r);
    KeptIff(cfg, first, allowShort);
    NothingFromNothing(cfg, allowShort);
    assert AfterCut(cfg, s, allowShort) == c.piece + rest;
    if c.piece != [] {
      assert ([first] + rest)[1..] == rest;
    } else {
      assert [] + rest == rest;
    }
  }

  lemma NothingFromNothing(cfg: Config, allowShort: bool)
    ensures ChunkFrom(cfg, "", allowShort) == []
  {
  }

  lemma FirstOfSolid(s: string, r: int)
    requires 0 < r <= |s| && !IsNoise(s[0])
    ensures StripLeadingNoise(s[..r]) == Strip(s[..r]) != "" && Trimmed(Strip(s[..r]))
  {
    hide Strip;
    var b := s[..r];
    assert b[0] == s[0];
    StripIsTrimmed(b);
    StripStart(b);
    StripLeadingNoiseId(Strip(b));
    StripOfTrimmed(Strip(b));
  }

  lemma StripStart(b: string)
    requires b != "" && !IsSpace(b[0])
    ensures Strip(b) != "" && Strip(b)[0] == b[0]
  {
  }

  lemma KeptIff(cfg: Config, head: string, allowShort: bool)
    requires Trimmed(head) && head != ""
    ensures KeepsPiece(cfg, head, allowShort)
            <==> HasAlnum(head) && (allowShort || WordCount(head) >= Max(1, cfg.minWords))
    ensures KeepsPiece(cfg, head, allowShort) ==> !IsPunctOnly(head)
  {
    hide WordCount;
    if HasAlnum(head) {
      SpeaksInWords(head);
    }
  }

  /** So what a head leaves is chunked by these rules. */
  lemma ChunksAre(cfg: Config, head: string, allowShort: bool)
    requires IsNormal(head) && (head != "" ==> !IsNoise(head[0])) && cfg.maxWords >= 1 && cfg.maxChars >= 1
    ensures ChunkedAs(cfg, head, allowShort, Chunks(cfg, head, allowShort))
    ensures ChunkedAs(cfg, head, true, HeadChunks(cfg, head))
  {
    hide Norm, StripLeadingNoise, ChunkFrom, IsNormal, ChunkedAs, DropEmpty, IsPunctOnly, HasAlnum;
    HeadIsStart(head);
    NormFixedPoint(head);
    ChunkFromIs(cfg, head, allowShort);
    ChunkFromIs(cfg, head, true);
    NothingSaidNothingKept(cfg, head, allowShort);
    NothingSaidNothingKept(cfg, head, true);
  }

  lemma NothingSaidNothingKept(cfg: Config, head: string, allowShort: bool)
    requires StripLeadingNoise(head) == head
    ensures head == "" || IsPunctOnly(head) ==> ChunkedAs(cfg, head, allowShort, [])
  {
    hide StripLeadingNoise, IsBlank;
  }

  /** A text within the limits that begins with what it says is one piece. */
  lemma OnePiece(cfg: Config, head: string, allowShort: bool, pieces: seq<string>)
    requires IsNormal(head) && HasAlnum(head) && !IsNoise(head[0])
    requires WordCount(head) <= cfg.maxWords && |head| <= cfg.maxChars
    requires ChunkedAs(cfg, head, allowShort, pieces)
    ensures pieces == [head]
  {
    hide Norm, StripLeadingNoise, IsNormal, WordCount, HasAlnum;
    HeadIsStart(head);
    NormFixedPoint(head);
  }
}
