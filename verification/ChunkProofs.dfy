/** Cutting a committed text into pieces loses no letter or digit, and every piece respects the limits. */
module ChunkProofs {
  import opened Text
  import opened Normal
  import opened Words
  import opened Cuts
  import opened SegmentSpec

  // ---- nothing is lost ----

  function PieceHead(cfg: Config, cur: string, allowShort: bool): string
    requires cur != []
  {
    StripLeadingNoise(cur[..ChunkCut(cfg, cur, allowShort)])
  }

  /** Some cut on the way leaves a piece with letters or digits that has too few words to be kept. */
  predicate DropsShort(cfg: Config, text: string, allowShort: bool)
    decreases |text|
  {
    StripLeadingNoiseKeeps(text);
    var cur := StripLeadingNoise(text);
    BlankHasNoWords(cur);
    if WordCount(cur) <= 0 || WithinLimits(cfg, cur) then false
    else
      var head := PieceHead(cfg, cur, allowShort);
      || (HasAlnum(head) && WordCount(head) < (if allowShort then 1 else NeedWords(cfg)))
      || (var c := CutPiece(cfg, cur, allowShort); c.tail != [] && DropsShort(cfg, c.tail, allowShort))
  }

  lemma HasAlnumNotPunctOnly(s: string)
    requires HasAlnum(s)
    ensures s != [] && !IsPunctOnly(s) && WordCount(s) >= 1 && Alnums(s) != []
  {
    AlnumsEmpty(s);
    BlankHasNoWords(s);
  }

  lemma CutPieceKeeps(cfg: Config, cur: string, allowShort: bool)
    requires cur != []
    ensures var c, head := CutPiece(cfg, cur, allowShort), PieceHead(cfg, cur, allowShort);
            && Alnums(cur) == Alnums(head) + Alnums(c.tail)
            && Alnums(Concat(c.piece)) == (if KeepsPiece(cfg, head, allowShort) then Alnums(head) else [])
            && (HasAlnum(head) && WordCount(head) < (if allowShort then 1 else NeedWords(cfg))
                <==> !KeepsPiece(cfg, head, allowShort) && Alnums(head) != [])
  {
    hide ChunkCut, NeedWords, StripLeadingNoise, Strip, WordCount, IsBlank;
    var cut := ChunkCut(cfg, cur, allowShort);
    var head := PieceHead(cfg, cur, allowShort);
    AlnumsSplit(cur, cut);
    StripLeadingNoiseKeeps(cur[..cut]);
    AlnumsStrip(cur[cut..]);
    ConcatOne(head);
    AlnumsEmpty(head);
    if HasAlnum(head) {
      HasAlnumNotPunctOnly(head);
    }
  }

  /** The pieces hold every letter and digit exactly when no short piece is dropped on the way. */
  lemma {:induction false} ChunkFromKeeps(cfg: Config, text: string, allowShort: bool)
    ensures |Alnums(Concat(ChunkFrom(cfg, text, allowShort)))| <= |Alnums(text)|
    ensures Alnums(Concat(ChunkFrom(cfg, text, allowShort))) == Alnums(text) <==> !DropsShort(cfg, text, allowShort)
    decreases |text|
  {
    hide NeedWords, WithinLimits, StripLeadingNoise, Strip, WordCount, CutPiece;
    hide PieceHead, KeepsPiece, Alnums, HasAlnum, IsSpace;
    StripLeadingNoiseKeeps(text);
    var cur := StripLeadingNoise(text);
    BlankHasNoWords(cur);
    if WordCount(cur) <= 0 {
      NoWordsNoAlnums(cur);
    } else if WithinLimits(cfg, cur) {
      StripOfTrimmed(cur);
      ConcatOne(cur);
    } else {
      var c := CutPiece(cfg, cur, allowShort);
      CutPieceKeeps(cfg, cur, allowShort);
      if c.tail == [] {
        AlnumsNothing();
        assert Alnums(PieceHead(cfg, cur, allowShort)) + [] == Alnums(PieceHead(cfg, cur, allowShort));
      } else {
        ChunkFromKeeps(cfg, c.tail, allowShort);
        var rest := ChunkFrom(cfg, c.tail, allowShort);
        ConcatAppend(c.piece, rest);
        AlnumsConcat(Concat(c.piece), Concat(rest));
        SameHead(Alnums(PieceHead(cfg, cur, allowShort)), Alnums(Concat(rest)), Alnums(c.tail));
      }
    }
  }

  lemma SameHead(a: string, x: string, y: string)
    ensures a + x == a + y <==> x == y
    ensures [] + x == x
  {
    if a + x == a + y {
      assert x == (a + x)[|a|..] == (a + y)[|a|..] == y;
    }
  }

  lemma NoWordsNoAlnums(s: string)
    requires WordCount(s) <= 0
    ensures Alnums(s) == [] && Alnums(Concat([])) == []
  {
  }

  /** With `allow_short` a piece is dropped only for having no letter or digit at all. */
  lemma {:induction false} ShortAllowedDropsNothing(cfg: Config, text: string)
    ensures !DropsShort(cfg, text, true)
    decreases |text|
  {
    hide WithinLimits, StripLeadingNoise, CutPiece, PieceHead, Strip;
    StripLeadingNoiseKeeps(text);
    var cur := StripLeadingNoise(text);
    BlankHasNoWords(cur);
    if WordCount(cur) > 0 && !WithinLimits(cfg, cur) {
      var head := PieceHead(cfg, cur, true);
      if HasAlnum(head) {
        HasAlnumNotPunctOnly(head);
      }
      var c := CutPiece(cfg, cur, true);
      if c.tail != [] {
        ShortAllowedDropsNothing(cfg, c.tail);
      }
    }
  }

  lemma EmptyHasNoAlnums(s: string)
    requires s == [] || IsPunctOnly(s)
    ensures Alnums(s) == []
  {
    AlnumsEmpty(s);
  }

  lemma {:induction false} DropEmptyKeeps(ss: seq<string>)
    ensures Alnums(Concat(DropEmpty(ss))) == Alnums(Concat(ss))
  {
    hide Alnums, IsPunctOnly;
    if ss != [] {
      var rest := DropEmpty(ss[1..]);
      DropEmptyKeeps(ss[1..]);
      AlnumsConcat(ss[0], Concat(ss[1..]));
      if ss[0] == [] || IsPunctOnly(ss[0]) {
        EmptyHasNoAlnums(ss[0]);
        assert [] + rest == rest;
      } else {
        AlnumsConcat(ss[0], Concat(rest));
        assert ([ss[0]] + rest)[1..] == rest;
      }
    }
  }

  /** Chunking keeps every letter and digit, in order, exactly when no short piece is dropped. */
  lemma ChunksKeep(cfg: Config, text: string, allowShort: bool)
    ensures Alnums(Concat(Chunks(cfg, text, allowShort))) == Alnums(text)
            <==> !DropsShort(cfg, StripLeadingNoise(Norm(text)), allowShort)
  {
    hide ChunkFrom, Norm, Strip, Run, Alnums, WordCount, CutPiece;
    var t := StripLeadingNoise(Norm(text));
    NormAlnums(text);
    StripLeadingNoiseKeeps(Norm(text));
    ChunkFromKeeps(cfg, t, allowShort);
    DropEmptyKeeps(ChunkFrom(cfg, t, allowShort));
    if t == [] || IsPunctOnly(t) {
      AlnumsEmpty(t);
      NoAlnumsNoDrop(cfg, t, allowShort);
      AlnumsNothing();
    }
  }

  lemma NoAlnumsNoDrop(cfg: Config, t: string, allowShort: bool)
    requires Alnums(t) == []
    ensures !DropsShort(cfg, t, allowShort)
  {
    ChunkFromKeeps(cfg, t, allowShort);
  }

  lemma ShortChunksKeepAll(cfg: Config, text: string)
    ensures Alnums(Concat(Chunks(cfg, text, true))) == Alnums(text)
  {
    ChunksKeep(cfg, text, true);
    ShortAllowedDropsNothing(cfg, StripLeadingNoise(Norm(text)));
  }

  // ---- every piece respects the limits ----

  /** What is promised of every committed piece. */
  predicate GoodPiece(cfg: Config, s: string) {
    s != [] && HasAlnum(s) && !IsNoise(s[0]) && WordCount(s) <= cfg.maxWords && |s| <= cfg.maxChars + 32
  }

  predicate Bounded(cfg: Config, s: string) {
    Trimmed(s) && (s != [] ==> !IsNoise(s[0])) && WordCount(s) <= cfg.maxWords && |s| <= cfg.maxChars + 32
  }

  predicate LimitsOk(cfg: Config) {
    1 <= NeedWords(cfg) <= cfg.maxWords && 1 <= cfg.maxChars
  }

  lemma WordsWithinCut(s: string, n: nat, k: nat)
    requires n >= 1 && k <= CutByWords(s, n)
    ensures WordCount(s[..k]) <= n
  {
    hide WordCount, WordEnd;
    var e := CutByWords(s, n);
    if WordCount(s) <= n {
      WordsOfSlice(s, 0, k);
    } else {
      WordEndCounts(s, n);
      assert s[..e][..k] == s[..k];
      WordsOfSlice(s[..e], 0, k);
    }
  }

  lemma LimitCutBounds(cfg: Config, s: string)
    requires LimitsOk(cfg) && s != []
    ensures LimitCut(cfg, s) <= cfg.maxChars + 32
    ensures WordCount(s[..LimitCut(cfg, s)]) <= cfg.maxWords
  {
    hide WordCount, CutByChars;
    CutByWordsPositive(s, cfg.maxWords);
    WordsWithinCut(s, cfg.maxWords, LimitCut(cfg, s));
  }

  lemma CutByWordsPositive(s: string, n: nat)
    requires n >= 1 && s != []
    ensures CutByWords(s, n) >= 1
  {
  }

  lemma ChunkCutBounds(cfg: Config, s: string, allowShort: bool)
    requires LimitsOk(cfg) && s != []
    ensures ChunkCut(cfg, s, allowShort) <= cfg.maxChars + 32
    ensures WordCount(s[..ChunkCut(cfg, s, allowShort)]) <= cfg.maxWords
  {
    hide WordCount, LimitCut, CutByWords;
    LimitCutBounds(cfg, s);
    CutByWordsPositive(s, NeedWords(cfg));
    WordsWithinCut(s, NeedWords(cfg), CutByWords(s, NeedWords(cfg)));
  }

  lemma PieceBounds(cfg: Config, cur: string, allowShort: bool)
    requires LimitsOk(cfg) && cur != []
    ensures Bounded(cfg, PieceHead(cfg, cur, allowShort))
  {
    hide WordCount, ChunkCut, StripLeadingNoise, LimitsOk;
    var h := cur[..ChunkCut(cfg, cur, allowShort)];
    ChunkCutBounds(cfg, cur, allowShort);
    StripLeadingNoiseKeeps(h);
    WordsOfStripNoise(h);
  }

  lemma {:induction false} ChunkFromBounded(cfg: Config, text: string, allowShort: bool)
    requires LimitsOk(cfg)
    ensures forall x :: x in ChunkFrom(cfg, text, allowShort) ==> Bounded(cfg, x)
    decreases |text|
  {
    hide WordCount, CutPiece, StripLeadingNoise, LimitsOk, Bounded, Strip, Alnums;
    var cur := StripLeadingNoise(text);
    StripLeadingNoiseKeeps(text);
    BlankHasNoWords(cur);
    if WordCount(cur) > 0 {
      if WithinLimits(cfg, cur) {
        StripOfTrimmed(cur);
        WithinIsBounded(cfg, cur);
      } else {
        PieceBounds(cfg, cur, allowShort);
        CutPieceHead(cfg, cur, allowShort);
        var c := CutPiece(cfg, cur, allowShort);
        if c.tail != [] {
          ChunkFromBounded(cfg, c.tail, allowShort);
        }
      }
    }
  }

  lemma WithinIsBounded(cfg: Config, cur: string)
    requires WithinLimits(cfg, cur) && Trimmed(cur) && (cur != [] ==> !IsNoise(cur[0]))
    ensures Bounded(cfg, cur)
  {
  }

  lemma CutPieceHead(cfg: Config, cur: string, allowShort: bool)
    requires cur != []
    ensures forall x :: x in CutPiece(cfg, cur, allowShort).piece ==> x == PieceHead(cfg, cur, allowShort)
  {
  }

  lemma {:induction false} DropEmptySelects(cfg: Config, ss: seq<string>)
    requires forall x :: x in ss ==> Bounded(cfg, x)
    ensures forall x :: x in DropEmpty(ss) ==> GoodPiece(cfg, x)
  {
    if ss != [] {
      hide WordCount, IsNoise, HasAlnum;
      DropEmptySelects(cfg, ss[1..]);
      assert Bounded(cfg, ss[0]);
    }
  }

  /** Every committed piece has a letter or digit, no leading noise, and fits the limits. */
  lemma ChunksAreGood(cfg: Config, text: string, allowShort: bool)
    requires LimitsOk(cfg)
    ensures forall x :: x in Chunks(cfg, text, allowShort) ==> GoodPiece(cfg, x)
  {
    hide ChunkFrom, Bounded, GoodPiece, LimitsOk, Norm, StripLeadingNoise;
    var t := StripLeadingNoise(Norm(text));
    ChunkFromBounded(cfg, t, allowShort);
    DropEmptySelects(cfg, ChunkFrom(cfg, t, allowShort));
  }
}
