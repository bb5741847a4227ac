/** What the committed pieces are: slices of the received text, in order, with only noise between them. */
module PieceProofs {
  import opened Text
  import opened Normal
  import opened Words
  import opened Cuts
  import opened SegmentSpec
  import opened ChunkProofs
  import opened WindowProofs
  import opened PauseProofs
  import opened SegmenterProofs

  datatype Span = Span(lo: nat, hi: nat)

  /** The pieces are the slices of `base` at the spans, which lie in order and apart between `a` and `b`. */
  ghost predicate Laid(base: string, out: seq<string>, spans: seq<Span>, a: int, b: int) {
    && 0 <= a <= b <= |base| && |spans| == |out|
    && (forall k :: 0 <= k < |spans| ==> SpanIs(base, out[k], spans[k], a, b))
    && forall j, k :: 0 <= j < k < |spans| ==> spans[j].hi <= spans[k].lo
  }

  predicate SpanIs(base: string, piece: string, s: Span, a: int, b: int) {
    a <= s.lo < s.hi <= b <= |base| && piece == base[s.lo..s.hi]
  }

  lemma LaidNothing(base: string, a: int, b: int)
    requires 0 <= a <= b <= |base|
    ensures Laid(base, [], [], a, b)
  {
  }

  lemma LaidOne(base: string, lo: nat, hi: nat, a: int, b: int)
    requires 0 <= a <= lo < hi <= b <= |base|
    ensures Laid(base, [base[lo..hi]], [Span(lo, hi)], a, b)
  {
  }

  lemma LaidBoth(base: string, o: seq<string>, s: seq<Span>, a: int, b: int, p: seq<string>, t: seq<Span>, c: int)
    requires Laid(base, o, s, a, b) && Laid(base, p, t, b, c)
    ensures Laid(base, o + p, s + t, a, c)
  {
    hide SpanIs;
    forall k | 0 <= k < |s + t| ensures SpanIs(base, (o + p)[k], (s + t)[k], a, c) {
      if k < |s| {
        SpanWider(base, o[k], s[k], a, b, a, c);
      } else {
        SpanWider(base, p[k - |s|], t[k - |s|], b, c, a, c);
      }
    }
    forall j, k | 0 <= j < k < |s + t| ensures (s + t)[j].hi <= (s + t)[k].lo {
      if j < |s| <= k {
        assert SpanIs(base, o[j], s[j], a, b) && SpanIs(base, p[k - |s|], t[k - |s|], b, c);
        SpanEnds(base, o[j], s[j], a, b);
        SpanEnds(base, p[k - |s|], t[k - |s|], b, c);
      }
    }
  }

  lemma SpanEnds(base: string, piece: string, s: Span, a: int, b: int)
    requires SpanIs(base, piece, s, a, b)
    ensures a <= s.lo < s.hi <= b
  {
  }

  lemma SpanWider(base: string, piece: string, s: Span, a: int, b: int, c: int, d: int)
    requires SpanIs(base, piece, s, a, b) && c <= a && b <= d <= |base|
    ensures SpanIs(base, piece, s, c, d)
  {
  }

  lemma LaidWider(base: string, out: seq<string>, spans: seq<Span>, a: int, b: int, c: int, d: int)
    requires Laid(base, out, spans, a, b) && 0 <= c <= a && b <= d <= |base|
    ensures Laid(base, out, spans, c, d)
  {
  }

  function Shifted(spans: seq<Span>, p: nat): (r: seq<Span>)
    ensures |r| == |spans| && forall k :: 0 <= k < |spans| ==> r[k] == Span(spans[k].lo + p, spans[k].hi + p)
  {
    seq(|spans|, k requires 0 <= k < |spans| => Span(spans[k].lo + p, spans[k].hi + p))
  }

  /** Spans in a slice are spans in the text. */
  lemma LaidInside(base: string, p: nat, q: nat, out: seq<string>, spans: seq<Span>)
    requires p <= q <= |base| && Laid(base[p..q], out, spans, 0, q - p)
    ensures Laid(base, out, Shifted(spans, p), p, q)
  {
    forall k | 0 <= k < |spans| ensures SpanIs(base, out[k], Shifted(spans, p)[k], p, q) {
      var s := spans[k];
      assert SpanIs(base[p..q], out[k], s, 0, q - p);
      SliceOfSlice(base, p, q, s.lo, s.hi);
    }
  }

  lemma LaidInLonger(base: string, after: string, out: seq<string>, spans: seq<Span>, a: int, b: int)
    requires Laid(base, out, spans, a, b) && base <= after
    ensures Laid(after, out, spans, a, b)
  {
    forall k | 0 <= k < |spans| ensures SpanIs(after, out[k], spans[k], a, b) {
      var s := spans[k];
      assert SpanIs(base, out[k], s, a, b);
      assert after[s.lo..s.hi] == after[..|base|][s.lo..s.hi];
    }
  }

  // ---- chunking ----

  lemma StripSlice(s: string) returns (lo: nat, hi: nat)
    ensures lo <= hi <= |s| && Strip(s) == s[lo..hi]
  {
    lo, hi := StripIsSlice(s);
  }

  lemma {:induction false} ChunkFromLaid(cfg: Config, text: string, allowShort: bool) returns (spans: seq<Span>)
    ensures Laid(text, ChunkFrom(cfg, text, allowShort), spans, 0, |text|)
    decreases |text|
  {
    hide StripLeadingNoise, Strip, WordCount, WithinLimits, Laid, CutPiece, IsBlank, Trimmed, Alnums;
    StripLeadingNoiseKeeps(text);
    var cur := StripLeadingNoise(text);
    BlankHasNoWords(cur);
    var lo, hi := StripLeadingNoiseIsSlice(text);
    spans := [];
    LaidNothing(text, 0, |text|);
    if WordCount(cur) > 0 {
      WordsNotEmpty(cur);
      if WithinLimits(cfg, cur) {
        StripOfTrimmed(cur);
        LaidOne(text, lo, hi, 0, |text|);
        spans := [Span(lo, hi)];
      } else {
        var inner := CutLaid(cfg, cur, allowShort);
        LaidInside(text, lo, hi, ChunkFrom(cfg, text, allowShort), inner);
        spans := Shifted(inner, lo);
        LaidWider(text, ChunkFrom(cfg, text, allowShort), spans, lo, hi, 0, |text|);
      }
    }
  }

  lemma WordsNotEmpty(s: string)
    requires WordCount(s) > 0
    ensures s != ""
  {
  }

  /** One cut and what follows it, inside the current text. */
  lemma {:induction false} CutLaid(cfg: Config, cur: string, allowShort: bool) returns (spans: seq<Span>)
    requires cur != ""
    ensures var c := CutPiece(cfg, cur, allowShort);
            Laid(cur, if c.tail == [] then c.piece else c.piece + ChunkFrom(cfg, c.tail, allowShort), spans, 0, |cur|)
    decreases |cur|, 0
  {
    hide StripLeadingNoise, Strip, WordCount, KeepsPiece, Laid, ChunkFrom, ChunkCut, IsBlank, Trimmed;
    var cut := ChunkCut(cfg, cur, allowShort);
    var c := CutPiece(cfg, cur, allowShort);
    var lo, hi := StripLeadingNoiseIsSlice(cur[..cut]);
    var front: seq<Span> := [];
    LaidNothing(cur, 0, cut);
    if c.piece != [] {
      KeptNotEmpty(cfg, StripLeadingNoise(cur[..cut]), allowShort);
      assert cur[..cut][lo..hi] == cur[lo..hi];
      front := [Span(lo, hi)];
      LaidOne(cur, lo, hi, 0, cut);
    }
    var from, to := StripSlice(cur[cut..]);
    if c.tail == [] {
      spans := front;
      LaidWider(cur, c.piece, front, 0, cut, 0, |cur|);
    } else {
      var back := ChunkFromLaid(cfg, c.tail, allowShort);
      assert c.tail == cur[cut + from..cut + to];
      LaidInside(cur, cut + from, cut + to, ChunkFrom(cfg, c.tail, allowShort), back);
      LaidWider(cur, ChunkFrom(cfg, c.tail, allowShort), Shifted(back, cut + from), cut + from, cut + to, cut, |cur|);
      LaidBoth(cur, c.piece, front, 0, cut, ChunkFrom(cfg, c.tail, allowShort), Shifted(back, cut + from), |cur|);
      spans := front + Shifted(back, cut + from);
    }
  }

  lemma KeptNotEmpty(cfg: Config, head: string, allowShort: bool)
    ensures KeepsPiece(cfg, head, allowShort) ==> head != []
  {
  }

  lemma {:induction false} DropEmptyLaid(base: string, ss: seq<string>, spans: seq<Span>, a: int, b: int)
    returns (kept: seq<Span>)
    requires Laid(base, ss, spans, a, b)
    ensures Laid(base, DropEmpty(ss), kept, a, b)
    ensures forall s :: s in kept ==> s in spans
    decreases |ss|
  {
    hide IsPunctOnly, SpanIs;
    kept := [];
    if ss != [] {
      var rest, after := ss[1..], spans[1..];
      LaidRest(base, ss, spans, a, b);
      kept := DropEmptyLaid(base, rest, after, a, b);
      if ss[0] != [] && !IsPunctOnly(ss[0]) {
        KeepFirst(base, ss, spans, DropEmpty(rest), kept, a, b);
        kept := [spans[0]] + kept;
      }
    }
  }

  lemma KeepFirst(base: string, ss: seq<string>, spans: seq<Span>, out: seq<string>, kept: seq<Span>, a: int, b: int)
    requires Laid(base, ss, spans, a, b) && ss != [] && Laid(base, out, kept, a, b)
    requires forall s :: s in kept ==> s in spans[1..]
    ensures Laid(base, [ss[0]] + out, [spans[0]] + kept, a, b)
    ensures forall s :: s in [spans[0]] + kept ==> s in spans
  {
    FirstBeforeRest(base, ss, spans, a, b);
    hide Laid, SpanIs;
    LaidCons(base, ss[0], spans[0], out, kept, a, b);
  }

  lemma LaidRest(base: string, ss: seq<string>, spans: seq<Span>, a: int, b: int)
    requires Laid(base, ss, spans, a, b) && ss != []
    ensures Laid(base, ss[1..], spans[1..], a, b)
  {
    forall k | 0 <= k < |spans[1..]| ensures SpanIs(base, ss[1..][k], spans[1..][k], a, b) {
      assert SpanIs(base, ss[k + 1], spans[k + 1], a, b);
    }
  }

  lemma FirstBeforeRest(base: string, ss: seq<string>, spans: seq<Span>, a: int, b: int)
    requires Laid(base, ss, spans, a, b) && ss != []
    ensures SpanIs(base, ss[0], spans[0], a, b)
    ensures forall s :: s in spans[1..] ==> spans[0].hi <= s.lo
  {
  }

  lemma LaidCons(base: string, piece: string, s: Span, out: seq<string>, spans: seq<Span>, a: int, b: int)
    requires Laid(base, out, spans, a, b) && SpanIs(base, piece, s, a, b)
    requires forall t :: t in spans ==> s.hi <= t.lo
    ensures Laid(base, [piece] + out, [s] + spans, a, b)
  {
    hide SpanIs;
    forall k | 0 <= k < |[s] + spans| ensures SpanIs(base, ([piece] + out)[k], ([s] + spans)[k], a, b) {
      assert k > 0 ==> SpanIs(base, out[k - 1], spans[k - 1], a, b);
    }
    forall j, k | 0 <= j < k < |[s] + spans| ensures ([s] + spans)[j].hi <= ([s] + spans)[k].lo {
      assert spans[k - 1] in spans;
    }
  }

  /** A head of a normalised text is what the chunker starts with. */
  lemma HeadIsStart(head: string)
    requires IsNormal(head) && (head != "" ==> !IsNoise(head[0]))
    ensures StripLeadingNoise(Norm(head)) == head
  {
    hide Norm, StripLeadingNoise;
    NormFixedPoint(head);
    StripLeadingNoiseId(head);
  }

  lemma ChunksLaid(cfg: Config, head: string, allowShort: bool) returns (spans: seq<Span>)
    requires IsNormal(head) && (head != "" ==> !IsNoise(head[0]))
    ensures Laid(head, Chunks(cfg, head, allowShort), spans, 0, |head|)
  {
    hide ChunkFrom, Laid, IsPunctOnly, IsNormal, StripLeadingNoise, Norm, DropEmpty;
    HeadIsStart(head);
    spans := [];
    LaidNothing(head, 0, |head|);
    if head != [] && !IsPunctOnly(head) {
      var all := ChunkFromLaid(cfg, head, allowShort);
      spans := DropEmptyLaid(head, ChunkFrom(cfg, head, allowShort), all, 0, |head|);
    }
  }

  /** The head of a buffer is a slice of the text. */
  lemma HeadSlice(w: Window, cut: int) returns (lo: nat, hi: nat)
    requires WindowOk(w) && 0 <= cut <= |w.buf|
    ensures w.start <= lo <= hi <= w.start + cut && Head(w.buf, cut) == w.base[lo..hi]
    ensures IsNormal(w.base[lo..hi]) && (lo < hi ==> !IsNoise(w.base[lo..hi][0]))
  {
    hide IsNormal, Head, Trimmed, IsNoise, IsSpace;
    var b := w.buf[..cut];
    var i, j := HeadOf(b);
    lo, hi := w.start + i, w.start + j;
    assert b == w.base[w.start..w.start + cut] && w.buf[..cut] == b[..cut];
    SliceOfSlice(w.base, w.start, w.start + cut, i, j);
    SliceOfNormal(w.base, lo, hi);
  }

  lemma HeadOf(b: string) returns (lo: nat, hi: nat)
    ensures lo <= hi <= |b| && Head(b, |b|) == b[lo..hi] && Trimmed(b[lo..hi])
    ensures lo < hi ==> !IsNoise(b[lo..hi][0])
    ensures forall buf, cut :: 0 <= cut <= |buf| && buf[..cut] == b ==> Head(buf, cut) == Head(b, |b|)
  {
    hide StripLeadingNoise, Strip;
    assert b[..|b|] == b;
    var i, j := StripSlice(b);
    var k, l := StripLeadingNoiseIsSlice(b[i..j]);
    StripLeadingNoiseKeeps(Strip(b));
    SliceOfSlice(b, i, j, k, l);
    lo, hi := i + k, i + l;
  }

  // ---- stages ----

  ghost predicate LaidBetween(f: Flush, g: Flush)
    requires f.out <= g.out
  {
    exists spans :: Laid(f.seg.win.base, NewOut(f, g), spans, f.seg.win.start, g.seg.win.start)
  }

  lemma LaidThenLaid(f: Flush, g: Flush, h: Flush)
    requires Moves(f, g) && Moves(g, h) && LaidBetween(f, g) && LaidBetween(g, h)
    ensures Moves(f, h) && LaidBetween(f, h)
  {
    hide WindowOk, Laid;
    MovesThenMoves(f, g, h);
    var base := f.seg.win.base;
    var s :| Laid(base, NewOut(f, g), s, f.seg.win.start, g.seg.win.start);
    var t :| Laid(base, NewOut(g, h), t, g.seg.win.start, h.seg.win.start);
    LaidBoth(base, NewOut(f, g), s, f.seg.win.start, g.seg.win.start, NewOut(g, h), t, h.seg.win.start);
  }

  lemma LaidSame(f: Flush, g: Flush)
    requires WindowOk(f.seg.win) && g.seg.win == f.seg.win && g.out == f.out
    ensures Moves(f, g) && LaidBetween(f, g)
  {
    assert NewOut(f, g) == [];
    LaidNothing(f.seg.win.base, f.seg.win.start, f.seg.win.start);
  }

  /** Committing the chunks of a head and dropping it. */
  lemma TakeHeadLaid(cfg: Config, f: Flush, g: Flush, cut: int, allowShort: bool, out: seq<string>)
    requires WindowOk(f.seg.win) && 0 <= cut <= |f.seg.win.buf|
    requires g.seg.win == Consume(f.seg.win, cut) && g.out == f.out + out
    requires out == [] || out == Chunks(cfg, Head(f.seg.win.buf, cut), allowShort)
    ensures Moves(f, g) && LaidBetween(f, g)
  {
    hide WindowOk, Laid, Chunks, Head, Consume, IsNormal;
    var w := f.seg.win;
    ConsumeIsOk(w, cut);
    assert NewOut(f, g) == out;
    StartIsNat(w);
    StartIsNat(g.seg.win);
    if out == [] {
      LaidNothing(w.base, w.start, g.seg.win.start);
    } else {
      var lo, hi := HeadSlice(w, cut);
      var inner := ChunksLaid(cfg, w.base[lo..hi], allowShort);
      LaidInside(w.base, lo, hi, out, inner);
      LaidWider(w.base, out, Shifted(inner, lo), lo, hi, w.start, g.seg.win.start);
    }
  }

  lemma StartIsNat(w: Window)
    requires WindowOk(w)
    ensures 0 <= w.start <= |w.base|
  {
  }

  lemma {:induction false} PunctStageLaid(cfg: Config, f: Flush, now: real, tms: Option<int>)
    requires WindowOk(f.seg.win)
    ensures Moves(f, PunctStage(cfg, f, now, tms)) && LaidBetween(f, PunctStage(cfg, f, now, tms))
    decreases |f.seg.win.buf|
  {
    hide WindowOk, FirstBoundary, Head, Chunks, PunctHolds, PunctGate;
    hide Consume, IsBlank, EmptyBuf, LaidBetween, IsPunctOnly;
    var p := FirstBoundary(f.seg.win.buf);
    if p > 0 && !PunctHolds(cfg, f.seg, p, now) {
      var g := PunctStep(cfg, f, p, now, tms);
      TakeHeadLaid(cfg, f, g, p, true, HeadChunks(cfg, Head(f.seg.win.buf, p)));
      if IsBlank(g.seg.win.buf) {
        BlankWindow(g.seg.win);
      } else {
        PunctStageLaid(cfg, g, now, tms);
        LaidThenLaid(f, g, PunctStage(cfg, g, now, tms));
      }
    } else {
      LaidSame(f, PunctStage(cfg, f, now, tms));
    }
  }

  lemma PauseStageLaid(cfg: Config, f: Flush, gapMs: real, now: real, tms: Option<int>)
    requires WindowOk(f.seg.win)
    ensures Moves(f, PauseStage(cfg, f, gapMs, now, tms)) && LaidBetween(f, PauseStage(cfg, f, gapMs, now, tms))
  {
    hide WindowOk, BufCut, Head, Chunks, Consume, KeepsPiece, WordCount, LaidBetween;
    var g := PauseStage(cfg, f, gapMs, now, tms);
    var cut := BufCut(cfg, f.seg.win.buf);
    if g == f {
      LaidSame(f, g);
    } else {
      TakeHeadLaid(cfg, f, g, cut, false, Chunks(cfg, Head(f.seg.win.buf, cut), false));
    }
  }

  lemma {:induction false} MaxStageLaid(cfg: Config, f: Flush, now: real, tms: Option<int>)
    requires WindowOk(f.seg.win)
    ensures Moves(f, MaxStage(cfg, f, now, tms)) && LaidBetween(f, MaxStage(cfg, f, now, tms))
    decreases |f.seg.win.buf|
  {
    hide WindowOk, BufCut, Head, Chunks, Consume, WordCount, UnderMax, EmptyBuf, LaidBetween, IsPunctOnly;
    var buf := f.seg.win.buf;
    BlankHasNoWords(buf);
    if WordCount(buf) <= 0 {
      BlankWindow(f.seg.win);
      LaidSame(f, MaxStage(cfg, f, now, tms));
    } else if !UnderMax(cfg, buf) {
      var cut := BufCut(cfg, buf);
      var g := MaxStep(cfg, f, cut, now, tms);
      TakeHeadLaid(cfg, f, g, cut, true, HeadChunks(cfg, Head(buf, cut)));
      if g.seg.win.buf != [] {
        MaxStageLaid(cfg, g, now, tms);
        LaidThenLaid(f, g, MaxStage(cfg, g, now, tms));
      }
    } else {
      LaidSame(f, f);
    }
  }

  lemma BeatStageLaid(cfg: Config, f: Flush, now: real, tms: Option<int>)
    requires WindowOk(f.seg.win)
    ensures Moves(f, BeatStage(cfg, f, now, tms)) && LaidBetween(f, BeatStage(cfg, f, now, tms))
  {
    hide WindowOk, SafePrefix, StripLeadingNoise, BeatReady, BeatCut, Head, Chunks, Consume, LaidBetween;
    var g := BeatStage(cfg, f, now, tms);
    var safe := StripLeadingNoise(SafePrefix(cfg, f.seg.win.buf));
    var s := f.seg.(gates := BeatGate(f.seg.gates, safe));
    if cfg.enableBeat && BeatReady(cfg, s, safe, now, tms) {
      BeatReadyPrefix(cfg, s, safe, now, tms);
      var cut := BeatCut(s.win.buf, safe);
      var out := Chunks(cfg, Head(s.win.buf, cut), true);
      if out == [] {
        LaidSame(f, g);
      } else {
        TakeHeadLaid(cfg, f, g, cut, true, out);
      }
    } else {
      LaidSame(f, g);
    }
  }

  lemma FlushStagesLaid(cfg: Config, s: Seg, gapMs: real, now: real, tms: Option<int>)
    requires WindowOk(s.win)
    ensures var f, u := Flush(s, []), AsFlush(FlushStages(cfg, s, gapMs, now, tms)); Moves(f, u) && LaidBetween(f, u)
  {
    hide WindowOk, Moves, PunctStage, PauseStage, MaxStage, BeatStage, WordCount, IsBlank, Drained, EmptyBuf;
    hide LaidBetween, Draft;
    var f := Flush(s, []);
    var f1 := PunctStage(cfg, f, now, tms);
    PunctStageLaid(cfg, f, now, tms);
    MovesOk(f, f1);
    BlankHasNoWords(f1.seg.win.buf);
    if WordCount(f1.seg.win.buf) <= 0 {
      DrainedLaid(f, f1, f1.seg.win.(buf := ""));
    } else {
      var f2 := PauseStage(cfg, f1, gapMs, now, tms);
      PauseStageLaid(cfg, f1, gapMs, now, tms);
      LaidThenLaid(f, f1, f2);
      MovesOk(f1, f2);
      BlankHasNoWords(f2.seg.win.buf);
      if WordCount(f2.seg.win.buf) <= 0 {
        DrainedLaid(f, f2, EmptyBuf(f2.seg.win));
      } else {
        var f3 := MaxStage(cfg, f2, now, tms);
        MaxStageLaid(cfg, f2, now, tms);
        LaidThenLaid(f, f2, f3);
        MovesOk(f2, f3);
        BlankHasNoWords(f3.seg.win.buf);
        if WordCount(f3.seg.win.buf) <= 0 {
          DrainedLaid(f, f3, EmptyBuf(f3.seg.win));
        } else {
          BeatStageLaid(cfg, f3, now, tms);
          LaidThenLaid(f, f3, BeatStage(cfg, f3, now, tms));
        }
      }
    }
  }

  lemma DrainedLaid(f: Flush, g: Flush, win: Window)
    requires Moves(f, g) && LaidBetween(f, g) && IsBlank(g.seg.win.buf)
    requires win == EmptyBuf(g.seg.win) || win == g.seg.win.(buf := "")
    ensures Moves(f, AsFlush(Drained(g, win))) && LaidBetween(f, AsFlush(Drained(g, win)))
  {
    hide Laid;
    DrainedOk(f, g, win);
  }

  // ---- the gaps ----

  predicate InSpans(spans: seq<Span>, i: int) {
    exists k :: 0 <= k < |spans| && spans[k].lo <= i < spans[k].hi
  }

  /** Between `a` and `b` every letter and digit lies in a span. */
  ghost predicate GapsClean(base: string, spans: seq<Span>, a: int, b: int) {
    forall i :: 0 <= a <= i < b <= |base| && IsAlnum(base[i]) ==> InSpans(spans, i)
  }

  lemma BeforeFirst(base: string, out: seq<string>, spans: seq<Span>, a: int, b: int, i: int)
    requires Laid(base, out, spans, a, b) && spans != [] && i < spans[0].lo
    ensures !InSpans(spans, i)
  {
    hide SpanIs;
    forall k | 0 <= k < |spans| ensures i < spans[k].lo {
      SpanEnds(base, out[0], spans[0], a, b);
    }
  }

  lemma GapsCons(base: string, out: seq<string>, spans: seq<Span>, a: int, b: int)
    requires Laid(base, out, spans, a, b) && spans != []
    ensures var s := spans[0];
            && Laid(base, out[1..], spans[1..], s.hi, b)
            && (GapsClean(base, spans, a, b) <==> !HasAlnum(base[a..s.lo]) && GapsClean(base, spans[1..], s.hi, b))
  {
    var s, rest := spans[0], spans[1..];
    assert SpanIs(base, out[0], s, a, b);
    forall k | 0 <= k < |rest| ensures SpanIs(base, out[1..][k], rest[k], s.hi, b) {
      assert SpanIs(base, out[k + 1], spans[k + 1], a, b);
    }
    if GapsClean(base, spans, a, b) {
      forall i | 0 <= i < |base[a..s.lo]| ensures !IsAlnum(base[a..s.lo][i]) {
        BeforeFirst(base, out, spans, a, b, a + i);
        assert base[a..s.lo][i] == base[a + i];
      }
      forall i | s.hi <= i < b && IsAlnum(base[i]) ensures InSpans(rest, i) {
        assert InSpans(spans, i);
        var k :| 0 <= k < |spans| && spans[k].lo <= i < spans[k].hi;
        assert rest[k - 1] == spans[k];
      }
    }
    if !HasAlnum(base[a..s.lo]) && GapsClean(base, rest, s.hi, b) {
      forall i | a <= i < s.lo ensures !IsAlnum(base[i]) {
        assert base[a..s.lo][i - a] == base[i];
      }
      forall i | s.lo <= i < b && IsAlnum(base[i]) ensures InSpans(spans, i) {
        if i < s.hi {
          assert spans[0].lo <= i < spans[0].hi;
        } else {
          assert InSpans(rest, i);
          var k :| 0 <= k < |rest| && rest[k].lo <= i < rest[k].hi;
          assert spans[k + 1] == rest[k];
        }
      }
    }
  }

  lemma GapsOfNothing(base: string, a: int, b: int)
    requires 0 <= a <= b <= |base|
    ensures GapsClean(base, [], a, b) <==> Alnums(base[a..b]) == []
  {
    AlnumsEmpty(base[a..b]);
    if GapsClean(base, [], a, b) {
      forall i | 0 <= i < |base[a..b]| ensures !IsAlnum(base[a..b][i]) {
        assert base[a..b][i] == base[a + i];
        assert !InSpans([], a + i);
      }
    }
    if !HasAlnum(base[a..b]) {
      forall i | a <= i < b ensures !IsAlnum(base[i]) {
        assert base[a..b][i - a] == base[i];
      }
    }
  }

  /** The pieces hold all letters and digits of their stretch exactly when there are none in the gaps. */
  lemma {:induction false} CleanIffConserved(base: string, out: seq<string>, spans: seq<Span>, a: int, b: int)
    requires Laid(base, out, spans, a, b)
    ensures |Alnums(Concat(out))| <= |Alnums(base[a..b])|
    ensures GapsClean(base, spans, a, b) <==> Alnums(Concat(out)) == Alnums(base[a..b])
    decreases |spans|
  {
    hide Alnums, Concat, Laid, GapsClean, HasAlnum;
    AlnumsNothing();
    if spans == [] {
      LaidLength(base, out, spans, a, b);
      GapsOfNothing(base, a, b);
    } else {
      LaidLength(base, out, spans, a, b);
      GapsCons(base, out, spans, a, b);
      LaidFirst(base, out, spans, a, b);
      var s := spans[0];
      CleanIffConserved(base, out[1..], spans[1..], s.hi, b);
      assert base[a..b] == base[a..s.lo] + (out[0] + base[s.hi..b]);
      AlnumsConcat(base[a..s.lo], out[0] + base[s.hi..b]);
      AlnumsConcat(out[0], base[s.hi..b]);
      ConcatUnfold(out);
      AlnumsConcat(out[0], Concat(out[1..]));
      AlnumsEmpty(base[a..s.lo]);
      FourParts(Alnums(base[a..s.lo]), Alnums(out[0]), Alnums(base[s.hi..b]), Alnums(Concat(out[1..])));
    }
  }

  lemma FourParts(x: string, p: string, y: string, z: string)
    requires |z| <= |y|
    ensures |p + z| <= |x + (p + y)|
    ensures p + z == x + (p + y) <==> x == [] && z == y
  {
    if p + z == x + (p + y) {
      assert |x| == 0;
      assert (p + z)[|p|..] == z && (p + y)[|p|..] == y && x + (p + y) == p + y;
    }
  }

  lemma LaidLength(base: string, out: seq<string>, spans: seq<Span>, a: int, b: int)
    requires Laid(base, out, spans, a, b)
    ensures |spans| == |out| && 0 <= a <= b <= |base|
  {
  }

  lemma LaidFirst(base: string, out: seq<string>, spans: seq<Span>, a: int, b: int)
    requires Laid(base, out, spans, a, b) && spans != []
    ensures SpanIs(base, out[0], spans[0], a, b)
  {
  }

  // ---- one update, and a run ----

  lemma StepLaid(cfg: Config, s: Seg, x: Input) returns (spans: seq<Span>)
    requires WindowOk(s.win)
    ensures var t, u := Taken(cfg, s, x), Step(cfg, s, x);
            && WindowOk(t.win) && t.win.base == Norm(x.text) == u.seg.win.base
            && t.win.start >= Min(s.win.start, |Norm(x.text)|)
            && Laid(Norm(x.text), u.out, spans, t.win.start, u.seg.win.start)
            && (StepDrops(cfg, s, x) <==>
                  Alnums(Concat(u.out)) != Alnums(Norm(x.text)[t.win.start..u.seg.win.start]))
  {
    hide TakeIn, FlushStages, IsNormal, IsBlank, EmptyBuf, Norm, Alnums, Concat, FlushDrops, Laid, Conserves;
    NormIsNormal(x.text);
    TakeInIsOk(cfg, s.(clk := Received(s.clk, x.now, x.tms)), Norm(x.text), x.now);
    var t, u := Taken(cfg, s, x), Step(cfg, s, x);
    spans := [];
    if IsBlank(t.win.buf) {
      BlankWindow(t.win);
      LaidNothing(t.win.base, t.win.start, t.win.start);
      AlnumsNothing();
      assert t.win.base[t.win.start..t.win.start] == [];
    } else {
      var gap := GapMs(s.clk, x.now, x.tms);
      FlushStagesLaid(cfg, t, gap, x.now, x.tms);
      FlushStagesOk(cfg, t, gap, x.now, x.tms);
      var f := Flush(t, []);
      assert NewOut(f, AsFlush(u)) == u.out;
      spans :| Laid(t.win.base, u.out, spans, t.win.start, u.seg.win.start);
      ConservedSlice(f, AsFlush(u));
    }
  }

  lemma ConservedSlice(f: Flush, g: Flush)
    requires WindowOk(f.seg.win) && Moves(f, g) && f.out == []
    ensures Conserves(f, g) <==> Alnums(Concat(g.out)) == Alnums(f.seg.win.base[f.seg.win.start..g.seg.win.start])
  {
    hide IsNormal, Alnums, Concat, IsSpace;
    assert NewOut(f, g) == g.out;
    var base, a, b := f.seg.win.base, f.seg.win.start, g.seg.win.start;
    SliceAndRest(base, a, b);
    SameTail(Alnums(Concat(g.out)), Alnums(base[a..b]), Alnums(base[b..]));
  }

  lemma SliceAndRest(base: string, a: nat, b: nat)
    requires a <= b <= |base|
    ensures Alnums(base[a..]) == Alnums(base[a..b]) + Alnums(base[b..])
  {
    hide Alnums;
    AlnumsSplit(base[a..], b - a);
    assert base[a..][..b - a] == base[a..b] && base[a..][b - a..] == base[b..];
  }

  /** The pieces of an update are slices of the normalised text, in order and apart, between where its window starts
      once the text is taken in and where it starts afterwards. No letter or digit lies between them, exactly unless
      the pause stage drops a piece. A steady text is taken in over blanks only. */
  lemma PiecesAreSlices(cfg: Config, s: Seg, x: Input) returns (spans: seq<Span>)
    requires WindowOk(s.win)
    ensures var full, from, u := Norm(x.text), Taken(cfg, s, x).win.start, Step(cfg, s, x);
            && u.seg.win.base == full && from >= Min(s.win.start, |full|)
            && Laid(full, u.out, spans, from, u.seg.win.start)
            && (GapsClean(full, spans, from, u.seg.win.start) <==> !StepDrops(cfg, s, x))
            && (Steady(cfg, s.win, full) ==>
                  s.win.start <= from && forall i :: s.win.start <= i < from ==> IsSpace(full[i]))
  {
    hide WindowOk, TakeIn, FlushStages, IsNormal, Norm, Alnums;
    hide Concat, Laid, GapsClean, Steady, UpdateStable, StepDrops;
    spans := StepLaid(cfg, s, x);
    var g := Step(cfg, s, x);
    CleanIffConserved(Norm(x.text), g.out, spans, Taken(cfg, s, x).win.start, g.seg.win.start);
    if Steady(cfg, s.win, Norm(x.text)) {
      NormIsNormal(x.text);
      SteadyOverBlanks(cfg, s.(clk := Received(s.clk, x.now, x.tms)), Norm(x.text), x.now);
    }
  }

  lemma SteadyOverBlanks(cfg: Config, s: Seg, full: string, now: real)
    requires WindowOk(s.win) && IsNormal(full) && Steady(cfg, s.win, full)
    ensures var t := TakeIn(cfg, s, full, now).win;
            s.win.start <= t.start <= |full| && forall i :: s.win.start <= i < t.start ==> IsSpace(full[i])
  {
    hide IsNormal, BufFrom, Extend, ResyncOn, AutoBaseline, TakeIn, Lcp;
    var w := s.win;
    TakeInWindow(cfg, s, full, now);
    if w.base == [] {
      BufFromIsOk(full, 0);
    } else if w.base <= full {
      ExtendIsOk(w, full);
      hide WindowOk;
    } else {
      assert w.start <= Lcp(w.base, full) <= |full|;
      SteadyResync(cfg, w, full);
      BufFromIsOk(full, w.start);
    }
  }

  lemma TakeInWindow(cfg: Config, s: Seg, full: string, now: real)
    ensures TakeIn(cfg, s, full, now).win
            == if s.win.base == [] then BufFrom(full, 0)
               else if s.win.base <= full then Extend(s.win, full)
               else BufFrom(full, ResyncOn(cfg, s.win, full).at)
  {
    hide BufFrom, Extend, ResyncOn;
  }

  lemma SteadyResync(cfg: Config, w: Window, full: string)
    requires w.start >= 0 && !AutoBaseline(cfg, w.base, full) && Lcp(w.base, full) >= w.start
    ensures ResyncOn(cfg, w, full).at == w.start
  {
    hide AutoBaseline, Reanchor, SuffixPrefixOverlap, OverlapUsable, TailWindowStart, Lcp;
  }

  /** Over a run of growing texts all pieces are slices of the last text, in order and apart, behind where the first
      window started; with room in the pieces every letter and digit up to the window lies in one of them. */
  lemma {:induction false} RunPiecesAreSlices(cfg: Config, s: Seg, xs: seq<Input>) returns (spans: seq<Span>)
    requires WindowOk(s.win) && Growing(s.win.base, NormTexts(xs))
    ensures var (t, out) := RunAll(cfg, s, xs);
            && Laid(t.win.base, out, spans, s.win.start, t.win.start)
            && (Roomy(cfg) ==> GapsClean(t.win.base, spans, s.win.start, t.win.start))
    decreases |xs|
  {
    hide WindowOk, Norm, Laid, RunAll, Growing, GapsClean, Roomy, Alnums, Concat;
    spans := RunLaid(cfg, s, xs);
    var (t, out) := RunAll(cfg, s, xs);
    if Roomy(cfg) {
      GrowingIsSteady(cfg, s, xs);
      RoomyNeverDrops(cfg, s, xs);
      RunConserves(cfg, s, xs);
      LaidLength(t.win.base, out, spans, s.win.start, t.win.start);
      GrowsFromBase(cfg, s, xs);
      AlnumsSplit(t.win.base[..t.win.start], s.win.start);
      assert t.win.base[..t.win.start][..s.win.start] == s.win.base[..s.win.start];
      assert t.win.base[..t.win.start][s.win.start..] == t.win.base[s.win.start..t.win.start];
      SameHead(Alnums(s.win.base[..s.win.start]), Alnums(Concat(out)), Alnums(t.win.base[s.win.start..t.win.start]));
      CleanIffConserved(t.win.base, out, spans, s.win.start, t.win.start);
    }
  }

  lemma {:induction false} GrowsFromBase(cfg: Config, s: Seg, xs: seq<Input>)
    requires WindowOk(s.win) && Growing(s.win.base, NormTexts(xs))
    ensures s.win.base <= RunAll(cfg, s, xs).0.win.base
    ensures 0 <= s.win.start <= |s.win.base|
    decreases |xs|
  {
    hide Step, Norm, IsNormal;
    if xs != [] {
      assert NormTexts(xs)[1..] == NormTexts(xs[1..]);
      StepWindowOk(cfg, s, xs[0]);
      GrowsFromBase(cfg, Step(cfg, s, xs[0]).seg, xs[1..]);
    }
  }

  lemma {:induction false} RunLaid(cfg: Config, s: Seg, xs: seq<Input>) returns (spans: seq<Span>)
    requires WindowOk(s.win) && Growing(s.win.base, NormTexts(xs))
    ensures var (t, out) := RunAll(cfg, s, xs); Laid(t.win.base, out, spans, s.win.start, t.win.start)
    decreases |xs|
  {
    hide WindowOk, Step, Norm, Laid, Taken, GapsClean, Steady, StepDrops;
    StartIsNat(s.win);
    if xs == [] {
      spans := [];
      LaidNothing(s.win.base, s.win.start, s.win.start);
    } else {
      assert NormTexts(xs)[1..] == NormTexts(xs[1..]);
      StepWindowOk(cfg, s, xs[0]);
      var u := Step(cfg, s, xs[0]);
      GrowthIsSteady(cfg, s.win, Norm(xs[0].text));
      var front := PiecesAreSlices(cfg, s, xs[0]);
      var back := RunLaid(cfg, u.seg, xs[1..]);
      GrowsFromBase(cfg, u.seg, xs[1..]);
      var (t, out) := RunAll(cfg, u.seg, xs[1..]);
      var from := Taken(cfg, s, xs[0]).win.start;
      LaidLength(u.seg.win.base, u.out, front, from, u.seg.win.start);
      LaidInLonger(u.seg.win.base, t.win.base, u.out, front, from, u.seg.win.start);
      LaidWider(t.win.base, u.out, front, from, u.seg.win.start, s.win.start, u.seg.win.start);
      LaidBoth(t.win.base, u.out, front, s.win.start, u.seg.win.start, out, back, t.win.start);
      spans := front + back;
    }
  }

  lemma GrowthIsSteady(cfg: Config, w: Window, full: string)
    requires w.base <= full
    ensures Steady(cfg, w, full)
  {
  }
}
