/** What each stage of an update commits, and when: by segments, after a pause, at the limits and on the beat; and
    what the draft shows. */
module StageProofs {
  import opened Text
  import opened Normal
  import opened Words
  import opened Cuts
  import opened SegmentSpec
  import opened ChunkProofs
  import opened WindowProofs
  import opened PauseProofs
  import opened PieceProofs
  import opened CutProofs

  // ---- the segments of a buffer ----

  /** Marks that end a segment. */
  predicate EndsSegment(c: char) {
    c in {'.', '!', '?', ';', ':', '\U{2026}'}
  }

  /** `lo..hi` is what a buffer says first: behind its leading noise, up to and with its first segment end. */
  predicate IsFirstSegment(buf: string, lo: nat, hi: nat) {
    && lo < hi <= |buf| && EndsSegment(buf[hi - 1]) && (forall i :: 0 <= i < hi - 1 ==> !EndsSegment(buf[i]))
    && (forall i :: 0 <= i < lo ==> IsNoise(buf[i])) && !IsNoise(buf[lo])
  }

  /** A piece that is committed as it is: it has a letter or digit and is within the limits. */
  predicate FitsWhole(cfg: Config, s: string) {
    HasAlnum(s) && WordCount(s) <= cfg.maxWords && |s| <= cfg.maxChars
  }

  lemma FirstBoundaryIs(buf: string, lo: nat, hi: nat)
    requires IsFirstSegment(buf, lo, hi)
    ensures FirstBoundary(buf) == hi + Run(IsSpace, buf[hi..])
  {
    assert forall c :: EndsSegment(c) <==> IsSegmentEnd(c);
    RunIs(NotSegmentEnd, buf, hi - 1);
  }

  /** What stands before a cut, without the noise in front and the blanks behind. */
  lemma HeadIs(buf: string, cut: int, lo: nat, hi: nat)
    requires 0 <= lo < hi <= cut <= |buf|
    requires forall i :: 0 <= i < lo ==> IsNoise(buf[i])
    requires forall i :: hi <= i < cut ==> IsSpace(buf[i])
    requires !IsNoise(buf[lo]) && !IsSpace(buf[hi - 1])
    ensures Head(buf, cut) == buf[lo..hi]
  {
    hide Strip, IsNoise, IsSpace;
    var b := buf[..cut];
    NoNoiseNoSpace(buf[lo]);
    var i, j := StripEnds(b, lo, hi);
    assert Strip(b) == buf[i..hi];
    SaidInSlice(buf, i, lo, hi);
    StripIsTrimmed(b);
    StripOfTrimmed(Strip(b));
  }

  lemma SaidInSlice(buf: string, i: nat, lo: nat, hi: nat)
    requires i <= lo < hi <= |buf| && (forall n :: 0 <= n < lo ==> IsNoise(buf[n]))
    requires !IsNoise(buf[lo]) && !IsSpace(buf[lo]) && !IsSpace(buf[hi - 1])
    ensures var t := buf[i..hi]; Strip(t[Run(IsNoise, t)..]) == buf[lo..hi]
  {
    hide Strip, IsNoise, IsSpace;
    var t := buf[i..hi];
    assert forall n :: 0 <= n < lo - i ==> t[n] == buf[n + i];
    RunIs(IsNoise, t, lo - i);
    var u := buf[lo..hi];
    assert t[lo - i..] == u;
    assert u[0] == buf[lo] && u[|u| - 1] == buf[hi - 1];
    StripOfTrimmed(u);
  }

  lemma StripEnds(b: string, lo: nat, hi: nat) returns (i: nat, j: nat)
    requires lo < hi <= |b| && !IsSpace(b[lo]) && !IsSpace(b[hi - 1])
    requires forall n :: hi <= n < |b| ==> IsSpace(b[n])
    ensures i <= lo && j == hi && Strip(b) == b[i..hi]
  {
    i, j := StripIsSlice(b);
    hide Strip;
    StripIsTrimmed(b);
    assert !IsBlank(b) by { assert !IsSpace(b[lo]); }
    forall n | 0 <= n < i ensures IsSpace(b[n]) {
      assert b[..i][n] == b[n];
    }
    forall n | j <= n < |b| ensures IsSpace(b[n]) {
      assert b[j..][n - j] == b[n];
    }
    assert b[i..j][|b[i..j]| - 1] == b[j - 1];
  }

  lemma WholeChunk(cfg: Config, head: string, allowShort: bool)
    requires IsNormal(head) && head != "" && !IsNoise(head[0]) && FitsWhole(cfg, head)
    ensures Chunks(cfg, head, allowShort) == HeadChunks(cfg, head) == [head]
  {
    hide ChunkedAs, Chunks, HeadChunks, IsNormal;
    SpeaksInWords(head);
    ChunksAre(cfg, head, allowShort);
    OnePiece(cfg, head, allowShort, Chunks(cfg, head, allowShort));
    OnePiece(cfg, head, true, HeadChunks(cfg, head));
  }

  lemma SliceNormal(w: Window, lo: nat, hi: nat)
    requires WindowOk(w) && lo < hi <= |w.buf| && !IsSpace(w.buf[lo]) && !IsSpace(w.buf[hi - 1])
    ensures IsNormal(w.buf[lo..hi])
  {
    hide IsNormal;
    var u := w.base[w.start + lo..w.start + hi];
    assert u == w.buf[lo..hi] && u[0] == w.buf[lo] && u[|u| - 1] == w.buf[hi - 1];
    SliceOfNormal(w.base, w.start + lo, w.start + hi);
  }

  lemma SegmentEndIsSolid(c: char)
    requires EndsSegment(c)
    ensures !IsSpace(c) && IsNoise(c)
  {
  }

  /** One step of the punctuation stage: the segment is committed with its mark, and the stage goes on behind it. */
  lemma TakesSegment(cfg: Config, f: Flush, lo: nat, hi: nat, now: real, tms: Option<int>)
    requires WindowOk(f.seg.win) && IsFirstSegment(f.seg.win.buf, lo, hi)
    requires PunctGate(cfg, f.seg.gates, f.seg.win.buf[lo..hi], now).1
    ensures var g := PunctStage(cfg, f, now, tms);
            var mid := PunctStep(cfg, f, FirstBoundary(f.seg.win.buf), now, tms);
            && FirstBoundary(f.seg.win.buf) == hi + Run(IsSpace, f.seg.win.buf[hi..])
            && mid.out == f.out + HeadChunks(cfg, f.seg.win.buf[lo..hi])
            && mid.seg.win.buf == LStrip(f.seg.win.buf[hi..])
            && g == (if IsBlank(mid.seg.win.buf) then Flush(mid.seg.(win := EmptyBuf(mid.seg.win)), mid.out)
                     else PunctStage(cfg, mid, now, tms))
  {
    hide WindowOk, FirstBoundary, Head, Chunks, PunctGate, Emitted, ResetPunct, IsNormal, WordCount, EmptyBuf, HasAlnum;
    var buf, p := f.seg.win.buf, FirstBoundary(f.seg.win.buf);
    FirstBoundaryIs(buf, lo, hi);
    var k := Run(IsSpace, buf[hi..]);
    assert forall i :: hi <= i < p ==> buf[hi..][i - hi] == buf[i];
    SegmentEndIsSolid(buf[hi - 1]);
    HeadIs(buf, p, lo, hi);
    BehindBlanks(buf, hi);
  }

  lemma BehindBlanks(buf: string, hi: nat)
    requires hi <= |buf|
    ensures LStrip(buf[hi + Run(IsSpace, buf[hi..])..]) == LStrip(buf[hi..])
  {
    var k := Run(IsSpace, buf[hi..]);
    assert buf[hi..][k..] == buf[hi + k..];
    if hi + k < |buf| {
      assert buf[hi..][k] == buf[hi + k];
    }
    RunIs(IsSpace, buf[hi + k..], 0);
  }

  /** When the gate lets the buffer's first segment go, the update's first pieces are those of that segment, mark
      included. */
  lemma FirstPiecesAreSegment(cfg: Config, s: Seg, x: Input, lo: nat, hi: nat) returns (pieces: seq<string>)
    requires WindowOk(s.win) && cfg.maxWords >= 1 && cfg.maxChars >= 1
    requires var t := Taken(cfg, s, x);
             IsFirstSegment(t.win.buf, lo, hi) && PunctGate(cfg, t.gates, t.win.buf[lo..hi], x.now).1
    ensures pieces <= Step(cfg, s, x).out && ChunkedAs(cfg, Taken(cfg, s, x).win.buf[lo..hi], true, pieces)
  {
    hide WindowOk, TakeIn, FlushStages, Norm, PunctStage, PunctStep, FirstBoundary, PunctGate, IsNormal;
    hide ChunkedAs, HeadChunks;
    NormIsNormal(x.text);
    TakeInIsOk(cfg, s.(clk := Received(s.clk, x.now, x.tms)), Norm(x.text), x.now);
    var t := Taken(cfg, s, x);
    var f := Flush(t, []);
    TakesSegment(cfg, f, lo, hi, x.now, x.tms);
    pieces := HeadChunks(cfg, t.win.buf[lo..hi]);
    FirstSaid(t.win, lo, hi);
    ChunksAre(cfg, t.win.buf[lo..hi], true);
    assert !IsBlank(t.win.buf) by { assert !IsSpace(t.win.buf[lo]); }
    var mid := PunctStep(cfg, f, FirstBoundary(t.win.buf), x.now, x.tms);
    assert [] + pieces == pieces;
    if !IsBlank(mid.seg.win.buf) {
      StepKeepsWindow(cfg, f, FirstBoundary(t.win.buf), x.now, x.tms);
      PunctStageLaid(cfg, mid, x.now, x.tms);
    }
    StagesAppend(cfg, t, GapMs(s.clk, x.now, x.tms), x.now, x.tms);
  }

  lemma FirstSaid(w: Window, lo: nat, hi: nat)
    requires WindowOk(w) && IsFirstSegment(w.buf, lo, hi)
    ensures IsNormal(w.buf[lo..hi]) && !IsNoise(w.buf[lo..hi][0])
  {
    hide WindowOk, IsNormal;
    SegmentEndIsSolid(w.buf[hi - 1]);
    SliceNormal(w, lo, hi);
  }

  /** If besides it is within the limits, the first piece is that segment. */
  lemma FirstPieceIsSegment(cfg: Config, s: Seg, x: Input, lo: nat, hi: nat)
    requires WindowOk(s.win)
    requires var t := Taken(cfg, s, x);
             && IsFirstSegment(t.win.buf, lo, hi) && FitsWhole(cfg, t.win.buf[lo..hi])
             && PunctGate(cfg, t.gates, t.win.buf[lo..hi], x.now).1
    ensures Step(cfg, s, x).out != [] && Step(cfg, s, x).out[0] == Taken(cfg, s, x).win.buf[lo..hi]
  {
    hide WindowOk, Norm, PunctGate, IsNormal, Step, Taken, ChunkedAs, IsFirstSegment;
    var t := Taken(cfg, s, x);
    TakenIsOk(cfg, s, x);
    assert lo < hi <= |t.win.buf| by { SegmentInside(t.win.buf, lo, hi); }
    SpeaksInWords(t.win.buf[lo..hi]);
    var pieces := FirstPiecesAreSegment(cfg, s, x, lo, hi);
    FirstSaid(t.win, lo, hi);
    OnePiece(cfg, t.win.buf[lo..hi], true, pieces);
  }

  lemma SegmentInside(buf: string, lo: nat, hi: nat)
    requires IsFirstSegment(buf, lo, hi)
    ensures lo < hi <= |buf|
  {
  }

  lemma TakenIsOk(cfg: Config, s: Seg, x: Input)
    requires WindowOk(s.win)
    ensures WindowOk(Taken(cfg, s, x).win)
  {
    hide TakeIn, WindowOk;
    NormIsNormal(x.text);
    TakeInIsOk(cfg, s.(clk := Received(s.clk, x.now, x.tms)), Norm(x.text), x.now);
  }

  lemma StepKeepsWindow(cfg: Config, f: Flush, p: int, now: real, tms: Option<int>)
    requires WindowOk(f.seg.win) && 1 <= p <= |f.seg.win.buf|
    ensures WindowOk(PunctStep(cfg, f, p, now, tms).seg.win)
  {
    hide WindowOk, Consume, Head;
    ConsumeIsOk(f.seg.win, p);
  }

  /** What the punctuation stage commits comes first. */
  lemma StagesAppend(cfg: Config, t: Seg, gapMs: real, now: real, tms: Option<int>)
    ensures PunctStage(cfg, Flush(t, []), now, tms).out <= FlushStages(cfg, t, gapMs, now, tms).out
  {
    hide PunctStage, WordCount, Chunks, Head, BufCut, KeepsPiece, MaxStage, BeatStage, Draft, Consume;
    var f1 := PunctStage(cfg, Flush(t, []), now, tms);
    var f2 := PauseStage(cfg, f1, gapMs, now, tms);
    var f3 := MaxStage(cfg, f2, now, tms);
    MaxAppends(cfg, f2, now, tms);
    BeatAppends(cfg, f3, now, tms);
  }

  lemma {:induction false} MaxAppends(cfg: Config, f: Flush, now: real, tms: Option<int>)
    ensures f.out <= MaxStage(cfg, f, now, tms).out
    decreases |f.seg.win.buf|
  {
    hide WordCount, HeadChunks, Head, BufCut, UnderMax, Consume;
    BlankHasNoWords(f.seg.win.buf);
    if WordCount(f.seg.win.buf) > 0 && !UnderMax(cfg, f.seg.win.buf) {
      var g := MaxStep(cfg, f, BufCut(cfg, f.seg.win.buf), now, tms);
      if g.seg.win.buf != [] {
        MaxAppends(cfg, g, now, tms);
      }
    }
  }

  lemma BeatAppends(cfg: Config, f: Flush, now: real, tms: Option<int>)
    ensures f.out <= BeatStage(cfg, f, now, tms).out
  {
    hide SafePrefix, StripLeadingNoise, BeatReady, BeatCut, Head, Chunks, Consume;
    var safe := StripLeadingNoise(SafePrefix(cfg, f.seg.win.buf));
    var s := f.seg.(gates := BeatGate(f.seg.gates, safe));
    if BeatReady(cfg, s, safe, now, tms) {
      BeatReadyPrefix(cfg, s, safe, now, tms);
    }
  }

  /** The segments of a buffer, each without the noise in front of it, and what is left behind the last one. */
  function Segments(buf: string): (seq<string>, string)
    decreases |buf|
  {
    var e := Run((c: char) => !EndsSegment(c), buf);
    if e == |buf| then ([], buf)
    else
      var rest := Segments(LStrip(buf[e + 1..]));
      var said := buf[..e + 1][Min(Run(IsNoise, buf), e + 1)..];
      ((if said != "" then [said] else []) + rest.0, rest.1)
  }

  /** With the default gate, a buffer whose segments all fit is committed segment by segment, marks included, and the
      rest is left. */
  lemma {:induction false} SegmentsAreCommitted(cfg: Config, f: Flush, now: real, tms: Option<int>)
    requires WindowOk(f.seg.win) && cfg.punctStableCount <= 1
    requires forall s :: s in Segments(f.seg.win.buf).0 ==> FitsWhole(cfg, s)
    ensures var g := PunctStage(cfg, f, now, tms);
            g.out == f.out + Segments(f.seg.win.buf).0 && g.seg.win.buf == Segments(f.seg.win.buf).1
    decreases |f.seg.win.buf|
  {
    hide WindowOk, PunctStep, FirstBoundary, IsNormal, WordCount, FitsWhole, EmptyBuf, IsSpace, EndsSegment, PunctStage;
    hide Run, LStrip, IsNoise, IsBlank, Segments;
    var buf := f.seg.win.buf;
    var e := Run((c: char) => !EndsSegment(c), buf);
    if e == |buf| {
      NoSegmentLeft(cfg, f, now, tms);
    } else {
      var lo := Run(IsNoise, buf);
      var rest := Segments(LStrip(buf[e + 1..]));
      var head := if lo <= e then [buf[lo..e + 1]] else [];
      SegmentsStep(buf, e, lo);
      assert lo <= e ==> head[0] in head + rest.0;
      assert forall s :: s in rest.0 ==> s in head + rest.0;
      FittingStep(cfg, f, e, lo, now, tms);
      var p := FirstBoundary(buf);
      var mid := PunctStep(cfg, f, p, now, tms);
      StepKeepsWindow(cfg, f, p, now, tms);
      SegmentsAreCommitted(cfg, mid, now, tms);
      assert (f.out + head) + rest.0 == f.out + (head + rest.0);
      if IsBlank(mid.seg.win.buf) {
        BlankWindow(mid.seg.win);
        NothingInBlank(mid.seg.win.buf);
      }
    }
  }

  lemma FittingStep(cfg: Config, f: Flush, e: nat, lo: nat, now: real, tms: Option<int>)
    requires WindowOk(f.seg.win) && cfg.punctStableCount <= 1
    requires e == Run((c: char) => !EndsSegment(c), f.seg.win.buf) < |f.seg.win.buf|
    requires lo == Run(IsNoise, f.seg.win.buf) && (lo <= e ==> FitsWhole(cfg, f.seg.win.buf[lo..e + 1]))
    ensures 1 <= FirstBoundary(f.seg.win.buf) <= |f.seg.win.buf|
    ensures var buf, mid := f.seg.win.buf, PunctStep(cfg, f, FirstBoundary(f.seg.win.buf), now, tms);
            && mid.out == f.out + (if lo <= e then [buf[lo..e + 1]] else [])
            && mid.seg.win.buf == LStrip(buf[e + 1..])
            && PunctStage(cfg, f, now, tms)
               == (if IsBlank(mid.seg.win.buf) then Flush(mid.seg.(win := EmptyBuf(mid.seg.win)), mid.out)
                   else PunctStage(cfg, mid, now, tms))
  {
    hide WindowOk, PunctStep, FirstBoundary, IsNormal, FitsWhole, EmptyBuf;
    hide PunctStage, HeadChunks, Run, IsNoise, LStrip;
    SegmentStep(cfg, f, e, lo, now, tms);
    if lo <= e {
      SaidSegment(f.seg.win, e, lo);
      WholeChunk(cfg, f.seg.win.buf[lo..e + 1], true);
    }
  }

  /** What a buffer says first is normal and begins with no noise. */
  lemma SaidSegment(w: Window, e: nat, lo: nat)
    requires WindowOk(w) && lo == Run(IsNoise, w.buf) <= e == Run((c: char) => !EndsSegment(c), w.buf) < |w.buf|
    ensures IsNormal(w.buf[lo..e + 1]) && !IsNoise(w.buf[lo..e + 1][0])
  {
    hide WindowOk, IsNormal, IsNoise;
    EndIs(w.buf, e);
    SegmentEndIsSolid(w.buf[e]);
    assert !IsSpace(w.buf[lo]) by { NoNoiseNoSpace(w.buf[lo]); }
    SliceNormal(w, lo, e + 1);
  }

  lemma NoNoiseNoSpace(c: char)
    requires !IsNoise(c)
    ensures !IsSpace(c)
  {
  }

  /** Segments chunked one after the other. */
  ghost predicate AllChunkedAs(cfg: Config, segments: seq<string>, pieces: seq<string>) {
    if segments == [] then pieces == []
    else
      exists k :: 0 <= k <= |pieces| && ChunkedAs(cfg, segments[0], true, pieces[..k])
                  && AllChunkedAs(cfg, segments[1..], pieces[k..])
  }

  lemma OneMoreChunked(cfg: Config, segment: string, first: seq<string>, segments: seq<string>, pieces: seq<string>)
    requires ChunkedAs(cfg, segment, true, first) && AllChunkedAs(cfg, segments, pieces)
    ensures AllChunkedAs(cfg, [segment] + segments, first + pieces)
  {
    hide ChunkedAs;
    assert ([segment] + segments)[1..] == segments;
    assert (first + pieces)[..|first|] == first && (first + pieces)[|first|..] == pieces;
  }

  /** With the default gate the stage commits the pieces of every segment, whatever their lengths, and leaves the
      rest. */
  lemma {:induction false} SegmentsAreChunked(cfg: Config, f: Flush, now: real, tms: Option<int>)
    requires WindowOk(f.seg.win) && cfg.punctStableCount <= 1 && cfg.maxWords >= 1 && cfg.maxChars >= 1
    ensures var g := PunctStage(cfg, f, now, tms);
            && f.out <= g.out && AllChunkedAs(cfg, Segments(f.seg.win.buf).0, g.out[|f.out|..])
            && g.seg.win.buf == Segments(f.seg.win.buf).1
    decreases |f.seg.win.buf|
  {
    hide WindowOk, PunctStep, FirstBoundary, IsNormal, EmptyBuf, IsSpace, EndsSegment, PunctStage, HeadChunks;
    hide Run, LStrip, IsNoise, IsBlank, Segments, ChunkedAs, AllChunkedAs;
    var buf, g := f.seg.win.buf, PunctStage(cfg, f, now, tms);
    var e := Run((c: char) => !EndsSegment(c), buf);
    if e == |buf| {
      NoSegmentLeft(cfg, f, now, tms);
      NothingChunked(cfg);
      assert f.out[|f.out|..] == [];
    } else {
      var lo, p := Run(IsNoise, buf), FirstBoundary(buf);
      SegmentsStep(buf, e, lo);
      SegmentStep(cfg, f, e, lo, now, tms);
      var mid := PunctStep(cfg, f, p, now, tms);
      StepKeepsWindow(cfg, f, p, now, tms);
      SegmentsAreChunked(cfg, mid, now, tms);
      var segs, said := Segments(mid.seg.win.buf), if lo <= e then HeadChunks(cfg, buf[lo..e + 1]) else [];
      if IsBlank(mid.seg.win.buf) {
        BlankWindow(mid.seg.win);
        NothingInBlank(mid.seg.win.buf);
        NothingChunked(cfg);
        assert g.out[|mid.out|..] == [];
      }
      assert g.out == mid.out + g.out[|mid.out|..];
      assert g.out[|f.out|..] == said + g.out[|mid.out|..];
      if lo <= e {
        SaidSegment(f.seg.win, e, lo);
        ChunksAre(cfg, buf[lo..e + 1], true);
        OneMoreChunked(cfg, buf[lo..e + 1], said, segs.0, g.out[|mid.out|..]);
      } else {
        assert [] + segs.0 == segs.0 && said + g.out[|mid.out|..] == g.out[|mid.out|..];
      }
    }
  }

  lemma NothingChunked(cfg: Config)
    ensures AllChunkedAs(cfg, [], [])
  {
  }

  lemma NothingInBlank(buf: string)
    requires buf == ""
    ensures Segments(buf) == ([], "")
  {
  }

  lemma NoSegmentLeft(cfg: Config, f: Flush, now: real, tms: Option<int>)
    requires Run((c: char) => !EndsSegment(c), f.seg.win.buf) == |f.seg.win.buf|
    ensures PunctStage(cfg, f, now, tms) == f && Segments(f.seg.win.buf) == ([], f.seg.win.buf)
    ensures f.out + [] == f.out
  {
    hide FirstBoundary, Run;
    NoBoundary(f.seg.win.buf);
  }

  lemma NoBoundary(buf: string)
    requires Run((c: char) => !EndsSegment(c), buf) == |buf|
    ensures FirstBoundary(buf) == -1
  {
    assert forall c :: EndsSegment(c) <==> IsSegmentEnd(c);
  }

  /** The step from one segment to the next, also where it says nothing. */
  lemma SegmentStep(cfg: Config, f: Flush, e: nat, lo: nat, now: real, tms: Option<int>)
    requires WindowOk(f.seg.win) && cfg.punctStableCount <= 1
    requires e == Run((c: char) => !EndsSegment(c), f.seg.win.buf) < |f.seg.win.buf|
    requires lo == Run(IsNoise, f.seg.win.buf)
    ensures 1 <= FirstBoundary(f.seg.win.buf) <= |f.seg.win.buf|
    ensures var buf, mid := f.seg.win.buf, PunctStep(cfg, f, FirstBoundary(f.seg.win.buf), now, tms);
            && mid.out == f.out + (if lo <= e then HeadChunks(cfg, buf[lo..e + 1]) else [])
            && mid.seg.win.buf == LStrip(buf[e + 1..])
            && PunctStage(cfg, f, now, tms)
               == (if IsBlank(mid.seg.win.buf) then Flush(mid.seg.(win := EmptyBuf(mid.seg.win)), mid.out)
                   else PunctStage(cfg, mid, now, tms))
  {
    hide WindowOk, PunctStep, FirstBoundary, IsNormal, WordCount, FitsWhole;
    hide EmptyBuf, IsSpace, PunctStage, IsNoise, Run;
    var buf := f.seg.win.buf;
    EndIs(buf, e);
    if lo <= e {
      assert lo != e by { EndIsNoise(buf[e]); }
      TakesSegment(cfg, f, lo, e + 1, now, tms);
    } else {
      NothingSaid(cfg, f, e, lo, now, tms);
    }
  }

  lemma EndIsNoise(c: char)
    ensures EndsSegment(c) ==> IsNoise(c)
  {
  }

  lemma EndIs(buf: string, e: nat)
    requires e == Run((c: char) => !EndsSegment(c), buf) < |buf|
    ensures EndsSegment(buf[e]) && forall i :: 0 <= i < e ==> !EndsSegment(buf[i])
    ensures FirstBoundary(buf) == e + 1 + Run(IsSpace, buf[e + 1..])
  {
    assert forall c :: EndsSegment(c) <==> IsSegmentEnd(c);
    RunIs(NotSegmentEnd, buf, e);
  }

  lemma NothingSaid(cfg: Config, f: Flush, e: nat, lo: nat, now: real, tms: Option<int>)
    requires cfg.punctStableCount <= 1 && lo == Run(IsNoise, f.seg.win.buf) && e < lo
    requires FirstBoundary(f.seg.win.buf) == e + 1 + Run(IsSpace, f.seg.win.buf[e + 1..])
    ensures var buf, mid := f.seg.win.buf, PunctStep(cfg, f, FirstBoundary(f.seg.win.buf), now, tms);
            && mid.out == f.out && mid.seg.win.buf == LStrip(buf[e + 1..])
            && PunctStage(cfg, f, now, tms)
               == (if IsBlank(mid.seg.win.buf) then Flush(mid.seg.(win := EmptyBuf(mid.seg.win)), mid.out)
                   else PunctStage(cfg, mid, now, tms))
  {
    hide FirstBoundary, Head, Chunks, PunctGate, Emitted, ResetPunct, EmptyBuf;
    var buf, p := f.seg.win.buf, FirstBoundary(f.seg.win.buf);
    var k := Run(IsSpace, buf[e + 1..]);
    forall i | 0 <= i < p ensures IsNoise(buf[i]) {
      if i > e {
        assert buf[e + 1..][i - e - 1] == buf[i];
      }
    }
    NoiseHasNoHead(buf, p);
    BehindBlanks(buf, e + 1);
    assert f.out + [] == f.out;
  }

  lemma NoiseHasNoHead(buf: string, p: nat)
    requires p <= |buf| && forall i :: 0 <= i < p ==> IsNoise(buf[i])
    ensures Head(buf, p) == ""
  {
    hide Strip;
    var i, j := StripIsSlice(buf[..p]);
    var t := Strip(buf[..p]);
    assert forall n :: 0 <= n < |t| ==> t[n] == buf[i + n];
    RunIs(IsNoise, Strip(t), |Strip(t)|) by {
      var a, b := StripIsSlice(t);
      assert forall n :: 0 <= n < |Strip(t)| ==> Strip(t)[n] == t[a + n];
    }
    assert Strip(t)[|Strip(t)|..] == "";
    StripOfTrimmed("");
  }

  lemma SegmentsStep(buf: string, e: nat, lo: nat)
    requires e == Run((c: char) => !EndsSegment(c), buf) < |buf| && lo == Run(IsNoise, buf)
    ensures Segments(buf) == ((if lo <= e then [buf[lo..e + 1]] else []) + Segments(LStrip(buf[e + 1..])).0,
                              Segments(LStrip(buf[e + 1..])).1)
  {
    hide Run, LStrip;
    assert buf[..e + 1][Min(lo, e + 1)..] == if lo <= e then buf[lo..e + 1] else "";
  }

  // ---- the other stages ----

  /** A buffer within the limits that begins with its leading noise before `lo`. */
  predicate SaysFrom(cfg: Config, buf: string, lo: nat) {
    && lo < |buf| && (forall i :: 0 <= i < lo ==> IsNoise(buf[i])) && !IsNoise(buf[lo])
    && HasAlnum(buf[lo..]) && WordCount(buf) <= cfg.maxWords && |buf| <= cfg.maxChars
  }

  lemma BufEnds(w: Window)
    requires WindowOk(w) && w.buf != ""
    ensures !IsSpace(w.buf[0]) && !IsSpace(w.buf[|w.buf| - 1])
    ensures LStrip(w.buf) == w.buf == Strip(w.buf) && Run(IsSpace, w.buf) == 0
  {
    hide IsNormal;
    BaseEnds(w.base);
    assert w.buf[|w.buf| - 1] == w.base[|w.base| - 1];
    RunIs(IsSpace, w.buf, 0);
    StripOfTrimmed(w.buf);
    assert w.buf[0..] == w.buf;
  }

  lemma BaseEnds(base: string)
    requires IsNormal(base) && base != ""
    ensures !IsSpace(base[|base| - 1])
  {
  }

  lemma WholeHead(w: Window, lo: nat)
    requires WindowOk(w) && lo < |w.buf| && (forall i :: 0 <= i < lo ==> IsNoise(w.buf[i])) && !IsNoise(w.buf[lo])
    ensures Head(w.buf, |w.buf|) == w.buf[lo..] && IsNormal(w.buf[lo..]) && !IsNoise(w.buf[lo..][0])
  {
    hide WindowOk, Head, IsNormal;
    BufEnds(w);
    HeadIs(w.buf, |w.buf|, lo, |w.buf|);
    assert w.buf[lo..|w.buf|] == w.buf[lo..];
    SliceNormal(w, lo, |w.buf|);
  }

  lemma ConsumeAll(w: Window)
    ensures Consume(w, |w.buf|).buf == ""
  {
  }

  lemma FitsFrom(cfg: Config, buf: string, lo: nat)
    requires SaysFrom(cfg, buf, lo)
    ensures FitsWhole(cfg, buf[lo..])
  {
    hide WordCount, HasAlnum;
    WordsOfSlice(buf, lo, |buf|);
  }

  /** After a pause a buffer with enough words that is within the limits is committed as one piece. */
  lemma PauseTakesAll(cfg: Config, f: Flush, lo: nat, gapMs: real, now: real, tms: Option<int>)
    requires WindowOk(f.seg.win) && SaysFrom(cfg, f.seg.win.buf, lo)
    requires gapMs >= cfg.pauseMs && WordCount(f.seg.win.buf[lo..]) >= Max(1, cfg.minWords)
    ensures var g := PauseStage(cfg, f, gapMs, now, tms);
            g.out == f.out + [f.seg.win.buf[lo..]] && g.seg.win.buf == ""
  {
    hide WindowOk, Head, Chunks, Consume, IsNormal, WordCount, Emitted, HasAlnum, LStrip, Strip;
    var buf := f.seg.win.buf;
    BufEnds(f.seg.win);
    WordsOfSlice(buf, lo, |buf|);
    WholeHead(f.seg.win, lo);
    FitsFrom(cfg, buf, lo);
    WholeChunk(cfg, buf[lo..], false);
    HasAlnumNotPunctOnly(buf[lo..]);
    assert !IsBlank(buf);
    assert BufCut(cfg, buf) == |buf|;
    ConsumeAll(f.seg.win);
  }

  /** What stands before a cut: from the first character that is no noise on, without the blanks at the end. */
  lemma HeadFrom(w: Window, cut: int, lo: nat)
    requires WindowOk(w) && lo < cut <= |w.buf|
    requires !IsNoise(w.buf[lo]) && forall i :: 0 <= i < lo ==> IsNoise(w.buf[i])
    ensures var head := Strip(w.buf[lo..cut]);
            Head(w.buf, cut) == head && head != "" && IsNormal(head) && !IsNoise(head[0])
  {
    hide WindowOk, IsNormal, Head, Strip, IsNoise;
    var u := w.buf[lo..cut];
    assert u[0] == w.buf[lo];
    NoNoiseNoSpace(u[0]);
    var i, j := StripEnd(u);
    var hi := lo + j;
    assert forall n :: hi <= n < cut ==> w.buf[n] == u[n - lo];
    assert w.buf[hi - 1] == u[j - 1] && u[..j] == w.buf[lo..hi];
    HeadIs(w.buf, cut, lo, hi);
    SliceNormal(w, lo, hi);
  }

  lemma StripEnd(u: string) returns (i: nat, j: nat)
    requires u != "" && !IsSpace(u[0])
    ensures 0 < j <= |u| && Strip(u) == u[..j] && !IsSpace(u[j - 1]) && forall n :: j <= n < |u| ==> IsSpace(u[n])
  {
    i, j := StripIsSlice(u);
    StripIsTrimmed(u);
  }

  /** After a pause a buffer with enough words, of any length, is cut at the limits, and the pieces of what stands
      before the cut are committed, if it has enough words. */
  lemma PauseTakesHead(cfg: Config, f: Flush, lo: nat, gapMs: real, now: real, tms: Option<int>)
    returns (cut: int, pieces: seq<string>)
    requires WindowOk(f.seg.win) && cfg.maxWords >= 1 && cfg.maxChars >= 1
    requires gapMs >= cfg.pauseMs && WordCount(f.seg.win.buf) >= Max(1, cfg.minWords)
    requires lo < |f.seg.win.buf| && !IsNoise(f.seg.win.buf[lo])
    requires forall i :: 0 <= i < lo ==> IsNoise(f.seg.win.buf[i])
    ensures 1 <= cut <= |f.seg.win.buf| && CutsBuffer(cfg, f.seg.win.buf, cut)
    ensures var buf, g := f.seg.win.buf, PauseStage(cfg, f, gapMs, now, tms);
            lo < cut ==>
              var head := Strip(buf[lo..cut]);
              && ChunkedAs(cfg, head, false, pieces)
              && if HasAlnum(head) && WordCount(head) >= Max(1, cfg.minWords) && pieces != [] then
                   g.out == f.out + pieces && g.seg.win.buf == LStrip(buf[cut..])
                 else g == f
  {
    hide WindowOk, IsNormal, Head, Strip, IsNoise, Chunks, ChunkedAs, CutsBuffer, WordCount, HasAlnum, LStrip, BufCut;
    var w := f.seg.win;
    BufEnds(w);
    cut, pieces := BufCut(cfg, w.buf), [];
    BufCutMeans(cfg, w.buf);
    assert !IsBlank(w.buf);
    if lo < cut {
      HeadFrom(w, cut, lo);
      var head := Strip(w.buf[lo..cut]);
      pieces := Chunks(cfg, head, false);
      ChunksAre(cfg, head, false);
      NormalTrimmed(head);
      KeptIff(cfg, head, false);
    }
  }

  lemma NormalTrimmed(s: string)
    requires IsNormal(s)
    ensures Trimmed(s)
  {
  }

  /** At the limits a buffer is cut, and the pieces of what stands before the cut are committed first. */
  lemma LimitTakesHead(cfg: Config, f: Flush, lo: nat, now: real, tms: Option<int>)
    returns (cut: int, pieces: seq<string>)
    requires WindowOk(f.seg.win) && cfg.maxWords >= 1 && cfg.maxChars >= 1 && AtLimit(cfg, f.seg.win.buf)
    requires lo < |f.seg.win.buf| && !IsNoise(f.seg.win.buf[lo])
    requires forall i :: 0 <= i < lo ==> IsNoise(f.seg.win.buf[i])
    ensures 1 <= cut <= |f.seg.win.buf| && CutsBuffer(cfg, f.seg.win.buf, cut)
    ensures var buf, g := f.seg.win.buf, MaxStage(cfg, f, now, tms);
            lo < cut ==> ChunkedAs(cfg, Strip(buf[lo..cut]), true, pieces) && f.out + pieces <= g.out
  {
    hide WindowOk, IsNormal, Head, Strip, IsNoise, HeadChunks;
    hide ChunkedAs, CutsBuffer, WordCount, BufCut, Consume, LStrip;
    hide Emitted;
    var w := f.seg.win;
    BufEnds(w);
    cut, pieces := BufCut(cfg, w.buf), [];
    BufCutMeans(cfg, w.buf);
    assert !IsBlank(w.buf);
    if lo < cut {
      HeadFrom(w, cut, lo);
      var head := Strip(w.buf[lo..cut]);
      pieces := HeadChunks(cfg, head);
      ChunksAre(cfg, head, true);
      WordsInSolid(w.buf, lo);
      var g := MaxStep(cfg, f, cut, now, tms);
      assert g.out == f.out + pieces;
      MaxAppends(cfg, g, now, tms);
      BlankHasNoWords(w.buf);
    }
  }

  lemma WordsInSolid(s: string, i: nat)
    requires i < |s| && !IsNoise(s[i])
    ensures WordCount(s) > 0
  {
    NoNoiseNoSpace(s[i]);
    BlankHasNoWords(s);
  }

  /** Before the pause is long enough, or with too few words, it commits nothing. */
  lemma PauseWaits(cfg: Config, f: Flush, gapMs: real, now: real, tms: Option<int>)
    requires gapMs < cfg.pauseMs || WordCount(f.seg.win.buf) < Max(1, cfg.minWords)
    ensures PauseStage(cfg, f, gapMs, now, tms) == f
  {
    hide WordCount, BufCut, Head, Chunks;
  }

  /** On the beat: a buffer that begins with what it says, is within the limits, long enough and has stood for the
      required number of updates is committed as one piece. */
  lemma BeatTakesAll(cfg: Config, f: Flush, now: real, tms: Option<int>)
    requires WindowOk(f.seg.win) && SaysFrom(cfg, f.seg.win.buf, 0) && cfg.enableBeat
    requires SinceEmitMs(f.seg.clk, now, tms) >= cfg.beatMs
    requires (if f.seg.gates.safe == f.seg.win.buf then f.seg.gates.safeCount + 1 else 1) >= Max(1, cfg.beatStableCount)
    requires WordCount(f.seg.win.buf) >= Max(1, cfg.beatMinWords) && |f.seg.win.buf| >= Max(1, cfg.beatMinChars)
    ensures var g := BeatStage(cfg, f, now, tms);
            && g.out == f.out + [f.seg.win.buf] && g.seg.win.buf == "" && g.seg.gates.safeCount == 0
  {
    hide WindowOk, Head, Chunks, Consume, IsNormal, WordCount;
    hide Emitted, HasAlnum, LStrip, Strip, SafePrefix, SinceEmitMs;
    hide StripLeadingNoise;
    var buf := f.seg.win.buf;
    BufEnds(f.seg.win);
    WholeHead(f.seg.win, 0);
    assert buf[0..] == buf;
    FitsFrom(cfg, buf, 0);
    WholeChunk(cfg, buf, true);
    HasAlnumNotPunctOnly(buf);
    SafeIsAll(cfg, buf);
    ConsumeAll(f.seg.win);
    assert BeatCut(buf, buf) == |buf|;
  }

  lemma SafeIsAll(cfg: Config, buf: string)
    requires Trimmed(buf) && LStrip(buf) == buf && buf != "" && !IsNoise(buf[0])
    requires WordCount(buf) <= cfg.maxWords && |buf| <= cfg.maxChars
    ensures StripLeadingNoise(SafePrefix(cfg, buf)) == buf
  {
    hide WordCount, Strip, LStrip, StripLeadingNoise, HasAlnum;
    assert !IsBlank(buf);
    assert buf[..|buf|] == buf;
    StripOfTrimmed(buf);
    StripLeadingNoiseId(buf);
  }

  /** The buffer is at a limit: it has as many words, or as many characters, as a piece may have. */
  predicate AtLimit(cfg: Config, buf: string) {
    WordCount(buf) >= cfg.maxWords || |buf| >= cfg.maxChars
  }

  /** A step of the limits' stage: it starts at a limit and takes no more than a piece. */
  predicate NeededStep(cfg: Config, w: Window, q: nat, r: nat, end: int) {
    && w.start <= q < r <= end <= |w.base| && AtLimit(cfg, w.base[q..])
    && WordCount(w.base[q..r]) <= cfg.maxWords && r - q <= cfg.maxChars + 32
    && forall i :: r <= i < end ==> IsSpace(w.base[i])
  }

  /** The limits' stage takes only what it must: nothing from a buffer below the limits, and its last step starts
      where the buffer still is at a limit and takes at most a piece. */
  lemma {:induction false} MaxTakesOnlyNeeded(cfg: Config, f: Flush, now: real, tms: Option<int>)
    requires WindowOk(f.seg.win) && Roomy(cfg)
    ensures var g := MaxStage(cfg, f, now, tms);
            && (!AtLimit(cfg, f.seg.win.buf) ==> g.seg.win == f.seg.win && g.out == f.out)
            && (g.seg.win == f.seg.win || exists q, r :: NeededStep(cfg, f.seg.win, q, r, g.seg.win.start))
            && !AtLimit(cfg, g.seg.win.buf)
    decreases |f.seg.win.buf|
  {
    hide WindowOk, BufCut, Head, Chunks, Consume, WordCount, EmptyBuf, IsPunctOnly, Roomy, NeededStep, Strip, LStrip;
    var w := f.seg.win;
    NothingUnderLimits(cfg);
    BlankHasNoWords(w.buf);
    if WordCount(w.buf) <= 0 {
      BlankWindow(w);
    } else {
      assert w.buf != "";
      BufEnds(w);
      if !UnderMax(cfg, w.buf) {
        var cut := BufCut(cfg, w.buf);
        var g := MaxStep(cfg, f, cut, now, tms);
        OneStep(cfg, w, cut);
        ConsumeIsOk(w, cut);
        if g.seg.win.buf != [] {
          MaxTakesOnlyNeeded(cfg, g, now, tms);
          LaterStep(cfg, w, g.seg.win, MaxStage(cfg, g, now, tms).seg.win);
        }
      }
    }
  }

  lemma NothingUnderLimits(cfg: Config)
    requires Roomy(cfg)
    ensures !AtLimit(cfg, "")
  {
  }

  lemma OneStep(cfg: Config, w: Window, cut: int)
    requires WindowOk(w) && Roomy(cfg) && w.buf != "" && AtLimit(cfg, w.buf) && cut == BufCut(cfg, w.buf)
    ensures 1 <= cut <= |w.buf| && w.start >= 0
    ensures NeededStep(cfg, w, w.start, w.start + cut, Consume(w, cut).start)
  {
    hide IsNormal, BufCut, WordCount, Run;
    BufEnds(w);
    BufCutShape(cfg, w.buf);
    var k := Run(IsSpace, w.buf[cut..]);
    assert w.buf[..cut] == w.base[w.start..w.start + cut];
    forall i | w.start + cut <= i < w.start + cut + k ensures IsSpace(w.base[i]) {
      assert w.buf[cut..][i - w.start - cut] == w.base[i];
    }
  }

  lemma LaterStep(cfg: Config, w: Window, v: Window, z: Window)
    requires w.start <= v.start && v.base == w.base
    requires exists q, r :: NeededStep(cfg, w, q, r, v.start)
    requires z == v || exists q, r :: NeededStep(cfg, v, q, r, z.start)
    ensures exists q, r :: NeededStep(cfg, w, q, r, z.start)
  {
    hide AtLimit, WordCount;
    if z != v {
      var q, r :| NeededStep(cfg, v, q, r, z.start);
      assert NeededStep(cfg, w, q, r, z.start);
    }
  }

  // ---- the draft ----

  /** A text that ends in a mark as it is, any other without its last word, which may still be growing. */
  ghost predicate WithoutLastWord(s: string, r: string) {
    if s == "" then r == ""
    else if IsPunct(s[|s| - 1]) then r == s
    else if forall k :: 0 < k < |s| ==> !IsSpace(s[k]) then r == ""
    else exists k :: 0 < k < |s| && IsSpace(s[k]) && (forall i :: k < i < |s| ==> !IsSpace(s[i])) && r == Strip(s[..k])
  }

  /** The draft of a buffer: what of it is within the draft's limit, without a last word cut there, and then without a
      last word. */
  ghost predicate ShowsDraft(cfg: Config, buf: string, draft: string) {
    exists c, d :: (if |buf| <= cfg.draftMaxChars then c == buf
                    else WithoutLastWord(RStrip(buf[..Max(0, Min(cfg.draftMaxChars, |buf|))]), c))
                   && WithoutLastWord(c, d) && draft == if HasAlnum(d) then StripLeadingNoise(d) else ""
  }

  lemma DropsLastWord(s: string)
    ensures WithoutLastWord(s, if s == "" || IsPunct(s[|s| - 1]) then s else BeforeLastSpace(s))
  {
    hide Strip, IsPunct, IsSpace, LastSpaceBefore;
    if s != "" {
      LastBlank(s);
    }
  }

  lemma LastBlank(s: string)
    requires s != ""
    ensures var k := LastSpaceBefore(s, |s|);
            -1 <= k < |s| && (k >= 0 ==> IsSpace(s[k])) && forall i :: k < i < |s| && i >= 0 ==> !IsSpace(s[i])
  {
    hide IsSpace;
    LastSpaceFromIs(s, |s| - 1);
  }

  lemma DraftOf(cfg: Config, buf: string)
    requires Trimmed(buf) && cfg.draftMaxChars >= 0
    ensures ShowsDraft(cfg, buf, Draft(cfg, buf))
  {
    hide Strip, RStrip, IsPunct, StripLeadingNoise, HasAlnum, WithoutLastWord, BeforeLastSpace, IsBlank;
    var m := cfg.draftMaxChars;
    StripOfTrimmed(buf);
    var s := if |buf| > m then RStrip(buf[..m]) else buf;
    DropsLastWord(s);
    var c := if |buf| > m && s != [] && !IsPunct(s[|s| - 1]) then BeforeLastSpace(s) else s;
    DropsLastWord(c);
    var d := SafeDraft(buf, m);
    assert WithoutLastWord(c, d);
    DraftKept(d);
  }

  lemma DraftKept(d: string)
    ensures var t := StripLeadingNoise(d); (if IsPunctOnly(t) then "" else t) == if HasAlnum(d) then t else ""
  {
    hide StripLeadingNoise, HasAlnum;
    var t := StripLeadingNoise(d);
    StripLeadingNoiseKeeps(d);
    if HasAlnum(d) {
      if !HasAlnum(t) {
        MuteKept(t, d);
      }
    } else {
      MuteKept(d, t);
      assert t != "" ==> !IsBlank(t);
    }
  }

  /** After every update the draft shown is that of the buffer left. */
  lemma DraftIs(cfg: Config, s: Seg, x: Input)
    requires WindowOk(s.win) && cfg.draftMaxChars >= 0
    ensures var u := Step(cfg, s, x); ShowsDraft(cfg, u.seg.win.buf, u.draft)
  {
    hide WindowOk, Norm, ShowsDraft, Draft, Step;
    StepWindow(cfg, s, x);
    var u := Step(cfg, s, x);
    if u.seg.win.buf != "" {
      BufEnds(u.seg.win);
    }
    DraftOf(cfg, u.seg.win.buf);
    DraftIsOfBuffer(cfg, s, x);
  }

  lemma DraftIsOfBuffer(cfg: Config, s: Seg, x: Input)
    ensures Step(cfg, s, x).draft == Draft(cfg, Step(cfg, s, x).seg.win.buf)
  {
    hide Norm, PunctStage, PauseStage, MaxStage, BeatStage, Draft, TakeIn, WordCount, IsBlank;
    assert Draft(cfg, "") == "" by { NoDraft(cfg); }
  }

  lemma NoDraft(cfg: Config)
    ensures Draft(cfg, "") == ""
  {
    hide Strip, PyEnd, StripLeadingNoise, HasAlnum, BeforeLastSpace;
    StripOfTrimmed("");
    StripLeadingNoiseId("");
  }

  // ---- clocks ----

  /** The receiving clock stands still; the emitting one stands still too, or shows the present. */
  predicate OnlyEmits(c: Clock, d: Clock, now: real, tms: Option<int>) {
    && d.lastRx == c.lastRx && d.rxT == c.rxT
    && ((d.lastEmit == c.lastEmit && d.emitT == c.emitT)
        || (d.lastEmit == now && d.emitT == if tms.Some? then tms else c.emitT))
  }

  /** Whoever commits shows the present. */
  predicate Timed(f: Flush, g: Flush, now: real, tms: Option<int>) {
    && OnlyEmits(f.seg.clk, g.seg.clk, now, tms) && |f.out| <= |g.out|
    && (|g.out| > |f.out| ==>
          g.seg.clk.lastEmit == now && g.seg.clk.emitT == if tms.Some? then tms else f.seg.clk.emitT)
    && (|g.seg.win.buf| == |f.seg.win.buf| ==> g.seg.clk == f.seg.clk)
    && |g.seg.win.buf| <= |f.seg.win.buf|
  }

  lemma TimedBoth(f: Flush, g: Flush, h: Flush, now: real, tms: Option<int>)
    requires Timed(f, g, now, tms) && Timed(g, h, now, tms)
    ensures Timed(f, h, now, tms)
  {
  }

  lemma {:induction false} PunctTimed(cfg: Config, f: Flush, now: real, tms: Option<int>)
    ensures Timed(f, PunctStage(cfg, f, now, tms), now, tms)
    decreases |f.seg.win.buf|
  {
    hide FirstBoundary, Head, HeadChunks, PunctGate, IsBlank, LStrip;
    var p := FirstBoundary(f.seg.win.buf);
    if p > 0 && !PunctHolds(cfg, f.seg, p, now) {
      var g := PunctStep(cfg, f, p, now, tms);
      if !IsBlank(g.seg.win.buf) {
        PunctTimed(cfg, g, now, tms);
        TimedBoth(f, g, PunctStage(cfg, g, now, tms), now, tms);
      }
    }
  }

  lemma {:induction false} MaxTimed(cfg: Config, f: Flush, now: real, tms: Option<int>)
    ensures Timed(f, MaxStage(cfg, f, now, tms), now, tms)
    decreases |f.seg.win.buf|
  {
    hide BufCut, Head, HeadChunks, WordCount, UnderMax, LStrip, Strip;
    BlankHasNoWords(f.seg.win.buf);
    if WordCount(f.seg.win.buf) > 0 && !UnderMax(cfg, f.seg.win.buf) {
      var g := MaxStep(cfg, f, BufCut(cfg, f.seg.win.buf), now, tms);
      if g.seg.win.buf != [] {
        MaxTimed(cfg, g, now, tms);
        TimedBoth(f, g, MaxStage(cfg, g, now, tms), now, tms);
      }
    }
  }

  lemma PauseTimed(cfg: Config, f: Flush, gapMs: real, now: real, tms: Option<int>)
    ensures Timed(f, PauseStage(cfg, f, gapMs, now, tms), now, tms)
  {
    hide BufCut, Head, Chunks, WordCount, KeepsPiece, LStrip;
  }

  lemma BeatTimed(cfg: Config, f: Flush, now: real, tms: Option<int>)
    ensures Timed(f, BeatStage(cfg, f, now, tms), now, tms)
  {
    hide SafePrefix, StripLeadingNoise, Head, BeatReady;
    var safe := StripLeadingNoise(SafePrefix(cfg, f.seg.win.buf));
    var s := f.seg.(gates := BeatGate(f.seg.gates, safe));
    if cfg.enableBeat && BeatReady(cfg, s, safe, now, tms) {
      BeatReadyPrefix(cfg, s, safe, now, tms);
      NoChunksOfNothing(cfg);
      NoHeadOfNothing(s.win.buf);
      hide Chunks;
      assert BeatCut(s.win.buf, safe) > 0 || Head(s.win.buf, 0) == "";
    }
  }

  lemma NoHeadOfNothing(buf: string)
    ensures Head(buf, 0) == ""
  {
    assert buf[..0] == "";
  }

  lemma NoChunksOfNothing(cfg: Config)
    ensures Chunks(cfg, "", true) == []
  {
  }

  lemma StagesTimed(cfg: Config, t: Seg, gapMs: real, now: real, tms: Option<int>)
    ensures Timed(Flush(t, []), AsFlush(FlushStages(cfg, t, gapMs, now, tms)), now, tms)
  {
    hide PunctStage, PauseStage, MaxStage, BeatStage, WordCount, Draft, OnlyEmits;
    var f := Flush(t, []);
    var f1 := PunctStage(cfg, f, now, tms);
    var f2 := PauseStage(cfg, f1, gapMs, now, tms);
    var f3 := MaxStage(cfg, f2, now, tms);
    PunctTimed(cfg, f, now, tms);
    PauseTimed(cfg, f1, gapMs, now, tms);
    MaxTimed(cfg, f2, now, tms);
    BeatTimed(cfg, f3, now, tms);
    OnlyEmitsBoth(f.seg.clk, f1.seg.clk, f2.seg.clk, now, tms);
    OnlyEmitsBoth(f.seg.clk, f2.seg.clk, f3.seg.clk, now, tms);
    OnlyEmitsBoth(f.seg.clk, f3.seg.clk, BeatStage(cfg, f3, now, tms).seg.clk, now, tms);
  }

  lemma OnlyEmitsBoth(a: Clock, b: Clock, c: Clock, now: real, tms: Option<int>)
    requires OnlyEmits(a, b, now, tms) && OnlyEmits(b, c, now, tms)
    ensures OnlyEmits(a, c, now, tms)
    ensures b.lastEmit == now && b.emitT == (if tms.Some? then tms else a.emitT) ==>
              c.lastEmit == now && c.emitT == if tms.Some? then tms else a.emitT
  {
  }

  /** The pause that an update sees is the time since the one before it, by the stamps of the messages if both carry
      one (a missing one stands for the last there was), and by the receiver's clock otherwise. */
  lemma GapIsSinceLast(cfg: Config, s: Seg, x: Input, y: Input)
    ensures var last := if x.tms.Some? then x.tms else s.clk.rxT;
            GapMs(Step(cfg, s, x).seg.clk, y.now, y.tms)
            == if y.tms.Some? && last.Some? then (y.tms.value - last.value) as real else (y.now - x.now) * 1000.0
  {
    hide TakeIn, FlushStages, IsBlank, Norm;
    TakeInKeepsClock(cfg, s.(clk := Received(s.clk, x.now, x.tms)), Norm(x.text), x.now);
    StagesTimed(cfg, Taken(cfg, s, x), GapMs(s.clk, x.now, x.tms), x.now, x.tms);
  }

  lemma TakeInKeepsClock(cfg: Config, s: Seg, full: string, now: real)
    ensures TakeIn(cfg, s, full, now).clk == s.clk
  {
    hide BufFrom, Extend, ResyncOn;
  }

  /** The time that the beat waits from is that of the last update that committed anything. */
  lemma BeatWaitsSinceCommit(cfg: Config, s: Seg, x: Input, y: Input)
    requires Step(cfg, s, x).out != []
    ensures var last := if x.tms.Some? then x.tms else s.clk.emitT;
            SinceEmitMs(Step(cfg, s, x).seg.clk, y.now, y.tms)
            == if y.tms.Some? && last.Some? then (y.tms.value - last.value) as real else (y.now - x.now) * 1000.0
  {
    hide TakeIn, FlushStages, IsBlank, Norm;
    TakeInKeepsClock(cfg, s.(clk := Received(s.clk, x.now, x.tms)), Norm(x.text), x.now);
    StagesTimed(cfg, Taken(cfg, s, x), GapMs(s.clk, x.now, x.tms), x.now, x.tms);
  }
}
