/** The segmenter's window over the received text: where it may start, and what a flush takes out of it. */
module WindowProofs {
  import opened Text
  import opened Normal
  import opened Words
  import opened Cuts
  import opened SegmentSpec
  import opened ChunkProofs

  /** The buffer is the part of the text behind the committed boundary, without a leading blank. */
  ghost predicate WindowOk(w: Window) {
    && 0 <= w.start <= |w.base| && w.buf == w.base[w.start..]
    && (w.buf != [] ==> !IsSpace(w.buf[0]))
    && IsNormal(w.base)
  }

  lemma FreshIsOk(full: string, now: real)
    requires IsNormal(full)
    ensures WindowOk(Fresh(full, now).win)
  {
  }

  lemma BufFromIsOk(full: string, start: int)
    requires IsNormal(full)
    ensures WindowOk(BufFrom(full, start)) && BufFrom(full, start).base == full
    ensures BufFrom(full, start).start >= Min(Max(0, start), |full|)
    ensures forall i :: Min(Max(0, start), |full|) <= i < BufFrom(full, start).start ==> IsSpace(full[i])
  {
    hide IsNormal;
    var at := Max(0, Min(start, |full|));
    var k := Run(IsSpace, full[at..]);
    assert full[at..][k..] == full[at + k..];
    assert LStrip(full[at..]) == full[at + k..];
    forall i | at <= i < at + k ensures IsSpace(full[i]) {
      assert IsSpace(full[at..][i - at]);
    }
  }

  lemma ExtendIsOk(w: Window, full: string)
    requires WindowOk(w) && IsNormal(full) && w.base <= full
    ensures WindowOk(Extend(w, full)) && Extend(w, full).base == full
    ensures Extend(w, full).start >= w.start
    ensures forall i :: w.start <= i < Extend(w, full).start ==> IsSpace(full[i])
  {
    hide IsNormal, Run, LStrip;
    var delta := full[|w.base|..];
    if delta == [] {
      assert w.base == full;
    } else if w.buf == [] {
      assert w.start == |w.base|;
      BufFromIsOk(full, |w.base|);
    } else {
      assert full == w.base + delta;
      assert full[w.start..] == w.buf + delta;
    }
  }

  /** On each of the resynchronisation branches the window stays sound and never starts before the committed boundary,
      unless the new text is too short to reach it. */
  lemma TakeInIsOk(cfg: Config, s: Seg, full: string, now: real)
    requires WindowOk(s.win) && IsNormal(full)
    ensures var t := TakeIn(cfg, s, full, now).win;
            WindowOk(t) && t.base == full && t.start >= Min(s.win.start, |full|)
  {
    hide IsNormal, BufFrom, ResyncOn, Extend;
    BufFromIsOk(full, 0);
    if s.win.base <= full {
      ExtendIsOk(s.win, full);
    }
    BufFromIsOk(full, ResyncOn(cfg, s.win, full).at);
  }

  // ---- flushing ----

  /** The window only moves forward, over the same text, and commits are only appended. */
  ghost predicate Moves(f: Flush, g: Flush) {
    WindowOk(g.seg.win) && g.seg.win.base == f.seg.win.base && g.seg.win.start >= f.seg.win.start && f.out <= g.out
  }

  /** What `g` committed beyond `f`. */
  function NewOut(f: Flush, g: Flush): seq<string>
    requires f.out <= g.out
  {
    g.out[|f.out|..]
  }

  /** The letters and digits of the old buffer are those newly committed followed by those still in the buffer. */
  ghost predicate Conserves(f: Flush, g: Flush)
    requires f.out <= g.out
  {
    Alnums(f.seg.win.buf) == Alnums(Concat(NewOut(f, g))) + Alnums(g.seg.win.buf)
  }

  lemma MovesThenMoves(f: Flush, g: Flush, h: Flush)
    requires Moves(f, g) && Moves(g, h)
    ensures Moves(f, h) && NewOut(f, h) == NewOut(f, g) + NewOut(g, h)
  {
  }

  lemma ConservesBoth(f: Flush, g: Flush, h: Flush)
    requires Moves(f, g) && Moves(g, h) && Conserves(f, g)
    ensures Moves(f, h) && (Conserves(f, h) <==> Conserves(g, h))
  {
    hide WindowOk, Alnums, Concat;
    MovesThenMoves(f, g, h);
    ConcatAppend(NewOut(f, g), NewOut(g, h));
    AlnumsConcat(Concat(NewOut(f, g)), Concat(NewOut(g, h)));
    var a, b := Alnums(Concat(NewOut(f, g))), Alnums(Concat(NewOut(g, h)));
    var c := Alnums(h.seg.win.buf);
    assert (a + b) + c == a + (b + c);
    SameHead(a, b + c, Alnums(g.seg.win.buf));
  }

  lemma ConservesPrefix(f: Flush, g: Flush, h: Flush)
    requires Moves(f, g) && Moves(g, h) && Conserves(g, h)
    ensures Moves(f, h) && (Conserves(f, h) <==> Conserves(f, g))
  {
    hide WindowOk, Alnums, Concat;
    MovesThenMoves(f, g, h);
    ConcatAppend(NewOut(f, g), NewOut(g, h));
    AlnumsConcat(Concat(NewOut(f, g)), Concat(NewOut(g, h)));
    var a, b := Alnums(Concat(NewOut(f, g))), Alnums(Concat(NewOut(g, h)));
    var c := Alnums(h.seg.win.buf);
    assert (a + b) + c == a + (b + c);
  }

  lemma Stays(f: Flush)
    requires WindowOk(f.seg.win)
    ensures Moves(f, f) && Conserves(f, f)
  {
  }

  /** Dropping a head of the buffer keeps the window sound. */
  lemma ConsumeIsOk(w: Window, cut: int)
    requires WindowOk(w) && 0 <= cut <= |w.buf|
    ensures WindowOk(Consume(w, cut)) && Consume(w, cut).base == w.base && Consume(w, cut).start >= w.start + cut
  {
    hide IsNormal, BufFrom, Consume;
    ConsumeIsBufFrom(w, cut);
    BufFromIsOk(w.base, w.start + cut);
  }

  lemma ConsumeIsBufFrom(w: Window, cut: int)
    requires 0 <= w.start <= |w.base| && w.buf == w.base[w.start..] && 0 <= cut <= |w.buf|
    ensures Consume(w, cut) == BufFrom(w.base, w.start + cut)
  {
    hide LStrip, Run;
    assert w.buf[cut..] == w.base[w.start + cut..];
  }

  lemma ConsumeAlnums(w: Window, cut: int)
    requires 0 <= cut <= |w.buf|
    ensures Alnums(w.buf) == Alnums(w.buf[..cut]) + Alnums(Consume(w, cut).buf)
  {
    hide Alnums, LStrip;
    AlnumsSplit(w.buf, cut);
    AlnumsStrip(w.buf[cut..]);
  }

  /** Committing the pieces of a head and dropping it conserves, exactly when the pieces hold all the head has. */
  lemma FlushHead(f: Flush, g: Flush, cut: int, out: seq<string>)
    requires WindowOk(f.seg.win) && 0 <= cut <= |f.seg.win.buf|
    requires g.seg.win == Consume(f.seg.win, cut) && g.out == f.out + out
    ensures Moves(f, g)
    ensures Conserves(f, g) <==> Alnums(Concat(out)) == Alnums(f.seg.win.buf[..cut])
  {
    hide WindowOk, Alnums, Concat, Consume;
    ConsumeIsOk(f.seg.win, cut);
    ConsumeAlnums(f.seg.win, cut);
    assert NewOut(f, g) == out;
    SameTail(Alnums(Concat(out)), Alnums(f.seg.win.buf[..cut]), Alnums(g.seg.win.buf));
  }

  lemma SameTail(x: string, y: string, a: string)
    ensures x + a == y + a <==> x == y
  {
    if x + a == y + a {
      assert |x| == |y|;
      assert x == (x + a)[..|x|] == (y + a)[..|x|] == y;
    }
  }

  lemma HeadKeeps(buf: string, cut: int)
    requires 0 <= cut <= |buf|
    ensures Alnums(Head(buf, cut)) == Alnums(buf[..cut])
    ensures Head(buf, cut) != [] ==> !IsBlank(Head(buf, cut))
  {
    hide Alnums;
    AlnumsStrip(buf[..cut]);
    StripLeadingNoiseKeeps(Strip(buf[..cut]));
  }

  lemma HeadChunksKeep(cfg: Config, buf: string, cut: int)
    requires 0 <= cut <= |buf|
    ensures Alnums(Concat(HeadChunks(cfg, Head(buf, cut)))) == Alnums(buf[..cut])
  {
    hide Head, Chunks;
    HeadKeeps(buf, cut);
    ShortChunksKeepAll(cfg, Head(buf, cut));
    AlnumsEmpty(Head(buf, cut));
    AlnumsNothing();
  }

  /** An empty buffer is where the window already ends. */
  lemma BlankWindow(w: Window)
    requires WindowOk(w) && IsBlank(w.buf)
    ensures w.buf == [] && EmptyBuf(w) == w
  {
  }

  lemma {:induction false} PunctStageOk(cfg: Config, f: Flush, now: real, tms: Option<int>)
    requires WindowOk(f.seg.win)
    ensures Moves(f, PunctStage(cfg, f, now, tms)) && Conserves(f, PunctStage(cfg, f, now, tms))
    decreases |f.seg.win.buf|
  {
    hide WindowOk, FirstBoundary, Head, HeadChunks, PunctHolds, PunctGate, Consume, Alnums, Concat, IsBlank, EmptyBuf;
    Stays(f);
    var p := FirstBoundary(f.seg.win.buf);
    if p > 0 && !PunctHolds(cfg, f.seg, p, now) {
      var g := PunctStep(cfg, f, p, now, tms);
      HeadChunksKeep(cfg, f.seg.win.buf, p);
      FlushHead(f, g, p, HeadChunks(cfg, Head(f.seg.win.buf, p)));
      if IsBlank(g.seg.win.buf) {
        BlankWindow(g.seg.win);
      } else {
        PunctStageOk(cfg, g, now, tms);
        ConservesBoth(f, g, PunctStage(cfg, g, now, tms));
      }
    }
  }

  /** The pause flush fires and drops a piece that is too short. */
  predicate PauseDrops(cfg: Config, f: Flush, gapMs: real) {
    var buf := f.seg.win.buf;
    var cut := BufCut(cfg, buf);
    && gapMs >= cfg.pauseMs && WordCount(buf) >= NeedWords(cfg) && cut > 0
    && KeepsPiece(cfg, Head(buf, cut), false)
    && Chunks(cfg, Head(buf, cut), false) != []
    && DropsShort(cfg, StripLeadingNoise(Norm(Head(buf, cut))), false)
  }

  lemma PauseStageOk(cfg: Config, f: Flush, gapMs: real, now: real, tms: Option<int>)
    requires WindowOk(f.seg.win)
    ensures Moves(f, PauseStage(cfg, f, gapMs, now, tms))
    ensures Conserves(f, PauseStage(cfg, f, gapMs, now, tms)) <==> !PauseDrops(cfg, f, gapMs)
  {
    hide WindowOk, BufCut, Head, Chunks, Consume, KeepsPiece;
    hide WordCount, Alnums, Concat, DropsShort, StripLeadingNoise, Norm;
    Stays(f);
    var buf := f.seg.win.buf;
    var cut := BufCut(cfg, buf);
    if gapMs >= cfg.pauseMs && WordCount(buf) >= NeedWords(cfg) && cut > 0 {
      var head := Head(buf, cut);
      var out := if KeepsPiece(cfg, head, false) then Chunks(cfg, head, false) else [];
      if out != [] {
        HeadKeeps(buf, cut);
        ChunksKeep(cfg, head, false);
        FlushHead(f, PauseStage(cfg, f, gapMs, now, tms), cut, out);
      }
    }
  }

  lemma {:induction false} MaxStageOk(cfg: Config, f: Flush, now: real, tms: Option<int>)
    requires WindowOk(f.seg.win)
    ensures Moves(f, MaxStage(cfg, f, now, tms)) && Conserves(f, MaxStage(cfg, f, now, tms))
    decreases |f.seg.win.buf|
  {
    hide WindowOk, BufCut, Head, HeadChunks, Consume, WordCount, UnderMax, Alnums, Concat, EmptyBuf;
    Stays(f);
    var buf := f.seg.win.buf;
    BlankHasNoWords(buf);
    if WordCount(buf) <= 0 {
      BlankWindow(f.seg.win);
    } else if !UnderMax(cfg, buf) {
      var cut := BufCut(cfg, buf);
      var g := MaxStep(cfg, f, cut, now, tms);
      HeadChunksKeep(cfg, buf, cut);
      FlushHead(f, g, cut, HeadChunks(cfg, Head(buf, cut)));
      if g.seg.win.buf != [] {
        MaxStageOk(cfg, g, now, tms);
        ConservesBoth(f, g, MaxStage(cfg, g, now, tms));
      }
    }
  }

  lemma BeatStageOk(cfg: Config, f: Flush, now: real, tms: Option<int>)
    requires WindowOk(f.seg.win)
    ensures Moves(f, BeatStage(cfg, f, now, tms)) && Conserves(f, BeatStage(cfg, f, now, tms))
  {
    hide WindowOk, SafePrefix, StripLeadingNoise, BeatReady, BeatCut, Head, Chunks, Consume, Alnums, Concat;
    Stays(f);
    var safe := StripLeadingNoise(SafePrefix(cfg, f.seg.win.buf));
    var s := f.seg.(gates := BeatGate(f.seg.gates, safe));
    if cfg.enableBeat && BeatReady(cfg, s, safe, now, tms) {
      BeatReadyPrefix(cfg, s, safe, now, tms);
      var cut := BeatCut(s.win.buf, safe);
      var head := Head(s.win.buf, cut);
      HeadKeeps(s.win.buf, cut);
      ShortChunksKeepAll(cfg, head);
      if Chunks(cfg, head, true) != [] {
        FlushHead(f, BeatStage(cfg, f, now, tms), cut, Chunks(cfg, head, true));
      }
    }
  }

  lemma BeatReadyPrefix(cfg: Config, s: Seg, safe: string, now: real, tms: Option<int>)
    requires BeatReady(cfg, s, safe, now, tms)
    ensures safe <= LStrip(s.win.buf)
  {
  }

  /** An update as a flush, to compare it with what went in. */
  function AsFlush(u: Update): Flush {
    Flush(u.seg, u.out)
  }

  lemma DrainedOk(f: Flush, g: Flush, win: Window)
    requires Moves(f, g) && IsBlank(g.seg.win.buf)
    requires win == EmptyBuf(g.seg.win) || win == g.seg.win.(buf := "")
    ensures AsFlush(Drained(g, win)).seg.win == g.seg.win && AsFlush(Drained(g, win)).out == g.out
    ensures Moves(f, AsFlush(Drained(g, win))) && (Conserves(f, AsFlush(Drained(g, win))) <==> Conserves(f, g))
  {
  }

  /** A whole flush loses a letter or digit exactly when its pause stage drops a short piece. */
  lemma FlushStagesOk(cfg: Config, s: Seg, gapMs: real, now: real, tms: Option<int>)
    requires WindowOk(s.win)
    ensures var f, u := Flush(s, []), AsFlush(FlushStages(cfg, s, gapMs, now, tms));
            && Moves(f, u)
            && (Conserves(f, u) <==> !FlushDrops(cfg, s, gapMs, now, tms))
  {
    hide WindowOk, Moves, Conserves, PunctStage, PauseStage, MaxStage;
    hide BeatStage, WordCount, IsBlank, Drained, EmptyBuf, PauseDrops;
    var f := Flush(s, []);
    var f1 := PunctStage(cfg, f, now, tms);
    PunctStageOk(cfg, f, now, tms);
    MovesOk(f, f1);
    BlankHasNoWords(f1.seg.win.buf);
    if WordCount(f1.seg.win.buf) <= 0 {
      DrainedOk(f, f1, f1.seg.win.(buf := ""));
    } else {
      var f2 := PauseStage(cfg, f1, gapMs, now, tms);
      PauseStageOk(cfg, f1, gapMs, now, tms);
      ConservesBoth(f, f1, f2);
      MovesOk(f1, f2);
      BlankHasNoWords(f2.seg.win.buf);
      if WordCount(f2.seg.win.buf) <= 0 {
        DrainedOk(f, f2, EmptyBuf(f2.seg.win));
      } else {
        var f3 := MaxStage(cfg, f2, now, tms);
        MaxStageOk(cfg, f2, now, tms);
        ConservesPrefix(f, f2, f3);
        MovesOk(f2, f3);
        BlankHasNoWords(f3.seg.win.buf);
        if WordCount(f3.seg.win.buf) <= 0 {
          DrainedOk(f, f3, EmptyBuf(f3.seg.win));
        } else {
          BeatStageOk(cfg, f3, now, tms);
          ConservesPrefix(f, f3, BeatStage(cfg, f3, now, tms));
        }
      }
    }
  }

  lemma MovesOk(f: Flush, g: Flush)
    requires Moves(f, g)
    ensures WindowOk(g.seg.win)
  {
  }

  /** The pause stage is reached and drops a short piece. */
  predicate FlushDrops(cfg: Config, s: Seg, gapMs: real, now: real, tms: Option<int>) {
    var f1 := PunctStage(cfg, Flush(s, []), now, tms);
    WordCount(f1.seg.win.buf) > 0 && PauseDrops(cfg, f1, gapMs)
  }

  // ---- whole runs ----

  /** The new text keeps everything before the committed boundary: it extends the last one, or it differs from it only
      behind the boundary and is not taken for a truncation. */
  predicate Steady(cfg: Config, w: Window, full: string) {
    w.base <= full || (w.base != [] && !AutoBaseline(cfg, w.base, full) && Lcp(w.base, full) >= w.start)
  }

  lemma GapHasNoAlnums(full: string, a: nat, b: nat)
    requires a <= b <= |full| && forall i :: a <= i < b ==> IsSpace(full[i])
    ensures Alnums(full[..b]) == Alnums(full[..a])
  {
    hide Alnums;
    AlnumsSplit(full[..b], a);
    assert full[..b][..a] == full[..a];
    AlnumsOfNoise(full[..b][a..]);
  }

  /** Taking in a steady text moves the boundary over blanks only. */
  lemma TakeInSteady(cfg: Config, s: Seg, full: string, now: real)
    requires WindowOk(s.win) && IsNormal(full) && Steady(cfg, s.win, full)
    ensures var t := TakeIn(cfg, s, full, now).win;
            t.start <= |full| && Alnums(full[..t.start]) == Alnums(s.win.base[..s.win.start])
  {
    hide IsNormal, Alnums, BufFrom, Extend, AutoBaseline, Reanchor, SuffixPrefixOverlap, OverlapUsable, TailWindowStart;
    TakeInIsOk(cfg, s, full, now);
    var w := s.win;
    BufFromIsOk(full, w.start);
    var t := TakeIn(cfg, s, full, now).win;
    if w.base <= full {
      if w.base != [] {
        ExtendIsOk(w, full);
      }
      assert full[..w.start] == w.base[..w.start];
    } else {
      assert Lcp(w.base, full) >= w.start;
      assert full[..w.start] == full[..Lcp(w.base, full)][..w.start] == w.base[..w.start];
    }
    GapHasNoAlnums(full, w.start, t.start);
  }

  /** The text received at some moment. */
  datatype Input = Input(text: string, now: real, tms: Option<int>)

  function Taken(cfg: Config, s: Seg, x: Input): Seg {
    TakeIn(cfg, s.(clk := Received(s.clk, x.now, x.tms)), Norm(x.text), x.now)
  }

  function Step(cfg: Config, s: Seg, x: Input): Update {
    UpdateStable(cfg, s, x.text, x.now, x.tms)
  }

  /** The update's pause stage drops a short piece. */
  predicate StepDrops(cfg: Config, s: Seg, x: Input) {
    var t := Taken(cfg, s, x);
    !IsBlank(t.win.buf) && FlushDrops(cfg, t, GapMs(s.clk, x.now, x.tms), x.now, x.tms)
  }

  /** After every update, on every branch, the window is sound and only moves back when the new text is too short. */
  lemma StepWindow(cfg: Config, s: Seg, x: Input)
    requires WindowOk(s.win)
    ensures var w := Step(cfg, s, x).seg.win;
            && WindowOk(w) && w.base == Norm(x.text)
            && w.start >= Min(s.win.start, |Norm(x.text)|)
            && (w.start >= s.win.start <==> |Norm(x.text)| >= s.win.start)
  {
    hide TakeIn, FlushStages, IsNormal, IsBlank, EmptyBuf, Norm;
    NormIsNormal(x.text);
    var s1 := s.(clk := Received(s.clk, x.now, x.tms));
    TakeInIsOk(cfg, s1, Norm(x.text), x.now);
    var t := Taken(cfg, s, x);
    if IsBlank(t.win.buf) {
      BlankWindow(t.win);
    } else {
      FlushStagesOk(cfg, t, GapMs(s.clk, x.now, x.tms), x.now, x.tms);
    }
  }

  /** One steady update commits exactly the letters and digits the boundary moves over,
      unless its pause stage drops a short piece: then, and only then, some are lost. */
  lemma StepConserves(cfg: Config, s: Seg, x: Input)
    requires WindowOk(s.win) && Steady(cfg, s.win, Norm(x.text))
    ensures var u := Step(cfg, s, x);
            && WindowOk(u.seg.win) && u.seg.win.base == Norm(x.text)
            && (Alnums(s.win.base[..s.win.start]) + Alnums(Concat(u.out)) == Alnums(u.seg.win.base[..u.seg.win.start])
                <==> !StepDrops(cfg, s, x))
  {
    hide TakeIn, FlushStages, IsNormal, IsBlank, EmptyBuf, Norm, Alnums, Concat, Steady, FlushDrops;
    StepWindow(cfg, s, x);
    NormIsNormal(x.text);
    var full := Norm(x.text);
    var s1 := s.(clk := Received(s.clk, x.now, x.tms));
    assert Steady(cfg, s1.win, full);
    TakeInIsOk(cfg, s1, full, x.now);
    TakeInSteady(cfg, s1, full, x.now);
    var t := Taken(cfg, s, x);
    var u := Step(cfg, s, x);
    if IsBlank(t.win.buf) {
      BlankWindow(t.win);
      AlnumsNothing();
      SameHead([], Alnums(full[..t.win.start]), []);
      assert Alnums(full[..t.win.start]) + [] == Alnums(full[..t.win.start]);
    } else {
      FlushStagesOk(cfg, t, GapMs(s.clk, x.now, x.tms), x.now, x.tms);
      LedgerStep(full, Flush(t, []), AsFlush(u));
    }
  }

  /** Conserving the buffer is moving the boundary over exactly what is committed. */
  lemma LedgerStep(full: string, f: Flush, g: Flush)
    requires WindowOk(f.seg.win) && f.seg.win.base == full && f.out == [] && Moves(f, g)
    ensures Conserves(f, g)
            <==> Alnums(full[..f.seg.win.start]) + Alnums(Concat(g.out)) == Alnums(full[..g.seg.win.start])
  {
    hide IsNormal, Alnums, Concat;
    assert NewOut(f, g) == g.out;
    AlnumsSplit(full, f.seg.win.start);
    AlnumsSplit(full, g.seg.win.start);
    var a, b := Alnums(full[..f.seg.win.start]), Alnums(full[..g.seg.win.start]);
    var o, c := Alnums(Concat(g.out)), Alnums(g.seg.win.buf);
    assert (a + o) + c == a + (o + c);
    SameHead(a, Alnums(f.seg.win.buf), o + c);
    SameTail(a + o, b, c);
  }
}
