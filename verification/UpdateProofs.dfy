/** What one update commits: behind the punctuation stage the pause, else the limits, else the beat, else nothing. */
module UpdateProofs {
  import opened Text
  import opened Normal
  import opened Words
  import opened SegmentSpec
  import opened WindowProofs
  import opened StageProofs

  /** The update up to and with its punctuation stage. */
  function Marked(cfg: Config, s: Seg, x: Input): Flush {
    PunctStage(cfg, Flush(Taken(cfg, s, x), []), x.now, x.tms)
  }

  predicate Paused(cfg: Config, s: Seg, x: Input, buf: string) {
    GapMs(s.clk, x.now, x.tms) >= cfg.pauseMs && WordCount(buf) >= Max(1, cfg.minWords)
  }

  /** The buffer is long enough for the beat, and has stood for long enough. */
  predicate OnBeat(cfg: Config, f: Flush, x: Input) {
    var buf, gates := f.seg.win.buf, f.seg.gates;
    && SinceEmitMs(f.seg.clk, x.now, x.tms) >= cfg.beatMs
    && (if gates.safe == buf then gates.safeCount + 1 else 1) >= Max(1, cfg.beatStableCount)
    && WordCount(buf) >= Max(1, cfg.beatMinWords) && |buf| >= Max(1, cfg.beatMinChars)
  }

  lemma MarkedIsOk(cfg: Config, s: Seg, x: Input)
    requires WindowOk(s.win)
    ensures WindowOk(Taken(cfg, s, x).win) && WindowOk(Marked(cfg, s, x).seg.win)
  {
    hide WindowOk, Norm, PunctStage, Taken;
    TakenIsOk(cfg, s, x);
    PunctStageOk(cfg, Flush(Taken(cfg, s, x), []), x.now, x.tms);
  }

  /** An update whose punctuation stage leaves words goes through the other stages. */
  lemma GoesOnBehindMarks(cfg: Config, s: Seg, x: Input)
    requires WindowOk(s.win)
    ensures var u, f := Step(cfg, s, x), Marked(cfg, s, x);
            if WordCount(f.seg.win.buf) <= 0 then u.seg.win.buf == "" && u.out == f.out
            else
              var g := PauseStage(cfg, f, GapMs(s.clk, x.now, x.tms), x.now, x.tms);
              if WordCount(g.seg.win.buf) <= 0 then u.seg.win.buf == "" && u.out == g.out
              else
                var h := MaxStage(cfg, g, x.now, x.tms);
                if WordCount(h.seg.win.buf) <= 0 then u.seg.win.buf == "" && u.out == h.out
                else
                  var i := BeatStage(cfg, h, x.now, x.tms);
                  u.seg.win.buf == i.seg.win.buf && u.out == i.out
  {
    hide WindowOk, Norm, PauseStage, MaxStage, BeatStage, Draft, TakeIn, WordCount, PunctStage;
    MarkedIsOk(cfg, s, x);
    var t := Taken(cfg, s, x);
    if IsBlank(t.win.buf) {
      BlankWindow(t.win);
      NothingMarked(cfg, s, x);
    }
  }

  lemma NothingMarked(cfg: Config, s: Seg, x: Input)
    requires Taken(cfg, s, x).win.buf == ""
    ensures Marked(cfg, s, x) == Flush(Taken(cfg, s, x), []) && WordCount("") <= 0
  {
    hide Taken;
  }

  /** After a pause what the marks leave is committed as one piece, if it fits and has the words. */
  lemma PauseCommits(cfg: Config, s: Seg, x: Input, lo: nat)
    requires WindowOk(s.win)
    requires var buf := Marked(cfg, s, x).seg.win.buf;
             SaysFrom(cfg, buf, lo) && Paused(cfg, s, x, buf[lo..])
    ensures var u, f := Step(cfg, s, x), Marked(cfg, s, x);
            u.out == f.out + [f.seg.win.buf[lo..]] && u.seg.win.buf == ""
  {
    hide WindowOk, Norm, PauseStage, Step, Marked, WordCount, HasAlnum;
    var f := Marked(cfg, s, x);
    MarkedIsOk(cfg, s, x);
    GoesOnBehindMarks(cfg, s, x);
    PauseTakesAll(cfg, f, lo, GapMs(s.clk, x.now, x.tms), x.now, x.tms);
    WordsInSolid(f.seg.win.buf, lo);
    NoWordsInNothing();
  }

  lemma NoWordsInNothing()
    ensures WordCount("") <= 0
  {
  }

  /** Without a pause and below the limits it is committed on the beat. */
  lemma BeatCommits(cfg: Config, s: Seg, x: Input)
    requires WindowOk(s.win) && cfg.enableBeat
    requires var f := Marked(cfg, s, x);
             && SaysFrom(cfg, f.seg.win.buf, 0) && !AtLimit(cfg, f.seg.win.buf)
             && !Paused(cfg, s, x, f.seg.win.buf) && OnBeat(cfg, f, x)
    ensures var u, f := Step(cfg, s, x), Marked(cfg, s, x); u.out == f.out + [f.seg.win.buf] && u.seg.win.buf == ""
  {
    hide WindowOk, Norm, PauseStage, BeatStage, Step, Marked, WordCount, HasAlnum, SinceEmitMs, Strip;
    var f := Marked(cfg, s, x);
    MarkedIsOk(cfg, s, x);
    GoesOnBehindMarks(cfg, s, x);
    PauseWaits(cfg, f, GapMs(s.clk, x.now, x.tms), x.now, x.tms);
    WordsInSolid(f.seg.win.buf, 0);
    BufEnds(f.seg.win);
    assert UnderMax(cfg, f.seg.win.buf);
    BeatTakesAll(cfg, f, x.now, x.tms);
  }

  /** With none of the three, an update commits what its marks end and keeps the rest. */
  lemma UpdateWaits(cfg: Config, s: Seg, x: Input)
    requires WindowOk(s.win)
    requires var f := Marked(cfg, s, x);
             && !AtLimit(cfg, f.seg.win.buf) && !Paused(cfg, s, x, f.seg.win.buf)
             && (!cfg.enableBeat || !OnBeat(cfg, f, x)) && (f.seg.win.buf != "" ==> !IsNoise(f.seg.win.buf[0]))
    ensures var u, f := Step(cfg, s, x), Marked(cfg, s, x); u.out == f.out && u.seg.win.buf == f.seg.win.buf
  {
    hide WindowOk, Norm, PauseStage, BeatStage, Step, Marked, WordCount, OnBeat, Strip, IsNoise;
    var f := Marked(cfg, s, x);
    MarkedIsOk(cfg, s, x);
    GoesOnBehindMarks(cfg, s, x);
    PauseWaits(cfg, f, GapMs(s.clk, x.now, x.tms), x.now, x.tms);
    NoWordsInNothing();
    if f.seg.win.buf != "" {
      WordsInSolid(f.seg.win.buf, 0);
      BufEnds(f.seg.win);
      assert UnderMax(cfg, f.seg.win.buf);
      BeatWaits(cfg, f, x);
    }
  }

  lemma BeatWaits(cfg: Config, f: Flush, x: Input)
    requires WindowOk(f.seg.win) && f.seg.win.buf != "" && !IsNoise(f.seg.win.buf[0]) && !AtLimit(cfg, f.seg.win.buf)
    requires !cfg.enableBeat || !OnBeat(cfg, f, x)
    ensures var g := BeatStage(cfg, f, x.now, x.tms); g.out == f.out && g.seg.win == f.seg.win
  {
    hide WindowOk, WordCount, Strip, LStrip, StripLeadingNoise, SafePrefix, SinceEmitMs, IsNoise;
    BufEnds(f.seg.win);
    SafeIsAll(cfg, f.seg.win.buf);
  }
}
