/** What the segmenter promises over whole runs. */
module SegmenterProofs {
  import opened Text
  import opened Normal
  import opened Words
  import opened Cuts
  import opened SegmentSpec
  import opened ChunkProofs
  import opened WindowProofs
  import opened PauseProofs

  /** The state after the inputs, and everything committed on the way. */
  function RunAll(cfg: Config, s: Seg, xs: seq<Input>): (Seg, seq<string>)
    decreases |xs|
  {
    if xs == [] then (s, [])
    else
      var u := Step(cfg, s, xs[0]);
      var (t, out) := RunAll(cfg, u.seg, xs[1..]);
      (t, u.out + out)
  }

  lemma RunAllNothing(cfg: Config, s: Seg)
    ensures RunAll(cfg, s, []) == (s, [])
  {
  }

  lemma RunAllCons(cfg: Config, s: Seg, x: Input, xs: seq<Input>)
    ensures var u := Step(cfg, s, x);
            RunAll(cfg, s, [x] + xs) == (RunAll(cfg, u.seg, xs).0, u.out + RunAll(cfg, u.seg, xs).1)
  {
  }

  /** Every text keeps what is committed when it arrives. */
  predicate SteadyRun(cfg: Config, s: Seg, xs: seq<Input>)
    decreases |xs|
  {
    xs == [] || (Steady(cfg, s.win, Norm(xs[0].text)) && SteadyRun(cfg, Step(cfg, s, xs[0]).seg, xs[1..]))
  }

  predicate RunDrops(cfg: Config, s: Seg, xs: seq<Input>)
    decreases |xs|
  {
    xs != [] && (StepDrops(cfg, s, xs[0]) || RunDrops(cfg, Step(cfg, s, xs[0]).seg, xs[1..]))
  }

  lemma {:induction false} RunWindow(cfg: Config, s: Seg, xs: seq<Input>)
    requires WindowOk(s.win)
    ensures WindowOk(RunAll(cfg, s, xs).0.win)
    ensures xs != [] ==> RunAll(cfg, s, xs).0.win.base == Norm(xs[|xs| - 1].text)
    decreases |xs|
  {
    hide WindowOk, Step, Norm;
    if xs != [] {
      StepWindowOk(cfg, s, xs[0]);
      RunWindow(cfg, Step(cfg, s, xs[0]).seg, xs[1..]);
    }
  }

  lemma StepWindowOk(cfg: Config, s: Seg, x: Input)
    requires WindowOk(s.win)
    ensures WindowOk(Step(cfg, s, x).seg.win) && Step(cfg, s, x).seg.win.base == Norm(x.text)
  {
    StepWindow(cfg, s, x);
  }

  /** Over a steady run the commits are exactly what the boundary moved over, as long as no pause stage drops a
      piece. */
  lemma {:induction false} RunConserves(cfg: Config, s: Seg, xs: seq<Input>)
    requires WindowOk(s.win) && SteadyRun(cfg, s, xs) && !RunDrops(cfg, s, xs)
    ensures var (t, out) := RunAll(cfg, s, xs);
            && WindowOk(t.win)
            && Alnums(s.win.base[..s.win.start]) + Alnums(Concat(out)) == Alnums(t.win.base[..t.win.start])
    decreases |xs|
  {
    hide IsNormal, Step, Norm, Alnums, Concat, Steady, StepDrops;
    if xs == [] {
      AlnumsNothing();
      assert Alnums(s.win.base[..s.win.start]) + [] == Alnums(s.win.base[..s.win.start]);
    } else {
      StepConserves(cfg, s, xs[0]);
      var u := Step(cfg, s, xs[0]);
      RunConserves(cfg, u.seg, xs[1..]);
      var (t, out) := RunAll(cfg, u.seg, xs[1..]);
      ConcatAppend(u.out, out);
      AlnumsConcat(Concat(u.out), Concat(out));
      var a, b, c := Alnums(s.win.base[..s.win.start]), Alnums(Concat(u.out)), Alnums(Concat(out));
      assert (a + b) + c == a + (b + c);
    }
  }

  lemma {:induction false} RoomyNeverDrops(cfg: Config, s: Seg, xs: seq<Input>)
    requires WindowOk(s.win) && Roomy(cfg)
    ensures !RunDrops(cfg, s, xs)
    decreases |xs|
  {
    hide WindowOk, Step, StepDrops;
    if xs != [] {
      StepNeverDrops(cfg, s, xs[0]);
      StepWindowOk(cfg, s, xs[0]);
      RoomyNeverDrops(cfg, Step(cfg, s, xs[0]).seg, xs[1..]);
    }
  }

  lemma StepNeverDrops(cfg: Config, s: Seg, x: Input)
    requires WindowOk(s.win) && Roomy(cfg)
    ensures !StepDrops(cfg, s, x)
  {
    hide WindowOk, PunctStage, PauseDrops, WordCount, IsBlank;
    NormIsNormal(x.text);
    TakeInIsOk(cfg, s.(clk := Received(s.clk, x.now, x.tms)), Norm(x.text), x.now);
    hide TakeIn, Norm, IsNormal;
    var t := Taken(cfg, s, x);
    var f1 := PunctStage(cfg, Flush(t, []), x.now, x.tms);
    PunctStageOk(cfg, Flush(t, []), x.now, x.tms);
    PauseNeverDrops(cfg, f1, GapMs(s.clk, x.now, x.tms));
  }

  /** The segmenter loses and duplicates nothing: since a baseline, the letters and digits of everything committed,
      followed by those still in the buffer, are exactly those of the text behind the baseline. */
  lemma LosesNothing(cfg: Config, baseline: string, now: real, xs: seq<Input>)
    requires Roomy(cfg) && SteadyRun(cfg, Fresh(Norm(baseline), now), xs)
    ensures var (t, out) := RunAll(cfg, Fresh(Norm(baseline), now), xs);
            Alnums(Norm(baseline)) + Alnums(Concat(out)) + Alnums(t.win.buf) == Alnums(t.win.base)
  {
    hide IsNormal, Norm, Alnums, Concat, RunAll, SteadyRun, RunDrops, Roomy;
    var s := Fresh(Norm(baseline), now);
    NormIsNormal(baseline);
    FreshIsOk(Norm(baseline), now);
    RoomyNeverDrops(cfg, s, xs);
    RunConserves(cfg, s, xs);
    var (t, out) := RunAll(cfg, s, xs);
    AlnumsSplit(t.win.base, t.win.start);
    assert s.win.base[..s.win.start] == Norm(baseline);
  }

  function NormTexts(xs: seq<Input>): seq<string>
    decreases |xs|
  {
    if xs == [] then [] else [Norm(xs[0].text)] + NormTexts(xs[1..])
  }

  lemma {:induction false} GrowingIsSteady(cfg: Config, s: Seg, xs: seq<Input>)
    requires WindowOk(s.win) && Growing(s.win.base, NormTexts(xs))
    ensures SteadyRun(cfg, s, xs)
    decreases |xs|
  {
    hide WindowOk, Step, Norm;
    if xs != [] {
      assert NormTexts(xs)[1..] == NormTexts(xs[1..]);
      StepWindowOk(cfg, s, xs[0]);
      GrowingIsSteady(cfg, Step(cfg, s, xs[0]).seg, xs[1..]);
    }
  }

  /** For a text that only grows nothing has to be assumed of the states on the way. */
  lemma GrowingLosesNothing(cfg: Config, baseline: string, now: real, xs: seq<Input>)
    requires Roomy(cfg) && Growing(Norm(baseline), NormTexts(xs))
    ensures var (t, out) := RunAll(cfg, Fresh(Norm(baseline), now), xs);
            && Alnums(Norm(baseline)) + Alnums(Concat(out)) + Alnums(t.win.buf) == Alnums(t.win.base)
            && (xs != [] ==> t.win.base == Norm(xs[|xs| - 1].text))
  {
    hide WindowOk, Norm, Alnums, Concat, RunAll, SteadyRun, RunDrops, Roomy, Growing;
    NormIsNormal(baseline);
    FreshIsOk(Norm(baseline), now);
    GrowingIsSteady(cfg, Fresh(Norm(baseline), now), xs);
    LosesNothing(cfg, baseline, now, xs);
    RunWindow(cfg, Fresh(Norm(baseline), now), xs);
  }

  // ---- limits ----

  lemma {:induction false} PunctStageGood(cfg: Config, f: Flush, now: real, tms: Option<int>)
    requires LimitsOk(cfg) && forall x :: x in f.out ==> GoodPiece(cfg, x)
    ensures forall x :: x in PunctStage(cfg, f, now, tms).out ==> GoodPiece(cfg, x)
    decreases |f.seg.win.buf|
  {
    hide FirstBoundary, Head, Chunks, PunctHolds, PunctGate, Consume;
    hide IsBlank, EmptyBuf, GoodPiece, LimitsOk, IsPunctOnly;
    var p := FirstBoundary(f.seg.win.buf);
    if p > 0 && !PunctHolds(cfg, f.seg, p, now) {
      ChunksAreGood(cfg, Head(f.seg.win.buf, p), true);
      PunctStageGood(cfg, PunctStep(cfg, f, p, now, tms), now, tms);
    }
  }

  lemma {:induction false} MaxStageGood(cfg: Config, f: Flush, now: real, tms: Option<int>)
    requires LimitsOk(cfg) && forall x :: x in f.out ==> GoodPiece(cfg, x)
    ensures forall x :: x in MaxStage(cfg, f, now, tms).out ==> GoodPiece(cfg, x)
    ensures var buf := MaxStage(cfg, f, now, tms).seg.win.buf; buf == [] || UnderMax(cfg, buf)
    decreases |f.seg.win.buf|
  {
    hide Head, Chunks, BufCut, Consume, WordCount, UnderMax, GoodPiece, LimitsOk, IsPunctOnly;
    var buf := f.seg.win.buf;
    BlankHasNoWords(buf);
    if WordCount(buf) > 0 && !UnderMax(cfg, buf) {
      ChunksAreGood(cfg, Head(buf, BufCut(cfg, buf)), true);
      MaxStageGood(cfg, MaxStep(cfg, f, BufCut(cfg, buf), now, tms), now, tms);
    }
  }

  lemma PauseStageGood(cfg: Config, f: Flush, gapMs: real, now: real, tms: Option<int>)
    requires LimitsOk(cfg) && forall x :: x in f.out ==> GoodPiece(cfg, x)
    ensures forall x :: x in PauseStage(cfg, f, gapMs, now, tms).out ==> GoodPiece(cfg, x)
  {
    hide Head, Chunks, BufCut, Consume, WordCount, KeepsPiece, GoodPiece, LimitsOk;
    if BufCut(cfg, f.seg.win.buf) > 0 {
      ChunksAreGood(cfg, Head(f.seg.win.buf, BufCut(cfg, f.seg.win.buf)), false);
    }
  }

  lemma BeatStageGood(cfg: Config, f: Flush, now: real, tms: Option<int>)
    requires LimitsOk(cfg) && forall x :: x in f.out ==> GoodPiece(cfg, x)
    ensures forall x :: x in BeatStage(cfg, f, now, tms).out ==> GoodPiece(cfg, x)
  {
    hide Head, Chunks, Consume, SafePrefix, StripLeadingNoise, BeatCut, BeatReady, GoodPiece, LimitsOk;
    var safe := StripLeadingNoise(SafePrefix(cfg, f.seg.win.buf));
    var s := f.seg.(gates := BeatGate(f.seg.gates, safe));
    if BeatReady(cfg, s, safe, now, tms) {
      BeatReadyPrefix(cfg, s, safe, now, tms);
      ChunksAreGood(cfg, Head(s.win.buf, BeatCut(s.win.buf, safe)), true);
    }
  }

  lemma BeatConsumes(cfg: Config, f: Flush, now: real, tms: Option<int>) returns (cut: int)
    ensures 0 <= cut <= |f.seg.win.buf|
    ensures var w := BeatStage(cfg, f, now, tms).seg.win; w == f.seg.win || w == Consume(f.seg.win, cut)
  {
    hide Head, Chunks, SafePrefix, StripLeadingNoise, BeatCut, BeatReady, Consume, Emitted, BeatGate;
    var safe := StripLeadingNoise(SafePrefix(cfg, f.seg.win.buf));
    var s := f.seg.(gates := BeatGate(f.seg.gates, safe));
    cut := 0;
    if BeatReady(cfg, s, safe, now, tms) {
      BeatReadyPrefix(cfg, s, safe, now, tms);
      cut := BeatCut(s.win.buf, safe);
    }
  }

  /** The beat stage can only shorten the buffer. */
  lemma BeatStageShortens(cfg: Config, f: Flush, now: real, tms: Option<int>)
    requires f.seg.win.buf == [] || UnderMax(cfg, f.seg.win.buf)
    ensures var buf := BeatStage(cfg, f, now, tms).seg.win.buf; buf == [] || UnderMax(cfg, buf)
  {
    hide BeatStage, UnderMax, Consume;
    var cut := BeatConsumes(cfg, f, now, tms);
    ConsumeUnderMax(cfg, f.seg.win, cut);
  }

  lemma ConsumeUnderMax(cfg: Config, w: Window, cut: int)
    requires 0 <= cut <= |w.buf|
    ensures UnderMax(cfg, w.buf) ==> UnderMax(cfg, Consume(w, cut).buf)
    ensures w.buf == [] ==> Consume(w, cut).buf == []
  {
    hide WordCount, Strip;
    var rest := w.buf[cut..];
    var k := cut + Run(IsSpace, rest);
    assert Consume(w, cut).buf == w.buf[k..];
    WordsOfSlice(w.buf, k, |w.buf|);
    StripOfSuffix(w.buf, k);
  }

  lemma StripOfSuffix(s: string, k: nat)
    requires k <= |s|
    ensures |Strip(s[k..])| <= |Strip(s)|
  {
  }

  /** After every update the buffer is under both limits, and every committed piece has a letter or digit,
      no leading noise, and fits the limits. Dafny's termination checks on the stages show that they all end. */
  lemma StepWithinLimits(cfg: Config, s: Seg, x: Input)
    requires LimitsOk(cfg)
    ensures var u := Step(cfg, s, x);
            && (u.seg.win.buf == [] || UnderMax(cfg, u.seg.win.buf))
            && forall c :: c in u.out ==> GoodPiece(cfg, c)
  {
    hide TakeIn, Norm, IsBlank, PunctStage, PauseStage, MaxStage;
    hide BeatStage, WordCount, UnderMax, GoodPiece, LimitsOk, Draft;
    var t := Taken(cfg, s, x);
    var f1 := PunctStage(cfg, Flush(t, []), x.now, x.tms);
    PunctStageGood(cfg, Flush(t, []), x.now, x.tms);
    var f2 := PauseStage(cfg, f1, GapMs(s.clk, x.now, x.tms), x.now, x.tms);
    PauseStageGood(cfg, f1, GapMs(s.clk, x.now, x.tms), x.now, x.tms);
    var f3 := MaxStage(cfg, f2, x.now, x.tms);
    MaxStageGood(cfg, f2, x.now, x.tms);
    BeatStageGood(cfg, f3, x.now, x.tms);
    BeatStageShortens(cfg, f3, x.now, x.tms);
  }

  /** The same over a whole run. */
  lemma {:induction false} RunWithinLimits(cfg: Config, s: Seg, xs: seq<Input>)
    requires LimitsOk(cfg) && (s.win.buf == [] || UnderMax(cfg, s.win.buf))
    ensures var (t, out) := RunAll(cfg, s, xs);
            && (t.win.buf == [] || UnderMax(cfg, t.win.buf))
            && forall c :: c in out ==> GoodPiece(cfg, c)
    decreases |xs|
  {
    hide Step, UnderMax, GoodPiece, LimitsOk;
    if xs != [] {
      StepWithinLimits(cfg, s, xs[0]);
      RunWithinLimits(cfg, Step(cfg, s, xs[0]).seg, xs[1..]);
    }
  }

  // ---- what is left in the buffer ----

  /** After the punctuation stage the buffer has no segment end left, unless the gate holds the first one back. */
  lemma {:induction false} PunctStageDrains(cfg: Config, f: Flush, now: real, tms: Option<int>)
    requires cfg.punctStableCount <= 1
    ensures FirstBoundary(PunctStage(cfg, f, now, tms).seg.win.buf) == -1
    decreases |f.seg.win.buf|
  {
    hide Head, Chunks, Consume, GoodPiece, IsPunctOnly, Run;
    var p := FirstBoundary(f.seg.win.buf);
    if p > 0 {
      var g := PunctStep(cfg, f, p, now, tms);
      PunctStageDrains(cfg, g, now, tms);
    }
  }

  lemma WindowSuffix(w: Window, v: Window)
    requires WindowOk(w) && WindowOk(v) && w.base == v.base && v.start >= w.start
    requires FirstBoundary(w.buf) == -1
    ensures FirstBoundary(v.buf) == -1
  {
  }

  lemma StagesLeaveNoEnd(cfg: Config, t: Seg, gapMs: real, now: real, tms: Option<int>)
    requires WindowOk(t.win) && cfg.punctStableCount <= 1
    ensures FirstBoundary(FlushStages(cfg, t, gapMs, now, tms).seg.win.buf) == -1
  {
    hide WindowOk, PunctStage, PauseStage, MaxStage, BeatStage, WordCount, FirstBoundary, Draft, Conserves;
    NothingHasNoBoundary();
    var f1 := PunctStage(cfg, Flush(t, []), now, tms);
    PunctStageOk(cfg, Flush(t, []), now, tms);
    PunctStageDrains(cfg, Flush(t, []), now, tms);
    if WordCount(f1.seg.win.buf) > 0 {
      var f2 := PauseStage(cfg, f1, gapMs, now, tms);
      PauseStageOk(cfg, f1, gapMs, now, tms);
      if WordCount(f2.seg.win.buf) > 0 {
        var f3 := MaxStage(cfg, f2, now, tms);
        MaxStageOk(cfg, f2, now, tms);
        if WordCount(f3.seg.win.buf) > 0 {
          BeatStageOk(cfg, f3, now, tms);
          WindowSuffix(f1.seg.win, BeatStage(cfg, f3, now, tms).seg.win);
        }
      }
    }
  }

  /** With the default gate every update commits up to the last segment end: none stays in the buffer. */
  lemma NoSegmentEndStays(cfg: Config, s: Seg, x: Input)
    requires WindowOk(s.win) && cfg.punctStableCount <= 1
    ensures FirstBoundary(Step(cfg, s, x).seg.win.buf) == -1
  {
    hide WindowOk, FlushStages, IsBlank, FirstBoundary, TakeIn, Norm, IsNormal;
    NormIsNormal(x.text);
    TakeInIsOk(cfg, s.(clk := Received(s.clk, x.now, x.tms)), Norm(x.text), x.now);
    NothingHasNoBoundary();
    var t := Taken(cfg, s, x);
    StagesLeaveNoEnd(cfg, t, GapMs(s.clk, x.now, x.tms), x.now, x.tms);
  }

  lemma NothingHasNoBoundary()
    ensures FirstBoundary("") == -1
  {
  }

  // ---- the draft preview ----

  lemma AlnumsPrefix(s: string, k: nat)
    requires k <= |s|
    ensures Alnums(s[..k]) <= Alnums(s)
  {
    AlnumsSplit(s, k);
  }

  lemma BeforeLastSpaceKeeps(s: string)
    ensures Alnums(BeforeLastSpace(s)) <= Alnums(s)
  {
    hide Alnums, Strip;
    AlnumsNothing();
    var cut := LastSpaceBefore(s, |s|);
    if cut > 0 {
      AlnumsPrefix(s, cut);
      AlnumsStrip(s[..cut]);
    }
  }

  /** The draft shows only a beginning of what is waiting in the buffer, never anything else. */
  lemma DraftIsPrefix(cfg: Config, buf: string)
    ensures Alnums(Draft(cfg, buf)) <= Alnums(buf)
  {
    hide Alnums, Strip, BeforeLastSpace, StripLeadingNoise, IsPunctOnly, RStrip, LStrip;
    AlnumsNothing();
    AlnumsStrip(buf);
    var b := Strip(buf);
    var e := PyEnd(|b|, cfg.draftMaxChars);
    AlnumsPrefix(b, e);
    var r := RStrip(b[..e]);
    AlnumsPrefix(b[..e], |r|);
    assert r == b[..e][..|r|];
    BeforeLastSpaceKeeps(r);
    BeforeLastSpaceKeeps(b);
    BeforeLastSpaceKeeps(BeforeLastSpace(r));
    StripLeadingNoiseKeeps(SafeDraft(buf, cfg.draftMaxChars));
  }

  // ---- re-anchoring ----

  /** The last k characters of the committed text stand at `pos` of the new text. */
  predicate TailAt(committed: string, full: string, k: nat, pos: nat) {
    1 <= k <= |committed| && OccursAt(full, committed[|committed| - k..], pos)
  }

  /** `at` is where a tail of the committed text is found again, moved on to the next boundary. */
  ghost predicate TailAnchor(cfg: Config, committed: string, full: string, at: nat) {
    exists k: nat, pos: nat ::
      TailAt(committed, full, k, pos) && at == AdvanceToBoundary(full, pos + k, cfg.reanchorAdvanceMax)
  }

  /** `at` is where the last words of the committed text are found again, marks and case aside. */
  ghost predicate WordAnchor(cfg: Config, committed: string, full: string, at: nat) {
    var old_, new_ := CleanWords(committed, 0), CleanWords(full, 0);
    exists n: nat, i: nat :: 6 <= n && WordsMatchAt(old_.words, new_.words, n, i)
      && at == AdvanceToBoundary(full, new_.ends[i + n - 1], cfg.reanchorAdvanceMax)
  }

  lemma {:induction false} TailMatchMeans(committed: string, full: string, lens: seq<int>)
    requires TailMatch(committed, full, lens).Some?
    ensures exists k: nat, pos: nat ::
              TailAt(committed, full, k, pos) && TailMatch(committed, full, lens).value == pos + k
  {
    if 1 <= lens[0] <= |committed| && RFind(full, committed[|committed| - lens[0]..]) != -1 {
      var k: nat, pos: nat := lens[0], RFind(full, committed[|committed| - lens[0]..]);
      assert TailAt(committed, full, k, pos);
    } else {
      TailMatchMeans(committed, full, lens[1..]);
    }
  }

  lemma {:induction false} WordMatchMeans(old_: CleanText, new_: CleanText, runs: seq<nat>)
    requires |new_.words| == |new_.ends| && forall i :: 0 <= i < |runs| ==> runs[i] >= 6
    requires WordMatch(old_, new_, runs).Some?
    ensures exists n: nat, i: nat :: 6 <= n && WordsMatchAt(old_.words, new_.words, n, i)
              && WordMatch(old_, new_, runs).value == new_.ends[i + n - 1]
  {
    var i := WordsFindFrom(old_.words, new_.words, runs[0], |new_.words| - runs[0]);
    if |old_.words| >= runs[0] && i >= 0 {
      var n: nat, j: nat := runs[0], i;
      assert WordsMatchAt(old_.words, new_.words, n, j);
    } else {
      WordMatchMeans(old_, new_, runs[1..]);
    }
  }

  /** A re-anchored window starts behind a place where the new text really repeats the end of the committed text. */
  lemma ReanchorMeans(cfg: Config, committedRaw: string, fullRaw: string)
    requires Reanchor(cfg, committedRaw, fullRaw).Some?
    ensures var at := Reanchor(cfg, committedRaw, fullRaw).value;
            TailAnchor(cfg, Strip(committedRaw), Strip(fullRaw), at)
            || WordAnchor(cfg, Strip(committedRaw), Strip(fullRaw), at)
  {
    hide Strip, TailMatch, WordMatch, CleanWords, AdvanceToBoundary, OccursAt, WordsMatchAt;
    var committed, full := Strip(committedRaw), Strip(fullRaw);
    var maxTail := Min(Min(cfg.reanchorMaxTail, |committed|), cfg.overlapMaxChars);
    var lens := TailLengths([maxTail] + TAIL_WISHES, maxTail, Min(cfg.reanchorMinTail, maxTail), []);
    hide TailLengths;
    if TailMatch(committed, full, lens).Some? {
      TailMatchMeans(committed, full, lens);
    } else {
      WordMatchMeans(CleanWords(committed, 0), CleanWords(full, 0), WORD_RUNS);
    }
  }

  // ---- a first message that loses text ----

  /** With the default minimum of three words and too little room, one message after a pause is enough to lose text. */
  lemma FirstMessageCanLose(cfg: Config) returns (x: Input)
    requires cfg.minWords == 3 && cfg.maxWords >= 4 && 5 <= cfg.maxChars < 32
    ensures StepDrops(cfg, Fresh("", 0.0), x)
  {
    hide BufCut, StripLeadingNoise, Strip, Chunks, DropsShort, Norm, KeepsPiece, WordCount, Run;
    var m := cfg.maxChars;
    var buf := CrossingBuf(cfg, m);
    CrossingDrops(cfg, m);
    assert buf[..m + 32] == Crossing(m);
    assert buf[0..] == buf;
    NormFixedPoint(buf);
    RunIs(IsSpace, buf, 0);
    x := Input(buf, cfg.pauseMs / 1000.0, None);
    assert BufFrom(buf, 0) == Window(buf, buf, 0);
    CrossingHasNoBoundary(m);
    BlankHasNoWords(buf);
  }

  lemma CrossingHasNoBoundary(m: nat)
    requires m >= 5
    ensures FirstBoundary(Crossing(m) + " d") == -1
  {
  }
}
