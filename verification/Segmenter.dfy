/** The translator's segmenter as the program runs it: fields updated in place by loops. */
module SegmenterClass {
  import opened Text
  import opened Normal
  import opened Words
  import opened Cuts
  import opened SegmentSpec

  class Segmenter {
    const cfg: Config
    var baseFull: string
    var buf: string
    var bufStart: int
    var lastRxMono: real
    var lastEmitMono: real
    var lastRxT: Option<int>
    var lastEmitT: Option<int>
    var lastSafeForGate: string
    var safeSameCnt: nat
    var punctGateText: string
    var punctGateCnt: nat
    var punctGateSince: real

    ghost function State(): Seg
      reads this
    {
      Seg(Window(baseFull, buf, bufStart), Clock(lastRxMono, lastEmitMono, lastRxT, lastEmitT),
          Gates(lastSafeForGate, safeSameCnt, punctGateText, punctGateCnt, punctGateSince))
    }

    constructor (cfg: Config, now: real)
      ensures this.cfg == cfg
      ensures State() == Fresh("", now)
    {
      this.cfg := cfg;
      baseFull, buf, bufStart := "", "", 0;
      lastRxMono, lastEmitMono, lastRxT, lastEmitT := now, now, None, None;
      lastSafeForGate, safeSameCnt := "", 0;
      punctGateText, punctGateCnt, punctGateSince := "", 0, now;
    }

    method Reset(now: real)
      modifies this
      ensures State() == Fresh("", now)
    {
      baseFull, buf, bufStart := "", "", 0;
      lastRxMono, lastEmitMono, lastRxT, lastEmitT := now, now, None, None;
      lastSafeForGate, safeSameCnt := "", 0;
      punctGateText, punctGateCnt, punctGateSince := "", 0, now;
    }

    method Baseline(fullRaw: string, now: real)
      modifies this
      ensures State() == Fresh(Norm(fullRaw), now)
    {
      hide Norm;
      baseFull, buf := Norm(fullRaw), "";
      bufStart := |baseFull|;
      lastRxMono, lastEmitMono, lastRxT, lastEmitT := now, now, None, None;
      lastSafeForGate, safeSameCnt := "", 0;
      punctGateText, punctGateCnt, punctGateSince := "", 0, now;
    }

    method CutOnePiece(cur: string, allowShort: bool) returns (c: Cut)
      requires cur != []
      ensures c == CutPiece(cfg, cur, allowShort)
    {
      var cut := LimitCut(cfg, cur);
      if !allowShort {
        if WordCount(cur[..cut]) < NeedWords(cfg) {
          var need := CutByWords(cur, NeedWords(cfg));
          if 0 < need <= cfg.maxChars {
            cut := Max(cut, need);
          }
        }
      }
      hide StripLeadingNoise, Strip, KeepsPiece;
      var head := StripLeadingNoise(cur[..cut]);
      c := Cut(if KeepsPiece(cfg, head, allowShort) then [head] else [], Strip(cur[cut..]));
    }

    method ChunkByLimits(text: string, allowShort: bool) returns (r: seq<string>)
      ensures r == Chunks(cfg, text, allowShort)
    {
      hide WordCount, Strip, StripLeadingNoise, IsPunctOnly, Norm, WithinLimits;
      hide CutPiece, DropEmpty, IsBlank, Trimmed, Alnums;
      var t := StripLeadingNoise(Norm(text));
      if t == [] || IsPunctOnly(t) {
        return [];
      }
      var out: seq<string> := [];
      var cur := t;
      while cur != []
        invariant cur != [] ==> out + ChunkFrom(cfg, cur, allowShort) == ChunkFrom(cfg, t, allowShort)
        invariant cur == [] ==> out == ChunkFrom(cfg, t, allowShort)
        decreases |cur|
      {
        StripLeadingNoiseKeeps(cur);
        cur := StripLeadingNoise(cur);
        BlankHasNoWords(cur);
        if WordCount(cur) <= 0 {
          assert out + [] == out;
          break;
        }
        if WithinLimits(cfg, cur) {
          out := out + [Strip(cur)];
          break;
        }
        var c := CutOnePiece(cur, allowShort);
        out := out + c.piece;
        cur := c.tail;
      }
      r := KeepNonEmpty(out);
    }

    method KeepNonEmpty(ss: seq<string>) returns (r: seq<string>)
      ensures r == DropEmpty(ss)
    {
      hide IsPunctOnly;
      r := [];
      assert ss[0..] == ss && [] + DropEmpty(ss) == DropEmpty(ss);
      for i := 0 to |ss|
        invariant r + DropEmpty(ss[i..]) == DropEmpty(ss)
      {
        DropEmptyStep(ss, i, r);
        hide DropEmpty;
        if ss[i] != [] && !IsPunctOnly(ss[i]) {
          r := r + [ss[i]];
        }
      }
      assert DropEmpty(ss[|ss|..]) == [] && r + [] == r;
    }

    method ListTailLengths(maxTail: int, minTail: int) returns (lens: seq<int>)
      ensures lens == TailLengths([maxTail] + TAIL_WISHES, maxTail, minTail, [])
    {
      lens := [];
      var wanted := [maxTail] + TAIL_WISHES;
      for i := 0 to |wanted|
        invariant TailLengths(wanted[i..], maxTail, minTail, lens) == TailLengths(wanted, maxTail, minTail, [])
      {
        var k := Min(maxTail, wanted[i]);
        if k >= minTail && k !in lens {
          lens := lens + [k];
        }
      }
    }

    method FindTail(committed: string, full: string, lens: seq<int>) returns (r: Option<nat>)
      ensures r == TailMatch(committed, full, lens)
    {
      hide RFind;
      var i := 0;
      while i < |lens|
        invariant 0 <= i <= |lens|
        invariant TailMatch(committed, full, lens[i..]) == TailMatch(committed, full, lens)
      {
        assert lens[i..][1..] == lens[i + 1..];
        if 1 <= lens[i] <= |committed| {
          var tail := committed[|committed| - lens[i]..];
          var pos := FindLast(full, tail);
          if pos != -1 {
            return Some(pos + |tail|);
          }
        }
        i := i + 1;
      }
      return None;
    }

    /** `str.rfind`. */
    method FindLast(s: string, pat: string) returns (pos: int)
      ensures pos == RFind(s, pat)
      ensures pos != -1 ==> OccursAt(s, pat, pos)
    {
      hide OccursAt;
      pos := |s| - |pat|;
      while pos >= 0 && !OccursAt(s, pat, pos)
        invariant RFindFrom(s, pat, pos) == RFind(s, pat)
      {
        pos := pos - 1;
      }
      if pos < 0 {
        pos := -1;
      }
    }

    method FindWordRun(old_: CleanText, new_: CleanText) returns (r: Option<nat>)
      requires |new_.words| == |new_.ends|
      ensures r == WordMatch(old_, new_, WORD_RUNS)
    {
      hide WordsMatchAt;
      var j := 0;
      while j < |WORD_RUNS|
        invariant 0 <= j <= |WORD_RUNS|
        invariant WordMatch(old_, new_, WORD_RUNS[j..]) == WordMatch(old_, new_, WORD_RUNS)
      {
        var n := WORD_RUNS[j];
        assert WORD_RUNS[j..][1..] == WORD_RUNS[j + 1..];
        if |old_.words| >= n {
          var k := FindLastWords(old_.words, new_.words, n);
          if k >= 0 {
            return Some(new_.ends[k + n - 1]);
          }
        }
        j := j + 1;
      }
      return None;
    }

    method FindLastWords(old_: seq<string>, new_: seq<string>, n: nat) returns (k: int)
      ensures k == WordsFindFrom(old_, new_, n, |new_| - n)
      ensures k >= 0 ==> k + n <= |new_|
    {
      hide WordsMatchAt;
      k := |new_| - n;
      while k >= 0 && !WordsMatchAt(old_, new_, n, k)
        invariant k <= |new_| - n
        invariant WordsFindFrom(old_, new_, n, k) == WordsFindFrom(old_, new_, n, |new_| - n)
      {
        k := k - 1;
      }
      if k < 0 {
        k := -1;
      }
    }

    method ReanchorByCommittedTail(committedRaw: string, fullRaw: string) returns (r: Option<nat>)
      ensures r == Reanchor(cfg, committedRaw, fullRaw)
    {
      hide Strip, AdvanceToBoundary, CleanWords, TailMatch, WordMatch, TailLengths;
      var committed, full := Strip(committedRaw), Strip(fullRaw);
      if !cfg.reanchorEnable || |committed| < cfg.reanchorMinCommitted || |full| < cfg.reanchorMinTail {
        return None;
      }
      var maxTail := Min(Min(cfg.reanchorMaxTail, |committed|), cfg.overlapMaxChars);
      var lens := ListTailLengths(maxTail, Min(cfg.reanchorMinTail, maxTail));
      var end := FindTail(committed, full, lens);
      if end.None? {
        end := FindWordRun(CleanWords(committed, 0), CleanWords(full, 0));
        if end.None? {
          return None;
        }
      }
      var at := FindBoundaryFrom(full, end.value, cfg.reanchorAdvanceMax);
      return Some(at);
    }

    method SetBufFromFull(full: string, start: int)
      modifies this`buf, this`bufStart
      ensures Window(full, buf, bufStart) == BufFrom(full, start)
    {
      var at := Max(0, Min(start, |full|));
      bufStart := at + Run(IsSpace, full[at..]);
      buf := LStrip(full[at..]);
    }

    method FindTailWindow(full: string, minStart: int) returns (at: nat)
      ensures at == TailWindowStart(cfg, full, minStart)
    {
      hide AdvanceToBoundary;
      var n := cfg.hardRewriteTailChars;
      var start := if n <= 0 || |full| <= n then 0 else |full| - n;
      start := Max(start, Max(0, minStart));
      at := FindBoundaryFrom(full, start, cfg.reanchorAdvanceMax);
    }

    method AppendToBuf(delta: string)
      modifies this`buf, this`bufStart
      ensures delta == [] ==> buf == old(buf) && bufStart == old(bufStart)
      ensures delta != [] && old(buf) != [] ==> buf == old(buf) + delta && bufStart == old(bufStart)
      ensures delta != [] && old(buf) == [] ==> buf == LStrip(delta) && bufStart == old(bufStart) + Run(IsSpace, delta)
    {
      if delta == [] {
        return;
      }
      if buf == [] {
        bufStart := bufStart + Run(IsSpace, delta);
        buf := LStrip(delta);
      } else {
        buf := buf + delta;
      }
    }

    method ResetPunctGate(now: real)
      modifies this`punctGateText, this`punctGateCnt, this`punctGateSince
      ensures punctGateText == "" && punctGateCnt == 0 && punctGateSince == now
    {
      punctGateText, punctGateCnt, punctGateSince := "", 0, now;
    }

    method FindResync(full: string) returns (r: Resync)
      ensures r == ResyncOn(cfg, Window(baseFull, buf, bufStart), full)
    {
      hide AutoBaseline, Lcp, Reanchor, SuffixPrefixOverlap, OverlapUsable, AdvanceToBoundary, TailWindowStart;
      var bs := Max(0, Min(bufStart, |baseFull|));
      var lcp := LcpLen(baseFull, full);
      var at: nat;
      if AutoBaseline(cfg, baseFull, full) {
        at := FindTailWindow(full, bs);
        return Resync(at, true);
      }
      if lcp >= bufStart {
        return Resync(Max(0, bufStart), false);
      }
      var committed := baseFull[..bs];
      var anchor := ReanchorByCommittedTail(committed, full);
      if anchor.Some? {
        at := FindBoundaryFrom(full, Max(anchor.value, bs), cfg.reanchorAdvanceMax);
        return Resync(at, true);
      }
      var ov := FindOverlap(baseFull, full, cfg.overlapMaxChars);
      if OverlapUsable(cfg, full, ov) {
        at := FindBoundaryFrom(full, Max(ov, bs), cfg.reanchorAdvanceMax);
        return Resync(at, false);
      }
      var ov2 := FindOverlap(committed, full, cfg.overlapMaxChars);
      if OverlapUsable(cfg, full, ov2) {
        at := FindBoundaryFrom(full, Max(ov2, bs), cfg.reanchorAdvanceMax);
        return Resync(at, false);
      }
      at := FindTailWindow(full, bs);
      return Resync(at, false);
    }

    /** Takes in a text that does not extend the last one. */
    method TakeInRewrite(full: string, now: real)
      requires baseFull != [] && !(baseFull <= full)
      modifies this
      ensures State() == TakeIn(cfg, old(State()), full, now)
    {
      hide ResyncOn, BufFrom;
      var r := FindResync(full);
      baseFull := full;
      SetBufFromFull(full, r.at);
      if r.clearSafe {
        lastSafeForGate, safeSameCnt := "", 0;
      }
      ResetPunctGate(now);
    }

    method TakeInText(full: string, now: real)
      modifies this
      ensures State() == TakeIn(cfg, old(State()), full, now)
    {
      if baseFull == [] {
        baseFull := full;
        SetBufFromFull(full, 0);
      } else if baseFull <= full {
        var delta := full[|baseFull|..];
        assert delta == [] ==> full == baseFull;
        baseFull := full;
        AppendToBuf(delta);
      } else {
        TakeInRewrite(full, now);
      }
    }

    method PunctGateAllow(head: string, now: real) returns (ok: bool)
      modifies this`punctGateText, this`punctGateCnt, this`punctGateSince
      ensures (State().gates, ok) == PunctGate(cfg, old(State().gates), head, now)
    {
      if cfg.punctStableCount <= 1 {
        return true;
      }
      if head == punctGateText && head != [] {
        punctGateCnt := punctGateCnt + 1;
      } else {
        punctGateText, punctGateCnt, punctGateSince := head, 1, now;
      }
      var heldMs := (now - punctGateSince) * 1000.0;
      return punctGateCnt >= cfg.punctStableCount || heldMs >= Max(0, cfg.punctMaxWaitMs) as real;
    }

    /** Drops the first `cut` characters of the buffer and the blanks behind them. */
    method DropHead(cut: int)
      requires 0 <= cut <= |buf|
      modifies this`buf, this`bufStart
      ensures Window(baseFull, buf, bufStart) == Consume(old(State().win), cut)
    {
      bufStart := bufStart + cut + Run(IsSpace, buf[cut..]);
      buf := LStrip(buf[cut..]);
    }

    method MarkEmit(now: real, tms: Option<int>)
      modifies this`lastEmitMono, this`lastEmitT
      ensures State().clk == Emitted(old(State().clk), now, tms)
    {
      lastEmitMono := now;
      if tms.Some? {
        lastEmitT := tms;
      }
    }

    /** Commits what the head before `p` has to say, and moves on. */
    method TakeHead(p: int, head: string, now: real, tms: Option<int>, soFar: seq<string>) returns (commit: seq<string>)
      requires 1 <= p <= |buf| && head == Head(buf, p)
      modifies this
      ensures Flush(State(), commit) == PunctStep(cfg, Flush(old(State()), soFar), p, now, tms)
    {
      hide Head, Chunks, IsPunctOnly, Emitted, Consume;
      commit := soFar;
      if head != [] && !IsPunctOnly(head) {
        var chunks := ChunkByLimits(head, true);
        commit := commit + chunks;
      }
      DropHead(p);
      MarkEmit(now, tms);
      ResetPunctGate(now);
    }

    method FlushPunct(now: real, tms: Option<int>) returns (commit: seq<string>)
      modifies this
      ensures Flush(State(), commit) == PunctStage(cfg, Flush(old(State()), []), now, tms)
    {
      hide Head, HeadChunks, IsBlank, FirstBoundary, PunctGate, Emitted, Consume;
      commit := [];
      ghost var goal := PunctStage(cfg, Flush(State(), []), now, tms);
      while true
        invariant PunctStage(cfg, Flush(State(), commit), now, tms) == goal
        decreases |buf|
      {
        ghost var f := Flush(State(), commit);
        var p := FirstPunctBoundary(buf);
        if p <= 0 {
          return;
        }
        var head := Head(buf, p);
        if head != [] {
          var ok := PunctGateAllow(head, now);
          if !ok {
            return;
          }
        }
        GateLeavesStep(cfg, f, State().gates, head, p, now, tms);
        commit := TakeHead(p, head, now, tms, commit);
        if IsBlank(buf) {
          buf, bufStart := "", |baseFull|;
          return;
        }
      }
    }

    method FlushPause(gapMs: real, now: real, tms: Option<int>, soFar: seq<string>) returns (commit: seq<string>)
      modifies this
      ensures Flush(State(), commit) == PauseStage(cfg, Flush(old(State()), soFar), gapMs, now, tms)
    {
      hide Head, Chunks, Run, LStrip, IsBlank, WordCount, BufCut, KeepsPiece, NeedWords, Emitted, Consume;
      commit := soFar;
      if gapMs >= cfg.pauseMs && WordCount(buf) >= NeedWords(cfg) {
        var cut := BufCut(cfg, buf);
        if cut > 0 {
          var head := Head(buf, cut);
          if KeepsPiece(cfg, head, false) {
            var chunks := ChunkByLimits(head, false);
            if chunks != [] {
              commit := commit + chunks;
              DropHead(cut);
              MarkEmit(now, tms);
            }
          }
        }
      }
    }

    method FlushMax(now: real, tms: Option<int>, soFar: seq<string>) returns (commit: seq<string>)
      modifies this
      ensures Flush(State(), commit) == MaxStage(cfg, Flush(old(State()), soFar), now, tms)
    {
      hide Head, Chunks, IsPunctOnly, Run, LStrip, IsBlank, WordCount, BufCut, UnderMax, Emitted, Consume;
      commit := soFar;
      ghost var goal := MaxStage(cfg, Flush(State(), soFar), now, tms);
      while true
        invariant MaxStage(cfg, Flush(State(), commit), now, tms) == goal
        decreases |buf|
      {
        ghost var f := Flush(State(), commit);
        BlankHasNoWords(buf);
        if WordCount(buf) <= 0 {
          buf, bufStart := "", |baseFull|;
          return;
        }
        if UnderMax(cfg, buf) {
          return;
        }
        var cut := BufCut(cfg, buf);
        var head := Head(buf, cut);
        if head != [] && !IsPunctOnly(head) {
          var chunks := ChunkByLimits(head, true);
          commit := commit + chunks;
        }
        DropHead(cut);
        MarkEmit(now, tms);
        assert Flush(State(), commit) == MaxStep(cfg, f, cut, now, tms);
        if buf == [] {
          return;
        }
      }
    }

    /** How often in a row the safe prefix has come up. */
    method CountSafe(safe: string)
      modifies this`lastSafeForGate, this`safeSameCnt
      ensures State().gates == BeatGate(old(State().gates), safe)
    {
      if safe != [] && safe == lastSafeForGate {
        safeSameCnt := safeSameCnt + 1;
      } else {
        lastSafeForGate, safeSameCnt := safe, if safe != [] then 1 else 0;
      }
    }

    method FlushBeat(now: real, tms: Option<int>, soFar: seq<string>) returns (commit: seq<string>)
      modifies this
      ensures Flush(State(), commit) == BeatStage(cfg, Flush(old(State()), soFar), now, tms)
    {
      hide Head, Chunks, IsPunctOnly, LStrip, BeatCut, BeatGate, IsBlank, WordCount, SafePrefix, StripLeadingNoise,
        Emitted, Consume;
      commit := soFar;
      if !cfg.enableBeat {
        return;
      }
      var sinceEmit := if tms.Some? && lastEmitT.Some? then (tms.value - lastEmitT.value) as real
                       else (now - lastEmitMono) * 1000.0;
      var safe := StripLeadingNoise(SafePrefix(cfg, buf));
      CountSafe(safe);
      if sinceEmit >= cfg.beatMs && safeSameCnt >= Max(1, cfg.beatStableCount)
         && safe != [] && !IsPunctOnly(safe)
         && WordCount(safe) >= Max(1, cfg.beatMinWords) && |safe| >= Max(1, cfg.beatMinChars)
      {
        if safe <= LStrip(buf) {
          commit := CommitBeat(safe, now, tms, commit);
        }
      }
    }

    method CommitBeat(safe: string, now: real, tms: Option<int>, soFar: seq<string>) returns (commit: seq<string>)
      requires safe <= LStrip(buf)
      modifies this
      ensures Flush(State(), commit) == BeatCommit(cfg, old(State()), safe, now, tms, soFar)
    {
      hide Head, Chunks, LStrip, BeatCut, Emitted, Consume;
      commit := soFar;
      var cut := BeatCut(buf, safe);
      var chunks := ChunkByLimits(Head(buf, cut), true);
      if chunks != [] {
        commit := commit + chunks;
        DropHead(cut);
        MarkEmit(now, tms);
      }
      ClearSafeGate();
    }

    method ClearSafeGate()
      modifies this`lastSafeForGate, this`safeSameCnt
      ensures lastSafeForGate == "" && safeSameCnt == 0
    {
      lastSafeForGate, safeSameCnt := "", 0;
    }

    method RunStages(gapMs: real, now: real, tms: Option<int>) returns (commit: seq<string>, draft: string)
      modifies this
      ensures Update(State(), commit, draft) == FlushStages(cfg, old(State()), gapMs, now, tms)
    {
      hide PunctStage, PauseStage, MaxStage, BeatStage, WordCount, Draft;
      commit := FlushPunct(now, tms);
      if WordCount(buf) <= 0 {
        buf := "";
        ClearSafeGate();
        return commit, "";
      }
      commit := FlushPause(gapMs, now, tms, commit);
      if WordCount(buf) <= 0 {
        buf, bufStart := "", |baseFull|;
        ClearSafeGate();
        return commit, "";
      }
      commit := FlushMax(now, tms, commit);
      if WordCount(buf) <= 0 {
        buf, bufStart := "", |baseFull|;
        ClearSafeGate();
        return commit, "";
      }
      commit := FlushBeat(now, tms, commit);
      draft := Draft(cfg, buf);
    }

    method UpdateStable(fullRaw: string, now: real, tms: Option<int>) returns (commit: seq<string>, draft: string)
      modifies this
      ensures Update(State(), commit, draft) == SegmentSpec.UpdateStable(cfg, old(State()), fullRaw, now, tms)
    {
      hide TakeIn, FlushStages, IsBlank, Norm;
      var full := Norm(fullRaw);
      var gapMs := if tms.Some? && lastRxT.Some? then (tms.value - lastRxT.value) as real
                   else (now - lastRxMono) * 1000.0;
      lastRxMono := now;
      if tms.Some? {
        lastRxT := tms;
      }
      TakeInText(full, now);
      if IsBlank(buf) {
        buf, bufStart := "", |baseFull|;
        ClearSafeGate();
        ResetPunctGate(now);
        return [], "";
      }
      commit, draft := RunStages(gapMs, now, tms);
    }
  }
}
