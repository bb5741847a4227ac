/** What one update of the translator's segmenter computes, stage by stage, as functions on its state.
    `Segmenter.dfy` holds the loops proved against these functions. */
module SegmentSpec {
  import opened Text
  import opened Normal
  import opened Words
  import opened Cuts

  datatype RawConfig = RawConfig(
    pauseMs: real, beatMs: real, minWords: int, maxWords: int, maxChars: int, draftMaxChars: int,
    enableBeat: bool, beatStableCount: int, beatMinWords: int, beatMinChars: int,
    overlapMaxChars: int, overlapMinChars: int, hardRewriteTailChars: int,
    punctStableCount: int, punctMaxWaitMs: int,
    autoOnTrunc: bool, autoTruncRatio: real, autoMinOldLen: int, autoOnEllipsis: bool,
    reanchorEnable: bool, reanchorMinCommitted: int, reanchorMaxTail: int, reanchorMinTail: int,
    reanchorAdvanceMax: int)

  /** The overlap and tail limits index strings from their end, so they must be positive. The rest is free. */
  type Config = c: RawConfig | c.overlapMaxChars >= 1 && c.overlapMinChars >= 1 && c.reanchorMaxTail >= 1
    witness DEFAULTS

  /** The values the program starts with when no environment variable is set. */
  const DEFAULTS := RawConfig(520.0, 420.0, 3, 12, 140, 140, true, 2, 5, 20, 220, 10, 220, 1, 520,
                              true, 0.65, 180, true, true, 60, 160, 40, 64)

  type CaseMap = f: string -> string | true witness (s: string) => s

  /** `str.lower`; nothing below depends on what it does. */
  const LOWER: CaseMap

  /** The last text received, and the part of it from `start` on that is not committed yet. */
  datatype Window = Window(base: string, buf: string, start: int)

  datatype Clock = Clock(lastRx: real, lastEmit: real, rxT: Option<int>, emitT: Option<int>)

  datatype Gates = Gates(safe: string, safeCount: nat, punct: string, punctCount: nat, punctSince: real)

  /** The segmenter's fields. Its debug counters are left out. */
  datatype Seg = Seg(win: Window, clk: Clock, gates: Gates)

  function Fresh(full: string, now: real): Seg {
    Seg(Window(full, "", |full|), Clock(now, now, None, None), Gates("", 0, "", 0, now))
  }

  // ---- chunking a committed piece ----

  function NeedWords(cfg: Config): int {
    Max(1, cfg.minWords)
  }

  function WithinLimits(cfg: Config, s: string): bool {
    WordCount(s) <= cfg.maxWords && |s| <= cfg.maxChars
  }

  /** The smaller of the word cut and the character cut, kept inside the text. */
  function LimitCut(cfg: Config, s: string): (r: int)
    requires s != []
    ensures 1 <= r <= |s|
  {
    var w := if cfg.maxWords > 0 then CutByWords(s, cfg.maxWords) else |s|;
    var c := if cfg.maxChars > 0 then CutByChars(s, cfg.maxChars) else |s|;
    Max(1, Min(Min(if w > 0 then w else |s|, if c > 0 then c else |s|), |s|))
  }

  function ChunkCut(cfg: Config, s: string, allowShort: bool): (r: int)
    requires s != []
    ensures LimitCut(cfg, s) <= r <= |s|
  {
    var cut := LimitCut(cfg, s);
    if allowShort || WordCount(s[..cut]) >= NeedWords(cfg) then cut
    else
      var need := CutByWords(s, NeedWords(cfg));
      if 0 < need <= cfg.maxChars then Max(cut, need) else cut
  }

  /** Whether a cut piece is long enough to be kept. */
  predicate KeepsPiece(cfg: Config, head: string, allowShort: bool) {
    head != [] && !IsPunctOnly(head) && WordCount(head) >= (if allowShort then 1 else NeedWords(cfg))
  }

  /** A cut at the limits: the piece kept, if it is long enough, and the text behind it. */
  datatype Cut = Cut(piece: seq<string>, tail: string)

  function CutPiece(cfg: Config, cur: string, allowShort: bool): (r: Cut)
    requires cur != []
    ensures |r.tail| < |cur|
  {
    var cut := ChunkCut(cfg, cur, allowShort);
    var head := StripLeadingNoise(cur[..cut]);
    StripIsTrimmed(cur[cut..]);
    Cut(if KeepsPiece(cfg, head, allowShort) then [head] else [], Strip(cur[cut..]))
  }

  function ChunkFrom(cfg: Config, text: string, allowShort: bool): seq<string>
    decreases |text|
  {
    StripLeadingNoiseKeeps(text);
    var cur := StripLeadingNoise(text);
    BlankHasNoWords(cur);
    if WordCount(cur) <= 0 then []
    else if WithinLimits(cfg, cur) then [Strip(cur)]
    else
      var c := CutPiece(cfg, cur, allowShort);
      if c.tail == [] then c.piece else c.piece + ChunkFrom(cfg, c.tail, allowShort)
  }

  function DropEmpty(ss: seq<string>): seq<string> {
    if ss == [] then []
    else (if ss[0] != [] && !IsPunctOnly(ss[0]) then [ss[0]] else []) + DropEmpty(ss[1..])
  }

  lemma DropEmptyStep(ss: seq<string>, i: nat, r: seq<string>)
    requires i < |ss|
    ensures r + DropEmpty(ss[i..])
            == (if ss[i] != [] && !IsPunctOnly(ss[i]) then r + [ss[i]] else r) + DropEmpty(ss[i + 1..])
  {
    hide IsPunctOnly;
    assert ss[i..][1..] == ss[i + 1..] && ss[i..][0] == ss[i];
    var rest := DropEmpty(ss[i + 1..]);
    assert DropEmpty(ss[i..]) == (if ss[i] != [] && !IsPunctOnly(ss[i]) then [ss[i]] else []) + rest;
    assert (r + [ss[i]]) + rest == r + ([ss[i]] + rest);
  }

  function Chunks(cfg: Config, text: string, allowShort: bool): seq<string> {
    var t := StripLeadingNoise(Norm(text));
    if t == [] || IsPunctOnly(t) then [] else DropEmpty(ChunkFrom(cfg, t, allowShort))
  }

  // ---- cutting the buffer ----

  /** A cut inside a word moves back to a blank that is far enough along, else on to a blank nearby. */
  function UnsplitWord(s: string, cut: int, back: int): (r: int)
    requires s != [] && 1 <= cut <= |s|
    ensures 1 <= r <= |s|
  {
    if cut < |s| && !IsSpace(s[cut]) && !IsSpace(s[cut - 1]) then
      var b := LastSpaceBefore(s, cut);
      if b >= 0 && b >= Max(6, back) then b
      else
        var f := NextSpaceAfter(s, cut, 24);
        if f >= 0 then f else cut
    else cut
  }

  function BufCut(cfg: Config, buf: string): (r: int)
    ensures r == -1 <==> IsBlank(buf)
    ensures r == -1 || 1 <= r <= |buf|
  {
    if IsBlank(buf) then -1
    else
      var lead := Run(IsSpace, buf);
      var t := LStrip(buf);
      if WithinLimits(cfg, t) then |buf|
      else lead + UnsplitWord(t, LimitCut(cfg, t), cfg.maxChars * 9 / 20)
  }

  /** `_safe_prefix_by_limits`. */
  function SafePrefix(cfg: Config, buf: string): string {
    if IsBlank(buf) then []
    else
      var t := LStrip(buf);
      var w := if cfg.maxWords > 0 then CutByWords(t, cfg.maxWords) else |t|;
      var c := if cfg.maxChars > 0 then CutByChars(t, cfg.maxChars) else |t|;
      var cut := Min(if w > 0 then w else |t|, if c > 0 then c else |t|);
      Strip(t[..UnsplitWord(t, Max(1, cut), cfg.maxChars * 9 / 20)])
  }

  /** `_safe_draft_text`: the buffer up to its last blank, unless it ends in a mark. */
  function SafeDraft(buf: string, maxChars: int): string {
    var b := Strip(buf);
    var c := if |b| > maxChars then RStrip(b[..PyEnd(|b|, maxChars)]) else b;
    var d := if |b| > maxChars && c != [] && !IsPunct(c[|c| - 1]) then BeforeLastSpace(c) else c;
    if d == [] || IsPunct(d[|d| - 1]) then d else BeforeLastSpace(d)
  }

  /** The end index of Python's `s[:m]`, which counts from the end when `m` is negative. */
  function PyEnd(n: nat, m: int): (r: nat)
    ensures r <= n
  {
    if m < 0 then Max(0, n + m) else Min(n, m)
  }

  function BeforeLastSpace(s: string): string {
    var cut := LastSpaceBefore(s, |s|);
    if cut > 0 then Strip(s[..cut]) else []
  }

  /** Removes the first `cut` characters of the buffer and the blanks behind them. */
  function Consume(w: Window, cut: int): (r: Window)
    requires 0 <= cut <= |w.buf|
    ensures r.base == w.base && |r.buf| <= |w.buf| - cut
  {
    w.(buf := LStrip(w.buf[cut..]), start := w.start + cut + Run(IsSpace, w.buf[cut..]))
  }

  function Emitted(c: Clock, now: real, tms: Option<int>): Clock {
    c.(lastEmit := now, emitT := if tms.Some? then tms else c.emitT)
  }

  function ClearSafe(g: Gates): Gates {
    g.(safe := "", safeCount := 0)
  }

  function ResetPunct(g: Gates, now: real): Gates {
    g.(punct := "", punctCount := 0, punctSince := now)
  }

  function EmptyBuf(w: Window): Window {
    w.(buf := "", start := |w.base|)
  }

  // ---- taking in a new text ----

  function BufFrom(full: string, start: int): Window {
    var at := Max(0, Min(start, |full|));
    Window(full, LStrip(full[at..]), at + Run(IsSpace, full[at..]))
  }

  /** Start of a window over the last characters, never before `minStart`. */
  function TailWindowStart(cfg: Config, full: string, minStart: int): (r: nat)
    ensures r >= Min(Max(0, minStart), |full|)
  {
    var n := cfg.hardRewriteTailChars;
    var a := if n <= 0 || |full| <= n then 0 else |full| - n;
    AdvanceToBoundary(full, Max(a, Max(0, minStart)), cfg.reanchorAdvanceMax)
  }

  /** `int(x)`: drops the fraction. */
  function Truncate(x: real): int {
    if x >= 0.0 then x.Floor else -((-x).Floor)
  }

  predicate EndsWith(s: string, t: string) {
    IsSuffix(t, s)
  }

  predicate AutoBaseline(cfg: Config, old_: string, new_: string) {
    && old_ != [] && new_ != []
    && (|| (cfg.autoOnEllipsis && (ELLIPSIS in new_ || EndsWith(new_, "...")))
        || (cfg.autoOnTrunc && |old_| >= cfg.autoMinOldLen && |new_| < Truncate(|old_| as real * cfg.autoTruncRatio)))
  }

  predicate OccursAt(s: string, pat: string, k: int) {
    0 <= k && k + |pat| <= |s| && s[k..k + |pat|] == pat
  }

  /** Last position at or before `i` where `pat` occurs, or -1. */
  function RFindFrom(s: string, pat: string, i: int): (r: int)
    ensures r == -1 || (0 <= r <= i && OccursAt(s, pat, r))
    ensures forall k :: r < k <= i ==> !OccursAt(s, pat, k)
    decreases i + 1
  {
    if i < 0 then -1 else if OccursAt(s, pat, i) then i else RFindFrom(s, pat, i - 1)
  }

  function RFind(s: string, pat: string): int {
    RFindFrom(s, pat, |s| - |pat|)
  }

  /** The tail lengths to try: the wanted ones cut down to `maxTail`, without the too short and the repeated. */
  function TailLengths(wanted: seq<int>, maxTail: int, minTail: int, soFar: seq<int>): seq<int> {
    if wanted == [] then soFar
    else
      var k := Min(maxTail, wanted[0]);
      TailLengths(wanted[1..], maxTail, minTail, if k >= minTail && k !in soFar then soFar + [k] else soFar)
  }

  /** End of the last occurrence in `full` of the longest listed tail of `committed`. */
  function TailMatch(committed: string, full: string, lens: seq<int>): (r: Option<nat>)
    ensures r.Some? ==> r.value <= |full|
  {
    if lens == [] then None
    else if 1 <= lens[0] <= |committed| then
      var tail := committed[|committed| - lens[0]..];
      var pos := RFind(full, tail);
      if pos != -1 then Some(pos + |tail|) else TailMatch(committed, full, lens[1..])
    else TailMatch(committed, full, lens[1..])
  }

  predicate IsStripPunct(c: char) {
    c in " ,.;:!?\U{2026}\"'()[]{}<>\U{201C}\U{201D}\U{2018}\U{2019}"
  }

  function TrimPunct(s: string): string
    decreases |s|
  {
    if s == [] then []
    else if IsStripPunct(s[0]) then TrimPunct(s[1..])
    else if IsStripPunct(s[|s| - 1]) then TrimPunct(s[..|s| - 1])
    else s
  }

  /** The words of a text without their punctuation, in lower case, and where each ends. */
  datatype CleanText = CleanText(words: seq<string>, ends: seq<nat>)

  function CleanWords(s: string, from: nat): (r: CleanText)
    requires from <= |s|
    ensures |r.words| == |r.ends|
    ensures forall i :: 0 <= i < |r.ends| ==> r.ends[i] <= |s|
    decreases |s| - from
  {
    var e := from + FirstWordEnd(s[from..]);
    if e == from || IsBlank(s[from..e]) then CleanText([], [])
    else
      var w := LOWER(TrimPunct(LStrip(s[from..e])));
      var rest := CleanWords(s, e);
      if w == [] then rest else CleanText([w] + rest.words, [e] + rest.ends)
  }

  /** The last n words of `old_` stand at position `i` of `new_`. */
  predicate WordsMatchAt(old_: seq<string>, new_: seq<string>, n: nat, i: int) {
    n <= |old_| && 0 <= i && i + n <= |new_| && new_[i..i + n] == old_[|old_| - n..]
  }

  function WordsFindFrom(old_: seq<string>, new_: seq<string>, n: nat, i: int): (r: int)
    ensures r == -1 || (0 <= r <= i && WordsMatchAt(old_, new_, n, r))
    ensures forall k :: r < k <= i ==> !WordsMatchAt(old_, new_, n, k)
    decreases i + 1
  {
    if i < 0 then -1 else if WordsMatchAt(old_, new_, n, i) then i else WordsFindFrom(old_, new_, n, i - 1)
  }

  const WORD_RUNS: seq<nat> := [16, 14, 12, 10, 8, 7, 6]
  const TAIL_WISHES: seq<int> := [140, 120, 100, 80, 60, 50, 40]

  /** End of the last place in the new text where the longest listed number of last words stands. */
  function WordMatch(old_: CleanText, new_: CleanText, runs: seq<nat>): (r: Option<nat>)
    requires |new_.words| == |new_.ends|
    requires forall i :: 0 <= i < |runs| ==> runs[i] >= 1
    ensures r.Some? ==> exists i :: 0 <= i < |new_.ends| && r.value == new_.ends[i]
  {
    if runs == [] then None
    else
      var i := WordsFindFrom(old_.words, new_.words, runs[0], |new_.words| - runs[0]);
      if |old_.words| >= runs[0] && i >= 0 then Some(new_.ends[i + runs[0] - 1])
      else WordMatch(old_, new_, runs[1..])
  }

  /** Where the committed text's tail is found again in the new text. */
  function Reanchor(cfg: Config, committedRaw: string, fullRaw: string): (r: Option<nat>)
    ensures r.Some? ==> r.value <= |Strip(fullRaw)|
  {
    var committed := Strip(committedRaw);
    var full := Strip(fullRaw);
    if !cfg.reanchorEnable || |committed| < cfg.reanchorMinCommitted || |full| < cfg.reanchorMinTail then None
    else
      var maxTail := Min(Min(cfg.reanchorMaxTail, |committed|), cfg.overlapMaxChars);
      var m := TailMatch(committed, full,
                         TailLengths([maxTail] + TAIL_WISHES, maxTail, Min(cfg.reanchorMinTail, maxTail), []));
      var w := if m.Some? then m else WordMatch(CleanWords(committed, 0), CleanWords(full, 0), WORD_RUNS);
      if w.None? then None
      else Some(AdvanceToBoundary(full, w.value, cfg.reanchorAdvanceMax))
  }

  /** A window may start after an overlap that is long enough and ends at a blank or mark. */
  predicate OverlapUsable(cfg: Config, full: string, ov: nat)
    requires ov <= |full|
  {
    ov >= cfg.overlapMinChars && IsNoise(full[ov - 1])
  }

  /** Where the buffer starts in a text that does not extend the last one, and whether the beat gate is cleared. */
  datatype Resync = Resync(at: nat, clearSafe: bool)

  function AnchoredAt(cfg: Config, full: string, anchor: int, bs: int): (r: nat)
    ensures r >= Min(Max(0, bs), |full|)
  {
    AdvanceToBoundary(full, Max(anchor, bs), cfg.reanchorAdvanceMax)
  }

  function ResyncOn(cfg: Config, w: Window, full: string): (r: Resync)
    ensures r.at >= Min(Max(0, Min(w.start, |w.base|)), |full|)
  {
    var bs := Max(0, Min(w.start, |w.base|));
    if AutoBaseline(cfg, w.base, full) then Resync(TailWindowStart(cfg, full, bs), true)
    else if Lcp(w.base, full) >= w.start then Resync(Max(0, w.start), false)
    else
      var committed := w.base[..bs];
      var anchor := Reanchor(cfg, committed, full);
      if anchor.Some? then Resync(AnchoredAt(cfg, full, anchor.value, bs), true)
      else
        var ov := SuffixPrefixOverlap(w.base, full, cfg.overlapMaxChars);
        var ov2 := SuffixPrefixOverlap(committed, full, cfg.overlapMaxChars);
        if OverlapUsable(cfg, full, ov) then Resync(AnchoredAt(cfg, full, ov, bs), false)
        else if OverlapUsable(cfg, full, ov2) then Resync(AnchoredAt(cfg, full, ov2, bs), false)
        else Resync(TailWindowStart(cfg, full, bs), false)
  }

  function Extend(w: Window, full: string): Window
    requires w.base <= full
  {
    var delta := full[|w.base|..];
    if delta == [] then w
    else if w.buf == [] then Window(full, LStrip(delta), w.start + Run(IsSpace, delta))
    else Window(full, w.buf + delta, w.start)
  }

  function TakeIn(cfg: Config, s: Seg, full: string, now: real): Seg {
    if s.win.base == [] then s.(win := BufFrom(full, 0))
    else if s.win.base <= full then s.(win := Extend(s.win, full))
    else
      var r := ResyncOn(cfg, s.win, full);
      Seg(BufFrom(full, r.at), s.clk, ResetPunct(if r.clearSafe then ClearSafe(s.gates) else s.gates, now))
  }

  // ---- the four flush stages ----

  /** What a stage leaves: the state and the pieces committed so far. */
  datatype Flush = Flush(seg: Seg, out: seq<string>)

  /** The gate's new counters, and whether the head may be committed now. */
  function PunctGate(cfg: Config, g: Gates, head: string, now: real): (Gates, bool) {
    if cfg.punctStableCount <= 1 then (g, true)
    else
      var h := if head == g.punct && head != [] then g.(punctCount := g.punctCount + 1)
               else g.(punct := head, punctCount := 1, punctSince := now);
      (h, h.punctCount >= cfg.punctStableCount
          || (now - h.punctSince) * 1000.0 >= Max(0, cfg.punctMaxWaitMs) as real)
  }

  function Head(buf: string, cut: int): string
    requires 0 <= cut <= |buf|
  {
    StripLeadingNoise(Strip(buf[..cut]))
  }

  /** Commits what the head has to say, if anything. */
  function HeadChunks(cfg: Config, head: string): seq<string> {
    if head != [] && !IsPunctOnly(head) then Chunks(cfg, head, true) else []
  }

  function PunctStep(cfg: Config, f: Flush, p: int, now: real, tms: Option<int>): (r: Flush)
    requires 1 <= p <= |f.seg.win.buf|
    ensures |r.seg.win.buf| < |f.seg.win.buf|
  {
    Flush(Seg(Consume(f.seg.win, p), Emitted(f.seg.clk, now, tms), ResetPunct(f.seg.gates, now)),
          f.out + HeadChunks(cfg, Head(f.seg.win.buf, p)))
  }

  /** What the gate counted is forgotten by the step behind it. */
  lemma GateLeavesStep(cfg: Config, f: Flush, after: Gates, head: string, p: int, now: real, tms: Option<int>)
    requires 1 <= p <= |f.seg.win.buf| && (after == f.seg.gates || after == PunctGate(cfg, f.seg.gates, head, now).0)
    ensures PunctStep(cfg, Flush(f.seg.(gates := after), f.out), p, now, tms) == PunctStep(cfg, f, p, now, tms)
  {
    hide Head, HeadChunks, Consume, Emitted;
  }

  function PunctHolds(cfg: Config, s: Seg, p: int, now: real): bool
    requires 1 <= p <= |s.win.buf|
  {
    var head := Head(s.win.buf, p);
    head != [] && !PunctGate(cfg, s.gates, head, now).1
  }

  function PunctStage(cfg: Config, f: Flush, now: real, tms: Option<int>): Flush
    decreases |f.seg.win.buf|
  {
    var p := FirstBoundary(f.seg.win.buf);
    if p <= 0 then f
    else if PunctHolds(cfg, f.seg, p, now) then
      Flush(f.seg.(gates := PunctGate(cfg, f.seg.gates, Head(f.seg.win.buf, p), now).0), f.out)
    else
      var g := PunctStep(cfg, f, p, now, tms);
      if IsBlank(g.seg.win.buf) then Flush(g.seg.(win := EmptyBuf(g.seg.win)), g.out)
      else PunctStage(cfg, g, now, tms)
  }

  function PauseStage(cfg: Config, f: Flush, gapMs: real, now: real, tms: Option<int>): Flush {
    var buf := f.seg.win.buf;
    var cut := BufCut(cfg, buf);
    if gapMs < cfg.pauseMs || WordCount(buf) < NeedWords(cfg) || cut <= 0 then f
    else
      var head := Head(buf, cut);
      var out := if KeepsPiece(cfg, head, false) then Chunks(cfg, head, false) else [];
      if out == [] then f
      else Flush(Seg(Consume(f.seg.win, cut), Emitted(f.seg.clk, now, tms), f.seg.gates), f.out + out)
  }

  function MaxStep(cfg: Config, f: Flush, cut: int, now: real, tms: Option<int>): (r: Flush)
    requires 1 <= cut <= |f.seg.win.buf|
    ensures |r.seg.win.buf| < |f.seg.win.buf|
  {
    Flush(Seg(Consume(f.seg.win, cut), Emitted(f.seg.clk, now, tms), f.seg.gates),
          f.out + HeadChunks(cfg, Head(f.seg.win.buf, cut)))
  }

  predicate UnderMax(cfg: Config, buf: string) {
    WordCount(buf) < cfg.maxWords && |Strip(buf)| < cfg.maxChars
  }

  function MaxStage(cfg: Config, f: Flush, now: real, tms: Option<int>): Flush
    decreases |f.seg.win.buf|
  {
    BlankHasNoWords(f.seg.win.buf);
    if WordCount(f.seg.win.buf) <= 0 then Flush(f.seg.(win := EmptyBuf(f.seg.win)), f.out)
    else if UnderMax(cfg, f.seg.win.buf) then f
    else
      var g := MaxStep(cfg, f, BufCut(cfg, f.seg.win.buf), now, tms);
      if g.seg.win.buf == [] then g else MaxStage(cfg, g, now, tms)
  }

  function BeatGate(g: Gates, safe: string): Gates {
    if safe != [] && safe == g.safe then g.(safeCount := g.safeCount + 1)
    else g.(safe := safe, safeCount := if safe != [] then 1 else 0)
  }

  function SinceEmitMs(c: Clock, now: real, tms: Option<int>): real {
    if tms.Some? && c.emitT.Some? then (tms.value - c.emitT.value) as real else (now - c.lastEmit) * 1000.0
  }

  predicate BeatReady(cfg: Config, s: Seg, safe: string, now: real, tms: Option<int>) {
    && SinceEmitMs(s.clk, now, tms) >= cfg.beatMs && s.gates.safeCount >= Max(1, cfg.beatStableCount)
    && safe != [] && !IsPunctOnly(safe)
    && WordCount(safe) >= Max(1, cfg.beatMinWords) && |safe| >= Max(1, cfg.beatMinChars)
    && safe <= LStrip(s.win.buf)
  }

  function BeatCut(buf: string, safe: string): (r: int)
    requires safe <= LStrip(buf)
    ensures 0 <= r <= |buf|
  {
    Run(IsSpace, buf) + |safe|
  }

  function BeatCommit(cfg: Config, s: Seg, safe: string, now: real, tms: Option<int>, soFar: seq<string>): Flush
    requires safe <= LStrip(s.win.buf)
  {
    var cut := BeatCut(s.win.buf, safe);
    var out := Chunks(cfg, Head(s.win.buf, cut), true);
    if out == [] then Flush(s.(gates := ClearSafe(s.gates)), soFar)
    else Flush(Seg(Consume(s.win, cut), Emitted(s.clk, now, tms), ClearSafe(s.gates)), soFar + out)
  }

  function BeatStage(cfg: Config, f: Flush, now: real, tms: Option<int>): Flush {
    if !cfg.enableBeat then f
    else
      var safe := StripLeadingNoise(SafePrefix(cfg, f.seg.win.buf));
      var s := f.seg.(gates := BeatGate(f.seg.gates, safe));
      if !BeatReady(cfg, s, safe, now, tms) then Flush(s, f.out) else BeatCommit(cfg, s, safe, now, tms, f.out)
  }

  /** The pieces committed by an update, the state after it and the draft preview. */
  datatype Update = Update(seg: Seg, out: seq<string>, draft: string)

  function Draft(cfg: Config, buf: string): string {
    var d := StripLeadingNoise(SafeDraft(buf, cfg.draftMaxChars));
    if IsPunctOnly(d) then [] else d
  }

  /** An update that leaves nothing in the buffer. */
  function Drained(f: Flush, win: Window): Update {
    Update(Seg(win, f.seg.clk, ClearSafe(f.seg.gates)), f.out, "")
  }

  function FlushStages(cfg: Config, s: Seg, gapMs: real, now: real, tms: Option<int>): Update {
    var f1 := PunctStage(cfg, Flush(s, []), now, tms);
    if WordCount(f1.seg.win.buf) <= 0 then Drained(f1, f1.seg.win.(buf := ""))
    else
      var f2 := PauseStage(cfg, f1, gapMs, now, tms);
      if WordCount(f2.seg.win.buf) <= 0 then Drained(f2, EmptyBuf(f2.seg.win))
      else
        var f3 := MaxStage(cfg, f2, now, tms);
        if WordCount(f3.seg.win.buf) <= 0 then Drained(f3, EmptyBuf(f3.seg.win))
        else
          var f4 := BeatStage(cfg, f3, now, tms);
          Update(f4.seg, f4.out, Draft(cfg, f4.seg.win.buf))
  }

  function GapMs(c: Clock, now: real, tms: Option<int>): real {
    if tms.Some? && c.rxT.Some? then (tms.value - c.rxT.value) as real else (now - c.lastRx) * 1000.0
  }

  function Received(c: Clock, now: real, tms: Option<int>): Clock {
    c.(lastRx := now, rxT := if tms.Some? then tms else c.rxT)
  }

  function UpdateStable(cfg: Config, s: Seg, fullRaw: string, now: real, tms: Option<int>): Update {
    var t := TakeIn(cfg, s.(clk := Received(s.clk, now, tms)), Norm(fullRaw), now);
    if IsBlank(t.win.buf) then
      Update(Seg(EmptyBuf(t.win), t.clk, ResetPunct(ClearSafe(t.gates), now)), [], "")
    else FlushStages(cfg, t, GapMs(s.clk, now, tms), now, tms)
  }
}
