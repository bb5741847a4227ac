/** Where the segmenter takes up a text that does not extend the last one. */
module AnchorProofs {
  import opened Text
  import opened Words
  import opened Cuts
  import opened Normal
  import opened SegmentSpec
  import opened WindowProofs

  // ---- where a rewritten text is taken up ----

  /** `r` is where a window may start that should start at `i`: right there, unless that is inside a word and a blank
      or mark comes within reach; then behind the first one, and behind the blanks that follow. */
  ghost predicate StartsAt(s: string, i: int, reach: int, r: int) {
    var inside := 0 < i < |s| && IsAlnum(s[i - 1]) && IsAlnum(s[i]);
    if inside && exists k :: FirstNoise(s, i, k, reach) then
      exists k :: FirstNoise(s, i, k, reach) && r == k + 1 + Run(IsSpace, s[k + 1..])
    else r == i
  }

  predicate FirstNoise(s: string, i: int, k: int, reach: int) {
    0 <= i <= k < |s| && k < i + reach && IsNoise(s[k]) && forall j :: i <= j < k ==> !IsNoise(s[j])
  }

  lemma {:induction false} BreakIs(s: string, i: nat, end: int, dflt: nat, n: int)
    requires dflt <= i && end <= |s| && dflt < |s| && n == end - dflt
    requires forall j :: dflt <= j < i && j < |s| ==> !IsNoise(s[j])
    ensures var r := BreakFrom(s, i, end, dflt);
            if exists k :: FirstNoise(s, dflt, k, n) then
              exists k :: FirstNoise(s, dflt, k, n) && r == k + 1 + Run(IsSpace, s[k + 1..])
            else r == dflt
    decreases end - i
  {
    hide IsNoise, Run;
    if i < end {
      if IsNoise(s[i]) {
        assert FirstNoise(s, dflt, i, n);
      } else {
        BreakIs(s, i + 1, end, dflt, n);
      }
    }
  }

  lemma AdvanceMeans(s: string, idx: int, reach: int)
    requires s != ""
    ensures StartsAt(s, Max(0, Min(idx, |s|)), reach, AdvanceToBoundary(s, idx, reach))
  {
    hide IsNoise, Run, BreakFrom, IsAlnum;
    var i := Max(0, Min(idx, |s|));
    if 0 < i < |s| && IsAlnum(s[i - 1]) && IsAlnum(s[i]) {
      var end := Min(|s|, i + reach);
      BreakIs(s, i, end, i, end - i);
      SameReach(s, i, reach, end - i);
    }
  }

  lemma SameReach(s: string, i: nat, reach: int, n: int)
    requires i < |s| && n == Min(|s|, i + reach) - i
    ensures forall k :: FirstNoise(s, i, k, n) <==> FirstNoise(s, i, k, reach)
  {
  }

  lemma TailMeans(cfg: Config, full: string, start: nat)
    requires full != ""
    ensures var n := cfg.hardRewriteTailChars;
            var tail := if 0 < n < |full| then |full| - n else 0;
            && StartsAt(full, Min(Max(tail, start), |full|), cfg.reanchorAdvanceMax, TailWindowStart(cfg, full, start))
            && TailWindowStart(cfg, full, start) <= |full|
  {
    hide AdvanceToBoundary, StartsAt;
    var n := cfg.hardRewriteTailChars;
    var tail := if 0 < n < |full| then |full| - n else 0;
    AdvanceMeans(full, Max(tail, start), cfg.reanchorAdvanceMax);
  }

  /** The window over `full` from `p` on, without a blank in front. */
  predicate StandsAt(w: Window, full: string, p: nat) {
    p <= |full| && w.base == full && w.start == p + Run(IsSpace, full[p..]) && w.buf == full[w.start..]
  }

  /** Where the new text is taken up: a continuation, and a rewrite behind the committed boundary, at that boundary; a
      text taken for a truncation over its last characters; any other rewrite behind the anchor, else behind an overlap
      of the whole last text, else of the committed one, that is long enough and ends at a blank or a mark, else over
      its last characters; and always at a word boundary and never before the committed one. */
  ghost predicate TakenUp(cfg: Config, w: Window, full: string, p: nat)
    requires 0 <= w.start <= |w.base|
  {
    var committed, n, reach := w.base[..w.start], cfg.hardRewriteTailChars, cfg.reanchorAdvanceMax;
    var ov, ov2 := SuffixPrefixOverlap(w.base, full, cfg.overlapMaxChars),
                   SuffixPrefixOverlap(committed, full, cfg.overlapMaxChars);
    var tail := Max(if 0 < n < |full| then |full| - n else 0, w.start);
    if w.base <= full then p == w.start
    else if AutoBaseline(cfg, w.base, full) then StartsAt(full, Min(tail, |full|), reach, p)
    else if Lcp(w.base, full) >= w.start then p == w.start
    else if Reanchor(cfg, committed, full).Some? then
      StartsAt(full, Min(Max(Reanchor(cfg, committed, full).value, w.start), |full|), reach, p)
    else if ov >= cfg.overlapMinChars && IsNoise(full[ov - 1]) then
      StartsAt(full, Min(Max(ov, w.start), |full|), reach, p)
    else if ov2 >= cfg.overlapMinChars && IsNoise(full[ov2 - 1]) then
      StartsAt(full, Min(Max(ov2, w.start), |full|), reach, p)
    else StartsAt(full, Min(tail, |full|), reach, p)
  }

  lemma TextIsTakenUp(cfg: Config, s: Seg, full: string, now: real) returns (p: nat)
    requires WindowOk(s.win) && full != ""
    ensures StandsAt(TakeIn(cfg, s, full, now).win, full, p) && TakenUp(cfg, s.win, full, p)
  {
    hide WindowOk, AutoBaseline, Lcp, Reanchor, SuffixPrefixOverlap, StartsAt, ResyncOn, Extend, StandsAt;
    assert 0 <= s.win.start <= |s.win.base| by { WindowBounds(s.win); }
    if s.win.base <= full {
      p := s.win.start;
      Continued(cfg, s, full, now);
      assert TakenUp(cfg, s.win, full, p);
    } else {
      p := ResyncOn(cfg, s.win, full).at;
      FromAt(full, p);
      Rewritten(cfg, s.win, full);
    }
  }

  lemma WindowBounds(w: Window)
    requires WindowOk(w)
    ensures 0 <= w.start <= |w.base|
  {
  }

  lemma FromAt(full: string, p: nat)
    ensures p <= |full| ==> StandsAt(BufFrom(full, p), full, p)
  {
  }

  lemma Continued(cfg: Config, s: Seg, full: string, now: real)
    requires WindowOk(s.win) && s.win.base <= full
    ensures StandsAt(TakeIn(cfg, s, full, now).win, full, s.win.start)
  {
    hide Extend, BufFrom, StandsAt, IsNormal;
    if s.win.base == [] {
      FromAt(full, 0);
    } else {
      ExtendStands(s.win, full);
    }
  }

  lemma ExtendStands(w: Window, full: string)
    requires WindowOk(w) && w.base <= full
    ensures StandsAt(Extend(w, full), full, w.start)
  {
    hide WindowOk, Run, LStrip, IsSpace, StandsAt;
    if full[|w.base|..] == [] {
      StandsStill(w, full);
    } else if w.buf == [] {
      StandsBehindBlanks(w, full);
    } else {
      SolidStands(w, full);
    }
  }

  lemma StandsStill(w: Window, full: string)
    requires WindowOk(w) && w.base <= full && full[|w.base|..] == []
    ensures StandsAt(w, full, w.start)
  {
    hide IsNormal, IsSpace;
    assert full == w.base;
  }

  lemma StandsBehindBlanks(w: Window, full: string)
    requires WindowOk(w) && w.base <= full && w.buf == []
    ensures var delta := full[|w.base|..];
            StandsAt(Window(full, LStrip(delta), w.start + Run(IsSpace, delta)), full, w.start)
  {
    hide IsNormal, IsSpace, Run, LStrip;
    assert w.start == |w.base|;
    LStripIsRest(full[|w.base|..]);
  }

  lemma SolidStands(w: Window, full: string)
    requires WindowOk(w) && w.base <= full && w.buf != ""
    ensures StandsAt(Window(full, w.buf + full[|w.base|..], w.start), full, w.start)
  {
    hide IsNormal, Run, IsSpace;
    Resumed(w.base, full, w.start);
    SolidStart(full[w.start..]);
  }

  lemma Resumed(base: string, full: string, i: nat)
    requires base <= full && i <= |base|
    ensures full[i..] == base[i..] + full[|base|..]
    ensures full[|base|..] == [] ==> full == base
  {
    assert full == base + full[|base|..];
  }

  lemma LStripIsRest(s: string)
    ensures LStrip(s) == s[Run(IsSpace, s)..]
  {
  }

  lemma SolidStart(s: string)
    requires s != "" && !IsSpace(s[0])
    ensures Run(IsSpace, s) == 0
  {
    RunIs(IsSpace, s, 0);
  }

  lemma Rewritten(cfg: Config, w: Window, full: string)
    requires 0 <= w.start <= |w.base| && full != "" && !(w.base <= full)
    ensures var p := ResyncOn(cfg, w, full).at; p <= |full| && TakenUp(cfg, w, full, p)
  {
    hide AutoBaseline, Lcp, Reanchor, SuffixPrefixOverlap, AdvanceToBoundary, StartsAt, TailWindowStart, IsNoise;
    TailMeans(cfg, full, w.start);
    var committed := w.base[..w.start];
    var ov, ov2 := SuffixPrefixOverlap(w.base, full, cfg.overlapMaxChars),
                   SuffixPrefixOverlap(committed, full, cfg.overlapMaxChars);
    AdvanceMeans(full, Max(ov, w.start), cfg.reanchorAdvanceMax);
    AdvanceMeans(full, Max(ov2, w.start), cfg.reanchorAdvanceMax);
    LcpInside(w.base, full);
    if Reanchor(cfg, committed, full).Some? {
      AdvanceMeans(full, Max(Reanchor(cfg, committed, full).value, w.start), cfg.reanchorAdvanceMax);
    }
  }

  lemma LcpInside(a: string, b: string)
    ensures Lcp(a, b) <= |b|
  {
  }

  // ---- truncations and anchors ----

  /** A text is taken for a truncated one if it carries an ellipsis, as a mark anywhere or as three dots at its end,
      or if the last one was long and it is shorter by more than the ratio. */
  lemma TruncationMeans(cfg: Config, old_: string, new_: string)
    requires cfg.autoTruncRatio >= 0.0
    ensures AutoBaseline(cfg, old_, new_)
            <==> && old_ != "" && new_ != ""
                 && (|| (cfg.autoOnEllipsis
                         && (|| (exists i :: 0 <= i < |new_| && new_[i] == '\U{2026}')
                             || (|new_| >= 3 && new_[|new_| - 3..] == "...")))
                     || (cfg.autoOnTrunc && |old_| >= cfg.autoMinOldLen
                         && |new_| as real + 1.0 <= |old_| as real * cfg.autoTruncRatio))
  {
    RatioNotNegative(|old_|, cfg.autoTruncRatio);
  }

  lemma RatioNotNegative(n: nat, r: real)
    requires r >= 0.0
    ensures n as real * r >= 0.0
  {
  }

  /** A rewrite clears the beat's gate exactly when it is taken for a truncation or re-anchored. */
  lemma WhenCleared(cfg: Config, w: Window, full: string)
    requires 0 <= w.start <= |w.base|
    ensures ResyncOn(cfg, w, full).clearSafe
            <==> AutoBaseline(cfg, w.base, full)
                 || (Lcp(w.base, full) < w.start && Reanchor(cfg, w.base[..w.start], full).Some?)
  {
    hide AutoBaseline, Lcp, Reanchor, SuffixPrefixOverlap, TailWindowStart, AnchoredAt, OverlapUsable;
  }

  /** `pat` stands in `s` behind `k` characters. */
  lemma OccursMeans(s: string, pat: string, k: int)
    ensures OccursAt(s, pat, k) <==> exists a, b :: s == a + pat + b && |a| == k
  {
    if OccursAt(s, pat, k) {
      assert s == s[..k] + pat + s[k + |pat|..];
    }
    forall a, b | s == a + pat + b && |a| == k ensures OccursAt(s, pat, k) {
      assert (a + pat + b)[k..k + |pat|] == pat;
    }
  }

  lemma WordsMatchMeans(old_: seq<string>, new_: seq<string>, n: nat, i: int)
    ensures WordsMatchAt(old_, new_, n, i)
            <==> && n <= |old_| && 0 <= i <= |new_| - n
                 && forall k :: i <= k < i + n ==> new_[k] == old_[|old_| - n + k - i]
  {
    if n <= |old_| && 0 <= i <= |new_| - n {
      var a, b := new_[i..i + n], old_[|old_| - n..];
      assert forall k :: i <= k < i + n ==> new_[k] == a[k - i] && old_[|old_| - n + k - i] == b[k - i];
      assert forall j :: 0 <= j < n ==> a[j] == new_[j + i];
    }
  }

  /** How long a tail of the committed text is looked for first. */
  function TailWanted(cfg: Config, committed: string): int {
    Min(Min(cfg.reanchorMaxTail, |committed|), cfg.overlapMaxChars)
  }

  /** The other lengths that are tried, none longer than that. */
  predicate Tried(cfg: Config, committed: string, n: int) {
    var most := TailWanted(cfg, committed);
    && n >= Min(cfg.reanchorMinTail, most)
    && (n == most || exists k :: k in {140, 120, 100, 80, 60, 50, 40} && n == Min(most, k))
  }

  /** The text repeats the last `n` characters of the committed one. */
  predicate Repeats(committed: string, full: string, n: int, pos: int) {
    1 <= n <= |committed| && OccursAt(full, committed[|committed| - n..], pos)
  }

  predicate Falls(ns: seq<int>) {
    forall i, j :: 0 <= i < j < |ns| ==> ns[i] > ns[j]
  }

  lemma {:induction false} TailLengthsAre(wanted: seq<int>, most: int, least: int, soFar: seq<int>)
    requires (forall i, j :: 0 <= i < j < |wanted| ==> wanted[i] >= wanted[j]) && Falls(soFar)
    requires forall i, j :: 0 <= i < |soFar| && 0 <= j < |wanted| ==> soFar[i] >= Min(most, wanted[j])
    ensures var ns := TailLengths(wanted, most, least, soFar);
            && Falls(ns)
            && forall n :: n in ns <==> n in soFar || (n >= least && exists k :: k in wanted && n == Min(most, k))
    decreases |wanted|
  {
    if wanted != [] {
      var k := Min(most, wanted[0]);
      var now := if k >= least && k !in soFar then soFar + [k] else soFar;
      assert forall j :: 0 <= j < |wanted[1..]| ==> wanted[1..][j] == wanted[j + 1];
      TailLengthsAre(wanted[1..], most, least, now);
      assert wanted == [wanted[0]] + wanted[1..];
    }
  }

  /** The lengths tried, longest first. */
  lemma LengthsTried(cfg: Config, committed: string) returns (ns: seq<int>)
    ensures var most := TailWanted(cfg, committed);
            ns == TailLengths([most] + TAIL_WISHES, most, Min(cfg.reanchorMinTail, most), [])
    ensures Falls(ns) && forall n :: n in ns <==> Tried(cfg, committed, n)
  {
    var most := TailWanted(cfg, committed);
    var least, first := Min(cfg.reanchorMinTail, most), [most];
    ns := TailLengths(TAIL_WISHES, most, least, first);
    assert [] + [most] == first && ([most] + TAIL_WISHES)[1..] == TAIL_WISHES;
    assert ns == TailLengths([most] + TAIL_WISHES, most, least, []);
    TailLengthsAre(TAIL_WISHES, most, least, first);
  }

  lemma {:induction false} LongestRepeated(committed: string, full: string, ns: seq<int>, n: int, pos: int)
    requires Falls(ns) && n in ns && Repeats(committed, full, n, pos)
    requires forall k :: Repeats(committed, full, n, k) ==> k <= pos
    requires forall m, k :: m in ns && m > n ==> !Repeats(committed, full, m, k)
    ensures TailMatch(committed, full, ns) == Some(pos + n)
    decreases |ns|
  {
    hide OccursAt;
    if 1 <= ns[0] <= |committed| {
      FoundLast(committed, full, ns[0], pos);
    }
    if n != ns[0] {
      LongestRepeated(committed, full, ns[1..], n, pos);
    }
  }

  lemma FoundLast(committed: string, full: string, n: int, pos: int)
    requires 1 <= n <= |committed|
    ensures (forall k :: !Repeats(committed, full, n, k)) ==> RFind(full, committed[|committed| - n..]) == -1
    ensures Repeats(committed, full, n, pos) && (forall k :: Repeats(committed, full, n, k) ==> k <= pos) ==>
              RFind(full, committed[|committed| - n..]) == pos >= 0
  {
    var tail := committed[|committed| - n..];
    assert forall k :: OccursAt(full, tail, k) ==> Repeats(committed, full, n, k) && 0 <= k <= |full| - |tail|;
  }

  lemma {:induction false} NothingRepeated(committed: string, full: string, ns: seq<int>)
    requires forall m, k :: m in ns ==> !Repeats(committed, full, m, k)
    ensures TailMatch(committed, full, ns) == None
    decreases |ns|
  {
    hide OccursAt;
    if ns != [] {
      if 1 <= ns[0] <= |committed| {
        FoundLast(committed, full, ns[0], 0);
      }
      NothingRepeated(committed, full, ns[1..]);
    }
  }

  predicate Anchorable(cfg: Config, committed: string, full: string) {
    && cfg.reanchorEnable && Strip(committed) == committed && Strip(full) == full
    && |committed| >= cfg.reanchorMinCommitted && |full| >= cfg.reanchorMinTail
  }

  /** The anchor is behind the last place where the new text repeats the longest tail that it repeats at all, of those
      that are tried. */
  lemma TailIsFound(cfg: Config, committed: string, full: string, n: int, pos: int)
    requires Anchorable(cfg, committed, full) && Tried(cfg, committed, n) && Repeats(committed, full, n, pos)
    requires forall k :: Repeats(committed, full, n, k) ==> k <= pos
    requires forall m, k :: Tried(cfg, committed, m) && m > n ==> !Repeats(committed, full, m, k)
    ensures Reanchor(cfg, committed, full) == Some(AdvanceToBoundary(full, pos + n, cfg.reanchorAdvanceMax))
  {
    hide Strip, AdvanceToBoundary, CleanWords, WordMatch, Repeats, Tried;
    var ns := LengthsTried(cfg, committed);
    hide TailLengths, Falls;
    LongestRepeated(committed, full, ns, n, pos);
  }

  lemma RunFound(old_: seq<string>, new_: seq<string>, n: nat, i: int)
    ensures WordsMatchAt(old_, new_, n, i) && (forall k :: WordsMatchAt(old_, new_, n, k) ==> k <= i) ==>
              |old_| >= n && 0 <= i <= |new_| - n && WordsFindFrom(old_, new_, n, |new_| - n) == i
    ensures (forall k :: !WordsMatchAt(old_, new_, n, k)) ==> WordsFindFrom(old_, new_, n, |new_| - n) == -1
  {
  }

  lemma {:induction false} LongestRun(old_: CleanText, new_: CleanText, runs: seq<nat>, n: nat, i: int)
    requires |new_.words| == |new_.ends| && (forall j :: 0 <= j < |runs| ==> runs[j] >= 1)
    requires (forall j, k :: 0 <= j < k < |runs| ==> runs[j] > runs[k]) && n in runs
    requires WordsMatchAt(old_.words, new_.words, n, i)
    requires forall k :: WordsMatchAt(old_.words, new_.words, n, k) ==> k <= i
    requires forall m, k :: m in runs && m > n ==> !WordsMatchAt(old_.words, new_.words, m, k)
    ensures 0 <= i <= |new_.ends| - n && WordMatch(old_, new_, runs) == Some(new_.ends[i + n - 1])
    decreases |runs|
  {
    hide WordsMatchAt, WordsFindFrom;
    RunFound(old_.words, new_.words, runs[0], i);
    RunFound(old_.words, new_.words, n, i);
    if n != runs[0] {
      LongestRun(old_, new_, runs[1..], n, i);
    }
  }

  lemma {:induction false} NoRun(old_: CleanText, new_: CleanText, runs: seq<nat>)
    requires |new_.words| == |new_.ends| && forall j :: 0 <= j < |runs| ==> runs[j] >= 1
    requires forall m, k :: m in runs ==> !WordsMatchAt(old_.words, new_.words, m, k)
    ensures WordMatch(old_, new_, runs) == None
    decreases |runs|
  {
    hide WordsMatchAt, WordsFindFrom;
    if runs != [] {
      RunFound(old_.words, new_.words, runs[0], 0);
      NoRun(old_, new_, runs[1..]);
    }
  }

  /** The numbers of last words that are looked for. */
  predicate IsRun(n: nat) {
    n in {16, 14, 12, 10, 8, 7, 6}
  }

  lemma RunsAre()
    ensures forall n: nat :: IsRun(n) <==> n in WORD_RUNS
    ensures (forall j, k :: 0 <= j < k < |WORD_RUNS| ==> WORD_RUNS[j] > WORD_RUNS[k])
    ensures forall j :: 0 <= j < |WORD_RUNS| ==> WORD_RUNS[j] >= 1
  {
  }

  /** If it repeats no tail that is tried, the anchor is behind the last place where it repeats the longest run of last
      words, of those that are looked for; and without such a run there is none. */
  lemma WordsAreFound(cfg: Config, committed: string, full: string)
    requires Anchorable(cfg, committed, full)
    requires forall m, k :: Tried(cfg, committed, m) ==> !Repeats(committed, full, m, k)
    ensures var old_, new_ := CleanWords(committed, 0), CleanWords(full, 0);
            && (NoRunStands(old_.words, new_.words) ==> Reanchor(cfg, committed, full) == None)
            && forall n: nat, i :: IsRun(n) && LastLongest(old_.words, new_.words, n, i) ==>
                 0 <= i <= |new_.ends| - n && n >= 1
                 && Reanchor(cfg, committed, full)
                    == Some(AdvanceToBoundary(full, new_.ends[i + n - 1], cfg.reanchorAdvanceMax))
  {
    hide Strip, AdvanceToBoundary, CleanWords, WordMatch, Repeats, Tried, IsRun, LastLongest, TailMatch, WordsMatchAt;
    var ns := LengthsTried(cfg, committed);
    hide TailLengths, Falls;
    NothingRepeated(committed, full, ns);
    var old_, new_ := CleanWords(committed, 0), CleanWords(full, 0);
    RunsAre();
    hide WORD_RUNS;
    if NoRunStands(old_.words, new_.words) {
      NoRun(old_, new_, WORD_RUNS);
    }
    forall n: nat, i | IsRun(n) && LastLongest(old_.words, new_.words, n, i)
      ensures n >= 1 && 0 <= i <= |new_.ends| - n && WordMatch(old_, new_, WORD_RUNS) == Some(new_.ends[i + n - 1])
    {
      LongestRuns(old_, new_, n, i);
    }
  }

  ghost predicate NoRunStands(old_: seq<string>, new_: seq<string>) {
    forall n: nat, i :: IsRun(n) ==> !WordsMatchAt(old_, new_, n, i)
  }

  /** `i` is the last place of a run of `n` words, and no longer run stands anywhere. */
  ghost predicate LastLongest(old_: seq<string>, new_: seq<string>, n: nat, i: int) {
    && WordsMatchAt(old_, new_, n, i) && (forall k :: WordsMatchAt(old_, new_, n, k) ==> k <= i)
    && forall m: nat, k :: IsRun(m) && m > n ==> !WordsMatchAt(old_, new_, m, k)
  }

  lemma LongestRuns(old_: CleanText, new_: CleanText, n: nat, i: int)
    requires |new_.words| == |new_.ends| && IsRun(n) && LastLongest(old_.words, new_.words, n, i)
    ensures n >= 1 && 0 <= i <= |new_.ends| - n && WordMatch(old_, new_, WORD_RUNS) == Some(new_.ends[i + n - 1])
  {
    hide WordsMatchAt, IsRun, WordMatch;
    RunsAre();
    LongestRun(old_, new_, WORD_RUNS, n, i);
  }

  /** `b..e` is a word of `s` behind `from`. */
  predicate WordAt(s: string, from: int, b: int, e: int) {
    0 <= from <= b < e <= |s| && IsWord(s[b..e]) && (b == from || IsSpace(s[b - 1])) && (e == |s| || IsSpace(s[e]))
  }

  ghost predicate MadeOf(s: string, from: int, e: int, w: string) {
    exists b :: WordAt(s, from, b, e) && w == LOWER(TrimPunct(s[b..e]))
  }

  ghost predicate EndsAreOf(s: string, from: int, r: CleanText) {
    && |r.words| == |r.ends| && (forall i, j :: 0 <= i < j < |r.ends| ==> r.ends[i] < r.ends[j])
    && forall i :: 0 <= i < |r.ends| ==> MadeOf(s, from, r.ends[i], r.words[i])
  }

  /** Each clean word comes with the end of the word that it was made of. */
  lemma {:induction false} CleanEndsAre(s: string, from: nat)
    requires from <= |s|
    ensures EndsAreOf(s, from, CleanWords(s, from))
    decreases |s| - from
  {
    hide TrimPunct, Run, IsSpace, CleanWords, FirstWordEnd, WordAt, MadeOf, EndsAreOf;
    var t := s[from..];
    var b := Run(IsSpace, t);
    if b == |t| {
      CleanNothing(s, from);
      NoEnds(s, from);
    } else {
      var d := b + Run(IsNonSpace, t[b..]);
      WordsFrom(t, b, d);
      WordEndsAt(t);
      CleanStep(s, from, b, d);
      CleanEndsAre(s, from + d);
      FirstWordAt(s, from, b, d);
      LaterEnds(s, from, d, CleanWords(s, from + d));
      assert s[from + b..from + d] == t[b..d];
      OneMoreEnd(s, from, from + d, LOWER(TrimPunct(t[b..d])), CleanWords(s, from + d));
    }
  }

  lemma NoEnds(s: string, from: nat)
    ensures EndsAreOf(s, from, CleanText([], []))
  {
  }

  lemma FirstWordAt(s: string, from: nat, b: nat, d: nat)
    requires from <= |s| && b == Run(IsSpace, s[from..]) < d <= |s| - from && IsWord(s[from..][b..d])
    requires from + d == |s| || IsSpace(s[from..][d])
    ensures MadeOf(s, from, from + d, LOWER(TrimPunct(s[from..][b..d])))
  {
    hide IsSpace, TrimPunct;
    assert s[from..][b..d] == s[from + b..from + d];
    assert b > 0 ==> s[from..][b - 1] == s[from + b - 1];
    assert from + d < |s| ==> s[from..][d] == s[from + d];
    assert WordAt(s, from, from + b, from + d);
  }

  lemma LaterEnds(s: string, from: nat, d: nat, r: CleanText)
    requires 0 < d <= |s| - from && (from + d == |s| || IsSpace(s[from..][d])) && EndsAreOf(s, from + d, r)
    ensures EndsAreOf(s, from, r) && forall i :: 0 <= i < |r.ends| ==> r.ends[i] > from + d
  {
    hide IsSpace, TrimPunct, IsWord;
    forall i | 0 <= i < |r.ends| ensures MadeOf(s, from, r.ends[i], r.words[i]) && r.ends[i] > from + d {
      assert MadeOf(s, from + d, r.ends[i], r.words[i]);
      var b :| WordAt(s, from + d, b, r.ends[i]) && r.words[i] == LOWER(TrimPunct(s[b..r.ends[i]]));
      LaterWord(s, from, d, b, r.ends[i]);
    }
  }

  lemma LaterWord(s: string, from: nat, d: nat, b: int, e: int)
    requires 0 < d <= |s| - from && (from + d == |s| || IsSpace(s[from..][d])) && WordAt(s, from + d, b, e)
    ensures WordAt(s, from, b, e) && e > from + d
  {
    hide IsSpace;
    assert s[b..e][0] == s[b];
    assert from + d < |s| ==> s[from..][d] == s[from + d];
  }

  lemma OneMoreEnd(s: string, from: nat, e: nat, w: string, rest: CleanText)
    requires MadeOf(s, from, e, w) && EndsAreOf(s, from, rest) && forall i :: 0 <= i < |rest.ends| ==> rest.ends[i] > e
    ensures EndsAreOf(s, from, CleanText([w] + rest.words, [e] + rest.ends))
  {
    hide MadeOf;
  }

  function Cleaned(ws: seq<string>): seq<string>
    decreases |ws|
  {
    if ws == [] then []
    else (if LOWER(TrimPunct(ws[0])) == "" then [] else [LOWER(TrimPunct(ws[0]))]) + Cleaned(ws[1..])
  }

  /** The clean words are the words of the text without the marks around them, in lower case, those left empty left
      out. */
  lemma {:induction false} CleanWordsAre(s: string, from: nat)
    requires from <= |s|
    ensures CleanWords(s, from).words == Cleaned(WordList(s[from..]))
    decreases |s| - from
  {
    hide TrimPunct, Run, IsSpace, CleanWords, WordList, FirstWordEnd;
    var t := s[from..];
    var b := Run(IsSpace, t);
    NoWords(t);
    if b == |t| {
      CleanNothing(s, from);
    } else {
      var d := b + Run(IsNonSpace, t[b..]);
      WordsFrom(t, b, d);
      WordListStep(t, b, d);
      WordEndsAt(t);
      CleanStep(s, from, b, d);
      assert s[from + d..] == t[d..];
      CleanWordsAre(s, from + d);
      assert ([t[b..d]] + WordList(t[d..]))[1..] == WordList(t[d..]);
    }
  }

  lemma CleanNothing(s: string, from: nat)
    requires from <= |s| && Run(IsSpace, s[from..]) == |s| - from
    ensures CleanWords(s, from) == CleanText([], [])
  {
    hide Run;
    BlankToEnd(s, from);
  }

  lemma CleanStep(s: string, from: nat, b: nat, d: nat)
    requires from <= |s| && b == Run(IsSpace, s[from..]) < d <= |s| - from
    requires FirstWordEnd(s[from..]) == d && IsWord(s[from..][b..d])
    ensures var w, rest := LOWER(TrimPunct(s[from..][b..d])), CleanWords(s, from + d);
            CleanWords(s, from) == if w == "" then rest else CleanText([w] + rest.words, [from + d] + rest.ends)
  {
    hide TrimPunct, Run, IsSpace, FirstWordEnd, LStrip;
    var t := s[from..];
    assert s[from..from + d] == t[..d];
    FirstWordLifted(t, b, d);
  }

  lemma WordEndsAt(t: string)
    ensures FirstWordEnd(t) == Run(IsSpace, t) + Run(IsNonSpace, t[Run(IsSpace, t)..])
  {
  }

  lemma BlankToEnd(s: string, from: nat)
    requires from <= |s| && Run(IsSpace, s[from..]) == |s| - from
    ensures IsBlank(s[from..]) && s[from..|s|] == s[from..] && FirstWordEnd(s[from..]) == |s| - from
  {
  }

  lemma FirstWordLifted(t: string, b: nat, d: nat)
    requires b == Run(IsSpace, t) < d <= |t| && IsWord(t[b..d])
    ensures LStrip(t[..d]) == t[b..d] && !IsBlank(t[..d])
  {
    hide IsSpace;
    assert t[b..d][0] == t[b] && t[..d][b] == t[b];
    RunIs(IsSpace, t[..d], b);
  }

  /** What is trimmed off the ends of a word. */
  predicate IsOffEnd(c: char) {
    c in {' ', ',', '.', ';', ':', '!', '?', '\U{2026}', '"', '\'', '(', ')', '[', ']', '{', '}', '<', '>',
          '\U{201C}', '\U{201D}', '\U{2018}', '\U{2019}'}
  }

  lemma SameOffEnds()
    ensures forall c: char :: IsStripPunct(c) <==> IsOffEnd(c)
  {
  }

  /** Trimming takes these off both ends and nothing else. */
  lemma {:induction false} TrimPunctIs(s: string) returns (lo: nat, hi: nat)
    ensures lo <= hi <= |s| && TrimPunct(s) == s[lo..hi]
    ensures forall i :: 0 <= i < lo || hi <= i < |s| ==> IsOffEnd(s[i])
    ensures lo < hi ==> !IsOffEnd(s[lo]) && !IsOffEnd(s[hi - 1])
    decreases |s|
  {
    SameOffEnds();
    hide IsStripPunct, IsOffEnd;
    if s == [] {
      lo, hi := 0, 0;
    } else if IsStripPunct(s[0]) {
      lo, hi := TrimPunctIs(s[1..]);
      assert forall i :: 1 <= i < |s| ==> s[i] == s[1..][i - 1];
      lo, hi := lo + 1, hi + 1;
    } else if IsStripPunct(s[|s| - 1]) {
      lo, hi := TrimPunctIs(s[..|s| - 1]);
      assert forall i :: 0 <= i < |s| - 1 ==> s[i] == s[..|s| - 1][i];
    } else {
      lo, hi := 0, |s|;
    }
  }
}
