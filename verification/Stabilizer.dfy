/** The server's transcript stabiliser: mostly appends, and rewrites near the end only after repetition. */
module Stabilizer {
  import opened Text
  import opened Normal
  import opened Cuts

  datatype RawConfig = RawConfig(
    confirmN: int, maxRollback: int, minInterval: int, ignoreShrink: bool, allowPunctStrip: bool)

  /** The constructor clamps its numbers. */
  function Clamp(c: RawConfig): (r: RawConfig)
    ensures r.confirmN >= 1 && r.maxRollback >= 0 && r.minInterval >= 0
    ensures c.confirmN >= 1 && c.maxRollback >= 0 && c.minInterval >= 0 ==> r == c
    ensures (c.confirmN < 1 ==> r.confirmN == 1) && (c.maxRollback < 0 ==> r.maxRollback == 0)
    ensures (c.minInterval < 0 ==> r.minInterval == 0)
  {
    c.(confirmN := Max(1, c.confirmN), maxRollback := Max(0, c.maxRollback), minInterval := Max(0, c.minInterval))
  }

  type Config = c: RawConfig | c.confirmN >= 1 && c.maxRollback >= 0 && c.minInterval >= 0
    witness RawConfig(2, 18, 120, true, true)

  datatype Action = Append | Rewrite | Ignore | Noop

  datatype Stab = Stab(shown: string, pending: Option<string>, pendingCount: nat, lastRewriteMs: int)

  function Fresh(shown: string): Stab {
    Stab(JoinWords(shown), None, 0, 0)
  }

  predicate IsTrailMark(c: char) {
    c in " \t\r\n.,!?;:"
  }

  /** `s.rstrip(" \t\r\n.,!?;:")`. */
  function StripTrail(s: string): (r: string)
    ensures r <= s
    ensures forall i :: |r| <= i < |s| ==> IsTrailMark(s[i])
  {
    if s == [] || !IsTrailMark(s[|s| - 1]) then s else StripTrail(s[..|s| - 1])
  }

  datatype Decision = Decision(action: Action, next: Stab, rollback: nat)

  function Rollback(shown: string, raw: string): (r: nat)
    ensures r <= |shown|
  {
    |shown| - Lcp(shown, raw)
  }

  predicate IsShrink(cfg: Config, shown: string, raw: string) {
    cfg.ignoreShrink && |raw| < |shown| && raw <= shown
  }

  predicate IsTolerantAppend(cfg: Config, shown: string, raw: string) {
    cfg.allowPunctStrip && StripTrail(shown) <= StripTrail(raw) && |raw| > |shown|
  }

  function Counted(st: Stab, raw: string): (r: Stab)
    ensures r.pending == Some(raw) && r.pendingCount >= 1 && r.shown == st.shown && r.lastRewriteMs == st.lastRewriteMs
  {
    if st.pending == Some(raw) then st.(pendingCount := st.pendingCount + 1)
    else st.(pending := Some(raw), pendingCount := 1)
  }

  function Update(cfg: Config, st: Stab, rawText: string, now: int): Decision {
    var raw := JoinWords(rawText);
    if raw == st.shown then Decision(Noop, st, 0)
    else if IsShrink(cfg, st.shown, raw) then Decision(Ignore, st, |st.shown| - |raw|)
    else if (st.shown <= raw && |raw| > |st.shown|) || IsTolerantAppend(cfg, st.shown, raw) then
      Decision(Append, Stab(raw, None, 0, st.lastRewriteMs), 0)
    else
      var back := Rollback(st.shown, raw);
      if back > cfg.maxRollback || now - st.lastRewriteMs < cfg.minInterval then Decision(Ignore, st, back)
      else
        var c := Counted(st, raw);
        if c.pendingCount >= cfg.confirmN then Decision(Rewrite, Stab(raw, None, 0, now), back)
        else Decision(Ignore, c, back)
  }

  class TranscriptStabilizer {
    const cfg: Config
    var shown: string
    var pending: Option<string>
    var pendingCount: nat
    var lastRewriteMs: int

    ghost function State(): Stab
      reads this
    {
      Stab(shown, pending, pendingCount, lastRewriteMs)
    }

    constructor (c: RawConfig)
      ensures cfg == Clamp(c) && State() == Stab("", None, 0, 0)
    {
      cfg := Clamp(c);
      shown, pending, pendingCount, lastRewriteMs := "", None, 0, 0;
    }

    method Reset(text: string)
      modifies this
      ensures State() == Fresh(text)
    {
      shown, pending, pendingCount, lastRewriteMs := JoinWords(text), None, 0, 0;
    }

    method Step(rawText: string, now: int) returns (action: Action, rollback: nat)
      modifies this
      ensures Decision(action, State(), rollback) == Update(cfg, old(State()), rawText, now)
    {
      hide JoinWords, StripTrail, Lcp;
      var raw := JoinWords(rawText);
      if raw == shown {
        return Noop, 0;
      }
      if cfg.ignoreShrink && |raw| < |shown| && raw <= shown {
        return Ignore, |shown| - |raw|;
      }
      if shown <= raw && |raw| > |shown| {
        shown, pending, pendingCount := raw, None, 0;
        return Append, 0;
      }
      if cfg.allowPunctStrip {
        var coreShown, coreRaw := StripTrail(shown), StripTrail(raw);
        if coreShown <= coreRaw && |raw| > |shown| {
          shown, pending, pendingCount := raw, None, 0;
          return Append, 0;
        }
      }
      var c := LcpLen(shown, raw);
      var back := |shown| - c;
      if back > cfg.maxRollback {
        return Ignore, back;
      }
      if now - lastRewriteMs < cfg.minInterval {
        return Ignore, back;
      }
      if pending == Some(raw) {
        pendingCount := pendingCount + 1;
      } else {
        pending, pendingCount := Some(raw), 1;
      }
      if pendingCount >= cfg.confirmN {
        shown, lastRewriteMs, pending, pendingCount := raw, now, None, 0;
        return Rewrite, back;
      }
      return Ignore, back;
    }
  }

  // ---- one update ----

  /** Each update leaves the shown text alone, extends it, replaces only trailing marks while it grows, or rewrites a
      bounded number of characters from the end; and it says which. */
  lemma UpdateKinds(cfg: Config, st: Stab, rawText: string, now: int)
    ensures var d, new_, old_ := Update(cfg, st, rawText, now), Update(cfg, st, rawText, now).next.shown, st.shown;
            match d.action
            case Noop => new_ == old_ && d.next == st
            case Ignore => new_ == old_
            case Append =>
              && |new_| > |old_|
              && (old_ <= new_
                  || (&& Lcp(old_, new_) >= |StripTrail(old_)|
                      && forall i :: Lcp(old_, new_) <= i < |old_| ==> IsTrailMark(old_[i])))
            case Rewrite =>
              && new_ == JoinWords(rawText) != old_ && !(old_ <= new_)
              && Rollback(old_, new_) <= cfg.maxRollback
              && d.rollback == Rollback(old_, new_)
              && now - st.lastRewriteMs >= cfg.minInterval
              && d.next.lastRewriteMs == now
              && !IsShrink(cfg, old_, new_)
  {
    hide JoinWords;
    var raw := JoinWords(rawText);
    if IsTolerantAppend(cfg, st.shown, raw) {
      var core := StripTrail(st.shown);
      LcpAtLeast(st.shown, raw, |core|);
    }
  }

  lemma {:induction false} LcpAtLeast(a: string, b: string, n: nat)
    requires n <= |a| && a[..n] <= b
    ensures Lcp(a, b) >= n
  {
  }

  // ---- which action, exactly ----

  /** `core` is `s` without the marks and blanks at its end. */
  predicate IsCore(core: string, s: string) {
    && core <= s
    && (forall i :: |core| <= i < |s| ==> EndsLoosely(s[i]))
    && (core != "" ==> !EndsLoosely(core[|core| - 1]))
  }

  predicate EndsLoosely(c: char) {
    || c == ' ' || c == '\t' || c == '\r' || c == '\n'
    || c == '.' || c == ',' || c == '!' || c == '?' || c == ';' || c == ':'
  }

  /** The new text is longer and goes on where the shown one stands, or, if that is allowed, where it stands without the
      marks and blanks at its end, the new one's own left aside. */
  ghost predicate GoesOn(cfg: Config, shown: string, raw: string) {
    && |raw| > |shown|
    && (shown <= raw || (cfg.allowPunctStrip && exists a, b :: IsCore(a, shown) && IsCore(b, raw) && a <= b))
  }

  /** The texts agree up to the last `n` characters of the shown one. */
  predicate AgreesUpTo(shown: string, raw: string, n: int) {
    |shown| <= n || shown[..|shown| - Max(0, n)] <= raw
  }

  lemma CoreIs(core: string, s: string)
    ensures IsCore(core, s) <==> core == StripTrail(s)
  {
    StripTrailIsCore(s);
    if IsCore(core, s) {
      CoresAgree(core, StripTrail(s), s);
      CoresAgree(StripTrail(s), core, s);
    }
  }

  lemma CoresAgree(a: string, b: string, s: string)
    requires IsCore(a, s) && IsCore(b, s)
    ensures |a| >= |b| && a[..|b|] == b
  {
    assert b != [] ==> b[|b| - 1] == s[|b| - 1];
  }

  lemma {:induction false} StripTrailIsCore(s: string)
    ensures IsCore(StripTrail(s), s)
  {
    if s != [] && IsTrailMark(s[|s| - 1]) {
      StripTrailIsCore(s[..|s| - 1]);
    }
  }

  lemma GoesOnIff(cfg: Config, shown: string, raw: string)
    ensures GoesOn(cfg, shown, raw)
            <==> (shown <= raw && |raw| > |shown|) || IsTolerantAppend(cfg, shown, raw)
  {
    hide StripTrail, IsCore;
    CoreIs(StripTrail(shown), shown);
    CoreIs(StripTrail(raw), raw);
    forall a, b | IsCore(a, shown) && IsCore(b, raw) ensures a == StripTrail(shown) && b == StripTrail(raw) {
      CoreIs(a, shown);
      CoreIs(b, raw);
    }
  }

  lemma RollbackIs(shown: string, raw: string, n: nat)
    ensures Rollback(shown, raw) <= n <==> AgreesUpTo(shown, raw, n)
  {
    var k := Lcp(shown, raw);
    if |shown| > n && shown[..|shown| - n] <= raw {
      LcpAtLeast(shown, raw, |shown| - n);
    }
    if |shown| - k <= n < |shown| {
      assert shown[..|shown| - n] == shown[..k][..|shown| - n] == raw[..k][..|shown| - n];
    }
  }

  /** When each of the four actions is taken, and what it leaves. A longer text that goes on where the shown one
      stands is always taken over; a shorter beginning of it is not, if shrinking is ignored; and any other change
      waits until it is near the end, late enough and repeated often enough. */
  lemma ActionsExactly(cfg: Config, st: Stab, rawText: string, now: int)
    ensures var raw, d := JoinWords(rawText), Update(cfg, st, rawText, now);
            var count := if st.pending == Some(raw) then st.pendingCount + 1 else 1;
            var candidate := && raw != st.shown && !GoesOn(cfg, st.shown, raw) && !(cfg.ignoreShrink && raw <= st.shown)
                             && AgreesUpTo(st.shown, raw, cfg.maxRollback)
                             && now - st.lastRewriteMs >= cfg.minInterval;
            && (d.action.Noop? <==> raw == st.shown)
            && (d.action.Append? <==> GoesOn(cfg, st.shown, raw))
            && (d.action.Rewrite? <==> candidate && count >= cfg.confirmN)
            && (d.action.Append? ==> d.next == Stab(raw, None, 0, st.lastRewriteMs))
            && (d.action.Rewrite? ==> d.next == Stab(raw, None, 0, now))
            && (d.action.Ignore? && candidate ==> d.next == Stab(st.shown, Some(raw), count, st.lastRewriteMs))
            && (d.action.Noop? || (d.action.Ignore? && !candidate) ==> d.next == st)
  {
    hide JoinWords, GoesOn, AgreesUpTo, IsTolerantAppend, Rollback;
    var raw := JoinWords(rawText);
    GoesOnIff(cfg, st.shown, raw);
    RollbackIs(st.shown, raw, cfg.maxRollback);
    LongerIfOn(cfg, st.shown, raw);
  }

  lemma LongerIfOn(cfg: Config, shown: string, raw: string)
    ensures GoesOn(cfg, shown, raw) ==> |raw| > |shown|
  {
  }

  /** The number that comes with an action: none for what is taken over or equal, else how many characters at the end
      of the shown text would have to go. */
  lemma RollbackSays(cfg: Config, st: Stab, rawText: string, now: int)
    ensures var raw, d := JoinWords(rawText), Update(cfg, st, rawText, now);
            if d.action.Noop? || d.action.Append? then d.rollback == 0
            else forall n: nat :: AgreesUpTo(st.shown, raw, n) <==> n >= d.rollback
  {
    hide JoinWords, AgreesUpTo, IsTolerantAppend, Rollback;
    var raw := JoinWords(rawText);
    forall n: nat ensures Rollback(st.shown, raw) <= n <==> AgreesUpTo(st.shown, raw, n) {
      RollbackIs(st.shown, raw, n);
    }
    if raw <= st.shown {
      ShrinkIs(st.shown, raw);
    }
  }

  lemma ShrinkIs(shown: string, raw: string)
    requires raw <= shown
    ensures Rollback(shown, raw) == |shown| - |raw|
  {
    LcpAtLeast(shown, raw, |raw|);
  }

  // ---- whole runs ----

  datatype Input = Input(text: string, now: int)

  /** The state after each input, starting from `st`. */
  function Run(cfg: Config, st: Stab, xs: seq<Input>): Stab
    decreases |xs|
  {
    if xs == [] then st else Run(cfg, Update(cfg, st, xs[0].text, xs[0].now).next, xs[1..])
  }

  function Texts(xs: seq<Input>): (r: seq<string>)
    ensures |r| == |xs|
    decreases |xs|
  {
    if xs == [] then [] else [JoinWords(xs[0].text)] + Texts(xs[1..])
  }

  /** A text that only grows is always shown as it is. */
  lemma {:induction false} GrowingIsShown(cfg: Config, st: Stab, xs: seq<Input>)
    requires Growing(st.shown, Texts(xs))
    ensures Run(cfg, st, xs).shown == if xs == [] then st.shown else JoinWords(xs[|xs| - 1].text)
    decreases |xs|
  {
    hide JoinWords, Update, GoesOn;
    if xs != [] {
      var x, raw := xs[0], JoinWords(xs[0].text);
      assert Texts(xs)[1..] == Texts(xs[1..]);
      ActionsExactly(cfg, st, x.text, x.now);
      if raw != st.shown {
        ProperlyGoesOn(cfg, st.shown, raw);
      }
      GrowingIsShown(cfg, Update(cfg, st, x.text, x.now).next, xs[1..]);
    }
  }

  lemma ProperlyGoesOn(cfg: Config, shown: string, raw: string)
    requires shown <= raw && raw != shown
    ensures GoesOn(cfg, shown, raw)
  {
  }

  predicate ClockOk(from: int, xs: seq<Input>)
    decreases |xs|
  {
    xs == [] || (from <= xs[0].now && ClockOk(xs[0].now, xs[1..]))
  }

  /** Characters deleted by rewrites at times up to `end`. */
  function Deleted(cfg: Config, st: Stab, xs: seq<Input>, from: int, end: int): nat
    decreases |xs|
  {
    if xs == [] then 0
    else
      var d := Update(cfg, st, xs[0].text, xs[0].now);
      (if d.action.Rewrite? && from <= xs[0].now <= end then d.rollback else 0)
      + Deleted(cfg, d.next, xs[1..], from, end)
  }

  /** How many times, `interval` apart, fit from `first` to `end`. */
  function RoomFor(first: int, end: int, interval: int): (r: nat)
    requires interval >= 1
    decreases end - first
  {
    if end < first then 0 else 1 + RoomFor(first + interval, end, interval)
  }

  lemma {:induction false} RoomShrinks(a: int, b: int, end: int, k: int)
    requires k >= 1 && a <= b
    ensures RoomFor(b, end, k) <= RoomFor(a, end, k)
    decreases end - a
  {
    if end >= b {
      RoomShrinks(a + k, b + k, end, k);
    }
  }

  lemma RoomStep(a: int, now: int, end: int, k: int)
    requires k >= 1 && a <= now <= end
    ensures RoomFor(now + k, end, k) + 1 <= RoomFor(a, end, k)
  {
    RoomShrinks(a, now, end, k);
  }

  lemma {:induction false} RoomAll(start: int, w: nat, k: int)
    requires k >= 1
    ensures RoomFor(start, start + w, k) == w / k + 1
    decreases w
  {
    if w >= k {
      RoomAll(start + k, w - k, k);
      DivStep(w, k);
    } else {
      assert RoomFor(start + k, start + w, k) == 0;
    }
  }

  lemma DivStep(w: nat, k: int)
    requires 1 <= k <= w
    ensures w / k == (w - k) / k + 1
  {
    var q, r := (w - k) / k, (w - k) % k;
    assert w == (q + 1) * k + r;
    DivUnique(w, k, q + 1, r);
  }

  lemma DivUnique(w: nat, k: int, q: int, r: int)
    requires k >= 1 && w == q * k + r && 0 <= r < k
    ensures w / k == q
  {
    var p := w / k;
    assert w == p * k + w % k;
    if p > q {
      MulGrows2(q + 1, p, k);
    } else if p < q {
      MulGrows2(p + 1, q, k);
    }
  }

  lemma MulGrows2(a: int, b: int, k: int)
    requires a <= b && k >= 0
    ensures a * k <= b * k
  {
  }

  lemma MulStep(n: nat, m: nat, k: nat)
    requires n + 1 <= m
    ensures n * k + k <= m * k
  {
    assert (n + 1) * k == n * k + k;
    MulGrows(n + 1, m, k);
  }

  lemma MulGrows(a: nat, b: nat, k: nat)
    requires a <= b
    ensures a * k <= b * k
  {
  }

  /** Rewrites from time `first` on are an interval apart, so there is room for few of them up to `end`. */
  lemma {:induction false} DeletedBound(cfg: Config, st: Stab, xs: seq<Input>, from: int, end: int, first: int)
    requires cfg.minInterval >= 1 && ClockOk(first, xs) && from <= first
    ensures Deleted(cfg, st, xs, from, end)
            <= RoomFor(Max(first, st.lastRewriteMs + cfg.minInterval), end, cfg.minInterval) * cfg.maxRollback
    decreases |xs|
  {
    hide JoinWords, Update, RoomFor;
    if xs != [] {
      var x, k := xs[0], cfg.minInterval;
      var d := Update(cfg, st, x.text, x.now);
      var e := Max(first, st.lastRewriteMs + k);
      UpdateClock(cfg, st, x.text, x.now);
      DeletedBound(cfg, d.next, xs[1..], from, end, x.now);
      var e1 := Max(x.now, d.next.lastRewriteMs + k);
      if d.action.Rewrite? && x.now <= end {
        RoomStep(e, x.now, end, k);
        MulStep(RoomFor(e1, end, k), RoomFor(e, end, k), cfg.maxRollback);
      } else {
        RoomShrinks(e, e1, end, k);
        MulGrows(RoomFor(e1, end, k), RoomFor(e, end, k), cfg.maxRollback);
      }
    }
  }

  lemma UpdateClock(cfg: Config, st: Stab, rawText: string, now: int)
    ensures var d := Update(cfg, st, rawText, now);
            if d.action.Rewrite? then
              now >= st.lastRewriteMs + cfg.minInterval && d.next.lastRewriteMs == now && d.rollback <= cfg.maxRollback
            else d.next.lastRewriteMs == st.lastRewriteMs
  {
  }

  /** Between resets, rewrites delete at most `maxRollback * (W / interval + 1)` characters in any window of
      length W. */
  lemma RewritesAreRare(cfg: Config, st: Stab, xs: seq<Input>, start: int, w: nat)
    requires cfg.minInterval >= 1 && ClockOk(start, xs)
    ensures Deleted(cfg, st, xs, start, start + w) <= (w / cfg.minInterval + 1) * cfg.maxRollback
  {
    hide Deleted, RoomFor, ClockOk;
    var k, first := cfg.minInterval, Max(start, st.lastRewriteMs + cfg.minInterval);
    DeletedBound(cfg, st, xs, start, start + w, start);
    RoomShrinks(start, first, start + w, k);
    RoomAll(start, w, k);
    MulGrows(RoomFor(first, start + w, k), w / k + 1, cfg.maxRollback);
  }

  // ---- a rewrite is a candidate that stood ----

  /** The update gets as far as counting: no change, shrink or append, not too far back and not too soon. */
  predicate IsCandidate(cfg: Config, st: Stab, x: Input) {
    var raw := JoinWords(x.text);
    && raw != st.shown && !IsShrink(cfg, st.shown, raw)
    && !(st.shown <= raw && |raw| > |st.shown|) && !IsTolerantAppend(cfg, st.shown, raw)
    && Rollback(st.shown, raw) <= cfg.maxRollback && x.now - st.lastRewriteMs >= cfg.minInterval
  }

  /** The candidates since the shown text last changed, after one more update. */
  function Candidates(cfg: Config, st: Stab, cs: seq<string>, x: Input): seq<string> {
    if Update(cfg, st, x.text, x.now).action in {Append, Rewrite} then []
    else if IsCandidate(cfg, st, x) then cs + [JoinWords(x.text)]
    else cs
  }

  /** The last n of them are one text. */
  predicate EndsInEqual(cs: seq<string>, n: nat) {
    n <= |cs| && forall i :: |cs| - n <= i < |cs| ==> cs[i] == cs[|cs| - 1]
  }

  /** What is pending is the last candidate, and its count is exactly how often in a row it came up. */
  predicate PendingIs(st: Stab, cs: seq<string>) {
    if cs == [] then st.pending == None && st.pendingCount == 0
    else
      && st.pending == Some(cs[|cs| - 1]) && st.pendingCount >= 1
      && EndsInEqual(cs, st.pendingCount) && !EndsInEqual(cs, st.pendingCount + 1)
  }

  lemma CountOneMore(cs: seq<string>, raw: string, n: nat)
    requires if cs == [] then n == 0 else EndsInEqual(cs, n) && !EndsInEqual(cs, n + 1) && n >= 1
    ensures var m := if cs != [] && raw == cs[|cs| - 1] then n + 1 else 1;
            EndsInEqual(cs + [raw], m) && !EndsInEqual(cs + [raw], m + 1)
  {
    var ds := cs + [raw];
    assert forall i :: 0 <= i < |cs| ==> ds[i] == cs[i];
    OneLess(cs, raw, n);
    if cs != [] && raw != cs[|cs| - 1] {
      assert ds[|cs| - 1] != ds[|ds| - 1];
    }
  }

  lemma OneLess(cs: seq<string>, raw: string, n: nat)
    ensures cs != [] && raw == cs[|cs| - 1] && EndsInEqual(cs + [raw], n + 2) ==> EndsInEqual(cs, n + 1)
  {
    var ds := cs + [raw];
    assert forall i :: 0 <= i < |cs| ==> ds[i] == cs[i];
  }

  lemma EqualFewer(cs: seq<string>, a: nat, b: nat)
    requires a <= b
    ensures EndsInEqual(cs, b) ==> EndsInEqual(cs, a)
  {
  }

  lemma FewerEqual(cs: seq<string>, n: nat, m: nat)
    requires EndsInEqual(cs, n) && !EndsInEqual(cs, n + 1)
    ensures EndsInEqual(cs, m) <==> m <= n
  {
    if m > n {
      EqualFewer(cs, n + 1, m);
    }
  }

  /** One update: the count stays exact, and the text is rewritten exactly when it is a candidate and the latest
      `confirmN` candidates in a row, this one included, are the same text. */
  lemma RewriteIffConfirmed(cfg: Config, st: Stab, cs: seq<string>, x: Input)
    requires PendingIs(st, cs)
    ensures var d := Update(cfg, st, x.text, x.now);
            && PendingIs(d.next, Candidates(cfg, st, cs, x))
            && (d.action.Rewrite? <==> IsCandidate(cfg, st, x) && EndsInEqual(cs + [JoinWords(x.text)], cfg.confirmN))
  {
    hide JoinWords, StripTrail, Lcp, EndsInEqual;
    var raw := JoinWords(x.text);
    CountOneMore(cs, raw, st.pendingCount);
    FewerEqual(cs + [raw], Counted(st, raw).pendingCount, cfg.confirmN);
  }

  function CandidatesOf(cfg: Config, st: Stab, cs: seq<string>, xs: seq<Input>): seq<string>
    decreases |xs|
  {
    if xs == [] then cs
    else CandidatesOf(cfg, Update(cfg, st, xs[0].text, xs[0].now).next, Candidates(cfg, st, cs, xs[0]), xs[1..])
  }

  lemma {:induction false} RunKeepsPending(cfg: Config, st: Stab, cs: seq<string>, xs: seq<Input>)
    requires PendingIs(st, cs)
    ensures PendingIs(Run(cfg, st, xs), CandidatesOf(cfg, st, cs, xs))
    decreases |xs|
  {
    hide PendingIs, Update, Candidates, IsCandidate, EndsInEqual;
    if xs != [] {
      RewriteIffConfirmed(cfg, st, cs, xs[0]);
      RunKeepsPending(cfg, Update(cfg, st, xs[0].text, xs[0].now).next, Candidates(cfg, st, cs, xs[0]), xs[1..]);
    }
  }

  /** From a reset on, at every moment: a rewrite happens exactly to a candidate that came `confirmN` times in a row
      since the shown text last changed. */
  lemma EveryRewriteIsConfirmed(cfg: Config, text: string, xs: seq<Input>, x: Input)
    ensures var st, cs := Run(cfg, Fresh(text), xs), CandidatesOf(cfg, Fresh(text), [], xs);
            Update(cfg, st, x.text, x.now).action.Rewrite?
            <==> IsCandidate(cfg, st, x) && EndsInEqual(cs + [JoinWords(x.text)], cfg.confirmN)
  {
    hide Update, Run, CandidatesOf, IsCandidate, EndsInEqual;
    RunKeepsPending(cfg, Fresh(text), [], xs);
    RewriteIffConfirmed(cfg, Run(cfg, Fresh(text), xs), CandidatesOf(cfg, Fresh(text), [], xs), x);
  }
}
