/** The server's English output: end-diff patches of the stabilised text, and full stable snapshots. */
module EnServer {
  import opened Text
  import opened Cuts
  import opened Normal
  import opened Stabilizer

  datatype Msg = Patch(del: nat, ins: string, seqNo: nat) | Stable(full: string, seqNo: nat)

  /** `_make_end_patch`: how many characters to delete from the end, and what to add. */
  function EndPatch(old_: string, new_: string): (nat, string) {
    var c := Lcp(old_, new_);
    (|old_| - c, new_[c..])
  }

  datatype ServerConfig = ServerConfig(stab: Config, stabEnable: bool, patchMinMs: int, warmUntil: real)

  /** What a callback reads of the clocks, each at its own moment: the steady clock at the start, and the wall clock
      in the stabiliser (in updates only) and where the message is timed. */
  datatype Clock = Clock(steady: real, stabMs: int, sendMs: int)

  datatype Server = Server(
    stab: Stab, snapshot: string, emitted: string, patchSeq: nat, stableSeq: nat, lastSendMs: int)

  const START := Server(Stab("", None, 0, 0), "", "", 0, 0, 0)

  datatype Output = Output(server: Server, sent: Option<Msg>)

  /** `_patch_from_model_text`, with one message per patch (UI_MICRO_DELTA_ENABLE off). */
  function OnUpdate(cfg: ServerConfig, s: Server, rawText: string, clock: Clock): Output {
    var raw := JoinWords(rawText);
    if clock.steady < cfg.warmUntil || raw == [] then Output(s, None)
    else
      var st := if cfg.stabEnable then Update(cfg.stab, s.stab, raw, clock.stabMs).next else s.stab;
      var shown := if cfg.stabEnable then st.shown else raw;
      var t := s.(stab := st);
      if shown == s.emitted || (cfg.patchMinMs > 0 && clock.sendMs - s.lastSendMs < cfg.patchMinMs) then Output(t, None)
      else
        var p, n := EndPatch(s.emitted, shown), s.patchSeq + 1;
        Output(t.(emitted := shown, patchSeq := n, lastSendMs := clock.sendMs), Some(Patch(p.0, p.1, n)))
  }

  /** `_on_stable_cb`: the snapshot never gets shorter. */
  function OnStable(cfg: ServerConfig, s: Server, text: string, clock: Clock): Output {
    var t := JoinWords(text);
    if clock.steady < cfg.warmUntil || t == [] then Output(s, None)
    else
      var snap, n := if |t| >= |s.snapshot| then t else s.snapshot, s.stableSeq + 1;
      Output(Server(Stabilizer.Fresh(snap), snap, snap, s.patchSeq, n, clock.sendMs), Some(Stable(snap, n)))
  }

  class EnglishServer {
    const cfg: ServerConfig
    const stabilizer: TranscriptStabilizer
    var stableSnapshot: string
    var lastEmitted: string
    var patchSeq: nat
    var stableSeq: nat
    var lastPatchSendMs: int

    ghost function State(): Server
      reads this, stabilizer
    {
      Server(stabilizer.State(), stableSnapshot, lastEmitted, patchSeq, stableSeq, lastPatchSendMs)
    }

    ghost predicate Valid()
      reads this, stabilizer
    {
      stabilizer.cfg == cfg.stab
    }

    constructor (raw: Stabilizer.RawConfig, enable: bool, minMs: int, warmUntil: real)
      ensures Valid() && State() == START && fresh(stabilizer)
      ensures cfg == ServerConfig(Clamp(raw), enable, minMs, warmUntil)
    {
      stabilizer := new TranscriptStabilizer(raw);
      cfg := ServerConfig(Clamp(raw), enable, minMs, warmUntil);
      stableSnapshot, lastEmitted, patchSeq, stableSeq, lastPatchSendMs := "", "", 0, 0, 0;
    }

    method PatchFromModelText(rawText: string, clock: Clock) returns (sent: Option<Msg>)
      requires Valid()
      modifies this, stabilizer
      ensures Valid()
      ensures Output(State(), sent) == OnUpdate(cfg, old(State()), rawText, clock)
    {
      hide JoinWords, Update, Lcp;
      if clock.steady < cfg.warmUntil {
        return None;
      }
      var raw := JoinWords(rawText);
      if raw == [] {
        return None;
      }
      var shown := raw;
      if cfg.stabEnable {
        var action, rollback := stabilizer.Step(raw, clock.stabMs);
        shown := stabilizer.shown;
      }
      if shown == lastEmitted {
        return None;
      }
      if cfg.patchMinMs > 0 && clock.sendMs - lastPatchSendMs < cfg.patchMinMs {
        return None;
      }
      var lcp := LcpLen(lastEmitted, shown);
      var deleteN, insert := |lastEmitted| - lcp, shown[lcp..];
      patchSeq := patchSeq + 1;
      lastPatchSendMs := clock.sendMs;
      lastEmitted := shown;
      return Some(Patch(deleteN, insert, patchSeq));
    }

    method StableCallback(text: string, clock: Clock) returns (sent: Option<Msg>)
      requires Valid()
      modifies this, stabilizer
      ensures Valid()
      ensures Output(State(), sent) == OnStable(cfg, old(State()), text, clock)
    {
      hide JoinWords;
      if clock.steady < cfg.warmUntil {
        return None;
      }
      var t := JoinWords(text);
      if t == [] {
        return None;
      }
      if |t| >= |stableSnapshot| {
        stableSnapshot := t;
      }
      stableSeq := stableSeq + 1;
      stabilizer.Reset(stableSnapshot);
      lastEmitted := stableSnapshot;
      lastPatchSendMs := clock.sendMs;
      return Some(Stable(stableSnapshot, stableSeq));
    }
  }

  /** What every message says about the emitted text: a patch takes the old text to the new one, a stable is the new
      one. */
  predicate Explains(before: string, m: Msg, after: string) {
    match m
    case Patch(del, ins, _) => (del, ins) == EndPatch(before, after)
    case Stable(full, _) => full == after
  }

  /** The emitted text changes exactly when a message explains the change, and sequence numbers grow by one each. */
  lemma OutputsExplain(cfg: ServerConfig, s: Server, text: string, clock: Clock)
    ensures var o := OnUpdate(cfg, s, text, clock);
            && (o.sent.None? ==> o.server.emitted == s.emitted && o.server.patchSeq == s.patchSeq)
            && (o.sent.Some? ==> (&& o.sent.value.Patch? && Explains(s.emitted, o.sent.value, o.server.emitted)
                                  && o.sent.value.seqNo == o.server.patchSeq == s.patchSeq + 1))
            && o.server.stableSeq == s.stableSeq
    ensures var o := OnStable(cfg, s, text, clock);
            && (o.sent.None? ==> o.server == s)
            && (o.sent.Some? ==> (&& o.sent.value.Stable? && Explains(s.emitted, o.sent.value, o.server.emitted)
                                  && o.sent.value.seqNo == o.server.stableSeq == s.stableSeq + 1))
            && o.server.patchSeq == s.patchSeq
            && |o.server.snapshot| >= |s.snapshot|
  {
  }

  // ---- runs ----

  datatype Call = UpdateCall(text: string, clock: Clock) | StableCall(text: string, clock: Clock)

  function Answer(cfg: ServerConfig, s: Server, e: Call): Output {
    match e
    case UpdateCall(text, clock) => OnUpdate(cfg, s, text, clock)
    case StableCall(text, clock) => OnStable(cfg, s, text, clock)
  }

  // ---- what is emitted ----

  /** What an update wants on the screen: the stabiliser's text behind it, or without one the joined text itself. */
  function Wanted(cfg: ServerConfig, s: Server, text: string, clock: Clock): string {
    if cfg.stabEnable then Update(cfg.stab, s.stab, text, clock.stabMs).next.shown else JoinWords(text)
  }

  /** A patch makes the emitted text the wanted one; none is sent exactly when the warm-up, an empty text, equality or
      the interval says so. The stabiliser has seen the text unless it is too early or empty. */
  lemma PatchShowsWanted(cfg: ServerConfig, s: Server, text: string, clock: Clock)
    ensures var o, goal := OnUpdate(cfg, s, text, clock), Wanted(cfg, s, text, clock);
            var seen := clock.steady >= cfg.warmUntil && JoinWords(text) != "";
            && (o.sent.None? <==> (|| !seen || goal == s.emitted
                                   || (cfg.patchMinMs > 0 && clock.sendMs < s.lastSendMs + cfg.patchMinMs)))
            && (o.sent.Some? ==> o.server.emitted == goal && o.server.lastSendMs == clock.sendMs)
            && (o.sent.None? ==> o.server.lastSendMs == s.lastSendMs)
            && o.server.stab == (if seen && cfg.stabEnable then Update(cfg.stab, s.stab, text, clock.stabMs).next
                                 else s.stab)
  {
    hide JoinWords, EndPatch;
    JoinedTwice(text);
  }

  lemma JoinedTwice(text: string)
    ensures JoinWords(JoinWords(text)) == JoinWords(text)
  {
    hide Collapse, Strip;
    CollapseShape(text);
    var c, t := Collapse(text), JoinWords(text);
    StripIsTrimmed(c);
    var lo, hi := StripIsSlice(c);
    LoosePairsSlice(c, lo, hi);
    LooseStays(t);
    StripOfTrimmed(t);
  }

  lemma {:induction false} LooseStays(t: string)
    requires LoosePairsOk(t) && (t != "" ==> !IsSpace(t[|t| - 1]))
    ensures Collapse(t) == t
    decreases |t|
  {
    if t != "" {
      LoosePairsTail(t);
      LooseStays(t[1..]);
      if IsSpace(t[0]) {
        assert LoosePairOk(t[0], t[1]);
        RunIs(IsSpace, t, 1);
      } else {
        RunIs(IsSpace, t, 0);
      }
    }
  }

  /** Without a limit on patches the stabiliser's text is what is emitted, at every moment after a start or a stable. */
  lemma {:induction false} EmittedIsShown(cfg: ServerConfig, s: Server, es: seq<Call>)
    requires cfg.stabEnable && cfg.patchMinMs <= 0 && s.emitted == s.stab.shown && JoinWords(s.snapshot) == s.snapshot
    ensures var z := After(cfg, s, es); z.emitted == z.stab.shown
    decreases |es|
  {
    hide JoinWords, Update, EndPatch;
    if es != [] {
      var e := es[0];
      if e.UpdateCall? {
        PatchShowsWanted(cfg, s, e.text, e.clock);
        SnapshotStays(cfg, s, e.text, e.clock);
      } else {
        JoinedTwice(e.text);
      }
      EmittedIsShown(cfg, Answer(cfg, s, e).server, es[1..]);
    }
  }

  lemma SnapshotStays(cfg: ServerConfig, s: Server, text: string, clock: Clock)
    ensures OnUpdate(cfg, s, text, clock).server.snapshot == s.snapshot
  {
  }

  function After(cfg: ServerConfig, s: Server, es: seq<Call>): Server
    decreases |es|
  {
    if es == [] then s else After(cfg, Answer(cfg, s, es[0]).server, es[1..])
  }

  // ---- how much patches delete ----

  /** How many characters of `a` a change to `b` deletes. */
  function Lost(a: string, b: string): nat {
    |a| - Lcp(a, b)
  }

  lemma LostAdds(a: string, b: string, c: string)
    ensures Lost(a, c) <= Lost(a, b) + Lost(b, c)
  {
    var i, j := Lcp(a, b), Lcp(b, c);
    var n := Min(i, j);
    assert a[..n] == a[..i][..n] == b[..i][..n] == b[..j][..n] == c[..j][..n] == c[..n];
    LcpAtLeast(a, c, n);
  }

  /** Characters that the patches of a run of updates delete. */
  function PatchDeletes(cfg: ServerConfig, s: Server, es: seq<Call>): nat
    decreases |es|
  {
    if es == [] then 0
    else
      var o := Answer(cfg, s, es[0]);
      (match o.sent { case Some(Patch(del, _, _)) => del case Some(Stable(_, _)) => 0 case None => 0 })
      + PatchDeletes(cfg, o.server, es[1..])
  }

  /** The stabiliser sees a text unless it is too early or empty. */
  predicate Seen(cfg: ServerConfig, e: Call) {
    e.UpdateCall? && e.clock.steady >= cfg.warmUntil && JoinWords(e.text) != ""
  }

  function SeenInputs(cfg: ServerConfig, es: seq<Call>): seq<Input>
    decreases |es|
  {
    if es == [] then []
    else (if Seen(cfg, es[0]) then [Input(es[0].text, es[0].clock.stabMs)] else []) + SeenInputs(cfg, es[1..])
  }

  /** Marks and blanks at the end of the shown text that appends replace, when they do not simply extend it. */
  function MarksReplaced(cfg: Stabilizer.Config, st: Stab, xs: seq<Input>): nat
    decreases |xs|
  {
    if xs == [] then 0
    else
      var d := Update(cfg, st, xs[0].text, xs[0].now);
      (if d.action.Append? && !(st.shown <= d.next.shown) then |st.shown| - |StripTrail(st.shown)| else 0)
      + MarksReplaced(cfg, d.next, xs[1..])
  }

  predicate UpdatesOnly(es: seq<Call>) {
    forall i :: 0 <= i < |es| ==> es[i].UpdateCall?
  }

  lemma UpdateLoses(cfg: Stabilizer.Config, st: Stab, text: string, now: int)
    ensures var d := Update(cfg, st, text, now);
            Lost(st.shown, d.next.shown)
            <= (if d.action.Rewrite? then d.rollback
                else if d.action.Append? && !(st.shown <= d.next.shown) then |st.shown| - |StripTrail(st.shown)|
                else 0)
  {
    hide JoinWords, StripTrail;
    UpdateKinds(cfg, st, text, now);
    var d := Update(cfg, st, text, now);
    if st.shown <= d.next.shown {
      LcpAtLeast(st.shown, d.next.shown, |st.shown|);
    }
  }

  predicate InTime(from: int, end: int, xs: seq<Input>) {
    forall i :: 0 <= i < |xs| ==> from <= xs[i].now <= end
  }

  lemma {:induction false} DeletesBounded(cfg: ServerConfig, s: Server, es: seq<Call>, from: int, end: int)
    requires cfg.stabEnable && UpdatesOnly(es) && InTime(from, end, SeenInputs(cfg, es))
    ensures PatchDeletes(cfg, s, es)
            <= Lost(s.emitted, s.stab.shown) + Deleted(cfg.stab, s.stab, SeenInputs(cfg, es), from, end)
               + MarksReplaced(cfg.stab, s.stab, SeenInputs(cfg, es))
    decreases |es|
  {
    hide JoinWords, Update, StripTrail, Lost, SeenInputs, Answer, Seen;
    if es == [] {
      NothingSeen(cfg);
    } else {
      assert forall i :: 0 <= i < |es[1..]| ==> es[1..][i] == es[i + 1];
      SeenStep(cfg, es, from, end);
      StepDeletes(cfg, s, es[0]);
      DeletesBounded(cfg, Answer(cfg, s, es[0]).server, es[1..], from, end);
    }
  }

  lemma NothingSeen(cfg: ServerConfig)
    ensures SeenInputs(cfg, []) == []
  {
  }

  /** One update off the front: its text is seen, or it is not. */
  lemma SeenStep(cfg: ServerConfig, es: seq<Call>, from: int, end: int)
    requires es != [] && InTime(from, end, SeenInputs(cfg, es))
    ensures var xs, rest := SeenInputs(cfg, es), SeenInputs(cfg, es[1..]);
            && InTime(from, end, rest)
            && (if Seen(cfg, es[0]) then
                  && xs != [] && xs[0] == Input(es[0].text, es[0].clock.stabMs)
                  && xs[1..] == rest && from <= xs[0].now <= end
                else xs == rest)
  {
    hide Seen;
    var xs, rest := SeenInputs(cfg, es), SeenInputs(cfg, es[1..]);
    if Seen(cfg, es[0]) {
      assert xs == [Input(es[0].text, es[0].clock.stabMs)] + rest;
      assert forall i :: 0 <= i < |rest| ==> rest[i] == xs[i + 1];
    } else {
      assert xs == [] + rest == rest;
    }
  }

  /** What one update makes the patches owe. */
  lemma StepDeletes(cfg: ServerConfig, s: Server, e: Call)
    requires cfg.stabEnable && e.UpdateCall?
    ensures var o, d := Answer(cfg, s, e), Update(cfg.stab, s.stab, e.text, e.clock.stabMs);
            && (o.sent.Some? ==> o.sent.value.Patch?)
            && o.server.stab == (if Seen(cfg, e) then d.next else s.stab)
            && (if o.sent.Some? then o.sent.value.del else 0) + Lost(o.server.emitted, o.server.stab.shown)
               <= Lost(s.emitted, s.stab.shown)
                  + (if Seen(cfg, e) && d.action.Rewrite? then d.rollback else 0)
                  + (if Seen(cfg, e) && d.action.Append? && !(s.stab.shown <= d.next.shown)
                     then |s.stab.shown| - |StripTrail(s.stab.shown)| else 0)
  {
    hide JoinWords, Update, StripTrail, Lost;
    var o := Answer(cfg, s, e);
    PatchShowsWanted(cfg, s, e.text, e.clock);
    UpdateLoses(cfg.stab, s.stab, e.text, e.clock.stabMs);
    LostAdds(s.emitted, s.stab.shown, o.server.stab.shown);
    OutputsExplain(cfg, s, e.text, e.clock);
    PatchLoses(s.emitted, o.server.emitted);
  }

  /** Between two stables, whatever the interval lets through and whatever it holds back, patches delete at most what
      the rewrites within that time may delete, and the marks and blanks that appends replace. */
  lemma PatchesDeleteLittle(cfg: ServerConfig, s: Server, es: seq<Call>, start: int, w: nat)
    requires cfg.stabEnable && UpdatesOnly(es) && s.emitted == s.stab.shown && cfg.stab.minInterval >= 1
    requires ClockOk(start, SeenInputs(cfg, es)) && InTime(start, start + w, SeenInputs(cfg, es))
    ensures PatchDeletes(cfg, s, es)
            <= (w / cfg.stab.minInterval + 1) * cfg.stab.maxRollback
               + MarksReplaced(cfg.stab, s.stab, SeenInputs(cfg, es))
  {
    hide PatchDeletes, MarksReplaced, Deleted, SeenInputs, Lost, ClockOk;
    DeletesBounded(cfg, s, es, start, start + w);
    RewritesAreRare(cfg.stab, s.stab, SeenInputs(cfg, es), start, w);
    PatchLoses(s.emitted, s.emitted);
  }

  lemma PatchLoses(a: string, b: string)
    ensures EndPatch(a, b).0 == Lost(a, b) && Lost(b, b) == 0
  {
    LcpAtLeast(b, b, |b|);
  }

  // ---- rate limit ----

  /** When the messages of a run were sent, and whether they were patches. */
  function Sends(cfg: ServerConfig, s: Server, es: seq<Call>): seq<(int, bool)>
    decreases |es|
  {
    if es == [] then []
    else
      var o := Answer(cfg, s, es[0]);
      (if o.sent.Some? then [(es[0].clock.sendMs, o.sent.value.Patch?)] else []) + Sends(cfg, o.server, es[1..])
  }

  /** Each patch keeps the distance to the message before it, whichever kind that is; the first one, to `last`. */
  predicate Spaced(gap: int, last: int, sends: seq<(int, bool)>)
    decreases |sends|
  {
    sends == [] || ((sends[0].1 ==> sends[0].0 - last >= gap) && Spaced(gap, sends[0].0, sends[1..]))
  }

  /** On every run, whatever the clock does, a patch is sent no sooner than the interval after the message before it. */
  lemma {:induction false} PatchesAreSpaced(cfg: ServerConfig, s: Server, es: seq<Call>)
    requires cfg.patchMinMs > 0
    ensures Spaced(cfg.patchMinMs, s.lastSendMs, Sends(cfg, s, es))
    decreases |es|
  {
    hide JoinWords, Update, EndPatch;
    if es != [] {
      var o := Answer(cfg, s, es[0]);
      var rest := Sends(cfg, o.server, es[1..]);
      PatchesAreSpaced(cfg, o.server, es[1..]);
      if o.sent.Some? {
        assert ([(es[0].clock.sendMs, o.sent.value.Patch?)] + rest)[1..] == rest;
      } else {
        assert [] + rest == rest;
      }
    }
  }

  /** A stable is sent unless it is too early or empty. Its text is the new one, or the last one if that was longer;
      it becomes the emitted text and what the stabiliser shows, and nothing is pending. */
  lemma StableSays(cfg: ServerConfig, s: Server, text: string, clock: Clock)
    requires JoinWords(s.snapshot) == s.snapshot
    ensures var o, t := OnStable(cfg, s, text, clock), JoinWords(text);
            var snap := if |t| < |s.snapshot| then s.snapshot else t;
            && (o.sent.None? <==> clock.steady < cfg.warmUntil || t == "")
            && (o.sent.Some? ==>
                  && o.sent == Some(Stable(snap, s.stableSeq + 1)) && o.server.snapshot == o.server.emitted == snap
                  && o.server.stab == Stab(snap, None, 0, 0) && o.server.lastSendMs == clock.sendMs)
  {
    hide JoinWords;
    JoinedTwice(text);
  }
}
