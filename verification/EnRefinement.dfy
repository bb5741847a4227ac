/** The English overlay follows the server: one server, one relay, one overlay, any interleaving of their steps. */
module EnRefinement {
  import opened Text
  import opened Cuts
  import opened Normal
  import opened Stabilizer
  import opened TailTrim
  import opened EnServer
  import opened EnOverlay

  /** The service worker relays stables cut to this many characters. */
  const RELAY_MAX := 3200

  /** A message on its way, with the text the server had emitted when it left. */
  datatype Sent = Sent(msg: Msg, after: string)

  /** `delivered` is the text the server had emitted after the last delivered message. */
  datatype Sys = Sys(server: Server, chan: seq<Sent>, delivered: string, overlay: Overlay)

  datatype Event = ModelText(text: string, clock: Clock) | StableText(text: string, clock: Clock) | Deliver | Frame

  datatype Setting = Setting(server: ServerConfig, cap: int)

  const INIT := Sys(EnServer.START, [], "", EnOverlay.START)

  function Post(y: Sys, o: Output): Sys {
    y.(server := o.server, chan := if o.sent.Some? then y.chan + [Sent(o.sent.value, o.server.emitted)] else y.chan)
  }

  /** The relay forwards patches as they are and trims stables; the overlay applies what arrives. */
  function Receive(cap: int, o: Overlay, m: Msg): Overlay {
    match m
    case Patch(del, ins, n) => Enqueue(o, Op(del, ins), Some(n))
    case Stable(full, n) => ApplyStable(cap, o, TailForLayout(full, RELAY_MAX), Some(n))
  }

  function Step(set_: Setting, y: Sys, e: Event): Sys {
    match e
    case ModelText(text, clock) => Post(y, OnUpdate(set_.server, y.server, text, clock))
    case StableText(text, clock) => Post(y, OnStable(set_.server, y.server, text, clock))
    case Frame => y.(overlay := Flush(set_.cap, y.overlay))
    case Deliver =>
      if y.chan == [] then y
      else Sys(y.server, y.chan[1..], y.chan[0].after, Receive(set_.cap, y.overlay, y.chan[0].msg))
  }

  function RunAll(set_: Setting, y: Sys, es: seq<Event>): Sys
    decreases |es|
  {
    if es == [] then y else RunAll(set_, Step(set_, y, es[0]), es[1..])
  }

  predicate DeliversStable(y: Sys, e: Event) {
    e.Deliver? && y.chan != [] && y.chan[0].msg.Stable?
  }

  predicate PassesOver(cap: int, o: Overlay, full: string) {
    Skipped(Flush(cap, o).full, Capped(cap, TailForLayout(full, RELAY_MAX)))
  }

  /** The overlay is in step: no stable passed over since the last one shown. */
  predicate InStep(set_: Setting, y: Sys, e: Event, before: bool) {
    if DeliversStable(y, e) then !PassesOver(set_.cap, y.overlay, y.chan[0].msg.full) else before
  }

  predicate InStepAfter(set_: Setting, y: Sys, es: seq<Event>, before: bool)
    decreases |es|
  {
    if es == [] then before else InStepAfter(set_, Step(set_, y, es[0]), es[1..], InStep(set_, y, es[0], before))
  }

  // ---- one message ----

  /** A patch is exact: replayed on the text it was made for, it gives the new text. */
  lemma PatchRoundTrip(before: string, after: string)
    ensures ApplyOp(before, Op(EndPatch(before, after).0, EndPatch(before, after).1)) == after
  {
  }

  /** Replayed on a tail of the text it was made for, it gives a tail of the new text, even when it deletes more than
      the tail holds. */
  lemma PatchOnSuffix(tail: string, before: string, after: string)
    requires IsSuffix(tail, before)
    ensures IsSuffix(ApplyOp(tail, Op(EndPatch(before, after).0, EndPatch(before, after).1)), after)
  {
    hide Lcp;
    var c := Lcp(before, after);
    var del, ins := |before| - c, after[c..];
    var cut := |before| - |tail|;
    if del >= |tail| {
      assert "" + ins == ins;
      assert del == 0 ==> tail == "";
    } else {
      var kept := tail[..|tail| - del];
      assert kept == before[cut..c] == before[..c][cut..] == after[..c][cut..];
      assert kept + ins == after[cut..];
    }
  }

  lemma FlushPending(cap: int, o: Overlay)
    ensures Flush(cap, o).ops == []
    ensures Pending(Flush(cap, o)) == Flush(cap, o).full
    ensures IsSuffix(Pending(Flush(cap, o)), Pending(o))
    ensures cap <= 0 || |Pending(o)| <= cap ==> Pending(Flush(cap, o)) == Pending(o)
  {
  }

  lemma EnqueuePending(o: Overlay, op: Op, n: int)
    requires n > o.lastPatch
    ensures Pending(Enqueue(o, op, Some(n))) == ApplyOp(Pending(o), op)
  {
    hide ApplyOp, ApplyAll;
    ApplyAllSnoc(o.full, o.ops, op);
  }

  lemma StablePending(cap: int, o: Overlay, full: string, n: int)
    requires n > o.lastStable
    ensures var r := ApplyStable(cap, o, full, Some(n));
            && r.lastStable == n && r.lastPatch == o.lastPatch
            && Pending(r) == (if Skipped(Flush(cap, o).full, Capped(cap, full)) then Flush(cap, o).full
                              else Capped(cap, full))
  {
  }

  // ---- the channel ----

  /** From the delivered text, the messages on the way explain the server's text, with numbers the overlay has not
      seen. */
  predicate Chained(before: string, lastPatch: int, lastStable: int, chan: seq<Sent>, s: Server)
    decreases |chan|
  {
    if chan == [] then before == s.emitted && lastPatch <= s.patchSeq && lastStable <= s.stableSeq
    else
      && Explains(before, chan[0].msg, chan[0].after)
      && match chan[0].msg
         case Patch(_, _, n) => n > lastPatch && Chained(chan[0].after, n, lastStable, chan[1..], s)
         case Stable(_, n) => n > lastStable && Chained(chan[0].after, lastPatch, n, chan[1..], s)
  }

  predicate Next(s: Server, o: Output) {
    match o.sent
    case None => o.server.emitted == s.emitted && o.server.patchSeq == s.patchSeq && o.server.stableSeq == s.stableSeq
    case Some(Patch(del, ins, n)) =>
      && Explains(s.emitted, Patch(del, ins, n), o.server.emitted)
      && n == o.server.patchSeq == s.patchSeq + 1 && o.server.stableSeq == s.stableSeq
    case Some(Stable(full, n)) =>
      && Explains(s.emitted, Stable(full, n), o.server.emitted)
      && n == o.server.stableSeq == s.stableSeq + 1 && o.server.patchSeq == s.patchSeq
  }

  lemma {:induction false} ChainedPost(before: string, lastPatch: int, lastStable: int, y: Sys, o: Output)
    requires Chained(before, lastPatch, lastStable, y.chan, y.server)
    requires Next(y.server, o)
    ensures Chained(before, lastPatch, lastStable, Post(y, o).chan, o.server)
    decreases |y.chan|
  {
    hide EndPatch;
    if y.chan == [] {
      if o.sent.Some? {
        assert Post(y, o).chan[1..] == [];
      }
    } else {
      var m := y.chan[0];
      var rest := y.(chan := y.chan[1..]);
      assert Post(y, o).chan[1..] == Post(rest, o).chan;
      match m.msg
      case Patch(_, _, n) => ChainedPost(m.after, n, lastStable, rest, o);
      case Stable(_, n) => ChainedPost(m.after, lastPatch, n, rest, o);
    }
  }

  predicate Linked(y: Sys) {
    Chained(y.delivered, y.overlay.lastPatch, y.overlay.lastStable, y.chan, y.server)
  }

  lemma StepLinks(set_: Setting, y: Sys, e: Event)
    requires Linked(y)
    ensures Linked(Step(set_, y, e))
  {
    hide EndPatch, OnUpdate, OnStable, TailForLayout, Capped, Pending, Skipped;
    match e
    case ModelText(text, clock) =>
      OutputsExplain(set_.server, y.server, text, clock);
      var o := OnUpdate(set_.server, y.server, text, clock);
      ChainedPost(y.delivered, y.overlay.lastPatch, y.overlay.lastStable, y, o);
    case StableText(text, clock) =>
      OutputsExplain(set_.server, y.server, text, clock);
      var o := OnStable(set_.server, y.server, text, clock);
      ChainedPost(y.delivered, y.overlay.lastPatch, y.overlay.lastStable, y, o);
    case Deliver =>
    case Frame =>
  }

  // ---- one step ----

  /** In step, the overlay's text is a tail of the delivered text, whatever was trimmed on the way. */
  lemma StepKeepsSuffix(set_: Setting, y: Sys, e: Event, before: bool)
    requires Linked(y)
    requires before ==> IsSuffix(Pending(y.overlay), y.delivered)
    requires InStep(set_, y, e, before)
    ensures IsSuffix(Pending(Step(set_, y, e).overlay), Step(set_, y, e).delivered)
  {
    hide EndPatch, OnUpdate, OnStable, TailForLayout, Capped, Pending, Flush, Skipped, Enqueue, ApplyStable, ApplyOp;
    match e
    case ModelText(_, _) =>
    case StableText(_, _) =>
    case Frame =>
      FlushPending(set_.cap, y.overlay);
      SuffixOfSuffix(Pending(Flush(set_.cap, y.overlay)), Pending(y.overlay), y.delivered);
    case Deliver =>
      if y.chan != [] {
        match y.chan[0].msg
        case Patch(del, ins, n) =>
          EnqueuePending(y.overlay, Op(del, ins), n);
          PatchOnSuffix(Pending(y.overlay), y.delivered, y.chan[0].after);
        case Stable(full, n) =>
          var relayed := TailForLayout(full, RELAY_MAX);
          StablePending(set_.cap, y.overlay, relayed, n);
          SuffixOfSuffix(Capped(set_.cap, relayed), relayed, full);
      }
  }

  /** A message no step of the way has to cut. */
  predicate Fits(cap: int, m: Sent) {
    && (cap <= 0 || |m.after| <= cap)
    && (m.msg.Stable? ==> |m.msg.full| <= RELAY_MAX)
  }

  predicate FitsNow(cap: int, y: Sys, e: Event) {
    e.Deliver? && y.chan != [] ==> Fits(cap, y.chan[0])
  }

  /** In step and with nothing cut, the overlay's text is the delivered text. */
  lemma StepKeepsEqual(set_: Setting, y: Sys, e: Event)
    requires Linked(y)
    requires Pending(y.overlay) == y.delivered && (set_.cap <= 0 || |y.delivered| <= set_.cap)
    requires FitsNow(set_.cap, y, e)
    ensures var z := Step(set_, y, e);
            && (set_.cap <= 0 || |z.delivered| <= set_.cap)
            && (Pending(z.overlay) == z.delivered <==> InStep(set_, y, e, true))
  {
    hide EndPatch, OnUpdate, OnStable, TailForLayout, Capped, Pending, Flush, Enqueue, ApplyStable, ApplyOp;
    match e
    case ModelText(_, _) =>
    case StableText(_, _) =>
    case Frame =>
      FlushPending(set_.cap, y.overlay);
    case Deliver =>
      if y.chan != [] {
        match y.chan[0].msg
        case Patch(del, ins, n) =>
          EnqueuePending(y.overlay, Op(del, ins), n);
          PatchRoundTrip(y.delivered, y.chan[0].after);
        case Stable(full, n) =>
          StablePending(set_.cap, y.overlay, TailForLayout(full, RELAY_MAX), n);
      }
  }

  // ---- whole runs ----

  lemma {:induction false} RunFrom(set_: Setting, y: Sys, es: seq<Event>, before: bool)
    requires Linked(y)
    requires before ==> IsSuffix(Pending(y.overlay), y.delivered)
    ensures Linked(RunAll(set_, y, es))
    ensures var z := RunAll(set_, y, es); InStepAfter(set_, y, es, before) ==> IsSuffix(Pending(z.overlay), z.delivered)
    decreases |es|
  {
    hide Linked, Step, Pending, InStep, IsSuffix;
    if es != [] {
      var e := es[0];
      StepLinks(set_, y, e);
      if InStep(set_, y, e, before) {
        StepKeepsSuffix(set_, y, e, before);
      }
      RunFrom(set_, Step(set_, y, e), es[1..], InStep(set_, y, e, before));
    }
  }

  /** On every run the overlay's text is a tail of what the server had emitted, once its last stable was not passed
      over; with no message on the way it is a tail of what the server emits now. */
  lemma OverlayFollowsServer(set_: Setting, es: seq<Event>)
    requires InStepAfter(set_, INIT, es, true)
    ensures var z := RunAll(set_, INIT, es);
            && IsSuffix(Pending(z.overlay), z.delivered)
            && (z.chan == [] ==> IsSuffix(Pending(z.overlay), z.server.emitted))
  {
    hide Step, InStep;
    RunFrom(set_, INIT, es, true);
  }

  /** No delivered message has to be cut. */
  predicate AllFit(set_: Setting, y: Sys, es: seq<Event>)
    decreases |es|
  {
    es == [] || (FitsNow(set_.cap, y, es[0]) && AllFit(set_, Step(set_, y, es[0]), es[1..]))
  }

  /** No stable is passed over. */
  predicate NonePassedOver(set_: Setting, y: Sys, es: seq<Event>)
    decreases |es|
  {
    es == [] || (InStep(set_, y, es[0], true) && NonePassedOver(set_, Step(set_, y, es[0]), es[1..]))
  }

  /** The overlay's text is the delivered text. */
  predicate Equal(y: Sys) {
    Pending(y.overlay) == y.delivered
  }

  /** At every moment of the run. */
  ghost predicate EqualThroughout(set_: Setting, y: Sys, es: seq<Event>) {
    forall k :: 0 <= k <= |es| ==> Equal(RunAll(set_, y, es[..k]))
  }

  lemma EqualThroughoutCons(set_: Setting, y: Sys, es: seq<Event>)
    requires es != []
    ensures EqualThroughout(set_, y, es) <==> Equal(y) && EqualThroughout(set_, Step(set_, y, es[0]), es[1..])
  {
    hide Step, Equal;
    var z, rest := Step(set_, y, es[0]), es[1..];
    forall k | 0 <= k <= |rest| ensures RunAll(set_, z, rest[..k]) == RunAll(set_, y, es[..k + 1]) {
      assert es[..k + 1][1..] == rest[..k];
    }
    assert RunAll(set_, y, es[..0]) == y;
    if EqualThroughout(set_, y, es) {
      forall k | 0 <= k <= |rest| ensures Equal(RunAll(set_, z, rest[..k])) {
        assert Equal(RunAll(set_, y, es[..k + 1]));
      }
      assert Equal(RunAll(set_, y, es[..0]));
    }
    if Equal(y) && EqualThroughout(set_, z, rest) {
      forall k | 0 <= k <= |es| ensures Equal(RunAll(set_, y, es[..k])) {
        if k > 0 {
          assert Equal(RunAll(set_, z, rest[..k - 1]));
        }
      }
    }
  }

  lemma EqualThroughoutNow(set_: Setting, y: Sys, es: seq<Event>)
    ensures EqualThroughout(set_, y, es) ==> Equal(y) && Equal(RunAll(set_, y, es))
    ensures es == [] ==> (EqualThroughout(set_, y, es) <==> Equal(y))
  {
    hide Step, Equal;
    assert es[..0] == [] && es[..|es|] == es;
  }

  lemma {:induction false} EqualFrom(set_: Setting, y: Sys, es: seq<Event>)
    requires Linked(y) && Equal(y) && (set_.cap <= 0 || |y.delivered| <= set_.cap)
    requires AllFit(set_, y, es)
    ensures EqualThroughout(set_, y, es) <==> NonePassedOver(set_, y, es)
    decreases |es|
  {
    hide Linked, Step, Pending, InStep, FitsNow, EqualThroughout;
    EqualThroughoutNow(set_, y, es);
    if es != [] {
      StepLinks(set_, y, es[0]);
      StepKeepsEqual(set_, y, es[0]);
      EqualThroughoutCons(set_, y, es);
      EqualThroughoutNow(set_, Step(set_, y, es[0]), es[1..]);
      if InStep(set_, y, es[0], true) {
        EqualFrom(set_, Step(set_, y, es[0]), es[1..]);
      }
    }
  }

  /** Exactly when, over whole runs: if no delivered message has to be cut, the overlay shows the delivered text at
      every moment if and only if it never passes over a stable; it then shows exactly what the server emits as soon
      as no message is on the way. */
  lemma OverlayEqualsServerIff(set_: Setting, es: seq<Event>)
    requires AllFit(set_, INIT, es)
    ensures EqualThroughout(set_, INIT, es) <==> NonePassedOver(set_, INIT, es)
    ensures var z := RunAll(set_, INIT, es);
            NonePassedOver(set_, INIT, es) && z.chan == [] ==> Pending(z.overlay) == z.server.emitted
  {
    hide Step, InStep, FitsNow, EqualThroughout;
    EqualFrom(set_, INIT, es);
    EqualThroughoutNow(set_, INIT, es);
    RunFrom(set_, INIT, es, false);
  }

  const DIRECT := Setting(ServerConfig(RawConfig(2, 18, 120, true, true), false, 0, 0.0), 5200)

  const NOW := Clock(0.0, 0, 0)

  lemma PatchArrives(text: string)
    requires JoinWords(text) == text != ""
    ensures var b := Step(DIRECT, Step(DIRECT, INIT, ModelText(text, NOW)), Deliver);
            && b.chan == [] && b.server.snapshot == "" && Linked(b)
            && Pending(b.overlay) == text && b.delivered == b.server.emitted == text
  {
    hide JoinWords, Update, EndPatch, Pending;
    var a := Step(DIRECT, INIT, ModelText(text, NOW));
    var p := EndPatch("", text);
    assert a.chan == [Sent(Patch(p.0, p.1, 1), text)] && a.server.snapshot == "";
    NothingPending();
    StepLinks(DIRECT, INIT, ModelText(text, NOW));
    StepLinks(DIRECT, a, Deliver);
    EnqueuePending(EnOverlay.START, Op(p.0, p.1), 1);
    PatchRoundTrip("", text);
  }

  lemma NothingPending()
    ensures Pending(EnOverlay.START) == ""
  {
  }

  lemma StableLeaves(b: Sys, stable: string)
    requires b.chan == [] && b.server.snapshot == "" && JoinWords(stable) == stable != ""
    ensures var c := Step(DIRECT, b, StableText(stable, NOW));
            && c.chan == [Sent(Stable(stable, b.server.stableSeq + 1), stable)]
            && c.overlay == b.overlay && c.server.emitted == stable
  {
  }

  lemma StableArrives(c: Sys, text: string, stable: string, n: nat)
    requires c.chan == [Sent(Stable(stable, n), stable)] && Pending(c.overlay) == text && n > c.overlay.lastStable
    requires |stable| <= RELAY_MAX && |text| <= 5200
    requires |stable| < |text| <= |stable| + 24 && !(stable <= text)
    ensures var d := Step(DIRECT, c, Deliver); d.chan == [] && d.server == c.server && Pending(d.overlay) == text
  {
  }

  /** A stable is passed over exactly when it is shorter than the overlay's text by at most 24 characters and no
      beginning of it. */
  lemma PassesOverIff(cap: int, o: Overlay, full: string)
    ensures var text, stable := Flush(cap, o).full, Capped(cap, TailForLayout(full, RELAY_MAX));
            PassesOver(cap, o, full) <==> |stable| < |text| <= |stable| + 24 && !(stable <= text)
  {
    hide Flush, Capped, TailForLayout;
  }

  /** One stable passed over is enough to leave the overlay with text that the server has taken back. */
  lemma PassedOverStableDiverges(text: string, stable: string)
    requires JoinWords(text) == text && JoinWords(stable) == stable != ""
    requires |stable| < |text| <= |stable| + 24 && !(stable <= text)
    requires |text| <= RELAY_MAX
    ensures var z := RunAll(DIRECT, INIT, [ModelText(text, NOW), Deliver, StableText(stable, NOW), Deliver]);
            z.chan == [] && z.server.emitted == stable != text && Pending(z.overlay) == text
  {
    hide Step, Pending, JoinWords;
    PatchArrives(text);
    var b := Step(DIRECT, Step(DIRECT, INIT, ModelText(text, NOW)), Deliver);
    StableLeaves(b, stable);
    StableArrives(Step(DIRECT, b, StableText(stable, NOW)), text, stable, b.server.stableSeq + 1);
    var es := [ModelText(text, NOW), Deliver, StableText(stable, NOW), Deliver];
    assert es[1..] == [Deliver, StableText(stable, NOW), Deliver] && es[1..][1..] == [StableText(stable, NOW), Deliver];
    assert es[1..][1..][1..] == [Deliver] && es[1..][1..][1..][1..] == [];
    var c := Step(DIRECT, b, StableText(stable, NOW));
    assert RunAll(DIRECT, INIT, es) == RunAll(DIRECT, b, es[1..][1..]);
    assert RunAll(DIRECT, b, es[1..][1..]) == RunAll(DIRECT, c, es[1..][1..][1..]);
    assert RunAll(DIRECT, c, es[1..][1..][1..]) == Step(DIRECT, c, Deliver);
  }
}
