/** The overlay's Vietnamese text: an append-mostly commit, a draft that may extend it, and four guards. */
module ViOverlay {
  import opened Text
  import opened TailTrim
  import opened EnOverlay

  /** The numbers a message may carry; a missing or non-finite number is None. */
  datatype Meta = Meta(epoch: Option<int>, reqId: Option<int>, enSeq: Option<int>, seqNo: Option<int>)

  datatype Kind = OpKind | StableKind | DraftKind

  datatype Vi = Vi(
    commit: string, draft: string, draftOn: bool, ops: seq<Op>,
    commitSeq: int, draftSeq: int, enSeq: int, epoch: int, reqId: int)

  const VI_START := Vi("", "", false, [], -1, -1, -1, 0, -1)

  /** JavaScript's `n | 0`. */
  function ToInt32(n: int): (r: int)
    ensures -0x8000_0000 <= r < 0x8000_0000
    ensures -0x8000_0000 <= n < 0x8000_0000 ==> r == n
  {
    (n + 0x8000_0000) % 0x1_0000_0000 - 0x8000_0000
  }

  datatype Verdict = Verdict(ok: bool, vi: Vi)

  function AdoptEpoch(v: Vi, e: int): Vi {
    if e > v.epoch then v.(epoch := e, reqId := -1, commitSeq := -1, draftSeq := -1, enSeq := -1) else v
  }

  function GuardSeq(v: Vi, s: int, k: Kind): Verdict {
    if k.DraftKind? then
      if s <= v.draftSeq then Verdict(false, v) else Verdict(true, v.(draftSeq := s))
    else if s < v.commitSeq || (s == v.commitSeq && !k.StableKind?) then Verdict(false, v)
    else Verdict(true, v.(commitSeq := s))
  }

  /** Epoch, then request, then English number, then own number: what an earlier guard wrote stays written when a later
      one rejects. */
  function Guard(v: Vi, m: Meta, k: Kind): Verdict {
    if m.epoch.Some? && m.epoch.value < v.epoch then Verdict(false, v)
    else
      var a := if m.epoch.Some? then AdoptEpoch(v, m.epoch.value) else v;
      if m.reqId.Some? && m.reqId.value < a.reqId then Verdict(false, a)
      else
        var b := if m.reqId.Some? then a.(reqId := m.reqId.value) else a;
        if m.enSeq.Some? && m.enSeq.value < b.enSeq then Verdict(false, b)
        else
          var c := if m.enSeq.Some? then b.(enSeq := m.enSeq.value) else b;
          if m.seqNo.Some? then GuardSeq(c, m.seqNo.value, k) else Verdict(true, c)
  }

  /** A draft that the commit has left behind is dropped. */
  function DropDiverged(v: Vi): Vi {
    if v.draft != "" && !(v.commit <= v.draft) then v.(draft := "") else v
  }

  function FlushVi(cap: int, v: Vi): Vi {
    if v.ops == [] then v
    else DropDiverged(v.(commit := Capped(cap, ApplyAll(v.commit, v.ops)), ops := []))
  }

  function OnOp(v: Vi, del: int, ins: string, m: Meta): Vi {
    var g := Guard(v, m, OpKind);
    if g.ok then g.vi.(ops := v.ops + [Op(del, ins)]) else g.vi
  }

  function OnStable(cap: int, v: Vi, full: string, m: Meta): Vi {
    var g := Guard(v, m, StableKind);
    if !g.ok then g.vi
    else
      var f := FlushVi(cap, g.vi);
      var stable := Capped(cap, full);
      if stable == f.commit then f else DropDiverged(f.(commit := stable))
  }

  function OnDraft(v: Vi, full: string, m: Meta): Vi {
    if !v.draftOn then v
    else
      var g := Guard(v, m, DraftKind);
      if !g.ok || (v.commit != "" && !(v.commit <= full)) then g.vi else g.vi.(draft := full)
  }

  function OnConfig(v: Vi, on: bool): Vi {
    v.(draftOn := on, draft := if on then v.draft else "")
  }

  function OnReset(v: Vi): Vi {
    Vi("", "", v.draftOn, [], -1, -1, -1, ToInt32(v.epoch) + 1, -1)
  }

  /** `ready` stands for the display's timing rules, which only choose when a draft is shown. */
  function Visible(v: Vi, ready: bool): string {
    if v.draft != "" && v.commit <= v.draft && ready then v.draft else v.commit
  }

  datatype Event =
    | OpMsg(del: int, ins: string, meta: Meta)
    | StableMsg(full: string, meta: Meta)
    | DraftMsg(full: string, meta: Meta)
    | ConfigMsg(on: bool)
    | ResetMsg
    | Frame

  function Step(cap: int, v: Vi, e: Event): Vi {
    match e
    case OpMsg(del, ins, m) => OnOp(v, del, ins, m)
    case StableMsg(full, m) => OnStable(cap, v, full, m)
    case DraftMsg(full, m) => OnDraft(v, full, m)
    case ConfigMsg(on) => OnConfig(v, on)
    case ResetMsg => OnReset(v)
    case Frame => FlushVi(cap, v)
  }

  class VietnameseOverlay {
    const cap: int
    var commitText: string
    var draftText: string
    var draftEnabled: bool
    var ops: seq<Op>
    var scheduled: bool
    var lastCommitSeq: int
    var lastDraftSeq: int
    var lastEnSeq: int
    var epoch: int
    var lastReqId: int

    ghost function State(): Vi
      reads this
    {
      Vi(commitText, draftText, draftEnabled, ops, lastCommitSeq, lastDraftSeq, lastEnSeq, epoch, lastReqId)
    }

    ghost predicate Valid()
      reads this
    {
      scheduled <==> ops != []
    }

    constructor (cap: int)
      ensures this.cap == cap && Valid() && State() == VI_START
    {
      this.cap := cap;
      commitText, draftText, draftEnabled, ops, scheduled := "", "", false, [], false;
      lastCommitSeq, lastDraftSeq, lastEnSeq, epoch, lastReqId := -1, -1, -1, 0, -1;
    }

    method GuardAndUpdate(m: Meta, k: Kind) returns (ok: bool)
      modifies this`lastCommitSeq, this`lastDraftSeq, this`lastEnSeq, this`epoch, this`lastReqId
      ensures Verdict(ok, State()) == Guard(old(State()), m, k)
    {
      hide GuardSeq;
      if m.epoch.Some? {
        var e := m.epoch.value;
        if e < epoch {
          return false;
        }
        if e > epoch {
          epoch := e;
          lastReqId, lastCommitSeq, lastDraftSeq, lastEnSeq := -1, -1, -1, -1;
        }
      }
      ghost var a := State();
      assert a == if m.epoch.Some? then AdoptEpoch(old(State()), m.epoch.value) else old(State());
      hide AdoptEpoch;
      if m.reqId.Some? {
        var r := m.reqId.value;
        if r < lastReqId {
          return false;
        }
        if r > lastReqId {
          lastReqId := r;
        }
      }
      if m.enSeq.Some? {
        var es := m.enSeq.value;
        if es < lastEnSeq {
          return false;
        }
        lastEnSeq := es;
      }
      if m.seqNo.Some? {
        ok := GuardOwnSeq(m.seqNo.value, k);
        return ok;
      }
      return true;
    }

    method GuardOwnSeq(s: int, k: Kind) returns (ok: bool)
      modifies this`lastCommitSeq, this`lastDraftSeq
      ensures Verdict(ok, State()) == GuardSeq(old(State()), s, k)
    {
      if k.DraftKind? {
        if s <= lastDraftSeq {
          return false;
        }
        lastDraftSeq := s;
      } else {
        var stale := if k.StableKind? then s < lastCommitSeq else s <= lastCommitSeq;
        if stale {
          return false;
        }
        if s > lastCommitSeq {
          lastCommitSeq := s;
        }
      }
      return true;
    }

    method EnqueueOp(del: int, ins: string, m: Meta)
      requires Valid()
      modifies this
      ensures Valid() && State() == OnOp(old(State()), del, ins, m)
    {
      var ok := GuardAndUpdate(m, OpKind);
      if !ok {
        return;
      }
      ops := ops + [Op(del, ins)];
      if !scheduled {
        scheduled := true;
      }
    }

    method FlushFrame()
      requires Valid()
      modifies this
      ensures Valid() && State() == FlushVi(cap, old(State()))
    {
      hide ApplyOp, TailForLayout;
      if ops != [] {
        var i := 0;
        while i < |ops|
          invariant 0 <= i <= |ops| && ops == old(ops)
          invariant ApplyAll(commitText, ops[i..]) == ApplyAll(old(commitText), old(ops))
          invariant State().(commit := old(commitText)) == old(State())
        {
          assert ops[i..][1..] == ops[i + 1..];
          commitText := ApplyOp(commitText, ops[i]);
          i := i + 1;
        }
        ops := [];
        if cap > 0 && |commitText| > cap {
          commitText := TailForLayout(commitText, cap);
        }
        if draftText != "" && !(commitText <= draftText) {
          draftText := "";
        }
      }
      scheduled := false;
    }

    method ApplyStable(full: string, m: Meta)
      requires Valid()
      modifies this
      ensures Valid() && State() == OnStable(cap, old(State()), full, m)
    {
      hide Capped, ApplyAll, Guard, DropDiverged;
      var stable := Capped(cap, full);
      var ok := GuardAndUpdate(m, StableKind);
      if !ok {
        return;
      }
      if scheduled {
        FlushFrame();
      }
      if stable == commitText {
        return;
      }
      commitText := stable;
      DropDivergedDraft();
    }

    method DropDivergedDraft()
      modifies this`draftText
      ensures State() == DropDiverged(old(State()))
    {
      if draftText != "" && !(commitText <= draftText) {
        draftText := "";
      }
    }

    method ApplyDraft(full: string, m: Meta)
      requires Valid()
      modifies this
      ensures Valid() && State() == OnDraft(old(State()), full, m)
    {
      if !draftEnabled {
        return;
      }
      var ok := GuardAndUpdate(m, DraftKind);
      if !ok {
        return;
      }
      if commitText != "" && !(commitText <= full) {
        return;
      }
      draftText := full;
    }

    method Configure(on: bool)
      requires Valid()
      modifies this
      ensures Valid() && State() == OnConfig(old(State()), on)
    {
      draftEnabled := on;
      if !draftEnabled && draftText != "" {
        draftText := "";
      }
    }

    /** The overlay's full reset, as far as the Vietnamese text goes. */
    method Reset()
      requires Valid()
      modifies this
      ensures Valid() && State() == OnReset(old(State()))
    {
      commitText, draftText, ops, scheduled := "", "", [], false;
      lastCommitSeq, lastDraftSeq, lastEnSeq, lastReqId := -1, -1, -1, -1;
      epoch := ToInt32(epoch) + 1;
    }

    /** The reset on a translator (re)connect: it flushes first, and then forgets all the same. */
    method ResetVietnamese()
      requires Valid()
      modifies this
      ensures Valid() && State() == OnReset(old(State()))
    {
      hide ApplyAll, Capped;
      if scheduled {
        FlushFrame();
      }
      commitText, draftText, ops := "", "", [];
      lastCommitSeq, lastDraftSeq, lastEnSeq, lastReqId := -1, -1, -1, -1;
      epoch := ToInt32(epoch) + 1;
    }
  }

  // ---- every reachable state ----

  predicate DraftExtends(v: Vi) {
    v.draft == "" || v.commit <= v.draft
  }

  function RunAll(cap: int, v: Vi, es: seq<Event>): Vi
    decreases |es|
  {
    if es == [] then v else RunAll(cap, Step(cap, v, es[0]), es[1..])
  }

  /** The draft is empty or extends the commit in every reachable state, so the visible text always extends the
      commit. */
  lemma {:induction false} VisibleExtendsCommit(cap: int, v: Vi, es: seq<Event>, ready: bool)
    requires DraftExtends(v)
    ensures var z := RunAll(cap, v, es);
            && DraftExtends(z) && z.commit <= Visible(z, ready)
            && (ready ==> Visible(z, ready) == if z.draft != "" then z.draft else z.commit)
    decreases |es|
  {
    if es != [] {
      StepKeepsDraft(cap, v, es[0]);
      VisibleExtendsCommit(cap, Step(cap, v, es[0]), es[1..], ready);
    }
  }

  lemma StepKeepsDraft(cap: int, v: Vi, e: Event)
    requires DraftExtends(v)
    ensures DraftExtends(Step(cap, v, e))
  {
    hide ApplyAll, Capped, Guard;
    match e
    case OpMsg(_, _, m) => GuardMarks(v, m, OpKind);
    case StableMsg(_, m) => GuardMarks(v, m, StableKind);
    case DraftMsg(_, m) => GuardMarks(v, m, DraftKind);
    case ConfigMsg(_) =>
    case ResetMsg =>
    case Frame =>
  }

  // ---- marks ----

  predicate LexLess(a: (int, int), b: (int, int)) {
    a.0 < b.0 || (a.0 == b.0 && a.1 < b.1)
  }

  predicate LexAtMost(a: (int, int), b: (int, int)) {
    a == b || LexLess(a, b)
  }

  predicate MarksGrow(v: Vi, w: Vi) {
    && LexAtMost((v.epoch, v.reqId), (w.epoch, w.reqId))
    && LexAtMost((v.epoch, v.enSeq), (w.epoch, w.enSeq))
    && LexAtMost((v.epoch, v.draftSeq), (w.epoch, w.draftSeq))
    && LexAtMost((v.epoch, v.commitSeq), (w.epoch, w.commitSeq))
  }

  /** A reset moves the epoch forward exactly while it is below 2^31: `|` works on 32 bits. */
  lemma ResetGrowsIff(v: Vi)
    ensures OnReset(v).epoch > v.epoch <==> v.epoch < 0x8000_0000
  {
  }

  lemma GuardMarks(v: Vi, m: Meta, k: Kind)
    ensures MarksGrow(v, Guard(v, m, k).vi)
    ensures var g := Guard(v, m, k);
            && g.vi.(epoch := v.epoch, reqId := v.reqId, enSeq := v.enSeq,
                     draftSeq := v.draftSeq, commitSeq := v.commitSeq) == v
            && (g.ok && m.seqNo.Some? && k.OpKind? ==>
                  (g.vi.commitSeq == m.seqNo.value && LexLess((v.epoch, v.commitSeq), (g.vi.epoch, m.seqNo.value))))
  {
  }

  predicate InRange(v: Vi, e: Event) {
    e.ResetMsg? ==> v.epoch < 0x8000_0000
  }

  /** Within an epoch no mark ever goes back. */
  lemma StepMarks(cap: int, v: Vi, e: Event)
    requires InRange(v, e)
    ensures MarksGrow(v, Step(cap, v, e))
  {
    hide ApplyAll, Capped, Guard;
    match e
    case OpMsg(_, _, m) => GuardMarks(v, m, OpKind);
    case StableMsg(_, m) => GuardMarks(v, m, StableKind);
    case DraftMsg(_, m) => GuardMarks(v, m, DraftKind);
    case ConfigMsg(_) =>
    case ResetMsg => ResetGrowsIff(v);
    case Frame =>
  }

  /** The (epoch, number) pairs of the numbered operations accepted on a run. */
  function Accepted(cap: int, v: Vi, es: seq<Event>): seq<(int, int)>
    decreases |es|
  {
    if es == [] then []
    else Marked(v, es[0]) + Accepted(cap, Step(cap, v, es[0]), es[1..])
  }

  function Marked(v: Vi, e: Event): seq<(int, int)> {
    if e.OpMsg? && Guard(v, e.meta, OpKind).ok && e.meta.seqNo.Some? then
      [(Guard(v, e.meta, OpKind).vi.epoch, e.meta.seqNo.value)]
    else []
  }

  predicate AllInRange(cap: int, v: Vi, es: seq<Event>)
    decreases |es|
  {
    es == [] || (InRange(v, es[0]) && AllInRange(cap, Step(cap, v, es[0]), es[1..]))
  }

  predicate Increasing(after: (int, int), log: seq<(int, int)>) {
    && (forall i :: 0 <= i < |log| ==> LexLess(after, log[i]))
    && forall i, j :: 0 <= i < j < |log| ==> LexLess(log[i], log[j])
  }

  /** No operation is applied twice or out of order: the accepted numbers strictly increase, epoch first. */
  lemma {:induction false} AcceptedIncrease(cap: int, v: Vi, es: seq<Event>)
    requires AllInRange(cap, v, es)
    ensures Increasing((v.epoch, v.commitSeq), Accepted(cap, v, es))
    decreases |es|
  {
    hide Step, Guard, InRange, LexLess, Marked;
    if es != [] {
      var w := Step(cap, v, es[0]);
      AcceptedIncrease(cap, w, es[1..]);
      StepMarks(cap, v, es[0]);
      StepMarked(cap, v, es[0]);
      LogStep((v.epoch, v.commitSeq), (w.epoch, w.commitSeq), Marked(v, es[0]), Accepted(cap, w, es[1..]));
    }
  }

  lemma StepMarked(cap: int, v: Vi, e: Event)
    ensures var w := Step(cap, v, e);
            || Marked(v, e) == []
            || (Marked(v, e) == [(w.epoch, w.commitSeq)] && LexLess((v.epoch, v.commitSeq), (w.epoch, w.commitSeq)))
  {
  }

  lemma LogStep(a: (int, int), b: (int, int), head: seq<(int, int)>, rest: seq<(int, int)>)
    requires Increasing(b, rest) && LexAtMost(a, b)
    requires head == [] || (head == [b] && LexLess(a, b))
    ensures Increasing(a, head + rest)
  {
  }

  /** A reset bumps the epoch to fend off late messages, but only messages that carry an epoch can be fended off: one
      that carries none, like all of the translator's, passes right after the reset unless its own numbers are below
      -1 (or its own number is -1 and it is no stable). */
  lemma LateMessagesPass(v: Vi, m: Meta, k: Kind)
    requires m.epoch.None?
    ensures Guard(OnReset(v), m, k).ok
            <==> && (m.reqId.Some? ==> m.reqId.value >= -1) && (m.enSeq.Some? ==> m.enSeq.value >= -1)
                 && (m.seqNo.Some? ==> m.seqNo.value > -1 || (m.seqNo.value == -1 && k.StableKind?))
  {
  }

  /** What two accepted operations around a reset say about the order of the accepted numbers: it survives the reset
      exactly below 2^31. */
  lemma OrderSurvivesResetIff(cap: int, v: Vi, n: int, k: int)
    requires n > v.commitSeq && k > -1
    ensures var m := (i: int) => OpMsg(0, "", Meta(None, None, None, Some(i)));
            Increasing((v.epoch, v.commitSeq), Accepted(cap, v, [m(n), ResetMsg, m(k)])) <==> v.epoch < 0x8000_0000
  {
    hide ToInt32, ApplyAll;
    var m := (i: int) => OpMsg(0, "", Meta(None, None, None, Some(i)));
    var es := [m(n), ResetMsg, m(k)];
    var a := Step(cap, v, es[0]);
    var b := Step(cap, a, es[1]);
    var c := Step(cap, b, es[2]);
    assert es[1..] == [ResetMsg, m(k)] && es[1..][1..] == [m(k)] && es[1..][1..][1..] == [];
    ResetGrowsIff(a);
    assert a.epoch == v.epoch && b.epoch == ToInt32(v.epoch) + 1 && b.commitSeq == -1;
    assert Marked(v, es[0]) == [(v.epoch, n)] && Marked(a, es[1]) == [] && Marked(b, es[2]) == [(b.epoch, k)];
    assert Accepted(cap, b, [m(k)]) == [(b.epoch, k)] + [];
    assert Accepted(cap, a, es[1..]) == [] + [(b.epoch, k)];
    assert Accepted(cap, v, es) == [(v.epoch, n), (b.epoch, k)];
    EpochDiffers(v);
    var log := [(v.epoch, n), (b.epoch, k)];
    assert Increasing((v.epoch, v.commitSeq), log) ==> LexLess(log[0], log[1]);
  }

  lemma EpochDiffers(v: Vi)
    ensures ToInt32(v.epoch) + 1 != v.epoch
  {
  }

  /** A commit that was on its way when the overlay was reset is shown by the new session, whatever it shows and
      counts: only its own three numbers could keep it out, and those of a running translator are not negative. */
  lemma LateCommitIsShown(cap: int, v: Vi, app: string, enSeq: int, n: int)
    requires enSeq >= 0 && n >= 1
    ensures var z := RunAll(cap, v, [ResetMsg, OpMsg(0, app, Meta(None, None, Some(enSeq), Some(n))), Frame]);
            z.commit == Capped(cap, app) && z.commitSeq == n && z.enSeq == enSeq
  {
    hide ToInt32, Capped, ApplyOp;
    var es := [ResetMsg, OpMsg(0, app, Meta(None, None, Some(enSeq), Some(n))), Frame];
    assert es[1..] == [es[1], Frame] && es[1..][1..] == [Frame] && es[1..][1..][1..] == [];
    var a := Step(cap, v, es[0]);
    LateMessagesPass(v, es[1].meta, OpKind);
    var b := Step(cap, a, es[1]);
    assert b.ops == [Op(0, app)] && b.commit == "";
    AppliesOnce(app);
    var c := Step(cap, b, Frame);
    assert RunAll(cap, v, es) == RunAll(cap, b, [Frame]) == c;
  }

  lemma AppliesOnce(app: string)
    ensures ApplyAll("", [Op(0, app)]) == app
  {
    assert [Op(0, app)][1..] == [];
    assert ApplyOp("", Op(0, app)) == "" + app == app;
  }

  // ---- what the guards let through ----

  /** A number is in order if it is missing or not below its mark; a higher epoch starts all marks at -1. */
  predicate InOrder(n: Option<int>, mark: int, anew: bool, strictly: bool) {
    n.Some? ==> var m := if anew then -1 else mark; n.value > m || (n.value == m && !strictly)
  }

  /** A message passes exactly when its epoch is not old, its request and its English number do not go back, and its own
      number goes forward; a stable may repeat the last one. */
  lemma GuardIff(v: Vi, m: Meta, k: Kind)
    ensures var anew := m.epoch.Some? && m.epoch.value > v.epoch;
            Guard(v, m, k).ok
            <==> && (m.epoch.Some? ==> m.epoch.value >= v.epoch)
                 && InOrder(m.reqId, v.reqId, anew, false) && InOrder(m.enSeq, v.enSeq, anew, false)
                 && InOrder(m.seqNo, if k.DraftKind? then v.draftSeq else v.commitSeq, anew, !k.StableKind?)
  {
  }

  /** A draft becomes the visible text, once the display is ready, exactly when drafts are on, the guards let it
      through and it extends the commit; otherwise what was visible stays. */
  lemma DraftIsShownIff(v: Vi, full: string, m: Meta)
    requires DraftExtends(v) && full != ""
    ensures var w := OnDraft(v, full, m);
            var shown := v.draftOn && Guard(v, m, DraftKind).ok && v.commit <= full;
            && w.commit == v.commit && w.ops == v.ops
            && Visible(w, true) == (if shown then full else Visible(v, true))
  {
    hide Guard;
    GuardMarks(v, m, DraftKind);
  }

  /** What a passed or rejected message leaves behind: every guard that it passes keeps its number, up to the first
      one that rejects it; a higher epoch is kept at once and forgets the other marks. */
  lemma GuardStores(v: Vi, m: Meta, k: Kind)
    ensures var anew, w := m.epoch.Some? && m.epoch.value > v.epoch, Guard(v, m, k).vi;
            var old_ := m.epoch.Some? && m.epoch.value < v.epoch;
            var req := !old_ && InOrder(m.reqId, v.reqId, anew, false);
            var en := req && InOrder(m.enSeq, v.enSeq, anew, false);
            var own := en && InOrder(m.seqNo, if k.DraftKind? then v.draftSeq else v.commitSeq, anew, !k.StableKind?);
            && w.epoch == (if anew then m.epoch.value else v.epoch)
            && w.reqId == (if req && m.reqId.Some? then m.reqId.value else if anew then -1 else v.reqId)
            && w.enSeq == (if en && m.enSeq.Some? then m.enSeq.value else if anew then -1 else v.enSeq)
            && w.draftSeq == (if own && m.seqNo.Some? && k.DraftKind? then m.seqNo.value
                              else if anew then -1 else v.draftSeq)
            && w.commitSeq == (if own && m.seqNo.Some? && !k.DraftKind? then m.seqNo.value
                               else if anew then -1 else v.commitSeq)
  {
  }

  /** Turning drafts off or resetting takes the draft away at once; a reset also clears the commit. */
  lemma DraftGoes(v: Vi, ready: bool)
    ensures Visible(OnConfig(v, false), ready) == v.commit && !OnConfig(v, false).draftOn
    ensures DraftExtends(v) ==> Visible(OnConfig(v, true), ready) == Visible(v, ready) && OnConfig(v, true).draftOn
    ensures Visible(OnReset(v), ready) == "" && OnReset(v).ops == [] && OnReset(v).draftOn == v.draftOn
  {
  }

  /** A flush keeps a draft exactly if it still extends the commit, which is never longer than the cap. */
  lemma FlushKeepsDraft(cap: int, v: Vi)
    requires DraftExtends(v)
    ensures var w := FlushVi(cap, v);
            && w.draft == (if w.commit <= v.draft then v.draft else "")
            && (cap > 0 && |v.commit| <= cap ==> |w.commit| <= cap)
            && w.draftOn == v.draftOn && w.epoch == v.epoch && w.ops == []
  {
    hide ApplyAll, TailForLayout;
  }
}
