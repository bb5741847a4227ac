/** The Vietnamese text from the translator's commit worker over the service worker to the overlay. */
module ViPipeline {
  import opened Text
  import opened EnOverlay
  import opened ViOverlay

  datatype Wire =
    | Commit(app: string, seqNo: int, enSeq: int)
    | Delta(app: string, seqNo: int, enSeq: int)
    | Draft(text: string, seqNo: int, draftEnSeq: Option<int>, reqId: Option<int>)

  // ---- the commit worker ----

  function JoinVi(prev: string, new_: string): string {
    var v := Strip(new_);
    if v == [] then ""
    else if prev == [] then v + " "
    else if IsSpace(prev[|prev| - 1]) then v + " "
    else if IsPunct(prev[|prev| - 1]) then " " + v + " "
    else " " + v + " "
  }

  datatype Worker = Worker(viFull: string, viSeq: nat)

  datatype Sending = Sending(worker: Worker, sent: seq<Wire>)

  /** Every append is sent as a commit and, for older receivers, once more as a delta with the same number. */
  function Append(compat: bool, w: Worker, vi: string, enSeq: int): Sending {
    var app := JoinVi(w.viFull, vi);
    if app == [] then Sending(w, [])
    else
      var n := w.viSeq + 1;
      Sending(Worker(w.viFull + app, n), [Commit(app, n, enSeq)] + if compat then [Delta(app, n, enSeq)] else [])
  }

  class CommitWorker {
    const compat: bool
    var viFull: string
    var viSeq: nat

    constructor (compat: bool)
      ensures this.compat == compat && viFull == "" && viSeq == 0
    {
      this.compat := compat;
      viFull, viSeq := "", 0;
    }

    method Send(vi: string, enSeq: int) returns (sent: seq<Wire>)
      modifies this
      ensures Sending(Worker(viFull, viSeq), sent) == Append(compat, Worker(old(viFull), old(viSeq)), vi, enSeq)
    {
      hide JoinVi;
      sent := [];
      var app := JoinVi(viFull, vi);
      if app == [] {
        return;
      }
      viFull := viFull + app;
      viSeq := viSeq + 1;
      sent := [Commit(app, viSeq, enSeq)];
      if compat {
        sent := sent + [Delta(app, viSeq, enSeq)];
      }
    }
  }

  function Piece(vi: string): string {
    if Strip(vi) == [] then "" else Strip(vi) + " "
  }

  function Pieces(vis: seq<string>): string
    decreases |vis|
  {
    if vis == [] then "" else Pieces(vis[..|vis| - 1]) + Piece(vis[|vis| - 1])
  }

  function WorkAll(compat: bool, items: seq<(string, int)>): Worker
    decreases |items|
  {
    if items == [] then Worker("", 0)
    else
      var x := items[|items| - 1];
      Append(compat, WorkAll(compat, items[..|items| - 1]), x.0, x.1).worker
  }

  function Translations(items: seq<(string, int)>): seq<string> {
    seq(|items|, i requires 0 <= i < |items| => items[i].0)
  }

  predicate EndsInBlank(s: string) {
    s == "" || IsSpace(s[|s| - 1])
  }

  /** After an empty text or a blank, only the first two cases of the joining rule arise. */
  lemma JoinIsPiece(prev: string, vi: string)
    requires EndsInBlank(prev)
    ensures JoinVi(prev, vi) == Piece(vi)
    ensures EndsInBlank(prev + Piece(vi))
  {
  }

  /** The text sent is every translation, stripped, with one blank behind it. */
  lemma {:induction false} FullIsPieces(compat: bool, items: seq<(string, int)>)
    ensures var full := WorkAll(compat, items).viFull; full == Pieces(Translations(items)) && EndsInBlank(full)
    decreases |items|
  {
    hide Piece, JoinVi, EndsInBlank;
    if items == [] {
      assert EndsInBlank("") by { JoinIsPieceStart(); }
    } else {
      var init := items[..|items| - 1];
      var x := items[|items| - 1];
      FullIsPieces(compat, init);
      var w := WorkAll(compat, init);
      JoinIsPiece(w.viFull, x.0);
      assert Translations(items)[..|items| - 1] == Translations(init);
      assert w.viFull + "" == w.viFull;
    }
  }

  lemma JoinIsPieceStart()
    ensures EndsInBlank("")
  {
  }

  // ---- the whole way ----

  /** `up` runs from the translator to the service worker, `down` from there to the overlay; `delivered` is the
      translator's text as far as its commits have been delivered, and `commits` their number. */
  datatype Sys = Sys(
    worker: Worker, draftSeq: nat, up: seq<Wire>, lastRx: int, down: seq<Wire>,
    delivered: string, commits: nat, overlay: Vi)

  const INIT := Sys(Worker("", 0), 0, [], -1, [], "", 0, VI_START)

  datatype Event =
    | Translated(vi: string, enSeq: int)
    | Drafted(text: string, draftEnSeq: Option<int>, reqId: Option<int>)
    | Hello(draftOn: bool)
    | Forward
    | Deliver
    | Frame

  datatype Setting = Setting(compat: bool, cap: int)

  /** The service worker drops a delta whose commit it has seen. */
  predicate Forwards(lastRx: int, m: Wire) {
    !(m.Delta? && 0 < m.seqNo <= lastRx)
  }

  function RxMark(lastRx: int, m: Wire): int {
    if m.Commit? && m.seqNo > 0 then Max(lastRx, m.seqNo) else lastRx
  }

  /** The service worker's part. */
  class Relay {
    var lastRxViCommitSeq: int

    constructor ()
      ensures lastRxViCommitSeq == -1
    {
      lastRxViCommitSeq := -1;
    }

    method OnMessage(m: Wire) returns (forward: bool)
      modifies this
      ensures forward == Forwards(old(lastRxViCommitSeq), m)
      ensures lastRxViCommitSeq == RxMark(old(lastRxViCommitSeq), m)
    {
      match m
      case Commit(_, viSeq, _) =>
        if viSeq > 0 {
          lastRxViCommitSeq := Max(lastRxViCommitSeq, viSeq);
        }
        forward := true;
      case Delta(_, viSeq, _) =>
        forward := true;
        if viSeq > 0 {
          if viSeq <= lastRxViCommitSeq {
            forward := false;
          }
        }
      case Draft(_, _, _, _) =>
        forward := true;
    }
  }

  function Receive(v: Vi, m: Wire): Vi {
    match m
    case Commit(app, n, en) => OnOp(v, 0, app, Meta(None, None, Some(en), Some(n)))
    case Delta(app, n, en) => OnOp(v, 0, app, Meta(None, None, Some(en), Some(n)))
    case Draft(text, n, en, req) => OnDraft(v, text, Meta(None, req, en, Some(n)))
  }

  function Step(set_: Setting, y: Sys, e: Event): Sys {
    match e
    case Translated(vi, en) =>
      var s := Append(set_.compat, y.worker, vi, en);
      y.(worker := s.worker, up := y.up + s.sent)
    case Drafted(text, en, req) =>
      y.(draftSeq := y.draftSeq + 1, up := y.up + [Draft(text, y.draftSeq + 1, en, req)])
    case Hello(on) => y.(overlay := OnConfig(y.overlay, on))
    case Forward =>
      if y.up == [] then y
      else
        var m := y.up[0];
        y.(up := y.up[1..],
           lastRx := RxMark(y.lastRx, m),
           down := if Forwards(y.lastRx, m) then y.down + [m] else y.down)
    case Deliver =>
      if y.down == [] then y
      else
        var m := y.down[0];
        y.(down := y.down[1..],
           delivered := if m.Commit? then y.delivered + m.app else y.delivered,
           commits := if m.Commit? then y.commits + 1 else y.commits,
           overlay := Receive(y.overlay, m))
    case Frame => y.(overlay := FlushVi(set_.cap, y.overlay))
  }

  function RunAll(set_: Setting, y: Sys, es: seq<Event>): Sys
    decreases |es|
  {
    if es == [] then y else RunAll(set_, Step(set_, y, es[0]), es[1..])
  }

  /** The commit text once the waiting operations are flushed. */
  function Flushed(v: Vi): string {
    ApplyAll(v.commit, v.ops)
  }

  // ---- what is on the way ----

  /** Up the line the commits carry the next numbers, and each delta comes behind its commit. */
  predicate UpOk(r: int, up: seq<Wire>, n: int)
    decreases |up|
  {
    if up == [] then r == n
    else match up[0]
      case Commit(_, k, _) => k == r + 1 && UpOk(k, up[1..], n)
      case Delta(_, k, _) => 0 < k <= r && UpOk(r, up[1..], n)
      case Draft(_, _, _, _) => UpOk(r, up[1..], n)
  }

  /** Down the line there are no deltas left. */
  predicate DownOk(c: int, down: seq<Wire>, r: int)
    decreases |down|
  {
    if down == [] then c == r
    else match down[0]
      case Commit(_, k, _) => k == c + 1 && DownOk(k, down[1..], r)
      case Delta(_, _, _) => false
      case Draft(_, _, _, _) => DownOk(c, down[1..], r)
  }

  function Apps(ms: seq<Wire>): string
    decreases |ms|
  {
    if ms == [] then "" else (if ms[0].Commit? then ms[0].app else "") + Apps(ms[1..])
  }

  lemma {:induction false} AppsConcat(a: seq<Wire>, b: seq<Wire>)
    ensures Apps(a + b) == Apps(a) + Apps(b)
    decreases |a|
  {
    if a == [] {
      assert a + b == b;
      assert Apps(a) == "";
    } else {
      AppsConcat(a[1..], b);
      AppsUnfold(a);
      AppsUnfold(a + b);
      hide Apps;
      assert (a + b)[1..] == a[1..] + b;
      Assoc(if a[0].Commit? then a[0].app else "", Apps(a[1..]), Apps(b));
    }
  }

  lemma AppsUnfold(a: seq<Wire>)
    requires a != []
    ensures Apps(a) == (if a[0].Commit? then a[0].app else "") + Apps(a[1..])
  {
  }

  lemma {:induction false} UpAppend(r: int, up: seq<Wire>, n: int, more: seq<Wire>, k: int)
    requires UpOk(r, up, n) && UpOk(n, more, k)
    ensures UpOk(r, up + more, k)
    decreases |up|
  {
    if up == [] {
      assert up + more == more;
    } else {
      assert (up + more)[1..] == up[1..] + more;
      UpAppend(if up[0].Commit? then up[0].seqNo else r, up[1..], n, more, k);
    }
  }

  lemma {:induction false} DownAppend(c: int, down: seq<Wire>, r: int, m: Wire)
    requires DownOk(c, down, r) && !m.Delta? && (m.Commit? ==> m.seqNo == r + 1)
    ensures DownOk(c, down + [m], if m.Commit? then r + 1 else r)
    decreases |down|
  {
    if down == [] {
      assert down + [m] == [m] && [m][1..] == [];
    } else {
      assert (down + [m])[1..] == down[1..] + [m];
      DownAppend(if down[0].Commit? then down[0].seqNo else c, down[1..], r, m);
    }
  }

  /** Every commit is on the way or delivered, once and in order. */
  predicate Linked(y: Sys) {
    && UpOk(Max(0, y.lastRx), y.up, y.worker.viSeq)
    && DownOk(y.commits, y.down, Max(0, y.lastRx)) && y.overlay.commitSeq <= y.commits
    && y.delivered + (Apps(y.down) + Apps(y.up)) == y.worker.viFull
  }

  lemma AppendOk(compat: bool, w: Worker, vi: string, enSeq: int)
    ensures var s := Append(compat, w, vi, enSeq);
            && UpOk(w.viSeq, s.sent, s.worker.viSeq)
            && s.worker.viFull == w.viFull + Apps(s.sent)
  {
    hide JoinVi;
    var s := Append(compat, w, vi, enSeq);
    if s.sent != [] {
      var n := s.worker.viSeq;
      AppsUnfold(s.sent);
      assert s.sent[1..] == if compat then [Delta(s.sent[0].app, n, enSeq)] else [];
      if compat {
        assert s.sent[1..][1..] == [];
        AppsUnfold(s.sent[1..]);
      }
      assert UpOk(n, s.sent[1..], n);
    }
  }

  lemma StepLinks(set_: Setting, y: Sys, e: Event)
    requires Linked(y)
    ensures Linked(Step(set_, y, e))
  {
    hide Append, Capped, ApplyAll;
    match e
    case Translated(vi, en) =>
      hide UpOk, DownOk, Apps;
      AppendOk(set_.compat, y.worker, vi, en);
      var s := Append(set_.compat, y.worker, vi, en);
      UpAppend(Max(0, y.lastRx), y.up, y.worker.viSeq, s.sent, s.worker.viSeq);
      AppsConcat(y.up, s.sent);
      Regroup(y.delivered, Apps(y.down), Apps(y.up), Apps(s.sent));
    case Drafted(text, en, req) =>
      var d := [Draft(text, y.draftSeq + 1, en, req)];
      assert d[1..] == [];
      assert UpOk(y.worker.viSeq, d, y.worker.viSeq) && Apps(d) == "";
      hide UpOk, DownOk, Apps;
      UpAppend(Max(0, y.lastRx), y.up, y.worker.viSeq, d, y.worker.viSeq);
      AppsConcat(y.up, d);
      Regroup(y.delivered, Apps(y.down), Apps(y.up), "");
    case Hello(_) =>
    case Forward =>
      RelayLinks(set_, y);
    case Deliver =>
      DeliverLinks(set_, y);
    case Frame =>
  }

  lemma Regroup(a: string, b: string, c: string, d: string)
    ensures (a + (b + c)) + d == a + (b + (c + d))
    ensures a + (b + (c + d)) == a + ((b + c) + d) == (a + b) + (c + d)
  {
  }

  lemma RelayLinks(set_: Setting, y: Sys)
    requires Linked(y)
    ensures Linked(Step(set_, y, Forward))
  {
    if y.up != [] {
      var m := y.up[0];
      AppsUnfold(y.up);
      AppsOne(m);
      assert m.Delta? ==> !Forwards(y.lastRx, m);
      assert m.Commit? ==> m.seqNo == Max(0, y.lastRx) + 1;
      var z := Step(set_, y, Forward);
      assert UpOk(Max(0, z.lastRx), z.up, z.worker.viSeq);
      hide Apps, UpOk, DownOk;
      if Forwards(y.lastRx, m) {
        DownAppend(y.commits, y.down, Max(0, y.lastRx), m);
        AppsConcat(y.down, [m]);
        Regroup(y.delivered, Apps(y.down), Apps([m]), Apps(y.up[1..]));
      }
    }
  }

  lemma AppsOne(m: Wire)
    ensures Apps([m]) == if m.Commit? then m.app else ""
  {
  }

  lemma ReceiveMarks(v: Vi, m: Wire)
    ensures m.Commit? ==> Receive(v, m).commitSeq <= Max(v.commitSeq, m.seqNo)
    ensures m.Draft? ==> Receive(v, m).commitSeq == v.commitSeq
  {
  }

  lemma DeliverLinks(set_: Setting, y: Sys)
    requires Linked(y)
    ensures Linked(Step(set_, y, Deliver))
  {
    hide Receive, Apps;
    if y.down != [] {
      AppsUnfold(y.down);
      ReceiveMarks(y.overlay, y.down[0]);
      var z := Step(set_, y, Deliver);
      assert DownOk(z.commits, z.down, Max(0, z.lastRx));
      hide UpOk, DownOk;
      Regroup(y.delivered, if y.down[0].Commit? then y.down[0].app else "", Apps(y.down[1..]), Apps(y.up));
    }
  }

  // ---- the guard on English numbers ----

  /** A commit is heard when no message with a higher English number has been accepted before it. */
  predicate Heard(y: Sys, e: Event) {
    e.Deliver? && y.down != [] && y.down[0].Commit? ==> y.down[0].enSeq >= y.overlay.enSeq
  }

  /** Exactly then its text is appended; otherwise the text is lost for good. */
  lemma CommitAppendsIff(v: Vi, app: string, n: int, en: int)
    requires n > v.commitSeq && app != ""
    ensures var w := Receive(v, Commit(app, n, en));
            && (en >= v.enSeq <==> Flushed(w) == Flushed(v) + app)
            && (en < v.enSeq <==> Flushed(w) == Flushed(v))
  {
    hide ApplyOp, ApplyAll;
    ApplyAllSnoc(v.commit, v.ops, Op(0, app));
    AppendOp(Flushed(v), app);
  }

  lemma AppendOp(s: string, app: string)
    ensures ApplyOp(s, Op(0, app)) == s + app
    ensures app != "" ==> s + app != s
  {
  }

  // ---- the overlay's text ----

  /** The overlay's text is the delivered text until that outgrows the cap; from then on it is a tail of it that is
      never much shorter than the cap. */
  predicate Shows(cap: int, shown: string, delivered: string) {
    && IsSuffix(shown, delivered)
    && (cap <= 0 || |delivered| <= cap ==> shown == delivered)
    && (cap > 0 ==> |shown| >= Min(|delivered|, cap - 180))
  }

  lemma ShowsAppend(cap: int, shown: string, delivered: string, app: string)
    requires Shows(cap, shown, delivered)
    ensures Shows(cap, shown + app, delivered + app)
  {
  }

  lemma ShowsCapped(cap: int, shown: string, delivered: string)
    requires Shows(cap, shown, delivered)
    ensures Shows(cap, Capped(cap, shown), delivered)
  {
  }

  lemma StepShows(set_: Setting, y: Sys, e: Event)
    requires Linked(y) && Shows(set_.cap, Flushed(y.overlay), y.delivered) && Heard(y, e)
    ensures Shows(set_.cap, Flushed(Step(set_, y, e).overlay), Step(set_, y, e).delivered)
  {
    hide Append, Shows, ApplyOp, Capped, UpOk, Apps;
    match e
    case Translated(_, _) =>
    case Drafted(_, _, _) =>
    case Hello(_) =>
    case Forward =>
    case Deliver =>
      if y.down != [] && y.down[0].Commit? {
        var app := y.down[0].app;
        ApplyAllSnoc(y.overlay.commit, y.overlay.ops, Op(0, app));
        AppendOp(Flushed(y.overlay), app);
        ShowsAppend(set_.cap, Flushed(y.overlay), y.delivered, app);
      }
    case Frame =>
      ShowsCapped(set_.cap, Flushed(y.overlay), y.delivered);
  }

  predicate AllHeard(set_: Setting, y: Sys, es: seq<Event>)
    decreases |es|
  {
    es == [] || (Heard(y, es[0]) && AllHeard(set_, Step(set_, y, es[0]), es[1..]))
  }

  lemma {:induction false} RunShows(set_: Setting, y: Sys, es: seq<Event>)
    requires Linked(y) && Shows(set_.cap, Flushed(y.overlay), y.delivered) && AllHeard(set_, y, es)
    ensures var z := RunAll(set_, y, es); Linked(z) && Shows(set_.cap, Flushed(z.overlay), z.delivered)
    decreases |es|
  {
    hide Linked, Shows, Step, Heard, Flushed;
    if es != [] {
      StepLinks(set_, y, es[0]);
      StepShows(set_, y, es[0]);
      RunShows(set_, Step(set_, y, es[0]), es[1..]);
    }
  }

  /** On every run whose commits are all heard, the overlay's text is what was delivered of the translator's text, each
      append once; with nothing on the way, it is the translator's text. */
  lemma ExactlyOnceWhenHeard(set_: Setting, es: seq<Event>)
    requires AllHeard(set_, INIT, es)
    ensures var z := RunAll(set_, INIT, es);
            && z.delivered <= z.worker.viFull
            && Shows(set_.cap, Flushed(z.overlay), z.delivered)
            && (z.up == [] && z.down == [] ==> Shows(set_.cap, Flushed(z.overlay), z.worker.viFull))
  {
    hide Step, Heard, Shows;
    assert Shows(set_.cap, Flushed(INIT.overlay), INIT.delivered) by {
      ShowsNothing(set_.cap);
    }
    RunShows(set_, INIT, es);
    var z := RunAll(set_, INIT, es);
    if z.up == [] && z.down == [] {
      assert Apps(z.up) == "" && Apps(z.down) == "";
      assert z.delivered + ("" + "") == z.delivered;
    }
  }

  lemma ShowsNothing(cap: int)
    ensures Shows(cap, "", "")
  {
  }

  // ---- and only then ----

  /** Every commit on the way says something. */
  predicate Spoken(ms: seq<Wire>) {
    forall i :: 0 <= i < |ms| ==> ms[i].Commit? ==> ms[i].app != ""
  }

  lemma StepSpoken(set_: Setting, y: Sys, e: Event)
    requires Spoken(y.up) && Spoken(y.down)
    ensures Spoken(Step(set_, y, e).up) && Spoken(Step(set_, y, e).down)
  {
    hide JoinVi, Receive, FlushVi;
  }

  /** Without a cap, each unheard commit leaves the overlay short of what was delivered. */
  lemma StepShort(set_: Setting, y: Sys, e: Event)
    requires Linked(y) && Spoken(y.down) && set_.cap <= 0
    ensures var z := Step(set_, y, e);
            var before, after := |y.delivered| - |Flushed(y.overlay)|, |z.delivered| - |Flushed(z.overlay)|;
            after >= before && (after == before <==> Heard(y, e))
  {
    hide Append, ApplyOp, UpOk, Apps, Receive;
    match e
    case Translated(_, _) =>
    case Drafted(_, _, _) =>
    case Hello(_) =>
    case Forward =>
    case Deliver =>
      if y.down != [] {
        var m := y.down[0];
        if m.Commit? {
          CommitAppendsIff(y.overlay, m.app, m.seqNo, m.enSeq);
        } else {
          DraftKeepsText(y.overlay, m);
        }
      }
    case Frame =>
      hide ApplyAll;
      FlushKeepsText(set_.cap, y.overlay);
  }

  lemma DraftKeepsText(v: Vi, m: Wire)
    requires m.Draft?
    ensures Flushed(Receive(v, m)) == Flushed(v)
  {
    hide ApplyAll;
  }

  lemma FlushKeepsText(cap: int, v: Vi)
    requires cap <= 0
    ensures Flushed(FlushVi(cap, v)) == Flushed(v)
  {
    hide ApplyOp;
  }

  lemma {:induction false} RunShort(set_: Setting, y: Sys, es: seq<Event>)
    requires Linked(y) && Spoken(y.up) && Spoken(y.down) && set_.cap <= 0
    ensures var z := RunAll(set_, y, es);
            var before, after := |y.delivered| - |Flushed(y.overlay)|, |z.delivered| - |Flushed(z.overlay)|;
            after >= before && (after == before <==> AllHeard(set_, y, es))
    decreases |es|
  {
    hide Linked, Spoken, Step, Heard, Flushed;
    if es != [] {
      StepLinks(set_, y, es[0]);
      StepSpoken(set_, y, es[0]);
      StepShort(set_, y, es[0]);
      RunShort(set_, Step(set_, y, es[0]), es[1..]);
    }
  }

  /** Without a cap, on every run: the overlay shows exactly what was delivered if and only if every commit was
      heard. */
  lemma ShownIffHeard(set_: Setting, es: seq<Event>)
    requires set_.cap <= 0
    ensures var z := RunAll(set_, INIT, es); Flushed(z.overlay) == z.delivered <==> AllHeard(set_, INIT, es)
  {
    hide Step, Heard, Shows, RunAll, AllHeard;
    RunShort(set_, INIT, es);
    if AllHeard(set_, INIT, es) {
      ExactlyOnceWhenHeard(set_, es);
      ShowsAll(set_.cap, Flushed(RunAll(set_, INIT, es).overlay), RunAll(set_, INIT, es).delivered);
    }
  }

  lemma ShowsAll(cap: int, shown: string, delivered: string)
    requires cap <= 0 && Shows(cap, shown, delivered)
    ensures shown == delivered
  {
  }

  // ---- drafts off: every commit is heard ----

  /** The English numbers on the way never fall. */
  predicate EnSorted(m: int, ms: seq<Wire>, last: int)
    decreases |ms|
  {
    if ms == [] then m <= last
    else match ms[0]
      case Commit(_, _, en) => m <= en && EnSorted(en, ms[1..], last)
      case Delta(_, _, en) => m <= en && EnSorted(en, ms[1..], last)
      case Draft(_, _, _, _) => EnSorted(m, ms[1..], last)
  }

  lemma {:induction false} EnAppend(m: int, ms: seq<Wire>, last: int, more: seq<Wire>, next: int)
    requires EnSorted(m, ms, last) && EnSorted(last, more, next)
    ensures EnSorted(m, ms + more, next)
    decreases |ms|, |more|
  {
    if ms == [] {
      assert ms + more == more;
      EnLower(m, last, more, next);
    } else {
      assert (ms + more)[1..] == ms[1..] + more;
      EnAppend(if ms[0].Draft? then m else ms[0].enSeq, ms[1..], last, more, next);
    }
  }

  lemma {:induction false} EnLower(m: int, k: int, ms: seq<Wire>, last: int)
    requires m <= k && EnSorted(k, ms, last)
    ensures EnSorted(m, ms, last)
    decreases |ms|
  {
    if ms != [] && ms[0].Draft? {
      EnLower(m, k, ms[1..], last);
    }
  }

  lemma {:induction false} EnDrop(m: int, a: seq<Wire>, d: Wire, b: seq<Wire>, last: int)
    requires EnSorted(m, a + [d] + b, last)
    ensures EnSorted(m, a + b, last)
    decreases |a|
  {
    if a == [] {
      assert (a + [d] + b)[1..] == b && a + b == b;
      if !d.Draft? {
        EnLower(m, d.enSeq, b, last);
      }
    } else {
      assert (a + [d] + b)[1..] == a[1..] + [d] + b && (a + b)[1..] == a[1..] + b;
      EnDrop(if a[0].Draft? then m else a[0].enSeq, a[1..], d, b, last);
    }
  }

  predicate Quiet(y: Sys, last: int) {
    !y.overlay.draftOn && EnSorted(y.overlay.enSeq, y.down + y.up, last)
  }

  /** What the translator sends with drafts off: English numbers that never fall, and a hello that says so. */
  predicate Allowed(last: int, e: Event) {
    && (e.Translated? ==> e.enSeq >= last)
    && (e.Hello? ==> !e.draftOn)
  }

  function LastEn(last: int, e: Event): int {
    if e.Translated? then e.enSeq else last
  }

  lemma QuietHeard(y: Sys, e: Event, last: int)
    requires Quiet(y, last)
    ensures Heard(y, e)
  {
  }

  lemma StepQuiet(set_: Setting, y: Sys, e: Event, last: int)
    requires Linked(y) && Quiet(y, last) && Allowed(last, e)
    ensures Quiet(Step(set_, y, e), LastEn(last, e))
  {
    hide ApplyAll, Capped, Linked, EnSorted, Append, Receive;
    match e
    case Translated(vi, en) =>
      SentSorted(set_.compat, y.worker, vi, last, en);
      MoreUp(y, last, Append(set_.compat, y.worker, vi, en).sent, en);
    case Drafted(text, den, req) =>
      var d := Draft(text, y.draftSeq + 1, den, req);
      DraftSorted(d, last);
      MoreUp(y, last, [d], last);
    case Hello(_) =>
    case Forward =>
      ForwardQuiet(set_, y, last);
    case Deliver =>
      if y.down != [] {
        assert (y.down + y.up)[1..] == y.down[1..] + y.up;
        HeadSorted(y, last);
      }
    case Frame =>
  }

  lemma MoreUp(y: Sys, last: int, more: seq<Wire>, next: int)
    requires Quiet(y, last) && EnSorted(last, more, next)
    ensures EnSorted(y.overlay.enSeq, y.down + (y.up + more), next)
  {
    hide EnSorted;
    EnAppend(y.overlay.enSeq, y.down + y.up, last, more, next);
    assert (y.down + y.up) + more == y.down + (y.up + more);
  }

  lemma ForwardQuiet(set_: Setting, y: Sys, last: int)
    requires Quiet(y, last)
    ensures Quiet(Step(set_, y, Forward), last)
  {
    hide EnSorted;
    if y.up != [] {
      assert y.down + y.up == y.down + [y.up[0]] + y.up[1..];
      EnDrop(y.overlay.enSeq, y.down, y.up[0], y.up[1..], last);
    }
  }

  lemma SentSorted(compat: bool, w: Worker, vi: string, last: int, en: int)
    requires last <= en
    ensures EnSorted(last, Append(compat, w, vi, en).sent, en)
  {
  }

  lemma DraftSorted(d: Wire, last: int)
    requires d.Draft?
    ensures EnSorted(last, [d], last)
  {
  }

  lemma HeadSorted(y: Sys, last: int)
    requires Quiet(y, last) && y.down != []
    ensures var v := Receive(y.overlay, y.down[0]); !v.draftOn && EnSorted(v.enSeq, (y.down + y.up)[1..], last)
  {
  }

  predicate AllAllowed(last: int, es: seq<Event>)
    decreases |es|
  {
    es == [] || (Allowed(last, es[0]) && AllAllowed(LastEn(last, es[0]), es[1..]))
  }

  /** The English numbers of the translated items, in order. */
  function Numbers(es: seq<Event>): seq<int>
    decreases |es|
  {
    if es == [] then [] else (if es[0].Translated? then [es[0].enSeq] else []) + Numbers(es[1..])
  }

  /** No hello turns drafts on, and the numbers never fall: as the numbers of released sentences never do
      (`LagProofs.ReleasedInOrder`). */
  ghost predicate InOrderWithoutDrafts(last: int, es: seq<Event>) {
    && (forall i :: 0 <= i < |es| ==> es[i].Hello? ==> !es[i].draftOn)
    && NeverFalls(last, Numbers(es))
  }

  lemma {:induction false} AllAllowedIff(last: int, es: seq<Event>)
    ensures AllAllowed(last, es) <==> InOrderWithoutDrafts(last, es)
    decreases |es|
  {
    if es != [] {
      var e, rest := es[0], es[1..];
      AllAllowedIff(LastEn(last, e), rest);
      assert forall i :: 0 <= i < |rest| ==> rest[i] == es[i + 1];
      var head := if e.Translated? then [e.enSeq] else [];
      assert Numbers(es) == head + Numbers(rest);
      NeverFallsCons(last, head, Numbers(rest));
      assert (forall i :: 0 <= i < |es| ==> es[i].Hello? ==> !es[i].draftOn)
        <==> (e.Hello? ==> !e.draftOn) && (forall i :: 0 <= i < |rest| ==> rest[i].Hello? ==> !rest[i].draftOn) by {
        HelloCons(es);
      }
    }
  }

  lemma HelloCons(es: seq<Event>)
    requires es != []
    ensures (forall i :: 0 <= i < |es| ==> es[i].Hello? ==> !es[i].draftOn)
            <==> (es[0].Hello? ==> !es[0].draftOn)
                 && (forall i :: 0 <= i < |es[1..]| ==> es[1..][i].Hello? ==> !es[1..][i].draftOn)
  {
    if forall i :: 0 <= i < |es[1..]| ==> es[1..][i].Hello? ==> !es[1..][i].draftOn {
      forall i | 1 <= i < |es| ensures es[i].Hello? ==> !es[i].draftOn {
        assert es[i] == es[1..][i - 1];
      }
    }
  }

  lemma {:induction false} QuietRunHeard(set_: Setting, y: Sys, es: seq<Event>, last: int)
    requires Linked(y) && Quiet(y, last) && AllAllowed(last, es)
    ensures AllHeard(set_, y, es)
    decreases |es|
  {
    hide Linked, Quiet, Step, Heard, Allowed;
    if es != [] {
      QuietHeard(y, es[0], last);
      StepLinks(set_, y, es[0]);
      StepQuiet(set_, y, es[0], last);
      QuietRunHeard(set_, Step(set_, y, es[0]), es[1..], LastEn(last, es[0]));
    }
  }

  /** Exactly once, end to end: with drafts off, no append is doubled or dropped by a guard. */
  lemma ExactlyOnce(set_: Setting, es: seq<Event>)
    requires AllAllowed(-1, es)
    ensures var z := RunAll(set_, INIT, es);
            && z.delivered <= z.worker.viFull
            && Shows(set_.cap, Flushed(z.overlay), z.delivered)
            && (z.up == [] && z.down == [] ==> Shows(set_.cap, Flushed(z.overlay), z.worker.viFull))
  {
    hide Step, Heard, Shows, Allowed;
    assert INIT.down + INIT.up == [];
    QuietRunHeard(set_, INIT, es, -1);
    ExactlyOnceWhenHeard(set_, es);
  }

  // ---- drafts on: a commit can be lost ----

  /** A draft and a commit share one mark, written before a draft's own number is looked at: a draft for later English,
      even a stale or an empty one, drops the commit that comes behind it. */
  lemma DraftDropsCommit(v: Vi, text: string, d: int, den: int, req: Option<int>, app: string, n: int, en: int)
    requires v.draftOn && (req.Some? ==> req.value >= v.reqId) && den >= v.enSeq && en < den
    ensures Flushed(Receive(Receive(v, Draft(text, d, Some(den), req)), Commit(app, n, en))) == Flushed(v)
  {
  }

  /** A whole run that loses a commit, for any draft and any translation with something to say: drafts are on, the
      draft is for later English and arrives first. */
  lemma DraftedRunLosesCommit(set_: Setting, text: string, den: nat, vi: string, en: int)
    requires Strip(vi) != "" && en < den
    ensures var late := [Translated(vi, en), Forward, Deliver];
            var es := [Hello(true), Drafted(text, Some(den), None), Forward, Deliver] + late;
            var z := RunAll(set_, INIT, es);
            && z.worker.viFull == z.delivered == Strip(vi) + " " && Flushed(z.overlay) == ""
            && !AllHeard(set_, INIT, es)
  {
    hide Strip, RunAll, AllHeard;
    var late := [Translated(vi, en), Forward, Deliver];
    var es := [Hello(true), Drafted(text, Some(den), None), Forward, Deliver] + late;
    var y := DraftArrives(set_, text, den, late);
    var z := CommitArrives(set_, y, vi, en);
  }

  lemma RunUnfold(set_: Setting, y: Sys, e: Event, es: seq<Event>)
    ensures RunAll(set_, y, [e] + es) == RunAll(set_, Step(set_, y, e), es)
    ensures AllHeard(set_, y, [e] + es) <==> Heard(y, e) && AllHeard(set_, Step(set_, y, e), es)
  {
    hide Step, Heard;
    assert ([e] + es)[1..] == es;
  }

  lemma DraftArrives(set_: Setting, text: string, den: nat, late: seq<Event>) returns (y: Sys)
    ensures y.worker == INIT.worker && y.up == [] && y.down == [] && y.lastRx == -1 && y.delivered == ""
    ensures Flushed(y.overlay) == "" && y.overlay.enSeq == den && y.overlay.commitSeq == -1
    ensures var es := [Hello(true), Drafted(text, Some(den), None), Forward, Deliver] + late;
            RunAll(set_, INIT, es) == RunAll(set_, y, late) && (AllHeard(set_, INIT, es) ==> AllHeard(set_, y, late))
  {
    hide RunAll, AllHeard;
    var d := Draft(text, 1, Some(den), None);
    var a := Step(set_, INIT, Hello(true));
    var b := Step(set_, a, Drafted(text, Some(den), None));
    assert b.up == [d] && [d][1..] == [];
    var c := Step(set_, b, Forward);
    assert c.down == [d] && c.up == [];
    y := Step(set_, c, Deliver);
    hide Step, Heard;
    RunUnfold(set_, c, Deliver, late);
    RunUnfold(set_, b, Forward, [Deliver] + late);
    RunUnfold(set_, a, Drafted(text, Some(den), None), [Forward] + ([Deliver] + late));
    RunUnfold(set_, INIT, Hello(true), [Drafted(text, Some(den), None)] + ([Forward] + ([Deliver] + late)));
    assert [Hello(true)] + ([Drafted(text, Some(den), None)] + ([Forward] + ([Deliver] + late)))
        == [Hello(true), Drafted(text, Some(den), None), Forward, Deliver] + late;
  }

  lemma CommitArrives(set_: Setting, y: Sys, vi: string, en: int) returns (z: Sys)
    requires y.worker == INIT.worker && y.up == [] && y.down == [] && y.lastRx == -1 && y.delivered == ""
    requires Flushed(y.overlay) == "" && y.overlay.enSeq > en && y.overlay.commitSeq == -1 && Strip(vi) != ""
    ensures var es := [Translated(vi, en), Forward, Deliver]; z == RunAll(set_, y, es) && !AllHeard(set_, y, es)
    ensures z.worker.viFull == z.delivered == Strip(vi) + " " && Flushed(z.overlay) == ""
  {
    hide RunAll, AllHeard, Strip, ApplyAll;
    var a := Step(set_, y, Translated(vi, en));
    var m := Commit(Strip(vi) + " ", 1, en);
    assert a.up[0] == m && a.worker.viFull == "" + (Strip(vi) + " ") == Strip(vi) + " ";
    var b := Step(set_, a, Forward);
    assert b.down == [m];
    z := Step(set_, b, Deliver);
    assert !Heard(b, Deliver);
    CommitAppendsIff(b.overlay, m.app, 1, en);
    assert "" + m.app == m.app;
    hide Step, Heard;
    RunUnfold(set_, b, Deliver, []);
    RunUnfold(set_, a, Forward, [Deliver] + []);
    RunUnfold(set_, y, Translated(vi, en), [Forward] + ([Deliver] + []));
    assert [Translated(vi, en)] + ([Forward] + ([Deliver] + [])) == [Translated(vi, en), Forward, Deliver];
    RunNothing(set_, z);
  }

  lemma RunNothing(set_: Setting, y: Sys)
    ensures RunAll(set_, y, []) == y
  {
  }
}
