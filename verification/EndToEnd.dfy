/** From a stable that the service worker receives to the overlay's Vietnamese text: feed, gate, either committer,
    commit queue, worker, relay and overlay, in any interleaving. */
module EndToEnd {
  import opened Text
  import opened Normal
  import opened CommitQueue
  import opened StrictCommit
  import opened LagCommit
  import Seg = SegmentSpec
  import WindowProofs
  import EnSeq
  import LagProofs
  import StableFeed
  import StrictProofs
  import Vi = ViPipeline

  /** The translator's two ways to commit. In the second the segmenter sees what a delay rule leaves of the text. */
  datatype Mode =
    | StrictMode(strict: StrictCommit.Config)
    | LagMode(seg: Seg.Config, lag: LagConfig, delay: (string, bool) -> string)

  /** The feed's and the gate's marks, the last text admitted, the committers, the queue of what they released, and the
      items that the worker has in hand. */
  datatype Front = Front(
    lastSent: int, lastEn: int, text: string, strict: Strict, seg: Seg.Seg, lag: Lag, queue: seq<Item>, hand: seq<Item>)

  /** After a reset or a baseline: any text, any window and any marks; nothing waits. */
  function Opened(lastSent: int, lastEn: int, text: string, seg: Seg.Seg): Front {
    Front(lastSent, lastEn, text, StrictCommit.START, seg, EMPTY, [], [])
  }

  /** One pass over the text, under the number it was admitted with. */
  function Process(mode: Mode, f: Front, effSeq: int, now: real, tms: Option<int>, force: bool): Front {
    match mode
    case StrictMode(cfg) =>
      var st := Observe(cfg, f.strict, Sentences.SplitSentences(f.text).sents, force);
      var news := Tagged(effSeq, st.committed[|f.strict.committed|..]);
      f.(strict := st, queue := LastN(f.queue + news, QUEUE_MAX))
    case LagMode(cfg, lcfg, delay) =>
      var x := WindowProofs.Input(delay(f.text, force), now, tms);
      var p := LagProofs.PipeStep(cfg, lcfg, LagProofs.Pipe(f.seg, f.lag, []), LagProofs.Event(x, effSeq, force));
      f.(seg := p.seg, lag := p.lag, queue := LastN(f.queue + Worthy(p.released), QUEUE_MAX))
  }

  /** A stable passes the feed and the gate, or is dropped by one of them. */
  function OnStable(mode: Mode, f: Front, seqNo: Option<int>, text: string, now: real, tms: Option<int>): Front {
    var n := if seqNo.Some? then seqNo.value else 0;
    var g := f.(lastSent := StableFeed.FedMark(f.lastSent, n));
    match StableFeed.Fed(f.lastSent, n)
    case None => g
    case Some(fed) =>
      match EnSeq.Effective(f.lastEn, 0, Some(fed))
      case None => g
      case Some(eff) =>
        Process(mode, g.(lastEn := Max(f.lastEn, eff), text := Norm(text)), eff, now, tms, false)
  }

  /** The timer behind the last text goes off: the same text once more, forced. */
  function OnRelease(mode: Mode, f: Front, now: real): Front {
    if f.lastEn < 0 then f else Process(mode, f, f.lastEn, now, None, true)
  }

  datatype World = World(front: Front, pipe: Vi.Sys)

  /** `Take` is the worker taking a batch, which it does with empty hands. `Send` is it sending the translation of the
      oldest item in hand, or nothing if that failed. Anything may happen between, also that the queue overflows. */
  datatype Event =
    | Stable(seqNo: Option<int>, text: string, now: real, tms: Option<int>)
    | Release(now: real)
    | Take
    | Send(vi: Option<string>)
    | Pipe(e: Vi.Event)

  datatype Setting = Setting(mode: Mode, vi: Vi.Setting)

  /** What an event does to the Vietnamese side. */
  function Moves(w: World, e: Event): seq<Vi.Event> {
    match e
    case Send(vi) =>
      if w.front.hand != [] && vi.Some? then [Vi.Translated(vi.value, w.front.hand[0].enSeq)] else []
    case Pipe(p) => if p.Translated? then [] else [p]
    case Stable(_, _, _, _) => []
    case Release(_) => []
    case Take => []
  }

  /** With empty hands the worker takes what `CommitQueue.Queue.TakeBatch` takes. */
  function TakeUp(mode: Mode, f: Front): Front {
    if f.hand != [] then f
    else
      var n := BatchSize(mode.StrictMode?, |f.queue|);
      f.(hand := f.queue[..n], queue := f.queue[n..])
  }

  function FrontStep(mode: Mode, f: Front, e: Event): Front {
    match e
    case Stable(seqNo, text, now, tms) => OnStable(mode, f, seqNo, text, now, tms)
    case Release(now) => OnRelease(mode, f, now)
    case Take => TakeUp(mode, f)
    case Send(_) => if f.hand == [] then f else f.(hand := f.hand[1..])
    case Pipe(_) => f
  }

  function Step(set_: Setting, w: World, e: Event): World {
    World(FrontStep(set_.mode, w.front, e), Vi.RunAll(set_.vi, w.pipe, Moves(w, e)))
  }

  function RunAll(set_: Setting, w: World, es: seq<Event>): World
    decreases |es|
  {
    if es == [] then w else RunAll(set_, Step(set_, w, es[0]), es[1..])
  }

  predicate DraftsOff(es: seq<Event>) {
    forall i :: 0 <= i < |es| ==> es[i].Pipe? && es[i].e.Hello? ==> !es[i].e.draftOn
  }

  // ---- the Vietnamese side of a run ----

  function AllMoves(set_: Setting, w: World, es: seq<Event>): seq<Vi.Event>
    decreases |es|
  {
    if es == [] then [] else Moves(w, es[0]) + AllMoves(set_, Step(set_, w, es[0]), es[1..])
  }

  lemma {:induction false} RunConcat(set_: Vi.Setting, y: Vi.Sys, a: seq<Vi.Event>, b: seq<Vi.Event>)
    ensures Vi.RunAll(set_, y, a + b) == Vi.RunAll(set_, Vi.RunAll(set_, y, a), b)
    decreases |a|
  {
    hide Vi.Step;
    if a == [] {
      assert a + b == b;
    } else {
      RunConcat(set_, Vi.Step(set_, y, a[0]), a[1..], b);
      assert (a + b)[1..] == a[1..] + b;
    }
  }

  lemma {:induction false} RunIsMoves(set_: Setting, w: World, es: seq<Event>)
    ensures RunAll(set_, w, es).pipe == Vi.RunAll(set_.vi, w.pipe, AllMoves(set_, w, es))
    decreases |es|
  {
    hide Moves, FrontStep, Vi.Step;
    if es != [] {
      var v := Step(set_, w, es[0]);
      RunIsMoves(set_, v, es[1..]);
      RunConcat(set_.vi, w.pipe, Moves(w, es[0]), AllMoves(set_, v, es[1..]));
    }
  }

  // ---- numbers ----

  /** From the number last sent on, the items in hand, queued, waiting and unfinished carry numbers that never fall,
      up to the gate's mark. */
  ghost predicate FrontOk(f: Front, last: int) {
    f.lastEn >= -1 && LagProofs.SeqsOk(Head(f, last) + f.queue, f.lag, f.lastEn)
  }

  /** The number last sent, and what the worker has in hand: the queue can lose items behind these, never these. */
  function Head(f: Front, last: int): seq<Item> {
    [Item(last, "")] + f.hand
  }

  lemma {:induction false} WorthySorted(a: seq<Item>, new_: seq<Item>, b: seq<Item>, n: int)
    requires LagProofs.Sorted(a + new_ + b, n)
    ensures LagProofs.Sorted(a + Worthy(new_) + b, n)
    decreases |new_|
  {
    hide LagProofs.Sorted, IsPunctOnly;
    if new_ != [] {
      var x, rest := new_[0], new_[1..];
      Shift(a, x, rest, b);
      Shift(a, x, Worthy(rest), b);
      assert new_ == [x] + rest;
      if x.text != [] && !IsPunctOnly(x.text) {
        WorthySorted(a + [x], rest, b, n);
      } else {
        OmitSome(a, [x], rest + b, n);
        WorthySorted(a, rest, b, n);
        assert Worthy(new_) == Worthy(rest);
      }
    }
  }

  lemma Shift(a: seq<Item>, x: Item, rest: seq<Item>, b: seq<Item>)
    ensures a + ([x] + rest) + b == (a + [x]) + rest + b == a + [x] + (rest + b)
    ensures a + rest + b == a + (rest + b)
  {
  }

  lemma OmitSome(a: seq<Item>, xs: seq<Item>, b: seq<Item>, n: int)
    requires LagProofs.Sorted(a + xs + b, n)
    ensures LagProofs.Sorted(a + b, n)
  {
    var s, t := a + xs + b, a + b;
    assert forall i :: 0 <= i < |t| ==> t[i] == s[if i < |a| then i else i + |xs|];
  }

  /** Dropping the oldest items of an overfull queue keeps the order. */
  lemma LastNSorted(a: seq<Item>, q: seq<Item>, b: seq<Item>, n: int)
    requires LagProofs.Sorted(a + q + b, n)
    ensures LagProofs.Sorted(a + LastN(q, QUEUE_MAX) + b, n)
  {
    hide LagProofs.Sorted;
    var k := |q| - |LastN(q, QUEUE_MAX)|;
    assert q == q[..k] + q[k..] && LastN(q, QUEUE_MAX) == q[k..];
    assert a + q + b == a + q[..k] + (q[k..] + b) && a + q[k..] + b == a + (q[k..] + b);
    OmitSome(a, q[..k], q[k..] + b, n);
  }

  lemma Bound(l: Lag, last: int) returns (n: int)
    ensures n == if l.sentenceSeq >= 0 then l.sentenceSeq else last
  {
    n := if l.sentenceSeq >= 0 then l.sentenceSeq else last;
  }

  /** A lag step that starts with what is queued releases the same items behind it. */
  lemma ReleasesAppend(cfg: Seg.Config, lcfg: LagConfig, seg: Seg.Seg, l: Lag, q: seq<Item>, e: LagProofs.Event)
    ensures var p := LagProofs.PipeStep(cfg, lcfg, LagProofs.Pipe(seg, l, []), e);
            LagProofs.PipeStep(cfg, lcfg, LagProofs.Pipe(seg, l, q), e) == p.(released := q + p.released)
  {
    hide WindowProofs.Step, LagProofs.CollectAll, Dispatch;
  }

  lemma SameHead(mode: Mode, f: Front, effSeq: int, now: real, tms: Option<int>, force: bool, last: int)
    ensures Head(Process(mode, f, effSeq, now, tms, force), last) == Head(f, last)
  {
    hide LagProofs.PipeStep, LastN, Worthy, Tagged, Observe;
  }

  lemma LagOk(mode: Mode, f: Front, before: int, effSeq: int, now: real, tms: Option<int>, force: bool, last: int)
    requires mode.LagMode? && 0 <= effSeq == f.lastEn && before <= effSeq
    requires LagProofs.SeqsOk(Head(f, last) + f.queue, f.lag, before)
    ensures FrontOk(Process(mode, f, effSeq, now, tms, force), last)
  {
    hide LagProofs.PipeStep, LagProofs.Sorted, LastN, Worthy, Head;
    var e := LagProofs.Event(WindowProofs.Input(mode.delay(f.text, force), now, tms), effSeq, force);
    var head, rel := Head(f, last), Head(f, last) + f.queue;
    ReleasesAppend(mode.seg, mode.lag, f.seg, f.lag, rel, e);
    LagProofs.PipeStepSeqs(mode.seg, mode.lag, LagProofs.Pipe(f.seg, f.lag, rel), before, e);
    var p := LagProofs.PipeStep(mode.seg, mode.lag, LagProofs.Pipe(f.seg, f.lag, []), e);
    var n := Bound(p.lag, effSeq);
    assert LagProofs.Sorted(rel + p.released + p.lag.commits, n);
    WorthySorted(rel, p.released, p.lag.commits, n);
    var q := f.queue + Worthy(p.released);
    assert rel + Worthy(p.released) + p.lag.commits == head + q + p.lag.commits;
    LastNSorted(head, q, p.lag.commits, n);
    SameHead(mode, f, effSeq, now, tms, force, last);
    assert head + LastN(q, QUEUE_MAX) + p.lag.commits == (head + LastN(q, QUEUE_MAX)) + p.lag.commits;
  }

  lemma StrictOk(mode: Mode, f: Front, before: int, effSeq: int, now: real, tms: Option<int>, force: bool, last: int)
    requires mode.StrictMode? && 0 <= effSeq == f.lastEn && before <= effSeq && f.lag == EMPTY
    requires LagProofs.SeqsOk(Head(f, last) + f.queue, f.lag, before)
    ensures FrontOk(Process(mode, f, effSeq, now, tms, force), last)
  {
    hide LagProofs.Sorted, LastN, Tagged, Observe, Head;
    var g := Process(mode, f, effSeq, now, tms, force);
    ObserveGrows(mode.strict, f.strict, Sentences.SplitSentences(f.text).sents, force);
    var texts := g.strict.committed[|f.strict.committed|..];
    var head, rel, news := Head(f, last), Head(f, last) + f.queue, Tagged(effSeq, texts);
    SameHead(mode, f, effSeq, now, tms, force, last);
    assert rel + EMPTY.commits == rel;
    TaggedSorted(effSeq, texts);
    LagProofs.SortedAppendFrom(rel, news, before, effSeq, effSeq);
    assert rel + news == head + (f.queue + news) + [];
    LastNSorted(head, f.queue + news, [], effSeq);
    assert head + LastN(f.queue + news, QUEUE_MAX) + [] == head + LastN(f.queue + news, QUEUE_MAX);
  }

  lemma ObserveGrows(cfg: StrictCommit.Config, st: Strict, sents: seq<string>, force: bool)
    ensures st.committed <= Observe(cfg, st, sents, force).committed
  {
    hide Releases, NewCounts, Confirmed;
  }

  lemma TaggedSorted(n: int, texts: seq<string>)
    ensures LagProofs.Sorted(Tagged(n, texts), n) && forall x :: x in Tagged(n, texts) ==> n <= x.enSeq
  {
    StrictProofs.TaggedSays(n, texts);
  }

  predicate ModeOk(mode: Mode, f: Front) {
    mode.StrictMode? ==> f.lag == EMPTY
  }

  lemma ProcessOk(mode: Mode, f: Front, before: int, effSeq: int, now: real, tms: Option<int>, force: bool, last: int)
    requires ModeOk(mode, f) && 0 <= effSeq == f.lastEn && before <= effSeq
    requires LagProofs.SeqsOk(Head(f, last) + f.queue, f.lag, before)
    ensures var g := Process(mode, f, effSeq, now, tms, force); FrontOk(g, last) && ModeOk(mode, g)
  {
    hide LagProofs.SeqsOk, LagProofs.PipeStep, Observe, LastN, Tagged, Worthy, FrontOk;
    if mode.StrictMode? {
      StrictOk(mode, f, before, effSeq, now, tms, force, last);
    } else {
      LagOk(mode, f, before, effSeq, now, tms, force, last);
    }
  }

  /** The number last sent, after one more event. */
  function LastAfter(f: Front, e: Event, last: int): int {
    if e.Send? && f.hand != [] then f.hand[0].enSeq else last
  }

  lemma FrontStepOk(mode: Mode, f: Front, e: Event, last: int)
    requires FrontOk(f, last) && ModeOk(mode, f)
    ensures FrontOk(FrontStep(mode, f, e), LastAfter(f, e, last)) && ModeOk(mode, FrontStep(mode, f, e))
    ensures last <= LastAfter(f, e, last)
  {
    hide Process, LagProofs.Sorted, Norm;
    match e
    case Stable(seqNo, text, now, tms) =>
      var n := if seqNo.Some? then seqNo.value else 0;
      var fed := StableFeed.Fed(f.lastSent, n);
      if fed.Some? && EnSeq.Effective(f.lastEn, 0, fed).Some? {
        var g := f.(lastSent := StableFeed.FedMark(f.lastSent, n), lastEn := Max(f.lastEn, n), text := Norm(text));
        ProcessOk(mode, g, f.lastEn, n, now, tms, false, last);
      }
    case Release(now) =>
      if f.lastEn >= 0 {
        ProcessOk(mode, f, f.lastEn, f.lastEn, now, None, true, last);
      }
    case Take =>
      TakeUpSorted(mode, f, last);
    case Send(_) =>
      if f.hand != [] {
        SendSorted(f, last);
      }
    case Pipe(_) =>
  }

  lemma TakeUpSorted(mode: Mode, f: Front, last: int)
    requires FrontOk(f, last)
    ensures FrontOk(TakeUp(mode, f), last)
  {
    hide LagProofs.Sorted;
    assert Head(TakeUp(mode, f), last) + TakeUp(mode, f).queue == Head(f, last) + f.queue;
  }

  lemma SendSorted(f: Front, last: int)
    requires FrontOk(f, last) && f.hand != []
    ensures FrontOk(f.(hand := f.hand[1..]), f.hand[0].enSeq) && last <= f.hand[0].enSeq
  {
    var g := f.(hand := f.hand[1..]);
    var s, t := (Head(f, last) + f.queue) + f.lag.commits, (Head(g, f.hand[0].enSeq) + g.queue) + g.lag.commits;
    assert forall i :: 0 <= i < |t| ==> t[i].enSeq == s[i + 1].enSeq;
    assert s[0].enSeq <= s[1].enSeq;
  }

  lemma {:induction false} MovesAllowed(set_: Setting, w: World, es: seq<Event>, last: int)
    requires FrontOk(w.front, last) && ModeOk(set_.mode, w.front) && DraftsOff(es)
    ensures Vi.AllAllowed(last, AllMoves(set_, w, es))
    decreases |es|
  {
    hide FrontOk, ModeOk, FrontStep, Vi.RunAll;
    if es != [] {
      var e, v := es[0], Step(set_, w, es[0]);
      FrontStepOk(set_.mode, w.front, e, last);
      var next := LastAfter(w.front, e, last);
      assert forall i :: 0 <= i < |es[1..]| ==> es[1..][i] == es[i + 1];
      MovesAllowed(set_, v, es[1..], next);
      OneMore(last, next, Moves(w, e), AllMoves(set_, v, es[1..]));
    }
  }

  lemma OneMore(last: int, next: int, head: seq<Vi.Event>, rest: seq<Vi.Event>)
    requires Vi.AllAllowed(next, rest) && last <= next
    requires head == [] || (|head| == 1 && Vi.Allowed(last, head[0]) && Vi.LastEn(last, head[0]) <= next)
    ensures Vi.AllAllowed(last, head + rest)
  {
    if head == [] {
      assert head + rest == rest;
      AllowedLower(last, next, rest);
    } else {
      assert (head + rest)[1..] == rest;
      AllowedLower(Vi.LastEn(last, head[0]), next, rest);
    }
  }

  lemma {:induction false} AllowedLower(a: int, b: int, es: seq<Vi.Event>)
    requires a <= b && Vi.AllAllowed(b, es)
    ensures Vi.AllAllowed(a, es)
    decreases |es|
  {
    if es != [] && !es[0].Translated? {
      AllowedLower(a, b, es[1..]);
    }
  }

  lemma OpenedOk(mode: Mode, lastSent: int, lastEn: int, text: string, seg: Seg.Seg)
    requires lastEn >= -1
    ensures FrontOk(Opened(lastSent, lastEn, text, seg), -1) && ModeOk(mode, Opened(lastSent, lastEn, text, seg))
  {
  }

  /** Exactly once, from the received stables to the overlay, in either mode: whatever stables arrive, numbered or
      not, old, doubled or out of order, and however they interleave with releases, batches in the worker's hand,
      translations that may fail, and deliveries, with drafts off the overlay shows what was delivered of the
      translator's text, each append once. */
  lemma ExactlyOnceFromStables(set_: Setting, lastSent: int, lastEn: int, text: string, seg: Seg.Seg, es: seq<Event>)
    requires lastEn >= -1 && DraftsOff(es)
    ensures var z := RunAll(set_, World(Opened(lastSent, lastEn, text, seg), Vi.INIT), es).pipe;
            && z.delivered <= z.worker.viFull
            && Vi.Shows(set_.vi.cap, Vi.Flushed(z.overlay), z.delivered)
            && (z.up == [] && z.down == [] ==> Vi.Shows(set_.vi.cap, Vi.Flushed(z.overlay), z.worker.viFull))
  {
    hide Vi.RunAll, Vi.AllAllowed, Vi.Shows, Step, FrontOk, Opened;
    var w := World(Opened(lastSent, lastEn, text, seg), Vi.INIT);
    OpenedOk(set_.mode, lastSent, lastEn, text, seg);
    MovesAllowed(set_, w, es, -1);
    RunIsMoves(set_, w, es);
    Vi.ExactlyOnce(set_.vi, AllMoves(set_, w, es));
  }
}
