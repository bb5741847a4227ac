/** The front of the whole way does what its parts do: what gets through to the committers, what they make of it,
    and what becomes of the items that they hand to the worker. */
module FrontProofs {
  import opened Text
  import opened Normal
  import opened CommitQueue
  import opened StrictCommit
  import opened LagCommit
  import opened EndToEnd

  /** One pass over a text: the text, whether it was forced, its number and its times. */
  datatype Look = Look(text: string, force: bool, effSeq: int, now: real, tms: Option<int>)

  /** What has got through so far: the highest numbers fed and admitted, the last text, and the passes. */
  datatype Seen = Seen(lastSent: int, lastEn: int, text: string, looks: seq<Look>)

  /** A stable gets through if its number, 0 for a missing one, is above every number admitted, and no number fed
      before is as high. A release looks at the last text once more. */
  function See(m: Seen, e: Event): Seen {
    match e
    case Stable(seqNo, text, now, tms) =>
      var n := if seqNo.Some? then seqNo.value else 0;
      var fed := m.(lastSent := if n > m.lastSent && n > 0 then n else m.lastSent);
      if n > m.lastEn && (n <= 0 || n > m.lastSent) then
        fed.(lastEn := n, text := Norm(text), looks := m.looks + [Look(Norm(text), false, n, now, tms)])
      else fed
    case Release(now) =>
      if m.lastEn >= 0 then m.(looks := m.looks + [Look(m.text, true, m.lastEn, now, None)]) else m
    case Take => m
    case Send(_) => m
    case Pipe(_) => m
  }

  function SeeAll(m: Seen, es: seq<Event>): Seen
    decreases |es|
  {
    if es == [] then m else See(SeeAll(m, es[..|es| - 1]), es[|es| - 1])
  }

  function Observations(looks: seq<Look>): (h: seq<StrictProofs.Obs>)
    ensures |h| == |looks|
  {
    seq(|looks|, i requires 0 <= i < |looks| =>
      StrictProofs.Obs(Sentences.SplitSentences(looks[i].text).sents, looks[i].force))
  }

  function NumbersOf(looks: seq<Look>): (ns: seq<int>)
    ensures |ns| == |looks|
  {
    seq(|looks|, i requires 0 <= i < |looks| => looks[i].effSeq)
  }

  function PipeEvent(delay: (string, bool) -> string, k: Look): LagProofs.Event {
    LagProofs.Event(WindowProofs.Input(delay(k.text, k.force), k.now, k.tms), k.effSeq, k.force)
  }

  function PipeEvents(delay: (string, bool) -> string, looks: seq<Look>): (es: seq<LagProofs.Event>)
    ensures |es| == |looks|
  {
    seq(|looks|, i requires 0 <= i < |looks| => PipeEvent(delay, looks[i]))
  }

  function PipeOf(mode: Mode, seg: Seg.Seg, looks: seq<Look>): LagProofs.Pipe
    requires mode.LagMode?
  {
    LagProofs.PipeRun(mode.seg, mode.lag, LagProofs.Pipe(seg, EMPTY, []), PipeEvents(mode.delay, looks))
  }

  /** All items that the committer makes of the passes and the queue does not refuse. */
  function Handed(mode: Mode, seg: Seg.Seg, looks: seq<Look>): seq<Item> {
    match mode
    case StrictMode(cfg) => StrictProofs.Queued(cfg, Observations(looks), NumbersOf(looks))
    case LagMode(_, _, _) => Worthy(PipeOf(mode, seg, looks).released)
  }

  /** The committers are where the passes take them. */
  ghost predicate Follows(mode: Mode, seg: Seg.Seg, f: Front, m: Seen) {
    && f.lastSent == m.lastSent && f.lastEn == m.lastEn && f.text == m.text
    && match mode
       case StrictMode(cfg) => f.strict == StrictProofs.After(cfg, Observations(m.looks))
       case LagMode(_, _, _) => var p := PipeOf(mode, seg, m.looks); f.seg == p.seg && f.lag == p.lag
  }

  lemma {:induction false} PipeRunSnoc(
      cfg: Seg.Config, lcfg: LagConfig, p: LagProofs.Pipe, es: seq<LagProofs.Event>, e: LagProofs.Event)
    ensures LagProofs.PipeRun(cfg, lcfg, p, es + [e])
            == LagProofs.PipeStep(cfg, lcfg, LagProofs.PipeRun(cfg, lcfg, p, es), e)
    decreases |es|
  {
    hide LagProofs.PipeStep;
    if es == [] {
      assert es + [e] == [e] && [e][1..] == [];
    } else {
      PipeRunSnoc(cfg, lcfg, LagProofs.PipeStep(cfg, lcfg, p, es[0]), es[1..], e);
      assert (es + [e])[1..] == es[1..] + [e];
    }
  }

  lemma {:induction false} WorthyConcat(a: seq<Item>, b: seq<Item>)
    ensures Worthy(a + b) == Worthy(a) + Worthy(b)
    decreases |a|
  {
    hide IsPunctOnly;
    if a == [] {
      assert a + b == b;
    } else {
      WorthyConcat(a[1..], b);
      assert (a + b)[1..] == a[1..] + b;
      WorthyFirst(a);
      WorthyFirst(a + b);
      hide Worthy;
      var head := if a[0].text != [] && !IsPunctOnly(a[0].text) then [a[0]] else [];
      assert head + (Worthy(a[1..]) + Worthy(b)) == (head + Worthy(a[1..])) + Worthy(b);
    }
  }

  lemma WorthyFirst(items: seq<Item>)
    requires items != []
    ensures Worthy(items)
            == (if items[0].text != [] && !IsPunctOnly(items[0].text) then [items[0]] else []) + Worthy(items[1..])
  {
  }

  /** One more pass: the committer's next state, and what it hands over. */
  lemma PassFollows(mode: Mode, seg: Seg.Seg, f: Front, looks: seq<Look>, k: Look)
    requires f.text == k.text
    requires match mode
             case StrictMode(cfg) => f.strict == StrictProofs.After(cfg, Observations(looks))
             case LagMode(_, _, _) => var p := PipeOf(mode, seg, looks); f.seg == p.seg && f.lag == p.lag
    ensures var g, all := Process(mode, f, k.effSeq, k.now, k.tms, k.force), looks + [k];
            && g.lastSent == f.lastSent && g.lastEn == f.lastEn && g.text == f.text && g.hand == f.hand
            && (match mode
                case StrictMode(cfg) => g.strict == StrictProofs.After(cfg, Observations(all))
                case LagMode(_, _, _) => var p := PipeOf(mode, seg, all); g.seg == p.seg && g.lag == p.lag)
            && Handed(mode, seg, looks) <= Handed(mode, seg, all)
            && g.queue == LastN(f.queue + Handed(mode, seg, all)[|Handed(mode, seg, looks)|..], QUEUE_MAX)
  {
    match mode
    case StrictMode(cfg) => StrictPass(cfg, mode, seg, f, looks, k);
    case LagMode(_, _, _) => LagPass(mode, seg, f, looks, k);
  }

  lemma StrictPass(cfg: StrictCommit.Config, mode: Mode, seg: Seg.Seg, f: Front, looks: seq<Look>, k: Look)
    requires mode == StrictMode(cfg) && f.text == k.text && f.strict == StrictProofs.After(cfg, Observations(looks))
    ensures var g, all := Process(mode, f, k.effSeq, k.now, k.tms, k.force), looks + [k];
            && g.lastSent == f.lastSent && g.lastEn == f.lastEn && g.text == f.text && g.hand == f.hand
            && g.strict == StrictProofs.After(cfg, Observations(all))
            && Handed(mode, seg, looks) <= Handed(mode, seg, all)
            && g.queue == LastN(f.queue + Handed(mode, seg, all)[|Handed(mode, seg, looks)|..], QUEUE_MAX)
  {
    hide Observe, LastN, Tagged, Sentences.SplitSentences;
    var all := looks + [k];
    var h, ns := Observations(all), NumbersOf(all);
    assert h[..|looks|] == Observations(looks) && ns[..|looks|] == NumbersOf(looks);
    assert h[|looks|] == StrictProofs.Obs(Sentences.SplitSentences(k.text).sents, k.force) && ns[|looks|] == k.effSeq;
    StrictProofs.CommittedOnlyGrows(cfg, h, |looks|);
  }

  lemma LagPass(mode: Mode, seg: Seg.Seg, f: Front, looks: seq<Look>, k: Look)
    requires mode.LagMode? && f.text == k.text
    requires var p := PipeOf(mode, seg, looks); f.seg == p.seg && f.lag == p.lag
    ensures var g, all := Process(mode, f, k.effSeq, k.now, k.tms, k.force), looks + [k];
            && g.lastSent == f.lastSent && g.lastEn == f.lastEn && g.text == f.text && g.hand == f.hand
            && (var p := PipeOf(mode, seg, all); g.seg == p.seg && g.lag == p.lag)
            && Handed(mode, seg, looks) <= Handed(mode, seg, all)
            && g.queue == LastN(f.queue + Handed(mode, seg, all)[|Handed(mode, seg, looks)|..], QUEUE_MAX)
  {
    hide LagProofs.PipeStep, LastN, Worthy, LagProofs.PipeRun;
    var p, e := PipeOf(mode, seg, looks), PipeEvent(mode.delay, k);
    assert PipeEvents(mode.delay, looks + [k]) == PipeEvents(mode.delay, looks) + [e];
    PipeRunSnoc(mode.seg, mode.lag, LagProofs.Pipe(seg, EMPTY, []), PipeEvents(mode.delay, looks), e);
    ReleasesAppend(mode.seg, mode.lag, p.seg, p.lag, p.released, e);
    var more := LagProofs.PipeStep(mode.seg, mode.lag, LagProofs.Pipe(f.seg, f.lag, []), e).released;
    WorthyConcat(p.released, more);
  }

  /** One event: the front follows what is seen; the queue takes what is handed over and drops only its oldest items;
      the worker takes from its front. */
  lemma StepFollows(mode: Mode, seg: Seg.Seg, f: Front, m: Seen, e: Event)
    requires Follows(mode, seg, f, m) && m.lastEn >= -1 && |f.queue| <= 64
    ensures var g, n := FrontStep(mode, f, e), See(m, e);
            && Follows(mode, seg, g, n) && n.lastEn >= -1 && |g.queue| <= 64
            && Handed(mode, seg, m.looks) <= Handed(mode, seg, n.looks)
            && var more := Handed(mode, seg, n.looks)[|Handed(mode, seg, m.looks)|..];
               match e
               case Send(_) => g.queue == f.queue && more == [] && g.hand == if f.hand == [] then [] else f.hand[1..]
               case Take =>
                 more == [] && g.hand + g.queue == f.hand + f.queue && (f.hand != [] ==> g.hand == f.hand)
                 && (f.hand == [] ==> |g.hand| == Min(|f.queue|, if mode.StrictMode? then 1 else 4))
               case Pipe(_) => g == f && more == []
               case Stable(_, _, _, _) => g.hand == f.hand && g.queue == LastN(f.queue + more, 64)
               case Release(_) => g.hand == f.hand && g.queue == LastN(f.queue + more, 64)
  {
    hide Process, Handed, Norm, PipeOf, StrictProofs.After, Observations;
    NothingMore(f.queue);
    var all := Handed(mode, seg, m.looks);
    assert all[|all|..] == [];
    match e
    case Stable(seqNo, text, now, tms) =>
      var n := if seqNo.Some? then seqNo.value else 0;
      if n > m.lastEn && (n <= 0 || n > m.lastSent) {
        var g := f.(lastSent := See(m, e).lastSent, lastEn := n, text := Norm(text));
        PassFollows(mode, seg, g, m.looks, Look(Norm(text), false, n, now, tms));
      }
    case Release(now) =>
      if m.lastEn >= 0 {
        PassFollows(mode, seg, f, m.looks, Look(m.text, true, m.lastEn, now, None));
      }
    case Take =>
    case Send(_) =>
    case Pipe(_) =>
  }

  lemma NothingMore(q: seq<Item>)
    ensures |q| <= 64 ==> LastN(q + [], 64) == q
  {
    assert q + [] == q;
  }

  // ---- whole runs ----

  function FrontAll(mode: Mode, f: Front, es: seq<Event>): Front
    decreases |es|
  {
    if es == [] then f else FrontStep(mode, FrontAll(mode, f, es[..|es| - 1]), es[|es| - 1])
  }

  lemma {:induction false} FrontIsFront(set_: Setting, w: World, es: seq<Event>)
    ensures RunAll(set_, w, es).front == FrontAll(set_.mode, w.front, es)
    decreases |es|
  {
    hide FrontStep, Moves, Vi.RunAll;
    if es != [] {
      var init, e := es[..|es| - 1], es[|es| - 1];
      FrontIsFront(set_, w, init);
      RunSnoc(set_, w, init, e);
      assert init + [e] == es;
    }
  }

  lemma {:induction false} RunSnoc(set_: Setting, w: World, es: seq<Event>, e: Event)
    ensures RunAll(set_, w, es + [e]) == Step(set_, RunAll(set_, w, es), e)
    decreases |es|
  {
    hide Step;
    if es == [] {
      assert es + [e] == [e] && [e][1..] == [];
    } else {
      RunSnoc(set_, Step(set_, w, es[0]), es[1..], e);
      assert (es + [e])[1..] == es[1..] + [e];
    }
  }

  /** The items that the worker has sent or failed to translate. */
  function Done(mode: Mode, f: Front, es: seq<Event>): seq<Item>
    decreases |es|
  {
    if es == [] then []
    else
      var init := es[..|es| - 1];
      var hand := FrontAll(mode, f, init).hand;
      Done(mode, f, init) + if es[|es| - 1].Send? && hand != [] then [hand[0]] else []
  }

  /** The queue never had to drop an item. */
  ghost predicate NeverOverflows(mode: Mode, seg: Seg.Seg, f: Front, m: Seen, es: seq<Event>)
    decreases |es|
  {
    es == [] || (
      var init := es[..|es| - 1];
      var was, is_ := Handed(mode, seg, SeeAll(m, init).looks), Handed(mode, seg, SeeAll(m, es).looks);
      NeverOverflows(mode, seg, f, m, init) && |FrontAll(mode, f, init).queue| + |is_| - |was| <= 64)
  }

  lemma {:induction false} FrontRuns(mode: Mode, seg: Seg.Seg, f: Front, m: Seen, es: seq<Event>)
    requires Follows(mode, seg, f, m) && m.lastEn >= -1 && f.queue == f.hand == Handed(mode, seg, m.looks) == []
    ensures var g, n := FrontAll(mode, f, es), SeeAll(m, es);
            && Follows(mode, seg, g, n) && n.lastEn >= -1 && |g.queue| <= 64
            && (NeverOverflows(mode, seg, f, m, es) ==>
                  Done(mode, f, es) + (g.hand + g.queue) == Handed(mode, seg, n.looks))
    decreases |es|
  {
    hide Follows, FrontStep, Handed, See;
    if es != [] {
      var init, e := es[..|es| - 1], es[|es| - 1];
      FrontRuns(mode, seg, f, m, init);
      var g, n := FrontAll(mode, f, init), SeeAll(m, init);
      StepFollows(mode, seg, g, n, e);
      if NeverOverflows(mode, seg, f, m, es) {
        var was, is_ := Handed(mode, seg, n.looks), Handed(mode, seg, See(n, e).looks);
        Passed(Done(mode, f, init), g.hand, g.queue, was, is_);
      }
    }
  }

  lemma Passed(done: seq<Item>, hand: seq<Item>, queue: seq<Item>, was: seq<Item>, is_: seq<Item>)
    requires was <= is_ && done + (hand + queue) == was
    ensures done + (hand + (queue + is_[|was|..])) == is_
    ensures |queue| + |is_| - |was| <= 64 ==> LastN(queue + is_[|was|..], 64) == queue + is_[|was|..]
    ensures hand != [] ==> (done + [hand[0]]) + (hand[1..] + queue) == was
    ensures is_[|was|..] == [] ==> is_ == was
    ensures done + [] == done
  {
  }

  /** From the start on, in both modes and on every interleaving: the committers are exactly where the passes that got
      through take them; and unless the queue overflows, what the worker is done with, has in hand and finds queued
      is, in this order, all that they handed over. */
  lemma FrontFollows(set_: Setting, lastSent: int, lastEn: int, text: string, seg: Seg.Seg, es: seq<Event>)
    requires lastEn >= -1
    ensures var mode, f, m := set_.mode, Opened(lastSent, lastEn, text, seg), Seen(lastSent, lastEn, text, []);
            var g := RunAll(set_, World(f, Vi.INIT), es).front;
            && Follows(mode, seg, g, SeeAll(m, es))
            && (NeverOverflows(mode, seg, f, m, es) ==>
                  Done(mode, f, es) + (g.hand + g.queue) == Handed(mode, seg, SeeAll(m, es).looks))
  {
    hide Follows, FrontAll, SeeAll, Handed, NeverOverflows, Done;
    FrontIsFront(set_, World(Opened(lastSent, lastEn, text, seg), Vi.INIT), es);
    FrontStarts(set_.mode, lastSent, lastEn, text, seg);
    FrontRuns(set_.mode, seg, Opened(lastSent, lastEn, text, seg), Seen(lastSent, lastEn, text, []), es);
  }

  lemma FrontStarts(mode: Mode, lastSent: int, lastEn: int, text: string, seg: Seg.Seg)
    ensures Follows(mode, seg, Opened(lastSent, lastEn, text, seg), Seen(lastSent, lastEn, text, []))
    ensures Handed(mode, seg, []) == []
  {
    hide LagProofs.PipeStep;
  }
}
