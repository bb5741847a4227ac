/** The lag committer, and the whole path from received text to released sentence. */
module LagProofs {
  import opened Text
  import opened Normal
  import opened Sentences
  import opened CommitQueue
  import opened LagCommit
  import Seg = SegmentSpec
  import WindowProofs
  import PauseProofs
  import SegmenterProofs

  function ItemsAlnums(items: seq<Item>): string {
    if items == [] then [] else Alnums(items[0].text) + ItemsAlnums(items[1..])
  }

  lemma ItemsAlnumsStep(items: seq<Item>)
    requires items != []
    ensures ItemsAlnums(items) == Alnums(items[0].text) + ItemsAlnums(items[1..])
  {
  }

  lemma {:induction false} ItemsAlnumsConcat(a: seq<Item>, b: seq<Item>)
    ensures ItemsAlnums(a + b) == ItemsAlnums(a) + ItemsAlnums(b)
  {
    hide Alnums;
    if a == [] {
      assert a + b == b;
    } else {
      ItemsAlnumsConcat(a[1..], b);
      ItemsAlnumsStep(a);
      ItemsAlnumsStep(a + b);
      hide ItemsAlnums;
      assert (a + b)[1..] == a[1..] + b;
      Assoc(Alnums(a[0].text), ItemsAlnums(a[1..]), ItemsAlnums(b));
    }
  }

  /** All letters and digits that wait in the committer. */
  function Held(l: Lag): string {
    ItemsAlnums(l.commits) + Alnums(l.sentence)
  }

  lemma NothingToSay(s: string)
    requires s == [] || IsPunctOnly(s)
    ensures Alnums(s) == []
  {
    AlnumsEmpty(s);
  }

  lemma {:induction false} CompletedKeeps(sents: seq<string>, first: int, rest: int)
    ensures ItemsAlnums(Completed(sents, first, rest)) == Alnums(Concat(sents))
  {
    hide Alnums, IsPunctOnly;
    if sents == [] {
      AlnumsNothing();
      NoItems();
    } else {
      CompletedKeeps(sents[1..], rest, rest);
      AlnumsConcat(sents[0], Concat(sents[1..]));
      var more := Completed(sents[1..], rest, rest);
      if sents[0] == [] || IsPunctOnly(sents[0]) {
        NothingToSay(sents[0]);
        assert [] + more == more;
      } else {
        assert ([Item(first, sents[0])] + more)[1..] == more;
      }
    }
  }

  lemma NoItems()
    ensures ItemsAlnums([]) == []
  {
  }

  lemma JoinKeeps(base: string, piece: string)
    ensures Alnums(JoinTextParts(base, piece)) == Alnums(base) + Alnums(piece)
  {
    hide Alnums, Strip, JoinTextParts;
    JoinCases(base, piece);
    AlnumsStrip(base);
    AlnumsStrip(piece);
    TwoKeep(Strip(base), Strip(piece));
  }

  lemma JoinCases(base: string, piece: string)
    ensures var b, p, j := Strip(base), Strip(piece), JoinTextParts(base, piece);
            (b == [] && j == p) || (p == [] && j == b) || j == b + p || j == b + " " + p
  {
    hide Strip, IsJoinMark;
  }

  lemma TwoKeep(b: string, p: string)
    ensures Alnums(b + p) == Alnums(b) + Alnums(p) == Alnums(b + " " + p)
    ensures (b == [] ==> Alnums(p) == Alnums(b) + Alnums(p)) && (p == [] ==> Alnums(b) == Alnums(b) + Alnums(p))
  {
    hide Alnums;
    AlnumsNothing();
    NoItems();
    AlnumsConcat(b, p);
    AlnumsConcat(b + " ", p);
    AlnumsConcat(b, " ");
    AlnumsOfNoise(" ");
    assert Alnums(b) + [] == Alnums(b);
    assert [] + Alnums(p) == Alnums(p);
  }

  /** Collecting a segment adds exactly its letters and digits, at the end. */
  lemma CollectKeeps(l: Lag, seg: string, effSeq: int)
    ensures Held(Collect(l, seg, effSeq)) == Held(l) + Alnums(seg)
  {
    hide Alnums, Norm, SplitSentences, JoinTextParts, IsPunctOnly, Completed, ItemsAlnums;
    var s := Norm(seg);
    NormAlnums(seg);
    AlnumsNothing();
    NoItems();
    if s == [] || IsPunctOnly(s) {
      NothingToSay(s);
      assert Held(l) + [] == Held(l);
    } else {
      var merged := if l.sentence != [] then JoinTextParts(l.sentence, s) else s;
      JoinKeeps(l.sentence, s);
      assert Alnums(merged) == Alnums(l.sentence) + Alnums(s);
      var split := SplitSentences(merged);
      var a, b := ItemsAlnums(l.commits), Alnums(l.sentence);
      assert (a + b) + Alnums(s) == a + Alnums(merged);
      if split.sents != [] {
        SplitAlnums(merged);
        var done := Completed(split.sents, FirstSeq(l, effSeq), effSeq);
        CompletedKeeps(split.sents, FirstSeq(l, effSeq), effSeq);
        ItemsAlnumsConcat(l.commits, done);
        assert (a + ItemsAlnums(done)) + Alnums(split.tail) == a + (ItemsAlnums(done) + Alnums(split.tail));
      }
    }
  }

  lemma FlushTailKeeps(l: Lag, effSeq: int)
    ensures Held(FlushTail(l, effSeq)) == Held(l)
  {
    hide Alnums, Norm, IsPunctOnly, ItemsAlnums;
    var tail := Norm(l.sentence);
    NormAlnums(l.sentence);
    AlnumsNothing();
    NoItems();
    var x := Item(if l.sentenceSeq >= 0 then l.sentenceSeq else effSeq, tail);
    OneItem(x);
    ItemsAlnumsConcat(l.commits, [x]);
    assert l.commits + [] == l.commits;
    var a := ItemsAlnums(l.commits);
    assert (a + Alnums(tail)) + [] == a + Alnums(tail) && a + [] == a;
    if tail == [] || IsPunctOnly(tail) {
      NothingToSay(tail);
    }
  }

  lemma OneItem(x: Item)
    ensures ItemsAlnums([x]) == Alnums(x.text)
  {
  }

  /** A dispatch releases from the front and keeps the rest: nothing is lost or reordered. */
  lemma DispatchKeeps(cfg: LagConfig, l: Lag, draft: string, effSeq: int, force: bool)
    ensures var d := Dispatch(cfg, l, draft, effSeq, force); ItemsAlnums(d.released) + Held(d.lag) == Held(l)
  {
    hide Alnums, ItemsAlnums, ReleaseCount, FlushTail;
    var m := if force && cfg.flushOnForce then FlushTail(l, effSeq) else l;
    FlushTailKeeps(l, effSeq);
    var n := ReleaseCount(cfg, m, draft, force);
    assert m.commits == m.commits[..n] + m.commits[n..];
    ItemsAlnumsConcat(m.commits[..n], m.commits[n..]);
    var a, b := ItemsAlnums(m.commits[..n]), ItemsAlnums(m.commits[n..]);
    assert (a + b) + Alnums(m.sentence) == a + (b + Alnums(m.sentence));
  }

  /** An unforced dispatch leaves at most the lag waiting; in strict mode, or when forced, none. */
  lemma DispatchLeavesLag(cfg: LagConfig, l: Lag, draft: string, effSeq: int, force: bool)
    ensures var d := Dispatch(cfg, l, draft, effSeq, force);
            |d.lag.commits| <= if cfg.strictOnly || force then 0 else cfg.sentenceLag
  {
  }

  /** What the queue refuses of the released items has no letter or digit. */
  lemma {:induction false} WorthyKeeps(items: seq<Item>)
    ensures ItemsAlnums(Worthy(items)) == ItemsAlnums(items)
  {
    hide Alnums, IsPunctOnly;
    if items != [] {
      WorthyKeeps(items[1..]);
      var rest := Worthy(items[1..]);
      if items[0].text == [] || IsPunctOnly(items[0].text) {
        NothingToSay(items[0].text);
        assert [] + rest == rest;
      } else {
        assert ([items[0]] + rest)[1..] == rest;
      }
    }
  }

  // ---- sequence numbers ----

  ghost predicate Sorted(items: seq<Item>, upTo: int) {
    (forall i, j :: 0 <= i < j < |items| ==> items[i].enSeq <= items[j].enSeq)
    && forall i :: 0 <= i < |items| ==> items[i].enSeq <= upTo
  }

  /** The released and waiting items carry numbers that never decrease, and none is beyond where the open sentence
      began. */
  ghost predicate SeqsOk(released: seq<Item>, l: Lag, last: int) {
    && l.sentenceSeq <= last
    && Sorted(released + l.commits, if l.sentenceSeq >= 0 then l.sentenceSeq else last)
  }

  lemma {:induction false} CompletedSorted(sents: seq<string>, first: int, rest: int)
    requires first <= rest
    ensures Sorted(Completed(sents, first, rest), rest)
    ensures forall x :: x in Completed(sents, first, rest) ==> first <= x.enSeq
  {
    hide IsPunctOnly;
    if sents != [] {
      CompletedSorted(sents[1..], rest, rest);
    }
  }

  lemma CollectSeqs(released: seq<Item>, l: Lag, seg: string, last: int, effSeq: int)
    requires SeqsOk(released, l, last) && 0 <= last <= effSeq
    ensures SeqsOk(released, Collect(l, seg, effSeq), effSeq)
  {
    hide Norm, IsPunctOnly, SplitSentences, JoinTextParts, Completed, Sorted;
    var s := Norm(seg);
    var m := if l.sentenceSeq >= 0 then l.sentenceSeq else last;
    SortedWeaker(released + l.commits, m, effSeq);
    if s != [] && !IsPunctOnly(s) {
      var merged := if l.sentence != [] then JoinTextParts(l.sentence, s) else s;
      var split := SplitSentences(merged);
      if split.sents != [] {
        var first := FirstSeq(l, effSeq);
        var done := Completed(split.sents, first, effSeq);
        CompletedSorted(split.sents, first, effSeq);
        SortedMembers(done);
        assert m <= first;
        SortedAppendFrom(released + l.commits, done, m, first, effSeq);
        assert (released + l.commits) + done == released + (l.commits + done);
      }
    }
  }

  lemma SortedMembers(items: seq<Item>)
    ensures forall i :: 0 <= i < |items| ==> items[i] in items
  {
  }

  lemma SortedWeaker(a: seq<Item>, m: int, n: int)
    requires Sorted(a, m) && m <= n
    ensures Sorted(a, n)
  {
  }

  lemma SortedAppendFrom(a: seq<Item>, b: seq<Item>, m: int, first: int, n: int)
    requires Sorted(a, m) && Sorted(b, n) && m <= first <= n
    requires forall x :: x in b ==> first <= x.enSeq
    ensures Sorted(a + b, n)
  {
  }

  lemma DispatchSeqs(cfg: LagConfig, released: seq<Item>, l: Lag, draft: string, last: int, effSeq: int, force: bool)
    requires SeqsOk(released, l, last) && 0 <= last <= effSeq
    ensures var d := Dispatch(cfg, l, draft, effSeq, force); SeqsOk(released + d.released, d.lag, effSeq)
  {
    hide ReleaseCount, Norm, IsPunctOnly, Sorted;
    var m := if force && cfg.flushOnForce then FlushTail(l, effSeq) else l;
    var bound := if l.sentenceSeq >= 0 then l.sentenceSeq else last;
    SortedWeaker(released + l.commits, bound, effSeq);
    if force && cfg.flushOnForce {
      var x := Item(if l.sentenceSeq >= 0 then l.sentenceSeq else effSeq, Norm(l.sentence));
      SortedOne(x, effSeq);
      SortedAppendFrom(released + l.commits, [x], bound, x.enSeq, effSeq);
      assert (released + l.commits) + [x] == released + (l.commits + [x]);
      assert l.commits + [] == l.commits;
    }
    var n := ReleaseCount(cfg, m, draft, force);
    assert released + m.commits == (released + m.commits[..n]) + m.commits[n..];
  }

  lemma SortedOne(x: Item, n: int)
    requires x.enSeq <= n
    ensures Sorted([x], n)
  {
  }

  // ---- from received text to released sentence ----

  /** One received text: what it says, when, and its sequence number. */
  datatype Event = Event(x: WindowProofs.Input, effSeq: int, force: bool)

  datatype Pipe = Pipe(seg: Seg.Seg, lag: Lag, released: seq<Item>)

  function CollectAll(l: Lag, segs: seq<string>, effSeq: int): Lag
    decreases |segs|
  {
    if segs == [] then l else CollectAll(Collect(l, segs[0], effSeq), segs[1..], effSeq)
  }

  function PipeStep(cfg: Seg.Config, lcfg: LagConfig, p: Pipe, e: Event): Pipe {
    var u := WindowProofs.Step(cfg, p.seg, e.x);
    var d := Dispatch(lcfg, CollectAll(p.lag, u.out, e.effSeq), u.draft, e.effSeq, e.force);
    Pipe(u.seg, d.lag, p.released + d.released)
  }

  function PipeRun(cfg: Seg.Config, lcfg: LagConfig, p: Pipe, es: seq<Event>): Pipe
    decreases |es|
  {
    if es == [] then p else PipeRun(cfg, lcfg, PipeStep(cfg, lcfg, p, es[0]), es[1..])
  }

  /** Everything that went out or still waits behind the segmenter. */
  function Sent(p: Pipe): string {
    ItemsAlnums(p.released) + Held(p.lag)
  }

  lemma {:induction false} CollectAllKeeps(l: Lag, segs: seq<string>, effSeq: int)
    ensures Held(CollectAll(l, segs, effSeq)) == Held(l) + Alnums(Concat(segs))
    decreases |segs|
  {
    hide Alnums, Collect, Held;
    if segs == [] {
      AlnumsNothing();
      NoItems();
      assert Held(l) + [] == Held(l);
    } else {
      CollectKeeps(l, segs[0], effSeq);
      CollectAllKeeps(Collect(l, segs[0], effSeq), segs[1..], effSeq);
      AlnumsConcat(segs[0], Concat(segs[1..]));
      Assoc(Held(l), Alnums(segs[0]), Alnums(Concat(segs[1..])));
    }
  }

  lemma PipeStepSends(cfg: Seg.Config, lcfg: LagConfig, p: Pipe, e: Event)
    ensures Sent(PipeStep(cfg, lcfg, p, e)) == Sent(p) + Alnums(Concat(WindowProofs.Step(cfg, p.seg, e.x).out))
  {
    hide Alnums, Concat, Held, ItemsAlnums, CollectAll, Dispatch, WindowProofs.Step;
    var u := WindowProofs.Step(cfg, p.seg, e.x);
    var l := CollectAll(p.lag, u.out, e.effSeq);
    CollectAllKeeps(p.lag, u.out, e.effSeq);
    DispatchKeeps(lcfg, l, u.draft, e.effSeq, e.force);
    var d := Dispatch(lcfg, l, u.draft, e.effSeq, e.force);
    ItemsAlnumsConcat(p.released, d.released);
    Assoc(ItemsAlnums(p.released), ItemsAlnums(d.released), Held(d.lag));
    Assoc(ItemsAlnums(p.released), Held(p.lag), Alnums(Concat(u.out)));
  }

  function Inputs(es: seq<Event>): (r: seq<WindowProofs.Input>)
    ensures |r| == |es|
  {
    if es == [] then [] else [es[0].x] + Inputs(es[1..])
  }

  lemma {:induction false} PipeRunSends(cfg: Seg.Config, lcfg: LagConfig, p: Pipe, es: seq<Event>)
    ensures var q, r := PipeRun(cfg, lcfg, p, es), SegmenterProofs.RunAll(cfg, p.seg, Inputs(es));
            q.seg == r.0 && Sent(q) == Sent(p) + Alnums(Concat(r.1))
    decreases |es|
  {
    hide Alnums, Concat, Sent, PipeStep, WindowProofs.Step, SegmenterProofs.RunAll;
    SegmenterProofs.RunAllNothing(cfg, p.seg);
    if es == [] {
      AlnumsNothing();
      NoItems();
      assert Concat([]) == "" by { ConcatNothing(); }
      assert Sent(p) + [] == Sent(p);
    } else {
      PipeStepSends(cfg, lcfg, p, es[0]);
      var p1 := PipeStep(cfg, lcfg, p, es[0]);
      var u := WindowProofs.Step(cfg, p.seg, es[0].x);
      PipeStepSeg(cfg, lcfg, p, es[0]);
      PipeRunSends(cfg, lcfg, p1, es[1..]);
      SegmenterProofs.RunAllCons(cfg, p.seg, es[0].x, Inputs(es[1..]));
      var out := SegmenterProofs.RunAll(cfg, u.seg, Inputs(es[1..])).1;
      ConcatAppend(u.out, out);
      AlnumsConcat(Concat(u.out), Concat(out));
      Assoc(Sent(p), Alnums(Concat(u.out)), Alnums(Concat(out)));
    }
  }

  lemma PipeStepSeg(cfg: Seg.Config, lcfg: LagConfig, p: Pipe, e: Event)
    ensures PipeStep(cfg, lcfg, p, e).seg == WindowProofs.Step(cfg, p.seg, e.x).seg
  {
  }

  /** End to end in lag mode: since a baseline, the letters and digits of the sentences handed to the commit queue,
      the waiting ones, the unfinished one and the buffer, in this order, are exactly those of the text behind the
      baseline. */
  lemma PipelineLosesNothing(cfg: Seg.Config, lcfg: LagConfig, baseline: string, now: real, es: seq<Event>)
    requires PauseProofs.Roomy(cfg)
    requires SegmenterProofs.SteadyRun(cfg, Seg.Fresh(Norm(baseline), now), Inputs(es))
    ensures var q := PipeRun(cfg, lcfg, Pipe(Seg.Fresh(Norm(baseline), now), EMPTY, []), es);
            Alnums(Norm(baseline)) + (ItemsAlnums(Worthy(q.released)) + Held(q.lag)) + Alnums(q.seg.win.buf)
            == Alnums(q.seg.win.base)
  {
    hide Alnums, Norm, Concat, PipeRun, SegmenterProofs.RunAll, SegmenterProofs.SteadyRun, PauseProofs.Roomy;
    var p := Pipe(Seg.Fresh(Norm(baseline), now), EMPTY, []);
    SegmenterProofs.LosesNothing(cfg, baseline, now, Inputs(es));
    PipeRunSends(cfg, lcfg, p, es);
    AlnumsNothing();
    NoItems();
    assert Sent(p) == [];
    var out := SegmenterProofs.RunAll(cfg, p.seg, Inputs(es)).1;
    assert [] + Alnums(Concat(out)) == Alnums(Concat(out));
    WorthyKeeps(PipeRun(cfg, lcfg, p, es).released);
  }

  /** Sequence numbers that never go back. */
  predicate InOrder(last: int, es: seq<Event>)
    decreases |es|
  {
    es == [] || (last <= es[0].effSeq && InOrder(es[0].effSeq, es[1..]))
  }

  lemma {:induction false} CollectAllSeqs(released: seq<Item>, l: Lag, segs: seq<string>, effSeq: int)
    requires SeqsOk(released, l, effSeq) && effSeq >= 0
    ensures SeqsOk(released, CollectAll(l, segs, effSeq), effSeq)
    decreases |segs|
  {
    hide SeqsOk, Collect;
    if segs != [] {
      CollectSeqs(released, l, segs[0], effSeq, effSeq);
      CollectAllSeqs(released, Collect(l, segs[0], effSeq), segs[1..], effSeq);
    }
  }

  /** The sequence numbers of released sentences never decrease. */
  lemma {:induction false} ReleasedInOrder(cfg: Seg.Config, lcfg: LagConfig, p: Pipe, last: int, es: seq<Event>)
    requires SeqsOk(p.released, p.lag, last) && last >= 0 && InOrder(last, es)
    ensures var q := PipeRun(cfg, lcfg, p, es);
            forall i, j :: 0 <= i < j < |q.released| ==> q.released[i].enSeq <= q.released[j].enSeq
    decreases |es|
  {
    hide Sorted, WindowProofs.Step, CollectAll, Dispatch;
    if es == [] {
      SortedPrefix(p.released, p.lag.commits, if p.lag.sentenceSeq >= 0 then p.lag.sentenceSeq else last);
    } else {
      PipeStepSeqs(cfg, lcfg, p, last, es[0]);
      hide PipeStep, SeqsOk;
      var p1 := PipeStep(cfg, lcfg, p, es[0]);
      ReleasedInOrder(cfg, lcfg, p1, es[0].effSeq, es[1..]);
      assert PipeRun(cfg, lcfg, p, es) == PipeRun(cfg, lcfg, p1, es[1..]);
    }
  }

  lemma PipeStepSeqs(cfg: Seg.Config, lcfg: LagConfig, p: Pipe, last: int, e: Event)
    requires SeqsOk(p.released, p.lag, last) && last <= e.effSeq && e.effSeq >= 0
    ensures var q := PipeStep(cfg, lcfg, p, e); SeqsOk(q.released, q.lag, e.effSeq)
  {
    hide Sorted, WindowProofs.Step, CollectAll, Dispatch;
    SeqsLater(p.released, p.lag, last, e.effSeq);
    var u := WindowProofs.Step(cfg, p.seg, e.x);
    CollectAllSeqs(p.released, p.lag, u.out, e.effSeq);
    DispatchSeqs(lcfg, p.released, CollectAll(p.lag, u.out, e.effSeq), u.draft, e.effSeq, e.effSeq, e.force);
  }

  lemma SeqsLater(released: seq<Item>, l: Lag, last: int, effSeq: int)
    requires SeqsOk(released, l, last) && last <= effSeq
    ensures SeqsOk(released, l, effSeq)
  {
  }

  lemma SortedPrefix(a: seq<Item>, b: seq<Item>, n: int)
    requires Sorted(a + b, n)
    ensures forall i, j :: 0 <= i < j < |a| ==> a[i].enSeq <= a[j].enSeq
  {
    forall i, j | 0 <= i < j < |a| ensures a[i].enSeq <= a[j].enSeq {
      assert (a + b)[i] == a[i] && (a + b)[j] == a[j];
    }
  }
}
