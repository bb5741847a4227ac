/** The lag committer and the text of its segments: what it releases and holds, joined with blanks, is what the segments
    say, joined by one rule. */
module LagText {
  import opened Text
  import opened Normal
  import opened Words
  import opened Sentences
  import opened CommitQueue
  import opened LagCommit
  import Seg = SegmentSpec
  import WindowProofs
  import LagProofs

  /** A piece that begins with one of these marks follows the text directly, any other behind a blank. */
  function Glued(text: string, piece: string): string {
    if piece != "" && piece[0] in {'.', ',', '!', '?', ';', ':', ')', ']', '"', '\''} then text + piece
    else text + " " + piece
  }

  /** How two parts are joined, and that their words add up: only a mark can join two words into one. */
  lemma JoinRule(base: string, piece: string)
    ensures var b, p, j := Strip(base), Strip(piece), JoinTextParts(base, piece);
            && (b == "" ==> j == p) && (p == "" ==> j == b)
            && (b != "" && p != "" ==> j == Glued(b, p))
            && WordCount(j) == WordCount(base) + WordCount(piece)
                               - if b != "" && p != "" && j == b + p then 1 else 0
  {
    hide Strip, WordCount;
    var b, p := Strip(base), Strip(piece);
    WordsOfStrip(base);
    WordsOfStrip(piece);
    StripIsTrimmed(base);
    StripIsTrimmed(piece);
    BlankHasNoWords("");
    if b != "" && p != "" {
      WordsJoin(b, p);
      assert b + " " + p != b + p;
    }
  }

  lemma WordsJoin(b: string, p: string)
    requires b != "" && p != "" && Trimmed(b) && Trimmed(p)
    ensures WordCount(b + p) == WordCount(b) + WordCount(p) - 1
    ensures WordCount(b + " " + p) == WordCount(b) + WordCount(p)
  {
    WordStartsConcat(b, p, false);
    WordStartsConcat(b + " ", p, false);
    WordStartsConcat(b, " ", false);
    WordStartsInWord(p);
    BlankHasNoWords(" ");
  }

  /** The whole text as far as it was told: complete sentences, each with the number of the segment in which it began,
      and the text behind them, which began with segment `since`. */
  datatype Told = Told(sents: seq<Item>, open: string, since: int)

  const NOTHING := Told([], "", -1)

  /** A sentence with nothing to say is not worth translating. */
  predicate IsMute(s: string) {
    s == "" || IsPunctOnly(s)
  }

  /** A segment is glued to the open text, and the sentences that this completes are done. The first of them began
      with the open text, if there was one; the others began with the segment. */
  function Tell(w: Told, seg: string, n: int): Told {
    var s := Norm(seg);
    if IsMute(s) then w
    else
      var m := if w.open == "" then s else Glued(w.open, s);
      var r := SplitSentences(m);
      var first := if w.open == "" then n else w.since;
      if r.sents == [] then Told(w.sents, m, first)
      else Told(w.sents + Numbered(r.sents, first, n), r.tail, n)
  }

  function Numbered(ss: seq<string>, first: int, n: int): (r: seq<Item>)
    ensures |r| == |ss| && forall i :: 0 <= i < |ss| ==> r[i] == Item(if i == 0 then first else n, ss[i])
  {
    seq(|ss|, i requires 0 <= i < |ss| => Item(if i == 0 then first else n, ss[i]))
  }

  /** The open text counts as a sentence from now on. */
  function Close(w: Told): Told {
    if w.open == "" then w else Told(w.sents + [Item(w.since, Norm(w.open))], "", -1)
  }

  function TextOf(w: Told): string {
    Join(Parts(Split(TextsOf(w.sents), w.open)))
  }

  function TextsOf(items: seq<Item>): (r: seq<string>)
    ensures |r| == |items| && forall i :: 0 <= i < |items| ==> r[i] == items[i].text
  {
    seq(|items|, i requires 0 <= i < |items| => items[i].text)
  }

  lemma {:induction false} JoinBehind(a: seq<string>, b: seq<string>)
    requires a != [] && b != []
    ensures Join(a + b) == Join(a) + " " + Join(b)
    decreases |a|
  {
    hide Join;
    JoinStep(a[0], a[1..]);
    assert [a[0]] + a[1..] == a;
    if |a| == 1 {
      JoinStep(a[0], b);
      assert a + b == [a[0]] + b;
    } else {
      JoinBehind(a[1..], b);
      JoinStep(a[0], a[1..] + b);
      assert a + b == [a[0]] + (a[1..] + b);
      Assoc(a[0], " ", Join(a[1..] + b));
      assert a[0] + " " + (Join(a[1..]) + " " + Join(b)) == (a[0] + " " + Join(a[1..])) + " " + Join(b);
    }
  }

  /** What a segment does to the text: it ends with the glued part, normalised once a sentence of it is complete; what
      stands before the open text stays. */
  lemma TellSays(w: Told, seg: string, n: int)
    requires !IsMute(Norm(seg))
    ensures var m := if w.open == "" then Norm(seg) else Glued(w.open, Norm(seg));
            var last := if SplitSentences(m).sents == [] then m else Norm(m);
            TextOf(Tell(w, seg, n)) == if w.sents == [] then last else Join(TextsOf(w.sents)) + " " + last
  {
    hide Norm, Join, SplitSentences, IsPunctOnly;
    var m := if w.open == "" then Norm(seg) else Glued(w.open, Norm(seg));
    var r, told := SplitSentences(m), TextsOf(w.sents);
    SplitIsLossless(m);
    var tail := if r.sents == [] then m else r.tail;
    assert m != "";
    JoinOne(m);
    assert Parts(Split([], m)) == [m];
    assert TextsOf(Tell(w, seg, n).sents) == told + r.sents;
    assert Parts(Split(told + r.sents, tail)) == told + Parts(Split(r.sents, tail));
    if w.sents == [] {
      assert told + Parts(Split(r.sents, tail)) == Parts(Split(r.sents, tail));
    } else {
      JoinBehind(told, Parts(Split(r.sents, tail)));
    }
  }

  function Spoken(ss: seq<Item>): seq<Item>
    decreases |ss|
  {
    if ss == [] then [] else (if IsMute(ss[0].text) then [] else [ss[0]]) + Spoken(ss[1..])
  }

  lemma {:induction false} SpokenConcat(a: seq<Item>, b: seq<Item>)
    ensures Spoken(a + b) == Spoken(a) + Spoken(b)
    decreases |a|
  {
    hide IsMute;
    if a == [] {
      assert a + b == b;
    } else {
      SpokenConcat(a[1..], b);
      assert (a + b)[1..] == a[1..] + b;
    }
  }

  lemma {:induction false} CompletedIs(sents: seq<string>, first: int, rest: int)
    ensures Completed(sents, first, rest) == Spoken(Numbered(sents, first, rest))
    decreases |sents|
  {
    hide IsPunctOnly;
    if sents != [] {
      CompletedIs(sents[1..], rest, rest);
      assert Numbered(sents, first, rest)[1..] == Numbered(sents[1..], rest, rest);
    }
  }

  /** The items released or waiting are what was told of complete sentences with something to say; the rest is open. */
  ghost predicate Holds(items: seq<Item>, l: Lag, w: Told) {
    && items + l.commits == Spoken(w.sents) && l.sentence == w.open
    && Trimmed(w.open) && (w.open != "" ==> l.sentenceSeq == w.since >= 0) && (w.open == "" ==> l.sentenceSeq == -1)
  }

  lemma NormIsTrimmed(s: string)
    ensures Trimmed(Norm(s)) && Strip(Norm(s)) == Norm(s)
  {
    NormIsNormal(s);
    hide Norm;
    StripOfTrimmed(Norm(s));
  }

  lemma GluedTrimmed(a: string, p: string)
    requires a != "" && p != "" && Trimmed(a) && Trimmed(p)
    ensures Trimmed(Glued(a, p)) && Glued(a, p) != ""
  {
  }

  lemma TailTrimmed(m: string)
    ensures Trimmed(SplitSentences(m).tail)
  {
    hide Norm, NextEnd;
    TailFromTrimmed(Norm(m), 0, 0);
  }

  lemma {:induction false} TailFromTrimmed(t: string, p: nat, lastEnd: nat)
    requires p <= |t| && lastEnd <= |t|
    ensures Trimmed(SplitFrom(t, p, lastEnd).tail)
    decreases |t| - p
  {
    hide Norm, NextEnd, Run, Trimmed, SplitFrom;
    var e := if p == |t| then -1 else NextEnd(t, p + 1);
    if e == -1 {
      SplitFromStop(t, p, lastEnd);
      NormIsTrimmed(t[lastEnd..]);
    } else {
      var p' := e + Run(IsSpace, t[e..]);
      SplitFromStep(t, p, lastEnd, e, p', Norm(t[p..e]), SplitFrom(t, p', e));
      TailFromTrimmed(t, p', e);
    }
  }

  lemma CollectTells(items: seq<Item>, l: Lag, w: Told, seg: string, effSeq: int)
    requires Holds(items, l, w) && effSeq >= 0
    ensures Holds(items, Collect(l, seg, effSeq), Tell(w, seg, effSeq))
  {
    hide Norm, IsPunctOnly, SplitSentences, JoinTextParts, Completed, Trimmed, Strip, Glued, Spoken, Numbered;
    var s := Norm(seg);
    NormIsTrimmed(seg);
    if !IsMute(s) {
      StripOfTrimmed(w.open);
      JoinRule(w.open, s);
      var m := if w.open == "" then s else Glued(w.open, s);
      if w.open != "" {
        GluedTrimmed(w.open, s);
      }
      TailTrimmed(m);
      var r := SplitSentences(m);
      var first := FirstSeq(l, effSeq);
      CompletedIs(r.sents, first, effSeq);
      SpokenConcat(w.sents, Numbered(r.sents, first, effSeq));
      var done := Completed(r.sents, first, effSeq);
      assert items + (l.commits + done) == (items + l.commits) + done;
    }
  }

  lemma FlushTells(items: seq<Item>, l: Lag, w: Told, effSeq: int)
    requires Holds(items, l, w)
    ensures Holds(items, FlushTail(l, effSeq), Close(w))
  {
    hide Norm, IsPunctOnly, Trimmed, Spoken;
    NothingNormal();
    var x := Item(w.since, Norm(l.sentence));
    SpokenConcat(w.sents, [x]);
    SpokenOne(x);
    assert l.commits + [] == l.commits && Spoken(w.sents) + [] == Spoken(w.sents);
    var more := FlushTail(l, effSeq).commits[|l.commits|..];
    assert items + (l.commits + more) == (items + l.commits) + more;
  }

  lemma SpokenOne(x: Item)
    ensures Spoken([x]) == if IsMute(x.text) then [] else [x]
  {
    assert Spoken([x][1..]) == [];
  }

  lemma NothingNormal()
    ensures Norm("") == "" && Trimmed("")
  {
  }

  lemma DispatchTells(cfg: LagConfig, items: seq<Item>, l: Lag, w: Told, draft: string, effSeq: int, force: bool)
    requires Holds(items, l, w)
    ensures var d := Dispatch(cfg, l, draft, effSeq, force);
            Holds(items + d.released, d.lag, if force && cfg.flushOnForce then Close(w) else w)
  {
    hide ReleaseCount, Norm, IsPunctOnly, Close, Spoken, FlushTail;
    FlushTells(items, l, w, effSeq);
    var m := if force && cfg.flushOnForce then FlushTail(l, effSeq) else l;
    var n := ReleaseCount(cfg, m, draft, force);
    assert items + m.commits == (items + m.commits[..n]) + m.commits[n..];
  }

  // ---- whole runs ----

  function TellAll(w: Told, segs: seq<string>, n: int): Told
    decreases |segs|
  {
    if segs == [] then w else TellAll(Tell(w, segs[0], n), segs[1..], n)
  }

  lemma {:induction false} CollectAllTells(items: seq<Item>, l: Lag, w: Told, segs: seq<string>, effSeq: int)
    requires Holds(items, l, w) && effSeq >= 0
    ensures Holds(items, LagProofs.CollectAll(l, segs, effSeq), TellAll(w, segs, effSeq))
    decreases |segs|
  {
    hide Holds, Collect, Tell;
    if segs != [] {
      CollectTells(items, l, w, segs[0], effSeq);
      CollectAllTells(items, Collect(l, segs[0], effSeq), Tell(w, segs[0], effSeq), segs[1..], effSeq);
    }
  }

  /** What a run tells: the segments of each update, and a closing where a forced release ends the open sentence. */
  function TellRun(cfg: Seg.Config, lcfg: LagConfig, s: Seg.Seg, w: Told, es: seq<LagProofs.Event>): Told
    decreases |es|
  {
    if es == [] then w
    else
      var u := WindowProofs.Step(cfg, s, es[0].x);
      var told := TellAll(w, u.out, es[0].effSeq);
      TellRun(cfg, lcfg, u.seg, if es[0].force && lcfg.flushOnForce then Close(told) else told, es[1..])
  }

  predicate NumbersOk(es: seq<LagProofs.Event>) {
    forall i :: 0 <= i < |es| ==> es[i].effSeq >= 0
  }

  /** Over every run: the released and waiting items are, in order and with the numbers of their beginnings, the
      sentences with something to say of the text that the segments tell, and the unfinished sentence is its open
      end. */
  lemma {:induction false} PipeTells(
      cfg: Seg.Config, lcfg: LagConfig, p: LagProofs.Pipe, w: Told, es: seq<LagProofs.Event>)
    requires Holds(p.released, p.lag, w) && NumbersOk(es)
    ensures var q := LagProofs.PipeRun(cfg, lcfg, p, es);
            Holds(q.released, q.lag, TellRun(cfg, lcfg, p.seg, w, es))
    decreases |es|
  {
    hide Holds, Collect, Tell, Close, Dispatch, WindowProofs.Step;
    if es != [] {
      var e := es[0];
      assert forall i :: 0 <= i < |es[1..]| ==> es[1..][i] == es[i + 1];
      var u := WindowProofs.Step(cfg, p.seg, e.x);
      CollectAllTells(p.released, p.lag, w, u.out, e.effSeq);
      var l := LagProofs.CollectAll(p.lag, u.out, e.effSeq);
      DispatchTells(lcfg, p.released, l, TellAll(w, u.out, e.effSeq), u.draft, e.effSeq, e.force);
      var told := TellAll(w, u.out, e.effSeq);
      var next := if e.force && lcfg.flushOnForce then Close(told) else told;
      PipeTells(cfg, lcfg, LagProofs.PipeStep(cfg, lcfg, p, e), next, es[1..]);
    }
  }

  /** From an empty committer on. */
  lemma PipelineTells(cfg: Seg.Config, lcfg: LagConfig, s: Seg.Seg, es: seq<LagProofs.Event>)
    requires NumbersOk(es)
    ensures var q := LagProofs.PipeRun(cfg, lcfg, LagProofs.Pipe(s, EMPTY, []), es);
            var w := TellRun(cfg, lcfg, s, NOTHING, es);
            q.released + q.lag.commits == Spoken(w.sents) && q.lag.sentence == w.open
  {
    hide LagProofs.PipeRun, TellRun;
    PipeTells(cfg, lcfg, LagProofs.Pipe(s, EMPTY, []), NOTHING, es);
  }

  /** How many sentences a dispatch leaves waiting: none when it is forced or in strict mode; else as many as there
      are up to the lag, or one fewer if exactly the lag waits and the draft shows enough words behind it. */
  lemma DispatchLeavesExactly(cfg: LagConfig, l: Lag, draft: string, effSeq: int, force: bool)
    ensures var d, n := Dispatch(cfg, l, draft, effSeq, force), |l.commits|;
            var seen := HasAlnum(Norm(draft)) && WordCount(Norm(draft)) >= Max(1, cfg.draftMinWords);
            |d.lag.commits| == if cfg.strictOnly || force then 0
                               else if n == cfg.sentenceLag && n > 0 && cfg.releaseOnDraft && seen then n - 1
                               else Min(n, cfg.sentenceLag)
  {
    hide Norm, WordCount, FlushTail;
    BlankHasNoWords(Norm(draft));
    if HasAlnum(Norm(draft)) {
      AlnumIsSpoken(Norm(draft));
    }
  }

  lemma AlnumIsSpoken(s: string)
    requires HasAlnum(s)
    ensures s != "" && !IsPunctOnly(s)
  {
  }
}
