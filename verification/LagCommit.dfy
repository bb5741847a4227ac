/** The lag committer: segments are joined into sentences, and sentences wait behind a fixed lag. */
module LagCommit {
  import opened Text
  import opened Normal
  import opened Words
  import opened Sentences
  import opened CommitQueue

  datatype LagConfig = LagConfig(
    sentenceLag: nat, releaseOnDraft: bool, draftMinWords: nat, flushOnForce: bool, strictOnly: bool)

  /** Sentences waiting to be released, and the unfinished one with the sequence number it began at (-1 for none). */
  datatype Lag = Lag(commits: seq<Item>, sentence: string, sentenceSeq: int)

  const EMPTY := Lag([], "", -1)

  predicate IsJoinMark(c: char) {
    c in ".,!?;:)]\"'"
  }

  function JoinTextParts(base: string, piece: string): string {
    var b, p := Strip(base), Strip(piece);
    if b == [] then p
    else if p == [] then b
    else if IsJoinMark(p[0]) then b + p
    else b + " " + p
  }

  /** The complete sentences with something to say. Only the first one began before this segment. */
  function Completed(sents: seq<string>, firstSeq: int, seq_: int): seq<Item> {
    if sents == [] then []
    else
      (if sents[0] != [] && !IsPunctOnly(sents[0]) then [Item(firstSeq, sents[0])] else [])
      + Completed(sents[1..], seq_, seq_)
  }

  lemma CompletedStep(sents: seq<string>, i: nat, first: int, rest: int)
    requires i < |sents|
    ensures Completed(sents[i..], first, rest)
            == (if sents[i] != [] && !IsPunctOnly(sents[i]) then [Item(first, sents[i])] else [])
               + Completed(sents[i + 1..], rest, rest)
  {
  }

  lemma CompletedNothing(sents: seq<string>, first: int, rest: int)
    ensures Completed(sents[|sents|..], first, rest) == [] && Completed(sents[|sents|..], rest, rest) == []
    ensures sents[0..] == sents && [] + Completed(sents, first, rest) == Completed(sents, first, rest)
  {
  }

  function FirstSeq(l: Lag, effSeq: int): int {
    if l.sentence != [] && l.sentenceSeq >= 0 then l.sentenceSeq else effSeq
  }

  function Collect(l: Lag, seg: string, effSeq: int): Lag {
    var s := Norm(seg);
    if s == [] || IsPunctOnly(s) then l
    else
      var merged := if l.sentence != [] then JoinTextParts(l.sentence, s) else s;
      var split := SplitSentences(merged);
      if split.sents == [] then
        Lag(l.commits, merged, if l.sentenceSeq < 0 then effSeq else l.sentenceSeq)
      else
        Lag(l.commits + Completed(split.sents, FirstSeq(l, effSeq), effSeq), split.tail,
            if split.tail != [] then effSeq else -1)
  }

  predicate HasLookahead(cfg: LagConfig, draft: string) {
    var d := Norm(draft);
    d != [] && !IsPunctOnly(d) && HasAlnum(d) && WordCount(d) >= Max(1, cfg.draftMinWords)
  }

  function FlushTail(l: Lag, effSeq: int): Lag {
    var tail := Norm(l.sentence);
    Lag(l.commits + (if tail != [] && !IsPunctOnly(tail)
                     then [Item(if l.sentenceSeq >= 0 then l.sentenceSeq else effSeq, tail)] else []),
        "", -1)
  }

  function ReleaseCount(cfg: LagConfig, l: Lag, draft: string, force: bool): (r: nat)
    ensures r <= |l.commits|
  {
    if cfg.strictOnly || force then |l.commits|
    else
      var n := Max(0, |l.commits| - cfg.sentenceLag);
      if n <= 0 && cfg.sentenceLag > 0 && cfg.releaseOnDraft && |l.commits| >= Max(1, cfg.sentenceLag)
         && HasLookahead(cfg, draft)
      then 1 else n
  }

  /** What a dispatch releases, and what it leaves. */
  datatype Dispatched = Dispatched(released: seq<Item>, lag: Lag)

  function Dispatch(cfg: LagConfig, l: Lag, draft: string, effSeq: int, force: bool): Dispatched {
    var m := if force && cfg.flushOnForce then FlushTail(l, effSeq) else l;
    var n := ReleaseCount(cfg, m, draft, force);
    Dispatched(m.commits[..n], m.(commits := m.commits[n..]))
  }

  /** What the commit queue takes of the released items: those with something to say. */
  function Worthy(items: seq<Item>): seq<Item> {
    if items == [] then []
    else (if items[0].text != [] && !IsPunctOnly(items[0].text) then [items[0]] else []) + Worthy(items[1..])
  }

  class LagCommitter {
    const cfg: LagConfig
    var pendingCommits: seq<Item>
    var pendingSentence: string
    var pendingSentenceSeq: int
    const queue: Queue

    function State(): Lag
      reads this
    {
      Lag(pendingCommits, pendingSentence, pendingSentenceSeq)
    }

    constructor (cfg: LagConfig, queue: Queue)
      ensures this.cfg == cfg && this.queue == queue && State() == EMPTY
    {
      this.cfg := cfg;
      this.queue := queue;
      pendingCommits, pendingSentence, pendingSentenceSeq := [], "", -1;
    }

    method CollectCommit(seg: string, effSeq: int)
      modifies this`pendingCommits, this`pendingSentence, this`pendingSentenceSeq
      ensures State() == Collect(old(State()), seg, effSeq)
    {
      hide Norm, IsPunctOnly, SplitSentences, JoinTextParts;
      var s := Norm(seg);
      if s == [] || IsPunctOnly(s) {
        return;
      }
      var hasPending := pendingSentence != [];
      var firstSeq := if hasPending && pendingSentenceSeq >= 0 then pendingSentenceSeq else effSeq;
      var merged := if hasPending then JoinTextParts(pendingSentence, s) else s;
      var split := SplitCompleteSentences(merged);
      if split.sents == [] {
        pendingSentence := merged;
        if pendingSentenceSeq < 0 {
          pendingSentenceSeq := effSeq;
        }
        return;
      }
      var commits := ListCompleted(split.sents, firstSeq, effSeq);
      pendingCommits := pendingCommits + commits;
      pendingSentence := split.tail;
      pendingSentenceSeq := if split.tail != [] then effSeq else -1;
    }

    method ListCompleted(sents: seq<string>, firstSeq: int, effSeq: int) returns (r: seq<Item>)
      ensures r == Completed(sents, firstSeq, effSeq)
    {
      hide IsPunctOnly, Completed;
      r := [];
      CompletedNothing(sents, firstSeq, effSeq);
      for i := 0 to |sents|
        invariant r + Completed(sents[i..], if i == 0 then firstSeq else effSeq, effSeq)
                  == Completed(sents, firstSeq, effSeq)
      {
        var seqForSentence := if i == 0 then firstSeq else effSeq;
        CompletedStep(sents, i, seqForSentence, effSeq);
        ghost var rest := Completed(sents[i + 1..], effSeq, effSeq);
        assert r + ([Item(seqForSentence, sents[i])] + rest) == (r + [Item(seqForSentence, sents[i])]) + rest;
        if sents[i] != [] && !IsPunctOnly(sents[i]) {
          r := r + [Item(seqForSentence, sents[i])];
        }
      }
      assert r + [] == r;
    }

    method DispatchReady(draft: string, effSeq: int, force: bool) returns (released: nat)
      requires queue.Valid()
      modifies this, queue
      ensures queue.Valid() && State() == Dispatch(cfg, old(State()), draft, effSeq, force).lag
      ensures released == |Dispatch(cfg, old(State()), draft, effSeq, force).released|
      ensures queue.items
              == LastN(old(queue.items) + Worthy(Dispatch(cfg, old(State()), draft, effSeq, force).released), QUEUE_MAX)
    {
      hide Norm, IsPunctOnly, HasLookahead, Worthy, LastN;
      if force && cfg.flushOnForce {
        var tail := Norm(pendingSentence);
        if tail != [] && !IsPunctOnly(tail) {
          var seqForTail := if pendingSentenceSeq >= 0 then pendingSentenceSeq else effSeq;
          pendingCommits := pendingCommits + [Item(seqForTail, tail)];
        }
        pendingSentence, pendingSentenceSeq := "", -1;
        assert old(pendingCommits) + [] == old(pendingCommits);
      }
      var count := ReleaseCount(cfg, State(), draft, force);
      released := PopReleased(count);
    }

    method PopReleased(count: nat) returns (released: nat)
      requires count <= |pendingCommits| && queue.Valid()
      modifies this`pendingCommits, queue
      ensures queue.Valid() && pendingCommits == old(pendingCommits)[count..] && released == count
      ensures queue.items == LastN(old(queue.items) + Worthy(old(pendingCommits)[..count]), QUEUE_MAX)
    {
      hide IsPunctOnly, LastN, Worthy;
      released := 0;
      ghost var p0, q0 := pendingCommits, queue.items;
      WorthyStart(p0, q0);
      while released < count && pendingCommits != []
        invariant 0 <= released <= count && pendingCommits == p0[released..]
        invariant queue.Valid() && queue.items == LastN(q0 + Worthy(p0[..released]), QUEUE_MAX)
      {
        var item := pendingCommits[0];
        WorthyStep(p0, q0, released);
        pendingCommits := pendingCommits[1..];
        queue.EnqueueCommitSegment(item.enSeq, item.text);
        released := released + 1;
      }
    }
  }

  lemma WorthyStart(p: seq<Item>, q: seq<Item>)
    requires |q| <= QUEUE_MAX
    ensures q == LastN(q + Worthy(p[..0]), QUEUE_MAX)
  {
  }

  lemma {:induction false} WorthySnoc(a: seq<Item>, x: Item)
    ensures Worthy(a + [x]) == Worthy(a) + (if x.text != [] && !IsPunctOnly(x.text) then [x] else [])
  {
    hide IsPunctOnly;
    if a == [] {
      assert [] + [x] == [x] && [x][1..] == [];
    } else {
      WorthySnoc(a[1..], x);
      assert (a + [x])[1..] == a[1..] + [x];
    }
  }

  lemma WorthyStep(p: seq<Item>, q: seq<Item>, k: nat)
    requires k < |p|
    ensures var x, was := p[k], LastN(q + Worthy(p[..k]), QUEUE_MAX);
            (if x.text == [] || IsPunctOnly(x.text) then was else LastN(was + [x], QUEUE_MAX))
            == LastN(q + Worthy(p[..k + 1]), QUEUE_MAX)
  {
    hide IsPunctOnly, LastN, Worthy;
    var x := p[k];
    assert p[..k + 1] == p[..k] + [x];
    WorthySnoc(p[..k], x);
    LastNTwice(q + Worthy(p[..k]), [x], QUEUE_MAX);
    assert (q + Worthy(p[..k])) + [x] == q + (Worthy(p[..k]) + [x]);
    assert Worthy(p[..k]) + [] == Worthy(p[..k]);
  }
}
