/** The strict committer: a sentence is released once it stood unchanged for a number of observations and enough
    confirmed sentences follow it. */
module StrictCommit {
  import opened Text
  import opened Normal
  import opened Sentences
  import opened CommitQueue

  // ---- one observation, as a function ----

  datatype Config = Config(stableCount: nat, sentenceLag: nat, flushAll: bool)

  datatype Strict = Strict(seen: seq<string>, counts: seq<nat>, committed: seq<string>)

  const START := Strict([], [], [])

  function LagKeep(cfg: Config): (r: nat) {
    Max(1, cfg.sentenceLag)
  }

  function CountFor(st: Strict, i: nat, s: string): nat {
    if i < |st.seen| && Norm(st.seen[i]) == Norm(s) then (if i < |st.counts| then st.counts[i] else 0) + 1 else 1
  }

  function NewCounts(st: Strict, sents: seq<string>): (r: seq<nat>)
    ensures |r| == |sents| && forall i :: 0 <= i < |sents| ==> r[i] == CountFor(st, i, sents[i])
  {
    seq(|sents|, i requires 0 <= i < |sents| => CountFor(st, i, sents[i]))
  }

  /** How many leading counts reach n. */
  function Confirmed(counts: seq<nat>, n: nat): (r: nat)
    ensures r <= |counts| && (forall i :: 0 <= i < r ==> counts[i] >= n) && (r < |counts| ==> counts[r] < n)
  {
    if counts == [] || counts[0] < n then 0 else 1 + Confirmed(counts[1..], n)
  }

  function Target(cfg: Config, confirmed: nat, force: bool): (r: nat)
    ensures r <= confirmed
  {
    if force && cfg.flushAll then confirmed else Max(0, confirmed - LagKeep(cfg))
  }

  /** Normalised sentences with something to say, in order. */
  function Releases(sents: seq<string>): seq<string> {
    if sents == [] then []
    else
      var s := Norm(sents[0]);
      (if s != [] && !IsPunctOnly(s) then [s] else []) + Releases(sents[1..])
  }

  /** The sentences from the committed count up to the target. */
  function Due(st: Strict, sents: seq<string>, target: nat): seq<string>
    requires target <= |sents|
  {
    if |st.committed| < target then sents[|st.committed|..target] else []
  }

  function Observe(cfg: Config, st: Strict, sents: seq<string>, force: bool): Strict {
    var counts := NewCounts(st, sents);
    var target := Target(cfg, Confirmed(counts, cfg.stableCount), force);
    Strict(sents, counts, st.committed + Releases(Due(st, sents, target)))
  }

  function Tagged(enSeq: int, texts: seq<string>): (r: seq<Item>)
    ensures |r| == |texts|
  {
    if texts == [] then [] else [Item(enSeq, texts[0])] + Tagged(enSeq, texts[1..])
  }

  // ---- the same in place ----

  class Committer {
    const cfg: Config
    var seenSentences: seq<string>
    var seenCounts: seq<nat>
    var committed: seq<string>
    var tail: string
    var confirmedN: nat
    var targetN: nat
    const queue: Queue

    ghost function State(): Strict
      reads this
    {
      Strict(seenSentences, seenCounts, committed)
    }

    constructor (cfg: Config, queue: Queue)
      ensures this.cfg == cfg && this.queue == queue && State() == START
    {
      this.cfg := cfg;
      this.queue := queue;
      seenSentences, seenCounts, committed, tail, confirmedN, targetN := [], [], [], "", 0, 0;
    }

    method CountSentences(sents: seq<string>) returns (counts: seq<nat>)
      ensures counts == NewCounts(State(), sents)
    {
      hide Norm;
      counts := [];
      for i := 0 to |sents|
        invariant |counts| == i
        invariant forall k :: 0 <= k < i ==> counts[k] == CountFor(State(), k, sents[k])
      {
        if i < |seenSentences| && Norm(seenSentences[i]) == Norm(sents[i]) {
          var prev := if i < |seenCounts| then seenCounts[i] else 0;
          counts := counts + [prev + 1];
        } else {
          counts := counts + [1];
        }
      }
    }

    method CollectAndDispatch(fullNorm: string, effSeq: int, force: bool) returns (released: nat)
      requires queue.Valid()
      modifies this, queue
      ensures queue.Valid() && State() == Observe(cfg, old(State()), SplitSentences(fullNorm).sents, force)
      ensures old(committed) <= committed && released == |committed| - |old(committed)|
      ensures queue.items == LastN(old(queue.items) + Tagged(effSeq, committed[|old(committed)|..]), QUEUE_MAX)
    {
      hide SplitSentences, Norm, NewCounts, Releases, Due, LastN, Tagged;
      var split := SplitCompleteSentences(fullNorm);
      var sents := split.sents;
      var counts := CountSentences(sents);
      seenSentences, seenCounts, tail := sents, counts, split.tail;
      confirmedN := LeadingConfirmed(counts);
      var target := Max(0, confirmedN - LagKeep(cfg));
      if force && cfg.flushAll {
        target := confirmedN;
      }
      targetN := target;
      DueIgnoresCounts(State(), old(State()), sents, target);
      released := Release(sents, target, effSeq);
    }

    method LeadingConfirmed(counts: seq<nat>) returns (n: nat)
      ensures n == Confirmed(counts, cfg.stableCount)
    {
      n := 0;
      while n < |counts| && counts[n] >= cfg.stableCount
        invariant 0 <= n <= |counts|
        invariant forall k :: 0 <= k < n ==> counts[k] >= cfg.stableCount
      {
        n := n + 1;
      }
      var c := Confirmed(counts, cfg.stableCount);
      assert !(n < c) && !(c < n);
    }

    /** Commits and enqueues the sentences that are due. */
    method Release(sents: seq<string>, target: nat, effSeq: int) returns (released: nat)
      requires target <= |sents| && queue.Valid()
      modifies this`committed, queue
      ensures queue.Valid() && committed == old(committed) + Releases(Due(old(State()), sents, target))
      ensures released == |committed| - |old(committed)|
      ensures queue.items == LastN(old(queue.items) + Tagged(effSeq, committed[|old(committed)|..]), QUEUE_MAX)
    {
      hide Norm, IsPunctOnly, LastN, Releases, Tagged;
      released := 0;
      var i := |committed|;
      ghost var from, due, done, c0, q0 := i, Due(State(), sents, target), [], committed, queue.items;
      QueueNothing(effSeq, q0);
      DueAt(State(), sents, target);
      assert due[0..] == due;
      while i < target
        invariant from <= i && i - from <= |due| && (i < target ==> i - from < |due|)
        invariant committed == c0 + done && |done| == released
        invariant done + Releases(due[i - from..]) == Releases(due)
        invariant queue.Valid() && queue.items == LastN(q0 + Tagged(effSeq, done), QUEUE_MAX)
      {
        var s := Norm(sents[i]);
        ReleasesStep(due, i - from);
        if s != [] && !IsPunctOnly(s) {
          QueueStep(effSeq, q0, done, s);
          queue.EnqueueCommitSegment(effSeq, s);
          committed := committed + [s];
          released := released + 1;
          done := done + [s];
        }
        i := i + 1;
      }
      ReleasesEnd(due);
      assert done + [] == done;
      assert committed[|c0|..] == done;
    }
  }

  lemma DueIgnoresCounts(a: Strict, b: Strict, sents: seq<string>, target: nat)
    requires target <= |sents| && a.committed == b.committed
    ensures Due(a, sents, target) == Due(b, sents, target)
  {
  }

  lemma DueAt(st: Strict, sents: seq<string>, target: nat)
    requires target <= |sents|
    ensures var due, from := Due(st, sents, target), |st.committed|;
            && |due| == Max(0, target - from)
            && forall j :: 0 <= j < |due| ==> due[j] == sents[from + j]
  {
  }

  lemma ReleasesStep(due: seq<string>, j: nat)
    requires j < |due|
    ensures var s := Norm(due[j]);
            Releases(due[j..]) == (if s != [] && !IsPunctOnly(s) then [s] else []) + Releases(due[j + 1..])
  {
  }

  lemma ReleasesEnd(due: seq<string>)
    ensures Releases(due[|due|..]) == []
  {
  }

  lemma QueueNothing(e: int, q: seq<Item>)
    requires |q| <= QUEUE_MAX
    ensures q == LastN(q + Tagged(e, []), QUEUE_MAX)
  {
  }

  lemma QueueStep(e: int, q: seq<Item>, done: seq<string>, s: string)
    ensures LastN(LastN(q + Tagged(e, done), QUEUE_MAX) + [Item(e, s)], QUEUE_MAX)
            == LastN(q + Tagged(e, done + [s]), QUEUE_MAX)
  {
    hide LastN;
    TaggedSnoc(e, done, s);
    LastNTwice(q + Tagged(e, done), [Item(e, s)], QUEUE_MAX);
    assert (q + Tagged(e, done)) + [Item(e, s)] == q + Tagged(e, done + [s]);
  }

  lemma {:induction false} TaggedSnoc(e: int, a: seq<string>, s: string)
    ensures Tagged(e, a + [s]) == Tagged(e, a) + [Item(e, s)]
  {
    if a == [] {
      assert [] + [s] == [s] && [s][1..] == [];
    } else {
      TaggedSnoc(e, a[1..], s);
      assert (a + [s])[1..] == a[1..] + [s];
    }
  }
}
