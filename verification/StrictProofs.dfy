/** The strict committer over whole histories of observations. */
module StrictProofs {
  import opened Text
  import opened Normal
  import opened Sentences
  import opened CommitQueue
  import opened StrictCommit

  /** What one call saw: the sentences split off the text, and whether it was a forced release. */
  datatype Obs = Obs(sents: seq<string>, force: bool)

  /** The state after a history of observations since the last reset or baseline. */
  function After(cfg: Config, h: seq<Obs>): Strict {
    if h == [] then START
    else var n := |h| - 1; Observe(cfg, After(cfg, h[..n]), h[n].sents, h[n].force)
  }

  /** Every sentence is as the splitter leaves it. */
  ghost predicate AllNormal(h: seq<Obs>) {
    forall k, i :: 0 <= k < |h| && 0 <= i < |h[k].sents| ==> Norm(h[k].sents[i]) == h[k].sents[i] != []
  }

  lemma SplitsAreNormal(text: string)
    ensures forall s :: s in SplitSentences(text).sents ==> Norm(s) == s != []
  {
    SplitShape(text);
    forall s | s in SplitSentences(text).sents ensures Norm(s) == s != [] {
      NormFixedPoint(s);
    }
  }

  /** Sentence i of observation k is the one last seen. */
  predicate SameAt(h: seq<Obs>, i: nat, k: int) {
    0 <= k < |h| && i < |h[k].sents| && i < |h[|h| - 1].sents| && h[k].sents[i] == h[|h| - 1].sents[i]
  }

  /** Sentence i stood unchanged through the latest n observations. */
  ghost predicate Unchanged(h: seq<Obs>, i: nat, n: nat) {
    n <= |h| && forall k :: |h| - n <= k < |h| ==> SameAt(h, i, k)
  }

  lemma UnchangedStep(h: seq<Obs>, i: nat, n: nat)
    requires |h| >= 1 && i < |h[|h| - 1].sents|
    ensures Unchanged(h, i, n + 1)
            <==> n == 0 || (|h| >= 2 && SameAt(h, i, |h| - 2) && Unchanged(h[..|h| - 1], i, n))
  {
    var g := h[..|h| - 1];
    assert SameAt(h, i, |h| - 1);
    if Unchanged(h, i, n + 1) && n > 0 {
      assert SameAt(h, i, |h| - 2);
      forall k | |g| - n <= k < |g| ensures SameAt(g, i, k) {
        assert SameAt(h, i, k);
      }
    }
    if |h| >= 2 && SameAt(h, i, |h| - 2) && Unchanged(g, i, n) {
      forall k | |h| - (n + 1) <= k < |h| ensures SameAt(h, i, k) {
        if k < |h| - 1 {
          assert SameAt(g, i, k);
        }
      }
    }
  }

  /** The state knows the last sentences, and exactly how long each has stood unchanged. */
  ghost predicate Exact(h: seq<Obs>, st: Strict) {
    if h == [] then st.seen == [] && st.counts == []
    else
      && st.seen == h[|h| - 1].sents && |st.counts| == |st.seen|
      && forall i :: 0 <= i < |st.seen| ==> Unchanged(h, i, st.counts[i]) && !Unchanged(h, i, st.counts[i] + 1)
  }

  lemma ExactStep(cfg: Config, g: seq<Obs>, p: Strict, o: Obs)
    requires AllNormal(g + [o]) && Exact(g, p)
    ensures Exact(g + [o], Observe(cfg, p, o.sents, o.force))
  {
    hide Unchanged, SameAt, Norm, Confirmed, Releases, Due, Target;
    var h, counts := g + [o], NewCounts(p, o.sents);
    forall i | 0 <= i < |o.sents| ensures Unchanged(h, i, counts[i]) && !Unchanged(h, i, counts[i] + 1) {
      CountStep(g, p, o, i);
    }
  }

  lemma CountStep(g: seq<Obs>, p: Strict, o: Obs, i: nat)
    requires AllNormal(g + [o]) && Exact(g, p) && i < |o.sents|
    ensures var c := CountFor(p, i, o.sents[i]); Unchanged(g + [o], i, c) && !Unchanged(g + [o], i, c + 1)
  {
    hide Unchanged, Norm;
    var h := g + [o];
    var c := CountFor(p, i, o.sents[i]);
    assert h[..|h| - 1] == g;
    assert h[|g|] == o && Norm(h[|g|].sents[i]) == o.sents[i];
    UnchangedStep(h, i, c - 1);
    UnchangedStep(h, i, c);
    if g != [] {
      assert g[|g| - 1] == h[|h| - 2];
      assert i < |p.seen| ==> Norm(h[|h| - 2].sents[i]) == p.seen[i];
    }
  }

  lemma AfterStep(cfg: Config, g: seq<Obs>, o: Obs)
    ensures After(cfg, g + [o]) == Observe(cfg, After(cfg, g), o.sents, o.force)
  {
  }

  lemma AllNormalPrefix(g: seq<Obs>, o: Obs)
    requires AllNormal(g + [o])
    ensures AllNormal(g)
  {
    hide Norm;
    forall k, i | 0 <= k < |g| && 0 <= i < |g[k].sents| ensures Norm(g[k].sents[i]) == g[k].sents[i] != [] {
      assert (g + [o])[k] == g[k];
      assert Norm((g + [o])[k].sents[i]) == (g + [o])[k].sents[i];
    }
  }

  /** The seen count of sentence i is exactly the number of latest consecutive observations it stood unchanged in. */
  lemma {:induction false} CountsAreExact(cfg: Config, h: seq<Obs>)
    requires AllNormal(h)
    ensures Exact(h, After(cfg, h))
  {
    hide Observe, AllNormal, Exact;
    if h == [] {
      ExactNothing();
    } else {
      var g, o := h[..|h| - 1], h[|h| - 1];
      assert h == g + [o];
      AllNormalPrefix(g, o);
      CountsAreExact(cfg, g);
      ExactStep(cfg, g, After(cfg, g), o);
      AfterStep(cfg, g, o);
    }
  }

  lemma ExactNothing()
    ensures Exact([], START)
  {
  }

  // ---- what is committed ----

  /** The step of the commit timeline: it appends the due sentences, all of them exactly when none is punctuation
      only. */
  lemma {:induction false} ReleasesAllIff(ss: seq<string>)
    requires forall s :: s in ss ==> Norm(s) == s != []
    ensures |Releases(ss)| <= |ss|
    ensures Releases(ss) == ss <==> forall s :: s in ss ==> !IsPunctOnly(s)
  {
    hide Norm, IsPunctOnly;
    if ss != [] {
      assert ss[0] in ss && forall s :: s in ss[1..] ==> s in ss;
      ReleasesAllIff(ss[1..]);
      if IsPunctOnly(ss[0]) {
        assert |Releases(ss)| < |ss|;
      } else {
        assert ss == [ss[0]] + ss[1..];
        assert Releases(ss) == [ss[0]] + Releases(ss[1..]);
        assert Releases(ss) == ss ==> Releases(ss[1..]) == Releases(ss)[1..];
      }
    }
  }

  ghost predicate NormalSents(sents: seq<string>) {
    forall s :: s in sents ==> Norm(s) == s != []
  }

  /** One observation, from any state: the timeline reaches the target exactly when no due sentence is punctuation only.
      Such a sentence is skipped without moving the committed count. */
  lemma InStepIff(cfg: Config, st: Strict, sents: seq<string>, force: bool)
    requires NormalSents(sents)
    ensures var target := Target(cfg, Confirmed(NewCounts(st, sents), cfg.stableCount), force);
            && st.committed <= Observe(cfg, st, sents, force).committed
            && (|Observe(cfg, st, sents, force).committed| == Max(|st.committed|, target)
                <==> forall s :: s in Due(st, sents, target) ==> !IsPunctOnly(s))
  {
    hide Norm, IsPunctOnly;
    var target := Target(cfg, Confirmed(NewCounts(st, sents), cfg.stableCount), force);
    var due := Due(st, sents, target);
    forall s | s in due ensures Norm(s) == s != [] {
      assert s in sents;
    }
    ReleasesAllIff(due);
    SubsequenceLength(due);
  }

  lemma {:induction false} SubsequenceLength(ss: seq<string>)
    requires forall s :: s in ss ==> Norm(s) == s != []
    ensures |Releases(ss)| <= |ss| && (|Releases(ss)| == |ss| ==> Releases(ss) == ss)
  {
    hide Norm, IsPunctOnly;
    if ss != [] {
      assert ss[0] in ss && forall s :: s in ss[1..] ==> s in ss;
      SubsequenceLength(ss[1..]);
    }
  }

  // ---- in step with the sentence numbers ----

  /** How many sentences the last observation wants committed. It does not depend on what is committed. */
  function TargetOf(cfg: Config, h: seq<Obs>): (r: nat)
    requires h != []
    ensures r <= |h[|h| - 1].sents|
  {
    Target(cfg, Confirmed(After(cfg, h).counts, cfg.stableCount), h[|h| - 1].force)
  }

  function MaxTarget(cfg: Config, h: seq<Obs>): nat
    decreases |h|
  {
    if h == [] then 0 else Max(MaxTarget(cfg, h[..|h| - 1]), TargetOf(cfg, h))
  }

  /** The sentences the last observation asks for beyond every target before it. */
  function NewlyDue(cfg: Config, h: seq<Obs>): seq<string>
    requires h != []
  {
    var from, to := MaxTarget(cfg, h[..|h| - 1]), TargetOf(cfg, h);
    if from < to then h[|h| - 1].sents[from..to] else []
  }

  /** No sentence that an observation newly asked for was punctuation only. */
  predicate NeverMute(cfg: Config, h: seq<Obs>)
    decreases |h|
  {
    h == [] || (NeverMute(cfg, h[..|h| - 1]) && forall s :: s in NewlyDue(cfg, h) ==> !IsPunctOnly(s))
  }

  /** As many sentences are committed as the largest target so far. */
  predicate InStepAt(cfg: Config, h: seq<Obs>) {
    |After(cfg, h).committed| == MaxTarget(cfg, h)
  }

  ghost predicate InStepThroughout(cfg: Config, h: seq<Obs>) {
    forall k :: 0 <= k <= |h| ==> InStepAt(cfg, h[..k])
  }

  lemma ThroughoutStep(cfg: Config, h: seq<Obs>)
    requires h != []
    ensures InStepThroughout(cfg, h) <==> InStepThroughout(cfg, h[..|h| - 1]) && InStepAt(cfg, h)
  {
    hide InStepAt;
    var g := h[..|h| - 1];
    assert h[..|h|] == h;
    assert forall k :: 0 <= k <= |g| ==> g[..k] == h[..k];
    if InStepThroughout(cfg, h) {
      forall k | 0 <= k <= |g| ensures InStepAt(cfg, g[..k]) {
        assert InStepAt(cfg, h[..k]);
      }
    }
    if InStepThroughout(cfg, g) && InStepAt(cfg, h) {
      forall k | 0 <= k <= |h| ensures InStepAt(cfg, h[..k]) {
        if k < |h| {
          assert InStepAt(cfg, g[..k]);
        }
      }
    }
  }

  lemma LastIsNormal(h: seq<Obs>)
    requires h != [] && AllNormal(h)
    ensures AllNormal(h[..|h| - 1]) && NormalSents(h[|h| - 1].sents)
  {
    hide Norm;
    var o := h[|h| - 1];
    forall s | s in o.sents ensures Norm(s) == s != [] {
      var i :| 0 <= i < |o.sents| && o.sents[i] == s;
      assert Norm(h[|h| - 1].sents[i]) == s;
    }
    assert h == h[..|h| - 1] + [o];
    AllNormalPrefix(h[..|h| - 1], o);
  }

  /** From a state in step, an observation keeps it exactly when nothing newly due is punctuation only. */
  lemma NextInStep(cfg: Config, h: seq<Obs>)
    requires h != [] && AllNormal(h) && InStepAt(cfg, h[..|h| - 1])
    ensures InStepAt(cfg, h) <==> forall s :: s in NewlyDue(cfg, h) ==> !IsPunctOnly(s)
    ensures var p := After(cfg, h[..|h| - 1]);
            (forall s :: s in NewlyDue(cfg, h) ==> !IsPunctOnly(s))
            ==> After(cfg, h).committed == p.committed + NewlyDue(cfg, h)
  {
    hide Norm, IsPunctOnly, NewCounts, Confirmed, Releases, AllNormal, NormalSents;
    var p, o := After(cfg, h[..|h| - 1]), h[|h| - 1];
    LastIsNormal(h);
    InStepIff(cfg, p, o.sents, o.force);
    var due := Due(p, o.sents, TargetOf(cfg, h));
    assert due == NewlyDue(cfg, h);
    SliceIsNormal(o.sents, due, |p.committed|, TargetOf(cfg, h));
    assert NormalSents(due);
    DueReleases(due);
  }

  lemma DueReleases(due: seq<string>)
    requires NormalSents(due)
    ensures Releases(due) == due <==> forall s :: s in due ==> !IsPunctOnly(s)
  {
    hide Norm, IsPunctOnly;
    ReleasesAllIff(due);
  }

  lemma SliceIsNormal(sents: seq<string>, due: seq<string>, from: nat, to: nat)
    requires NormalSents(sents) && to <= |sents| && due == if from < to then sents[from..to] else []
    ensures NormalSents(due)
  {
    hide Norm;
    forall s | s in due ensures Norm(s) == s != [] {
      assert s in sents;
    }
  }

  /** Exactly when, over whole histories: at every moment as many sentences are committed as were asked for, if and
      only if no observation ever newly asked for one that is punctuation only. */
  lemma {:induction false} InStepThroughoutIff(cfg: Config, h: seq<Obs>)
    requires AllNormal(h)
    ensures InStepThroughout(cfg, h) <==> NeverMute(cfg, h)
    ensures NeverMute(cfg, h) ==> InStepAt(cfg, h)
    decreases |h|
  {
    hide AllNormal, InStepThroughout, NewlyDue, IsPunctOnly;
    if h == [] {
      StartsInStep(cfg);
    } else {
      LastIsNormal(h);
      InStepThroughoutIff(cfg, h[..|h| - 1]);
      ThroughoutStep(cfg, h);
      ThroughoutEnds(cfg, h[..|h| - 1]);
      hide InStepAt;
      if InStepAt(cfg, h[..|h| - 1]) {
        NextInStep(cfg, h);
      }
    }
  }

  lemma StartsInStep(cfg: Config)
    ensures InStepThroughout(cfg, []) && InStepAt(cfg, [])
  {
    var none: seq<Obs> := [];
    assert forall k :: 0 <= k <= |none| ==> none[..k] == none;
  }

  lemma ThroughoutEnds(cfg: Config, h: seq<Obs>)
    ensures InStepThroughout(cfg, h) ==> InStepAt(cfg, h)
  {
    assert h[..|h|] == h;
  }

  /** The committed timeline is append-only. */
  lemma {:induction false} CommittedOnlyGrows(cfg: Config, h: seq<Obs>, k: nat)
    requires k <= |h|
    ensures After(cfg, h[..k]).committed <= After(cfg, h).committed
    decreases |h|
  {
    if k == |h| {
      assert h[..k] == h;
    } else {
      var g := h[..|h| - 1];
      assert g[..k] == h[..k];
      CommittedOnlyGrows(cfg, g, k);
    }
  }

  /** Sentence i was `s` and ripe at the k-th observation: it and the next `lag` ones stood unchanged long enough. */
  ghost predicate RipeAt(cfg: Config, h: seq<Obs>, i: nat, s: string, k: nat) {
    && 1 <= k <= |h| && i + Max(1, cfg.sentenceLag) < |h[k - 1].sents| && h[k - 1].sents[i] == s
    && forall j: nat :: j <= i + Max(1, cfg.sentenceLag) ==> Unchanged(h[..k], j, cfg.stableCount)
  }

  /** Entry i of the timeline is the sentence i of an observation at which it was ripe. */
  ghost predicate Justified(cfg: Config, h: seq<Obs>, committed: seq<string>) {
    forall i :: 0 <= i < |committed| ==> WasRipe(cfg, h, i, committed[i])
  }

  ghost predicate WasRipe(cfg: Config, h: seq<Obs>, i: nat, s: string) {
    exists k: nat :: RipeAt(cfg, h, i, s, k)
  }

  lemma UnchangedFewer(h: seq<Obs>, i: nat, n: nat, m: nat)
    requires Unchanged(h, i, n) && m <= n
    ensures Unchanged(h, i, m)
  {
  }

  lemma RipeLater(cfg: Config, h: seq<Obs>, i: nat, s: string, k: nat)
    requires h != [] && RipeAt(cfg, h[..|h| - 1], i, s, k)
    ensures RipeAt(cfg, h, i, s, k)
  {
    hide Unchanged;
    assert h[..|h| - 1][..k] == h[..k];
  }

  /** As long as nothing newly due is punctuation only, every committed entry was the sentence at its own position,
      unchanged for the required number of observations, with the required number of confirmed sentences behind it. */
  lemma {:induction false} CommittedIsJustified(cfg: Config, h: seq<Obs>)
    requires AllNormal(h) && NeverMute(cfg, h) && !cfg.flushAll
    ensures Justified(cfg, h, After(cfg, h).committed)
    decreases |h|
  {
    hide Observe, AllNormal, Justified, NewlyDue, IsPunctOnly;
    if h == [] {
      JustifiedNothing(cfg);
    } else {
      LastIsNormal(h);
      CommittedIsJustified(cfg, h[..|h| - 1]);
      JustifiedStep(cfg, h);
    }
  }

  lemma JustifiedNothing(cfg: Config)
    ensures Justified(cfg, [], START.committed)
  {
  }

  lemma JustifiedStep(cfg: Config, h: seq<Obs>)
    requires h != [] && AllNormal(h) && NeverMute(cfg, h) && !cfg.flushAll
    requires Justified(cfg, h[..|h| - 1], After(cfg, h[..|h| - 1]).committed)
    ensures Justified(cfg, h, After(cfg, h).committed)
  {
    hide AllNormal, RipeAt, After, Justified, IsPunctOnly, InStepThroughout;
    var g, o := h[..|h| - 1], h[|h| - 1];
    LastIsNormal(h);
    InStepThroughoutIff(cfg, g);
    NextInStep(cfg, h);
    assert h == g + [o];
    var p, st := After(cfg, g), After(cfg, h);
    forall i | |p.committed| <= i < |st.committed| ensures RipeAt(cfg, h, i, st.committed[i], |h|) {
      assert st.committed[i] == o.sents[i];
      RipeNow(cfg, h, i, st.committed[i]);
    }
    JustifiedAppend(cfg, g, o, p.committed, st.committed);
  }

  lemma JustifiedAppend(cfg: Config, g: seq<Obs>, o: Obs, before: seq<string>, after: seq<string>)
    requires Justified(cfg, g, before) && before <= after
    requires forall i :: |before| <= i < |after| ==> RipeAt(cfg, g + [o], i, after[i], |g| + 1)
    ensures Justified(cfg, g + [o], after)
  {
    hide RipeAt;
    var h := g + [o];
    assert h[..|h| - 1] == g;
    forall i | 0 <= i < |after| ensures WasRipe(cfg, h, i, after[i]) {
      if i < |before| {
        assert WasRipe(cfg, g, i, before[i]);
        var k: nat :| RipeAt(cfg, g, i, before[i], k);
        RipeLater(cfg, h, i, after[i], k);
      }
    }
  }

  lemma RipeNow(cfg: Config, h: seq<Obs>, i: nat, s: string)
    requires h != [] && AllNormal(h)
    requires i + LagKeep(cfg) < Confirmed(After(cfg, h).counts, cfg.stableCount)
    requires i < |h[|h| - 1].sents| && h[|h| - 1].sents[i] == s
    ensures RipeAt(cfg, h, i, s, |h|)
  {
    hide Unchanged, Observe, After, AllNormal;
    CountsAreExact(cfg, h);
    assert h[..|h|] == h;
    var counts := After(cfg, h).counts;
    forall j: nat | j <= i + LagKeep(cfg) ensures Unchanged(h[..|h|], j, cfg.stableCount) {
      UnchangedFewer(h, j, counts[j], cfg.stableCount);
    }
  }

  /** The same sentences seen often enough: all but the lag are committed, and all of them on a forced release that
      flushes. */
  lemma SettledIsCommitted(cfg: Config, h: seq<Obs>, sents: seq<string>)
    requires AllNormal(h) && NeverMute(cfg, h) && 1 <= cfg.stableCount <= |h|
    requires forall k :: |h| - cfg.stableCount <= k < |h| ==> h[k].sents == sents
    ensures |After(cfg, h).committed|
            >= if h[|h| - 1].force && cfg.flushAll then |sents| else |sents| - Max(1, cfg.sentenceLag)
  {
    hide AllNormal, NeverMute, InStepThroughout, Confirmed, After, Unchanged;
    CountsAreExact(cfg, h);
    var st := After(cfg, h);
    forall i | 0 <= i < |sents| ensures st.counts[i] >= cfg.stableCount {
      SettledUnchanged(cfg, h, sents, i);
      if st.counts[i] < cfg.stableCount {
        UnchangedFewer(h, i, cfg.stableCount, st.counts[i] + 1);
      }
    }
    AllConfirmed(st.counts, cfg.stableCount);
    InStepThroughoutIff(cfg, h);
  }

  lemma SettledUnchanged(cfg: Config, h: seq<Obs>, sents: seq<string>, i: nat)
    requires 1 <= cfg.stableCount <= |h| && i < |sents|
    requires forall k :: |h| - cfg.stableCount <= k < |h| ==> h[k].sents == sents
    ensures Unchanged(h, i, cfg.stableCount)
  {
  }

  lemma AllConfirmed(counts: seq<nat>, n: nat)
    requires forall i :: 0 <= i < |counts| ==> counts[i] >= n
    ensures Confirmed(counts, n) == |counts|
  {
  }

  // ---- the numbers of committed sentences ----

  /** What goes to the queue over a history whose k-th observation has the number ns[k]. */
  function Queued(cfg: Config, h: seq<Obs>, ns: seq<int>): seq<Item>
    requires |h| == |ns|
    decreases |h|
  {
    if h == [] then []
    else
      var n := |h| - 1;
      CommittedOnlyGrows(cfg, h, n);
      Queued(cfg, h[..n], ns[..n]) + Tagged(ns[n], After(cfg, h).committed[|After(cfg, h[..n]).committed|..])
  }

  lemma {:induction false} TaggedSays(n: int, texts: seq<string>)
    ensures forall i :: 0 <= i < |texts| ==> Tagged(n, texts)[i] == Item(n, texts[i])
    decreases |texts|
  {
    if texts != [] {
      TaggedSays(n, texts[1..]);
    }
  }

  /** The queue gets exactly the committed timeline, and numbers that never fall if those of the observations never
      do. */
  lemma {:induction false} QueuedInOrder(cfg: Config, h: seq<Obs>, ns: seq<int>)
    requires |h| == |ns| && forall i, j :: 0 <= i < j < |ns| ==> ns[i] <= ns[j]
    ensures var q := Queued(cfg, h, ns);
            && |q| == |After(cfg, h).committed|
            && (forall i :: 0 <= i < |q| ==> q[i].text == After(cfg, h).committed[i])
            && (forall i :: 0 <= i < |q| ==> h != [] && q[i].enSeq <= ns[|ns| - 1])
            && forall i, j :: 0 <= i < j < |q| ==> q[i].enSeq <= q[j].enSeq
    decreases |h|
  {
    hide Observe, After, Tagged;
    if h == [] {
      NothingQueued(cfg);
    } else {
      var n := |h| - 1;
      QueuedInOrder(cfg, h[..n], ns[..n]);
      CommittedOnlyGrows(cfg, h, n);
      var before, after := After(cfg, h[..n]).committed, After(cfg, h).committed;
      TaggedSays(ns[n], after[|before|..]);
      assert n > 0 ==> ns[..n][n - 1] == ns[n - 1];
    }
  }

  lemma NothingQueued(cfg: Config)
    ensures After(cfg, []).committed == []
  {
  }

  // ---- a text that is committed twice ----

  /** Three dots in front of a text are a sentence of their own, and punctuation only. */
  lemma DotsAreASentence()
    ensures SplitSentences("... A. B. C.").sents == ["...", "A.", "B.", "C."]
  {
    hide Norm, IsNormal, SplitSentences, Join;
    var r := Split(["...", "A.", "B.", "C."], "");
    DotsSentence();
    LetterSentence("A.");
    LetterSentence("B.");
    LetterSentence("C.");
    hide IsSentence;
    assert Parts(r) == r.sents;
    JoinSplits(r);
    JoinFour();
  }

  lemma JoinFour()
    ensures Join(["...", "A.", "B.", "C."]) == "... A. B. C."
  {
    hide Join;
    JoinTwo("C.", []);
    assert ["C."] + [] == ["C."];
    JoinTwo("B.", ["C."]);
    assert ["B."] + ["C."] == ["B.", "C."] && Join(["B.", "C."]) == "B. C.";
    JoinTwo("A.", ["B.", "C."]);
    assert ["A."] + ["B.", "C."] == ["A.", "B.", "C."] && Join(["A.", "B.", "C."]) == "A. B. C.";
    JoinTwo("...", ["A.", "B.", "C."]);
    assert ["..."] + ["A.", "B.", "C."] == ["...", "A.", "B.", "C."];
    assert "..." + " " + "A. B. C." == "... A. B. C.";
  }

  lemma JoinTwo(s: string, rest: seq<string>)
    ensures Join([s] + rest) == if rest == [] then s else s + " " + Join(rest)
  {
    assert ([s] + rest)[1..] == rest;
  }

  lemma LetterSentence(s: string)
    requires |s| == 2 && IsAscii(s[0]) && s[1] == '.'
    ensures IsSentence(s) && !IsPunct(s[0])
  {
    hide Norm;
    ShortNormal(s);
    NormFixedPoint(s);
    assert s[1..] == ".";
    assert EndAt(s, 1) == 2;
  }

  lemma DotsSentence()
    ensures IsSentence("...")
  {
    hide Norm;
    DotsNormal();
    NormFixedPoint("...");
    var s := "...";
    assert s[1..] == "..";
    RunIs(IsEndMark, s[1..], 2);
    assert s[3..] == "";
    assert EndAt(s, 1) == 3;
  }

  /** Two equal observations of such a text commit the same sentence twice. */
  lemma PunctuationDoublesACommit()
    ensures var cfg := Config(1, 1, false);
            var o := Obs(SplitSentences("... A. B. C.").sents, false);
            After(cfg, [o, o]).committed == ["A.", "B.", "B."]
  {
    hide Norm, Releases, Observe, SplitSentences;
    DotsAreASentence();
    var cfg := Config(1, 1, false);
    var ss := ["...", "A.", "B.", "C."];
    var o := Obs(ss, false);
    FirstLook(cfg, ss);
    SecondLook(cfg, ss);
    AfterStep(cfg, [], o);
    AfterStep(cfg, [o], o);
    assert [] + [o] == [o] && [o] + [o] == [o, o];
  }

  lemma FirstLook(cfg: Config, ss: seq<string>)
    requires cfg == Config(1, 1, false) && ss == ["...", "A.", "B.", "C."]
    ensures Observe(cfg, START, ss, false) == Strict(ss, [1, 1, 1, 1], ["A.", "B."])
  {
    hide Norm, Releases;
    assert NewCounts(START, ss) == [1, 1, 1, 1];
    AllConfirmed([1, 1, 1, 1], 1);
    assert Due(START, ss, 3) == ["..."] + (["A."] + ["B."]);
    ReleasesCons("...", ["A."] + ["B."]);
    ReleasesCons("A.", ["B."]);
    ReleasesCons("B.", []);
    assert ["B."] + [] == ["B."];
  }

  lemma SecondLook(cfg: Config, ss: seq<string>)
    requires cfg == Config(1, 1, false) && ss == ["...", "A.", "B.", "C."]
    ensures Observe(cfg, Strict(ss, [1, 1, 1, 1], ["A.", "B."]), ss, false)
            == Strict(ss, [2, 2, 2, 2], ["A.", "B.", "B."])
  {
    hide Norm, Releases;
    var st := Strict(ss, [1, 1, 1, 1], ["A.", "B."]);
    assert NewCounts(st, ss) == [2, 2, 2, 2];
    AllConfirmed([2, 2, 2, 2], 1);
    assert Due(st, ss, 3) == ["B."] + [];
    ReleasesCons("B.", []);
  }

  lemma ReleasesCons(s: string, rest: seq<string>)
    requires s == "..." || (|s| == 2 && IsAscii(s[0]) && s[1] == '.')
    ensures Releases([s] + rest) == (if s == "..." then [] else [s]) + Releases(rest)
    ensures Releases([]) == []
  {
    hide IsPunctOnly;
    if s == "..." {
      DotsNormal();
    } else {
      ShortNormal(s);
    }
    hide Norm;
    assert ([s] + rest)[1..] == rest;
  }

  lemma NormalWithoutBlanks(s: string)
    requires |s| <= 3 && forall i :: 0 <= i < |s| ==> !IsSpace(s[i])
    ensures Norm(s) == s
  {
    hide Norm, Run;
    forall i | 0 <= i <= |s| ensures Run(IsDot, s[i..]) <= 3 {
      assert Run(IsDot, s[i..]) <= |s[i..]|;
    }
    NormFixedPoint(s);
  }

  lemma ShortNormal(s: string)
    requires |s| == 2 && IsAscii(s[0]) && s[1] == '.'
    ensures Norm(s) == s && HasAlnum(s) && !IsPunctOnly(s)
  {
    hide Norm;
    assert IsAlnum(s[0]);
    NormalWithoutBlanks(s);
  }

  lemma DotsNormal()
    ensures Norm("...") == "..." && IsPunctOnly("...")
  {
    hide Norm;
    var s := "...";
    NormalWithoutBlanks(s);
    assert !IsSpace(s[0]);
  }
}
