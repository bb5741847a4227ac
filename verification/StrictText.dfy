/** The strict committer and the text it commits from, over whole histories of growing texts. */
module StrictText {
  import opened Text
  import opened Normal
  import opened Sentences
  import opened StrictCommit
  import opened StrictProofs

  /** One call: the normalised text, and whether it was a forced release. */
  datatype Look = Look(text: string, force: bool)

  function Observed(ls: seq<Look>): (h: seq<Obs>)
    ensures |h| == |ls|
    ensures forall i :: 0 <= i < |ls| ==> h[i] == Obs(SplitSentences(ls[i].text).sents, ls[i].force)
  {
    seq(|ls|, i requires 0 <= i < |ls| => Obs(SplitSentences(ls[i].text).sents, ls[i].force))
  }

  /** Normalised texts, each extending the ones before it. */
  ghost predicate Grows(ls: seq<Look>) {
    && (forall i :: 0 <= i < |ls| ==> Norm(ls[i].text) == ls[i].text)
    && forall i, j :: 0 <= i < j < |ls| ==> ls[i].text <= ls[j].text
  }

  /** The timeline is the first sentences of the last text, as many as were ever asked for. */
  predicate AtText(cfg: Config, ls: seq<Look>)
    requires ls != []
  {
    var h, sents := Observed(ls), SplitSentences(ls[|ls| - 1].text).sents;
    MaxTarget(cfg, h) <= |sents| && After(cfg, h).committed == sents[..MaxTarget(cfg, h)]
  }

  ghost predicate AtTextThroughout(cfg: Config, ls: seq<Look>) {
    forall k :: 1 <= k <= |ls| ==> AtText(cfg, ls[..k])
  }

  /** The last text ends with a sentence that was asked for. Only a forced release with `flushAll` asks for it. */
  predicate TookLast(cfg: Config, ls: seq<Look>)
    requires ls != []
  {
    MaxTarget(cfg, Observed(ls)) > Firm(SplitSentences(ls[|ls| - 1].text))
  }

  /** Behind a last sentence that was asked for, the text only ever went on with a blank. */
  predicate BlankBehindTaken(cfg: Config, ls: seq<Look>)
    requires forall i, j :: 0 <= i < j < |ls| ==> ls[i].text <= ls[j].text
    decreases |ls|
  {
    var n := |ls| - 1;
    n <= 0 || (BlankBehindTaken(cfg, ls[..n])
               && (TookLast(cfg, ls[..n]) ==> IsApart(ls[n].text[|ls[n - 1].text|..])))
  }

  lemma ObservedPrefix(ls: seq<Look>, k: nat)
    requires k <= |ls|
    ensures Observed(ls[..k]) == Observed(ls)[..k]
  {
    hide SplitSentences;
  }

  lemma ObservedNormal(ls: seq<Look>)
    ensures AllNormal(Observed(ls))
  {
    hide SplitSentences, Norm;
    var h := Observed(ls);
    forall k, i | 0 <= k < |h| && 0 <= i < |h[k].sents| ensures Norm(h[k].sents[i]) == h[k].sents[i] != [] {
      SplitsAreNormal(ls[k].text);
      assert h[k].sents[i] in SplitSentences(ls[k].text).sents;
    }
  }

  lemma AtTextThroughoutStep(cfg: Config, ls: seq<Look>)
    requires ls != []
    ensures AtTextThroughout(cfg, ls) <==> AtTextThroughout(cfg, ls[..|ls| - 1]) && AtText(cfg, ls)
  {
    hide AtText;
    var g := ls[..|ls| - 1];
    assert ls[..|ls|] == ls;
    assert forall k :: 1 <= k <= |g| ==> g[..k] == ls[..k];
    if AtTextThroughout(cfg, ls) {
      forall k | 1 <= k <= |g| ensures AtText(cfg, g[..k]) {
        assert AtText(cfg, ls[..k]);
      }
    }
    if AtTextThroughout(cfg, g) && AtText(cfg, ls) {
      forall k | 1 <= k <= |ls| ensures AtText(cfg, ls[..k]) {
        if k < |ls| {
          assert AtText(cfg, g[..k]);
        }
      }
    }
  }

  /** What was committed before is still the beginning of the text. */
  predicate StillThere(cfg: Config, ls: seq<Look>)
    requires ls != []
  {
    After(cfg, Observed(ls)[..|ls| - 1]).committed <= SplitSentences(ls[|ls| - 1].text).sents
  }

  lemma AtTextIsInStep(cfg: Config, ls: seq<Look>)
    requires ls != [] && AtText(cfg, ls)
    ensures InStepAt(cfg, Observed(ls))
  {
    hide After, MaxTarget, SplitSentences;
  }

  /** If nothing newly asked for is punctuation only, the step from a timeline in step comes down to what was there. */
  lemma StepIsStillThere(cfg: Config, ls: seq<Look>)
    requires ls != [] && InStepAt(cfg, Observed(ls)[..|ls| - 1])
    requires forall s :: s in NewlyDue(cfg, Observed(ls)) ==> !IsPunctOnly(s)
    ensures AtText(cfg, ls) <==> StillThere(cfg, ls)
  {
    hide AllNormal, After, TargetOf, SplitSentences, IsPunctOnly;
    var h := Observed(ls);
    ObservedNormal(ls);
    NextInStep(cfg, h);
    var before, sents := After(cfg, h[..|h| - 1]).committed, SplitSentences(ls[|ls| - 1].text).sents;
    var m, n := MaxTarget(cfg, h[..|h| - 1]), TargetOf(cfg, h);
    if m < n {
      assert sents[..n] == sents[..m] + sents[m..n];
      assert sents[..n][..m] == sents[..m] && (before + sents[m..n])[..m] == before;
    }
  }

  /** What was there stays exactly if the text goes on with a blank behind a last sentence that was asked for. */
  lemma StillThereIff(cfg: Config, ls: seq<Look>)
    requires |ls| >= 2 && Grows(ls) && AtText(cfg, ls[..|ls| - 1])
    ensures var n := |ls| - 1;
            StillThere(cfg, ls) <==> TookLast(cfg, ls[..n]) ==> IsApart(ls[n].text[|ls[n - 1].text|..])
  {
    hide After, MaxTarget, SplitSentences, Norm, IsApart, Firm;
    var n := |ls| - 1;
    var g := ls[..n];
    ObservedPrefix(ls, n);
    assert g[n - 1] == ls[n - 1];
    SplitGrows(ls[n - 1].text, ls[n].text);
    var a, b, m := SplitSentences(ls[n - 1].text), SplitSentences(ls[n].text), MaxTarget(cfg, Observed(g));
    if m <= Firm(a) {
      assert a.sents[..m] == a.sents[..Firm(a)][..m];
    } else {
      assert m == |a.sents| && a.sents[..m] == a.sents;
    }
  }

  lemma GrowsPrefix(ls: seq<Look>, k: nat)
    requires k <= |ls| && Grows(ls)
    ensures Grows(ls[..k])
  {
    hide Norm;
  }

  lemma FirstLook(cfg: Config, ls: seq<Look>)
    requires |ls| == 1
    ensures Observed(ls)[..0] == [] && InStepAt(cfg, Observed(ls)[..0]) && StillThere(cfg, ls)
  {
    hide SplitSentences;
    StartsInStep(cfg);
  }

  /** Exactly when, over whole histories of growing texts, forced or not, with or without `flushAll`: at every moment
      the timeline is the first sentences of the text, as many as were asked for, if and only if nothing newly asked
      for was ever punctuation only, and the text never grew into a last sentence that was asked for. */
  lemma {:induction false} AtTextThroughoutIff(cfg: Config, ls: seq<Look>)
    requires Grows(ls)
    ensures AtTextThroughout(cfg, ls) <==> NeverMute(cfg, Observed(ls)) && BlankBehindTaken(cfg, ls)
    ensures AtTextThroughout(cfg, ls) && ls != [] ==> AtText(cfg, ls)
    decreases |ls|
  {
    hide AtTextThroughout, AtText, StillThere, TookLast, NewlyDue, Observed, InStepAt, IsPunctOnly, IsApart, Norm;
    hide AllNormal, SplitSentences;
    if ls == [] {
      NothingSeen(cfg);
    } else {
      var n, h := |ls| - 1, Observed(ls);
      GrowsPrefix(ls, n);
      AtTextThroughoutIff(cfg, ls[..n]);
      AtTextThroughoutStep(cfg, ls);
      ObservedPrefix(ls, n);
      if AtTextThroughout(cfg, ls[..n]) {
        if n == 0 {
          FirstLook(cfg, ls);
        } else {
          AtTextIsInStep(cfg, ls[..n]);
          StillThereIff(cfg, ls);
        }
        ObservedNormal(ls);
        NextInStep(cfg, h);
        if forall s :: s in NewlyDue(cfg, h) ==> !IsPunctOnly(s) {
          StepIsStillThere(cfg, ls);
        } else if AtText(cfg, ls) {
          AtTextIsInStep(cfg, ls);
        }
      }
    }
  }

  lemma NothingSeen(cfg: Config)
    ensures AtTextThroughout(cfg, []) && NeverMute(cfg, Observed([]))
  {
  }

  // ---- without `flushAll` ----

  lemma TargetIsFirm(cfg: Config, h: seq<Obs>, r: Split)
    requires h != [] && h[|h| - 1].sents == r.sents && !cfg.flushAll
    ensures TargetOf(cfg, h) <= Firm(r)
  {
    hide CountFor, Confirmed, Norm, Releases;
  }

  /** Without `flushAll` only firm sentences are asked for. */
  lemma {:induction false} TargetsAreFirm(cfg: Config, ls: seq<Look>)
    requires Grows(ls) && ls != [] && !cfg.flushAll
    ensures !TookLast(cfg, ls)
    decreases |ls|
  {
    hide SplitSentences, After, Norm, Firm, Confirmed;
    var n, h := |ls| - 1, Observed(ls);
    ObservedPrefix(ls, n);
    TargetIsFirm(cfg, h, SplitSentences(ls[n].text));
    hide TargetOf;
    assert MaxTarget(cfg, h) == Max(MaxTarget(cfg, h[..n]), TargetOf(cfg, h));
    if n == 0 {
      assert h[..0] == [];
    } else {
      GrowsPrefix(ls, n);
      TargetsAreFirm(cfg, ls[..n]);
      assert ls[..n][n - 1] == ls[n - 1];
      SplitGrows(ls[n - 1].text, ls[n].text);
    }
  }

  lemma {:induction false} NeverTakesLast(cfg: Config, ls: seq<Look>)
    requires Grows(ls) && !cfg.flushAll
    ensures BlankBehindTaken(cfg, ls)
    decreases |ls|
  {
    hide TookLast, IsApart, Norm;
    if |ls| > 1 {
      GrowsPrefix(ls, |ls| - 1);
      NeverTakesLast(cfg, ls[..|ls| - 1]);
      TargetsAreFirm(cfg, ls[..|ls| - 1]);
    }
  }

  /** Strict mode and the text: as long as nothing newly asked for is punctuation only, the committed sentences are the
      first ones of the text, and joined with the rest of its sentences and its tail they are the text. */
  lemma CommittedIsText(cfg: Config, ls: seq<Look>)
    requires Grows(ls) && ls != [] && !cfg.flushAll && NeverMute(cfg, Observed(ls))
    ensures var r, n := SplitSentences(ls[|ls| - 1].text), MaxTarget(cfg, Observed(ls));
            && n <= Firm(r) && After(cfg, Observed(ls)).committed == r.sents[..n]
            && Join(After(cfg, Observed(ls)).committed + Parts(r)[n..]) == ls[|ls| - 1].text
  {
    hide AtTextThroughout, BlankBehindTaken, NeverMute, After, MaxTarget, SplitSentences, Norm, Join;
    NeverTakesLast(cfg, ls);
    AtTextThroughoutIff(cfg, ls);
    TargetsAreFirm(cfg, ls);
    var text := ls[|ls| - 1].text;
    var r, n := SplitSentences(text), MaxTarget(cfg, Observed(ls));
    SplitIsLossless(text);
    assert r.sents[..n] + Parts(r)[n..] == Parts(r);
  }

  // ---- with it ----

  /** A flushed last sentence that the text grows into stays on the timeline as it was. */
  lemma FlushedSentenceGrows()
    ensures var cfg, ls := Config(1, 1, true), [Look("A.", true), Look("A.B.", false)];
            && Grows(ls) && NeverMute(cfg, Observed(ls)) && !AtTextThroughout(cfg, ls)
            && After(cfg, Observed(ls)).committed == ["A."] && SplitSentences("A.B.").sents == ["A.B."]
  {
    hide Norm, SplitSentences, After, MaxTarget, NeverMute;
    var cfg, ls := Config(1, 1, true), [Look("A.", true), Look("A.B.", false)];
    OneSentence();
    GrownSentence();
    FlushedHistory(cfg);
    assert Observed(ls) == [Obs(["A."], true), Obs(["A.B."], false)];
    assert ["A.B."][..1][0] == "A.B." && |"A.B."| != |["A."][0]|;
    assert ls[..2] == ls && !AtText(cfg, ls[..2]);
  }

  lemma FlushedHistory(cfg: Config)
    requires cfg == Config(1, 1, true)
    ensures var h := [Obs(["A."], true), Obs(["A.B."], false)];
            After(cfg, h).committed == ["A."] && MaxTarget(cfg, h) == 1 && NeverMute(cfg, h)
  {
    hide Norm, Observe, TargetOf, IsPunctOnly;
    var a, b := Obs(["A."], true), Obs(["A.B."], false);
    var h := [a, b];
    assert h[..1] == [] + [a] && h == [a] + [b] && [a][..0] == [];
    OneSentence();
    FirstFlush(cfg);
    ThenGrown(cfg);
    AfterStep(cfg, [], a);
    AfterStep(cfg, [a], b);
    Targets(cfg, a, b);
    assert NewlyDue(cfg, [a]) == ["A."] && NewlyDue(cfg, h) == [];
    assert NeverMute(cfg, [a]);
  }

  lemma OneSentence()
    ensures SplitSentences("A.") == Split(["A."], "") && Norm("A.") == "A." && !IsPunctOnly("A.")
  {
    hide Norm, IsNormal, SplitSentences, Join, IsPunctOnly;
    var r := Split(["A."], "");
    LetterSentence("A.");
    ShortNormal("A.");
    hide IsSentence;
    assert Parts(r) == ["A."];
    JoinSplits(r);
    JoinOne("A.");
  }

  lemma GrownSentence()
    ensures SplitSentences("A.B.") == Split(["A.B."], "") && Norm("A.B.") == "A.B."
  {
    hide Norm, SplitSentences, Join;
    var s, r := "A.B.", Split(["A.B."], "");
    GrownNormal();
    GrownEnd();
    hide IsNormal, NextEnd;
    assert Parts(r) == [s];
    JoinSplits(r);
    JoinOne(s);
  }

  lemma GrownNormal()
    ensures IsNormal("A.B.") && Norm("A.B.") == "A.B."
  {
    hide Norm, Run;
    var s := "A.B.";
    forall i | 0 <= i <= |s| ensures Run(IsDot, s[i..]) <= 3 {
      if i == 0 {
        RunIs(IsDot, s[0..], 0);
      }
      assert Run(IsDot, s[i..]) <= |s[i..]|;
    }
    assert IsAscii(s[0]) && IsAscii(s[2]);
    NormFixedPoint(s);
  }

  lemma GrownEnd()
    ensures NextEnd("A.B.", 1) == 4
  {
    hide Run, NextEnd;
    var s := "A.B.";
    assert s[1..] == ".B." && s[2..] == "B." && s[3..] == "." && s[4..] == "";
    RunIs(IsEndMark, s[1..], 1);
    RunIs(IsCloser, s[2..], 0);
    RunIs(IsEndMark, s[3..], 1);
    RunIs(IsCloser, s[4..], 0);
    assert IsAscii(s[2]);
    assert EndAt(s, 1) == -1 && EndAt(s, 2) == -1 && EndAt(s, 3) == 4;
    NextEndAt(s, 1);
    NextEndAt(s, 2);
    NextEndAt(s, 3);
  }

  lemma NextEndAt(t: string, i: nat)
    requires i < |t|
    ensures NextEnd(t, i) == if EndAt(t, i) != -1 then EndAt(t, i) else NextEnd(t, i + 1)
  {
    hide EndAt;
  }

  lemma FirstFlush(cfg: Config)
    requires cfg == Config(1, 1, true)
    ensures Observe(cfg, START, ["A."], true) == Strict(["A."], [1], ["A."])
  {
    hide Norm, Releases;
    assert NewCounts(START, ["A."]) == [1];
    AllConfirmed([1], 1);
    assert Due(START, ["A."], 1) == ["A."] + [];
    ReleasesCons("A.", []);
  }

  lemma ThenGrown(cfg: Config)
    requires cfg == Config(1, 1, true)
    ensures Observe(cfg, Strict(["A."], [1], ["A."]), ["A.B."], false) == Strict(["A.B."], [1], ["A."])
  {
    hide Norm, Releases;
    ReleasesCons("A.", []);
    OneSentence();
    GrownSentence();
    assert NewCounts(Strict(["A."], [1], ["A."]), ["A.B."]) == [1];
    AllConfirmed([1], 1);
  }

  lemma Targets(cfg: Config, a: Obs, b: Obs)
    requires cfg == Config(1, 1, true) && a.force && !b.force && |a.sents| == |b.sents| == 1
    requires After(cfg, [a]).counts == [1] == After(cfg, [a, b]).counts
    ensures TargetOf(cfg, [a]) == 1 && TargetOf(cfg, [a, b]) == 0
  {
    hide After;
    AllConfirmed([1], 1);
  }
}
