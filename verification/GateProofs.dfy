/** The two gates of the segmenter that count: how long a head has stood unchanged before it is committed. */
module GateProofs {
  import opened Text
  import opened SegmentSpec

  /** A question to the punctuation gate: may this head go, now? */
  datatype Ask = Ask(head: string, now: real)

  /** The gate after a run of questions since it was reset. */
  function Asked(cfg: Config, g: Gates, asks: seq<Ask>): Gates
    decreases |asks|
  {
    if asks == [] then g
    else PunctGate(cfg, Asked(cfg, g, asks[..|asks| - 1]), asks[|asks| - 1].head, asks[|asks| - 1].now).0
  }

  /** The last `n` questions were about the same head, and the one before them was not. */
  predicate Stood(asks: seq<Ask>, n: nat) {
    && 1 <= n <= |asks|
    && (forall i :: |asks| - n <= i < |asks| ==> asks[i].head == asks[|asks| - 1].head)
    && (n < |asks| ==> asks[|asks| - n - 1].head != asks[|asks| - 1].head)
  }

  /** The gate counts exactly, and remembers when the head it counts came up. */
  lemma {:induction false} GateCountsExactly(cfg: Config, g: Gates, asks: seq<Ask>)
    requires cfg.punctStableCount > 1 && g.punct == "" && asks != []
    requires forall i :: 0 <= i < |asks| ==> asks[i].head != ""
    ensures var h := Asked(cfg, g, asks);
            && h.punct == asks[|asks| - 1].head && Stood(asks, h.punctCount)
            && h.punctSince == asks[|asks| - h.punctCount].now
    decreases |asks|
  {
    var init, last := asks[..|asks| - 1], asks[|asks| - 1];
    if init != [] {
      GateCountsExactly(cfg, g, init);
      var p := Asked(cfg, g, init);
      assert init[|init| - 1] == asks[|asks| - 2];
      if last.head == p.punct {
        forall i | |asks| - (p.punctCount + 1) <= i < |asks| ensures asks[i].head == last.head {
          assert i < |init| ==> asks[i] == init[i];
        }
        assert p.punctCount < |init| ==> asks[|init| - p.punctCount - 1] == init[|init| - p.punctCount - 1];
      }
    }
  }

  /** A head passes exactly when it has stood for the required number of questions in a row, the present one included,
      or when the first of these lies at least the maximal wait back. */
  lemma GatePassesIff(cfg: Config, g: Gates, asks: seq<Ask>, n: nat)
    requires cfg.punctStableCount > 1 && g.punct == "" && asks != []
    requires forall i :: 0 <= i < |asks| ==> asks[i].head != ""
    requires Stood(asks, n)
    ensures var last := asks[|asks| - 1];
            PunctGate(cfg, Asked(cfg, g, asks[..|asks| - 1]), last.head, last.now).1
            <==> n >= cfg.punctStableCount
                 || (last.now - asks[|asks| - n].now) * 1000.0 >= Max(0, cfg.punctMaxWaitMs) as real
  {
    hide PunctGate;
    GateCountsExactly(cfg, g, asks);
    StoodOnce(asks, n, Asked(cfg, g, asks).punctCount);
    GateAnswers(cfg, Asked(cfg, g, asks[..|asks| - 1]), asks[|asks| - 1]);
  }

  lemma GateAnswers(cfg: Config, g: Gates, a: Ask)
    requires cfg.punctStableCount > 1
    ensures var (h, ok) := PunctGate(cfg, g, a.head, a.now);
            ok <==> h.punctCount >= cfg.punctStableCount
                    || (a.now - h.punctSince) * 1000.0 >= Max(0, cfg.punctMaxWaitMs) as real
  {
  }

  lemma StoodOnce(asks: seq<Ask>, m: nat, n: nat)
    requires Stood(asks, m) && Stood(asks, n)
    ensures m == n
  {
    assert !(m < n) && !(n < m);
  }

  function Beaten(g: Gates, safes: seq<string>): Gates
    decreases |safes|
  {
    if safes == [] then g else BeatGate(Beaten(g, safes[..|safes| - 1]), safes[|safes| - 1])
  }

  /** How often in a row the last prefix came up, none for an empty one. */
  predicate Steady(safes: seq<string>, n: nat) {
    && n <= |safes|
    && (forall i :: |safes| - n <= i < |safes| ==> safes[i] == safes[|safes| - 1] != "")
    && (n < |safes| ==> n == 0 || safes[|safes| - n - 1] != safes[|safes| - 1])
    && (n == 0 <==> safes == [] || safes[|safes| - 1] == "")
  }

  /** The beat gate's count is exactly the number of latest updates in a row with the same safe prefix. */
  lemma {:induction false} BeatCountsExactly(g: Gates, safes: seq<string>)
    requires g.safe == "" && g.safeCount == 0
    ensures var h := Beaten(g, safes);
            Steady(safes, h.safeCount) && h.safe == if safes == [] then "" else safes[|safes| - 1]
    decreases |safes|
  {
    if safes != [] {
      var init, last := safes[..|safes| - 1], safes[|safes| - 1];
      BeatCountsExactly(g, init);
      var p := Beaten(g, init);
      assert init != [] ==> init[|init| - 1] == safes[|safes| - 2];
      if last != "" && last == p.safe {
        forall i | |safes| - (p.safeCount + 1) <= i < |safes| ensures safes[i] == last {
          assert i < |init| ==> safes[i] == init[i];
        }
        assert p.safeCount < |init| ==> safes[|init| - p.safeCount - 1] == init[|init| - p.safeCount - 1];
      }
    }
  }
}
