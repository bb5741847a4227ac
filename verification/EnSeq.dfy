/** The translator's gate on English sequence numbers. */
module EnSeq {
  import opened Text
  import LagProofs

  /** Numbers given to the messages of a stream; unnumbered ones are counted locally. */
  class Gate {
    var lastEnSeq: int
    var enSeqLocal: int

    constructor ()
      ensures lastEnSeq == -1 && enSeqLocal == 0
    {
      lastEnSeq, enSeqLocal := -1, 0;
    }

    /** None for a numbered message that is old or a duplicate. */
    method Admit(seqI: Option<int>) returns (eff: Option<int>)
      modifies this
      ensures eff == Effective(old(lastEnSeq), old(enSeqLocal), seqI)
      ensures lastEnSeq == (if eff.Some? then Max(old(lastEnSeq), eff.value) else old(lastEnSeq))
      ensures enSeqLocal == old(enSeqLocal) + (if seqI.None? then 1 else 0)
    {
      if seqI.Some? && seqI.value <= lastEnSeq {
        return None;
      }
      eff := seqI;
      if eff.None? {
        enSeqLocal := enSeqLocal + 1;
        eff := Some(enSeqLocal);
      }
      lastEnSeq := Max(lastEnSeq, eff.value);
    }
  }

  function Effective(last: int, local: int, seqI: Option<int>): Option<int> {
    if seqI.None? then Some(local + 1) else if seqI.value <= last then None else seqI
  }

  /** The numbers the gate gives to a stream, numbered or not. */
  function Given(last: int, local: int, ss: seq<Option<int>>): seq<int>
    decreases |ss|
  {
    if ss == [] then []
    else
      var next := if ss[0].None? then local + 1 else local;
      match Effective(last, local, ss[0])
      case None => Given(last, next, ss[1..])
      case Some(eff) => [eff] + Given(Max(last, eff), next, ss[1..])
  }

  /** How many of the first k messages are unnumbered. */
  function Unnumbered(ss: seq<Option<int>>, k: nat): nat
    requires k <= |ss|
  {
    if k == 0 then 0 else Unnumbered(ss, k - 1) + if ss[k - 1].None? then 1 else 0
  }

  /** The numbers among the first k messages, and `last`, are at most n. */
  predicate AtMost(last: int, ss: seq<Option<int>>, k: nat, n: int)
    requires k <= |ss|
  {
    last <= n && forall i :: 0 <= i < k ==> ss[i].Some? ==> ss[i].value <= n
  }

  /** Whenever an unnumbered message comes, so many unnumbered ones have come that its count is no lower than any number
      before it. */
  ghost predicate CountKeepsUp(last: int, local: int, ss: seq<Option<int>>) {
    forall k :: 0 <= k < |ss| ==> ss[k].None? ==> AtMost(last, ss, k, local + Unnumbered(ss, k) + 1)
  }

  lemma {:induction false} UnnumberedTail(ss: seq<Option<int>>, k: nat)
    requires ss != [] && k < |ss|
    ensures Unnumbered(ss, k + 1) == (if ss[0].None? then 1 else 0) + Unnumbered(ss[1..], k)
    decreases k
  {
    if k > 0 {
      UnnumberedTail(ss, k - 1);
      assert ss[1..][k - 1] == ss[k];
    }
  }

  /** One message off the front. */
  lemma CountCons(last: int, local: int, ss: seq<Option<int>>)
    requires ss != []
    ensures var next := if ss[0].None? then local + 1 else local;
            var mark := if ss[0].Some? then Max(last, ss[0].value) else last;
            CountKeepsUp(last, local, ss)
            <==> (ss[0].None? ==> last <= local + 1) && CountKeepsUp(mark, next, ss[1..])
  {
    hide Unnumbered;
    var rest := ss[1..];
    var next := if ss[0].None? then local + 1 else local;
    var mark := if ss[0].Some? then Max(last, ss[0].value) else last;
    forall k | 0 <= k < |rest|
      ensures AtMost(last, ss, k + 1, local + Unnumbered(ss, k + 1) + 1)
              <==> AtMost(mark, rest, k, next + Unnumbered(rest, k) + 1)
    {
      UnnumberedTail(ss, k);
      AtMostCons(last, ss, k, local + Unnumbered(ss, k + 1) + 1);
    }
    assert Unnumbered(ss, 0) == 0 by { NoneYet(ss); }
    if CountKeepsUp(last, local, ss) {
      assert ss[0].None? ==> AtMost(last, ss, 0, local + Unnumbered(ss, 0) + 1);
      forall k | 0 <= k < |rest| && rest[k].None? ensures AtMost(mark, rest, k, next + Unnumbered(rest, k) + 1) {
        assert ss[k + 1].None?;
      }
    }
    if (ss[0].None? ==> last <= local + 1) && CountKeepsUp(mark, next, rest) {
      forall k | 0 <= k < |ss| && ss[k].None? ensures AtMost(last, ss, k, local + Unnumbered(ss, k) + 1) {
        if k > 0 {
          assert rest[k - 1].None?;
        }
      }
    }
  }

  lemma NoneYet(ss: seq<Option<int>>)
    ensures Unnumbered(ss, 0) == 0
  {
  }

  lemma AtMostCons(last: int, ss: seq<Option<int>>, k: nat, n: int)
    requires k < |ss|
    ensures AtMost(last, ss, k + 1, n) <==> AtMost(if ss[0].Some? then Max(last, ss[0].value) else last, ss[1..], k, n)
  {
    assert forall i :: 0 <= i < k ==> ss[1..][i] == ss[i + 1];
    if AtMost(last, ss, k + 1, n) {
      assert ss[0].Some? ==> ss[0].value <= n;
    }
    if AtMost(if ss[0].Some? then Max(last, ss[0].value) else last, ss[1..], k, n) {
      forall i | 0 <= i < k + 1 && ss[i].Some? ensures ss[i].value <= n {
        assert i > 0 ==> ss[1..][i - 1] == ss[i];
      }
    }
  }

  /** On a mixed stream the numbers given never fall exactly when the local count keeps up with the received numbers. */
  lemma {:induction false} GivenNeverFallsIff(last: int, local: int, ss: seq<Option<int>>)
    ensures NeverFalls(last, Given(last, local, ss)) <==> CountKeepsUp(last, local, ss)
    decreases |ss|
  {
    hide CountKeepsUp;
    if ss == [] {
      NothingToKeepUp(last, local);
    } else {
      CountCons(last, local, ss);
      var next := if ss[0].None? then local + 1 else local;
      match Effective(last, local, ss[0])
      case None => GivenNeverFallsIff(last, next, ss[1..]);
      case Some(eff) =>
        GivenNeverFallsIff(Max(last, eff), next, ss[1..]);
        if ss[0].None? && last <= eff {
          CountFromCount(last, eff, next, ss[1..]);
        }
        assert [eff] + Given(Max(last, eff), next, ss[1..]) == Given(last, local, ss);
        NeverFallsCons(last, [eff], Given(Max(last, eff), next, ss[1..]));
    }
  }

  lemma NothingToKeepUp(last: int, local: int)
    ensures CountKeepsUp(last, local, [])
  {
  }

  /** The local count itself is a number it keeps up with. */
  lemma CountFromCount(last: int, eff: int, local: int, ss: seq<Option<int>>)
    requires last <= eff <= local + 1
    ensures CountKeepsUp(last, local, ss) <==> CountKeepsUp(eff, local, ss)
  {
    hide Unnumbered;
    forall k | 0 <= k < |ss|
      ensures AtMost(last, ss, k, local + Unnumbered(ss, k) + 1) <==> AtMost(eff, ss, k, local + Unnumbered(ss, k) + 1)
    {
    }
  }

  /** What the gate lets through of a numbered stream. */
  function Admitted(last: int, es: seq<LagProofs.Event>): seq<LagProofs.Event>
    decreases |es|
  {
    if es == [] then []
    else match Effective(last, 0, Some(es[0].effSeq))
      case None => Admitted(last, es[1..])
      case Some(eff) => [es[0]] + Admitted(Max(last, eff), es[1..])
  }

  /** The numbers of an admitted numbered stream strictly increase, so released sentences keep their order. */
  lemma {:induction false} AdmittedInOrder(last: int, es: seq<LagProofs.Event>)
    ensures var a := Admitted(last, es);
            && LagProofs.InOrder(last, a)
            && (forall i :: 0 <= i < |a| ==> a[i].effSeq > last)
            && forall i, j :: 0 <= i < j < |a| ==> a[i].effSeq < a[j].effSeq
    decreases |es|
  {
    if es != [] {
      AdmittedInOrder(if es[0].effSeq <= last then last else es[0].effSeq, es[1..]);
    }
  }
}
