/** The service worker's feed of stables to the translator, and the translator's gate behind it. */
module StableFeed {
  import opened Text
  import opened EnSeq

  /** What goes out for a stable with this number (0 for a missing one): None when it is old. */
  function Fed(lastSent: int, seqNo: int): Option<int> {
    if 0 < seqNo <= lastSent then None else Some(seqNo)
  }

  function FedMark(lastSent: int, seqNo: int): int {
    if seqNo > 0 then Max(lastSent, seqNo) else lastSent
  }

  class Feed {
    var lastSentStableSeq: int

    constructor ()
      ensures lastSentStableSeq == -1
    {
      lastSentStableSeq := -1;
    }

    method Stable(seqNo: Option<int>) returns (sent: Option<int>)
      modifies this
      ensures var s := if seqNo.Some? then seqNo.value else 0;
              sent == Fed(old(lastSentStableSeq), s) && lastSentStableSeq == FedMark(old(lastSentStableSeq), s)
    {
      var s := if seqNo.Some? then seqNo.value else 0;
      if s > 0 {
        if s <= lastSentStableSeq {
          return None;
        }
        lastSentStableSeq := s;
      }
      return Some(s);
    }
  }

  /** The numbers that pass both the feed and the gate. */
  function Through(lastSent: int, lastEn: int, ss: seq<int>): seq<int>
    decreases |ss|
  {
    if ss == [] then []
    else
      var fed := Fed(lastSent, ss[0]);
      var eff := if fed.Some? then Effective(lastEn, 0, fed) else None;
      var rest := Through(FedMark(lastSent, ss[0]), if eff.Some? then Max(lastEn, eff.value) else lastEn, ss[1..]);
      if eff.Some? then [eff.value] + rest else rest
  }

  /** The numbered stables above everything numbered before them. */
  function Numbered(mark: int, ss: seq<int>): seq<int>
    decreases |ss|
  {
    if ss == [] then []
    else if ss[0] > 0 && ss[0] > mark then [ss[0]] + Numbered(ss[0], ss[1..])
    else Numbered(mark, ss[1..])
  }

  /** An unnumbered stable comes before the first numbered one that the feed sends. */
  predicate OpensUnnumbered(lastSent: int, ss: seq<int>)
    decreases |ss|
  {
    ss != [] && (ss[0] == 0 || (!(ss[0] > 0 && ss[0] > lastSent) && OpensUnnumbered(lastSent, ss[1..])))
  }

  /** What passes both guards, from any marks: every numbered stable above both, and of the unnumbered ones, which
      travel as number 0, only the first, and only if the gate has admitted nothing before it. */
  lemma {:induction false} GateBehindFeed(lastSent: int, lastEn: int, ss: seq<int>)
    requires lastEn >= -1
    ensures Through(lastSent, lastEn, ss)
            == (if lastEn < 0 && OpensUnnumbered(lastSent, ss) then [0] else []) + Numbered(Max(lastSent, lastEn), ss)
    decreases |ss|
  {
    if ss == [] {
    } else {
      var fed := Fed(lastSent, ss[0]);
      var eff := if fed.Some? then Effective(lastEn, 0, fed) else None;
      GateBehindFeed(FedMark(lastSent, ss[0]), if eff.Some? then Max(lastEn, eff.value) else lastEn, ss[1..]);
      NumberedFrom(Max(lastSent, lastEn), Max(lastSent, 0), ss[1..]);
    }
  }

  /** Below 1 a mark keeps no numbered stable out. */
  lemma {:induction false} NumberedFrom(a: int, b: int, ss: seq<int>)
    ensures Max(0, a) == Max(0, b) ==> Numbered(a, ss) == Numbered(b, ss)
    decreases |ss|
  {
    if ss != [] {
      NumberedFrom(a, b, ss[1..]);
    }
  }

  lemma {:induction false} NumberedIncrease(mark: int, ss: seq<int>)
    ensures forall i :: 0 <= i < |Numbered(mark, ss)| ==> Numbered(mark, ss)[i] > Max(0, mark)
    ensures forall i, j :: 0 <= i < j < |Numbered(mark, ss)| ==> Numbered(mark, ss)[i] < Numbered(mark, ss)[j]
    decreases |ss|
  {
    if ss != [] {
      NumberedIncrease(if ss[0] > 0 && ss[0] > mark then ss[0] else mark, ss[1..]);
    }
  }

  /** From the start the two guards agree on the numbered stables: the gate drops none that the feed sends. The first
      unnumbered one passes if it comes before them, no other does; and what passes strictly increases. */
  lemma GateAgreesWithFeed(ss: seq<int>)
    ensures Through(-1, -1, ss) == (if OpensUnnumbered(-1, ss) then [0] else []) + Numbered(-1, ss)
    ensures var t := Through(-1, -1, ss); forall i, j :: 0 <= i < j < |t| ==> t[i] < t[j]
  {
    GateBehindFeed(-1, -1, ss);
    NumberedIncrease(-1, ss);
  }
}
