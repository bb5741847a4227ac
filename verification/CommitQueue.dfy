/** The translator's queue of commits: both committers fill it, and the commit worker empties it. */
module CommitQueue {
  import opened Text

  const QUEUE_MAX: nat := 64

  /** How many items the worker takes at a time, when it does not go sentence by sentence. */
  const BATCH_MAX: nat := 4

  datatype Item = Item(enSeq: int, text: string)

  /** The last n elements, or all of them if there are fewer. */
  function LastN<T>(s: seq<T>, n: nat): seq<T> {
    if |s| <= n then s else s[|s| - n..]
  }

  lemma LastNTwice<T>(a: seq<T>, b: seq<T>, n: nat)
    ensures LastN(LastN(a, n) + b, n) == LastN(a + b, n)
  {
  }

  /** A queue of at most 64 items that takes one more loses its oldest item if it is full, and none otherwise. */
  lemma TakesOneMore<T>(queue: seq<T>, x: T)
    requires |queue| <= 64
    ensures LastN(queue + [x], QUEUE_MAX) == queue[if |queue| < 64 then 0 else 1..] + [x]
  {
  }

  /** How many of n waiting items the worker takes at once. */
  function BatchSize(bySentence: bool, n: nat): nat {
    Min(n, if bySentence then 1 else BATCH_MAX)
  }

  class Queue {
    var items: seq<Item>

    ghost predicate Valid()
      reads this
    {
      |items| <= QUEUE_MAX
    }

    constructor ()
      ensures Valid() && items == []
    {
      items := [];
    }

    /** `_enqueue_commit_segment`: a full queue loses its oldest item. */
    method EnqueueCommitSegment(enSeq: int, seg: string)
      requires Valid()
      modifies this
      ensures Valid()
      ensures items == (if seg == [] || IsPunctOnly(seg) then old(items)
                        else LastN(old(items) + [Item(enSeq, seg)], QUEUE_MAX))
    {
      if seg == [] || IsPunctOnly(seg) {
        return;
      }
      if |items| >= QUEUE_MAX {
        items := items[1..];
      }
      items := items + [Item(enSeq, seg)];
    }

    /** The worker takes the oldest item, waiting for one, and then what is there up to a batch. */
    method TakeBatch(bySentence: bool) returns (batch: seq<Item>)
      requires Valid()
      modifies this
      ensures Valid() && batch + items == old(items) && |batch| == BatchSize(bySentence, |old(items)|)
      ensures |batch| <= (if bySentence then 1 else 4) && (items != [] ==> |batch| == if bySentence then 1 else 4)
    {
      batch := [];
      if items == [] {
        return;
      }
      batch, items := [items[0]], items[1..];
      if !bySentence {
        while |batch| < BATCH_MAX && items != []
          invariant Valid() && batch + items == old(items) && 1 <= |batch| <= BATCH_MAX
          decreases |items|
        {
          batch, items := batch + [items[0]], items[1..];
        }
      }
    }
  }
}
