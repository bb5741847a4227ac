/** The overlay's English text: batched patches and authoritative stables. Characters are one code unit each. */
module EnOverlay {
  import opened Text
  import opened TailTrim

  datatype Op = Op(del: int, ins: string)

  function ApplyOp(text: string, op: Op): string {
    var kept := if op.del > 0 then (if op.del >= |text| then "" else text[..|text| - op.del]) else text;
    kept + op.ins
  }

  function ApplyAll(text: string, ops: seq<Op>): string
    decreases |ops|
  {
    if ops == [] then text else ApplyAll(ApplyOp(text, ops[0]), ops[1..])
  }

  lemma {:induction false} ApplyAllSnoc(text: string, ops: seq<Op>, op: Op)
    ensures ApplyAll(text, ops + [op]) == ApplyOp(ApplyAll(text, ops), op)
    decreases |ops|
  {
    hide ApplyOp;
    if ops == [] {
      assert [] + [op] == [op] && [op][1..] == [];
    } else {
      ApplyAllSnoc(ApplyOp(text, ops[0]), ops[1..], op);
      assert (ops + [op])[1..] == ops[1..] + [op];
    }
  }

  const SKIP_DIFF := 24

  datatype Overlay = Overlay(full: string, ops: seq<Op>, lastPatch: int, lastStable: int)

  const START := Overlay("", [], -1, -1)

  /** The text once the waiting operations are applied. */
  function Pending(o: Overlay): string {
    ApplyAll(o.full, o.ops)
  }

  function Capped(cap: int, text: string): (r: string)
    ensures IsSuffix(r, text)
    ensures cap <= 0 || |text| <= cap ==> r == text
  {
    if cap > 0 && |text| > cap then TailForLayout(text, cap) else text
  }

  function Enqueue(o: Overlay, op: Op, seqNo: Option<int>): Overlay {
    if seqNo.Some? && seqNo.value <= o.lastPatch then o
    else o.(ops := o.ops + [op], lastPatch := if seqNo.Some? then seqNo.value else o.lastPatch)
  }

  function Flush(cap: int, o: Overlay): Overlay {
    if o.ops == [] then o else o.(full := Capped(cap, Pending(o)), ops := [])
  }

  /** A stable that is shorter by little and is no prefix of the text is passed over. */
  predicate Skipped(text: string, stable: string) {
    stable != text && |stable| < |text| && !(stable <= text) && |text| - |stable| <= SKIP_DIFF
  }

  function ApplyStable(cap: int, o: Overlay, full: string, seqNo: Option<int>): Overlay {
    var stable := Capped(cap, full);
    if seqNo.Some? && seqNo.value <= o.lastStable then o
    else
      var p := Flush(cap, o.(lastStable := if seqNo.Some? then seqNo.value else o.lastStable));
      if Skipped(p.full, stable) then p else p.(full := stable)
  }

  class EnglishOverlay {
    const cap: int
    var fullText: string
    var ops: seq<Op>
    var scheduled: bool
    var lastPatchSeq: int
    var lastStableSeq: int

    ghost function State(): Overlay
      reads this
    {
      Overlay(fullText, ops, lastPatchSeq, lastStableSeq)
    }

    /** A frame is requested exactly while operations wait. */
    ghost predicate Valid()
      reads this
    {
      scheduled <==> ops != []
    }

    constructor (cap: int)
      ensures this.cap == cap && Valid() && State() == START
    {
      this.cap := cap;
      fullText, ops, scheduled, lastPatchSeq, lastStableSeq := "", [], false, -1, -1;
    }

    method EnqueueOp(del: int, ins: string, seqNo: Option<int>)
      requires Valid()
      modifies this
      ensures Valid() && State() == Enqueue(old(State()), Op(del, ins), seqNo)
    {
      if seqNo.Some? {
        if seqNo.value <= lastPatchSeq {
          return;
        }
        lastPatchSeq := seqNo.value;
      }
      ops := ops + [Op(del, ins)];
      if !scheduled {
        scheduled := true;
      }
    }

    method FlushFrame()
      requires Valid()
      modifies this
      ensures Valid() && State() == Flush(cap, old(State()))
    {
      hide ApplyOp, TailForLayout;
      if ops != [] {
        var i := 0;
        while i < |ops|
          invariant 0 <= i <= |ops| && ops == old(ops)
          invariant ApplyAll(fullText, ops[i..]) == ApplyAll(old(fullText), old(ops))
          invariant State().(full := old(fullText)) == old(State())
        {
          assert ops[i..][1..] == ops[i + 1..];
          fullText := ApplyOp(fullText, ops[i]);
          i := i + 1;
        }
        ops := [];
        if cap > 0 && |fullText| > cap {
          fullText := TailForLayout(fullText, cap);
        }
      }
      scheduled := false;
    }

    method ApplyStableText(full: string, seqNo: Option<int>)
      requires Valid()
      modifies this
      ensures Valid() && State() == ApplyStable(cap, old(State()), full, seqNo)
    {
      hide TailForLayout, Pending;
      var stable := Capped(cap, full);
      if seqNo.Some? {
        if seqNo.value <= lastStableSeq {
          return;
        }
        lastStableSeq := seqNo.value;
      }
      if scheduled {
        FlushFrame();
      }
      if stable == fullText {
        return;
      }
      if |stable| >= |fullText| {
        fullText := stable;
        return;
      }
      if stable <= fullText {
        fullText := stable;
        return;
      }
      if |fullText| - |stable| > SKIP_DIFF {
        fullText := stable;
      }
    }
  }

  /** What is shown is never longer than the cap, whatever arrives and in whatever order it is applied. */
  lemma CapHolds(cap: int, o: Overlay, full: string, seqNo: Option<int>)
    requires cap > 0 && |o.full| <= cap
    ensures |Flush(cap, o).full| <= cap && |ApplyStable(cap, o, full, seqNo).full| <= cap
  {
    hide ApplyAll, TailForLayout;
  }

  /** What reaches the overlay, and the frames between. */
  datatype Message = PatchMsg(op: Op, seqNo: Option<int>) | StableMsg(full: string, seqNo: Option<int>) | NewFrame

  function Receive(cap: int, o: Overlay, m: Message): Overlay {
    match m
    case PatchMsg(op, n) => Enqueue(o, op, n)
    case StableMsg(full, n) => ApplyStable(cap, o, full, n)
    case NewFrame => Flush(cap, o)
  }

  function ReceiveAll(cap: int, o: Overlay, ms: seq<Message>): Overlay
    decreases |ms|
  {
    if ms == [] then o else ReceiveAll(cap, Receive(cap, o, ms[0]), ms[1..])
  }

  /** The messages without the numbered ones that come again or late: those not above every number of their kind
      before. */
  function WithoutLate(patch: int, stable: int, ms: seq<Message>): seq<Message>
    decreases |ms|
  {
    if ms == [] then []
    else
      match ms[0]
      case PatchMsg(_, Some(n)) =>
        if n > patch then [ms[0]] + WithoutLate(n, stable, ms[1..]) else WithoutLate(patch, stable, ms[1..])
      case StableMsg(_, Some(n)) =>
        if n > stable then [ms[0]] + WithoutLate(patch, n, ms[1..]) else WithoutLate(patch, stable, ms[1..])
      case _ => [ms[0]] + WithoutLate(patch, stable, ms[1..])
  }

  /** On every run, a message that comes again or late changes nothing, then and later. */
  lemma {:induction false} LateChangesNothing(cap: int, o: Overlay, ms: seq<Message>)
    ensures ReceiveAll(cap, o, ms) == ReceiveAll(cap, o, WithoutLate(o.lastPatch, o.lastStable, ms))
    decreases |ms|
  {
    hide Receive;
    if ms != [] {
      var p := Receive(cap, o, ms[0]);
      LateChangesNothing(cap, p, ms[1..]);
      ReceiveMarks(cap, o, ms[0]);
      var rest := WithoutLate(p.lastPatch, p.lastStable, ms[1..]);
      assert ([ms[0]] + rest)[1..] == rest;
    }
  }

  lemma ReceiveMarks(cap: int, o: Overlay, m: Message)
    ensures var p := Receive(cap, o, m);
            match m
            case PatchMsg(_, Some(n)) =>
              if n > o.lastPatch then p.lastPatch == n && p.lastStable == o.lastStable else p == o
            case StableMsg(_, Some(n)) =>
              if n > o.lastStable then p.lastPatch == o.lastPatch && p.lastStable == n else p == o
            case _ => p.lastPatch == o.lastPatch && p.lastStable == o.lastStable
  {
    hide Capped, Skipped;
  }
}
