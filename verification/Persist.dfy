/** Transcript persistence: one chain of tasks that write, and one stop that waits for the chain. Each step is the code
    between two awaits; network calls complete at any time, with any result. */
module Persist {
  import opened Text

  datatype Write =
    | SessionInsert
    | Snapshot(text: string)
    | Latest(text: string, seqNo: Option<int>)
    | Stopped

  datatype Task = Task(text: string, seqNo: Option<int>)

  /** Where the chain's current task stands. */
  datatype Runner = Idle | AwaitUser(task: Task) | AwaitInsert(task: Task) | AwaitSnapshot(task: Task) | AwaitLatest

  /** Where `stop` stands; `final` is the text it settled on when it was called. */
  datatype Stopper =
    | Running
    | Waiting(final: string)
    | FinalSnapshot(final: string)
    | FinalLatest(final: string)
    | FinalStatus(final: string)
    | Done(final: string)

  /** The sent marker of the last stable: its number (None for a missing one or 0) and its text. */
  datatype Hash = NoHash | Hash(seqNo: Option<int>, text: string)

  /** `accepted` lists the texts handed to the chain, `log` the writes issued, both from the start. */
  datatype P = P(
    queue: seq<Task>, run: Runner, stopper: Stopper, session: bool, stopped: bool,
    fullLatest: string, fullSeq: Option<int>, hash: Hash, accepted: seq<string>, log: seq<Write>)

  const START := P([], Idle, Running, false, false, "", None, NoHash, [], [])

  datatype Event =
    | HandleStable(text: string, seqNo: Option<int>)
    | NextTask
    | UserResolved(ok: bool)
    | InsertDone(ok: bool)
    | SnapshotDone
    | LatestDone
    | Stop(finalText: string)
    | ChainDone
    | FinalSnapshotDone
    | FinalLatestDone
    | FinalStatusDone

  function HashOf(seqNo: Option<int>, text: string): Hash {
    Hash(if seqNo == Some(0) then None else seqNo, text)
  }

  function OnStable(p: P, text: string, seqNo: Option<int>): P {
    var n := if seqNo.Some? then seqNo else p.fullSeq;
    if p.stopped || HashOf(n, text) == p.hash then p
    else
      var q := p.(fullLatest := text, fullSeq := n, hash := HashOf(n, text));
      if IsBlank(text) then q else q.(queue := p.queue + [Task(text, n)], accepted := p.accepted + [text])
  }

  function Issue(p: P, w: Write): P {
    p.(log := p.log + [w])
  }

  function OnNextTask(p: P): P {
    if !p.run.Idle? || p.queue == [] then p
    else
      var t, q := p.queue[0], p.(queue := p.queue[1..]);
      if p.stopped then q
      else if p.session then Issue(q, Snapshot(t.text)).(run := AwaitSnapshot(t))
      else q.(run := AwaitUser(t))
  }

  function OnUserResolved(p: P, ok: bool): P {
    if !p.run.AwaitUser? then p
    else if ok then Issue(p, SessionInsert).(run := AwaitInsert(p.run.task))
    else p.(stopped := true, run := Idle)
  }

  function OnInsertDone(p: P, ok: bool): P {
    if !p.run.AwaitInsert? then p
    else if ok then Issue(p, Snapshot(p.run.task.text)).(session := true, run := AwaitSnapshot(p.run.task))
    else p.(stopped := true, run := Idle)
  }

  function OnStop(p: P, finalText: string): P {
    if !p.stopper.Running? then p
    else p.(stopped := true, stopper := Waiting(if finalText != "" then finalText else p.fullLatest))
  }

  function OnChainDone(p: P): P {
    if !p.stopper.Waiting? || !p.run.Idle? || p.queue != [] then p
    else
      var f := p.stopper.final;
      if !p.session then p.(stopper := Done(f))
      else if IsBlank(f) then Issue(p, Stopped).(stopper := FinalStatus(f))
      else Issue(p, Snapshot(f)).(stopper := FinalSnapshot(f))
  }

  function Step(p: P, e: Event): P {
    match e
    case HandleStable(text, seqNo) => OnStable(p, text, seqNo)
    case NextTask => OnNextTask(p)
    case UserResolved(ok) => OnUserResolved(p, ok)
    case InsertDone(ok) => OnInsertDone(p, ok)
    case SnapshotDone =>
      if p.run.AwaitSnapshot? then Issue(p, Latest(p.run.task.text, p.run.task.seqNo)).(run := AwaitLatest) else p
    case LatestDone => if p.run.AwaitLatest? then p.(run := Idle) else p
    case Stop(finalText) => OnStop(p, finalText)
    case ChainDone => OnChainDone(p)
    case FinalSnapshotDone =>
      if p.stopper.FinalSnapshot? then
        Issue(p, Latest(p.stopper.final, p.fullSeq)).(stopper := FinalLatest(p.stopper.final))
      else p
    case FinalLatestDone =>
      if p.stopper.FinalLatest? then Issue(p, Stopped).(stopper := FinalStatus(p.stopper.final)) else p
    case FinalStatusDone =>
      if p.stopper.FinalStatus? then p.(stopper := Done(p.stopper.final)) else p
  }

  class TranscriptPersist {
    var queue: seq<Task>
    var run: Runner
    var stopper: Stopper
    var trSession: bool
    var stopped: bool
    var fullLatest: string
    var fullSeq: Option<int>
    var lastSnapshotHash: Hash
    var accepted: seq<string>
    var log: seq<Write>

    function State(): P
      reads this
    {
      P(queue, run, stopper, trSession, stopped, fullLatest, fullSeq, lastSnapshotHash, accepted, log)
    }

    constructor ()
      ensures State() == START
    {
      queue, run, stopper, trSession, stopped := [], Idle, Running, false, false;
      fullLatest, fullSeq, lastSnapshotHash, accepted, log := "", None, NoHash, [], [];
    }

    method HandleStableText(text: string, seqNo: Option<int>)
      modifies this
      ensures State() == Step(old(State()), HandleStable(text, seqNo))
    {
      if stopped {
        return;
      }
      var seqNum := if seqNo.Some? then seqNo else fullSeq;
      var hash := HashOf(seqNum, text);
      if hash == lastSnapshotHash {
        return;
      }
      fullLatest, fullSeq, lastSnapshotHash := text, seqNum, hash;
      if IsBlank(text) {
        return;
      }
      queue := queue + [Task(text, seqNum)];
      accepted := accepted + [text];
    }

    /** The chain reaches its next task. */
    method RunNextTask()
      requires run.Idle? && queue != []
      modifies this
      ensures State() == Step(old(State()), NextTask)
    {
      var t := queue[0];
      queue := queue[1..];
      if stopped {
        return;
      }
      if trSession {
        log, run := log + [Snapshot(t.text)], AwaitSnapshot(t);
      } else {
        run := AwaitUser(t);
      }
    }

    method ResolveUser(ok: bool)
      requires run.AwaitUser?
      modifies this
      ensures State() == Step(old(State()), UserResolved(ok))
    {
      if ok {
        log, run := log + [SessionInsert], AwaitInsert(run.task);
      } else {
        stopped, run := true, Idle;
      }
    }

    method FinishInsert(ok: bool)
      requires run.AwaitInsert?
      modifies this
      ensures State() == Step(old(State()), InsertDone(ok))
    {
      if ok {
        trSession := true;
        log, run := log + [Snapshot(run.task.text)], AwaitSnapshot(run.task);
      } else {
        stopped, run := true, Idle;
      }
    }

    method SnapshotWritten()
      requires run.AwaitSnapshot?
      modifies this
      ensures State() == Step(old(State()), SnapshotDone)
    {
      log, run := log + [Latest(run.task.text, run.task.seqNo)], AwaitLatest;
    }

    method LatestWritten()
      requires run.AwaitLatest?
      modifies this
      ensures State() == Step(old(State()), LatestDone)
    {
      run := Idle;
    }

    method BeginStop(finalText: string)
      requires stopper.Running?
      modifies this
      ensures State() == Step(old(State()), Stop(finalText))
    {
      stopped := true;
      stopper := Waiting(if finalText != "" then finalText else fullLatest);
    }

    method AfterChain()
      requires stopper.Waiting? && run.Idle? && queue == []
      modifies this
      ensures State() == Step(old(State()), ChainDone)
    {
      var f := stopper.final;
      if !trSession {
        stopper := Done(f);
      } else if !IsBlank(f) {
        log, stopper := log + [Snapshot(f)], FinalSnapshot(f);
      } else {
        log, stopper := log + [Stopped], FinalStatus(f);
      }
    }

    method FinalSnapshotWritten()
      requires stopper.FinalSnapshot?
      modifies this
      ensures State() == Step(old(State()), FinalSnapshotDone)
    {
      log, stopper := log + [Latest(stopper.final, fullSeq)], FinalLatest(stopper.final);
    }

    method FinalLatestWritten()
      requires stopper.FinalLatest?
      modifies this
      ensures State() == Step(old(State()), FinalLatestDone)
    {
      log, stopper := log + [Stopped], FinalStatus(stopper.final);
    }
  }

  // ---- invariants ----

  function Inserts(log: seq<Write>): nat
    decreases |log|
  {
    if log == [] then 0 else Inserts(log[..|log| - 1]) + if log[|log| - 1].SessionInsert? then 1 else 0
  }

  function Snapshots(log: seq<Write>): seq<string>
    decreases |log|
  {
    if log == [] then []
    else Snapshots(log[..|log| - 1]) + if log[|log| - 1].Snapshot? then [log[|log| - 1].text] else []
  }

  lemma Issued(log: seq<Write>, w: Write)
    ensures Inserts(log + [w]) == Inserts(log) + (if w.SessionInsert? then 1 else 0)
    ensures Snapshots(log + [w]) == Snapshots(log) + (if w.Snapshot? then [w.text] else [])
  {
  }

  predicate EndsWith(log: seq<Write>, tail: seq<Write>) {
    |tail| <= |log| && log[|log| - |tail|..] == tail
  }

  /** At most one session row is ever asked for. */
  predicate OneInsert(p: P) {
    && Inserts(p.log) <= 1
    && (Inserts(p.log) == 1 ==> p.session || p.run.AwaitInsert? || p.stopped)
    && (p.run.AwaitUser? ==> Inserts(p.log) == 0)
  }

  /** Once `stop` writes, the chain is empty and stays so: no two writes are ever under way at once. */
  predicate NoOverlap(p: P) {
    && (!p.stopper.Running? ==> p.stopped)
    && (!p.stopper.Running? && !p.stopper.Waiting? ==> p.run.Idle? && p.queue == [])
  }

  function Texts(ts: seq<Task>): seq<string> {
    seq(|ts|, i requires 0 <= i < |ts| => ts[i].text)
  }

  /** The texts the chain still has to write, the current task's included. */
  function Pending(p: P): seq<string> {
    (if p.run.AwaitUser? || p.run.AwaitInsert? then [p.run.task.text] else []) + Texts(p.queue)
  }

  /** Snapshots follow the order of calls. While nothing stops the chain, what is written and what is pending is exactly
      what was accepted; afterwards the written texts are still the first ones accepted, followed by the final text. */
  predicate InOrder(p: P) {
    var s := Snapshots(p.log);
    && (!p.stopped ==> s + Pending(p) == p.accepted)
    && (p.stopper.Running? || p.stopper.Waiting? ==>
          s <= p.accepted && ((p.run.AwaitUser? || p.run.AwaitInsert?) ==> s + [p.run.task.text] <= p.accepted))
    && (!p.stopper.Running? && !p.stopper.Waiting? ==>
          s <= p.accepted || (s != [] && s[|s| - 1] == p.stopper.final && s[..|s| - 1] <= p.accepted))
  }

  /** What `stop` has written so far. */
  predicate StopWrites(p: P) {
    match p.stopper
    case Running => true
    case Waiting(_) => true
    case FinalSnapshot(f) => p.session && !IsBlank(f) && EndsWith(p.log, [Snapshot(f)])
    case FinalLatest(f) => p.session && !IsBlank(f) && EndsWith(p.log, [Snapshot(f), Latest(f, p.fullSeq)])
    case FinalStatus(f) => p.session && Ended(p, f)
    case Done(f) => p.session ==> Ended(p, f)
  }

  predicate Ended(p: P, f: string) {
    if IsBlank(f) then EndsWith(p.log, [Stopped]) else EndsWith(p.log, [Snapshot(f), Latest(f, p.fullSeq), Stopped])
  }

  predicate Inv(p: P) {
    && OneInsert(p) && NoOverlap(p) && InOrder(p) && StopWrites(p)
    && (p.run.AwaitSnapshot? || p.run.AwaitLatest? || Snapshots(p.log) != [] ==> p.session)
  }

  lemma StepInv(p: P, e: Event)
    requires Inv(p)
    ensures Inv(Step(p, e))
  {
    match e
    case HandleStable(text, seqNo) => StableInv(p, text, seqNo);
    case NextTask => NextTaskInv(p);
    case UserResolved(ok) => ResolvedInv(p, ok);
    case InsertDone(ok) => InsertedInv(p, ok);
    case SnapshotDone => WrittenInv(p);
    case LatestDone => WrittenInv(p);
    case Stop(_) =>
    case ChainDone => StopInv(p, e);
    case FinalSnapshotDone => StopInv(p, e);
    case FinalLatestDone => StopInv(p, e);
    case FinalStatusDone => StopInv(p, e);
  }

  lemma StableInv(p: P, text: string, seqNo: Option<int>)
    requires Inv(p)
    ensures Inv(OnStable(p, text, seqNo))
  {
    hide Inserts, Snapshots, IsBlank, HashOf, EndsWith;
    var q := OnStable(p, text, seqNo);
    if q.queue != p.queue {
      assert Texts(q.queue) == Texts(p.queue) + [text];
      assert Pending(q) == Pending(p) + [text];
      assert Snapshots(p.log) + (Pending(p) + [text]) == (Snapshots(p.log) + Pending(p)) + [text];
      PrefixLater(Snapshots(p.log), p.accepted, text);
    }
  }

  lemma PrefixLater(s: seq<string>, a: seq<string>, text: string)
    ensures s <= a ==> s <= a + [text]
    ensures forall x :: s + [x] <= a ==> s + [x] <= a + [text]
  {
  }

  lemma NextTaskInv(p: P)
    requires Inv(p)
    ensures Inv(OnNextTask(p))
  {
    hide Inserts, Snapshots, IsBlank, EndsWith;
    if p.run.Idle? && p.queue != [] {
      var t := p.queue[0];
      Issued(p.log, Snapshot(t.text));
      assert Texts(p.queue) == [t.text] + Texts(p.queue[1..]);
      var s := Snapshots(p.log);
      assert s + ([t.text] + Texts(p.queue[1..])) == (s + [t.text]) + Texts(p.queue[1..]);
    }
  }

  lemma ResolvedInv(p: P, ok: bool)
    requires Inv(p)
    ensures Inv(OnUserResolved(p, ok))
  {
    hide Inserts, Snapshots, IsBlank, EndsWith;
    Issued(p.log, SessionInsert);
  }

  lemma InsertedInv(p: P, ok: bool)
    requires Inv(p)
    ensures Inv(OnInsertDone(p, ok))
  {
    hide Inserts, Snapshots, IsBlank, EndsWith;
    if p.run.AwaitInsert? {
      var text := p.run.task.text;
      Issued(p.log, Snapshot(text));
      var s := Snapshots(p.log);
      assert s + ([text] + Texts(p.queue)) == (s + [text]) + Texts(p.queue);
    }
  }

  lemma WrittenInv(p: P)
    requires Inv(p)
    ensures Inv(Step(p, SnapshotDone)) && Inv(Step(p, LatestDone))
  {
    hide Inserts, Snapshots, IsBlank, EndsWith;
    if p.run.AwaitSnapshot? {
      Issued(p.log, Latest(p.run.task.text, p.run.task.seqNo));
    }
  }

  lemma StopInv(p: P, e: Event)
    requires Inv(p) && (e.ChainDone? || e.FinalSnapshotDone? || e.FinalLatestDone? || e.FinalStatusDone?)
    ensures Inv(Step(p, e))
  {
    hide Inserts, Snapshots, IsBlank, EndsWith;
    if !p.stopper.Running? {
      var f := p.stopper.final;
      match e
      case ChainDone => ChainDoneInv(p, f);
      case FinalSnapshotDone =>
        Issued(p.log, Latest(f, p.fullSeq));
        Ending2(p.log, f, p.fullSeq);
      case FinalLatestDone =>
        Issued(p.log, Stopped);
        Ending3(p.log, f, p.fullSeq);
      case FinalStatusDone =>
    }
  }

  lemma ChainDoneInv(p: P, f: string)
    requires Inv(p) && !p.stopper.Running? && p.stopper.final == f
    ensures Inv(OnChainDone(p))
  {
    hide Inserts, Snapshots, IsBlank, EndsWith;
    Issued(p.log, Snapshot(f));
    Issued(p.log, Stopped);
    Ending1(p.log, Snapshot(f));
    Ending1(p.log, Stopped);
    var s := Snapshots(p.log);
    assert (s + [f])[..|s|] == s;
  }

  lemma Ending1(log: seq<Write>, w: Write)
    ensures EndsWith(log + [w], [w])
  {
  }

  lemma Ending2(log: seq<Write>, f: string, n: Option<int>)
    ensures EndsWith(log, [Snapshot(f)]) ==> EndsWith(log + [Latest(f, n)], [Snapshot(f), Latest(f, n)])
  {
  }

  lemma Ending3(log: seq<Write>, f: string, n: Option<int>)
    ensures EndsWith(log, [Snapshot(f), Latest(f, n)]) ==>
              EndsWith(log + [Stopped], [Snapshot(f), Latest(f, n), Stopped])
  {
  }

  function RunAll(p: P, es: seq<Event>): P
    decreases |es|
  {
    if es == [] then p else RunAll(Step(p, es[0]), es[1..])
  }

  lemma {:induction false} RunInv(p: P, es: seq<Event>)
    requires Inv(p)
    ensures Inv(RunAll(p, es))
    decreases |es|
  {
    hide Inv, Step;
    if es != [] {
      StepInv(p, es[0]);
      RunInv(Step(p, es[0]), es[1..]);
    }
  }

  // ---- what holds on every run ----

  predicate Busy(p: P) {
    !p.run.Idle?
  }

  predicate StopBusy(p: P) {
    p.stopper.FinalSnapshot? || p.stopper.FinalLatest? || p.stopper.FinalStatus?
  }

  lemma AtMostOneSession(es: seq<Event>)
    ensures Inserts(RunAll(START, es).log) <= 1
  {
    hide Step;
    StartInv();
    RunInv(START, es);
  }

  lemma WritesNeverOverlap(es: seq<Event>)
    ensures !(Busy(RunAll(START, es)) && StopBusy(RunAll(START, es)))
  {
    hide Step;
    StartInv();
    RunInv(START, es);
  }

  /** Snapshots are issued in call order, none twice and none left out: all accepted texts once the chain is idle and
      nothing has stopped it, and always the first ones accepted, before the final one. */
  lemma SnapshotsInOrder(es: seq<Event>)
    ensures var p, s := RunAll(START, es), Snapshots(RunAll(START, es).log);
            && (!p.stopped && p.run.Idle? && p.queue == [] ==> s == p.accepted)
            && (s <= p.accepted || (s != [] && s[..|s| - 1] <= p.accepted && StopWrote(p, s[|s| - 1])))
  {
    hide Step;
    StartInv();
    RunInv(START, es);
    var p := RunAll(START, es);
    assert p.run.Idle? && p.queue == [] ==> Snapshots(p.log) + Pending(p) == Snapshots(p.log);
  }

  // ---- what has to be written ----

  /** The last stable that changed something: its number and its text. */
  datatype Before = Nothing | Stable(number: Option<int>, text: string)

  /** A missing number counts as 0. */
  predicate SameNumber(a: Option<int>, b: Option<int>) {
    (if a.Some? then a.value else 0) == (if b.Some? then b.value else 0)
  }

  /** The number that a stable comes with, or else that of the last one. */
  function NumberFor(b: Before, seqNo: Option<int>): Option<int> {
    if seqNo.Some? then seqNo else if b.Stable? then b.number else None
  }

  /** The texts to be written: those of the stables that come before anything stops, differ in number or text from the
      last one, and are not blank. The state `p` only says whether something has stopped. */
  function Wanted(p: P, b: Before, es: seq<Event>): seq<string>
    decreases |es|
  {
    if es == [] then []
    else
      var next := Step(p, es[0]);
      if p.stopped || !es[0].HandleStable? then Wanted(next, b, es[1..])
      else
        var text, n := es[0].text, NumberFor(b, es[0].seqNo);
        if b.Stable? && b.text == text && SameNumber(b.number, n) then Wanted(next, b, es[1..])
        else (if exists i :: 0 <= i < |text| && !IsSpace(text[i]) then [text] else [])
             + Wanted(next, Stable(n, text), es[1..])
  }

  /** What stops the chain: the call of `stop`, no user, or a session that could not be inserted. */
  lemma StopsIff(p: P, e: Event)
    requires !p.stopper.Running? ==> p.stopped
    ensures Step(p, e).stopped
            <==> || p.stopped || e.Stop?
                 || (e == UserResolved(false) && p.run.AwaitUser?) || (e == InsertDone(false) && p.run.AwaitInsert?)
  {
  }

  predicate Remembers(p: P, b: Before) {
    match b
    case Nothing => p.hash == NoHash && p.fullSeq == None && p.fullLatest == ""
    case Stable(n, text) => p.hash == HashOf(n, text) && p.fullSeq == n && p.fullLatest == text
  }

  lemma {:induction false} AcceptedFrom(p: P, b: Before, es: seq<Event>)
    requires Remembers(p, b)
    ensures RunAll(p, es).accepted == p.accepted + Wanted(p, b, es)
    decreases |es|
  {
    hide IsBlank, Wanted, Step, Remembers, NumberFor, SameNumber;
    if es == [] {
      NothingWanted(p, b);
    } else {
      var e, next := es[0], Step(p, es[0]);
      if p.stopped || !e.HandleStable? {
        OthersRemember(p, b, e);
        WantedLater(p, b, es);
        AcceptedFrom(next, b, es[1..]);
      } else {
        var text, n := e.text, NumberFor(b, e.seqNo);
        StableRemembers(p, b, text, e.seqNo);
        WantedStep(p, b, es);
        if b.Stable? && b.text == text && SameNumber(b.number, n) {
          AcceptedFrom(next, b, es[1..]);
        } else {
          AcceptedFrom(next, Stable(n, text), es[1..]);
          var head := if IsBlank(text) then [] else [text];
          var rest := Wanted(next, Stable(n, text), es[1..]);
          assert (p.accepted + head) + rest == p.accepted + (head + rest);
        }
      }
    }
  }

  lemma NothingWanted(p: P, b: Before)
    ensures Wanted(p, b, []) == [] && p.accepted + [] == p.accepted
  {
  }

  lemma WantedLater(p: P, b: Before, es: seq<Event>)
    requires es != [] && (p.stopped || !es[0].HandleStable?)
    ensures Wanted(p, b, es) == Wanted(Step(p, es[0]), b, es[1..])
  {
    hide Step;
  }

  lemma WantedStep(p: P, b: Before, es: seq<Event>)
    requires es != [] && es[0].HandleStable? && !p.stopped
    ensures var text, n, next := es[0].text, NumberFor(b, es[0].seqNo), Step(p, es[0]);
            Wanted(p, b, es)
            == if b.Stable? && b.text == text && SameNumber(b.number, n) then Wanted(next, b, es[1..])
               else (if IsBlank(text) then [] else [text]) + Wanted(next, Stable(n, text), es[1..])
  {
    hide Step, IsBlank;
    NotBlank(es[0].text);
  }

  lemma NotBlank(text: string)
    ensures IsBlank(text) <==> !exists i :: 0 <= i < |text| && !IsSpace(text[i])
  {
  }

  lemma OthersRemember(p: P, b: Before, e: Event)
    requires Remembers(p, b) && (p.stopped || !e.HandleStable?)
    ensures Remembers(Step(p, e), b) && Step(p, e).accepted == p.accepted
  {
  }

  lemma StableRemembers(p: P, b: Before, text: string, seqNo: Option<int>)
    requires Remembers(p, b) && !p.stopped
    ensures var n, q := NumberFor(b, seqNo), Step(p, HandleStable(text, seqNo));
            if b.Stable? && b.text == text && SameNumber(b.number, n) then q == p
            else Remembers(q, Stable(n, text)) && q.accepted == p.accepted + if IsBlank(text) then [] else [text]
  {
    hide IsBlank;
    assert p.accepted + [] == p.accepted;
  }

  /** On every run the chain was handed exactly the texts to be written. When it is idle and nothing has stopped it,
      all of them are written, and if there is any, there is a session. */
  lemma WantedIsWritten(es: seq<Event>)
    ensures var p, ts := RunAll(START, es), Wanted(START, Nothing, es);
            && p.accepted == ts
            && (!p.stopped && p.run.Idle? && p.queue == [] ==>
                  Snapshots(p.log) == ts && (ts != [] ==> p.session && Snapshots(p.log)[|ts| - 1] == ts[|ts| - 1]))
  {
    hide Step, Inv;
    StartInv();
    RunInv(START, es);
    AcceptedFrom(START, Nothing, es);
    assert [] + Wanted(START, Nothing, es) == Wanted(START, Nothing, es);
    SnapshotsInOrder(es);
    if Snapshots(RunAll(START, es).log) != [] {
      SnapshotsNeedSession(RunAll(START, es));
    }
  }

  /** The text of the last stable that came before anything stopped, or `last`. */
  function LastText(p: P, last: string, es: seq<Event>): string
    decreases |es|
  {
    if es == [] then last
    else LastText(Step(p, es[0]), if es[0].HandleStable? && !p.stopped then es[0].text else last, es[1..])
  }

  lemma {:induction false} LatestFrom(p: P, b: Before, es: seq<Event>)
    requires Remembers(p, b)
    ensures RunAll(p, es).fullLatest == LastText(p, p.fullLatest, es)
    decreases |es|
  {
    hide IsBlank;
    if es != [] {
      var e := es[0];
      if p.stopped || !e.HandleStable? {
        OthersRemember(p, b, e);
        LatestFrom(Step(p, e), b, es[1..]);
      } else {
        StableRemembers(p, b, e.text, e.seqNo);
        var same := b.Stable? && b.text == e.text && SameNumber(b.number, NumberFor(b, e.seqNo));
        LatestFrom(Step(p, e), if same then b else Stable(NumberFor(b, e.seqNo), e.text), es[1..]);
      }
    }
  }

  /** The text that `stop` settles on: what it is given, or else that of the last stable. */
  lemma StopSettles(es: seq<Event>, finalText: string)
    requires RunAll(START, es).stopper.Running?
    ensures Step(RunAll(START, es), Stop(finalText)).stopper
            == Waiting(if finalText != "" then finalText else LastText(START, "", es))
  {
    hide RunAll, LastText;
    LatestFrom(START, Nothing, es);
  }

  lemma SnapshotsNeedSession(p: P)
    requires Inv(p) && Snapshots(p.log) != []
    ensures p.session
  {
  }

  predicate StopWrote(p: P, text: string) {
    !p.stopper.Running? && !p.stopper.Waiting? && p.stopper.final == text
  }

  /** When `stop` is through and there is a session, the "stopped" patch is the last write; and if the final text is not
      blank, the last snapshot is that text. */
  lemma StopHasTheLastWord(es: seq<Event>)
    requires RunAll(START, es).stopper.Done? && RunAll(START, es).session
    ensures var p := RunAll(START, es);
            && p.log != [] && p.log[|p.log| - 1] == Stopped
            && (!IsBlank(p.stopper.final) ==>
                  Snapshots(p.log) != [] && Snapshots(p.log)[|Snapshots(p.log)| - 1] == p.stopper.final)
  {
    hide Step, IsBlank;
    StartInv();
    RunInv(START, es);
    var p := RunAll(START, es);
    var f := p.stopper.final;
    if !IsBlank(f) {
      var base := p.log[..|p.log| - 3];
      assert p.log == ((base + [Snapshot(f)]) + [Latest(f, p.fullSeq)]) + [Stopped];
      Issued(base, Snapshot(f));
      Issued(base + [Snapshot(f)], Latest(f, p.fullSeq));
      Issued((base + [Snapshot(f)]) + [Latest(f, p.fullSeq)], Stopped);
    }
  }

  lemma StartInv()
    ensures Inv(START)
  {
  }

  /** The final text is fixed by the call: what it was given, or else the latest stable. */
  lemma {:induction false} FinalIsFixed(p: P, es: seq<Event>)
    requires !p.stopper.Running?
    ensures !RunAll(p, es).stopper.Running? && RunAll(p, es).stopper.final == p.stopper.final
    decreases |es|
  {
    if es != [] {
      FinalIsFixed(Step(p, es[0]), es[1..]);
    }
  }
}
