/** The server's audio queue: byte accounting around an asyncio queue of `QUEUE_MAX` places (0 or less: no limit).
    An item is its size in bytes. `put` completes, when it has to wait, in the same step as what follows it. */
module AudioQueue {
  import opened Text

  datatype Config = Config(dropOldest: bool, guard: int, queueMax: int, cap: int)

  /** `waiting` is the item of a receive loop that stands in `put`. */
  datatype Q = Q(items: seq<nat>, total: int, waiting: Option<nat>)

  const EMPTY := Q([], 0, None)

  function Sum(items: seq<nat>): nat
    decreases |items|
  {
    if items == [] then 0 else items[0] + Sum(items[1..])
  }

  lemma {:induction false} SumSnoc(items: seq<nat>, n: nat)
    ensures Sum(items + [n]) == Sum(items) + n
    decreases |items|
  {
    if items == [] {
      assert items + [n] == [n] && [n][1..] == [];
    } else {
      SumSnoc(items[1..], n);
      assert (items + [n])[1..] == items[1..] + [n];
    }
  }

  predicate Full(cfg: Config, items: seq<nat>) {
    cfg.queueMax > 0 && |items| >= cfg.queueMax
  }

  /** Removes the oldest item; the total is kept from going below 0. */
  function Pop(q: Q): Q
    requires q.items != []
  {
    q.(items := q.items[1..], total := Max(0, q.total - q.items[0]))
  }

  function DropUntilUnder(cap: int, q: Q): Q
    decreases |q.items|
  {
    if q.total >= cap && q.items != [] then DropUntilUnder(cap, Pop(q)) else q
  }

  function Finish(cfg: Config, q: Q, n: nat): Q {
    var r := Q(q.items + [n], q.total + n, None);
    if cfg.cap > 0 && r.total >= cfg.cap then DropUntilUnder(cfg.cap, r) else r
  }

  datatype Event = Arrive(n: nat) | Take | Resume

  function Step(cfg: Config, q: Q, e: Event): Q {
    match e
    case Arrive(n) =>
      if q.waiting.Some? then q
      else
        var r := if cfg.dropOldest && |q.items| >= cfg.guard && q.items != [] then Pop(q) else q;
        if Full(cfg, r.items) then r.(waiting := Some(n)) else Finish(cfg, r, n)
    case Take =>
      if q.items == [] then q
      else if q.items[0] > 0 then Pop(q)
      else q.(items := q.items[1..])
    case Resume => if q.waiting.Some? && !Full(cfg, q.items) then Finish(cfg, q, q.waiting.value) else q
  }

  class Queue {
    const cfg: Config
    var items: seq<nat>
    var queueBytesTotal: int
    var waiting: Option<nat>

    function State(): Q
      reads this
    {
      Q(items, queueBytesTotal, waiting)
    }

    constructor (cfg: Config)
      ensures this.cfg == cfg && State() == EMPTY
    {
      this.cfg := cfg;
      items, queueBytesTotal, waiting := [], 0, None;
    }

    /** One audio message of the receive loop, up to the point where it is queued or has to wait. */
    method Receive(n: nat)
      requires waiting.None?
      modifies this
      ensures State() == Step(cfg, old(State()), Arrive(n))
    {
      hide DropUntilUnder;
      if cfg.dropOldest && |items| >= cfg.guard {
        if items != [] {
          var old_ := items[0];
          items := items[1..];
          queueBytesTotal := Max(0, queueBytesTotal - old_);
        }
      }
      if cfg.queueMax > 0 && |items| >= cfg.queueMax {
        waiting := Some(n);
      } else {
        Account(n);
      }
    }

    /** The waiting `put` finds a place. */
    method Wake()
      modifies this
      ensures State() == Step(cfg, old(State()), Resume)
    {
      hide DropUntilUnder;
      if waiting.Some? && !Full(cfg, items) {
        Account(waiting.value);
      }
    }

    method Account(n: nat)
      modifies this
      ensures State() == Finish(cfg, old(State()), n)
    {
      hide DropUntilUnder;
      items := items + [n];
      queueBytesTotal := queueBytesTotal + n;
      waiting := None;
      if cfg.cap > 0 && queueBytesTotal >= cfg.cap {
        DropOldest(cfg.cap);
      }
    }

    method DropOldest(cap: int)
      modifies this`items, this`queueBytesTotal
      ensures State() == DropUntilUnder(cap, old(State()))
    {
      while queueBytesTotal >= cap && items != []
        invariant DropUntilUnder(cap, State()) == DropUntilUnder(cap, old(State()))
        decreases |items|
      {
        var n := items[0];
        items := items[1..];
        queueBytesTotal := Max(0, queueBytesTotal - n);
      }
    }

    /** The feed worker takes the oldest item. */
    method TakeItem() returns (n: nat)
      requires items != []
      modifies this`items, this`queueBytesTotal
      ensures n == old(items[0]) && State() == Step(cfg, old(State()), Take)
    {
      n := items[0];
      items := items[1..];
      if n > 0 {
        queueBytesTotal := Max(0, queueBytesTotal - n);
      }
    }
  }

  // ---- accounting ----

  /** The total is the sum of the queued sizes, the queue fits, and the total stays below a positive cap. */
  predicate Balanced(cfg: Config, q: Q) {
    && q.total == Sum(q.items)
    && (cfg.queueMax > 0 ==> |q.items| <= cfg.queueMax)
    && (cfg.cap > 0 ==> q.total < cfg.cap)
  }

  lemma {:induction false} DropUntilBalances(cfg: Config, q: Q)
    requires cfg.cap > 0 && q.total == Sum(q.items)
    ensures var r := DropUntilUnder(cfg.cap, q);
            r.total == Sum(r.items) && r.total < cfg.cap && |r.items| <= |q.items| && r.waiting == q.waiting
    decreases |q.items|
  {
    if q.total >= cfg.cap && q.items != [] {
      DropUntilBalances(cfg, Pop(q));
    }
  }

  lemma FinishBalances(cfg: Config, q: Q, n: nat)
    requires Balanced(cfg, q) && !Full(cfg, q.items)
    ensures Balanced(cfg, Finish(cfg, q, n)) && Finish(cfg, q, n).waiting.None?
    ensures |Finish(cfg, q, n).items| <= |q.items| + 1
  {
    SumSnoc(q.items, n);
    var r := Q(q.items + [n], q.total + n, None);
    if cfg.cap > 0 {
      DropUntilBalances(cfg, r);
    }
  }

  /** Taking an item never meets the clamp at 0. */
  lemma PopIsExact(q: Q)
    requires q.items != [] && q.total == Sum(q.items)
    ensures Pop(q).total == q.total - q.items[0] == Sum(Pop(q).items)
  {
  }

  lemma StepBalances(cfg: Config, q: Q, e: Event)
    requires Balanced(cfg, q)
    ensures Balanced(cfg, Step(cfg, q, e))
  {
    hide Finish;
    if q.items != [] {
      PopIsExact(q);
    }
    match e
    case Arrive(n) =>
      var r := if cfg.dropOldest && |q.items| >= cfg.guard && q.items != [] then Pop(q) else q;
      if !Full(cfg, r.items) {
        FinishBalances(cfg, r, n);
      }
    case Take =>
    case Resume =>
      if q.waiting.Some? && !Full(cfg, q.items) {
        FinishBalances(cfg, q, q.waiting.value);
      }
  }

  function RunAll(cfg: Config, q: Q, es: seq<Event>): Q
    decreases |es|
  {
    if es == [] then q else RunAll(cfg, Step(cfg, q, es[0]), es[1..])
  }

  lemma {:induction false} RunBalances(cfg: Config, q: Q, es: seq<Event>)
    requires Balanced(cfg, q)
    ensures Balanced(cfg, RunAll(cfg, q, es))
    decreases |es|
  {
    hide Step, Balanced;
    if es != [] {
      StepBalances(cfg, q, es[0]);
      RunBalances(cfg, Step(cfg, q, es[0]), es[1..]);
    }
  }

  /** At every step of every run, whatever the settings, the byte total equals the queued bytes and is below the cap. */
  lemma TotalIsExact(cfg: Config, es: seq<Event>)
    ensures Balanced(cfg, RunAll(cfg, EMPTY, es))
  {
    RunBalances(cfg, EMPTY, es);
  }

  // ---- blocking ----

  predicate MakesRoom(cfg: Config) {
    cfg.queueMax <= 0 || (cfg.dropOldest && cfg.guard <= cfg.queueMax)
  }

  lemma {:induction false} RoomNeverWaits(cfg: Config, q: Q, es: seq<Event>)
    requires MakesRoom(cfg) && Balanced(cfg, q) && q.waiting.None?
    ensures RunAll(cfg, q, es).waiting.None?
    ensures cfg.dropOldest && 1 <= cfg.guard && |q.items| <= cfg.guard ==> |RunAll(cfg, q, es).items| <= cfg.guard
    decreases |es|
  {
    hide Balanced;
    if es != [] {
      StepBalances(cfg, q, es[0]);
      StepMakesRoom(cfg, q, es[0]);
      RoomNeverWaits(cfg, Step(cfg, q, es[0]), es[1..]);
    }
  }

  lemma StepMakesRoom(cfg: Config, q: Q, e: Event)
    requires MakesRoom(cfg) && Balanced(cfg, q) && q.waiting.None?
    ensures Step(cfg, q, e).waiting.None?
    ensures cfg.dropOldest && 1 <= cfg.guard && |q.items| <= cfg.guard ==> |Step(cfg, q, e).items| <= cfg.guard
  {
    hide Finish, Sum;
    if e.Arrive? {
      if q.items != [] {
        PopIsExact(q);
      }
      var r := if cfg.dropOldest && |q.items| >= cfg.guard && q.items != [] then Pop(q) else q;
      FinishBalances(cfg, r, e.n);
    }
  }

  function Burst(k: nat): seq<Event> {
    seq(k, _ => Arrive(0))
  }

  /** Without room-making, as many empty messages as there are places fill the queue. */
  lemma {:induction false} BurstFills(cfg: Config, q: Q, k: nat)
    requires !MakesRoom(cfg) && q.total == 0 && Sum(q.items) == 0 && q.waiting.None? && |q.items| + k <= cfg.queueMax
    ensures var r := RunAll(cfg, q, Burst(k)); |r.items| == |q.items| + k && r.waiting.None? && r.total == 0
    decreases k
  {
    if k > 0 {
      var r := Step(cfg, q, Arrive(0));
      assert r == Q(q.items + [0], 0, None);
      SumSnoc(q.items, 0);
      assert Burst(k)[1..] == Burst(k - 1);
      BurstFills(cfg, r, k - 1);
    }
  }

  lemma {:induction false} RunSnoc(cfg: Config, q: Q, es: seq<Event>, e: Event)
    ensures RunAll(cfg, q, es + [e]) == Step(cfg, RunAll(cfg, q, es), e)
    decreases |es|
  {
    hide Step;
    if es == [] {
      assert es + [e] == [e] && [e][1..] == [];
    } else {
      RunSnoc(cfg, Step(cfg, q, es[0]), es[1..], e);
      assert (es + [e])[1..] == es[1..] + [e];
    }
  }

  ghost predicate CanWait(cfg: Config) {
    exists es :: RunAll(cfg, EMPTY, es).waiting.Some?
  }

  /** `put` can block exactly when nothing makes room in a bounded queue: drop-oldest is off, or its threshold lies
      above the bound. */
  lemma WaitsIff(cfg: Config)
    ensures CanWait(cfg) <==> cfg.queueMax > 0 && !(cfg.dropOldest && cfg.guard <= cfg.queueMax)
  {
    if MakesRoom(cfg) {
      forall es ensures RunAll(cfg, EMPTY, es).waiting.None? {
        RoomNeverWaits(cfg, EMPTY, es);
      }
    } else {
      var es := Burst(cfg.queueMax);
      BurstFills(cfg, EMPTY, cfg.queueMax);
      RunSnoc(cfg, EMPTY, es, Arrive(0));
      var q := RunAll(cfg, EMPTY, es);
      assert Step(cfg, q, Arrive(0)).waiting == Some(0);
      assert RunAll(cfg, EMPTY, es + [Arrive(0)]).waiting.Some?;
    }
  }

  /** With drop-oldest on and a threshold of at least 1 that lies within the bound, the queue never outgrows it. */
  lemma QueueStaysAtGuard(cfg: Config, es: seq<Event>)
    requires cfg.dropOldest && 1 <= cfg.guard && (cfg.queueMax <= 0 || cfg.guard <= cfg.queueMax)
    ensures RunAll(cfg, EMPTY, es).waiting.None? && |RunAll(cfg, EMPTY, es).items| <= cfg.guard
  {
    RoomNeverWaits(cfg, EMPTY, es);
  }

  // ---- what is dropped ----

  /** The latest items that stay below the cap, and no fewer. */
  predicate LatestUnder(cap: int, all: seq<nat>, k: nat) {
    k <= |all| && (Sum(all[k..]) < cap || k == |all|) && (k > 0 ==> Sum(all[k - 1..]) >= cap)
  }

  lemma {:induction false} DropsOnlyOldest(cap: int, q: Q) returns (k: nat)
    requires q.total == Sum(q.items)
    ensures k <= |q.items| && DropUntilUnder(cap, q).items == q.items[k..]
    ensures LatestUnder(cap, q.items, k)
    decreases |q.items|
  {
    k := 0;
    if q.total >= cap && q.items != [] {
      PopIsExact(q);
      var j := DropsOnlyOldest(cap, Pop(q));
      k := j + 1;
      assert q.items[1..][j..] == q.items[k..];
      assert j > 0 ==> q.items[1..][j - 1..] == q.items[k - 1..];
    }
  }

  /** An item that arrives and need not wait goes behind the others. Only the oldest items leave for it: one if the
      number of items has reached the threshold, and then no more than the cap on bytes asks for. */
  lemma ArriveKeepsLatest(cfg: Config, q: Q, n: nat) returns (k: nat)
    requires Balanced(cfg, q) && q.waiting.None? && Step(cfg, q, Arrive(n)).waiting.None?
    ensures var first := if cfg.dropOldest && |q.items| >= cfg.guard && q.items != [] then 1 else 0;
            var all := q.items[first..] + [n];
            && k <= |all| && Step(cfg, q, Arrive(n)).items == all[k..]
            && (if cfg.cap > 0 then LatestUnder(cfg.cap, all, k) else k == 0)
  {
    hide DropUntilUnder, Sum;
    if q.items != [] {
      PopIsExact(q);
    }
    var r := if cfg.dropOldest && |q.items| >= cfg.guard && q.items != [] then Pop(q) else q;
    SumSnoc(r.items, n);
    var s := Q(r.items + [n], r.total + n, None);
    k := 0;
    if cfg.cap > 0 {
      k := DropsOnlyOldest(cfg.cap, s);
      if s.total < cfg.cap {
        NothingDropped(cfg.cap, s);
        SumTail(s.items, k);
      }
    }
  }

  lemma NothingDropped(cap: int, q: Q)
    requires q.total < cap
    ensures DropUntilUnder(cap, q) == q
  {
  }

  lemma {:induction false} SumTail(items: seq<nat>, k: nat)
    requires k <= |items|
    ensures Sum(items[k..]) <= Sum(items)
    decreases k
  {
    if k > 0 {
      SumTail(items[1..], k - 1);
      assert items[1..][k - 1..] == items[k..];
    }
  }
}
