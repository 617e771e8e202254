/** The bounded main-frame queue (session.py). */
module FrameQueue {
  import opened Options

  // It joins `_enqueue_main_frame_event`, the `get` of the sample loop and the sentinels put by
  // `_release_runtime_resources`. The class runs an enqueue without interruption; the machine interleaves its
  // queue and counter accesses with workers and shutdown.

  /** A main frame, or the sentinel that wakes a worker at shutdown. */
  datatype Item = Frame(id: int) | Sentinel

  class MainFrameQueue {
    const capacity: nat
    var items: seq<Item>
    var mainFrameEvents: nat
    var dropped: nat

    ghost predicate Valid()
      reads this
    {
      1 <= capacity && |items| <= capacity
    }

    constructor (capacity: nat)
      requires capacity >= 1
      ensures Valid() && this.capacity == capacity && items == [] && mainFrameEvents == 0 && dropped == 0
    {
      this.capacity := capacity;
      items, mainFrameEvents, dropped := [], 0, 0;
    }

    method PutNowait(e: Item) returns (ok: bool)
      requires Valid()
      modifies this`items
      ensures Valid() && ok == (|old(items)| < capacity)
      ensures items == if ok then old(items) + [e] else old(items)
    {
      ok := |items| < capacity;
      if ok {
        items := items + [e];
      }
    }

    method GetNowait() returns (taken: seq<Item>)
      requires Valid()
      modifies this`items
      ensures Valid() && old(items) == taken + items && |taken| == if old(items) == [] then 0 else 1
    {
      if items == [] {
        return [];
      }
      taken := [items[0]];
      items := items[1..];
    }

    /** With no worker in between: the new event is kept, and a full queue gives up its oldest. */
    method Enqueue(e: Item)
      requires Valid()
      modifies this
      ensures Valid() && items == Newest(old(items) + [e], capacity)
      ensures mainFrameEvents == old(mainFrameEvents) + 1
      ensures dropped == old(dropped) + (if |old(items)| == capacity then 1 else 0)
    {
      var ok := PutNowait(e);
      if ok {
        mainFrameEvents := mainFrameEvents + 1;
        return;
      }
      var evicted := GetNowait();
      if evicted != [] {
        dropped := dropped + 1;
        ok := PutNowait(e);
        if ok {
          mainFrameEvents := mainFrameEvents + 1;
        }
      }
    }
  }

  /** The last n elements. */
  function Newest(s: seq<Item>, n: nat): seq<Item> {
    if |s| <= n then s else s[|s| - n..]
  }

  // ----- Uninterrupted operations -----

  datatype Op = Put(item: Item) | Take

  /** The queue after a list of operations; taking from an empty queue waits, so it changes nothing. */
  function After(cap: nat, ops: seq<Op>): seq<Item> {
    if ops == [] then []
    else
      var q := After(cap, ops[..|ops| - 1]);
      match ops[|ops| - 1]
      case Put(e) => Newest(q + [e], cap)
      case Take => if q == [] then q else q[1..]
  }

  function PutsOf(ops: seq<Op>): seq<Item> {
    if ops == [] then []
    else
      var rest := PutsOf(ops[..|ops| - 1]);
      if ops[|ops| - 1].Put? then rest + [ops[|ops| - 1].item] else rest
  }

  /** Puts that met a full queue, and so cost it its oldest event. */
  function Evictions(cap: nat, ops: seq<Op>): nat {
    if ops == [] then 0
    else
      var before, last := ops[..|ops| - 1], ops[|ops| - 1];
      Evictions(cap, before) + if last.Put? && |After(cap, before)| == cap then 1 else 0
  }

  /** Takes that met a non-empty queue. */
  function Deliveries(cap: nat, ops: seq<Op>): nat {
    if ops == [] then 0
    else
      var before, last := ops[..|ops| - 1], ops[|ops| - 1];
      Deliveries(cap, before) + if last.Take? && After(cap, before) != [] then 1 else 0
  }

  lemma NoneYet(cap: nat)
    ensures After(cap, []) == [] && PutsOf([]) == [] && Deliveries(cap, []) == 0 && Evictions(cap, []) == 0
  {
  }

  lemma NewestLength(q: seq<Item>, op: Op, cap: nat)
    ensures op.Put? ==> |Newest(q + [op.item], cap)| == if |q| + 1 <= cap then |q| + 1 else cap
  {
  }

  /** The queue always holds the most recent puts, oldest first, and the very last put among them; its
      length is exact: every other put was delivered, or evicted by a put that found the queue full. */
  lemma {:induction false} HoldsNewestInOrder(cap: nat, ops: seq<Op>)
    requires cap >= 1
    ensures var q, puts := After(cap, ops), PutsOf(ops);
      && |q| <= cap && |q| <= |puts| && q == puts[|puts| - |q|..]
      && (ops != [] && ops[|ops| - 1].Put? ==> q != [] && q[|q| - 1] == ops[|ops| - 1].item)
      && |q| + Deliveries(cap, ops) + Evictions(cap, ops) == |puts|
  {
    hide After, PutsOf, Newest, Deliveries, Evictions;
    if ops == [] {
      NoneYet(cap);
    } else {
      var before, last := ops[..|ops| - 1], ops[|ops| - 1];
      HoldsNewestInOrder(cap, before);
      var q, puts := After(cap, before), PutsOf(before);
      OneMore(cap, ops);
      NewestLength(q, last, cap);
      match last
      case Take =>
        if q != [] {
          SuffixShrinks(q, puts);
        }
      case Put(e) => SuffixGrows(cap, q, puts, e);
    }
  }

  lemma OneMore(cap: nat, ops: seq<Op>)
    requires ops != []
    ensures var q, puts := After(cap, ops[..|ops| - 1]), PutsOf(ops[..|ops| - 1]);
      match ops[|ops| - 1]
      case Put(e) => After(cap, ops) == Newest(q + [e], cap) && PutsOf(ops) == puts + [e]
      case Take => After(cap, ops) == (if q == [] then q else q[1..]) && PutsOf(ops) == puts
    ensures var before, last := ops[..|ops| - 1], ops[|ops| - 1];
      var full, some := |After(cap, before)| == cap, After(cap, before) != [];
      && Evictions(cap, ops) == Evictions(cap, before) + (if last.Put? && full then 1 else 0)
      && Deliveries(cap, ops) == Deliveries(cap, before) + (if last.Take? && some then 1 else 0)
  {
  }

  lemma SuffixShrinks(q: seq<Item>, puts: seq<Item>)
    requires q != [] && |q| <= |puts| && q == puts[|puts| - |q|..]
    ensures q[1..] == puts[|puts| - |q[1..]|..]
  {
  }

  lemma SuffixGrows(cap: nat, q: seq<Item>, puts: seq<Item>, e: Item)
    requires cap >= 1 && |q| <= cap && |q| <= |puts| && q == puts[|puts| - |q|..]
    ensures var r, all := Newest(q + [e], cap), puts + [e];
      0 < |r| <= cap && |r| <= |all| && r == all[|all| - |r|..] && r[|r| - 1] == e
  {
  }

  // ----- Interleavings -----

  /** A producer inside `_enqueue_main_frame_event`, between two accesses. */
  datatype Producer = PutFirst(item: Item) | CountPut | Evict(item: Item) | CountDrop(item: Item) | PutAgain(item: Item)

  /** A worker at its loop test, inside `get`, with an item, or ended. */
  datatype Worker = Head | Getting | Holding | Gone

  /** `put` counts sentinels put, `turns` the iterations of the sentinel loop so far; `arrived` and `lost`
      count enqueues begun and enqueues that ended without having put their event. */
  datatype System = System(
    queue: seq<Item>, producers: map<nat, Producer>, workers: map<nat, Worker>,
    events: nat, dropped: nat, taken: nat, put: nat, cancel: bool, turns: nat, arrived: nat, lost: nat)

  datatype Step =
    | Arrive(p: nat, id: int) | Advance(p: nat)
    | CheckCancel(w: nat) | Get(w: nat) | GoOn(w: nat) | Quit(w: nat)
    | SetCancel | PutSentinel

  ghost predicate Enabled(s: System, step: Step) {
    match step
    case Arrive(p, _) => p !in s.producers
    case Advance(p) => p in s.producers
    case CheckCancel(w) => w in s.workers && s.workers[w] == Head
    case Get(w) => w in s.workers && s.workers[w] == Getting && s.queue != []
    case GoOn(w) => w in s.workers && s.workers[w] == Holding
    case Quit(w) => w in s.workers && s.workers[w] == Holding
    case SetCancel => true
    case PutSentinel => s.cancel && s.turns < |s.workers|
  }

  ghost function Advanced(cap: nat, s: System, p: nat): System
    requires p in s.producers
  {
    match s.producers[p]
    case PutFirst(e) =>
      if |s.queue| < cap then s.(queue := s.queue + [e], producers := s.producers[p := CountPut])
      else s.(producers := s.producers[p := Evict(e)])
    case CountPut => s.(events := s.events + 1, producers := s.producers - {p})
    case Evict(e) =>
      if s.queue == [] then s.(producers := s.producers - {p}, lost := s.lost + 1)
      else s.(queue := s.queue[1..], producers := s.producers[p := CountDrop(e)])
    case CountDrop(e) => s.(dropped := s.dropped + 1, producers := s.producers[p := PutAgain(e)])
    case PutAgain(e) =>
      if |s.queue| < cap then s.(queue := s.queue + [e], producers := s.producers[p := CountPut])
      else s.(producers := s.producers - {p}, lost := s.lost + 1)
  }

  ghost function Apply(cap: nat, s: System, step: Step): System
    requires Enabled(s, step)
  {
    match step
    case Arrive(p, id) => s.(producers := s.producers[p := PutFirst(Frame(id))], arrived := s.arrived + 1)
    case Advance(p) => Advanced(cap, s, p)
    case CheckCancel(w) => s.(workers := s.workers[w := if s.cancel then Gone else Getting])
    case Get(w) =>
      s.(queue := s.queue[1..], taken := s.taken + 1,
         workers := s.workers[w := if s.queue[0] == Sentinel then Gone else Holding])
    case GoOn(w) => s.(workers := s.workers[w := Head])
    case Quit(w) => s.(workers := s.workers[w := Gone])
    case SetCancel => s.(cancel := true)
    case PutSentinel =>
      if |s.queue| < cap then s.(queue := s.queue + [Sentinel], put := s.put + 1, turns := s.turns + 1)
      else s.(turns := s.turns + 1)
  }

  ghost predicate Next(cap: nat, s: System, t: System) {
    exists step :: Enabled(s, step) && t == Apply(cap, s, step)
  }

  ghost predicate IsInitial(s: System) {
    && s.queue == [] && s.producers == map[] && (forall w :: w in s.workers ==> s.workers[w] == Head)
    && s.events == 0 && s.dropped == 0 && s.taken == 0 && s.put == 0 && !s.cancel && s.turns == 0
    && s.arrived == 0 && s.lost == 0
  }

  ghost predicate IsRun(cap: nat, run: seq<System>) {
    && |run| > 0 && IsInitial(run[0])
    && forall i :: 0 <= i < |run| - 1 ==> Next(cap, run[i], run[i + 1])
  }

  function Last(run: seq<System>): System
    requires |run| > 0
  {
    run[|run| - 1]
  }

  ghost function Owing(m: map<nat, Producer>): set<nat> {
    set p | p in m && m[p].CountPut?
  }

  /** Producers that have evicted an item and not yet counted it. */
  ghost function Uncounted(m: map<nat, Producer>): set<nat> {
    set p | p in m && m[p].CountDrop?
  }

  /** Producers that have evicted an item and still have to put their own. */
  ghost function Evictors(m: map<nat, Producer>): set<nat> {
    set p | p in m && (m[p].CountDrop? || m[p].PutAgain?)
  }

  /** Workers that may still call `get`. */
  ghost function Callers(m: map<nat, Worker>): set<nat> {
    set w | w in m && m[w] == Getting
  }

  /** Everything ever put is queued, taken or evicted. */
  ghost predicate Conserved(s: System) {
    s.events + |Owing(s.producers)| + s.put == |s.queue| + s.taken + s.dropped + |Uncounted(s.producers)|
  }

  ghost predicate Bounded(cap: nat, s: System) {
    |s.queue| <= cap
  }

  /** After each turn of the sentinel loop one caller fewer can be left without an item. */
  ghost predicate Supplied(s: System) {
    && s.turns <= |s.workers|
    && (!s.cancel ==> s.turns == 0)
    && (s.cancel ==> |Callers(s.workers)| + s.turns <= |s.queue| + |Evictors(s.producers)| + |s.workers|)
  }

  lemma CallersFew(m: map<nat, Worker>)
    ensures |Callers(m)| <= |m|
  {
    assert m.Keys == Callers(m) + (m.Keys - Callers(m));
  }

  lemma SameSize(m: map<nat, Worker>, w: nat, pc: Worker)
    requires w in m
    ensures |m[w := pc]| == |m|
  {
    assert m[w := pc].Keys == m.Keys;
    assert |m[w := pc]| == |m[w := pc].Keys| && |m| == |m.Keys|;
  }

  lemma CallersMove(m: map<nat, Worker>, w: nat, pc: Worker)
    requires w in m
    ensures |Callers(m[w := pc])| ==
      |Callers(m)| - (if m[w] == Getting then 1 else 0) + (if pc == Getting then 1 else 0)
  {
    var rest := Callers(m) - {w};
    assert Callers(m) == if m[w] == Getting then rest + {w} else rest;
    assert Callers(m[w := pc]) == if pc == Getting then rest + {w} else rest;
  }

  function OwingOf(pc: Producer): nat { if pc.CountPut? then 1 else 0 }
  function UncountedOf(pc: Producer): nat { if pc.CountDrop? then 1 else 0 }
  function EvictorOf(pc: Producer): nat { if pc.CountDrop? || pc.PutAgain? then 1 else 0 }

  lemma ProducerLeaves(m: map<nat, Producer>, p: nat)
    requires p in m
    ensures |Owing(m - {p})| == |Owing(m)| - OwingOf(m[p])
    ensures |Uncounted(m - {p})| == |Uncounted(m)| - UncountedOf(m[p])
    ensures |Evictors(m - {p})| == |Evictors(m)| - EvictorOf(m[p])
  {
    hide Owing, Uncounted, Evictors, OwingOf, UncountedOf, EvictorOf;
    OwingLeaves(m, p);
    UncountedLeaves(m, p);
    EvictorsLeave(m, p);
  }

  lemma OwingLeaves(m: map<nat, Producer>, p: nat)
    requires p in m
    ensures |Owing(m - {p})| == |Owing(m)| - OwingOf(m[p])
  {
    assert Owing(m - {p}) == Owing(m) - {p};
  }

  lemma UncountedLeaves(m: map<nat, Producer>, p: nat)
    requires p in m
    ensures |Uncounted(m - {p})| == |Uncounted(m)| - UncountedOf(m[p])
  {
    assert Uncounted(m - {p}) == Uncounted(m) - {p};
  }

  lemma EvictorsLeave(m: map<nat, Producer>, p: nat)
    requires p in m
    ensures |Evictors(m - {p})| == |Evictors(m)| - EvictorOf(m[p])
  {
    assert Evictors(m - {p}) == Evictors(m) - {p};
  }

  lemma ProducerMoves(m: map<nat, Producer>, p: nat, pc: Producer)
    requires p in m
    ensures |Owing(m[p := pc])| == |Owing(m)| - OwingOf(m[p]) + OwingOf(pc)
    ensures |Uncounted(m[p := pc])| == |Uncounted(m)| - UncountedOf(m[p]) + UncountedOf(pc)
    ensures |Evictors(m[p := pc])| == |Evictors(m)| - EvictorOf(m[p]) + EvictorOf(pc)
  {
    ProducerLeaves(m, p);
    ProducerLeaves(m[p := pc], p);
    assert m[p := pc] - {p} == m - {p};
  }

  lemma ProducerArrives(m: map<nat, Producer>, p: nat, e: Item)
    requires p !in m
    ensures Owing(m[p := PutFirst(e)]) == Owing(m)
    ensures Uncounted(m[p := PutFirst(e)]) == Uncounted(m)
    ensures Evictors(m[p := PutFirst(e)]) == Evictors(m)
  {
  }

  ghost predicate Invariant(cap: nat, s: System) {
    Conserved(s) && Bounded(cap, s) && (cap >= |s.workers| ==> Supplied(s))
  }

  /** How one access of a producer changes the three sets. */
  lemma AdvanceCounts(cap: nat, s: System, p: nat)
    requires p in s.producers
    ensures var t := Advanced(cap, s, p);
      var pc, gone := s.producers[p], p !in t.producers;
      && |Owing(t.producers)| + OwingOf(pc) == |Owing(s.producers)| + (if gone then 0 else OwingOf(t.producers[p]))
      && |Uncounted(t.producers)| + UncountedOf(pc) ==
        |Uncounted(s.producers)| + (if gone then 0 else UncountedOf(t.producers[p]))
      && |Evictors(t.producers)| + EvictorOf(pc) ==
        |Evictors(s.producers)| + (if gone then 0 else EvictorOf(t.producers[p]))
  {
    hide Owing, Uncounted, Evictors;
    var t := Advanced(cap, s, p);
    if p in t.producers {
      ProducerMoves(s.producers, p, t.producers[p]);
      assert t.producers == s.producers[p := t.producers[p]];
    } else {
      ProducerLeaves(s.producers, p);
      assert t.producers == s.producers - {p};
    }
  }

  lemma AdvanceKeeps(cap: nat, s: System, p: nat)
    requires Invariant(cap, s) && p in s.producers
    ensures Invariant(cap, Advanced(cap, s, p))
  {
    hide Owing, Uncounted, Evictors, Callers;
    AdvanceCounts(cap, s, p);
    CallersFew(s.workers);
  }

  lemma WorkerStepKeeps(cap: nat, s: System, step: Step)
    requires Invariant(cap, s) && Enabled(s, step)
    requires step.CheckCancel? || step.Get? || step.GoOn? || step.Quit?
    ensures Invariant(cap, Apply(cap, s, step)) && |Apply(cap, s, step).workers| == |s.workers|
  {
    hide Owing, Uncounted, Evictors, Callers;
    var t := Apply(cap, s, step);
    CallersMove(s.workers, step.w, t.workers[step.w]);
    SameSize(s.workers, step.w, t.workers[step.w]);
  }

  lemma InvariantKept(cap: nat, s: System, step: Step)
    requires Invariant(cap, s) && Enabled(s, step)
    ensures Invariant(cap, Apply(cap, s, step)) && |Apply(cap, s, step).workers| == |s.workers|
  {
    hide Owing, Uncounted, Evictors, Callers;
    match step {
      case Arrive(p, id) => ProducerArrives(s.producers, p, Frame(id));
      case Advance(p) => AdvanceKeeps(cap, s, p);
      case SetCancel => CallersFew(s.workers);
      case PutSentinel => CallersFew(s.workers);
      case _ => WorkerStepKeeps(cap, s, step);
    }
  }

  lemma {:induction false} InvariantHolds(cap: nat, run: seq<System>)
    requires IsRun(cap, run)
    ensures Invariant(cap, Last(run)) && |Last(run).workers| == |run[0].workers|
  {
    if |run| == 1 {
      CallersFew(run[0].workers);
      assert Owing(map[]) == {} && Uncounted(map[]) == {};
    } else {
      hide Invariant, Enabled, Apply;
      InvariantHolds(cap, run[..|run| - 1]);
      assert Next(cap, run[|run| - 2], run[|run| - 2 + 1]);
      var s := run[|run| - 2];
      var step :| Enabled(s, step) && Last(run) == Apply(cap, s, step);
      InvariantKept(cap, s, step);
    }
  }

  // ----- Theorems -----

  ghost predicate NoSentinelYet(s: System) {
    !s.cancel ==> s.put == 0
  }

  lemma KeepsSentinels(cap: nat, s: System, step: Step)
    requires Enabled(s, step) && NoSentinelYet(s)
    ensures NoSentinelYet(Apply(cap, s, step))
  {
  }

  lemma {:induction false} SentinelsHold(cap: nat, run: seq<System>)
    requires IsRun(cap, run)
    ensures NoSentinelYet(Last(run))
  {
    hide Enabled, Apply;
    if |run| > 1 {
      SentinelsHold(cap, run[..|run| - 1]);
      assert Next(cap, run[|run| - 2], run[|run| - 2 + 1]);
      var s := run[|run| - 2];
      var step :| Enabled(s, step) && Last(run) == Apply(cap, s, step);
      KeepsSentinels(cap, s, step);
    }
  }

  /** The queue never exceeds its capacity, and with no producer in the middle of an enqueue the counters
      account for every event: before shutdown by themselves, afterwards with the sentinels put. */
  lemma EventsConserved(cap: nat, run: seq<System>)
    requires IsRun(cap, run)
    ensures |Last(run).queue| <= cap
    ensures Last(run).producers == map[] && !Last(run).cancel ==>
      Last(run).events == |Last(run).queue| + Last(run).taken + Last(run).dropped
    ensures Last(run).producers == map[] ==>
      Last(run).events + Last(run).put == |Last(run).queue| + Last(run).taken + Last(run).dropped
  {
    InvariantHolds(cap, run);
    SentinelsHold(cap, run);
    assert Owing(map[]) == {} && Uncounted(map[]) == {};
  }

  /** Shutdown is past its sentinel loop and no producer is between evicting and putting. */
  ghost predicate Drained(s: System) {
    s.cancel && s.turns == |s.workers| && Evictors(s.producers) == {}
  }

  /** After the sentinel loop no worker inside `get` can be left without an item. */
  lemma NoWorkerLeftBlocked(cap: nat, run: seq<System>)
    requires IsRun(cap, run) && cap >= |run[0].workers| && Drained(Last(run))
    ensures |Callers(Last(run).workers)| <= |Last(run).queue|
  {
    InvariantHolds(cap, run);
  }

  ghost predicate AlwaysSupplied(cap: nat, k: nat) {
    forall run: seq<System> :: IsRun(cap, run) && |run[0].workers| == k && Drained(Last(run)) ==>
      |Callers(Last(run).workers)| <= |Last(run).queue|
  }

  /** Shutdown wakes every worker in every run exactly when the queue has room for all sentinels. */
  lemma WakeUpIffRoomForSentinels(cap: nat, k: nat)
    ensures AlwaysSupplied(cap, k) <==> cap >= k
  {
    if cap >= k {
      forall run: seq<System> | IsRun(cap, run) && |run[0].workers| == k && Drained(Last(run))
        ensures |Callers(Last(run).workers)| <= |Last(run).queue|
      {
        NoWorkerLeftBlocked(cap, run);
      }
    } else {
      var run := AllWaiting(cap, k, k);
      run := Take(cap, run, SetCancel);
      run := FillWithSentinels(cap, run, k);
      assert Callers(Last(run).workers) == Last(run).workers.Keys;
      assert Evictors(map[]) == {};
      InvariantHolds(cap, run);
      assert |Last(run).workers| == |Last(run).workers.Keys|;
    }
  }

  function Pool(k: nat): (m: map<nat, Worker>)
    ensures |m| == k && forall w: nat :: w in m <==> w < k
    ensures forall w: nat :: w < k ==> m[w] == Head
  {
    if k == 0 then map[] else Pool(k - 1)[k - 1 := Head]
  }

  lemma Take(cap: nat, run: seq<System>, step: Step) returns (next: seq<System>)
    requires IsRun(cap, run) && Enabled(Last(run), step)
    ensures IsRun(cap, next) && next[0] == run[0] && Last(next) == Apply(cap, Last(run), step)
  {
    var t := Apply(cap, Last(run), step);
    assert Next(cap, Last(run), t);
    next := run + [t];
  }

  /** The first j of k workers have entered `get` on an empty queue. */
  lemma {:induction false} AllWaiting(cap: nat, k: nat, j: nat) returns (run: seq<System>)
    requires j <= k
    ensures IsRun(cap, run) && run[0].workers == Pool(k)
    ensures var s := Last(run); s == run[0].(workers := s.workers) && s.workers.Keys == Pool(k).Keys
    ensures forall w: nat :: w < k ==> Last(run).workers[w] == if w < j then Getting else Head
  {
    if j == 0 {
      run := [System([], map[], Pool(k), 0, 0, 0, 0, false, 0, 0, 0)];
    } else {
      run := AllWaiting(cap, k, j - 1);
      run := Take(cap, run, CheckCancel(j - 1));
    }
  }

  /** j turns of the sentinel loop with nobody taking anything. */
  lemma {:induction false} FillWithSentinels(cap: nat, run: seq<System>, j: nat) returns (next: seq<System>)
    requires IsRun(cap, run) && Last(run).cancel && Last(run).turns == 0 && Last(run).queue == []
    requires j <= |Last(run).workers|
    ensures IsRun(cap, next) && next[0] == run[0]
    ensures var s := Last(next);
      && s.cancel && s.turns == j && |s.queue| <= cap
      && s.workers == Last(run).workers && s.producers == Last(run).producers
  {
    if j == 0 {
      next := run;
    } else {
      next := FillWithSentinels(cap, run, j - 1);
      next := Take(cap, next, PutSentinel);
    }
  }

  // ----- Lost events

  ghost predicate ArrivalsExact(s: System) {
    s.arrived == s.events + s.lost + |s.producers|
  }

  lemma OneFewer(m: map<nat, Producer>, p: nat)
    requires p in m
    ensures |m - {p}| == |m| - 1
  {
    assert (m - {p}).Keys == m.Keys - {p};
    assert |m| == |m.Keys| && |m - {p}| == |(m - {p}).Keys|;
  }

  lemma AsManyProducers(m: map<nat, Producer>, p: nat, pc: Producer)
    requires p in m
    ensures |m[p := pc]| == |m|
  {
    assert m[p := pc].Keys == m.Keys;
    assert |m| == |m.Keys| && |m[p := pc]| == |m[p := pc].Keys|;
  }

  lemma OneMoreProducer(m: map<nat, Producer>, p: nat, pc: Producer)
    requires p !in m
    ensures |m[p := pc]| == |m| + 1
  {
    assert m[p := pc].Keys == m.Keys + {p};
    assert |m| == |m.Keys| && |m[p := pc]| == |m[p := pc].Keys|;
  }

  lemma KeepsArrivals(cap: nat, s: System, step: Step)
    requires Enabled(s, step) && ArrivalsExact(s)
    ensures ArrivalsExact(Apply(cap, s, step))
  {
    hide Advanced;
    match step {
      case Arrive(p, id) => OneMoreProducer(s.producers, p, PutFirst(Frame(id)));
      case Advance(p) => AdvanceArrivals(cap, s, p);
      case _ =>
    }
  }

  lemma AdvanceArrivals(cap: nat, s: System, p: nat)
    requires p in s.producers
    ensures var t := Advanced(cap, s, p);
      t.arrived == s.arrived && t.events + t.lost + |t.producers| == s.events + s.lost + |s.producers|
  {
    OneFewer(s.producers, p);
    match s.producers[p] {
      case PutFirst(e) =>
        AsManyProducers(s.producers, p, CountPut);
        AsManyProducers(s.producers, p, Evict(e));
      case CountPut =>
      case Evict(e) => AsManyProducers(s.producers, p, CountDrop(e));
      case CountDrop(e) => AsManyProducers(s.producers, p, PutAgain(e));
      case PutAgain(e) => AsManyProducers(s.producers, p, CountPut);
    }
  }

  /** In every interleaving each arrived event has been put and counted, was lost, or is still under way. */
  lemma {:induction false} ArrivalsAccounted(cap: nat, run: seq<System>)
    requires IsRun(cap, run)
    ensures Last(run).arrived == Last(run).events + Last(run).lost + |Last(run).producers|
  {
    hide Enabled, Apply;
    if |run| > 1 {
      ArrivalsAccounted(cap, run[..|run| - 1]);
      assert Next(cap, run[|run| - 2], run[|run| - 2 + 1]);
      var s := run[|run| - 2];
      var step :| Enabled(s, step) && Last(run) == Apply(cap, s, step);
      KeepsArrivals(cap, s, step);
    }
  }

  /** Never more than one enqueue under way. */
  ghost predicate OneAtATime(run: seq<System>) {
    forall i :: 0 <= i < |run| ==> |run[i].producers| <= 1
  }

  /** Without workers the accesses of a single enqueue meet the queue they expect. */
  ghost predicate Undisturbed(cap: nat, s: System) {
    && s.lost == 0 && s.workers == map[]
    && forall p :: p in s.producers ==>
      (s.producers[p].Evict? ==> s.queue != []) && (s.producers[p].CountDrop? ==> |s.queue| < cap)
      && (s.producers[p].PutAgain? ==> |s.queue| < cap)
  }

  lemma SameProducer(m: map<nat, Producer>, p: nat, q: nat)
    requires |m| <= 1 && p in m && q in m
    ensures p == q
  {
    if p != q {
      TwoProducers(m, p, q);
    }
  }

  lemma TwoProducers(m: map<nat, Producer>, p: nat, q: nat)
    requires p in m && q in m && p != q
    ensures |m| >= 2
  {
    var both := {p, q};
    assert m.Keys == both + (m.Keys - both) && |both| == 2 && |m| == |m.Keys|;
  }

  lemma KeepsUndisturbed(cap: nat, s: System, step: Step)
    requires cap >= 1 && Enabled(s, step) && Undisturbed(cap, s) && |s.producers| <= 1 && |s.queue| <= cap
    requires |Apply(cap, s, step).producers| <= 1
    ensures Undisturbed(cap, Apply(cap, s, step))
  {
    var t := Apply(cap, s, step);
    assert |s.workers| == 0;
    if step.Advance? {
      forall p | p in t.producers ensures p == step.p {
        SameProducer(s.producers, p, step.p);
      }
    }
  }

  lemma {:induction false} UndisturbedHolds(cap: nat, run: seq<System>)
    requires cap >= 1 && IsRun(cap, run) && OneAtATime(run) && run[0].workers == map[]
    ensures Undisturbed(cap, Last(run))
  {
    hide Enabled, Apply;
    if |run| > 1 {
      var before := run[..|run| - 1];
      UndisturbedHolds(cap, before);
      InvariantHolds(cap, before);
      assert Next(cap, run[|run| - 2], run[|run| - 2 + 1]);
      var s := run[|run| - 2];
      var step :| Enabled(s, step) && Last(run) == Apply(cap, s, step);
      assert |s.producers| <= 1 && |Last(run).producers| <= 1;
      KeepsUndisturbed(cap, s, step);
    }
  }

  lemma Grow(cap: nat, run: seq<System>, step: Step) returns (next: seq<System>)
    requires IsRun(cap, run) && OneAtATime(run) && Enabled(Last(run), step)
    requires |Apply(cap, Last(run), step).producers| <= 1
    ensures IsRun(cap, next) && OneAtATime(next) && next[0] == run[0] && Last(next) == Apply(cap, Last(run), step)
  {
    var t := Apply(cap, Last(run), step);
    assert Next(cap, Last(run), t);
    next := run + [t];
  }

  /** A state between enqueues with n frames queued. */
  ghost predicate Holds(s: System, n: nat) {
    |s.queue| == n && (forall i :: 0 <= i < n ==> s.queue[i] != Sentinel) && s.producers == map[] && !s.cancel
  }

  lemma {:induction false} FillQueue(cap: nat, k: nat, n: nat) returns (run: seq<System>)
    requires n <= cap
    ensures IsRun(cap, run) && OneAtATime(run) && run[0].workers == Pool(k)
    ensures Holds(Last(run), n) && Last(run).workers == Pool(k)
  {
    if n == 0 {
      run := [System([], map[], Pool(k), 0, 0, 0, 0, false, 0, 0, 0)];
    } else {
      run := FillQueue(cap, k, n - 1);
      run := Grow(cap, run, Arrive(0, 0));
      run := Grow(cap, run, Advance(0));
      run := Grow(cap, run, Advance(0));
      assert Last(run).producers == map[];
    }
  }

  /** Worker 0 takes everything while an enqueue waits before its eviction. */
  lemma {:induction false} Drain(cap: nat, run: seq<System>, n: nat) returns (next: seq<System>)
    requires IsRun(cap, run) && OneAtATime(run) && |Last(run).queue| == n && !Last(run).cancel
    requires forall i :: 0 <= i < n ==> Last(run).queue[i] != Sentinel
    requires 0 in Last(run).workers && Last(run).workers[0] == Head
    ensures IsRun(cap, next) && OneAtATime(next) && next[0] == run[0] && Last(next).queue == []
    ensures Last(next).producers == Last(run).producers && Last(next).lost == Last(run).lost
    decreases n
  {
    next := run;
    if n > 0 {
      next := Grow(cap, next, CheckCancel(0));
      next := Grow(cap, next, Get(0));
      next := Grow(cap, next, GoOn(0));
      next := Drain(cap, next, n - 1);
    }
  }

  /** Some run with k workers, one enqueue at a time, loses an event. */
  ghost predicate CanLose(cap: nat, k: nat) {
    exists run: seq<System> :: IsRun(cap, run) && OneAtATime(run) && |run[0].workers| == k && Last(run).lost > 0
  }

  /** With one producer an event can be lost exactly when there is a worker, which may drain the queue
      between the full test and the eviction. */
  lemma LossNeedsWorker(cap: nat, k: nat)
    requires cap >= 1
    ensures CanLose(cap, k) <==> k >= 1
  {
    hide Enabled, Apply;
    if k >= 1 {
      var run := LoseToWorker(cap, k);
    } else if CanLose(cap, k) {
      var run: seq<System> :| IsRun(cap, run) && OneAtATime(run) && |run[0].workers| == k && Last(run).lost > 0;
      assert run[0].workers == map[];
      UndisturbedHolds(cap, run);
    }
  }

  lemma LoseToWorker(cap: nat, k: nat) returns (run: seq<System>)
    requires cap >= 1 && k >= 1
    ensures IsRun(cap, run) && OneAtATime(run) && |run[0].workers| == k && Last(run).lost > 0
  {
    run := FillQueue(cap, k, cap);
    run := Grow(cap, run, Arrive(0, 1));
    run := Grow(cap, run, Advance(0));
    run := Drain(cap, run, cap);
    run := Grow(cap, run, Advance(0));
  }

  /** Two producers lose an event without any worker: one fills the place the other has just made. */
  lemma LoseToProducer(cap: nat) returns (run: seq<System>)
    requires cap >= 1
    ensures IsRun(cap, run) && run[0].workers == map[] && Last(run).lost > 0
  {
    run := FillQueue(cap, 0, cap);
    run := Take(cap, run, Arrive(0, 1));
    run := Take(cap, run, Advance(0));
    run := Take(cap, run, Advance(0));
    run := Take(cap, run, Advance(0));
    run := Take(cap, run, Arrive(1, 2));
    run := Take(cap, run, Advance(1));
    run := Take(cap, run, Advance(0));
  }

  // ----- Order and identity of the events

  /** What was put into the queue over a run, read off its lengths, in order. */
  ghost function Ins(run: seq<System>): seq<Item>
    decreases |run|
  {
    if |run| <= 1 then []
    else
      var q, r := run[|run| - 2].queue, run[|run| - 1].queue;
      Ins(run[..|run| - 1]) + if |r| > |q| then [r[|r| - 1]] else []
  }

  /** What stood at the head of the queue whenever it became shorter, in order. */
  ghost function Outs(run: seq<System>): seq<Item>
    decreases |run|
  {
    if |run| <= 1 then []
    else
      var q, r := run[|run| - 2].queue, run[|run| - 1].queue;
      Outs(run[..|run| - 1]) + if |r| < |q| then [q[0]] else []
  }

  lemma QueueStep(cap: nat, s: System, step: Step)
    requires Enabled(s, step)
    ensures var q, r := s.queue, Apply(cap, s, step).queue;
      r == q || (|r| == |q| + 1 && r == q + [r[|q|]]) || (q != [] && r == q[1..])
  {
  }

  /** In every interleaving, shutdown included, the queue is first in, first out: what left it, by a worker or by
      an eviction, followed by what it holds, is what was put, in the order in which it was put. */
  lemma {:induction false} FirstInFirstOut(cap: nat, run: seq<System>)
    requires IsRun(cap, run)
    ensures Ins(run) == Outs(run) + Last(run).queue
  {
    hide Enabled, Apply;
    if |run| > 1 {
      FirstInFirstOut(cap, run[..|run| - 1]);
      assert Next(cap, run[|run| - 2], run[|run| - 2 + 1]);
      var s := run[|run| - 2];
      var step :| Enabled(s, step) && Last(run) == Apply(cap, s, step);
      QueueStep(cap, s, step);
    }
  }

  /** A run together with the step taken from each of its states. */
  ghost predicate IsTrace(cap: nat, run: seq<System>, steps: seq<Step>) {
    && |run| == |steps| + 1 && IsInitial(run[0])
    && forall i :: 0 <= i < |steps| ==> Enabled(run[i], steps[i]) && run[i + 1] == Apply(cap, run[i], steps[i])
  }

  /** The event with which producer `p` came last. */
  function LastArrival(steps: seq<Step>, p: nat): Option<int> {
    if steps == [] then None
    else if steps[|steps| - 1].Arrive? && steps[|steps| - 1].p == p then Some(steps[|steps| - 1].id)
    else LastArrival(steps[..|steps| - 1], p)
  }

  /** A producer that has still to put its event carries the one it came with. */
  ghost predicate Carries(steps: seq<Step>, p: nat, pc: Producer) {
    !pc.CountPut? ==> LastArrival(steps, p).Some? && pc.item == Frame(LastArrival(steps, p).value)
  }

  lemma CarriesStep(cap: nat, s: System, steps: seq<Step>, step: Step, p: nat)
    requires Enabled(s, step) && p in Apply(cap, s, step).producers
    requires p in s.producers ==> Carries(steps, p, s.producers[p])
    ensures Carries(steps + [step], p, Apply(cap, s, step).producers[p])
  {
    assert (steps + [step])[..|steps|] == steps;
    if step.Arrive? && step.p == p {
      assert Apply(cap, s, step).producers[p] == PutFirst(Frame(step.id));
    } else {
      KeepsItem(cap, s, step, p);
      hide Enabled, Apply;
    }
  }

  lemma KeepsItem(cap: nat, s: System, step: Step, p: nat)
    requires Enabled(s, step) && !(step.Arrive? && step.p == p) && p in Apply(cap, s, step).producers
    ensures p in s.producers
    ensures var pc, next := s.producers[p], Apply(cap, s, step).producers[p];
      !next.CountPut? ==> !pc.CountPut? && next.item == pc.item
  {
  }

  lemma {:induction false} CarriesOwn(cap: nat, run: seq<System>, steps: seq<Step>, p: nat)
    requires IsTrace(cap, run, steps) && p in Last(run).producers
    ensures Carries(steps, p, Last(run).producers[p])
  {
    if steps != [] {
      var n := |steps| - 1;
      assert Enabled(run[n], steps[n]) && run[n + 1] == Apply(cap, run[n], steps[n]);
      if p in run[n].producers {
        CarriesOwn(cap, run[..n + 1], steps[..n], p);
      }
      CarriesStep(cap, run[n], steps[..n], steps[n], p);
      assert steps == steps[..n] + [steps[n]];
    }
  }

  /** What is put is what came: a producer puts the event it arrived with, the shutdown puts sentinels, and nothing
      else is ever put, all only while there is room. What a worker gets is the head of the queue; a frame is for
      its sample, a sentinel ends it. */
  lemma PutsAndGets(cap: nat, run: seq<System>, steps: seq<Step>, i: nat)
    requires IsTrace(cap, run, steps) && i < |steps|
    ensures var s, t := run[i], run[i + 1];
      && (|t.queue| > |s.queue| ==>
          |s.queue| < cap && (steps[i].Advance? || steps[i].PutSentinel?) && t.queue == s.queue + [PutBy(steps, i)])
      && (steps[i].PutSentinel? && |s.queue| < cap ==> |t.queue| > |s.queue|)
      && (steps[i].Get? ==> (
          && s.queue != [] && t.queue == s.queue[1..]
          && t.workers == s.workers[steps[i].w := if s.queue[0] == Sentinel then Gone else Holding]))
  {
    assert Enabled(run[i], steps[i]) && run[i + 1] == Apply(cap, run[i], steps[i]);
    ItemPut(cap, run[i], steps[i]);
    if steps[i].Advance? {
      CarriesOwn(cap, run[..i + 1], steps[..i], steps[i].p);
      hide Enabled, Apply;
    }
  }

  /** What step `i` may put. */
  function PutBy(steps: seq<Step>, i: nat): Item
    requires i < |steps|
  {
    match steps[i]
    case Advance(p) => Frame(LastArrival(steps[..i], p).GetOr(0))
    case _ => Sentinel
  }

  lemma ItemPut(cap: nat, s: System, step: Step)
    requires Enabled(s, step)
    ensures var t := Apply(cap, s, step);
      |t.queue| > |s.queue| ==> (
          && |s.queue| < cap && (step.Advance? || step.PutSentinel?)
          && (step.Advance? ==> !s.producers[step.p].CountPut? && t.queue == s.queue + [s.producers[step.p].item])
          && (step.PutSentinel? ==> t.queue == s.queue + [Sentinel]))
  {
  }

  lemma GoneStays(cap: nat, s: System, step: Step, w: nat)
    requires Enabled(s, step) && w in s.workers && s.workers[w] == Gone
    ensures w in Apply(cap, s, step).workers && Apply(cap, s, step).workers[w] == Gone
  {
  }

  /** A worker that has taken a sentinel, or met the cancel mark at its loop test, never takes anything again. */
  lemma {:induction false} EndedWorkerStays(cap: nat, run: seq<System>, steps: seq<Step>, i: nat, w: nat)
    requires IsTrace(cap, run, steps) && i < |steps|
    requires || (steps[i] == Get(w) && run[i].queue != [] && run[i].queue[0] == Sentinel)
             || (steps[i] == CheckCancel(w) && run[i].cancel)
    ensures w in Last(run).workers && Last(run).workers[w] == Gone
  {
    hide Enabled, Apply;
    var n := |steps| - 1;
    assert Enabled(run[n], steps[n]) && run[n + 1] == Apply(cap, run[n], steps[n]);
    if i < n {
      EndedWorkerStays(cap, run[..n + 1], steps[..n], i, w);
      GoneStays(cap, run[n], steps[n], w);
    } else {
      WorkerEnds(cap, run[n], steps[n], w);
    }
  }

  lemma WorkerEnds(cap: nat, s: System, step: Step, w: nat)
    requires Enabled(s, step)
    requires || (step == Get(w) && s.queue != [] && s.queue[0] == Sentinel)
             || (step == CheckCancel(w) && s.cancel)
    ensures w in Apply(cap, s, step).workers && Apply(cap, s, step).workers[w] == Gone
  {
  }
}
