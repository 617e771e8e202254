/** The DAG scheduler (dag.py, DagExecutor.run_sample). */
module DagExecutor {
  import opened Graphs
  import opened PipelineConfig

  // Node futures finish in any order and in any non-empty batch with any outcome. The machine `Exec`/`Next` gives
  // one step per scheduler action; the method `RunSample` is the loop itself and every execution of it is a run.

  datatype NodeResult = ResultOk | SkipSample | FailSample | FailSession | CancelSession

  datatype Event = Submitted(node: Id) | Finished(node: Id, status: NodeResult)

  /** The scheduler's variables; `done` is the batch returned by the last wait that is still
      to be processed, `log` the order of submissions and completions. */
  datatype Exec = Exec(
    completed: set<Id>, ready: seq<Id>, outcomes: map<Id, NodeResult>, cancel: bool, final: NodeResult,
    futures: multiset<Id>, done: multiset<Id>, log: seq<Event>)

  // ----- The machine -----

  function Initial(p: Pipeline): Exec {
    Exec({}, [p.start], map[], false, ResultOk, multiset{}, multiset{}, [])
  }

  predicate PredsOk(p: Pipeline, completed: set<Id>, outcomes: map<Id, NodeResult>, n: Id) {
    forall u :: u in Out(p.pred, n) ==> u in completed && u in outcomes && outcomes[u] == ResultOk
  }

  /** The successor entries that become ready, in list order and with their multiplicity. */
  function Released(p: Pipeline, completed: set<Id>, outcomes: map<Id, NodeResult>, succs: seq<Id>): seq<Id> {
    if succs == [] then []
    else
      var rest := Released(p, completed, outcomes, succs[..|succs| - 1]);
      var s := succs[|succs| - 1];
      if s !in completed && PredsOk(p, completed, outcomes, s) then rest + [s] else rest
  }

  function Submit(s: Exec): Exec
    requires s.ready != []
  {
    s.(ready := s.ready[1..], futures := s.futures + multiset{s.ready[0]},
       log := s.log + [Submitted(s.ready[0])])
  }

  function Finish(p: Pipeline, s: Exec, n: Id, o: NodeResult): Exec {
    var completed, outcomes := s.completed + {n}, s.outcomes[n := o];
    var t := s.(completed := completed, outcomes := outcomes,
                done := s.done - multiset{n}, log := s.log + [Finished(n, o)]);
    if o != ResultOk then t.(cancel := true, final := o)
    else t.(final := if n == p.end then o else s.final,
            ready := s.ready + Released(p, completed, outcomes, Out(p.succ, n)))
  }

  ghost predicate CanSubmit(s: Exec) {
    s.done == multiset{} && !s.cancel && s.ready != []
  }

  ghost predicate CanWait(s: Exec, batch: multiset<Id>) {
    && s.done == multiset{} && (s.ready == [] || s.cancel)
    && batch != multiset{} && batch <= s.futures
  }

  function Wait(s: Exec, batch: multiset<Id>): Exec {
    s.(futures := s.futures - batch, done := batch)
  }

  ghost predicate Next(p: Pipeline, s: Exec, t: Exec) {
    || (CanSubmit(s) && t == Submit(s))
    || (exists batch :: CanWait(s, batch) && t == Wait(s, batch))
    || (exists n, o :: n in s.done && t == Finish(p, s, n, o))
  }

  ghost predicate Terminal(s: Exec) {
    s.done == multiset{} && s.futures == multiset{} && (s.ready == [] || s.cancel)
  }

  ghost predicate IsRun(p: Pipeline, run: seq<Exec>) {
    && |run| > 0 && run[0] == Initial(p)
    && forall i :: 0 <= i < |run| - 1 ==> Next(p, run[i], run[i + 1])
  }

  function Last(run: seq<Exec>): Exec
    requires |run| > 0
  {
    run[|run| - 1]
  }

  ghost predicate Reachable(p: Pipeline, s: Exec) {
    exists run :: IsRun(p, run) && Last(run) == s
  }

  lemma ExtendRun(p: Pipeline, run: seq<Exec>, t: Exec)
    requires IsRun(p, run) && Next(p, Last(run), t)
    ensures IsRun(p, run + [t]) && Last(run + [t]) == t
  {
  }

  lemma ReachableNext(p: Pipeline, s: Exec, t: Exec)
    requires Reachable(p, s) && Next(p, s, t)
    ensures Reachable(p, t)
  {
    var run :| IsRun(p, run) && Last(run) == s;
    ExtendRun(p, run, t);
  }

  // ----- What the log records -----

  ghost function SubmittedOf(log: seq<Event>): multiset<Id> {
    if log == [] then multiset{}
    else
      var rest := SubmittedOf(log[..|log| - 1]);
      match log[|log| - 1]
      case Submitted(n) => rest + multiset{n}
      case Finished(_, _) => rest
  }

  ghost function FinishedOf(log: seq<Event>): multiset<Id> {
    if log == [] then multiset{}
    else
      var rest := FinishedOf(log[..|log| - 1]);
      match log[|log| - 1]
      case Submitted(_) => rest
      case Finished(n, _) => rest + multiset{n}
  }

  /** Some node of the sample has reported something other than OK. */
  ghost predicate SomeNotOk(log: seq<Event>) {
    exists e :: e in log && e.Finished? && e.status != ResultOk
  }

  /** Every node of the pipeline ran and every report was OK. */
  ghost predicate EveryNodeOk(p: Pipeline, log: seq<Event>) {
    (forall n :: n in p.nodes ==> Finished(n, ResultOk) in log) && !SomeNotOk(log)
  }

  lemma LogAppend(log: seq<Event>, e: Event)
    ensures SubmittedOf(log + [e]) == SubmittedOf(log) + (if e.Submitted? then multiset{e.node} else multiset{})
    ensures FinishedOf(log + [e]) == FinishedOf(log) + (if e.Finished? then multiset{e.node} else multiset{})
    ensures SomeNotOk(log + [e]) <==> SomeNotOk(log) || (e.Finished? && e.status != ResultOk)
  {
    assert (log + [e])[..|log|] == log;
    assert forall x :: x in log + [e] <==> x in log || x == e;
  }

  lemma {:induction false} CountsCover(log: seq<Event>, e: Event)
    requires e in log
    ensures e.Submitted? ==> SubmittedOf(log)[e.node] >= 1
    ensures e.Finished? ==> FinishedOf(log)[e.node] >= 1
  {
    var rest, last := log[..|log| - 1], log[|log| - 1];
    assert log == rest + [last];
    if last != e {
      CountsCover(rest, e);
    }
  }

  lemma {:induction false} TwoReports(log: seq<Event>, n: Id, a: NodeResult, b: NodeResult)
    requires Finished(n, a) in log && Finished(n, b) in log && a != b
    ensures FinishedOf(log)[n] >= 2
  {
    var rest, last := log[..|log| - 1], log[|log| - 1];
    assert log == rest + [last];
    if last == Finished(n, a) {
      CountsCover(rest, Finished(n, b));
    } else if last == Finished(n, b) {
      CountsCover(rest, Finished(n, a));
    } else {
      TwoReports(rest, n, a, b);
    }
  }

  lemma {:induction false} ReleasedCount(p: Pipeline, completed: set<Id>, outcomes: map<Id, NodeResult>,
                                         succs: seq<Id>, v: Id)
    ensures multiset(Released(p, completed, outcomes, succs))[v] ==
      if v !in completed && PredsOk(p, completed, outcomes, v) then multiset(succs)[v] else 0
  {
    if succs != [] {
      var rest, last := succs[..|succs| - 1], succs[|succs| - 1];
      assert succs == rest + [last];
      ReleasedCount(p, completed, outcomes, rest, v);
    }
  }

  lemma ReleasedMember(p: Pipeline, completed: set<Id>, outcomes: map<Id, NodeResult>, succs: seq<Id>, v: Id)
    ensures v in Released(p, completed, outcomes, succs) <==>
      v in succs && v !in completed && PredsOk(p, completed, outcomes, v)
  {
    ReleasedCount(p, completed, outcomes, succs, v);
    assert v in Released(p, completed, outcomes, succs) <==>
      multiset(Released(p, completed, outcomes, succs))[v] > 0;
    assert v in succs <==> multiset(succs)[v] > 0;
  }

  // ----- Invariant 1: bookkeeping, for every well-formed pipeline -----

  /** Submissions are exactly the completions plus what is still out. */
  ghost predicate Accounted(s: Exec) {
    SubmittedOf(s.log) == FinishedOf(s.log) + s.futures + s.done
  }

  ghost predicate OutcomesLogged(s: Exec) {
    && s.outcomes.Keys == s.completed
    && (forall n :: n in s.completed ==> Finished(n, s.outcomes[n]) in s.log)
    && (forall e :: e in s.log && e.Finished? ==> e.node in s.completed)
    && (s.cancel <==> SomeNotOk(s.log))
  }

  /** All direct predecessors of `v` have reported OK within `log`. */
  ghost predicate PredsReported(p: Pipeline, v: Id, log: seq<Event>) {
    forall u :: u in Out(p.pred, v) ==> Finished(u, ResultOk) in log
  }

  ghost predicate ReadyReported(p: Pipeline, s: Exec) {
    forall v :: v in s.ready ==> PredsReported(p, v, s.log)
  }

  /** What holds at each log position of what came before it. */
  ghost predicate Justified(p: Pipeline, e: Event, before: seq<Event>) {
    match e
    case Submitted(v) => PredsReported(p, v, before) && !SomeNotOk(before)
    case Finished(v, _) => Submitted(v) in before
  }

  ghost predicate LogJustified(p: Pipeline, log: seq<Event>) {
    forall i {:trigger log[..i]} :: 0 <= i < |log| ==> Justified(p, log[i], log[..i])
  }

  /** Every node that is still out, or waiting to be processed, has been submitted. */
  ghost predicate OutSubmitted(s: Exec) {
    forall n :: n in s.futures || n in s.done ==> Submitted(n) in s.log
  }

  ghost predicate Inside(p: Pipeline, s: Exec) {
    && (forall v :: v in s.ready ==> v in p.nodes)
    && (forall e :: e in s.log ==> e.node in p.nodes)
  }

  ghost predicate Books(p: Pipeline, s: Exec) {
    && Inside(p, s) && Accounted(s) && OutcomesLogged(s) && ReadyReported(p, s)
    && LogJustified(p, s.log) && OutSubmitted(s)
  }

  lemma LogJustifiedAppend(p: Pipeline, log: seq<Event>, e: Event)
    requires LogJustified(p, log) && Justified(p, e, log)
    ensures LogJustified(p, log + [e])
  {
    var longer := log + [e];
    forall i {:trigger longer[..i]} | 0 <= i < |longer| ensures Justified(p, longer[i], longer[..i]) {
      if i < |log| {
        assert longer[..i] == log[..i];
      } else {
        assert longer[..i] == log;
      }
    }
  }

  lemma ReadyStaysReported(p: Pipeline, ready: seq<Id>, log: seq<Event>, e: Event)
    requires forall v :: v in ready ==> PredsReported(p, v, log)
    ensures forall v :: v in ready ==> PredsReported(p, v, log + [e])
  {
  }

  lemma BooksSubmit(p: Pipeline, s: Exec)
    requires Books(p, s) && CanSubmit(s)
    ensures Books(p, Submit(s))
  {
    var n, t := s.ready[0], Submit(s);
    LogAppend(s.log, Submitted(n));
    assert n in s.ready;
    LogJustifiedAppend(p, s.log, Submitted(n));
    ReadyStaysReported(p, s.ready, s.log, Submitted(n));
    assert ReadyReported(p, t);
  }

  lemma FinishFields(p: Pipeline, s: Exec, n: Id, o: NodeResult)
    ensures var t := Finish(p, s, n, o);
      && t.log == s.log + [Finished(n, o)] && t.completed == s.completed + {n}
      && t.outcomes == s.outcomes[n := o] && t.cancel == (s.cancel || o != ResultOk)
  {
  }

  lemma OutcomesFinish(p: Pipeline, s: Exec, n: Id, o: NodeResult)
    requires OutcomesLogged(s)
    ensures OutcomesLogged(Finish(p, s, n, o))
  {
    hide Finish;
    var t, e := Finish(p, s, n, o), Finished(n, o);
    FinishFields(p, s, n, o);
    LogAppend(s.log, e);
    forall x | x in t.completed ensures Finished(x, t.outcomes[x]) in t.log {
      assert x == n || x in s.completed;
    }
  }

  lemma ReadyFinish(p: Pipeline, s: Exec, n: Id, o: NodeResult)
    requires OutcomesLogged(s) && ReadyReported(p, s)
    ensures ReadyReported(p, Finish(p, s, n, o))
  {
    var t := Finish(p, s, n, o);
    OutcomesFinish(p, s, n, o);
    ReadyStaysReported(p, s.ready, s.log, Finished(n, o));
    if o == ResultOk {
      var newly := Released(p, t.completed, t.outcomes, Out(p.succ, n));
      forall v | v in newly ensures PredsReported(p, v, t.log) {
        ReleasedMember(p, t.completed, t.outcomes, Out(p.succ, n), v);
      }
    }
  }

  lemma InsideFinish(p: Pipeline, s: Exec, n: Id, o: NodeResult)
    requires WellFormed(p) && Books(p, s) && n in s.done
    ensures Inside(p, Finish(p, s, n, o))
  {
    var t := Finish(p, s, n, o);
    assert Submitted(n) in s.log;
    if o == ResultOk {
      var newly := Released(p, t.completed, t.outcomes, Out(p.succ, n));
      forall v | v in newly ensures v in p.nodes {
        ReleasedMember(p, t.completed, t.outcomes, Out(p.succ, n), v);
      }
    }
  }

  lemma BooksFinish(p: Pipeline, s: Exec, n: Id, o: NodeResult)
    requires WellFormed(p) && Books(p, s) && n in s.done
    ensures Books(p, Finish(p, s, n, o))
  {
    hide OutcomesLogged, ReadyReported, Released, Inside;
    InsideFinish(p, s, n, o);
    LogAppend(s.log, Finished(n, o));
    LogJustifiedAppend(p, s.log, Finished(n, o));
    OutcomesFinish(p, s, n, o);
    ReadyFinish(p, s, n, o);
    assert s.done - multiset{n} + multiset{n} == s.done;
  }

  /** The bookkeeping holds in every state of every run, cyclic graphs included, if start has no predecessor. */
  lemma {:induction false} BooksHold(p: Pipeline, run: seq<Exec>)
    requires IsRun(p, run) && WellFormed(p) && Out(p.pred, p.start) == []
    ensures Books(p, Last(run))
  {
    if |run| > 1 {
      var before := run[..|run| - 1];
      BooksHold(p, before);
      var s, t := Last(before), Last(run);
      assert Next(p, run[|run| - 2], run[|run| - 2 + 1]);
      if CanSubmit(s) && t == Submit(s) {
        BooksSubmit(p, s);
      } else if batch :| CanWait(s, batch) && t == Wait(s, batch) {
      } else {
        var n, o :| n in s.done && t == Finish(p, s, n, o);
        BooksFinish(p, s, n, o);
      }
    }
  }

  // ----- Ordering theorems -----

  lemma ReportedEarlier(log: seq<Event>, i: nat, e: Event) returns (j: nat)
    requires i <= |log| && e in log[..i]
    ensures j < i && log[j] == e
  {
    j :| 0 <= j < i && log[..i][j] == e;
  }

  /** In a justified log every transitive predecessor has reported OK before a node is submitted. */
  lemma {:induction false} AncestorsReported(p: Pipeline, log: seq<Event>, i: nat, u: Id, v: Id)
    requires WellFormed(p) && LogJustified(p, log)
    requires i < |log| && log[i] == Submitted(v) && ReachesProperly(p.succ, u, v)
    ensures Finished(u, ResultOk) in log[..i]
    decreases i
  {
    assert Justified(p, log[i], log[..i]);
    var w := LastEdge(p.succ, u, v);
    MirroredEdge(p.succ, p.pred, w, v);
    if u != w {
      var j := ReportedEarlier(log, i, Finished(w, ResultOk));
      assert Justified(p, log[j], log[..j]);
      var k := ReportedEarlier(log, j, Submitted(w));
      AncestorsReported(p, log, k, u, w);
      assert log[..k] <= log[..i];
    }
  }

  lemma SubmittedMeansAncestorsDone(p: Pipeline, log: seq<Event>, u: Id, v: Id)
    requires WellFormed(p) && LogJustified(p, log)
    requires Submitted(v) in log && ReachesProperly(p.succ, u, v)
    ensures Finished(u, ResultOk) in log
  {
    var i :| 0 <= i < |log| && log[i] == Submitted(v);
    AncestorsReported(p, log, i, u, v);
  }

  /** In every run, accepted graph or not, a node is submitted only after every transitive predecessor has
      reported OK. */
  lemma SubmittedAfterAncestors(p: Pipeline, run: seq<Exec>, i: nat, u: Id, v: Id)
    requires IsRun(p, run) && WellFormed(p) && Out(p.pred, p.start) == []
    requires i < |Last(run).log| && Last(run).log[i] == Submitted(v) && ReachesProperly(p.succ, u, v)
    ensures Finished(u, ResultOk) in Last(run).log[..i]
  {
    BooksHold(p, run);
    AncestorsReported(p, Last(run).log, i, u, v);
  }

  /** Once a node has reported something other than OK, nothing more is submitted. */
  lemma NothingSubmittedAfterFailure(p: Pipeline, run: seq<Exec>, i: nat, j: nat)
    requires Accepted(p) && IsRun(p, run) && i < j < |Last(run).log|
    requires Last(run).log[i].Finished? && Last(run).log[i].status != ResultOk
    ensures Last(run).log[j].Finished?
  {
    StartIsOnlySource(p, p.start);
    BooksHold(p, run);
    var log := Last(run).log;
    assert Justified(p, log[j], log[..j]);
    assert log[i] in log[..j];
  }

  /** Every submitted node is collected before the sample ends. */
  lemma EverySubmissionCollected(p: Pipeline, run: seq<Exec>)
    requires Accepted(p) && IsRun(p, run) && Terminal(Last(run))
    ensures SubmittedOf(Last(run).log) == FinishedOf(Last(run).log)
  {
    StartIsOnlySource(p, p.start);
    BooksHold(p, run);
  }

  // ----- At most once -----

  /** A repeated edge whose source can be the last predecessor of its target to finish. */
  ghost predicate LiveDuplicate(p: Pipeline, u: Id, v: Id) {
    && multiset(Out(p.succ, u))[v] >= 2
    && forall w :: w in Out(p.pred, v) && w != u ==> !Reaches(p.succ, u, w)
  }

  ghost predicate NoLiveDuplicate(p: Pipeline) {
    forall u, v :: !LiveDuplicate(p, u, v)
  }

  /** Pipelines whose edge list repeats no pair have no live duplicate. */
  lemma DistinctEdgesAreSafe(p: Pipeline, edges: seq<(Id, Id)>)
    requires Tabulates(p.succ, edges)
    requires forall i, j :: 0 <= i < j < |edges| ==> edges[i] != edges[j]
    ensures NoLiveDuplicate(p)
  {
    forall u, v ensures multiset(Out(p.succ, u))[v] <= 1 {
      TargetsCount(edges, u, v);
      DistinctCount(edges, (u, v));
    }
  }

  lemma {:induction false} DistinctCount(edges: seq<(Id, Id)>, e: (Id, Id))
    requires forall i, j :: 0 <= i < j < |edges| ==> edges[i] != edges[j]
    ensures multiset(edges)[e] <= 1
  {
    if edges != [] {
      var rest := edges[..|edges| - 1];
      assert edges == rest + [edges[|edges| - 1]];
      DistinctCount(rest, e);
      if edges[|edges| - 1] == e {
        assert e !in rest;
        assert e in multiset(rest) <==> e in rest;
      }
    }
  }

  ghost function Tokens(s: Exec, v: Id): nat {
    multiset(s.ready)[v] + SubmittedOf(s.log)[v]
  }

  ghost predicate Once(s: Exec) {
    forall v :: Tokens(s, v) <= 1
  }

  /** A node still out has not reported yet, when every node is submitted at most once. */
  lemma OutMeansUnreported(s: Exec, n: Id)
    requires Accounted(s) && Once(s) && (n in s.done || n in s.futures)
    ensures forall o :: Finished(n, o) !in s.log
  {
    assert Tokens(s, n) <= 1;
    if o :| Finished(n, o) in s.log {
      CountsCover(s.log, Finished(n, o));
      assert false;
    }
  }

  /** A node released by the completion of `n` holds no token yet. */
  lemma ReleasedIsNew(p: Pipeline, s: Exec, n: Id, v: Id)
    requires WellFormed(p) && Books(p, s) && Once(s) && n in s.done && v in Out(p.succ, n)
    ensures Tokens(s, v) == 0
  {
    OutMeansUnreported(s, n);
    MirroredEdge(p.succ, p.pred, n, v);
    assert v in s.ready ==> PredsReported(p, v, s.log);
    assert v in s.ready ==> Finished(n, ResultOk) in s.log;
    if Submitted(v) in s.log {
      ReachesSelf(p.succ, n);
      ReachesByEdge(p.succ, n, n, v);
      SubmittedMeansAncestorsDone(p, s.log, n, v);
      assert false;
    }
    NoSubmissionNoCount(s.log, v);
    assert v in multiset(s.ready) <==> v in s.ready;
  }

  lemma {:induction false} NoSubmissionNoCount(log: seq<Event>, v: Id)
    requires Submitted(v) !in log
    ensures SubmittedOf(log)[v] == 0
  {
    if log != [] {
      var rest, last := log[..|log| - 1], log[|log| - 1];
      assert log == rest + [last];
      NoSubmissionNoCount(rest, v);
    }
  }

  /** Without live duplicates a completion releases each successor at most once. */
  lemma ReleasedOnce(p: Pipeline, s: Exec, n: Id, v: Id)
    requires WellFormed(p) && NoLiveDuplicate(p) && Books(p, s) && Once(s) && n in s.done
    ensures var t := Finish(p, s, n, ResultOk);
      multiset(Released(p, t.completed, t.outcomes, Out(p.succ, n)))[v] <= 1
  {
    var t := Finish(p, s, n, ResultOk);
    ReleasedCount(p, t.completed, t.outcomes, Out(p.succ, n), v);
    OutMeansUnreported(s, n);
    if PredsOk(p, t.completed, t.outcomes, v) && multiset(Out(p.succ, n))[v] >= 2 {
      assert !LiveDuplicate(p, n, v);
      var w :| w in Out(p.pred, v) && w != n && Reaches(p.succ, n, w);
      assert w in s.completed && Finished(w, s.outcomes[w]) in s.log;
      var i :| 0 <= i < |s.log| && s.log[i] == Finished(w, s.outcomes[w]);
      assert Justified(p, s.log[i], s.log[..i]);
      SubmittedMeansAncestorsDone(p, s.log, n, w);
      assert false;
    }
  }

  lemma OnceFinish(p: Pipeline, s: Exec, n: Id, o: NodeResult)
    requires WellFormed(p) && NoLiveDuplicate(p) && Books(p, s) && Once(s) && n in s.done
    ensures Once(Finish(p, s, n, o))
  {
    var t := Finish(p, s, n, o);
    LogAppend(s.log, Finished(n, o));
    forall v ensures Tokens(t, v) <= 1 {
      assert Tokens(s, v) <= 1;
      if o == ResultOk {
        var newly := Released(p, t.completed, t.outcomes, Out(p.succ, n));
        assert multiset(t.ready)[v] == multiset(s.ready)[v] + multiset(newly)[v];
        ReleasedOnce(p, s, n, v);
        ReleasedMember(p, t.completed, t.outcomes, Out(p.succ, n), v);
        assert v in newly <==> multiset(newly)[v] > 0;
        if v in newly {
          ReleasedIsNew(p, s, n, v);
        }
      }
    }
  }

  lemma OnceSubmit(s: Exec)
    requires Once(s) && CanSubmit(s)
    ensures Once(Submit(s))
  {
    var t := Submit(s);
    LogAppend(s.log, Submitted(s.ready[0]));
    assert s.ready == [s.ready[0]] + t.ready;
    forall v ensures Tokens(t, v) == Tokens(s, v) {
      assert multiset(s.ready)[v] == multiset([s.ready[0]])[v] + multiset(t.ready)[v];
    }
    forall v ensures Tokens(t, v) <= 1 {
      assert Tokens(s, v) <= 1;
    }
  }

  lemma OnceStep(p: Pipeline, s: Exec, t: Exec)
    requires WellFormed(p) && NoLiveDuplicate(p) && Books(p, s) && Once(s) && Next(p, s, t)
    ensures Once(t)
  {
    hide Books, WellFormed, NoLiveDuplicate, Finish;
    if CanSubmit(s) && t == Submit(s) {
      OnceSubmit(s);
    } else if batch :| CanWait(s, batch) && t == Wait(s, batch) {
      assert forall v :: Tokens(t, v) == Tokens(s, v);
    } else {
      var n, o :| n in s.done && t == Finish(p, s, n, o);
      OnceFinish(p, s, n, o);
    }
  }

  lemma {:induction false} OnceHolds(p: Pipeline, run: seq<Exec>)
    requires IsRun(p, run) && Accepted(p) && NoLiveDuplicate(p)
    ensures Once(Last(run))
  {
    hide Books, Next, NoLiveDuplicate, Once, GoodGraph;
    if |run| == 1 {
      OnceInitially(p);
    } else {
      var before := run[..|run| - 1];
      StartIsOnlySource(p, p.start);
      BooksHold(p, before);
      OnceHolds(p, before);
      assert Next(p, run[|run| - 2], run[|run| - 2 + 1]);
      OnceStep(p, Last(before), Last(run));
    }
  }

  lemma OnceInitially(p: Pipeline)
    ensures Once(Initial(p))
  {
  }

  /** In every run of an accepted pipeline without live duplicates, each node is submitted at most once. */
  lemma SubmittedAtMostOnce(p: Pipeline, run: seq<Exec>, v: Id)
    requires IsRun(p, run) && Accepted(p) && NoLiveDuplicate(p)
    ensures SubmittedOf(Last(run).log)[v] <= 1
  {
    OnceHolds(p, run);
    assert Tokens(Last(run), v) <= 1;
  }

  // ----- The outcome of a sample -----

  /** While nothing has failed, a node whose predecessors are complete is on its way or done. */
  ghost predicate OnItsWay(s: Exec, v: Id) {
    v in s.completed || v in s.ready || v in s.futures || v in s.done
  }

  ghost predicate PredsComplete(p: Pipeline, s: Exec, v: Id) {
    forall u {:trigger u in Out(p.pred, v)} :: u in Out(p.pred, v) ==> u in s.completed
  }

  ghost predicate Progress(p: Pipeline, s: Exec) {
    !s.cancel ==>
      && s.final == ResultOk
      && forall v :: v in p.nodes && PredsComplete(p, s, v) ==> OnItsWay(s, v)
  }

  lemma ProgressFinish(p: Pipeline, s: Exec, n: Id)
    requires WellFormed(p) && Books(p, s) && Progress(p, s) && n in s.done && !s.cancel
    ensures Progress(p, Finish(p, s, n, ResultOk))
  {
    hide Released, Mirrored, Accounted, ReadyReported, LogJustified;
    var t := Finish(p, s, n, ResultOk);
    OutcomesFinish(p, s, n, ResultOk);
    forall v | v in p.nodes && PredsComplete(p, t, v) ensures OnItsWay(t, v) {
      if PredsComplete(p, s, v) {
        assert OnItsWay(s, v);
      } else {
        MirroredEdge(p.succ, p.pred, n, v);
        assert forall u :: u in t.completed ==> t.outcomes[u] == ResultOk by {
          forall u | u in t.completed ensures t.outcomes[u] == ResultOk {
            assert Finished(u, t.outcomes[u]) in t.log;
          }
        }
        ReleasedMember(p, t.completed, t.outcomes, Out(p.succ, n), v);
      }
    }
  }

  lemma ProgressMoves(p: Pipeline, s: Exec, t: Exec)
    requires Progress(p, s)
    requires (CanSubmit(s) && t == Submit(s)) || exists batch :: CanWait(s, batch) && t == Wait(s, batch)
    ensures Progress(p, t)
  {
    forall v | OnItsWay(s, v) ensures OnItsWay(t, v) {
      if CanSubmit(s) && t == Submit(s) {
        assert s.ready == [s.ready[0]] + t.ready;
      } else {
        assert forall x :: x in s.futures ==> x in t.futures || x in t.done;
      }
    }
    forall v | PredsComplete(p, t, v) ensures PredsComplete(p, s, v) {}
  }

  lemma ProgressStep(p: Pipeline, s: Exec, t: Exec)
    requires WellFormed(p) && Books(p, s) && Progress(p, s) && Next(p, s, t)
    ensures Progress(p, t)
  {
    hide Books, Progress;
    if CanSubmit(s) && t == Submit(s) {
      ProgressMoves(p, s, t);
    } else if batch :| CanWait(s, batch) && t == Wait(s, batch) {
      ProgressMoves(p, s, t);
    } else {
      var n, o :| n in s.done && t == Finish(p, s, n, o);
      if o == ResultOk && !s.cancel {
        ProgressFinish(p, s, n);
      } else {
        CancelledMeetsProgress(p, t);
      }
    }
  }

  lemma CancelledMeetsProgress(p: Pipeline, s: Exec)
    requires s.cancel
    ensures Progress(p, s)
  {
  }

  lemma NotYetComplete(p: Pipeline, v: Id)
    requires Out(p.pred, v) != []
    ensures !PredsComplete(p, Initial(p), v)
  {
    assert Out(p.pred, v)[0] in Out(p.pred, v);
  }

  lemma ProgressInitially(p: Pipeline)
    requires Accepted(p)
    ensures Progress(p, Initial(p))
  {
    forall v | v in p.nodes && v != p.start ensures !PredsComplete(p, Initial(p), v) {
      StartIsOnlySource(p, v);
      NotYetComplete(p, v);
    }
  }

  lemma {:induction false} ProgressHolds(p: Pipeline, run: seq<Exec>)
    requires IsRun(p, run) && Accepted(p)
    ensures Progress(p, Last(run))
  {
    hide Progress, Books, Next;
    if |run| == 1 {
      ProgressInitially(p);
    } else {
      var before := run[..|run| - 1];
      StartIsOnlySource(p, p.start);
      BooksHold(p, before);
      ProgressHolds(p, before);
      assert Next(p, run[|run| - 2], run[|run| - 2 + 1]);
      ProgressStep(p, Last(before), Last(run));
    }
  }

  lemma NothingLeftOver(p: Pipeline, s: Exec)
    requires Accepted(p) && Progress(p, s) && Terminal(s) && !s.cancel
    ensures p.nodes <= s.completed
  {
    var left := p.nodes - s.completed;
    if left != {} {
      AcyclicReversed(p.succ, p.pred);
      EdgesInsideReversed(p.nodes, p.succ, p.pred);
      var x := DescentEnds(p.pred, left);
      assert PredsComplete(p, s, x);
      assert false;
    }
    assert forall n :: n in p.nodes ==> n in left || n in s.completed;
  }

  /** Every run that ends without a failure has completed the whole graph, repeated edges included. */
  lemma CompletesWholeGraph(p: Pipeline, run: seq<Exec>)
    requires IsRun(p, run) && Accepted(p) && Terminal(Last(run)) && !Last(run).cancel
    ensures Last(run).completed == p.nodes
  {
    ProgressHolds(p, run);
    NothingLeftOver(p, Last(run));
    StartIsOnlySource(p, p.start);
    BooksHold(p, run);
    hide Progress, Accepted, Terminal;
    forall n | n in Last(run).completed ensures n in p.nodes {
      assert Finished(n, Last(run).outcomes[n]).node in p.nodes;
    }
  }

  /** A report that decides the outcome: every report other than OK, and whatever the end node reports. */
  ghost predicate Decides(p: Pipeline, e: Event) {
    e.Finished? && (e.status != ResultOk || e.node == p.end)
  }

  /** `r` is what the last deciding report said. */
  ghost predicate LastWord(p: Pipeline, log: seq<Event>, r: NodeResult) {
    if log == [] then r == ResultOk
    else if Decides(p, log[|log| - 1]) then r == log[|log| - 1].status
    else LastWord(p, log[..|log| - 1], r)
  }

  lemma {:induction false} LastWordAt(p: Pipeline, log: seq<Event>, r: NodeResult) returns (i: nat)
    requires LastWord(p, log, r) && SomeNotOk(log)
    ensures i < |log| && Decides(p, log[i]) && log[i].status == r
    ensures forall j :: i < j < |log| ==> !Decides(p, log[j])
  {
    var rest, last := log[..|log| - 1], log[|log| - 1];
    assert log == rest + [last];
    if Decides(p, last) {
      i := |rest|;
    } else {
      LogAppend(rest, last);
      i := LastWordAt(p, rest, r);
    }
  }

  lemma {:induction false} NothingDecided(p: Pipeline, log: seq<Event>, r: NodeResult)
    requires LastWord(p, log, r) && !SomeNotOk(log)
    ensures r == ResultOk
  {
    if log != [] {
      var rest, last := log[..|log| - 1], log[|log| - 1];
      assert log == rest + [last];
      LogAppend(rest, last);
      if !Decides(p, last) {
        NothingDecided(p, rest, r);
      }
    }
  }

  lemma LastWordAppend(p: Pipeline, log: seq<Event>, e: Event, r: NodeResult)
    ensures LastWord(p, log + [e], r) <==> if Decides(p, e) then r == e.status else LastWord(p, log, r)
  {
    assert (log + [e])[..|log|] == log;
  }

  /** For every pipeline and run, repeated edges included, the outcome so far is the last deciding report's. */
  lemma {:induction false} FinalIsLastWord(p: Pipeline, run: seq<Exec>)
    requires IsRun(p, run)
    ensures LastWord(p, Last(run).log, Last(run).final)
  {
    hide LastWord, Released;
    if |run| == 1 {
      LastWordOfNothing(p);
    } else {
      var before := run[..|run| - 1];
      FinalIsLastWord(p, before);
      var s, t := Last(before), Last(run);
      assert Next(p, run[|run| - 2], run[|run| - 2 + 1]);
      if CanSubmit(s) && t == Submit(s) {
        LastWordAppend(p, s.log, Submitted(s.ready[0]), t.final);
      } else if n, o :| n in s.done && t == Finish(p, s, n, o) {
        LastWordAppend(p, s.log, Finished(n, o), t.final);
      }
    }
  }

  lemma LastWordOfNothing(p: Pipeline)
    ensures LastWord(p, [], ResultOk)
  {
  }

  /** Under at-most-once a node has at most one report. */
  lemma OneReport(s: Exec, n: Id, a: NodeResult, b: NodeResult)
    requires Accounted(s) && Once(s) && Finished(n, a) in s.log && Finished(n, b) in s.log
    ensures a == b
  {
    assert Tokens(s, n) <= 1;
    if a != b {
      TwoReports(s.log, n, a, b);
      assert false;
    }
  }

  /** The last report other than OK. */
  ghost predicate LastFailure(log: seq<Event>, i: int) {
    && 0 <= i < |log| && log[i].Finished? && log[i].status != ResultOk
    && forall j :: i < j < |log| && log[j].Finished? ==> log[j].status == ResultOk
  }

  /** What a sample's outcome is to say about its log: OK when every node of the pipeline ran and returned OK,
      otherwise what the last node that did not return OK has returned. */
  ghost predicate Reports(p: Pipeline, log: seq<Event>, r: NodeResult) {
    if r == ResultOk then EveryNodeOk(p, log) else exists i :: LastFailure(log, i) && log[i].status == r
  }

  /** Once the end node has reported OK, no node has reported anything else. */
  lemma NoFailureBeforeEnd(p: Pipeline, s: Exec, n: Id, o: NodeResult)
    requires Accepted(p) && Books(p, s) && Once(s) && Finished(p.end, ResultOk) in s.log && Finished(n, o) in s.log
    ensures o == ResultOk
  {
    hide Once, Accounted, OutcomesLogged, ReadyReported, GoodGraph, Mirrored, EdgesInside;
    if n != p.end {
      assert Finished(n, o).node in p.nodes;
      EveryNodeLeadsToEnd(p, n);
      var i :| 0 <= i < |s.log| && s.log[i] == Finished(p.end, ResultOk);
      assert Justified(p, s.log[i], s.log[..i]);
      SubmittedMeansAncestorsDone(p, s.log, n, p.end);
    }
    OneReport(s, n, o, ResultOk);
  }

  /** The outcome of a sample is that of the last node that did not return OK, and OK exactly when every node
      of the pipeline ran and returned OK. */
  lemma OutcomeIsLastFailure(p: Pipeline, run: seq<Exec>)
    requires IsRun(p, run) && Accepted(p) && NoLiveDuplicate(p) && Terminal(Last(run))
    ensures Reports(p, Last(run).log, Last(run).final)
  {
    var s := Last(run);
    StartIsOnlySource(p, p.start);
    BooksHold(p, run);
    OnceHolds(p, run);
    FinalIsLastWord(p, run);
    hide Books, Once, GoodGraph, LastWord, NoLiveDuplicate, Terminal;
    if SomeNotOk(s.log) {
      var i := LastWordAt(p, s.log, s.final);
      if s.final == ResultOk {
        assert s.log[i] == Finished(p.end, ResultOk);
        var e :| e in s.log && e.Finished? && e.status != ResultOk;
        NoFailureBeforeEnd(p, s, e.node, e.status);
        assert false;
      }
      assert LastFailure(s.log, i);
    } else {
      NothingDecided(p, s.log, s.final);
      UnfailedIsComplete(p, run);
    }
  }

  lemma UnfailedIsComplete(p: Pipeline, run: seq<Exec>)
    requires IsRun(p, run) && Accepted(p) && Terminal(Last(run)) && !SomeNotOk(Last(run).log)
    ensures EveryNodeOk(p, Last(run).log)
  {
    var s := Last(run);
    StartIsOnlySource(p, p.start);
    BooksHold(p, run);
    CompletesWholeGraph(p, run);
    forall n | n in p.nodes ensures Finished(n, ResultOk) in s.log {
      assert n in s.completed && Finished(n, s.outcomes[n]) in s.log;
    }
  }

  /** The outcome of a sample is OK exactly when every node of the pipeline ran and returned OK. */
  lemma OutcomeOkIffWholeGraphOk(p: Pipeline, run: seq<Exec>)
    requires IsRun(p, run) && Accepted(p) && NoLiveDuplicate(p) && Terminal(Last(run))
    ensures Last(run).final == ResultOk <==> EveryNodeOk(p, Last(run).log)
  {
    OutcomeIsLastFailure(p, run);
    OkMeansEveryNodeOk(p, Last(run).log, Last(run).final);
  }

  lemma OkMeansEveryNodeOk(p: Pipeline, log: seq<Event>, r: NodeResult)
    requires Reports(p, log, r)
    ensures r == ResultOk <==> EveryNodeOk(p, log)
  {
    if r != ResultOk {
      var i :| LastFailure(log, i) && log[i].status == r;
      assert log[i] in log;
    }
  }

  // ----- Order of submission -----

  /** The scheduler waits only when it has to: unless a node has failed, every node whose predecessors have all
      reported OK is submitted before the next wait. */
  lemma NothingReadyIsHeldBack(p: Pipeline, run: seq<Exec>, i: nat, v: Id)
    requires IsRun(p, run) && Accepted(p) && i + 1 < |run| && run[i].done == multiset{} != run[i + 1].done
    requires !SomeNotOk(run[i].log) && v in p.nodes && PredsReported(p, v, run[i].log)
    ensures Submitted(v) in run[i].log
  {
    hide Released, Mirrored, GoodGraph, Accounted, ReadyReported, LogJustified;
    var s, t := run[i], run[i + 1];
    var before := run[..i + 1];
    assert Last(before) == s;
    StartIsOnlySource(p, p.start);
    BooksHold(p, before);
    ProgressHolds(p, before);
    assert Next(p, run[i], run[i + 1]);
    assert s.ready == [];
    assert PredsComplete(p, s, v);
    assert OnItsWay(s, v);
    if v in s.completed {
      var j :| 0 <= j < |s.log| && s.log[j] == Finished(v, s.outcomes[v]);
      FinishedSubmitted(p, s, j);
    }
  }

  lemma FinishedSubmitted(p: Pipeline, s: Exec, j: nat)
    requires LogJustified(p, s.log) && j < |s.log| && s.log[j].Finished?
    ensures Submitted(s.log[j].node) in s.log
  {
    assert Justified(p, s.log[j], s.log[..j]);
  }

  /** `v` did not become ready after `w`. */
  ghost predicate ReadyFirst(p: Pipeline, log: seq<Event>, v: Id, w: Id) {
    forall a {:trigger log[..a]} :: 0 <= a <= |log| && PredsReported(p, w, log[..a]) ==> PredsReported(p, v, log[..a])
  }

  /** The nodes submitted, in order. */
  ghost function SubmissionOrder(log: seq<Event>): seq<Id> {
    if log == [] then []
    else
      var rest := SubmissionOrder(log[..|log| - 1]);
      if log[|log| - 1].Submitted? then rest + [log[|log| - 1].node] else rest
  }

  lemma OrderAppend(log: seq<Event>, e: Event)
    ensures SubmissionOrder(log + [e]) == SubmissionOrder(log) + if e.Submitted? then [e.node] else []
  {
    assert (log + [e])[..|log|] == log;
  }

  /** Submitted or ready, each node stands behind those that became ready before it. */
  ghost predicate InTurn(p: Pipeline, s: Exec) {
    var line := SubmissionOrder(s.log) + s.ready;
    && (forall x :: x in line ==> PredsReported(p, x, s.log))
    && forall i, j :: 0 <= i < j < |line| ==> Precedes(p, s.log, line[i], line[j])
  }

  /** `v` became ready before `w`, or by the same report and stands before it in the reporter's successor list. */
  ghost predicate Precedes(p: Pipeline, log: seq<Event>, v: Id, w: Id) {
    ReadyFirst(p, log, v, w) && (ReadyFirst(p, log, w, v) ==> ListedBefore(p, v, w))
  }

  ghost predicate ListedBefore(p: Pipeline, v: Id, w: Id) {
    exists n, a, b :: 0 <= a < b < |Out(p.succ, n)| && Out(p.succ, n)[a] == v && Out(p.succ, n)[b] == w
  }

  /** What a completion adds to the ready list. */
  function Newly(p: Pipeline, s: Exec, n: Id, o: NodeResult): seq<Id> {
    if o != ResultOk then [] else Released(p, s.completed + {n}, s.outcomes[n := o], Out(p.succ, n))
  }

  lemma ReadyFirstGrows(p: Pipeline, log: seq<Event>, e: Event, v: Id, w: Id)
    requires PredsReported(p, v, log) && Precedes(p, log, v, w)
    ensures Precedes(p, log + [e], v, w)
  {
    if ReadyFirst(p, log + [e], w, v) {
      ReadyFirstShrinks(p, log, e, w, v);
    }
    var longer := log + [e];
    forall a {:trigger longer[..a]} | 0 <= a <= |longer| && PredsReported(p, w, longer[..a])
      ensures PredsReported(p, v, longer[..a])
    {
      if a <= |log| {
        assert longer[..a] == log[..a];
      } else {
        assert longer[..a] == longer;
        ReadyStaysReported(p, [v], log, e);
        assert v in [v];
      }
    }
  }

  lemma ReadyFirstShrinks(p: Pipeline, log: seq<Event>, e: Event, v: Id, w: Id)
    requires ReadyFirst(p, log + [e], v, w)
    ensures ReadyFirst(p, log, v, w)
  {
    var longer := log + [e];
    forall a {:trigger log[..a]} | 0 <= a <= |log| && PredsReported(p, w, log[..a])
      ensures PredsReported(p, v, log[..a])
    {
      assert longer[..a] == log[..a];
    }
  }

  /** What a report has just released was not ready before. */
  lemma ReadyFirstNew(p: Pipeline, log: seq<Event>, n: Id, o: NodeResult, v: Id, w: Id)
    requires PredsReported(p, v, log + [Finished(n, o)])
    requires n in Out(p.pred, w) && Finished(n, ResultOk) !in log
    requires PredsReported(p, v, log) || ListedBefore(p, v, w)
    ensures Precedes(p, log + [Finished(n, o)], v, w)
  {
    var longer := log + [Finished(n, o)];
    assert longer[..|log|] == log;
    assert !PredsReported(p, w, log);
    forall a {:trigger longer[..a]} | 0 <= a <= |log| ensures longer[..a] == log[..a] {}
    forall a {:trigger longer[..a]} | 0 <= a <= |longer| && PredsReported(p, w, longer[..a]) ensures a > |log| {
      assert Finished(n, ResultOk) in longer[..a];
    }
    assert longer[..|longer|] == longer;
  }

  lemma InTurnSubmit(p: Pipeline, s: Exec)
    requires InTurn(p, s) && CanSubmit(s)
    ensures InTurn(p, Submit(s))
  {
    hide ReadyFirst, PredsReported, Precedes;
    var t, e := Submit(s), Submitted(s.ready[0]);
    var line := SubmissionOrder(s.log) + s.ready;
    OrderAppend(s.log, e);
    assert SubmissionOrder(t.log) + t.ready == line;
    ReadyStaysReported(p, line, s.log, e);
    forall i, j | 0 <= i < j < |line| ensures Precedes(p, t.log, line[i], line[j]) {
      ReadyFirstGrows(p, s.log, e, line[i], line[j]);
    }
  }

  lemma InTurnFinish(p: Pipeline, s: Exec, n: Id, o: NodeResult)
    requires WellFormed(p) && Books(p, s) && Once(s) && n in s.done && InTurn(p, s)
    ensures InTurn(p, Finish(p, s, n, o))
  {
    hide Precedes, ListedBefore, PredsReported, Books, Once, Released, WellFormed;
    var t, e := Finish(p, s, n, o), Finished(n, o);
    var line, newly := SubmissionOrder(s.log) + s.ready, Newly(p, s, n, o);
    OrderAppend(s.log, e);
    var all := line + newly;
    assert SubmissionOrder(t.log) + t.ready == all;
    NewlyReported(p, s, n, o);
    ReadyStaysReported(p, line, s.log, e);
    forall i, j | 0 <= i < j < |all| ensures Precedes(p, t.log, all[i], all[j]) {
      if j < |line| {
        ReadyFirstGrows(p, s.log, e, line[i], line[j]);
      } else {
        assert all[j] in newly;
        if i < |line| {
          assert all[i] in line;
        } else {
          assert all[i] in newly;
          NewlyInListOrder(p, s, n, o, i - |line|, j - |line|);
        }
        ReadyFirstNew(p, s.log, n, o, all[i], all[j]);
      }
    }
  }

  lemma {:induction false} ReleasedInListOrder(p: Pipeline, completed: set<Id>, outcomes: map<Id, NodeResult>,
                                               succs: seq<Id>, i: nat, j: nat) returns (a: nat, b: nat)
    requires i < j < |Released(p, completed, outcomes, succs)|
    ensures var r := Released(p, completed, outcomes, succs);
      a < b < |succs| && succs[a] == r[i] && succs[b] == r[j]
  {
    var last := |succs| - 1;
    var rest := Released(p, completed, outcomes, succs[..last]);
    if j < |rest| {
      a, b := ReleasedInListOrder(p, completed, outcomes, succs[..last], i, j);
    } else {
      ReleasedMember(p, completed, outcomes, succs[..last], rest[i]);
      a :| 0 <= a < last && succs[..last][a] == rest[i];
      b := last;
    }
  }

  lemma NewlyInListOrder(p: Pipeline, s: Exec, n: Id, o: NodeResult, i: nat, j: nat)
    requires i < j < |Newly(p, s, n, o)|
    ensures ListedBefore(p, Newly(p, s, n, o)[i], Newly(p, s, n, o)[j])
  {
    hide Released;
    var a, b := ReleasedInListOrder(p, s.completed + {n}, s.outcomes[n := o], Out(p.succ, n), i, j);
  }

  lemma NewlyReported(p: Pipeline, s: Exec, n: Id, o: NodeResult)
    requires WellFormed(p) && Books(p, s) && Once(s) && n in s.done
    ensures Finished(n, ResultOk) !in s.log
    ensures forall v :: v in Newly(p, s, n, o) ==>
      n in Out(p.pred, v) && PredsReported(p, v, s.log + [Finished(n, o)])
  {
    OutMeansUnreported(s, n);
    ReadyFinish(p, s, n, o);
    var t := Finish(p, s, n, o);
    hide Released, Accounted, Once, LogJustified;
    forall v | v in Newly(p, s, n, o) ensures n in Out(p.pred, v) && PredsReported(p, v, s.log + [Finished(n, o)]) {
      ReleasedMember(p, t.completed, t.outcomes, Out(p.succ, n), v);
      MirroredEdge(p.succ, p.pred, n, v);
      assert v in t.ready;
    }
  }

  lemma InTurnInitially(p: Pipeline)
    requires Out(p.pred, p.start) == []
    ensures InTurn(p, Initial(p))
  {
  }

  lemma {:induction false} InTurnHolds(p: Pipeline, run: seq<Exec>)
    requires IsRun(p, run) && Accepted(p) && NoLiveDuplicate(p)
    ensures InTurn(p, Last(run))
  {
    StartIsOnlySource(p, p.start);
    hide Books, Once, GoodGraph, InTurn, NoLiveDuplicate;
    if |run| == 1 {
      InTurnInitially(p);
    } else {
      var before := run[..|run| - 1];
      BooksHold(p, before);
      OnceHolds(p, before);
      InTurnHolds(p, before);
      assert Next(p, run[|run| - 2], run[|run| - 2 + 1]);
      InTurnStep(p, Last(before), Last(run));
    }
  }

  lemma InTurnStep(p: Pipeline, s: Exec, t: Exec)
    requires WellFormed(p) && Books(p, s) && Once(s) && InTurn(p, s) && Next(p, s, t)
    ensures InTurn(p, t)
  {
    hide Books, Once, WellFormed, Finish, Precedes, PredsReported;
    if CanSubmit(s) && t == Submit(s) {
      InTurnSubmit(p, s);
    } else if batch :| CanWait(s, batch) && t == Wait(s, batch) {
      assert t.log == s.log && t.ready == s.ready;
    } else {
      var n, o :| n in s.done && t == Finish(p, s, n, o);
      InTurnFinish(p, s, n, o);
    }
  }

  /** Nodes are submitted in the order in which they became ready, those that became ready by the same report in
      the order of its successor list: none overtakes another. */
  lemma NoOvertaking(p: Pipeline, run: seq<Exec>, i: nat, j: nat)
    requires IsRun(p, run) && Accepted(p) && NoLiveDuplicate(p)
    requires i < j < |SubmissionOrder(Last(run).log)|
    ensures var order := SubmissionOrder(Last(run).log); Precedes(p, Last(run).log, order[i], order[j])
  {
    hide Precedes;
    InTurnHolds(p, run);
    var order, ready := SubmissionOrder(Last(run).log), Last(run).ready;
    assert order[i] == (order + ready)[i] && order[j] == (order + ready)[j];
  }

  // ----- The scheduler loop -----

  /** How many entries of `m` are nodes that have already completed once. */
  ghost function Again(m: multiset<Id>, c: set<Id>): nat {
    if c == {} then 0 else
      var x :| x in c;
      m[x] + Again(m, c - {x})
  }

  lemma {:induction false} AgainSum(a: multiset<Id>, b: multiset<Id>, c: set<Id>)
    ensures Again(a + b, c) == Again(a, c) + Again(b, c)
  {
    if c != {} {
      var x :| x in c && Again(a + b, c) == (a + b)[x] + Again(a + b, c - {x})
        && Again(a, c) == a[x] + Again(a, c - {x}) && Again(b, c) == b[x] + Again(b, c - {x});
      AgainSum(a, b, c - {x});
    }
  }

  lemma {:induction false} AgainNone(m: multiset<Id>, c: set<Id>)
    requires forall x :: x in m ==> x !in c
    ensures Again(m, c) == 0
  {
    if c != {} {
      var x :| x in c && Again(m, c) == m[x] + Again(m, c - {x});
      AgainNone(m, c - {x});
    }
  }

  lemma {:induction false} AgainOne(n: Id, c: set<Id>)
    requires n in c
    ensures Again(multiset{n}, c) == 1
  {
    var x :| x in c && Again(multiset{n}, c) == multiset{n}[x] + Again(multiset{n}, c - {x});
    if x == n {
      AgainNone(multiset{n}, c - {x});
    } else {
      AgainOne(n, c - {x});
    }
  }

  ghost function Pending(s: Exec): multiset<Id> {
    multiset(s.ready) + s.futures + s.done
  }

  lemma FinishPending(p: Pipeline, s: Exec, n: Id, o: NodeResult)
    requires n in s.done
    ensures Finish(p, s, n, o).completed == s.completed + {n}
    ensures Pending(Finish(p, s, n, o)) + multiset{n} == Pending(s) + multiset(Newly(p, s, n, o))
    ensures forall x :: x in Newly(p, s, n, o) ==> x !in s.completed
  {
    hide Released;
    var t := Finish(p, s, n, o);
    assert t.ready == s.ready + Newly(p, s, n, o);
    assert s.done == t.done + multiset{n};
    forall x | x in Newly(p, s, n, o) ensures x !in s.completed {
      ReleasedMember(p, s.completed + {n}, s.outcomes[n := o], Out(p.succ, n), x);
    }
  }

  /** Each completion either completes a new node or uses up an entry of a completed one. */
  lemma FinishRanks(p: Pipeline, s: Exec, n: Id, o: NodeResult)
    requires n in s.done && n in s.completed
    ensures Again(Pending(Finish(p, s, n, o)), s.completed) + 1 == Again(Pending(s), s.completed)
  {
    hide Finish, Pending, Newly, Again;
    FinishPending(p, s, n, o);
    var newly := multiset(Newly(p, s, n, o));
    AgainSum(Pending(Finish(p, s, n, o)), multiset{n}, s.completed);
    AgainSum(Pending(s), newly, s.completed);
    AgainOne(n, s.completed);
    AgainNone(newly, s.completed);
  }

  lemma CountsAppend(s: seq<Id>, x: Id)
    ensures multiset(s + [x]) == multiset(s) + multiset{x}
  {
  }

  /** `concurrent.futures.wait(..., FIRST_COMPLETED)`: some non-empty part, in no particular order. */
  method WaitFirstCompleted(futures: seq<Id>) returns (done: seq<Id>, rest: seq<Id>)
    requires futures != []
    ensures done != [] && multiset(done) + multiset(rest) == multiset(futures)
  {
    var k: nat :| k < |futures|;
    done, rest := [futures[k]], [];
    ghost var seen := multiset{futures[k]};
    for i := 0 to |futures|
      invariant done != []
      invariant multiset(done) + multiset(rest) == seen
      invariant seen == multiset(futures[..i]) + (if i <= k then multiset{futures[k]} else multiset{})
    {
      assert futures[..i + 1] == futures[..i] + [futures[i]];
      CountsAppend(futures[..i], futures[i]);
      if i != k {
        seen := seen + multiset{futures[i]};
        if * {
          CountsAppend(done, futures[i]);
          done := done + [futures[i]];
        } else {
          CountsAppend(rest, futures[i]);
          rest := rest + [futures[i]];
        }
      }
    }
    assert futures[..|futures|] == futures;
  }

  /** A node body may return anything; an exception counts as FailSample. */
  method RunNode(n: Id) returns (o: NodeResult) {
    o := *;
  }

  method ReadySuccessors(p: Pipeline, completed: set<Id>, outcomes: map<Id, NodeResult>, n: Id)
    returns (newly: seq<Id>)
    ensures newly == Released(p, completed, outcomes, Out(p.succ, n))
  {
    newly := [];
    var succs := Out(p.succ, n);
    for i := 0 to |succs|
      invariant newly == Released(p, completed, outcomes, succs[..i])
    {
      assert succs[..i + 1][..i] == succs[..i];
      if succs[i] !in completed && PredsOk(p, completed, outcomes, succs[i]) {
        newly := newly + [succs[i]];
      }
    }
    assert succs[..|succs|] == succs;
  }

  method RunSample(p: Pipeline) returns (final: NodeResult, log: seq<Event>)
    requires WellFormed(p) && Out(p.pred, p.start) == []
    ensures exists run :: IsRun(p, run) && Terminal(Last(run)) && Last(run).final == final && Last(run).log == log
    ensures LastWord(p, log, final) && (Accepted(p) && NoLiveDuplicate(p) ==> Reports(p, log, final))
  {
    hide IsRun, WellFormed, RanksBelow, Pending, Released, PredsOk, Accepted, Again, NoLiveDuplicate, Reports, LastWord,
      Finish, Submit, Wait;
    var completed: set<Id>, ready: seq<Id>, outcomes: map<Id, NodeResult> := {}, [p.start], map[];
    var cancel := false;
    var futures: seq<Id> := [];
    final, log := ResultOk, [];
    ghost var run := TraceStart(p);
    while ready != [] || futures != []
      invariant IsRun(p, run) && |run| > 0 && completed <= p.nodes
      invariant Last(run) == Exec(completed, ready, outcomes, cancel, final, multiset(futures), multiset{}, log)
      decreases p.nodes - completed, Again(Pending(Last(run)), completed)
    {
      ghost var start := Last(run);
      while ready != [] && !cancel
        invariant IsRun(p, run) && |run| > 0 && Pending(Last(run)) == Pending(start)
        invariant Last(run) == Exec(completed, ready, outcomes, cancel, final, multiset(futures), multiset{}, log)
        decreases |ready|
      {
        run := TraceSubmit(p, run);
        futures := futures + [ready[0]];
        log := log + [Submitted(ready[0])];
        ready := ready[1..];
      }
      if futures == [] {
        break;
      }
      var done, rest := WaitFirstCompleted(futures);
      run := TraceWait(p, run, start, done, rest);
      futures := rest;
      assert done[0..] == done;
      for i := 0 to |done|
        invariant IsRun(p, run) && |run| > 0 && completed <= p.nodes
        invariant Last(run) ==
          Exec(completed, ready, outcomes, cancel, final, multiset(futures), multiset(done[i..]), log)
        invariant RanksBelow(start, Last(run), i)
      {
        var n := done[i];
        assert done[i..] == [n] + done[i + 1..];
        var o := RunNode(n);
        run := TraceFinish(p, run, start, i, n, o);
        assert multiset(done[i..]) - multiset{n} == multiset(done[i + 1..]);
        completed, outcomes := completed + {n}, outcomes[n := o];
        log := log + [Finished(n, o)];
        if o != ResultOk {
          cancel, final := true, o;
        } else {
          if n == p.end {
            final := o;
          }
          var newly := ReadySuccessors(p, completed, outcomes, n);
          ready := ready + newly;
        }
      }
      assert done[|done|..] == [];
      RankDrops(start, Last(run), |done|);
    }
    OutcomeOfRun(p, run);
  }

  lemma OutcomeOfRun(p: Pipeline, run: seq<Exec>)
    requires IsRun(p, run) && Terminal(Last(run))
    ensures LastWord(p, Last(run).log, Last(run).final)
    ensures Accepted(p) && NoLiveDuplicate(p) ==> Reports(p, Last(run).log, Last(run).final)
  {
    FinalIsLastWord(p, run);
    if Accepted(p) && NoLiveDuplicate(p) {
      OutcomeIsLastFailure(p, run);
    }
  }

  lemma TraceStart(p: Pipeline) returns (run: seq<Exec>)
    ensures IsRun(p, run) && |run| > 0 && Last(run) == Initial(p)
  {
    run := [Initial(p)];
  }

  lemma TraceSubmit(p: Pipeline, run: seq<Exec>) returns (next: seq<Exec>)
    requires IsRun(p, run) && |run| > 0 && CanSubmit(Last(run))
    ensures IsRun(p, next) && |next| > 0
    ensures var s := Last(run);
      Last(next) == s.(ready := s.ready[1..], futures := s.futures + multiset{s.ready[0]},
                       log := s.log + [Submitted(s.ready[0])])
    ensures Pending(Last(next)) == Pending(Last(run))
  {
    var s := Last(run);
    assert s.ready == [s.ready[0]] + s.ready[1..];
    ExtendRun(p, run, Submit(s));
    next := run + [Submit(s)];
  }

  lemma TraceWait(p: Pipeline, run: seq<Exec>, start: Exec, done: seq<Id>, rest: seq<Id>) returns (next: seq<Exec>)
    requires IsRun(p, run) && |run| > 0 && done != [] && multiset(done) + multiset(rest) == Last(run).futures
    requires Last(run).done == multiset{} && (Last(run).ready == [] || Last(run).cancel)
    requires Pending(Last(run)) == Pending(start) && Last(run).completed == start.completed
    ensures IsRun(p, next) && |next| > 0
    ensures Last(next) == Last(run).(futures := multiset(rest), done := multiset(done))
    ensures RanksBelow(start, Last(next), 0)
  {
    var s := Last(run);
    assert done[0] in multiset(done);
    assert s.futures - multiset(done) == multiset(rest);
    assert CanWait(s, multiset(done));
    ExtendRun(p, run, Wait(s, multiset(done)));
    next := run + [Wait(s, multiset(done))];
    assert Pending(Last(next)) == Pending(s);
  }

  lemma TraceFinish(p: Pipeline, run: seq<Exec>, start: Exec, i: nat, n: Id, o: NodeResult) returns (next: seq<Exec>)
    requires IsRun(p, run) && |run| > 0 && WellFormed(p) && Out(p.pred, p.start) == []
    requires n in Last(run).done && RanksBelow(start, Last(run), i)
    ensures IsRun(p, next) && |next| > 0 && n in p.nodes
    ensures RanksBelow(start, Last(next), i + 1)
    ensures var s := Last(run);
      var c, m := s.completed + {n}, s.outcomes[n := o];
      var newly := if o == ResultOk then Released(p, c, m, Out(p.succ, n)) else [];
      Last(next) == s.(completed := c, outcomes := m, done := s.done - multiset{n}, log := s.log + [Finished(n, o)],
                       cancel := s.cancel || o != ResultOk, ready := s.ready + newly,
                       final := if o != ResultOk || n == p.end then o else s.final)
  {
    hide Books, WellFormed, RanksBelow, Released;
    next := StepFinish(p, run, start, i, n, o);
  }

  lemma StepFinish(p: Pipeline, run: seq<Exec>, start: Exec, i: nat, n: Id, o: NodeResult) returns (next: seq<Exec>)
    requires IsRun(p, run) && |run| > 0 && WellFormed(p) && Out(p.pred, p.start) == []
    requires n in Last(run).done && RanksBelow(start, Last(run), i)
    ensures IsRun(p, next) && |next| > 0 && n in p.nodes
    ensures Last(next) == Finish(p, Last(run), n, o) && RanksBelow(start, Last(next), i + 1)
  {
    hide Books, Finish, WellFormed;
    var s := Last(run);
    BooksHold(p, run);
    assert n in p.nodes by {
      assert Submitted(n) in s.log by { DoneSubmitted(p, s, n); }
      SubmittedInside(p, s, n);
    }
    ExtendRun(p, run, Finish(p, s, n, o));
    next := run + [Finish(p, s, n, o)];
    FinishPending(p, s, n, o);
    if n in s.completed {
      FinishRanks(p, s, n, o);
      assert s.completed + {n} == s.completed;
    } else {
      assert n !in start.completed && n in Last(next).completed;
    }
  }

  lemma DoneSubmitted(p: Pipeline, s: Exec, n: Id)
    requires Books(p, s) && n in s.done
    ensures Submitted(n) in s.log
  {
  }

  lemma SubmittedInside(p: Pipeline, s: Exec, n: Id)
    requires Books(p, s) && Submitted(n) in s.log
    ensures n in p.nodes
  {
  }

  /** After `i` completions either a new node is complete or `i` entries of completed nodes are gone. */
  ghost predicate RanksBelow(start: Exec, s: Exec, i: nat) {
    && start.completed <= s.completed
    && (start.completed == s.completed ==>
      Again(Pending(s), s.completed) + i == Again(Pending(start), s.completed))
  }

  lemma RankDrops(start: Exec, s: Exec, i: nat)
    requires RanksBelow(start, s, i) && i > 0
    ensures start.completed < s.completed ||
      (start.completed == s.completed && Again(Pending(s), s.completed) < Again(Pending(start), s.completed))
  {
  }
}
