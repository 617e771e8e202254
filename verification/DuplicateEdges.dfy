/** What a repeated edge does to the scheduler. */
module DuplicateEdges {
  import opened Graphs
  import opened PipelineConfig
  import opened DagExecutor

  // config.py keeps repeated edges, and dag.py tests only `completed` before queueing a successor. The scheduler's
  // two promises, that a node is submitted at most once and that the sample outcome is that of the last node that
  // did not return OK, hold in every run exactly when the pipeline has no live duplicate.

  /** A quiet state in which exactly `c` has completed, all OK, and whatever may run is out. */
  ghost predicate Steady(p: Pipeline, s: Exec, c: set<Id>) {
    && Reachable(p, s) && s.completed == c && c <= p.nodes && s.outcomes.Keys == c
    && (forall x :: x in c ==> s.outcomes[x] == ResultOk)
    && !s.cancel && s.done == multiset{} && s.ready == []
    && (forall x :: x in c ==> Before(p, x, c))
    && (forall x :: x in p.nodes - c && Before(p, x, c) ==> s.futures[x] >= 1)
  }

  /** All predecessors of `x` lie in `c`. */
  ghost predicate Before(p: Pipeline, x: Id, c: set<Id>) {
    forall w {:trigger w in Out(p.pred, x)} :: w in Out(p.pred, x) ==> w in c
  }

  /** Once `u` is complete, `v` is out twice, or once when one of its runs is complete. */
  ghost predicate Doubled(s: Exec, u: Id, v: Id) {
    u in s.completed ==> s.futures[v] >= if v in s.completed then 1 else 2
  }

  /** Submitting everything that is ready. */
  lemma {:induction false} SubmitAll(p: Pipeline, s: Exec) returns (t: Exec)
    requires Reachable(p, s) && s.done == multiset{} && !s.cancel
    ensures Reachable(p, t) && t.ready == [] && t.futures == s.futures + multiset(s.ready)
    ensures t.completed == s.completed && t.outcomes == s.outcomes && t.done == multiset{} && !t.cancel
    decreases |s.ready|
  {
    if s.ready == [] {
      t := s;
    } else {
      assert CanSubmit(s);
      ReachableNext(p, s, Submit(s));
      t := SubmitAll(p, Submit(s));
      assert s.ready == [s.ready[0]] + s.ready[1..];
    }
  }

  /** Waiting for one future of `n` and processing it with outcome `o`. */
  lemma FinishOne(p: Pipeline, s: Exec, n: Id, o: NodeResult) returns (t: Exec)
    requires Reachable(p, s) && s.done == multiset{} && (s.ready == [] || s.cancel) && s.futures[n] >= 1
    ensures Reachable(p, t) && t == Finish(p, s.(futures := s.futures - multiset{n}, done := multiset{n}), n, o)
    ensures t.done == multiset{}
  {
    var batch := multiset{n};
    assert n in batch && CanWait(s, batch);
    var w := Wait(s, batch);
    ReachableNext(p, s, w);
    assert n in w.done;
    t := Finish(p, w, n, o);
    ReachableNext(p, w, t);
  }

  /** How many entries of `x` the completion of `n` adds, when `c` is then complete and all OK. */
  ghost function Gain(p: Pipeline, c: set<Id>, n: Id, x: Id): nat {
    if x !in c && Before(p, x, c) then multiset(Out(p.succ, n))[x] else 0
  }

  lemma GainIsReleased(p: Pipeline, c: set<Id>, outcomes: map<Id, NodeResult>, n: Id, x: Id)
    requires outcomes.Keys == c && forall w :: w in c ==> outcomes[w] == ResultOk
    ensures multiset(Released(p, c, outcomes, Out(p.succ, n)))[x] == Gain(p, c, n, x)
  {
    ReleasedCount(p, c, outcomes, Out(p.succ, n), x);
    assert PredsOk(p, c, outcomes, x) <==> Before(p, x, c);
  }

  /** The state after one OK completion and the submissions it allows. */
  lemma CompleteAndSubmit(p: Pipeline, s: Exec, c: set<Id>, n: Id) returns (t: Exec)
    requires Reachable(p, s) && s.completed == c && s.outcomes.Keys == c
    requires forall x :: x in c ==> s.outcomes[x] == ResultOk
    requires !s.cancel && s.done == multiset{} && s.ready == [] && s.futures[n] >= 1
    ensures Reachable(p, t) && t.completed == c + {n} && t.outcomes == s.outcomes[n := ResultOk]
    ensures !t.cancel && t.done == multiset{} && t.ready == []
    ensures forall x :: t.futures[x] == (s.futures - multiset{n})[x] + Gain(p, c + {n}, n, x)
  {
    hide Reachable, Gain, Released;
    var f := FinishOne(p, s, n, ResultOk);
    t := SubmitAll(p, f);
    forall x ensures t.futures[x] == (s.futures - multiset{n})[x] + Gain(p, c + {n}, n, x) {
      GainIsReleased(p, c + {n}, s.outcomes[n := ResultOk], n, x);
    }
  }

  /** Completing one more node, all of whose predecessors are complete. */
  lemma Advance(p: Pipeline, s: Exec, c: set<Id>, n: Id) returns (t: Exec)
    requires WellFormed(p) && Steady(p, s, c) && n in p.nodes - c && Before(p, n, c)
    ensures Steady(p, t, c + {n})
    ensures forall x :: t.futures[x] == (s.futures - multiset{n})[x] + Gain(p, c + {n}, n, x)
  {
    hide Reachable;
    t := CompleteAndSubmit(p, s, c, n);
    forall x | x in p.nodes - (c + {n}) && Before(p, x, c + {n}) ensures t.futures[x] >= 1 {
      if !Before(p, x, c) {
        MirroredEdge(p.succ, p.pred, n, x);
        assert x in multiset(Out(p.succ, n));
      }
    }
  }

  /** The order of completion: everything `u` cannot reach comes before `u`. */
  ghost predicate UnreachedFirst(p: Pipeline, c: set<Id>, u: Id) {
    u !in c ==> forall x :: x in c ==> !Reaches(p.succ, u, x)
  }

  /** A node of `left` all of whose predecessors are complete. */
  lemma NextInOrder(p: Pipeline, c: set<Id>, left: set<Id>) returns (n: Id)
    requires Accepted(p) && left != {} && left <= p.nodes - c
    requires forall x, w :: x in left && w in Out(p.pred, x) && w !in c ==> w in left
    ensures n in left && Before(p, n, c)
  {
    AcyclicReversed(p.succ, p.pred);
    n := DescentEnds(p.pred, left);
  }

  /** Which node to complete next, keeping `u` behind every node it cannot reach. */
  lemma ChooseNext(p: Pipeline, s: Exec, c: set<Id>, u: Id) returns (n: Id)
    requires Accepted(p) && Steady(p, s, c) && UnreachedFirst(p, c, u)
    requires u in p.nodes && u != p.end && p.end !in c && c + {p.end} != p.nodes
    ensures n in p.nodes - c && n != p.end && Before(p, n, c) && UnreachedFirst(p, c + {n}, u)
    ensures n == u ==> forall x :: x in p.nodes && !Reaches(p.succ, u, x) ==> x in c
  {
    EdgesInsideReversed(p.nodes, p.succ, p.pred);
    var free := set x | x in p.nodes - c && !Reaches(p.succ, u, x);
    if free != {} {
      forall x, w | x in free && w in Out(p.pred, x) && w !in c ensures w in free {
        MirroredEdge(p.succ, p.pred, w, x);
        if Reaches(p.succ, u, w) {
          ReachesByEdge(p.succ, u, w, x);
        }
      }
      n := NextInOrder(p, c, free);
      ReachesSelf(p.succ, u);
    } else if u !in c {
      n := u;
      forall w | w in Out(p.pred, u) ensures w in c {
        MirroredEdge(p.succ, p.pred, w, u);
        if Reaches(p.succ, u, w) {
          ReachesByEdge(p.succ, u, w, u);
          assert false;
        }
        assert w !in free;
      }
    } else {
      var left := p.nodes - c - {p.end};
      var y := ProperSubsetLeaves(c + {p.end}, p.nodes);
      assert y in left;
      forall x, w | x in left && w in Out(p.pred, x) && w !in c ensures w in left {
        MirroredEdge(p.succ, p.pred, w, x);
        EndIsOnlySink(p, w);
      }
      n := NextInOrder(p, c, left);
    }
  }

  lemma DoubledAdvance(p: Pipeline, s: Exec, t: Exec, c: set<Id>, n: Id, u: Id, v: Id)
    requires Accepted(p) && LiveDuplicate(p, u, v) && Steady(p, s, c) && Doubled(s, u, v)
    requires t.completed == c + {n} && n !in c
    requires t.futures[v] == (s.futures - multiset{n})[v] + Gain(p, c + {n}, n, v)
    requires n == u ==> forall x :: x in p.nodes && !Reaches(p.succ, u, x) ==> x in c
    ensures Doubled(t, u, v)
  {
    if n == u {
      assert v in multiset(Out(p.succ, u));
      MirroredEdge(p.succ, p.pred, u, v);
      EdgesInsideReversed(p.nodes, p.succ, p.pred);
      assert v in c ==> Before(p, v, c);
      assert v != u by {
        if v == u {
          ReachesSelf(p.succ, u);
          ReachesByEdge(p.succ, u, u, v);
        }
      }
      assert Before(p, v, c + {n});
    }
  }

  /** Every node but the end node can be completed while `v` stays doubled. */
  lemma {:induction false} CompleteAllButEnd(p: Pipeline, s: Exec, c: set<Id>, u: Id, v: Id) returns (t: Exec)
    requires Accepted(p) && LiveDuplicate(p, u, v) && u in p.nodes && u != p.end
    requires Steady(p, s, c) && UnreachedFirst(p, c, u) && p.end !in c && Doubled(s, u, v)
    ensures Steady(p, t, p.nodes - {p.end}) && Doubled(t, u, v)
    decreases p.nodes - c
  {
    hide Steady, UnreachedFirst, Accepted, Doubled, LiveDuplicate, Gain;
    if c + {p.end} == p.nodes {
      assert c == p.nodes - {p.end};
      t := s;
    } else {
      var n := ChooseNext(p, s, c, u);
      WellFormedIfAccepted(p);
      var next := Advance(p, s, c, n);
      SteadyCompleted(p, next, c + {n});
      DoubledAdvance(p, s, next, c, n, u, v);
      t := CompleteAllButEnd(p, next, c + {n}, u, v);
    }
  }

  lemma WellFormedIfAccepted(p: Pipeline)
    requires Accepted(p)
    ensures WellFormed(p)
  {
  }

  lemma SteadyCompleted(p: Pipeline, s: Exec, c: set<Id>)
    requires Steady(p, s, c)
    ensures s.completed == c
  {
  }

  lemma FirstSteady(p: Pipeline) returns (s: Exec)
    requires Accepted(p)
    ensures Steady(p, s, {})
  {
    assert IsRun(p, [Initial(p)]) && Last([Initial(p)]) == Initial(p);
    s := SubmitAll(p, Initial(p));
    forall x | x in p.nodes && Before(p, x, {}) ensures s.futures[x] >= 1 {
      if x != p.start {
        StartIsOnlySource(p, x);
        HasPredecessor(p, x);
        assert false;
      }
      assert x in multiset([p.start]);
    }
  }

  lemma HasPredecessor(p: Pipeline, x: Id)
    requires Out(p.pred, x) != []
    ensures !Before(p, x, {})
  {
    assert Out(p.pred, x)[0] in Out(p.pred, x);
  }

  /** Collecting what is still out after a failure, everything returning OK. */
  lemma {:induction false} Drain(p: Pipeline, s: Exec) returns (t: Exec)
    requires Reachable(p, s) && s.done == multiset{} && s.cancel && SomeNotOk(s.log)
    ensures Reachable(p, t) && Terminal(t) && SomeNotOk(t.log)
    ensures s.final == ResultOk ==> t.final == ResultOk
    decreases |s.futures|
  {
    if s.futures == multiset{} {
      t := s;
    } else {
      var n :| n in s.futures;
      var f := FinishOne(p, s, n, ResultOk);
      LogAppend(s.log, Finished(n, ResultOk));
      assert |s.futures - multiset{n}| < |s.futures|;
      t := Drain(p, f);
    }
  }

  /** With a live duplicate, some run submits its target twice, and some run that saw a failure ends OK. */
  lemma LiveDuplicateBreaksRuns(p: Pipeline, u: Id, v: Id) returns (twice: Exec, wrong: Exec)
    requires Accepted(p) && LiveDuplicate(p, u, v)
    ensures Reachable(p, twice) && SubmittedOf(twice.log)[v] >= 2
    ensures Reachable(p, wrong) && Terminal(wrong) && wrong.final == ResultOk && SomeNotOk(wrong.log)
  {
    assert v in multiset(Out(p.succ, u)) && v in Out(p.succ, u);
    EndIsOnlySink(p, u);
    var s := FirstSteady(p);
    twice := CompleteAllButEnd(p, s, {}, u, v);
    TwiceSubmitted(p, twice, v);
    wrong := FailThenEnd(p, twice, v);
  }

  lemma TwiceSubmitted(p: Pipeline, s: Exec, v: Id)
    requires Accepted(p) && Reachable(p, s) && s.futures[v] >= if v in s.completed then 1 else 2
    ensures SubmittedOf(s.log)[v] >= 2
  {
    var run :| IsRun(p, run) && Last(run) == s;
    StartIsOnlySource(p, p.start);
    BooksHold(p, run);
    if v in s.completed {
      CountsCover(s.log, Finished(v, s.outcomes[v]));
    }
  }

  /** The second run of `v` fails, then the end node reports OK and overwrites the outcome. */
  lemma FailThenEnd(p: Pipeline, s: Exec, v: Id) returns (t: Exec)
    requires Accepted(p) && Steady(p, s, p.nodes - {p.end}) && v in p.nodes
    requires s.futures[v] >= if v in s.completed then 1 else 2
    ensures Reachable(p, t) && Terminal(t) && t.final == ResultOk && SomeNotOk(t.log)
  {
    EdgesInsideReversed(p.nodes, p.succ, p.pred);
    forall w | w in Out(p.pred, p.end) ensures w in p.nodes - {p.end} {
      MirroredEdge(p.succ, p.pred, w, p.end);
      EndIsOnlySink(p, w);
    }
    assert Before(p, p.end, p.nodes - {p.end});
    assert s.futures[p.end] >= 1;
    var f := FinishOne(p, s, v, FailSample);
    LogAppend(s.log, Finished(v, FailSample));
    assert f.futures[p.end] >= 1;
    var g := FinishOne(p, f, p.end, ResultOk);
    LogAppend(f.log, Finished(p.end, ResultOk));
    t := Drain(p, g);
  }

  ghost predicate AtMostOnceAlways(p: Pipeline) {
    forall run, x :: IsRun(p, run) ==> SubmittedOf(Last(run).log)[x] <= 1
  }

  ghost predicate OutcomeFaithfulAlways(p: Pipeline) {
    forall run :: IsRun(p, run) && Terminal(Last(run)) ==> Reports(p, Last(run).log, Last(run).final)
  }

  ghost predicate OkFaithfulAlways(p: Pipeline) {
    forall run :: IsRun(p, run) && Terminal(Last(run)) ==>
      (Last(run).final == ResultOk <==> EveryNodeOk(p, Last(run).log))
  }

  /** An accepted pipeline submits every node at most once in every run exactly when it has no live duplicate. */
  lemma AtMostOnceIff(p: Pipeline)
    requires Accepted(p)
    ensures AtMostOnceAlways(p) <==> NoLiveDuplicate(p)
  {
    if NoLiveDuplicate(p) {
      forall run, x | IsRun(p, run) ensures SubmittedOf(Last(run).log)[x] <= 1 {
        SubmittedAtMostOnce(p, run, x);
      }
    } else {
      var u, v :| LiveDuplicate(p, u, v);
      var twice, wrong := LiveDuplicateBreaksRuns(p, u, v);
      var run :| IsRun(p, run) && Last(run) == twice;
      assert SubmittedOf(Last(run).log)[v] > 1;
    }
  }

  /** The sample outcome is the last failure's, or just right about OK, in every run under the same condition. */
  lemma OutcomeFaithfulIff(p: Pipeline)
    requires Accepted(p)
    ensures OutcomeFaithfulAlways(p) <==> NoLiveDuplicate(p)
    ensures OkFaithfulAlways(p) <==> NoLiveDuplicate(p)
  {
    hide NoLiveDuplicate, Reports, Accepted;
    if NoLiveDuplicate(p) {
      forall run | IsRun(p, run) && Terminal(Last(run))
        ensures Reports(p, Last(run).log, Last(run).final)
        ensures Last(run).final == ResultOk <==> EveryNodeOk(p, Last(run).log)
      {
        OutcomeIsLastFailure(p, run);
        OutcomeOkIffWholeGraphOk(p, run);
      }
    } else {
      var run := SomeRunIsWrong(p);
      if Reports(p, Last(run).log, Last(run).final) {
        OkMeansEveryNodeOk(p, Last(run).log, Last(run).final);
        assert false;
      }
    }
  }

  lemma SomeRunIsWrong(p: Pipeline) returns (run: seq<Exec>)
    requires Accepted(p) && !NoLiveDuplicate(p)
    ensures IsRun(p, run) && Terminal(Last(run)) && Last(run).final == ResultOk && !EveryNodeOk(p, Last(run).log)
  {
    var u, v :| LiveDuplicate(p, u, v);
    var twice, wrong := LiveDuplicateBreaksRuns(p, u, v);
    run :| IsRun(p, run) && Last(run) == wrong;
  }

  /** The smallest pipeline that shows it: start and end joined by the same edge twice. */
  const DOUBLE_EDGE := Pipeline({"start", "end"}, map["end" := ["start", "start"]],
                                map["start" := ["end", "end"]], "start", "end")

  lemma DoubleEdgeBreaksBothPromises()
    ensures Accepted(DOUBLE_EDGE) && !AtMostOnceAlways(DOUBLE_EDGE) && !OutcomeFaithfulAlways(DOUBLE_EDGE)
  {
    var p := DOUBLE_EDGE;
    forall u, v ensures multiset(Out(p.succ, u))[v] == multiset(Out(p.pred, v))[u] {}
    forall u | ReachesProperly(p.succ, u, u) ensures false {
      var path :| PathBetween(p.succ, path, u, u) && |path| >= 2;
      assert path[1] in Out(p.succ, path[0]);
      var w := LastEdge(p.succ, u, u);
    }
    ReachesSelf(p.succ, "start");
    ReachesSelf(p.succ, "end");
    ReachesByEdge(p.succ, "start", "start", "end");
    assert LiveDuplicate(p, "start", "end");
    AtMostOnceIff(p);
    OutcomeFaithfulIff(p);
  }
}
