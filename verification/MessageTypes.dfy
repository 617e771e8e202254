/** Collecting the message types a ROS type depends on (ros_messages.py, `_build_message_cat`): a
    depth-first search over the direct dependencies that lists each type after its dependencies. */
module MessageTypes {
  import opened Graphs
  import opened PipelineConfig

  /** What one call of `visit(t)` does, from (seen0, ordered0) to (seen, ordered). */
  ghost predicate Visited(deps: Adjacency, t: Id, seen0: set<Id>, ordered0: seq<Id>, seen: set<Id>, ordered: seq<Id>) {
    && t in seen && seen0 <= seen && ordered0 <= ordered
    && Elements(ordered) == Elements(ordered0) + (seen - seen0)
    && (forall u, v {:trigger v in Out(deps, u)} :: u in seen - seen0 && v in Out(deps, u) ==> v in seen)
    && (forall u :: u in seen - seen0 ==> Reaches(deps, t, u))
    && (t !in seen0 ==> ordered != [] && ordered[|ordered| - 1] == t)
  }

  /** Types whose visit has begun and not ended all depend on the type visited next. */
  ghost predicate OpenReach(deps: Adjacency, seen: set<Id>, ordered: seq<Id>, t: Id) {
    forall g :: g in seen && g !in ordered ==> ReachesProperly(deps, g, t)
  }

  ghost predicate ListOk(deps: Adjacency, seen: set<Id>, ordered: seq<Id>) {
    Distinct(ordered) && Elements(ordered) <= seen && (Acyclic(deps) ==> Topological(ordered, deps))
  }

  /** Between two dependencies of `t`: `t` is open, and everything new is reachable from it. */
  ghost predicate HalfVisited(deps: Adjacency, t: Id, k: nat, seen0: set<Id>, ordered0: seq<Id>,
                              seen: set<Id>, ordered: seq<Id>) {
    && t in seen && t !in ordered && t !in seen0 && seen0 <= seen && ordered0 <= ordered
    && Elements(ordered) == Elements(ordered0) + (seen - seen0 - {t})
    && (forall u, v {:trigger v in Out(deps, u)} :: u in seen - seen0 - {t} && v in Out(deps, u) ==> v in seen)
    && (forall u :: u in seen - seen0 ==> Reaches(deps, t, u))
    && k <= |Out(deps, t)| && forall i :: 0 <= i < k ==> Out(deps, t)[i] in seen
  }

  lemma OpenExtends(deps: Adjacency, seen0: set<Id>, ordered0: seq<Id>, seen: set<Id>, ordered: seq<Id>,
                    t: Id, d: Id, k: nat)
    requires OpenReach(deps, seen0, ordered0, t) && HalfVisited(deps, t, k, seen0, ordered0, seen, ordered)
    requires d in Out(deps, t)
    ensures OpenReach(deps, seen, ordered, d)
  {
    forall g | g in seen && g !in ordered ensures ReachesProperly(deps, g, d) {
      ReachesSelf(deps, t);
      ReachesByEdge(deps, t, t, d);
      if g != t {
        assert g in seen0 && g !in ordered0 by {
          assert g !in Elements(ordered);
        }
        assert ReachesProperly(deps, g, t);
        ReachesTransitive(deps, g, t, d);
      }
    }
  }

  lemma HalfVisitedNext(deps: Adjacency, t: Id, k: nat, seen0: set<Id>, ordered0: seq<Id>,
                        seen1: set<Id>, ordered1: seq<Id>, seen: set<Id>, ordered: seq<Id>)
    requires HalfVisited(deps, t, k, seen0, ordered0, seen1, ordered1) && k < |Out(deps, t)|
    requires Visited(deps, Out(deps, t)[k], seen1, ordered1, seen, ordered)
    ensures HalfVisited(deps, t, k + 1, seen0, ordered0, seen, ordered)
  {
    var d := Out(deps, t)[k];
    assert t !in Elements(ordered1) && t in seen1;
    assert t !in ordered by {
      assert t !in Elements(ordered);
    }
    forall u | u in seen - seen0 ensures Reaches(deps, t, u) {
      if u !in seen1 {
        ReachesSelf(deps, t);
        ReachesByEdge(deps, t, t, d);
        ReachesTransitive(deps, t, d, u);
      }
    }
    assert Elements(ordered) == Elements(ordered0) + (seen - seen0 - {t});
  }

  /** In an acyclic relation every dependency of an open type is already listed when its turn is over. */
  lemma DepsListed(deps: Adjacency, t: Id, seen0: set<Id>, ordered0: seq<Id>, seen: set<Id>, ordered: seq<Id>)
    requires HalfVisited(deps, t, |Out(deps, t)|, seen0, ordered0, seen, ordered) && Acyclic(deps)
    requires OpenReach(deps, seen0, ordered0, t)
    ensures AllIn(Out(deps, t), ordered)
  {
    forall d | d in Out(deps, t) ensures d in ordered {
      OpenExtends(deps, seen0, ordered0, seen, ordered, t, d, |Out(deps, t)|);
      assert d in seen;
      if d !in ordered {
        assert false;
      }
    }
  }

  lemma FinishVisit(deps: Adjacency, t: Id, seen0: set<Id>, ordered0: seq<Id>, seen: set<Id>, ordered: seq<Id>)
    requires HalfVisited(deps, t, |Out(deps, t)|, seen0, ordered0, seen, ordered)
    requires ListOk(deps, seen, ordered) && OpenReach(deps, seen0, ordered0, t)
    ensures Visited(deps, t, seen0, ordered0, seen, ordered + [t])
    ensures ListOk(deps, seen, ordered + [t])
  {
    assert Elements(ordered + [t]) == Elements(ordered) + {t};
    if Acyclic(deps) {
      DepsListed(deps, t, seen0, ordered0, seen, ordered);
      TopologicalAppend(ordered, deps, t);
    }
  }

  class TypeCollector {
    const deps: Adjacency
    var seen: set<Id>
    var ordered: seq<Id>

    constructor (deps: Adjacency)
      ensures this.deps == deps && seen == {} && ordered == []
    {
      this.deps := deps;
      seen, ordered := {}, [];
    }

    method Visit(t: Id, ghost all: set<Id>)
      requires t in all && seen <= all && ClosedUnder(deps, all)
      requires ListOk(deps, seen, ordered) && OpenReach(deps, seen, ordered, t)
      modifies this
      decreases all - seen
      ensures Visited(deps, t, old(seen), old(ordered), seen, ordered)
      ensures ListOk(deps, seen, ordered) && seen <= all
    {
      if t in seen {
        return;
      }
      ghost var seen0, ordered0 := seen, ordered;
      seen := seen + {t};
      var direct := Out(deps, t);
      BeginVisit(deps, t, seen0, ordered0);
      hide Visited, HalfVisited, ListOk, OpenReach;
      for k := 0 to |direct|
        invariant HalfVisited(deps, t, k, seen0, ordered0, seen, ordered)
        invariant ListOk(deps, seen, ordered) && seen0 + {t} <= seen <= all
      {
        ghost var seen1, ordered1 := seen, ordered;
        OpenExtends(deps, seen0, ordered0, seen, ordered, t, direct[k], k);
        Visit(direct[k], all);
        assert seen1 <= seen by { VisitGrows(deps, direct[k], seen1, ordered1, seen, ordered); }
        HalfVisitedNext(deps, t, k, seen0, ordered0, seen1, ordered1, seen, ordered);
      }
      FinishVisit(deps, t, seen0, ordered0, seen, ordered);
      ordered := ordered + [t];
    }
  }

  lemma BeginVisit(deps: Adjacency, t: Id, seen: set<Id>, ordered: seq<Id>)
    requires ListOk(deps, seen, ordered) && t !in seen
    ensures HalfVisited(deps, t, 0, seen, ordered, seen + {t}, ordered)
    ensures ListOk(deps, seen + {t}, ordered)
  {
    ReachesSelf(deps, t);
    assert t !in Elements(ordered);
  }

  lemma VisitGrows(deps: Adjacency, t: Id, seen0: set<Id>, ordered0: seq<Id>, seen: set<Id>, ordered: seq<Id>)
    requires Visited(deps, t, seen0, ordered0, seen, ordered)
    ensures seen0 <= seen
  {
  }

  lemma UniverseClosed(deps: Adjacency, root: Id)
    ensures root in Universe(deps, root) && ClosedUnder(deps, Universe(deps, root))
  {
  }

  /** The list holds exactly the types reachable from the root, each once, the root last; when the
      relation is acyclic each type comes after everything it depends on. */
  method CollectTypes(deps: Adjacency, root: Id) returns (ordered: seq<Id>)
    ensures forall v :: v in ordered <==> Reaches(deps, root, v)
    ensures Distinct(ordered) && ordered != [] && ordered[|ordered| - 1] == root
    ensures Acyclic(deps) ==> Topological(ordered, deps)
  {
    var c := new TypeCollector(deps);
    UniverseClosed(deps, root);
    c.Visit(root, Universe(deps, root));
    ordered := c.ordered;
    assert Elements(ordered) == c.seen;
    forall v | Reaches(deps, root, v) ensures v in c.seen {
      ClosedHoldsReachable(deps, c.seen, root, v);
    }
  }

  /** The combined definition names the root first and then every other reachable type exactly once,
      also when the dependency relation has cycles. */
  method BuildMessageCat(deps: Adjacency, root: Id) returns (texts: seq<Id>)
    ensures texts != [] && texts[0] == root && Distinct(texts)
    ensures forall v :: v in texts <==> Reaches(deps, root, v)
    ensures Acyclic(deps) ==> Topological(texts[1..] + [root], deps)
  {
    var ordered := CollectTypes(deps, root);
    var others: seq<Id> := [];
    for i := 0 to |ordered|
      invariant others == if i < |ordered| then ordered[..i] else ordered[..|ordered| - 1]
    {
      if ordered[i] != root {
        others := others + [ordered[i]];
      }
    }
    texts := [root] + others;
    assert ordered == others + [root];
    assert texts[1..] == others;
    forall v ensures v in texts <==> v in ordered {}
  }
}
