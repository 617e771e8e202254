/** Pipeline parsing and graph validation (config.py): node table, edge lists, Kahn's
    algorithm, and a forward and a backward depth-first search. */
module PipelineConfig {
  import opened Graphs

  datatype NodeKind = StartNode | EndNode | OtherNode
  datatype NodeSpec = NodeSpec(id: Id, kind: NodeKind)

  datatype ConfigError =
    | DuplicateNode(id: Id)
    | UnknownEdge(src: Id, dst: Id)
    | StartCount
    | EndCount
    | HasCycle
    | UnreachableFromStart(missing: set<Id>)
    | CannotReachEnd(missing: set<Id>)

  datatype Result<T> = Ok(value: T) | Err(error: ConfigError)

  datatype Pipeline = Pipeline(nodes: set<Id>, pred: Adjacency, succ: Adjacency, start: Id, end: Id)

  /** Every edge joins two nodes of the pipeline. */
  ghost predicate EdgesInside(nodes: set<Id>, adj: Adjacency) {
    forall u, v {:trigger v in Out(adj, u)} :: v in Out(adj, u) ==> u in nodes && v in nodes
  }

  /** What the parser guarantees of the two edge tables before the graph is judged. */
  ghost predicate WellFormed(p: Pipeline) {
    && EdgesInside(p.nodes, p.succ)
    && Mirrored(p.succ, p.pred)
    && p.start in p.nodes && p.end in p.nodes && p.start != p.end
  }

  /** The graphs a pipeline may have: acyclic, and every node lies between start and end. */
  ghost predicate GoodGraph(p: Pipeline) {
    && Acyclic(p.succ)
    && (forall n :: n in p.nodes ==> Reaches(p.succ, p.start, n))
    && (forall n :: n in p.nodes ==> Reaches(p.succ, n, p.end))
  }

  ghost predicate Accepted(p: Pipeline) {
    WellFormed(p) && GoodGraph(p)
  }

  lemma EdgesInsideReversed(nodes: set<Id>, succ: Adjacency, pred: Adjacency)
    requires EdgesInside(nodes, succ) && Mirrored(succ, pred)
    ensures EdgesInside(nodes, pred)
  {
    forall u, v {:trigger v in Out(pred, u)} | v in Out(pred, u) ensures u in nodes && v in nodes {
      MirroredEdge(succ, pred, v, u);
    }
  }

  // ----- What acceptance gives the executor -----

  lemma ReachableInside(nodes: set<Id>, adj: Adjacency, u: Id, v: Id)
    requires EdgesInside(nodes, adj) && u in nodes && Reaches(adj, u, v)
    ensures v in nodes
  {
    ClosedHoldsReachable(adj, nodes, u, v);
  }

  /** In an accepted graph the start node is the only one without predecessors. */
  lemma StartIsOnlySource(p: Pipeline, n: Id)
    requires Accepted(p) && n in p.nodes
    ensures Out(p.pred, n) == [] <==> n == p.start
  {
    if n == p.start {
      if Out(p.pred, n) != [] {
        var u := Out(p.pred, n)[0];
        MirroredEdge(p.succ, p.pred, u, n);
        ReachesByEdge(p.succ, p.start, u, n);
        assert false;
      }
    } else {
      var w := LastEdge(p.succ, p.start, n);
      MirroredEdge(p.succ, p.pred, w, n);
    }
  }

  /** In an accepted graph the end node is the only one without successors. */
  lemma EndIsOnlySink(p: Pipeline, n: Id)
    requires Accepted(p) && n in p.nodes
    ensures Out(p.succ, n) == [] <==> n == p.end
  {
    if n == p.end {
      if Out(p.succ, n) != [] {
        var v := Out(p.succ, n)[0];
        assert n in p.nodes && v in Out(p.succ, n);
        ReachesSelf(p.succ, n);
        ReachesByEdge(p.succ, n, n, v);
        ReachesTransitive(p.succ, n, v, n);
        assert false;
      }
    } else {
      var q :| PathBetween(p.succ, q, n, p.end) && |q| >= 2;
      assert q[1] in Out(p.succ, n);
    }
  }

  /** In an accepted graph every other node is a proper ancestor of the end node. */
  lemma EveryNodeLeadsToEnd(p: Pipeline, n: Id)
    requires Accepted(p) && n in p.nodes && n != p.end
    ensures ReachesProperly(p.succ, n, p.end)
  {
  }

  // ----- Edge tables -----

  /** The neighbours of `n` in a list of (from, to) pairs, in list order. */
  function Targets(edges: seq<(Id, Id)>, n: Id): seq<Id> {
    if edges == [] then []
    else if edges[|edges| - 1].0 == n then Targets(edges[..|edges| - 1], n) + [edges[|edges| - 1].1]
    else Targets(edges[..|edges| - 1], n)
  }

  function Flipped(edges: seq<(Id, Id)>): (r: seq<(Id, Id)>)
    ensures |r| == |edges| && forall i :: 0 <= i < |r| ==> r[i] == (edges[i].1, edges[i].0)
  {
    seq(|edges|, i requires 0 <= i < |edges| => (edges[i].1, edges[i].0))
  }

  /** The multiplicity of a neighbour is the multiplicity of the edge. */
  lemma {:induction false} TargetsCount(edges: seq<(Id, Id)>, u: Id, v: Id)
    ensures multiset(Targets(edges, u))[v] == multiset(edges)[(u, v)]
  {
    if edges != [] {
      var rest := edges[..|edges| - 1];
      assert edges == rest + [edges[|edges| - 1]];
      TargetsCount(rest, u, v);
    }
  }

  /** Neighbours keep the order of the list: those of a concatenation are those of its parts, one after another. */
  lemma {:induction false} TargetsInListOrder(a: seq<(Id, Id)>, b: seq<(Id, Id)>, n: Id)
    ensures Targets(a + b, n) == Targets(a, n) + Targets(b, n)
  {
    if b == [] {
      assert a + b == a;
    } else {
      assert (a + b)[..|a + b| - 1] == a + b[..|b| - 1];
      TargetsInListOrder(a, b[..|b| - 1], n);
    }
  }

  lemma {:induction false} FlippedCount(edges: seq<(Id, Id)>, u: Id, v: Id)
    ensures multiset(edges)[(u, v)] == multiset(Flipped(edges))[(v, u)]
  {
    if edges != [] {
      var rest := edges[..|edges| - 1];
      assert edges == rest + [edges[|edges| - 1]];
      assert Flipped(edges) == Flipped(rest) + [(edges[|edges| - 1].1, edges[|edges| - 1].0)];
      FlippedCount(rest, u, v);
    }
  }

  /** `adj` holds exactly the neighbour lists of the edge list. */
  ghost predicate Tabulates(adj: Adjacency, edges: seq<(Id, Id)>) {
    forall n :: Out(adj, n) == Targets(edges, n)
  }

  lemma TablesMirror(succ: Adjacency, pred: Adjacency, edges: seq<(Id, Id)>)
    requires Tabulates(succ, edges) && Tabulates(pred, Flipped(edges))
    ensures Mirrored(succ, pred)
  {
    forall u, v ensures multiset(Out(succ, u))[v] == multiset(Out(pred, v))[u] {
      TargetsCount(edges, u, v);
      FlippedCount(edges, u, v);
      TargetsCount(Flipped(edges), v, u);
    }
  }

  lemma TableEdges(adj: Adjacency, edges: seq<(Id, Id)>, u: Id, v: Id)
    requires Tabulates(adj, edges)
    ensures v in Out(adj, u) <==> (u, v) in edges
  {
    TargetsCount(edges, u, v);
    assert v in Out(adj, u) <==> multiset(Targets(edges, u))[v] > 0;
    assert (u, v) in edges <==> multiset(edges)[(u, v)] > 0;
  }

  ghost predicate KnownEdges(nodes: set<Id>, edges: seq<(Id, Id)>) {
    forall e :: e in edges ==> e.0 in nodes && e.1 in nodes
  }

  /** `e` is the first edge of the list that names an unknown node. */
  ghost predicate FirstUnknown(nodes: set<Id>, edges: seq<(Id, Id)>, e: (Id, Id)) {
    exists i :: 0 <= i < |edges| && edges[i] == e && KnownEdges(nodes, edges[..i])
                && (e.0 !in nodes || e.1 !in nodes)
  }

  method BuildTables(nodes: set<Id>, edges: seq<(Id, Id)>) returns (r: Result<(Adjacency, Adjacency)>)
    ensures r.Ok? <==> KnownEdges(nodes, edges)
    ensures r.Ok? ==> Tabulates(r.value.0, Flipped(edges)) && Tabulates(r.value.1, edges)
    ensures r.Err? ==> r.error.UnknownEdge? && FirstUnknown(nodes, edges, (r.error.src, r.error.dst))
  {
    var pred: Adjacency, succ: Adjacency := map[], map[];
    for i := 0 to |edges|
      invariant KnownEdges(nodes, edges[..i])
      invariant Tabulates(succ, edges[..i]) && Tabulates(pred, Flipped(edges[..i]))
    {
      var (src, dst) := edges[i];
      if src !in nodes || dst !in nodes {
        assert edges[i] == (src, dst);
        return Err(UnknownEdge(src, dst));
      }
      assert edges[..i + 1][..i] == edges[..i];
      assert Flipped(edges[..i + 1])[..i] == Flipped(edges[..i]);
      pred := pred[dst := Out(pred, dst) + [src]];
      succ := succ[src := Out(succ, src) + [dst]];
    }
    assert edges[..|edges|] == edges;
    r := Ok((pred, succ));
  }

  // ----- Depth-first search -----

  method Dfs(root: Id, adj: Adjacency) returns (visited: set<Id>)
    ensures forall v :: v in visited <==> Reaches(adj, root, v)
  {
    visited := {};
    var stack := [root];
    ghost var all := Universe(adj, root);
    ReachesSelf(adj, root);
    while stack != []
      invariant root in visited || root in stack
      invariant forall v :: v in visited || v in stack ==> v in all && Reaches(adj, root, v)
      invariant forall u, v :: u in visited && v in Out(adj, u) ==> v in visited || v in stack
      decreases all - visited, |stack|
    {
      var node := stack[|stack| - 1];
      var rest := stack[..|stack| - 1];
      assert stack == rest + [node];
      if node in visited {
        stack := rest;
      } else {
        visited := visited + {node};
        stack := rest + Out(adj, node);
        forall v | v in Out(adj, node) ensures v in all && Reaches(adj, root, v) {
          ReachesByEdge(adj, root, node, v);
        }
      }
    }
    forall v | Reaches(adj, root, v) ensures v in visited {
      ClosedHoldsReachable(adj, visited, root, v);
    }
  }

  // ----- Kahn's algorithm -----

  /** How many entries of a predecessor list are not yet in `done`. */
  ghost function Remaining(l: seq<Id>, done: set<Id>): nat {
    if l == [] then 0 else (if l[0] in done then 0 else 1) + Remaining(l[1..], done)
  }

  lemma {:induction false} RemainingNone(l: seq<Id>)
    ensures Remaining(l, {}) == |l|
  {
    if l != [] {
      RemainingNone(l[1..]);
    }
  }

  lemma {:induction false} RemainingAfter(l: seq<Id>, done: set<Id>, x: Id)
    requires x !in done
    ensures Remaining(l, done) == Remaining(l, done + {x}) + multiset(l)[x]
  {
    if l != [] {
      assert l == [l[0]] + l[1..];
      RemainingAfter(l[1..], done, x);
    }
  }

  lemma {:induction false} RemainingZero(l: seq<Id>, done: set<Id>)
    ensures Remaining(l, done) == 0 <==> forall x :: x in l ==> x in done
  {
    if l != [] {
      assert l == [l[0]] + l[1..];
      RemainingZero(l[1..], done);
    }
  }

  lemma ProperSubsetLeaves(a: set<Id>, b: set<Id>) returns (x: Id)
    requires a <= b && a != b
    ensures x in b - a
  {
    x :| x in b && x !in a;
  }

  lemma SubsetOfSameSize(a: set<Id>, b: set<Id>)
    requires a <= b && |a| == |b|
    ensures a == b
  {
    assert |b - a| == |b| - |a|;
  }

  ghost predicate AllIn(l: seq<Id>, s: seq<Id>) {
    forall u :: u in l ==> u in s
  }

  /** Each node of the list comes after all its predecessors. */
  ghost predicate Topological(order: seq<Id>, pred: Adjacency) {
    forall i {:trigger order[..i]} :: 0 <= i < |order| ==> AllIn(Out(pred, order[i]), order[..i])
  }

  lemma TopologicalAppend(order: seq<Id>, pred: Adjacency, n: Id)
    requires Topological(order, pred) && AllIn(Out(pred, n), order)
    ensures Topological(order + [n], pred)
  {
    var longer := order + [n];
    forall i | 0 <= i < |longer| ensures AllIn(Out(pred, longer[i]), longer[..i]) {
      assert longer[..i] == order[..i];
      assert order[..|order|] == order;
    }
  }

  lemma {:induction false} PathClimbs(order: seq<Id>, succ: Adjacency, pred: Adjacency, p: seq<Id>, i: nat)
    returns (a: nat)
    requires Topological(order, pred) && Distinct(order) && Mirrored(succ, pred)
    requires IsPath(succ, p) && i < |order| && order[i] == p[|p| - 1]
    ensures a <= i && order[a] == p[0] && (|p| >= 2 ==> a < i)
    decreases |p|
  {
    if |p| == 1 {
      a := i;
    } else {
      var q := p[..|p| - 1];
      assert p[|p| - 2 + 1] in Out(succ, p[|p| - 2]);
      MirroredEdge(succ, pred, p[|p| - 2], p[|p| - 1]);
      assert p[|p| - 2] in order[..i];
      var b :| 0 <= b < i && order[b] == p[|p| - 2];
      a := PathClimbs(order, succ, pred, q, b);
    }
  }

  lemma CompleteOrderIsAcyclic(order: seq<Id>, nodes: set<Id>, succ: Adjacency, pred: Adjacency)
    requires Topological(order, pred) && Distinct(order) && Mirrored(succ, pred)
    requires EdgesInside(nodes, succ) && Elements(order) == nodes
    ensures Acyclic(succ)
  {
    forall u | ReachesProperly(succ, u, u) ensures false {
      var p :| PathBetween(succ, p, u, u) && |p| >= 2;
      assert p[1] in Out(succ, p[0]);
      assert u in nodes;
      var i :| 0 <= i < |order| && order[i] == u;
      var a := PathClimbs(order, succ, pred, p, i);
    }
  }

  /** Kahn's state. `order` is visited + queue; `done` are the visited nodes whose outgoing
      entries have been taken off the in-degrees, except for the entries still `pending`. */
  ghost predicate KahnState(nodes: set<Id>, pred: Adjacency, degree: map<Id, int>, order: seq<Id>,
                            done: set<Id>, pending: seq<Id>) {
    && degree.Keys == nodes
    && OrderOk(nodes, pred, order)
    && DegreesOk(pred, degree, done, pending)
    && ZerosOk(degree, order)
  }

  ghost predicate OrderOk(nodes: set<Id>, pred: Adjacency, order: seq<Id>) {
    Distinct(order) && Elements(order) <= nodes && Topological(order, pred)
  }

  ghost predicate DegreesOk(pred: Adjacency, degree: map<Id, int>, done: set<Id>, pending: seq<Id>) {
    forall v {:trigger degree[v]} :: v in degree ==>
      degree[v] == Remaining(Out(pred, v), done) + multiset(pending)[v]
  }

  ghost predicate ZerosOk(degree: map<Id, int>, order: seq<Id>) {
    forall v {:trigger degree[v]} {:trigger v in order} :: v in degree ==> (degree[v] == 0 <==> v in order)
  }

  lemma OrderAppend(nodes: set<Id>, pred: Adjacency, order: seq<Id>, n: Id)
    requires OrderOk(nodes, pred, order) && n in nodes && n !in order && AllIn(Out(pred, n), order)
    ensures OrderOk(nodes, pred, order + [n])
  {
    TopologicalAppend(order, pred, n);
    assert Elements(order + [n]) == Elements(order) + {n};
  }

  lemma DegreesStep(pred: Adjacency, degree: map<Id, int>, done: set<Id>, pending: seq<Id>)
    requires DegreesOk(pred, degree, done, pending) && pending != [] && pending[0] in degree
    ensures degree[pending[0]] >= 1
    ensures DegreesOk(pred, degree[pending[0] := degree[pending[0]] - 1], done, pending[1..])
  {
    var s := pending[0];
    assert pending == [s] + pending[1..];
    assert multiset(pending) == multiset{s} + multiset(pending[1..]);
  }

  /** Visiting a node turns its successor entries into pending ones. */
  lemma VisitNode(nodes: set<Id>, succ: Adjacency, pred: Adjacency, degree: map<Id, int>, order: seq<Id>,
                  done: set<Id>, node: Id)
    requires KahnState(nodes, pred, degree, order, done, []) && Mirrored(succ, pred) && node !in done
    ensures KahnState(nodes, pred, degree, order, done + {node}, Out(succ, node))
  {
    forall v | v in degree
      ensures degree[v] == Remaining(Out(pred, v), done + {node}) + multiset(Out(succ, node))[v]
    {
      RemainingAfter(Out(pred, v), done, node);
    }
  }

  lemma LastEntryReleases(pred: Adjacency, degree: map<Id, int>, order: seq<Id>, done: set<Id>, pending: seq<Id>,
                          s: Id)
    requires DegreesOk(pred, degree, done, pending) && s in degree && degree[s] == 0 && done <= Elements(order)
    ensures AllIn(Out(pred, s), order)
  {
    RemainingZero(Out(pred, s), done);
    assert forall x :: x in done ==> x in Elements(order);
  }

  /** Taking one pending entry off, and queueing its target when that was the last one. */
  lemma ReleaseEntry(nodes: set<Id>, pred: Adjacency, degree: map<Id, int>, order: seq<Id>,
                     done: set<Id>, pending: seq<Id>)
    requires KahnState(nodes, pred, degree, order, done, pending)
    requires pending != [] && pending[0] in nodes && done <= Elements(order)
    ensures degree.Keys == nodes
    ensures var s := pending[0]; var next := degree[s := degree[s] - 1];
      KahnState(nodes, pred, next, if next[s] == 0 then order + [s] else order, done, pending[1..])
  {
    hide OrderOk, DegreesOk;
    var s := pending[0];
    DegreesStep(pred, degree, done, pending);
    assert s !in order;
    var next := degree[s := degree[s] - 1];
    if next[s] == 0 {
      LastEntryReleases(pred, next, order, done, pending[1..], s);
      OrderAppend(nodes, pred, order, s);
    }
  }

  /** Nodes that are never released keep a predecessor among themselves, so there is a cycle. */
  lemma LeftoverMeansCycle(nodes: set<Id>, succ: Adjacency, pred: Adjacency, done: set<Id>)
    requires Mirrored(succ, pred) && EdgesInside(nodes, succ) && done < nodes
    requires forall v :: v in nodes - done ==> Remaining(Out(pred, v), done) != 0
    ensures !Acyclic(succ)
  {
    if Acyclic(succ) {
      AcyclicReversed(succ, pred);
      var y := ProperSubsetLeaves(done, nodes);
      var x := DescentEnds(pred, nodes - done);
      EdgesInsideReversed(nodes, succ, pred);
      forall w | w in Out(pred, x) ensures w in done {}
      RemainingZero(Out(pred, x), done);
      assert false;
    }
  }

  /** The queue Kahn's algorithm starts with: the nodes without predecessors. */
  method InitialQueue(ids: seq<Id>, pred: Adjacency) returns (degree: map<Id, int>, queue: seq<Id>)
    requires Distinct(ids)
    ensures KahnState(Elements(ids), pred, degree, queue, {}, [])
  {
    degree := map n | n in ids :: |Out(pred, n)|;
    queue := [];
    for i := 0 to |ids|
      invariant forall n :: n in queue <==> n in ids[..i] && degree[n] == 0
      invariant Distinct(queue)
    {
      if degree[ids[i]] == 0 {
        queue := queue + [ids[i]];
      }
    }
    forall v | v in degree ensures degree[v] == Remaining(Out(pred, v), {}) + multiset([])[v] {
      RemainingNone(Out(pred, v));
    }
    assert forall i :: 0 <= i < |queue| ==> queue[i] in queue;
  }

  /** The inner loop: every successor entry of `node` takes one off its target's in-degree. */
  method ReleaseSuccessors(pred: Adjacency, succ: Adjacency, degree0: map<Id, int>, queue0: seq<Id>, node: Id,
                           ghost visited: seq<Id>, ghost nodes: set<Id>)
    returns (degree: map<Id, int>, queue: seq<Id>)
    requires EdgesInside(nodes, succ)
    requires KahnState(nodes, pred, degree0, visited + queue0, Elements(visited), Out(succ, node))
    ensures KahnState(nodes, pred, degree, visited + queue, Elements(visited), [])
  {
    hide KahnState;
    degree, queue := degree0, queue0;
    var targets := Out(succ, node);
    assert targets[0..] == targets;
    for k := 0 to |targets|
      invariant KahnState(nodes, pred, degree, visited + queue, Elements(visited), targets[k..])
    {
      var s := targets[k];
      ghost var before := visited + queue;
      assert targets[k..][0] == s && targets[k..][1..] == targets[k + 1..];
      assert s in targets;
      assert Elements(visited) <= Elements(before);
      ReleaseEntry(nodes, pred, degree, before, Elements(visited), targets[k..]);
      degree := degree[s := degree[s] - 1];
      if degree[s] == 0 {
        queue := queue + [s];
        assert visited + queue == before + [s];
      }
    }
  }

  /** When the queue runs empty, the visited nodes are all nodes exactly for acyclic graphs. */
  lemma KahnVerdict(ids: seq<Id>, pred: Adjacency, succ: Adjacency, degree: map<Id, int>, visited: seq<Id>)
    requires Distinct(ids) && Mirrored(succ, pred) && EdgesInside(Elements(ids), succ)
    requires KahnState(Elements(ids), pred, degree, visited, Elements(visited), [])
    ensures OrderOk(Elements(ids), pred, visited)
    ensures |visited| == |ids| <==> Acyclic(succ)
  {
    DistinctSize(visited);
    DistinctSize(ids);
    if |visited| == |ids| {
      SubsetOfSameSize(Elements(visited), Elements(ids));
      CompleteOrderIsAcyclic(visited, Elements(ids), succ, pred);
    } else {
      assert Elements(visited) != Elements(ids);
      assert Elements(visited) < Elements(ids);
      LeftoverMeansCycle(Elements(ids), succ, pred, Elements(visited));
    }
  }

  /** The queue's front is a node not yet visited. */
  lemma FrontIsNew(nodes: set<Id>, pred: Adjacency, degree: map<Id, int>, visited: seq<Id>, queue: seq<Id>,
                   done: set<Id>)
    requires KahnState(nodes, pred, degree, visited + queue, done, []) && queue != []
    ensures queue[0] !in visited && queue[0] in nodes
  {
    var order := visited + queue;
    assert order[|visited|] == queue[0] && queue[0] in Elements(order);
    assert forall i :: 0 <= i < |visited| ==> order[i] == visited[i];
  }

  method KahnOrder(ids: seq<Id>, pred: Adjacency, succ: Adjacency) returns (visited: seq<Id>)
    requires Distinct(ids) && Mirrored(succ, pred) && EdgesInside(Elements(ids), succ)
    ensures OrderOk(Elements(ids), pred, visited)
    ensures |visited| == |ids| <==> Acyclic(succ)
  {
    hide KahnState;
    hide OrderOk;
    hide Mirrored;
    hide Distinct;
    ghost var nodes := Elements(ids);
    var degree, queue := InitialQueue(ids, pred);
    visited := [];
    assert visited + queue == queue && Elements(visited) == {};
    while queue != []
      invariant KahnState(nodes, pred, degree, visited + queue, Elements(visited), [])
      decreases nodes - Elements(visited)
    {
      ghost var order := visited + queue;
      ghost var done := Elements(visited);
      var node := queue[0];
      FrontIsNew(nodes, pred, degree, visited, queue, done);
      VisitNode(nodes, succ, pred, degree, order, done, node);
      queue := queue[1..];
      visited := visited + [node];
      assert visited + queue == order;
      assert Elements(visited) == done + {node};
      degree, queue := ReleaseSuccessors(pred, succ, degree, queue, node, visited, nodes);
    }
    assert visited + queue == visited;
    KahnVerdict(ids, pred, succ, degree, visited);
  }

  // ----- Validation -----

  /** `e` names the first rule the graph breaks: a cycle, then exactly the nodes that start does not reach, then
      exactly the nodes that do not reach end. */
  ghost predicate GraphFault(nodes: set<Id>, succ: Adjacency, start: Id, end: Id, e: ConfigError) {
    match e
    case HasCycle => !Acyclic(succ)
    case UnreachableFromStart(missing) =>
      Acyclic(succ) && missing != {} && forall n :: n in missing <==> n in nodes && !Reaches(succ, start, n)
    case CannotReachEnd(missing) =>
      && Acyclic(succ) && (forall n :: n in nodes ==> Reaches(succ, start, n))
      && missing != {} && forall n :: n in missing <==> n in nodes && !Reaches(succ, n, end)
    case _ => false
  }

  method ValidatePipelineGraph(ids: seq<Id>, p: Pipeline) returns (r: Result<()>)
    requires Distinct(ids) && p.nodes == Elements(ids) && WellFormed(p)
    ensures r.Ok? <==> GoodGraph(p)
    ensures r == Err(HasCycle) <==> !Acyclic(p.succ)
    ensures r.Err? ==> GraphFault(p.nodes, p.succ, p.start, p.end, r.error)
  {
    var visited := KahnOrder(ids, p.pred, p.succ);
    if |visited| != |ids| {
      return Err(HasCycle);
    }
    var reachable := Dfs(p.start, p.succ);
    forall n | n in reachable ensures n in p.nodes {
      ReachableInside(p.nodes, p.succ, p.start, n);
    }
    if reachable != p.nodes {
      var x := ProperSubsetLeaves(reachable, p.nodes);
      return Err(UnreachableFromStart(p.nodes - reachable));
    }
    var canReachEnd := Dfs(p.end, p.pred);
    EdgesInsideReversed(p.nodes, p.succ, p.pred);
    forall n ensures Reaches(p.pred, p.end, n) <==> Reaches(p.succ, n, p.end) {
      ReachesReversed(p.succ, p.pred, n, p.end);
    }
    forall n | n in canReachEnd ensures n in p.nodes {
      ReachableInside(p.nodes, p.pred, p.end, n);
    }
    if canReachEnd != p.nodes {
      var x := ProperSubsetLeaves(canReachEnd, p.nodes);
      return Err(CannotReachEnd(p.nodes - canReachEnd));
    }
    r := Ok(());
  }

  // ----- Parsing one pipeline section -----

  ghost predicate IdsDistinct(specs: seq<NodeSpec>) {
    forall i, j :: 0 <= i < j < |specs| ==> specs[i].id != specs[j].id
  }

  ghost function IdSet(specs: seq<NodeSpec>): set<Id> {
    set s | s in specs :: s.id
  }

  /** The neighbour table of an edge list, as a value. */
  ghost function Table(edges: seq<(Id, Id)>): Adjacency {
    map e | e in edges :: e.0 := Targets(edges, e.0)
  }

  /** The sections a parser should accept, judged from the node and edge lists alone. */
  ghost predicate Section(specs: seq<NodeSpec>, edges: seq<(Id, Id)>, start: Id, end: Id) {
    && IdsDistinct(specs) && KnownEdges(IdSet(specs), edges)
    && OnlyOfKind(specs, StartNode, start) && OnlyOfKind(specs, EndNode, end)
    && GoodGraph(Pipeline(IdSet(specs), Table(Flipped(edges)), Table(edges), start, end))
  }

  ghost predicate OnlyOfKind(specs: seq<NodeSpec>, kind: NodeKind, id: Id) {
    NodeSpec(id, kind) in specs && forall s :: s in specs && s.kind == kind ==> s.id == id
  }

  /** `e` names the first rule the section breaks, in the order in which the parser tests them. */
  ghost predicate FirstFault(specs: seq<NodeSpec>, edges: seq<(Id, Id)>, e: ConfigError) {
    match e
    case DuplicateNode(id) => FirstRepeat(specs, id)
    case UnknownEdge(src, dst) => IdsDistinct(specs) && FirstUnknown(IdSet(specs), edges, (src, dst))
    case StartCount => Listed(specs, edges) && forall id :: !OnlyOfKind(specs, StartNode, id)
    case EndCount =>
      && Listed(specs, edges) && (exists id :: OnlyOfKind(specs, StartNode, id))
      && forall id :: !OnlyOfKind(specs, EndNode, id)
    case _ =>
      && Listed(specs, edges)
      && exists start, end :: OnlyOfKind(specs, StartNode, start) && OnlyOfKind(specs, EndNode, end)
                              && GraphFault(IdSet(specs), Table(edges), start, end, e)
  }

  ghost predicate Listed(specs: seq<NodeSpec>, edges: seq<(Id, Id)>) {
    IdsDistinct(specs) && KnownEdges(IdSet(specs), edges)
  }

  /** The first entry whose id occurs before has the id `id`. */
  ghost predicate FirstRepeat(specs: seq<NodeSpec>, id: Id) {
    exists j :: 0 <= j < |specs| && specs[j].id == id && IdsDistinct(specs[..j]) && id in IdSet(specs[..j])
  }

  lemma {:induction false} TargetsKnown(edges: seq<(Id, Id)>, n: Id)
    requires forall e :: e in edges ==> e.0 != n
    ensures Targets(edges, n) == []
  {
    if edges != [] {
      TargetsKnown(edges[..|edges| - 1], n);
    }
  }

  lemma TableTabulates(edges: seq<(Id, Id)>)
    ensures Tabulates(Table(edges), edges)
  {
    forall n ensures Out(Table(edges), n) == Targets(edges, n) {
      if n !in Table(edges) {
        forall e | e in edges ensures e.0 != n {
          assert e.0 in Table(edges);
        }
        TargetsKnown(edges, n);
      }
    }
  }

  /** Tables with the same neighbour lists describe the same graph. */
  lemma SameListsSameGraph(p: Pipeline, q: Pipeline)
    requires forall n :: Out(p.succ, n) == Out(q.succ, n)
    requires p.nodes == q.nodes && p.start == q.start && p.end == q.end
    ensures GoodGraph(p) <==> GoodGraph(q)
  {
    SameListsSamePaths(p.succ, q.succ);
    hide Reaches, ReachesProperly;
  }

  lemma SameListsSamePaths(a: Adjacency, b: Adjacency)
    requires forall n :: Out(a, n) == Out(b, n)
    ensures forall u, v :: Reaches(a, u, v) <==> Reaches(b, u, v)
    ensures forall u, v :: ReachesProperly(a, u, v) <==> ReachesProperly(b, u, v)
  {
    forall s ensures IsPath(a, s) <==> IsPath(b, s) {
    }
    forall u, v ensures Reaches(a, u, v) <==> Reaches(b, u, v) {
      assert forall s :: PathBetween(a, s, u, v) <==> PathBetween(b, s, u, v);
    }
    forall u, v ensures ReachesProperly(a, u, v) <==> ReachesProperly(b, u, v) {
      assert forall s :: PathBetween(a, s, u, v) <==> PathBetween(b, s, u, v);
    }
  }

  function IdsOf(specs: seq<NodeSpec>, kind: NodeKind): seq<Id> {
    if specs == [] then []
    else if specs[|specs| - 1].kind == kind then IdsOf(specs[..|specs| - 1], kind) + [specs[|specs| - 1].id]
    else IdsOf(specs[..|specs| - 1], kind)
  }

  lemma {:induction false} IdsOfMembers(specs: seq<NodeSpec>, kind: NodeKind, id: Id)
    ensures id in IdsOf(specs, kind) <==> NodeSpec(id, kind) in specs
  {
    if specs != [] {
      var rest, last := specs[..|specs| - 1], specs[|specs| - 1];
      assert specs == rest + [last];
      IdsOfMembers(rest, kind, id);
    }
  }

  lemma {:induction false} IdsOfDistinct(specs: seq<NodeSpec>, kind: NodeKind)
    requires IdsDistinct(specs)
    ensures Distinct(IdsOf(specs, kind))
  {
    if specs != [] {
      var rest, last := specs[..|specs| - 1], specs[|specs| - 1];
      IdsOfDistinct(rest, kind);
      IdsOfMembers(rest, kind, last.id);
    }
  }

  lemma ExactlyOne(specs: seq<NodeSpec>, kind: NodeKind)
    requires IdsDistinct(specs)
    ensures |IdsOf(specs, kind)| == 1 ==> OnlyOfKind(specs, kind, IdsOf(specs, kind)[0])
    ensures forall id :: OnlyOfKind(specs, kind, id) ==> IdsOf(specs, kind) == [id]
  {
    var ids := IdsOf(specs, kind);
    forall id ensures id in ids <==> NodeSpec(id, kind) in specs {
      IdsOfMembers(specs, kind, id);
    }
    IdsOfDistinct(specs, kind);
    assert |ids| >= 2 ==> ids[0] != ids[1];
    if |ids| == 1 {
      forall s | s in specs && s.kind == kind ensures s.id == ids[0] {
        assert s == NodeSpec(s.id, kind) && s.id in ids;
      }
    }
    forall id | OnlyOfKind(specs, kind, id) ensures ids == [id] {
      assert id in ids;
      forall k | 0 <= k < |ids| ensures ids[k] == id {
        assert ids[k] in ids && NodeSpec(ids[k], kind) in specs;
      }
    }
  }

  method CollectIds(specs: seq<NodeSpec>, kind: NodeKind) returns (ids: seq<Id>)
    ensures ids == IdsOf(specs, kind)
  {
    ids := [];
    for i := 0 to |specs|
      invariant ids == IdsOf(specs[..i], kind)
    {
      assert specs[..i + 1][..i] == specs[..i];
      if specs[i].kind == kind {
        ids := ids + [specs[i].id];
      }
    }
    assert specs[..|specs|] == specs;
  }

  method IndexNodes(specs: seq<NodeSpec>) returns (r: Result<seq<Id>>)
    ensures r.Ok? <==> IdsDistinct(specs)
    ensures r.Ok? ==> Distinct(r.value) && Elements(r.value) == IdSet(specs)
    ensures r.Ok? ==> |r.value| == |specs| && forall k :: 0 <= k < |specs| ==> r.value[k] == specs[k].id
    ensures r.Err? ==> r.error.DuplicateNode? && FirstRepeat(specs, r.error.id)
  {
    var ids: seq<Id> := [];
    for i := 0 to |specs|
      invariant |ids| == i && forall k :: 0 <= k < i ==> ids[k] == specs[k].id
      invariant IdsDistinct(specs[..i])
    {
      if specs[i].id in ids {
        var k :| 0 <= k < i && ids[k] == specs[i].id;
        assert specs[..i][k].id in IdSet(specs[..i]);
        return Err(DuplicateNode(specs[i].id));
      }
      ids := ids + [specs[i].id];
    }
    assert specs[..|specs|] == specs;
    forall x ensures x in Elements(ids) <==> x in IdSet(specs) {
      if x in IdSet(specs) {
        var k :| 0 <= k < |specs| && specs[k].id == x;
        assert ids[k] == x;
      }
    }
    r := Ok(ids);
  }

  /** A section is accepted exactly when it meets the rules, whatever tables the parser builds. */
  lemma TablesJudgeSection(specs: seq<NodeSpec>, edges: seq<(Id, Id)>, p: Pipeline)
    requires IdsDistinct(specs) && KnownEdges(IdSet(specs), edges)
    requires OnlyOfKind(specs, StartNode, p.start) && OnlyOfKind(specs, EndNode, p.end)
    requires p.nodes == IdSet(specs) && Tabulates(p.succ, edges) && Tabulates(p.pred, Flipped(edges))
    ensures WellFormed(p)
    ensures GoodGraph(p) <==> Section(specs, edges, p.start, p.end)
  {
    TablesMirror(p.succ, p.pred, edges);
    forall u, v {:trigger v in Out(p.succ, u)} | v in Out(p.succ, u) ensures u in p.nodes && v in p.nodes {
      TableEdges(p.succ, edges, u, v);
      assert (u, v) in edges;
    }
    assert NodeSpec(p.start, StartNode).id in IdSet(specs) && NodeSpec(p.end, EndNode).id in IdSet(specs);
    assert p.start != p.end by {
      var i :| 0 <= i < |specs| && specs[i] == NodeSpec(p.start, StartNode);
      var j :| 0 <= j < |specs| && specs[j] == NodeSpec(p.end, EndNode);
      assert specs[i] != specs[j];
    }
    TableTabulates(edges);
    SameListsSameGraph(p, Pipeline(IdSet(specs), Table(Flipped(edges)), Table(edges), p.start, p.end));
  }

  lemma SameGraphSameFault(specs: seq<NodeSpec>, edges: seq<(Id, Id)>, p: Pipeline, e: ConfigError)
    requires Listed(specs, edges) && p.nodes == IdSet(specs) && Tabulates(p.succ, edges)
    requires OnlyOfKind(specs, StartNode, p.start) && OnlyOfKind(specs, EndNode, p.end)
    requires GraphFault(p.nodes, p.succ, p.start, p.end, e)
    ensures FirstFault(specs, edges, e)
  {
    TableTabulates(edges);
    SameListsSamePaths(p.succ, Table(edges));
    hide Reaches, ReachesProperly, OnlyOfKind;
    assert GraphFault(IdSet(specs), Table(edges), p.start, p.end, e);
  }

  method ParsePipeline(specs: seq<NodeSpec>, edges: seq<(Id, Id)>) returns (r: Result<Pipeline>)
    ensures r.Ok? <==> exists start, end :: Section(specs, edges, start, end)
    ensures r.Ok? ==> Accepted(r.value) && Section(specs, edges, r.value.start, r.value.end)
    ensures r.Ok? ==> r.value.nodes == IdSet(specs)
    ensures r.Err? ==> FirstFault(specs, edges, r.error)
    ensures r.Ok? ==> Tabulates(r.value.succ, edges) && Tabulates(r.value.pred, Flipped(edges))
  {
    hide GoodGraph;
    hide Tabulates;
    var ids := IndexNodes(specs);
    if ids.Err? {
      return Err(ids.error);
    }
    var tables := BuildTables(Elements(ids.value), edges);
    if tables.Err? {
      return Err(tables.error);
    }
    var starts := CollectIds(specs, StartNode);
    var ends := CollectIds(specs, EndNode);
    ExactlyOne(specs, StartNode);
    ExactlyOne(specs, EndNode);
    if |starts| != 1 {
      return Err(StartCount);
    }
    if |ends| != 1 {
      return Err(EndCount);
    }
    var p := Pipeline(Elements(ids.value), tables.value.0, tables.value.1, starts[0], ends[0]);
    TablesJudgeSection(specs, edges, p);
    var verdict := ValidatePipelineGraph(ids.value, p);
    if verdict.Err? {
      SameGraphSameFault(specs, edges, p, verdict.error);
      return Err(verdict.error);
    }
    r := Ok(p);
  }
}
