/** Directed graphs given by adjacency lists, as the configuration parser stores them:
    a dictionary from a node id to the list of its neighbours, where a missing key means
    no neighbours and a repeated edge is a repeated list entry. */
module Graphs {
  type Id = string
  type Adjacency = map<Id, seq<Id>>

  predicate Distinct(s: seq<Id>) {
    forall i, j :: 0 <= i < j < |s| ==> s[i] != s[j]
  }

  function Elements(s: seq<Id>): set<Id> {
    set x | x in s
  }

  lemma {:induction false} DistinctSize(s: seq<Id>)
    requires Distinct(s)
    ensures |Elements(s)| == |s|
  {
    if s != [] {
      DistinctSize(s[1..]);
      assert Elements(s) == {s[0]} + Elements(s[1..]);
    }
  }

  /** `adjacency.get(node, [])` */
  function Out(adj: Adjacency, n: Id): seq<Id> {
    if n in adj then adj[n] else []
  }

  /** A non-empty sequence of nodes in which each is a neighbour of the one before. */
  ghost predicate IsPath(adj: Adjacency, p: seq<Id>) {
    |p| > 0 && forall i :: 0 <= i < |p| - 1 ==> p[i + 1] in Out(adj, p[i])
  }

  ghost predicate PathBetween(adj: Adjacency, p: seq<Id>, u: Id, v: Id) {
    IsPath(adj, p) && p[0] == u && p[|p| - 1] == v
  }

  ghost predicate Reaches(adj: Adjacency, u: Id, v: Id) {
    exists p :: PathBetween(adj, p, u, v)
  }

  /** Reachability by a path of at least one edge. */
  ghost predicate ReachesProperly(adj: Adjacency, u: Id, v: Id) {
    exists p :: PathBetween(adj, p, u, v) && |p| >= 2
  }

  ghost predicate Acyclic(adj: Adjacency) {
    forall u :: !ReachesProperly(adj, u, u)
  }

  /** Every node a search from `root` could ever put on its stack. */
  ghost function Universe(adj: Adjacency, root: Id): set<Id> {
    {root} + set k, v | k in adj && v in adj[k] :: v
  }

  ghost predicate ClosedUnder(adj: Adjacency, s: set<Id>) {
    forall u, v :: u in s && v in Out(adj, u) ==> v in s
  }

  lemma ReachesSelf(adj: Adjacency, u: Id)
    ensures Reaches(adj, u, u)
  {
    assert PathBetween(adj, [u], u, u);
  }

  lemma ReachesByEdge(adj: Adjacency, u: Id, v: Id, w: Id)
    requires Reaches(adj, u, v) && w in Out(adj, v)
    ensures Reaches(adj, u, w) && ReachesProperly(adj, u, w)
  {
    var p :| PathBetween(adj, p, u, v);
    assert PathBetween(adj, p + [w], u, w);
  }

  lemma ReachesTransitive(adj: Adjacency, u: Id, v: Id, w: Id)
    requires Reaches(adj, u, v) && Reaches(adj, v, w)
    ensures Reaches(adj, u, w)
    ensures ReachesProperly(adj, u, v) || ReachesProperly(adj, v, w) ==> ReachesProperly(adj, u, w)
  {
    var p :| PathBetween(adj, p, u, v) && (ReachesProperly(adj, u, v) ==> |p| >= 2);
    var q :| PathBetween(adj, q, v, w) && (ReachesProperly(adj, v, w) ==> |q| >= 2);
    var r := p + q[1..];
    assert forall i :: 0 <= i < |r| - 1 ==> r[i + 1] in Out(adj, r[i]) by {
      forall i | 0 <= i < |r| - 1 ensures r[i + 1] in Out(adj, r[i]) {
        if i >= |p| - 1 {
          assert r[i] == q[i - |p| + 1] && r[i + 1] == q[i - |p| + 2];
        }
      }
    }
    assert PathBetween(adj, r, u, w);
  }

  /** The last edge of a proper path. */
  lemma LastEdge(adj: Adjacency, u: Id, v: Id) returns (w: Id)
    requires ReachesProperly(adj, u, v)
    ensures Reaches(adj, u, w) && v in Out(adj, w)
  {
    var p :| PathBetween(adj, p, u, v) && |p| >= 2;
    w := p[|p| - 2];
    assert PathBetween(adj, p[..|p| - 1], u, w);
  }

  /** A set that holds the first node of a path and is closed under edges holds the whole path. */
  lemma ClosedHoldsPath(adj: Adjacency, s: set<Id>, p: seq<Id>, k: nat)
    requires IsPath(adj, p) && p[0] in s && ClosedUnder(adj, s) && k < |p|
    ensures p[k] in s
  {
    if k > 0 {
      ClosedHoldsPath(adj, s, p, k - 1);
    }
  }

  lemma ClosedHoldsReachable(adj: Adjacency, s: set<Id>, u: Id, v: Id)
    requires u in s && ClosedUnder(adj, s) && Reaches(adj, u, v)
    ensures v in s
  {
    var p :| PathBetween(adj, p, u, v);
    ClosedHoldsPath(adj, s, p, |p| - 1);
  }

  // ----- Reversal -----

  /** `pred` lists every edge of `succ` backwards, with the same multiplicity. */
  ghost predicate Mirrored(succ: Adjacency, pred: Adjacency) {
    forall u, v :: multiset(Out(succ, u))[v] == multiset(Out(pred, v))[u]
  }

  lemma MirroredEdge(succ: Adjacency, pred: Adjacency, u: Id, v: Id)
    requires Mirrored(succ, pred)
    ensures v in Out(succ, u) <==> u in Out(pred, v)
  {
    assert v in multiset(Out(succ, u)) <==> multiset(Out(succ, u))[v] > 0;
    assert u in multiset(Out(pred, v)) <==> multiset(Out(pred, v))[u] > 0;
  }

  function Reverse(p: seq<Id>): (r: seq<Id>)
    ensures |r| == |p|
    ensures forall i :: 0 <= i < |p| ==> r[i] == p[|p| - 1 - i]
  {
    if |p| == 0 then [] else Reverse(p[1..]) + [p[0]]
  }

  lemma ReversePath(succ: Adjacency, pred: Adjacency, p: seq<Id>)
    requires Mirrored(succ, pred) && IsPath(succ, p)
    ensures IsPath(pred, Reverse(p))
  {
    var r := Reverse(p);
    forall i | 0 <= i < |r| - 1 ensures r[i + 1] in Out(pred, r[i]) {
      MirroredEdge(succ, pred, r[i + 1], r[i]);
      assert p[|p| - 1 - i] in Out(succ, p[|p| - 2 - i]);
    }
  }

  lemma ReachesReversed(succ: Adjacency, pred: Adjacency, u: Id, v: Id)
    requires Mirrored(succ, pred)
    ensures Reaches(succ, u, v) <==> Reaches(pred, v, u)
  {
    if Reaches(succ, u, v) {
      var p :| PathBetween(succ, p, u, v);
      ReversePath(succ, pred, p);
      assert PathBetween(pred, Reverse(p), v, u);
    }
    if Reaches(pred, v, u) {
      var p :| PathBetween(pred, p, v, u);
      assert Mirrored(pred, succ);
      ReversePath(pred, succ, p);
      assert PathBetween(succ, Reverse(p), u, v);
    }
  }

  // ----- Finite descent -----

  /** Pigeonhole: a sequence longer than the set its elements come from repeats one. */
  lemma {:induction false} Pigeonhole(p: seq<Id>, s: set<Id>) returns (i: nat, j: nat)
    requires forall k :: 0 <= k < |p| ==> p[k] in s
    requires |p| > |s|
    ensures i < j < |p| && p[i] == p[j]
  {
    var x := p[|p| - 1];
    var rest := p[..|p| - 1];
    if x in rest {
      i :| 0 <= i < |rest| && rest[i] == x;
      j := |p| - 1;
    } else {
      i, j := Pigeonhole(rest, s - {x});
    }
  }

  ghost predicate HasNeighbourIn(adj: Adjacency, s: set<Id>, v: Id) {
    exists w :: w in Out(adj, v) && w in s
  }

  ghost predicate NoSink(adj: Adjacency, s: set<Id>) {
    forall v {:trigger HasNeighbourIn(adj, s, v)} :: v in s ==> HasNeighbourIn(adj, s, v)
  }

  /** Where every node of `s` has a neighbour in `s`, a path of any length stays inside `s`. */
  lemma {:induction false} LongPath(adj: Adjacency, s: set<Id>, x: Id, n: nat) returns (p: seq<Id>)
    requires x in s && NoSink(adj, s)
    ensures IsPath(adj, p) && |p| == n + 1 && p[0] == x
    ensures forall k :: 0 <= k < |p| ==> p[k] in s
    decreases n
  {
    if n == 0 {
      p := [x];
    } else {
      assert HasNeighbourIn(adj, s, x);
      var w :| w in Out(adj, x) && w in s;
      var q := LongPath(adj, s, w, n - 1);
      p := [x] + q;
    }
  }

  /** In an acyclic graph every non-empty finite set holds a node with no neighbour in the set. */
  lemma {:induction false} DescentEnds(adj: Adjacency, s: set<Id>) returns (x: Id)
    requires Acyclic(adj) && s != {}
    ensures x in s && forall w :: w in Out(adj, x) ==> w !in s
  {
    if NoSink(adj, s) {
      var y :| y in s;
      var p := LongPath(adj, s, y, |s|);
      var i, j := Pigeonhole(p, s);
      var loop := p[i..j + 1];
      assert forall k :: 0 <= k < |loop| ==> loop[k] == p[i + k];
      assert PathBetween(adj, loop, p[i], p[i]);
      assert ReachesProperly(adj, p[i], p[i]);
      assert false;
    } else {
      x :| x in s && !HasNeighbourIn(adj, s, x);
    }
  }

  lemma ReachesProperlyReversed(succ: Adjacency, pred: Adjacency, u: Id, v: Id)
    requires Mirrored(succ, pred) && ReachesProperly(pred, u, v)
    ensures ReachesProperly(succ, v, u)
  {
    var p :| PathBetween(pred, p, u, v) && |p| >= 2;
    assert Mirrored(pred, succ);
    ReversePath(pred, succ, p);
    assert PathBetween(succ, Reverse(p), v, u);
  }

  lemma AcyclicReversed(succ: Adjacency, pred: Adjacency)
    requires Mirrored(succ, pred) && Acyclic(succ)
    ensures Acyclic(pred)
  {
    forall u | ReachesProperly(pred, u, u) ensures false {
      ReachesProperlyReversed(succ, pred, u, u);
    }
  }
}
