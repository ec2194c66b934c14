/** Reachability in a routing graph, the common meaning of the searches in rr_graph_walk.py and
    check_graph.py. A node missing from the map has no successors. */
module Reachability {

  datatype NodeId = NodeId(id: int)

  type Digraph = map<NodeId, set<NodeId>>

  predicate Step(g: Digraph, a: NodeId, b: NodeId) { a in g && b in g[a] }

  ghost predicate IsPath(g: Digraph, p: seq<NodeId>) {
    p != [] && forall i :: 0 <= i < |p| - 1 ==> Step(g, p[i], p[i + 1])
  }

  ghost predicate Joins(g: Digraph, p: seq<NodeId>, s: NodeId, t: NodeId) {
    IsPath(g, p) && p[0] == s && p[|p| - 1] == t
  }

  /** t can be reached from s along zero or more edges. */
  ghost predicate Reaches(g: Digraph, s: NodeId, t: NodeId) {
    exists p :: Joins(g, p, s, t)
  }

  /** t can be reached from s along one or more edges. */
  ghost predicate ReachesOnward(g: Digraph, s: NodeId, t: NodeId) {
    exists p :: Joins(g, p, s, t) && |p| >= 2
  }

  lemma ReachesSelf(g: Digraph, s: NodeId)
    ensures Reaches(g, s, s)
  {
    assert Joins(g, [s], s, s);
  }

  lemma ReachesStep(g: Digraph, s: NodeId, u: NodeId, v: NodeId)
    requires Reaches(g, s, u) && Step(g, u, v)
    ensures ReachesOnward(g, s, v) && Reaches(g, s, v)
  {
    var p :| Joins(g, p, s, u);
    assert Joins(g, p + [v], s, v);
  }

  lemma ReachesTrans(g: Digraph, s: NodeId, u: NodeId, t: NodeId)
    requires Reaches(g, s, u) && Reaches(g, u, t)
    ensures Reaches(g, s, t)
  {
    var p, q :| Joins(g, p, s, u) && Joins(g, q, u, t);
    var r := p + q[1..];
    forall i | 0 <= i < |r| - 1 ensures Step(g, r[i], r[i + 1]) {
      if i >= |p| - 1 {
        assert Step(g, q[i - (|p| - 1)], q[i - (|p| - 1) + 1]);
      }
    }
    assert Joins(g, r, s, t);
  }

  /** More edges reach no less. */
  lemma ReachesMore(g: Digraph, h: Digraph, s: NodeId, t: NodeId)
    requires forall a, b :: Step(g, a, b) ==> Step(h, a, b)
    requires Reaches(g, s, t)
    ensures Reaches(h, s, t)
  {
    var p :| Joins(g, p, s, t);
    forall i | 0 <= i < |p| - 1 ensures Step(h, p[i], p[i + 1]) {
      assert Step(g, p[i], p[i + 1]);
    }
    assert Joins(h, p, s, t);
  }

  /** Reaching onward is reaching the source of some edge into the target. */
  lemma OnwardLast(g: Digraph, s: NodeId, t: NodeId)
    ensures ReachesOnward(g, s, t) <==> exists u :: Reaches(g, s, u) && Step(g, u, t)
  {
    if ReachesOnward(g, s, t) {
      var p :| Joins(g, p, s, t) && |p| >= 2;
      var u := p[|p| - 2];
      assert Joins(g, p[..|p| - 1], s, u);
      assert Step(g, p[|p| - 2], p[|p| - 1]);
    }
    if u :| Reaches(g, s, u) && Step(g, u, t) {
      ReachesStep(g, s, u, t);
    }
  }

  lemma ReachesSplit(g: Digraph, s: NodeId, t: NodeId)
    ensures Reaches(g, s, t) <==> s == t || ReachesOnward(g, s, t)
  {
    if Reaches(g, s, t) {
      var p :| Joins(g, p, s, t);
    }
    if s == t { ReachesSelf(g, s); }
  }

  /** A set that holds s and is closed under edges holds everything s reaches. */
  lemma {:induction false} ClosedPath(g: Digraph, closed: set<NodeId>, p: seq<NodeId>)
    requires IsPath(g, p) && p[0] in closed
    requires forall u, v :: u in closed && Step(g, u, v) ==> v in closed
    ensures p[|p| - 1] in closed
  {
    if |p| > 1 {
      ClosedPath(g, closed, p[..|p| - 1]);
      assert Step(g, p[|p| - 2], p[|p| - 1]);
    }
  }

  lemma ClosedReaches(g: Digraph, closed: set<NodeId>, s: NodeId)
    requires s in closed
    requires forall u, v :: u in closed && Step(g, u, v) ==> v in closed
    ensures forall t :: Reaches(g, s, t) ==> t in closed
  {
    forall t | Reaches(g, s, t) ensures t in closed {
      var p :| Joins(g, p, s, t);
      ClosedPath(g, closed, p);
    }
  }

  /** The same, for what is reached along one or more edges. */
  lemma ClosedOnward(g: Digraph, closed: set<NodeId>, s: NodeId)
    requires forall v :: Step(g, s, v) ==> v in closed
    requires forall u, v :: u in closed && Step(g, u, v) ==> v in closed
    ensures forall t :: ReachesOnward(g, s, t) ==> t in closed
  {
    forall t | ReachesOnward(g, s, t) ensures t in closed {
      var p :| Joins(g, p, s, t) && |p| >= 2;
      assert Step(g, p[0], p[1]);
      forall i | 0 <= i < |p[1..]| - 1 ensures Step(g, p[1..][i], p[1..][i + 1]) {
        assert Step(g, p[i + 1], p[i + 1 + 1]);
      }
      ClosedPath(g, closed, p[1..]);
    }
  }

  /** Edges turned round. */
  ghost predicate Reverses(g: Digraph, r: Digraph) {
    forall a, b :: Step(g, a, b) <==> Step(r, b, a)
  }

  function Backwards(p: seq<NodeId>): seq<NodeId> {
    seq(|p|, i requires 0 <= i < |p| => p[|p| - 1 - i])
  }

  /** Searching backwards from t finds s exactly when searching forwards from s finds t. */
  lemma ReversedReaches(g: Digraph, r: Digraph, s: NodeId, t: NodeId)
    requires Reverses(g, r)
    ensures Reaches(g, s, t) <==> Reaches(r, t, s)
  {
    if Reaches(g, s, t) {
      var p :| Joins(g, p, s, t);
      ReversedPath(g, r, p, s, t);
    }
    if Reaches(r, t, s) {
      var p :| Joins(r, p, t, s);
      ReversedPath(r, g, p, t, s);
    }
  }

  lemma ReversedPath(g: Digraph, r: Digraph, p: seq<NodeId>, s: NodeId, t: NodeId)
    requires Reverses(g, r) && Joins(g, p, s, t)
    ensures Joins(r, Backwards(p), t, s)
  {
    var q, n := Backwards(p), |p| - 1;
    forall i | 0 <= i < n ensures Step(r, q[i], q[i + 1]) {
      assert Step(g, p[n - 1 - i], p[n - 1 - i + 1]);
    }
  }
}
