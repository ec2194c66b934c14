/** utils/check_graph.py: which targets a layered search from one node never reaches. */
module CheckGraph {
  import opened Reachability

  datatype Outcome = Inaccessible(targets: set<NodeId>) | KeyError(missing: NodeId)

  function AllTargets(g: Digraph): set<NodeId> {
    set a, b | a in g && b in g[a] :: b
  }

  /** Union of the successors of a layer; a node the dictionary does not know raises KeyError. */
  method Expand(g: Digraph, layer: set<NodeId>) returns (next: set<NodeId>, bad: set<NodeId>)
    ensures bad == {} ==> layer <= g.Keys && forall v :: v in next <==> exists u :: u in layer && Step(g, u, v)
    ensures bad != {} ==> exists u :: bad == {u} && u in layer && u !in g
  {
    next, bad := {}, {};
    var left := layer;
    while left != {}
      invariant left <= layer && layer - left <= g.Keys
      invariant forall v :: v in next <==> exists u :: u in layer - left && Step(g, u, v)
      decreases left
    {
      var u :| u in left;
      if u !in g {
        return next, {u};
      }
      ghost var done := layer - left;
      next := next + g[u];
      left := left - {u};
      assert layer - left == done + {u};
      forall v | v in next ensures exists w :: w in layer - left && Step(g, w, v) {
        if v in g[u] {
          assert Step(g, u, v);
        } else {
          var w :| w in done && Step(g, w, v);
        }
      }
    }
  }

  /** Exactly the targets that no path of one or more edges leads to; KeyError exactly when the
      search meets a node the dictionary does not know. */
  method InaccessibleNodeIds(g: Digraph, start: NodeId, targets: set<NodeId>) returns (r: Outcome)
    ensures r.Inaccessible? <==> forall u :: Reaches(g, start, u) ==> u in g
    ensures r.Inaccessible? ==> r.targets == set t | t in targets && !ReachesOnward(g, start, t)
    ensures r.KeyError? ==> Reaches(g, start, r.missing) && r.missing !in g
  {
    var layer, visited := {start}, {};
    ghost var expanded: set<NodeId> := {};
    ReachesSelf(g, start);
    while layer != {}
      invariant forall u :: u in layer ==> Reaches(g, start, u)
      invariant forall u :: u in visited ==> ReachesOnward(g, start, u)
      invariant start in layer || start in expanded
      invariant visited <= layer + expanded && expanded <= g.Keys
      invariant forall u, v :: u in expanded && Step(g, u, v) ==> v in visited
      invariant visited <= AllTargets(g)
      decreases AllTargets(g) - visited, layer != {}
    {
      var next, bad := Expand(g, layer);
      if bad != {} {
        var u :| u in bad;
        return KeyError(u);
      }
      forall v | v in next ensures ReachesOnward(g, start, v) && Reaches(g, start, v) && v in AllTargets(g) {
        var u :| u in layer && Step(g, u, v);
        ReachesStep(g, start, u, v);
      }
      next := next - visited;
      expanded := expanded + layer;
      visited := visited + next;
      layer := next;
    }
    ClosedOnward(g, visited, start);
    ClosedReaches(g, expanded, start);
    r := Inaccessible(targets - visited);
  }
}
