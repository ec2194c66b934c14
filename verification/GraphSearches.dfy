/** utils/check_graph.py and utils/rr_graph_walk/rr_graph_walk.py on one graph: the layered search and the
    depth-first walk from the same start say the same. */
module GraphSearches {
  import opened Reachability
  import opened CheckGraph
  import TypedGraph
  import Walk

  ghost predicate SameSteps(g: Digraph, h: Digraph) { forall a, b :: Step(g, a, b) <==> Step(h, a, b) }

  /** What can be reached depends on the steps alone. */
  lemma SameReach(g: Digraph, h: Digraph, s: NodeId, t: NodeId)
    requires SameSteps(g, h)
    ensures Reaches(g, s, t) <==> Reaches(h, s, t)
    ensures ReachesOnward(g, s, t) <==> ReachesOnward(h, s, t)
  {
    assert forall p :: Joins(g, p, s, t) <==> Joins(h, p, s, t);
  }

  lemma SameReturn(g: Digraph, h: Digraph, s: NodeId)
    requires SameSteps(g, h)
    ensures Walk.ReturnsToStart(g, s) <==> ReachesOnward(h, s, s)
  {
    SameReach(g, h, s, s);
    OnwardLast(g, s, s);
  }

  /** A search along edges between known nodes never leaves them. */
  lemma StaysKnown(forward: Digraph, start: NodeId)
    requires start in forward && forall a, b :: Step(forward, a, b) ==> b in forward
    ensures forall u :: Reaches(forward, start, u) ==> u in forward
  {
    ClosedReaches(forward, forward.Keys, start);
  }

  /** Both searches over the same nodes and edges. The layered one never raises KeyError, the walk raises its
      route error exactly when an edge leads back to the start, and otherwise the targets the one misses are
      those the other never touches. */
  method SearchBoth(graph: Walk.RoutingGraph, forward: Digraph, start: NodeId, targets: set<NodeId>)
      returns (outcome: Walk.Outcome, reported: seq<seq<NodeId>>, r: Outcome)
    requires forward.Keys == graph.nodes && start in graph.nodes
    requires SameSteps(Walk.Walkable(graph.Edges(1), graph.nodes), forward)
    ensures r.Inaccessible? && r.targets == set t | t in targets && !ReachesOnward(forward, start, t)
    ensures outcome == if ReachesOnward(forward, start, start) then Walk.InvalidRoute else Walk.Finished
    ensures outcome == Walk.Finished ==> r.targets == targets - (Walk.Touched(reported) - {start})
  {
    ghost var g := Walk.Walkable(graph.Edges(1), graph.nodes);
    Walk.StepsStay(graph.Edges(1), graph.nodes);
    StaysKnown(forward, start);
    SameReturn(g, forward, start);
    outcome, reported := Walk.WalkAll(graph, start, 1);
    r := InaccessibleNodeIds(forward, start, targets);
    if outcome == Walk.Finished {
      Walk.SearchesAgree(g, start, reported, targets);
      forall t ensures ReachesOnward(g, start, t) <==> ReachesOnward(forward, start, t) {
        SameReach(g, forward, start, t);
      }
    }
    hide SameSteps, ReachesOnward, Walk.Touched;
  }

  // ----- both searches on a graph that was built -----

  /** Edge e leads from a to b. */
  ghost predicate Leads(edges: TypedGraph.Edges, e: nat, a: NodeId, b: NodeId) {
    e in edges && edges[e].src == a.id && edges[e].sink == b.id
  }

  ghost predicate HasEdge(edges: TypedGraph.Edges, a: NodeId, b: NodeId) { exists e :: Leads(edges, e, a, b) }

  ghost predicate IsNode(nodes: TypedGraph.Nodes, a: NodeId) { a.id >= 0 && a.id in nodes }

  /** The far ends of the edges that leave a node, read from the edges that touch it. */
  method DestIds(graph: TypedGraph.RoutingGraph, n: nat) returns (dest: set<NodeId>)
    requires graph.Valid() && n in graph.nodes
    ensures forall b :: b in dest <==> HasEdge(graph.edges, NodeId(n), b)
  {
    dest := {};
    var left := graph.index[n];
    while left != {}
      invariant left <= graph.index[n]
      invariant forall b :: b in dest <==> exists e :: e !in left && Leads(graph.edges, e, NodeId(n), b)
      decreases left
    {
      var e :| e in left;
      ghost var before := left;
      left := left - {e};
      var edge := graph.edges[e];
      if edge.src == n {
        dest := dest + {NodeId(edge.sink)};
        assert Leads(graph.edges, e, NodeId(n), NodeId(edge.sink));
      }
      assert forall f: nat :: f !in left <==> f !in before || f == e;
    }
  }

  /** routing_graph_to_dictionary. */
  method ToDictionary(graph: TypedGraph.RoutingGraph) returns (g: Digraph)
    requires graph.Valid()
    ensures forall a :: a in g <==> IsNode(graph.nodes, a)
    ensures forall a, b :: Step(g, a, b) <==> HasEdge(graph.edges, a, b)
  {
    g := map[];
    var left := graph.nodes.Keys;
    while left != {}
      invariant left <= graph.nodes.Keys
      invariant forall a :: a in g <==> IsNode(graph.nodes, a) && a.id !in left
      invariant forall a, b :: a in g ==> (b in g[a] <==> HasEdge(graph.edges, a, b))
      decreases left
    {
      var n :| n in left;
      left := left - {n};
      var dest := DestIds(graph, n);
      g := g[NodeId(n) := dest];
    }
    forall a, b ensures Step(g, a, b) <==> HasEdge(graph.edges, a, b) {
      if e: nat :| Leads(graph.edges, e, a, b) { assert IsNode(graph.nodes, a); }
    }
  }

  /** The nodes and edges of the graph, as the walk loads them. */
  method LoadWalk(graph: TypedGraph.RoutingGraph) returns (w: Walk.RoutingGraph)
    requires graph.Valid()
    ensures fresh(w) && forall a :: a in w.nodes <==> IsNode(graph.nodes, a)
    ensures forall a, b :: Walk.Linked(w.edgesFrom, a, b) <==> HasEdge(graph.edges, a, b)
  {
    w := new Walk.RoutingGraph();
    var left := graph.nodes.Keys;
    while left != {}
      invariant left <= graph.nodes.Keys && w.Valid() && w.edgesFrom == map[]
      invariant forall a :: a in w.nodes <==> IsNode(graph.nodes, a) && a.id !in left
      decreases left
    {
      var n :| n in left;
      left := left - {n};
      w.AddNode(NodeId(n));
    }
    LoadEdges(graph, w);
  }

  method LoadEdges(graph: TypedGraph.RoutingGraph, w: Walk.RoutingGraph)
    requires w.Valid() && w.edgesFrom == map[]
    modifies w
    ensures w.nodes == old(w.nodes)
    ensures forall a, b :: Walk.Linked(w.edgesFrom, a, b) <==> HasEdge(graph.edges, a, b)
  {
    var left := graph.edges.Keys;
    while left != {}
      invariant left <= graph.edges.Keys && w.Valid() && w.nodes == old(w.nodes)
      invariant forall a, b :: Walk.Linked(w.edgesFrom, a, b) <==> exists e :: e !in left && Leads(graph.edges, e, a, b)
      decreases left
    {
      var e :| e in left;
      ghost var before := left;
      left := left - {e};
      var edge := graph.edges[e];
      w.AddEdge(NodeId(edge.src), NodeId(edge.sink));
      forall a, b ensures (exists f :: f !in left && Leads(graph.edges, f, a, b))
          <==> ((exists f :: f !in before && Leads(graph.edges, f, a, b)) || Leads(graph.edges, e, a, b))
      {
        assert forall f: nat :: f !in left <==> f !in before || f == e;
      }
    }
  }

  /** Any graph built by create_node and create_edge_with_ids, searched both ways from any of its nodes. */
  method SearchBuilt(graph: TypedGraph.RoutingGraph, start: NodeId, targets: set<NodeId>)
      returns (outcome: Walk.Outcome, reported: seq<seq<NodeId>>, r: Outcome, ghost forward: Digraph)
    requires graph.Valid() && IsNode(graph.nodes, start)
    ensures forall a, b :: Step(forward, a, b) <==> HasEdge(graph.edges, a, b)
    ensures r.Inaccessible? && r.targets == set t | t in targets && !ReachesOnward(forward, start, t)
    ensures outcome == if ReachesOnward(forward, start, start) then Walk.InvalidRoute else Walk.Finished
    ensures outcome == Walk.Finished ==> r.targets == targets - (Walk.Touched(reported) - {start})
  {
    var g := ToDictionary(graph);
    forward := g;
    var w := LoadWalk(graph);
    assert g.Keys == w.nodes;
    forall a, b ensures Step(Walk.Walkable(w.Edges(1), w.nodes), a, b) <==> Step(g, a, b) {
      if e: nat :| Leads(graph.edges, e, a, b) { assert IsNode(graph.nodes, b); }
      assert Walk.Linked(w.edgesFrom, a, b) <==> HasEdge(graph.edges, a, b);
    }
    hide HasEdge, IsNode, ReachesOnward, Walk.Touched, Walk.Walkable;
    outcome, reported, r := SearchBoth(w, g, start, targets);
  }
}
