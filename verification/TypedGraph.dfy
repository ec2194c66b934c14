/** utils/lib/rr_graph/graph.py, class RoutingGraph: nodes and edges under the node-type rule, and the
    index from nodes to edges. */
module TypedGraph {
  import opened Sequences

  datatype NodeType = IPIN | OPIN | SINK | SOURCE | CHANX | CHANY {
    predicate Track() { this == CHANX || this == CHANY }
    predicate Pin() { this == OPIN || this == IPIN }
    predicate CanSink() { this == IPIN || Track() }
  }

  datatype SwitchType = Mux | Tristate | PassGate | Short | Buffer

  datatype Switch = Switch(id: int, typ: SwitchType)

  datatype Side = Left | Right | Top | Bottom

  datatype TrackDir = Inc | Dec | Bi

  datatype Location = Location(x: int, y: int)

  datatype Node = Node(typ: NodeType, low: Location, high: Location, ptc: int, capacity: int,
    direction: Option<TrackDir>, side: Option<Side>, segmentId: Option<int>)

  datatype Edge = Edge(src: nat, sink: nat, switchId: int)

  /** _is_valid. */
  predicate IsValid(src: NodeType, sink: NodeType) {
    match src
    case IPIN => sink == SINK
    case OPIN => sink.CanSink()
    case SINK => false
    case SOURCE => sink == OPIN
    case CHANX => sink.CanSink()
    case CHANY => sink.CanSink()
  }

  /** The edges that are admitted, from type to type. */
  const ADMITTED: set<(NodeType, NodeType)> := {
    (SOURCE, OPIN), (OPIN, IPIN), (OPIN, CHANX), (OPIN, CHANY), (CHANX, IPIN), (CHANX, CHANX), (CHANX, CHANY),
    (CHANY, IPIN), (CHANY, CHANX), (CHANY, CHANY), (IPIN, SINK) }

  lemma ValidIsAdmitted(src: NodeType, sink: NodeType)
    ensures IsValid(src, sink) <==> (src, sink) in ADMITTED
  {
  }

  type Nodes = map<nat, Node>
  type Edges = map<nat, Edge>
  type Index = map<nat, set<nat>>

  /** The keys of a map that was only ever extended by the next id. */
  ghost predicate Numbered<T>(m: map<nat, T>) { forall i: nat :: i in m <==> i < |m| }

  lemma SizeMore<T>(m: map<nat, T>, k: nat, x: T)
    requires k !in m
    ensures |m[k := x]| == |m| + 1
  {
    assert |m[k := x]| == |m[k := x].Keys| && |m| == |m.Keys|;
    assert m[k := x].Keys == m.Keys + {k};
  }

  lemma TwoMore<T>(m: map<nat, T>, x: T, y: T)
    ensures Numbered(m) ==> |m[|m| := x]| == |m| + 1 && |m[|m| := x][|m| + 1 := y]| == |m| + 2
  {
    if Numbered(m) {
      SizeMore(m, |m|, x);
      SizeMore(m[|m| := x], |m| + 1, y);
    }
  }

  lemma NumberedMore<T>(m: map<nat, T>, x: T)
    requires Numbered(m)
    ensures |m| !in m && Numbered(m[|m| := x])
  {
    SizeMore(m, |m|, x);
  }

  ghost predicate EdgesTyped(nodes: Nodes, edges: Edges) {
    forall e :: e in edges ==>
      edges[e].src in nodes && edges[e].sink in nodes && IsValid(nodes[edges[e].src].typ, nodes[edges[e].sink].typ)
  }

  predicate Touches(e: Edge, n: nat) { e.src == n || e.sink == n }

  /** Every node is mapped to exactly the ids of the edges that touch it. */
  ghost predicate Indexed(nodes: Nodes, edges: Edges, index: Index) {
    index.Keys == nodes.Keys && forall n, e: nat :: n in index ==>
      (e in index[n] <==> e in edges && Touches(edges[e], n))
  }

  lemma TypedMore(nodes: Nodes, edges: Edges, id: nat, e: Edge)
    requires EdgesTyped(nodes, edges) && e.src in nodes && e.sink in nodes
      && IsValid(nodes[e.src].typ, nodes[e.sink].typ)
    ensures EdgesTyped(nodes, edges[id := e])
  {
  }

  lemma IndexMore(nodes: Nodes, edges: Edges, index: Index, id: nat, e: Edge)
    requires Indexed(nodes, edges, index) && id !in edges && e.src in nodes && e.sink in nodes
    ensures e.src in index && e.sink in index[e.src := index[e.src] + {id}]
    ensures var one := index[e.src := index[e.src] + {id}];
      Indexed(nodes, edges[id := e], one[e.sink := one[e.sink] + {id}])
  {
    var one := index[e.src := index[e.src] + {id}];
    var two := one[e.sink := one[e.sink] + {id}];
    forall n, f: nat | n in two ensures f in two[n] <==> f in edges[id := e] && Touches(edges[id := e][f], n) {
      assert f in two[n] <==> f in index[n] || (f == id && Touches(e, n));
    }
  }

  class RoutingGraph {
    var nodes: Nodes
    var edges: Edges
    var index: Index

    ghost predicate Valid()
      reads this
    {
      Numbered(nodes) && Numbered(edges) && EdgesTyped(nodes, edges) && Indexed(nodes, edges, index)
    }

    constructor ()
      ensures Valid() && nodes == map[] && edges == map[]
    {
      nodes, edges, index := map[], map[], map[];
    }

    /** The assertions of create_node. */
    predicate NodeAllowed(n: Node) {
      (n.typ.Track() ==> n.direction.Some? && n.segmentId.Some?)
      && (n.typ.Pin() ==> n.low == n.high && n.side.Some?)
      && (!n.typ.Pin() ==> n.side.None?)
    }

    /** create_node: the next id, with no edges yet. */
    method CreateNode(n: Node) returns (id: Option<nat>)
      requires Valid()
      modifies this
      ensures Valid() && edges == old(edges)
      ensures id.Some? <==> NodeAllowed(n)
      ensures if id.Some? then id.value == |old(nodes)| && nodes == old(nodes)[id.value := n] else nodes == old(nodes)
    {
      if !NodeAllowed(n) {
        return None;
      }
      NumberedMore(nodes, n);
      id := Some(|nodes|);
      nodes := nodes[id.value := n];
      index := index[id.value := {}];
    }

    /** _create_edge_with_ids and what _add_xml_element does with the edge. */
    method AddEdge(e: Edge)
      requires Valid() && e.src in nodes && e.sink in nodes && IsValid(nodes[e.src].typ, nodes[e.sink].typ)
      modifies this
      ensures Valid() && nodes == old(nodes) && edges == old(edges)[|old(edges)| := e]
    {
      hide Indexed, Numbered, EdgesTyped, IsValid;
      NumberedMore(edges, e);
      var id := |edges|;
      IndexMore(nodes, edges, index, id, e);
      TypedMore(nodes, edges, id, e);
      edges := edges[id := e];
      index := index[e.src := index[e.src] + {id}];
      index := index[e.sink := index[e.sink] + {id}];
    }

    /** Whether the edge is taken to be bidirectional; None when the caller denies it of a switch that is. */
    function Bidir(switch: Switch, bidir: Option<bool>): Option<bool> {
      var always := switch.typ == Short || switch.typ == PassGate;
      if bidir.None? then Some(always)
      else if always && !bidir.value then None
      else bidir
    }

    /** create_edge_with_ids: fails, changing nothing, on an unknown node, a forbidden pair of types or a
        denied bidirectional switch; otherwise adds the edge, and its reverse where it is bidirectional and
        the reverse is a permitted pair of types too. */
    method CreateEdgeWithIds(src: nat, sink: nat, switch: Switch, bidir: Option<bool>) returns (ok: bool)
      requires Valid()
      modifies this
      ensures Valid() && nodes == old(nodes)
      ensures ok <==>
        src in nodes && sink in nodes && IsValid(nodes[src].typ, nodes[sink].typ) && Bidir(switch, bidir).Some?
      ensures !ok ==> edges == old(edges)
      ensures ok ==>
        var one := old(edges)[|old(edges)| := Edge(src, sink, switch.id)];
        edges == if Bidir(switch, bidir).value && IsValid(nodes[sink].typ, nodes[src].typ)
          then one[|old(edges)| + 1 := Edge(sink, src, switch.id)] else one
      // It goes through for admitted types, unless a short or a pass gate is said to be one way; the edge back is
      // there if its types are admitted too and the edge is two way, by its switch or by request.
      ensures ok <==>
        (src in nodes && sink in nodes && (nodes[src].typ, nodes[sink].typ) in ADMITTED
          && !(switch.typ in {Short, PassGate} && bidir == Some(false)))
      ensures ok ==> |edges| in {|old(edges)| + 1, |old(edges)| + 2}
      ensures ok ==>
        (|edges| == |old(edges)| + 2 <==>
          (nodes[sink].typ, nodes[src].typ) in ADMITTED && (switch.typ in {Short, PassGate} || bidir == Some(true)))
      ensures ok ==> |old(edges)| in edges && edges[|old(edges)|] == Edge(src, sink, switch.id)
      ensures ok && |edges| == |old(edges)| + 2 ==>
        |old(edges)| + 1 in edges && edges[|old(edges)| + 1] == Edge(sink, src, switch.id)
    {
      hide ADMITTED, IsValid, Indexed, EdgesTyped;
      if src in nodes && sink in nodes {
        ValidIsAdmitted(nodes[src].typ, nodes[sink].typ);
        ValidIsAdmitted(nodes[sink].typ, nodes[src].typ);
      }
      TwoMore(edges, Edge(src, sink, switch.id), Edge(sink, src, switch.id));
      if src !in nodes || sink !in nodes || !IsValid(nodes[src].typ, nodes[sink].typ) {
        return false;
      }
      var both := Bidir(switch, bidir);
      if both.None? {
        return false;
      }
      AddEdge(Edge(src, sink, switch.id));
      if IsValid(nodes[sink].typ, nodes[src].typ) && both.value {
        AddEdge(Edge(sink, src, switch.id));
      }
      ok := true;
    }
  }

  // ----- paths -----

  ghost predicate HasEdge(edges: Edges, a: nat, b: nat) {
    exists e :: e in edges && edges[e].src == a && edges[e].sink == b
  }

  ghost predicate IsPath(nodes: Nodes, edges: Edges, p: seq<nat>) {
    p != [] && (forall i :: 0 <= i < |p| ==> p[i] in nodes) && forall i :: 0 <= i < |p| - 1 ==>
      HasEdge(edges, p[i], p[i + 1])
  }

  lemma StepTypes(nodes: Nodes, edges: Edges, p: seq<nat>, i: nat)
    requires EdgesTyped(nodes, edges) && IsPath(nodes, edges, p) && i + 1 < |p|
    ensures IsValid(nodes[p[i]].typ, nodes[p[i + 1]].typ)
  {
    assert HasEdge(edges, p[i], p[i + 1]);
  }

  /** Past the first pin, a path runs over tracks until it ends in an input pin and perhaps a sink. */
  lemma {:induction false} InnerTypes(nodes: Nodes, edges: Edges, p: seq<nat>, i: nat)
    requires EdgesTyped(nodes, edges) && IsPath(nodes, edges, p) && nodes[p[0]].typ == SOURCE && i < |p|
    ensures i == 1 ==> nodes[p[i]].typ == OPIN
    ensures i >= 2 ==>
      var t := nodes[p[i]].typ;
      t.Track() || (t == IPIN && i + 2 >= |p|) || (t == SINK && i + 1 == |p| && i >= 3 && nodes[p[i - 1]].typ == IPIN)
  {
    if i > 0 {
      InnerTypes(nodes, edges, p, i - 1);
      StepTypes(nodes, edges, p, i - 1);
      if i + 1 < |p| { StepTypes(nodes, edges, p, i); }
      if i + 2 < |p| { StepTypes(nodes, edges, p, i + 1); }
    }
  }

  /** Every path from a source to a sink is SOURCE, OPIN, any number of tracks, IPIN, SINK. */
  lemma SourceToSink(nodes: Nodes, edges: Edges, p: seq<nat>)
    requires EdgesTyped(nodes, edges) && IsPath(nodes, edges, p)
    requires nodes[p[0]].typ == SOURCE && nodes[p[|p| - 1]].typ == SINK
    ensures |p| >= 4 && nodes[p[1]].typ == OPIN && nodes[p[|p| - 2]].typ == IPIN
    ensures forall i :: 2 <= i < |p| - 2 ==> nodes[p[i]].typ.Track()
  {
    InnerTypes(nodes, edges, p, |p| - 1);
    assert |p| >= 4;
    InnerTypes(nodes, edges, p, 1);
    forall i | 2 <= i < |p| - 2 ensures nodes[p[i]].typ.Track() { InnerTypes(nodes, edges, p, i); }
  }
}
