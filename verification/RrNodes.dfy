/** The routing-resource nodes shared by graph2.py (which builds them) and check_ptc.py
    (which judges them). */
module RrNodes {
  import opened Sequences

  datatype NodeType = ChanX | ChanY | Source | Sink | OPin | IPin

  /** `ptc` is None until the node is given a place in its channel. */
  datatype Loc = Loc(xLow: int, yLow: int, xHigh: int, yHigh: int, ptc: Option<int>)

  datatype Node = Node(id: int, typ: NodeType, capacity: int, loc: Loc, segment: int)

  predicate IsChan(n: Node) { n.typ == ChanX || n.typ == ChanY }

  predicate Spans(n: Node, typ: NodeType, x: int, y: int) {
    n.typ == typ && n.loc.xLow <= x <= n.loc.xHigh && n.loc.yLow <= y <= n.loc.yHigh
  }

  /** The ptc numbers of the nodes of one channel type lying over one coordinate. */
  function PtcsAt(nodes: seq<Node>, typ: NodeType, x: int, y: int): seq<int> {
    if nodes == [] then []
    else
      var n := nodes[|nodes| - 1];
      PtcsAt(nodes[..|nodes| - 1], typ, x, y)
      + (if Spans(n, typ, x, y) && n.loc.ptc.Some? then [n.loc.ptc.value] else [])
  }

  ghost predicate Numbered(nodes: seq<Node>) {
    forall n :: n in nodes && IsChan(n) ==> n.loc.ptc.Some?
  }

  /** ptc numbers at every used coordinate start at 0 and leave no gap and no duplicate. */
  ghost predicate PtcsWellFormed(nodes: seq<Node>) {
    forall typ, x, y :: (typ == ChanX || typ == ChanY) ==> IsRange(PtcsAt(nodes, typ, x, y))
  }
}
