/** utils/lib/rr_graph/graph2.py: turning the tracks of a routing graph into channels.
    `Channelled` specifies create_channels; ChannelledAccepted ties it to check_ptc. */
module Graph2 {
  import opened Sequences
  import opened RrNodes
  import opened Channel2

  datatype ChannelList = ChannelList(index: nat, info: nat)

  datatype Channels = Channels(widthMax: nat, xMin: int, yMin: int, xMax: int, yMax: int,
                               xList: seq<ChannelList>, yList: seq<ChannelList>)

  // ----- the specification -----

  /** The coordinate that picks a node's channel: y for CHANX, x for CHANY. */
  function ChanOf(n: Node): int { if n.typ == ChanX then n.loc.yLow else n.loc.xLow }

  /** The stretch a node occupies inside its channel. */
  function AsTrack(n: Node, key: nat): Track {
    if n.typ == ChanX then Track(Min(n.loc.xLow, n.loc.xHigh), Max(n.loc.xLow, n.loc.xHigh), key)
    else Track(Min(n.loc.yLow, n.loc.yHigh), Max(n.loc.yLow, n.loc.yHigh), key)
  }

  /** The tracks of one channel, in the order they were added to the graph. */
  function Members(nodes: seq<Node>, tracks: seq<nat>, typ: NodeType, chan: int): seq<Track> {
    if tracks == [] then []
    else
      var t := tracks[|tracks| - 1];
      Members(nodes, tracks[..|tracks| - 1], typ, chan)
      + (if t < |nodes| && nodes[t].typ == typ && ChanOf(nodes[t]) == chan then [AsTrack(nodes[t], t)] else [])
  }

  /** The ptc rows of one channel. */
  function Rows(nodes: seq<Node>, tracks: seq<nat>, typ: NodeType, chan: int): seq<Row> {
    Pack(SortBy(Members(nodes, tracks, typ, chan), TRACK_LENGTH))
  }

  ghost predicate KeyIn(row: Row, key: int) {
    exists t :: t in row && t.key == key
  }

  /** The row that holds a key. */
  ghost function RowIndex(rows: seq<Row>, key: int): nat {
    if rows == [] || KeyIn(rows[0], key) then 0 else 1 + RowIndex(rows[1..], key)
  }

  function WithPtc(n: Node, ptc: int): Node {
    n.(loc := n.loc.(ptc := Some(ptc)))
  }

  /** What is asserted of each node that is treated as a track. */
  predicate GoodTrack(n: Node) {
    && n.loc.ptc == None
    && IsChan(n) && 0 <= ChanOf(n)
    && (n.typ == ChanX ==> n.loc.yLow == n.loc.yHigh)
    && (n.typ == ChanY ==> n.loc.xLow == n.loc.xHigh)
  }

  /** What create_channels demands: its assertions, and a track of each kind for its two maxima. */
  ghost predicate CanChannel(nodes: seq<Node>, tracks: seq<nat>) {
    && Distinct(tracks)
    && (forall i :: 0 <= i < |tracks| ==> tracks[i] < |nodes| && GoodTrack(nodes[tracks[i]]))
    && (exists i :: 0 <= i < |tracks| && nodes[tracks[i]].typ == ChanX)
    && (exists i :: 0 <= i < |tracks| && nodes[tracks[i]].typ == ChanY)
  }

  /** The nodes once the CHANX channels below nx and the CHANY channels below ny are packed. */
  ghost function Assigned(nodes: seq<Node>, tracks: seq<nat>, nx: int, ny: int): (r: seq<Node>)
    ensures |r| == |nodes|
  {
    seq(|nodes|, k requires 0 <= k < |nodes| =>
      var n := nodes[k];
      if k in tracks && ChanOf(n) < (if n.typ == ChanX then nx else ny)
      then WithPtc(n, RowIndex(Rows(nodes, tracks, n.typ, ChanOf(n)), k))
      else n)
  }

  /** A padding node: capacity 0 over one gap of a channel. */
  function PadNode(id: nat, typ: NodeType, chan: int, gap: Gap, segment: int): Node {
    Node(id, typ, 0,
         if typ == ChanX then Loc(gap.low, chan, gap.high, chan, Some(gap.row))
         else Loc(chan, gap.low, chan, gap.high, Some(gap.row)),
         segment)
  }

  function AddPads(base: seq<Node>, typ: NodeType, chan: int, gaps: seq<Gap>, segment: int): (r: seq<Node>)
    ensures |r| == |base| + |gaps|
  {
    if gaps == [] then base
    else
      var n := |gaps| - 1;
      var r := AddPads(base, typ, chan, gaps[..n], segment);
      r + [PadNode(|r|, typ, chan, gaps[n], segment)]
  }

  /** `base` with padding for the first n channels of one type. */
  ghost function Padded(base: seq<Node>, nodes: seq<Node>, tracks: seq<nat>, typ: NodeType, n: nat,
                        low: int, high: int, segment: int): seq<Node>
  {
    if n == 0 then base
    else AddPads(Padded(base, nodes, tracks, typ, n - 1, low, high, segment), typ, n - 1,
                 AllGaps(Rows(nodes, tracks, typ, n - 1), low, high), segment)
  }

  /** Both ends of every track along one axis, as the source lists them. */
  function Ends(nodes: seq<Node>, tracks: seq<nat>, alongX: bool): (r: seq<int>)
    ensures |r| == 2 * |tracks|
  {
    if tracks == [] then []
    else
      var t := tracks[|tracks| - 1];
      Ends(nodes, tracks[..|tracks| - 1], alongX)
      + (if t >= |nodes| then [0, 0]
         else if alongX then [nodes[t].loc.xLow, nodes[t].loc.xHigh]
         else [nodes[t].loc.yLow, nodes[t].loc.yHigh])
  }

  /** One more than the largest channel number of a type; 0 if the type has no track. */
  function ChanCount(nodes: seq<Node>, tracks: seq<nat>, typ: NodeType): nat {
    if tracks == [] then 0
    else
      var t := tracks[|tracks| - 1];
      var n := ChanCount(nodes, tracks[..|tracks| - 1], typ);
      if t < |nodes| && nodes[t].typ == typ && ChanOf(nodes[t]) >= n then ChanOf(nodes[t]) + 1 else n
  }

  /** The nodes after create_channels: ptc numbers assigned, then CHANX and CHANY padding. */
  ghost function Channelled(nodes: seq<Node>, tracks: seq<nat>, segment: int): seq<Node>
    requires tracks != []
  {
    var xs, ys := Ends(nodes, tracks, true), Ends(nodes, tracks, false);
    var nx, ny := ChanCount(nodes, tracks, ChanX), ChanCount(nodes, tracks, ChanY);
    var withX := Padded(Assigned(nodes, tracks, nx, ny), nodes, tracks, ChanX, nx, Max(MinOf(xs), 1), MaxOf(xs),
      segment);
    Padded(withX, nodes, tracks, ChanY, ny, Max(MinOf(ys), 1), MaxOf(ys), segment)
  }
}
