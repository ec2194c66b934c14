/** utils/lib/rr_graph/graph2.py and utils/check_ptc.py together: a graph is built, and judged. */
module ChannelCheck {
  import opened Sequences
  import opened RrNodes
  import opened Channel2
  import opened CheckPtc
  import opened Graph2
  import opened Graph2Proofs
  import opened Graph2Class

  /** A graph whose nodes are numbered by place, as every graph is that `_create_node` built, whose
      channel nodes are all tracks waiting for a ptc. */
  ghost predicate ReadyForChannels(nodes: seq<Node>, tracks: seq<nat>) {
    CanChannel(nodes, tracks) && AllTracked(nodes, tracks) && IdsAreIndices(nodes)
  }

  lemma ReadyIsJudged(nodes: seq<Node>, tracks: seq<nat>, segment: int)
    requires ReadyForChannels(nodes, tracks)
    ensures tracks != []
    ensures var after := Channelled(nodes, tracks, segment);
      Numbered(after) && (forall i, j :: 0 <= i < j < |after| ==> after[i].id != after[j].id)
      && (PtcsWellFormed(after) <==> AllSeenFirst(nodes, tracks))
      && (AllPlaced(after) <==> forall n :: n in nodes && !IsChan(n) ==> n.loc.ptc.Some?)
  {
    ChannelledComplete(nodes, tracks, segment);
    ChannelledAccepted(nodes, tracks, segment);
    hide Channelled, PtcsAt, PtcsWellFormed, CanChannel, AllTracked, AllSeenFirst, AllPlaced;
    PlacedAfter(nodes, Channelled(nodes, tracks, segment));
  }

  ghost predicate AllPlaced(nodes: seq<Node>) { forall n :: n in nodes ==> n.loc.ptc.Some? }

  lemma PlacedAfter(nodes: seq<Node>, after: seq<Node>)
    requires |nodes| <= |after| && Numbered(after)
    requires forall k :: 0 <= k < |nodes| && !IsChan(nodes[k]) ==> after[k] == nodes[k]
    requires forall k :: |nodes| <= k < |after| ==> IsChan(after[k])
    requires forall k :: 0 <= k < |nodes| && IsChan(nodes[k]) ==> IsChan(after[k])
    ensures AllPlaced(after) <==> forall n :: n in nodes && !IsChan(n) ==> n.loc.ptc.Some?
  {
    forall n | n in nodes && !IsChan(n) ensures n in after {
      var k :| 0 <= k < |nodes| && nodes[k] == n;
      assert after[k] in after;
    }
    forall n | n in after && !IsChan(n) ensures n in nodes {
      var k :| 0 <= k < |after| && after[k] == n;
      assert k < |nodes| && nodes[k] in nodes;
    }
  }

  lemma ReadPlaced(nodes: seq<Node>)
    ensures AllPlaced(nodes) <==> forall n :: n in nodes ==> n.loc.ptc.Some?
  {
  }

  /** create_channels, then both checks: check_ptc.py accepts the graph exactly if the rows it sees at each
      coordinate are the first ones, as they are when every channel node is written low end first; and
      Graph.check_ptc passes exactly if every node that is no channel node had a ptc to begin with. */
  method CreateAndCheck(graph: Graph, padSegment: int) returns (verdict: Verdict, complete: bool)
    requires ReadyForChannels(graph.nodes, graph.tracks)
    modifies graph
    ensures old(graph.tracks) != []
    ensures verdict == Accepted <==> AllSeenFirst(old(graph.nodes), old(graph.tracks))
    ensures AllOrdered(old(graph.nodes)) ==> verdict == Accepted
    ensures complete <==> forall n :: n in old(graph.nodes) && !IsChan(n) ==> n.loc.ptc.Some?
  {
    ReadyIsJudged(graph.nodes, graph.tracks, padSegment);
    if AllOrdered(graph.nodes) { OrderedSeenFirst(graph.nodes, graph.tracks); }
    hide Channelled, PtcsAt, PtcsWellFormed, CanChannel, AllTracked, AllOrdered, AllSeenFirst, IdsAreIndices, Numbered,
      AllPlaced, IndexRange, ChannelsOf;
    var _ := graph.CreateChannels(padSegment);
    verdict := CheckAll(graph.nodes);
    complete := graph.CheckPtc();
    ReadPlaced(graph.nodes);
  }

  // ----- a track written high end first -----

  /** Two tracks of one channel, the second from its high end to its low end, and one of the other kind. */
  function Reversed(): seq<Node> {
    [Node(0, ChanX, 1, Loc(1, 0, 2, 0, None), 0), Node(1, ChanX, 1, Loc(2, 0, 1, 0, None), 0),
     Node(2, ChanY, 1, Loc(0, 1, 0, 1, None), 0)]
  }

  lemma ReversedIsReady()
    ensures ReadyForChannels(Reversed(), [0, 1, 2])
  {
    var nodes, tracks := Reversed(), [0, 1, 2];
    assert nodes[tracks[0]].typ == ChanX && nodes[tracks[2]].typ == ChanY;
    assert tracks[1] == 1;
  }

  lemma ReversedMembers()
    ensures Members(Reversed(), [0, 1, 2], ChanX, 0) == [Track(1, 2, 0), Track(1, 2, 1)]
  {
    var nodes: seq<Node>, tracks: seq<nat> := Reversed(), [0, 1, 2];
    assert tracks[..2] == [0, 1] && tracks[..2][..1] == [0] && tracks[..2][..1][..0] == [];
    assert Members(nodes, [], ChanX, 0) == [];
    assert Members(nodes, [0], ChanX, 0) == [Track(1, 2, 0)];
    assert Members(nodes, [0, 1], ChanX, 0) == [Track(1, 2, 0), Track(1, 2, 1)];
  }

  /** A pool of two tracks over the same stretch is packed last one first. */
  lemma TwoRows(a: Track, b: Track)
    requires a.low == b.low && a.high == b.high && a.low <= a.high
    ensures Pack([a, b]) == [[b], [a]]
  {
    OneChain([a], b);
    OneChain([], a);
    assert [] + [a] == [a] && [a] + [b] == [a, b];
    assert MinLow([a]) == a.low && [a, b][1..] == [b] && MinLow([a, b]) == a.low;
    hide Chain;
    assert Pack([]) == [] && Pack([a]) == [[a]];
  }

  lemma OneChain(rest: seq<Track>, t: Track)
    requires |rest| <= 1 && t.low <= t.high && (rest != [] ==> rest[0].low == t.low)
    ensures Chain(rest + [t], t.low) == ([t], rest)
  {
    var pool := rest + [t];
    OneChoice(rest, t);
    assert RemoveAt(pool, |rest|) == rest;
    hide Chain, Choice, RemoveAt;
    ChainStops(rest, t.high + 1);
    ChainTakes(pool, t.low);
    assert [t] + [] == [t];
    assert Chain(pool, t.low).0 == [t] && Chain(pool, t.low).1 == rest;
  }

  lemma ChoiceSnoc(init: seq<Track>, last: Track, start: int)
    ensures var r := Choice(init, start);
      Choice(init + [last], start) ==
        if last.low >= start && (r.None? || last.low <= init[r.value].low) then Some(|init|) else r
  {
    assert (init + [last])[..|init|] == init;
  }

  lemma OneChoice(rest: seq<Track>, t: Track)
    requires |rest| <= 1 && t.low <= t.high && (rest != [] ==> rest[0].low == t.low)
    ensures Choice(rest + [t], t.low) == Some(|rest|) && Choice(rest, t.high + 1) == None
  {
    ChoiceSnoc(rest, t, t.low);
    if rest != [] {
      assert rest == [] + [rest[0]];
      ChoiceSnoc([], rest[0], t.low);
      ChoiceSnoc([], rest[0], t.high + 1);
    }
  }

  /** Of two equally long tracks the one added last is packed first: the reversed one is row 0. */
  lemma ReversedRows()
    ensures Rows(Reversed(), [0, 1, 2], ChanX, 0) == [[Track(1, 2, 1)], [Track(1, 2, 0)]]
  {
    ReversedMembers();
    var a, b := Track(1, 2, 0), Track(1, 2, 1);
    var pool := [a, b];
    assert pool[..1] == [a] && [a][..0] == [];
    assert SortBy([a], TRACK_LENGTH) == [a];
    assert SortBy(pool, TRACK_LENGTH) == pool;
    hide Rows, Members, SortBy;
    TwoRows(a, b);
  }

  /** So at (1, 0) ptc 1 is seen and ptc 0 is not. */
  lemma ReversedHidden()
    ensures RowHides(Reversed(), [0, 1, 2], ChanX, 0, 1, 0)
    ensures RowVisible(Reversed(), [0, 1, 2], ChanX, 0, 1, 1)
  {
    var nodes, tracks, rows := Reversed(), [0, 1, 2], [[Track(1, 2, 1)], [Track(1, 2, 0)]];
    ReversedRows();
    ReversedEdges();
    hide Rows, LowEdge, HighEdge;
    assert Track(1, 2, 1) in rows[0] && !LowFirst(nodes[1]);
    assert Hides(nodes, rows[0], 1);
    assert !Hides(nodes, rows[1], 1);
  }

  lemma ReversedEdges()
    ensures LowEdge(Reversed(), [0, 1, 2], ChanX) == 1 && HighEdge(Reversed(), [0, 1, 2], ChanX) == 2
  {
    var nodes, tracks: seq<nat> := Reversed(), [0, 1, 2];
    var xs := Ends(nodes, tracks, true);
    assert tracks[..2] == [0, 1] && [0, 1][..1] == [0] && [0][..0] == [];
    EndsAre(nodes, tracks, true, 0);
    EndsAre(nodes, tracks, true, 1);
    EndsAre(nodes, tracks, true, 2);
    assert xs[0] == 1 && xs[1] == 2 && xs[2] == 2 && xs[3] == 1 && xs[4] == 0 && xs[5] == 0;
    hide Ends, MinOf, MaxOf;
  }

  lemma ReversedRejected()
    ensures !AllSeenFirst(Reversed(), [0, 1, 2])
  {
    ReversedHidden();
    hide Reversed, RowHides, RowVisible, SeenFirst;
    SeenFirstMeans(Reversed(), [0, 1, 2], ChanX, 0, 1);
    assert !SeenFirst(Reversed(), [0, 1, 2], ChanX, 0, 1);
  }

  lemma ReversedTracks()
    ensures forall n :: n in Reversed() ==> IsChan(n)
  {
  }

  method MakeReversed() returns (graph: Graph)
    ensures fresh(graph) && graph.nodes == Reversed() && graph.tracks == [0, 1, 2]
  {
    graph := new Graph([]);
    var _ := graph.AddTrack(ChanX, 1, 0, 2, 0, 0, 1, None);
    var _ := graph.AddTrack(ChanX, 2, 0, 1, 0, 0, 1, None);
    var _ := graph.AddTrack(ChanY, 0, 1, 0, 1, 0, 1, None);
  }

  /** Three calls of add_track, and the graph is rejected. */
  method CreateReversed() returns (verdict: Verdict, complete: bool)
    ensures verdict != Accepted && complete
  {
    var graph := MakeReversed();
    ReversedIsReady();
    ReversedTracks();
    ReversedRejected();
    hide Reversed, ReadyForChannels, AllSeenFirst, AllOrdered;
    verdict, complete := CreateAndCheck(graph, 0);
  }
}
