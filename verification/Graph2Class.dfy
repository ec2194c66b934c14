/** The mutable graph of utils/lib/rr_graph/graph2.py: create_channels as the source runs it. Tracks
    are grouped by channel, each channel is packed and its row numbers written into the nodes, then
    gaps are padded; the nodes left at the end are shown to be exactly those that `Channelled`
    specifies, and no ptc is ever written twice. */
module Graph2Class {
  import opened Sequences
  import opened RrNodes
  import opened Channel2
  import opened Graph2
  import opened Graph2Proofs
  import opened Graph2Pads

  type Groups = map<int, seq<Track>>

  /** The dictionary of one channel type after reading `tracks`. */
  ghost predicate Grouped(groups: Groups, nodes: seq<Node>, tracks: seq<nat>, typ: NodeType) {
    forall c :: (c in groups <==> Members(nodes, tracks, typ, c) != [])
      && (c in groups ==> groups[c] == Members(nodes, tracks, typ, c))
  }

  method AddToGroup(groups: Groups, chan: int, t: Track) returns (r: Groups)
    ensures forall c :: (c in r <==> c in groups || c == chan)
    ensures forall c :: c in r ==> r[c] == (if c in groups then groups[c] else []) + (if c == chan then [t] else [])
  {
    r := groups;
    if chan !in r { r := r[chan := []]; }
    r := r[chan := r[chan] + [t]];
  }

  method ProcessTrack(members: seq<Track>) returns (model: Channel)
    ensures fresh(model) && model.trees == Pack(SortBy(members, TRACK_LENGTH))
  {
    model := new Channel(members);
    model.PackTracks();
    assert [] + Pack(model.tracks) == Pack(model.tracks);
  }

  /** The node indices from a up to but not including b. */
  function IndexRange(a: nat, b: nat): seq<nat> {
    if a >= b then [] else IndexRange(a, b - 1) + [b - 1]
  }

  lemma EmptyRange(a: nat)
    ensures IndexRange(a, a) == []
  {
  }

  lemma {:induction false} IndexRangeJoin(a: nat, b: nat, c: nat)
    requires a <= b <= c
    ensures IndexRange(a, b) + IndexRange(b, c) == IndexRange(a, c)
  {
    if b < c {
      IndexRangeJoin(a, b, c - 1);
      assert IndexRange(a, b) + (IndexRange(b, c - 1) + [c - 1]) == IndexRange(a, b) + IndexRange(b, c - 1) + [c - 1];
    } else {
      assert IndexRange(a, b) + [] == IndexRange(a, b);
    }
  }

  /** Some row holds the key. */
  ghost predicate Keyed(rows: seq<Row>, key: int) {
    exists i :: 0 <= i < |rows| && KeyIn(rows[i], key)
  }

  lemma KeyedGrows(rows: seq<Row>, r: nat, k: int)
    requires KeysApart(rows) && r < |rows|
    ensures Keyed(rows[..r + 1], k) <==> Keyed(rows[..r], k) || KeyIn(rows[r], k)
    ensures KeyIn(rows[r], k) ==> RowIndex(rows, k) == r && !Keyed(rows[..r], k)
  {
    assert rows[..r + 1][r] == rows[r];
    if Keyed(rows[..r], k) {
      var i :| 0 <= i < r && KeyIn(rows[..r][i], k);
      assert KeyIn(rows[..r + 1][i], k);
    }
    if KeyIn(rows[r], k) {
      var t :| t in rows[r] && t.key == k;
      RowIndexOf(rows, r, t);
    }
  }

  class Graph {
    var nodes: seq<Node>
    var tracks: seq<nat>

    constructor (nodes: seq<Node>)
      ensures this.nodes == nodes && tracks == []
    {
      this.nodes := nodes;
      tracks := [];
    }

    /** Appends a channel node and remembers it as a track. */
    method AddTrack(typ: NodeType, xLow: int, yLow: int, xHigh: int, yHigh: int, segment: int, capacity: int,
        ptc: Option<int>)
      returns (index: nat)
      modifies this
      ensures index == |old(nodes)| && tracks == old(tracks) + [index]
      ensures nodes == old(nodes) + [Node(index, typ, capacity, Loc(xLow, yLow, xHigh, yHigh, ptc), segment)]
    {
      index := |nodes|;
      nodes := nodes + [Node(index, typ, capacity, Loc(xLow, yLow, xHigh, yHigh, ptc), segment)];
      tracks := tracks + [index];
    }

    /** Gives a node its ptc; the source asserts that it has none yet. */
    method SetTrackPtc(track: nat, ptc: int)
      requires track < |nodes| && nodes[track].loc.ptc == None
      modifies this`nodes
      ensures nodes == old(nodes)[track := WithPtc(old(nodes)[track], ptc)]
    {
      nodes := nodes[track := WithPtc(nodes[track], ptc)];
    }

    /** Writes one row's number into the nodes of its tracks. */
    method SetRow(row: Row, ptc: nat)
      requires forall i :: 0 <= i < |row| ==> 0 <= row[i].key < |nodes| && nodes[row[i].key].loc.ptc == None
      requires forall i, j :: 0 <= i < j < |row| ==> row[i].key != row[j].key
      modifies this`nodes
      ensures |nodes| == |old(nodes)|
      ensures forall k :: 0 <= k < |nodes| ==>
        nodes[k] == if KeyIn(row, k) then WithPtc(old(nodes)[k], ptc) else old(nodes)[k]
    {
      for i := 0 to |row|
        invariant |nodes| == |old(nodes)|
        invariant forall k :: 0 <= k < |nodes| ==>
          nodes[k] == if KeyIn(row[..i], k) then WithPtc(old(nodes)[k], ptc) else old(nodes)[k]
      {
        assert !KeyIn(row[..i], row[i].key);
        ghost var before := nodes;
        SetTrackPtc(row[i].key, ptc);
        assert row[..i + 1] == row[..i] + [row[i]];
        forall k ensures KeyIn(row[..i + 1], k) <==> KeyIn(row[..i], k) || k == row[i].key {
          assert row[i] in row[..i + 1];
        }
      }
      assert row[..|row|] == row;
    }

    /** Writes the row numbers of one packed channel. */
    method SetRows(rows: seq<Row>)
      requires KeysApart(rows)
      requires forall r, i :: 0 <= r < |rows| && 0 <= i < |rows[r]| ==>
        0 <= rows[r][i].key < |nodes| && nodes[rows[r][i].key].loc.ptc == None
      requires forall r, i, j :: 0 <= r < |rows| && 0 <= i < j < |rows[r]| ==> rows[r][i].key != rows[r][j].key
      modifies this`nodes
      ensures |nodes| == |old(nodes)|
      ensures forall k :: 0 <= k < |nodes| ==>
        nodes[k] == if Keyed(rows, k) then WithPtc(old(nodes)[k], RowIndex(rows, k)) else old(nodes)[k]
    {
      hide RowIndex;
      for r := 0 to |rows|
        invariant |nodes| == |old(nodes)|
        invariant forall k :: 0 <= k < |nodes| ==>
          nodes[k] == if Keyed(rows[..r], k) then WithPtc(old(nodes)[k], RowIndex(rows, k)) else old(nodes)[k]
      {
        SetRow(rows[r], r);
        forall k
          ensures Keyed(rows[..r + 1], k) <==> Keyed(rows[..r], k) || KeyIn(rows[r], k)
          ensures KeyIn(rows[r], k) ==> RowIndex(rows, k) == r && !Keyed(rows[..r], k)
        {
          KeyedGrows(rows, r, k);
        }
      }
      assert rows[..|rows|] == rows;
    }

    /** Packs one channel and numbers its tracks. */
    method PackChannel(members: seq<Track>, ghost nodes0: seq<Node>, ghost typ: NodeType, ghost chan: nat,
                       ghost nx: nat, ghost ny: nat) returns (model: Channel)
      requires CanChannel(nodes0, tracks)
      requires (typ == ChanX && chan == nx) || (typ == ChanY && chan == ny)
      requires members == Members(nodes0, tracks, typ, chan)
      requires nodes == Assigned(nodes0, tracks, nx, ny)
      modifies this`nodes
      ensures fresh(model) && model.trees == Rows(nodes0, tracks, typ, chan)
      ensures nodes == if typ == ChanX then Assigned(nodes0, tracks, nx + 1, ny)
        else Assigned(nodes0, tracks, nx, ny + 1)
    {
      model := ProcessTrack(members);
      ghost var rows: seq<Row> := Rows(nodes0, tracks, typ, chan);
      RowKeys(nodes0, tracks, typ, chan, nx, ny);
      SetRows(model.trees);
      NextAssigned(nodes0, tracks, typ, chan, nx, ny);
    }

    /** Reads every track into the dictionary of its type. */
    method GroupTracks() returns (xTracks: Groups, yTracks: Groups)
      requires CanChannel(nodes, tracks)
      ensures Grouped(xTracks, nodes, tracks, ChanX) && Grouped(yTracks, nodes, tracks, ChanY)
    {
      NoneGrouped(nodes);
      hide Members, AsTrack, Distinct;
      xTracks, yTracks := map[], map[];
      assert tracks[..0] == [];
      for i := 0 to |tracks|
        invariant Grouped(xTracks, nodes, tracks[..i], ChanX) && Grouped(yTracks, nodes, tracks[..i], ChanY)
      {
        var n := nodes[tracks[i]];
        MembersGrow(nodes, tracks, ChanX, i);
        MembersGrow(nodes, tracks, ChanY, i);
        if n.typ == ChanX {
          xTracks := AddToGroup(xTracks, n.loc.yLow, AsTrack(n, tracks[i]));
        } else {
          yTracks := AddToGroup(yTracks, n.loc.xLow, AsTrack(n, tracks[i]));
        }
      }
      assert tracks[..|tracks|] == tracks;
    }

    /** Packs all channels of one type; a channel number without tracks has width 0. */
    method PackAll(groups: Groups, ghost nodes0: seq<Node>, ghost typ: NodeType, count: nat, ghost nx: nat)
      returns (models: map<int, Channel>, widths: seq<nat>)
      requires CanChannel(nodes0, tracks) && Grouped(groups, nodes0, tracks, typ)
      requires typ == ChanX || typ == ChanY
      requires nodes == Assigned(nodes0, tracks, if typ == ChanX then 0 else nx, 0)
      modifies this`nodes
      ensures nodes == if typ == ChanX then Assigned(nodes0, tracks, count, 0) else Assigned(nodes0, tracks, nx, count)
      ensures Modelled(models, nodes0, tracks, typ, count)
      ensures forall c :: c in models ==> fresh(models[c])
      ensures |widths| == count && forall c :: 0 <= c < count ==> widths[c] == |Rows(nodes0, tracks, typ, c)|
    {
      hide Assigned, Rows, CanChannel, Members;
      models, widths := map[], [];
      for c := 0 to count
        invariant nodes == if typ == ChanX then Assigned(nodes0, tracks, c, 0) else Assigned(nodes0, tracks, nx, c)
        invariant Modelled(models, nodes0, tracks, typ, c)
        invariant forall k :: k in models ==> fresh(models[k])
        invariant |widths| == c && forall k :: 0 <= k < c ==> widths[k] == |Rows(nodes0, tracks, typ, k)|
      {
        if c in groups {
          var model := PackChannel(groups[c], nodes0, typ, c,
            if typ == ChanX then c else nx, if typ == ChanX then 0 else c);
          models := models[c := model];
          widths := widths + [|model.trees|];
        } else {
          NoMembers(nodes0, tracks, typ, c, if typ == ChanX then c else nx, if typ == ChanX then 0 else c);
          widths := widths + [0];
        }
      }
    }

    /** Adds a padding track over every gap of every channel of one type. */
    method PadAll(models: map<int, Channel>, ghost nodes0: seq<Node>, ghost tracks0: seq<nat>, typ: NodeType,
        count: nat, low: int, high: int, segment: int)
      requires Distinct(tracks0) && (typ == ChanX || typ == ChanY)
      requires Modelled(models, nodes0, tracks0, typ, count)
      modifies this
      ensures nodes == Padded(old(nodes), nodes0, tracks0, typ, count, low, high, segment)
      ensures |nodes| >= |old(nodes)|
      ensures tracks == old(tracks) + IndexRange(|old(nodes)|, |nodes|)
    {
      hide Rows, Distinct, AllGaps, IndexRange;
      EmptyRange(|nodes|);
      for c := 0 to count
        invariant nodes == Padded(old(nodes), nodes0, tracks0, typ, c, low, high, segment)
        invariant |nodes| >= |old(nodes)|
        invariant tracks == old(tracks) + IndexRange(|old(nodes)|, |nodes|)
      {
        ghost var start := |nodes|;
        if c in models {
          RowsSorted(nodes0, tracks0, typ, c);
          var gaps := models[c].FillEmpty(low, high);
          AddGaps(gaps, typ, c, segment);
          IndexRangeJoin(|old(nodes)|, start, |nodes|);
        } else {
          NoGaps(low, high);
        }
      }
    }

    method AddGaps(gaps: seq<Gap>, typ: NodeType, chan: int, segment: int)
      requires typ == ChanX || typ == ChanY
      modifies this
      ensures nodes == AddPads(old(nodes), typ, chan, gaps, segment)
      ensures tracks == old(tracks) + IndexRange(|old(nodes)|, |nodes|)
    {
      for i := 0 to |gaps|
        invariant nodes == AddPads(old(nodes), typ, chan, gaps[..i], segment)
        invariant tracks == old(tracks) + IndexRange(|old(nodes)|, |nodes|)
      {
        assert gaps[..i + 1][..i] == gaps[..i];
        if typ == ChanX {
          var _ := AddTrack(typ, gaps[i].low, chan, gaps[i].high, chan, segment, 0, Some(gaps[i].row));
        } else {
          var _ := AddTrack(typ, chan, gaps[i].low, chan, gaps[i].high, segment, 0, Some(gaps[i].row));
        }
      }
      assert gaps[..|gaps|] == gaps;
    }

    /** Lists both ends of every track along both axes. */
    method Extents() returns (xs: seq<int>, ys: seq<int>)
      requires forall i :: 0 <= i < |tracks| ==> tracks[i] < |nodes|
      ensures xs == Ends(nodes, tracks, true) && ys == Ends(nodes, tracks, false)
    {
      hide Ends;
      xs, ys := [], [];
      EndsOfNone(nodes);
      for i := 0 to |tracks|
        invariant xs == Ends(nodes, tracks[..i], true) && ys == Ends(nodes, tracks[..i], false)
      {
        var loc := nodes[tracks[i]].loc;
        EndsGrow(nodes, tracks, i);
        xs := xs + [loc.xLow, loc.xHigh];
        ys := ys + [loc.yLow, loc.yHigh];
      }
      assert tracks[..|tracks|] == tracks;
    }

    /** Packs the tracks of both types and numbers them. */
    method PackBoth() returns (xModels: map<int, Channel>, xWidths: seq<nat>, yModels: map<int, Channel>,
        yWidths: seq<nat>)
      requires CanChannel(nodes, tracks)
      modifies this`nodes
      ensures nodes == Assigned(old(nodes), tracks, ChanCount(old(nodes), tracks, ChanX),
        ChanCount(old(nodes), tracks, ChanY))
      ensures Modelled(xModels, old(nodes), tracks, ChanX, ChanCount(old(nodes), tracks, ChanX))
      ensures Modelled(yModels, old(nodes), tracks, ChanY, ChanCount(old(nodes), tracks, ChanY))
      ensures (forall c :: c in xModels ==> fresh(xModels[c])) && (forall c :: c in yModels ==> fresh(yModels[c]))
      ensures xWidths == Widths(old(nodes), tracks, ChanX) && yWidths == Widths(old(nodes), tracks, ChanY)
      ensures xWidths != [] && yWidths != []
    {
      hide CanChannel, Rows, Members, ChanCount, Assigned, Grouped;
      ghost var nodes0 := nodes;
      var xTracks, yTracks := GroupTracks();
      var nx := MaxChannel(xTracks, nodes, tracks, ChanX);
      var ny := MaxChannel(yTracks, nodes, tracks, ChanY);
      NothingAssigned(nodes, tracks);
      xModels, xWidths := PackAll(xTracks, nodes0, ChanX, nx + 1, 0);
      yModels, yWidths := PackAll(yTracks, nodes0, ChanY, ny + 1, nx + 1);
    }

    /** Packs the tracks into channels, pads the gaps, and reports the channel widths. */
    method CreateChannels(padSegment: int) returns (c: Channels)
      requires CanChannel(nodes, tracks)
      modifies this
      ensures tracks != []
      ensures nodes == Channelled(old(nodes), old(tracks), padSegment) && |nodes| >= |old(nodes)|
      ensures tracks == old(tracks) + IndexRange(|old(nodes)|, |nodes|)
      ensures c == ChannelsOf(old(nodes), old(tracks))
      // A track keeps everything but its ptc, any other node everything; each new node is padding of capacity 0.
      ensures OnlyPtc(old(nodes), old(tracks), nodes) && NewArePads(old(nodes), nodes, padSegment)
      // Each ptc is below the width of its channel, and occurs once over a coordinate; within the extents of the
      // tracks, from 1 on, each is there, and padding is nowhere else.
      ensures PtcsFit(old(nodes), old(tracks), nodes, c) && PtcsApart(old(nodes), old(tracks), nodes)
      ensures RowsFull(old(nodes), old(tracks), nodes, c) && PadsInside(old(nodes), nodes, c)
      // The width of a channel is the greatest number of tracks over one coordinate.
      ensures WidthsAre(old(nodes), old(tracks), c, ChanX) && WidthsAre(old(nodes), old(tracks), c, ChanY)
      ensures MaxIs(c) && ExtentsAre(old(nodes), old(tracks), c)
    {
      BelowTracks(nodes, tracks);
      hide CanChannel, Distinct, Rows, ChanCount, Assigned, Padded, Ends, MinOf, MaxOf, Modelled, Widths, IndexRange,
        Channelled, ChannelsOf, Max, OnlyPtc, NewArePads, PtcsFit, PtcsApart, RowsFull, PadsInside, WidthsAre, MaxIs,
        ExtentsAre;
      ghost var tracks0 := tracks;
      var xs, ys := Extents();
      var xModels, xWidths, yModels, yWidths := PackBoth();
      var xMin, yMin, xMax, yMax := MinOf(xs), MinOf(ys), MaxOf(xs), MaxOf(ys);
      PadBoth(xModels, yModels, old(nodes), |xWidths|, |yWidths|, xMin, yMin, xMax, yMax, padSegment);
      c := Channels(Max(MaxOf(xWidths), MaxOf(yWidths)), xMin, yMin, xMax, yMax, Enumerate(xWidths),
        Enumerate(yWidths));
      ChannelledIs(old(nodes), tracks0, padSegment);
      ChannelledReads(old(nodes), tracks0, padSegment, c);
    }

    /** check_ptc: passes exactly when no node is without a ptc. */
    method CheckPtc() returns (ok: bool)
      ensures ok <==> forall n :: n in nodes ==> n.loc.ptc.Some?
    {
      for i := 0 to |nodes|
        invariant forall j :: 0 <= j < i ==> nodes[j].loc.ptc.Some?
      {
        if nodes[i].loc.ptc == None {
          assert nodes[i] in nodes;
          return false;
        }
      }
      ok := true;
    }

    /** Pads the channels of both types. */
    method PadBoth(xModels: map<int, Channel>, yModels: map<int, Channel>, ghost nodes0: seq<Node>, nx: nat, ny: nat,
                   xMin: int, yMin: int, xMax: int, yMax: int, segment: int)
      requires Distinct(tracks)
      requires Modelled(xModels, nodes0, tracks, ChanX, nx) && Modelled(yModels, nodes0, tracks, ChanY, ny)
      modifies this
      ensures |nodes| >= |old(nodes)|
      ensures nodes == Padded(Padded(old(nodes), nodes0, old(tracks), ChanX, nx, Max(xMin, 1), xMax, segment),
                              nodes0, old(tracks), ChanY, ny, Max(yMin, 1), yMax, segment)
      ensures tracks == old(tracks) + IndexRange(|old(nodes)|, |nodes|)
      // What was there stays; each new node is padding of capacity 0.
      ensures nodes[..|old(nodes)|] == old(nodes) && NewArePads(old(nodes), nodes, segment)
    {
      hide Distinct, Padded, Modelled, IndexRange, Max, NewArePads;
      ghost var tracks0, nodes1 := tracks, nodes;
      PadAll(xModels, nodes0, tracks0, ChanX, nx, Max(xMin, 1), xMax, segment);
      ghost var between := |nodes|;
      ghost var nodes2 := nodes;
      PaddedIsPads(nodes1, nodes0, tracks0, ChanX, nx, Max(xMin, 1), xMax, segment);
      PadAll(yModels, nodes0, tracks0, ChanY, ny, Max(yMin, 1), yMax, segment);
      PaddedIsPads(nodes2, nodes0, tracks0, ChanY, ny, Max(yMin, 1), yMax, segment);
      PadsOnPads(nodes1, nodes2, nodes, segment);
      IndexRangeJoin(|old(nodes)|, between, |nodes|);
    }
  }

  lemma NoneGrouped(nodes: seq<Node>)
    ensures Grouped(map[], nodes, [], ChanX) && Grouped(map[], nodes, [], ChanY)
  {
  }

  lemma BelowTracks(nodes: seq<Node>, tracks: seq<nat>)
    requires CanChannel(nodes, tracks)
    ensures tracks != [] && Distinct(tracks)
    ensures forall i :: 0 <= i < |tracks| ==> tracks[i] < |nodes|
  {
  }

  lemma MembersGrow(nodes: seq<Node>, tracks: seq<nat>, typ: NodeType, i: nat)
    requires i < |tracks| && tracks[i] < |nodes|
    ensures forall c ::
      Members(nodes, tracks[..i + 1], typ, c) == Members(nodes, tracks[..i], typ, c)
        + (if nodes[tracks[i]].typ == typ && ChanOf(nodes[tracks[i]]) == c then [AsTrack(nodes[tracks[i]], tracks[i])]
          else [])
  {
    assert tracks[..i + 1][..i] == tracks[..i];
  }

  /** The keys of a channel's rows are its tracked nodes, each still without a ptc. */
  lemma RowKeys(nodes: seq<Node>, tracks: seq<nat>, typ: NodeType, chan: nat, nx: nat, ny: nat)
    requires CanChannel(nodes, tracks)
    requires (typ == ChanX && chan == nx) || (typ == ChanY && chan == ny)
    ensures var rows: seq<Row> := Rows(nodes, tracks, typ, chan);
      && KeysApart(rows)
      && (forall r, i :: 0 <= r < |rows| && 0 <= i < |rows[r]| ==>
            0 <= rows[r][i].key < |nodes| && Assigned(nodes, tracks, nx, ny)[rows[r][i].key].loc.ptc == None)
      && (forall r, i, j :: 0 <= r < |rows| && 0 <= i < j < |rows[r]| ==> rows[r][i].key != rows[r][j].key)
  {
    hide Rows, KeysApart, HoldMembers, GoodRows, Assigned, CanChannel, Distinct, InChannel, AsTrack;
    var rows: seq<Row> := Rows(nodes, tracks, typ, chan);
    assert KeysApart(rows) by {
      BelowTracks(nodes, tracks);
      RowsAre(nodes, tracks, typ, chan);
    }
    forall r, i | 0 <= r < |rows| && 0 <= i < |rows[r]|
      ensures 0 <= rows[r][i].key < |nodes| && Assigned(nodes, tracks, nx, ny)[rows[r][i].key].loc.ptc == None
    {
      RowMember(nodes, tracks, typ, chan, r, rows[r][i]);
      StillOpen(nodes, tracks, typ, chan, nx, ny, rows[r][i].key);
    }
    forall r, i, j | 0 <= r < |rows| && 0 <= i < j < |rows[r]| ensures rows[r][i].key != rows[r][j].key {
      RowKeysDiffer(nodes, tracks, typ, chan, r, i, j);
    }
  }

  /** A track of a row is a tracked node of the channel. */
  lemma RowMember(nodes: seq<Node>, tracks: seq<nat>, typ: NodeType, chan: nat, r: nat, t: Track)
    requires CanChannel(nodes, tracks)
    requires r < |Rows(nodes, tracks, typ, chan)| && t in Rows(nodes, tracks, typ, chan)[r]
    ensures InChannel(nodes, t.key, typ, chan) && 0 <= t.key < |nodes|
    ensures t == AsTrack(nodes[t.key], t.key) && t.key in tracks
  {
    RowsAre(nodes, tracks, typ, chan);
    MembersAre(nodes, tracks, typ, chan);
    hide Rows, Members, KeysApart, GoodRows, AsTrack, Proper;
    assert t in Members(nodes, tracks, typ, chan);
    var i :| IsMember(nodes, tracks, i, typ, chan, t);
    AsTrackKey(nodes[tracks[i]], tracks[i]);
  }

  /** The nodes of the channel whose turn it is have no ptc yet. */
  lemma StillOpen(nodes: seq<Node>, tracks: seq<nat>, typ: NodeType, chan: nat, nx: nat, ny: nat, k: nat)
    requires CanChannel(nodes, tracks) && k in tracks && InChannel(nodes, k, typ, chan)
    requires (typ == ChanX && chan == nx) || (typ == ChanY && chan == ny)
    ensures Assigned(nodes, tracks, nx, ny)[k].loc.ptc == None
  {
    hide Rows, RowIndex;
    var i :| 0 <= i < |tracks| && tracks[i] == k;
    assert GoodTrack(nodes[tracks[i]]);
  }

  lemma RowKeysDiffer(nodes: seq<Node>, tracks: seq<nat>, typ: NodeType, chan: nat, r: nat, i: nat, j: nat)
    requires CanChannel(nodes, tracks)
    requires r < |Rows(nodes, tracks, typ, chan)| && i < j < |Rows(nodes, tracks, typ, chan)[r]|
    ensures Rows(nodes, tracks, typ, chan)[r][i].key != Rows(nodes, tracks, typ, chan)[r][j].key
  {
    RowsAre(nodes, tracks, typ, chan);
    hide Rows, Linked, KeysApart, HoldMembers, CanChannel;
    var row := Rows(nodes, tracks, typ, chan)[r];
    RowMember(nodes, tracks, typ, chan, r, row[i]);
    RowMember(nodes, tracks, typ, chan, r, row[j]);
    hide Proper;
    LinkedOrder(row, i, j);
    assert row[i].high < row[j].low;
    TrackEnds(nodes[row[i].key], row[i].key);
  }

  lemma TrackEnds(n: Node, k: nat)
    ensures AsTrack(n, k).low <= AsTrack(n, k).high
  {
  }

  lemma NextAssigned(nodes: seq<Node>, tracks: seq<nat>, typ: NodeType, chan: nat, nx: nat, ny: nat)
    requires CanChannel(nodes, tracks)
    requires (typ == ChanX && chan == nx) || (typ == ChanY && chan == ny)
    ensures var before := Assigned(nodes, tracks, nx, ny);
      var after := if typ == ChanX then Assigned(nodes, tracks, nx + 1, ny) else Assigned(nodes, tracks, nx, ny + 1);
      var rows: seq<Row> := Rows(nodes, tracks, typ, chan);
      forall k :: 0 <= k < |nodes| ==>
        after[k] == if Keyed(rows, k) then WithPtc(before[k], RowIndex(rows, k)) else before[k]
  {
    hide Rows, Members, RowIndex;
    var rows: seq<Row> := Rows(nodes, tracks, typ, chan);
    forall k | 0 <= k < |nodes| ensures Keyed(rows, k) <==> k in tracks && InChannel(nodes, k, typ, chan) {
      KeyedAre(nodes, tracks, typ, chan, k);
    }
  }

  lemma KeyedAre(nodes: seq<Node>, tracks: seq<nat>, typ: NodeType, chan: int, k: nat)
    requires CanChannel(nodes, tracks) && k < |nodes| && (typ == ChanX || typ == ChanY)
    ensures Keyed(Rows(nodes, tracks, typ, chan), k) <==> k in tracks && InChannel(nodes, k, typ, chan)
  {
    hide Rows, Members;
    var rows: seq<Row> := Rows(nodes, tracks, typ, chan);
    if k in tracks && InChannel(nodes, k, typ, chan) {
      TrackedRow(nodes, tracks, k);
      AsTrackKey(nodes[k], k);
      assert KeyIn(rows[RowIndex(rows, k)], k);
    }
    if Keyed(rows, k) {
      var r :| 0 <= r < |rows| && KeyIn(rows[r], k);
      var t :| t in rows[r] && t.key == k;
      RowsAre(nodes, tracks, typ, chan);
      MembersAre(nodes, tracks, typ, chan);
      assert t in Members(nodes, tracks, typ, chan);
      var i :| IsMember(nodes, tracks, i, typ, chan, t);
    }
  }

  /** The packed channels of one type: one model per channel number that has tracks. */
  ghost predicate Modelled(models: map<int, Channel>, nodes: seq<Node>, tracks: seq<nat>, typ: NodeType, count: nat)
    reads set c | c in models :: models[c]
  {
    && (forall c :: c in models ==> 0 <= c < count && models[c].trees == Rows(nodes, tracks, typ, c))
    && (forall c :: 0 <= c < count && c !in models ==> Rows(nodes, tracks, typ, c) == [])
  }

  /** A channel without tracks has no rows, and packing it changes nothing. */
  lemma NoMembers(nodes: seq<Node>, tracks: seq<nat>, typ: NodeType, chan: nat, nx: nat, ny: nat)
    requires CanChannel(nodes, tracks)
    requires (typ == ChanX && chan == nx) || (typ == ChanY && chan == ny)
    requires Members(nodes, tracks, typ, chan) == []
    ensures Rows(nodes, tracks, typ, chan) == []
    ensures Assigned(nodes, tracks, nx, ny)
      == if typ == ChanX then Assigned(nodes, tracks, nx + 1, ny) else Assigned(nodes, tracks, nx, ny + 1)
  {
    hide RowIndex, Members;
    assert Rows(nodes, tracks, typ, chan) == [];
    NextAssigned(nodes, tracks, typ, chan, nx, ny);
  }

  lemma NoGaps(low: int, high: int)
    ensures AllGaps([], low, high) == []
  {
  }

  lemma RowsSorted(nodes: seq<Node>, tracks: seq<nat>, typ: NodeType, chan: int)
    requires Distinct(tracks)
    ensures var rows := Rows(nodes, tracks, typ, chan);
      forall i :: 0 <= i < |rows| ==> rows[i] != [] && SortedBy(rows[i], TRACK_LOW)
  {
    hide Rows, Members;
    var rows: seq<Row> := Rows(nodes, tracks, typ, chan);
    RowsAre(nodes, tracks, typ, chan);
    forall r, i, j | 0 <= r < |rows| && 0 <= i < j < |rows[r]| ensures TRACK_LOW(rows[r][i]) <= TRACK_LOW(rows[r][j]) {
      LinkedOrder(rows[r], i, j);
      assert rows[r][i] in rows[r];
    }
  }

  lemma NothingAssigned(nodes: seq<Node>, tracks: seq<nat>)
    requires CanChannel(nodes, tracks)
    ensures Assigned(nodes, tracks, 0, 0) == nodes
  {
    hide RowIndex, Rows;
    var after := Assigned(nodes, tracks, 0, 0);
    forall k | 0 <= k < |nodes| ensures after[k] == nodes[k] {
      if i :| 0 <= i < |tracks| && tracks[i] == k {
        assert GoodTrack(nodes[tracks[i]]);
      }
    }
  }

  lemma EndsOfNone(nodes: seq<Node>)
    ensures Ends(nodes, [], true) == [] && Ends(nodes, [], false) == []
  {
  }

  lemma EndsGrow(nodes: seq<Node>, tracks: seq<nat>, i: nat)
    requires i < |tracks| && tracks[i] < |nodes|
    ensures var loc := nodes[tracks[i]].loc;
      && Ends(nodes, tracks[..i + 1], true) == Ends(nodes, tracks[..i], true) + [loc.xLow, loc.xHigh]
      && Ends(nodes, tracks[..i + 1], false) == Ends(nodes, tracks[..i], false) + [loc.yLow, loc.yHigh]
  {
    assert tracks[..i + 1][..i] == tracks[..i];
  }

  function Enumerate(widths: seq<nat>): seq<ChannelList> {
    seq(|widths|, i requires 0 <= i < |widths| => ChannelList(i, widths[i]))
  }

  ghost function Widths(nodes: seq<Node>, tracks: seq<nat>, typ: NodeType): (r: seq<nat>)
    ensures |r| == ChanCount(nodes, tracks, typ)
  {
    seq(ChanCount(nodes, tracks, typ), c requires 0 <= c => |Rows(nodes, tracks, typ, c)|)
  }

  /** The channel summary: the extent of the tracks and the width of every channel. */
  ghost function ChannelsOf(nodes: seq<Node>, tracks: seq<nat>): Channels
    requires tracks != []
  {
    var xs, ys := Ends(nodes, tracks, true), Ends(nodes, tracks, false);
    var xWidths, yWidths := Widths(nodes, tracks, ChanX), Widths(nodes, tracks, ChanY);
    Channels(if xWidths == [] || yWidths == [] then 0 else Max(MaxOf(xWidths), MaxOf(yWidths)),
             MinOf(xs), MinOf(ys), MaxOf(xs), MaxOf(ys), Enumerate(xWidths), Enumerate(yWidths))
  }

  lemma ChannelledIs(nodes: seq<Node>, tracks: seq<nat>, segment: int)
    requires tracks != []
    ensures var xs, ys := Ends(nodes, tracks, true), Ends(nodes, tracks, false);
      var xWidths, yWidths := Widths(nodes, tracks, ChanX), Widths(nodes, tracks, ChanY);
      && Channelled(nodes, tracks, segment)
         == Padded(Padded(Assigned(nodes, tracks, |xWidths|, |yWidths|), nodes, tracks, ChanX, |xWidths|,
                          Max(MinOf(xs), 1), MaxOf(xs), segment),
                   nodes, tracks, ChanY, |yWidths|, Max(MinOf(ys), 1), MaxOf(ys), segment)
      && (xWidths != [] && yWidths != [] ==>
          ChannelsOf(nodes, tracks) == Channels(Max(MaxOf(xWidths), MaxOf(yWidths)), MinOf(xs), MinOf(ys), MaxOf(xs),
                                                MaxOf(ys), Enumerate(xWidths), Enumerate(yWidths)))
  {
    hide Padded, Assigned, Widths, Ends, MinOf, MaxOf;
  }

  lemma MaxTells(c: Channels, xs: seq<nat>, ys: seq<nat>)
    requires xs != [] && ys != [] && c.xList == Enumerate(xs) && c.yList == Enumerate(ys)
    requires c.widthMax == Max(MaxOf(xs), MaxOf(ys))
    ensures MaxIs(c)
  {
    EnumerateHas(xs);
    EnumerateHas(ys);
    hide Enumerate, MaxOf;
    forall l | l in c.xList + c.yList ensures l.info <= c.widthMax {
      assert l in c.xList || l in c.yList;
    }
    var top := if MaxOf(xs) <= MaxOf(ys) then ys else xs;
    var l :| l in Enumerate(top) && l.info == MaxOf(top);
    assert l in c.xList + c.yList;
  }

  lemma ListTells(nodes: seq<Node>, tracks: seq<nat>, typ: NodeType)
    ensures var list := Enumerate(Widths(nodes, tracks, typ));
      |list| == ChanCount(nodes, tracks, typ) && forall chan: nat :: chan < |list| ==>
        list[chan] == ChannelList(chan, |Rows(nodes, tracks, typ, chan)|)
  {
    hide Rows, ChanCount;
  }

  lemma TypeTells(nodes: seq<Node>, tracks: seq<nat>, c: Channels, typ: NodeType)
    requires tracks != [] && c == ChannelsOf(nodes, tracks) && (typ == ChanX || typ == ChanY)
    ensures Tells(nodes, tracks, c, typ) && ListOf(c, typ) == Enumerate(Widths(nodes, tracks, typ))
  {
    hide Rows, Ends, MinOf, MaxOf, ChanCount, Widths, Enumerate, Max;
    ListTells(nodes, tracks, typ);
  }

  lemma ChannelsTell(nodes: seq<Node>, tracks: seq<nat>, c: Channels)
    requires CanChannel(nodes, tracks) && tracks != [] && c == ChannelsOf(nodes, tracks)
    ensures Tells(nodes, tracks, c, ChanX) && Tells(nodes, tracks, c, ChanY) && MaxIs(c)
  {
    hide CanChannel, Members, Tells, Enumerate, MaxIs, Widths, Rows, ChanCount, MinOf, MaxOf, Ends, Max;
    TopChannel(nodes, tracks, ChanX);
    TopChannel(nodes, tracks, ChanY);
    TypeTells(nodes, tracks, c, ChanX);
    TypeTells(nodes, tracks, c, ChanY);
    MaxTells(c, Widths(nodes, tracks, ChanX), Widths(nodes, tracks, ChanY));
  }

  lemma EnumerateHas(widths: seq<nat>)
    requires widths != []
    ensures forall l :: l in Enumerate(widths) ==> l.info <= MaxOf(widths)
    ensures exists l :: l in Enumerate(widths) && l.info == MaxOf(widths)
  {
    var i :| 0 <= i < |widths| && widths[i] == MaxOf(widths);
    assert Enumerate(widths)[i] in Enumerate(widths);
  }

  /** What the nodes and channels of the specification are, told by the nodes alone. */
  lemma ChannelledReads(nodes: seq<Node>, tracks: seq<nat>, segment: int, c: Channels)
    requires CanChannel(nodes, tracks) && tracks != [] && c == ChannelsOf(nodes, tracks)
    ensures var after := Channelled(nodes, tracks, segment);
      && OnlyPtc(nodes, tracks, after) && NewArePads(nodes, after, segment)
      && PtcsFit(nodes, tracks, after, c) && PtcsApart(nodes, tracks, after)
      && RowsFull(nodes, tracks, after, c) && PadsInside(nodes, after, c)
      && WidthsAre(nodes, tracks, c, ChanX) && WidthsAre(nodes, tracks, c, ChanY)
      && MaxIs(c) && ExtentsAre(nodes, tracks, c)
  {
    BelowTracks(nodes, tracks);
    ChannelsTell(nodes, tracks, c);
    EndsExtent(nodes, tracks, true);
    EndsExtent(nodes, tracks, false);
    hide CanChannel, Distinct, Rows, ChanCount, Ends, MinOf, MaxOf, Channelled, ChannelsOf, OnlyPtc, NewArePads,
      PtcsFit, PtcsApart, RowsFull, PadsInside, WidthsAre, MaxIs, Extent;
    ChannelledKeeps(nodes, tracks, segment);
    ChannelledApart(nodes, tracks, segment);
    ChannelledFits(nodes, tracks, segment, c);
    ChannelledInside(nodes, tracks, segment, c);
    ChannelledFull(nodes, tracks, segment, c);
    WidthsTell(nodes, tracks, c, ChanX);
    WidthsTell(nodes, tracks, c, ChanY);
  }

  /** Python's `max` over a dictionary of channels. */
  method MaxChannel(groups: Groups, ghost nodes: seq<Node>, ghost tracks: seq<nat>, ghost typ: NodeType)
      returns (m: nat)
    requires Grouped(groups, nodes, tracks, typ) && CanChannel(nodes, tracks) && (typ == ChanX || typ == ChanY)
    ensures m + 1 == ChanCount(nodes, tracks, typ)
  {
    hide Members, Distinct;
    ghost var top := ChanCount(nodes, tracks, typ) - 1;
    TopChannel(nodes, tracks, typ);
    assert top in groups.Keys;
    var high := GreatestKey(groups.Keys);
    assert Members(nodes, tracks, typ, high) != [];
    MembersAre(nodes, tracks, typ, high);
    ghost var t := Members(nodes, tracks, typ, high)[0];
    assert t in Members(nodes, tracks, typ, high);
    ghost var i :| IsMember(nodes, tracks, i, typ, high, t);
    ChanCountAbove(nodes, tracks, typ, i);
    m := high;
  }

  lemma TopChannel(nodes: seq<Node>, tracks: seq<nat>, typ: NodeType)
    requires CanChannel(nodes, tracks) && (typ == ChanX || typ == ChanY)
    ensures ChanCount(nodes, tracks, typ) > 0
    ensures Members(nodes, tracks, typ, ChanCount(nodes, tracks, typ) - 1) != []
  {
    var i :| 0 <= i < |tracks| && nodes[tracks[i]].typ == typ;
    ChanCountAbove(nodes, tracks, typ, i);
    ChanCountReached(nodes, tracks, typ);
  }

  lemma {:induction false} ChanCountReached(nodes: seq<Node>, tracks: seq<nat>, typ: NodeType)
    ensures ChanCount(nodes, tracks, typ) > 0 ==> Members(nodes, tracks, typ, ChanCount(nodes, tracks, typ) - 1) != []
  {
    if tracks != [] { ChanCountReached(nodes, tracks[..|tracks| - 1], typ); }
  }
}
