/** When check_ptc accepts what create_channels builds. For each coordinate of each channel it is counted
    how often a ptc number is seen there, on tracks and on padding: once for each row that reaches the
    coordinate, unless the row has a track there whose node is written high end first, of which check_ptc
    sees nothing. Rows open in order of their first coordinate, so without such nodes the rows seen are the
    first ones of the channel. */
module Graph2Proofs {
  import opened Sequences
  import opened RrNodes
  import opened Channel2
  import opened Graph2

  /** The ptc numbers over coordinate `along` of channel `chan`. */
  function At(nodes: seq<Node>, typ: NodeType, chan: int, along: int): seq<int> {
    if typ == ChanX then PtcsAt(nodes, typ, along, chan) else PtcsAt(nodes, typ, chan, along)
  }

  ghost predicate OnTrack(n: Node, typ: NodeType, chan: int, along: int) {
    n.typ == typ && ChanOf(n) == chan && Covers(AsTrack(n, 0), along)
  }

  /** A channel node runs along its channel. */
  predicate Straight(n: Node) {
    IsChan(n) ==> if n.typ == ChanX then n.loc.yLow == n.loc.yHigh else n.loc.xLow == n.loc.xHigh
  }

  /** The low end is written first. */
  predicate LowFirst(n: Node) { n.loc.xLow <= n.loc.xHigh && n.loc.yLow <= n.loc.yHigh }

  predicate Ordered(n: Node) { IsChan(n) ==> LowFirst(n) && Straight(n) }

  /** What check_ptc sees of a node over a coordinate of a channel. */
  predicate Seen(n: Node, typ: NodeType, chan: int, along: int) {
    if typ == ChanX then Spans(n, typ, along, chan) else Spans(n, typ, chan, along)
  }

  /** It sees a straight node where its track is, unless the high end is written first: then nothing. */
  lemma SeenIs(n: Node, typ: NodeType, chan: int, along: int)
    requires Straight(n) && (typ == ChanX || typ == ChanY)
    ensures Seen(n, typ, chan, along) <==> OnTrack(n, typ, chan, along) && LowFirst(n)
  {
  }

  ghost predicate AllStraight(nodes: seq<Node>) { forall k :: 0 <= k < |nodes| ==> Straight(nodes[k]) }

  ghost predicate AllOrdered(nodes: seq<Node>) {
    forall k :: 0 <= k < |nodes| ==> Ordered(nodes[k])
  }

  /** Every channel node of the graph was added as a track. */
  ghost predicate AllTracked(nodes: seq<Node>, tracks: seq<nat>) {
    forall k :: 0 <= k < |nodes| && IsChan(nodes[k]) ==> k in tracks
  }

  lemma {:induction false} AtMember(nodes: seq<Node>, typ: NodeType, chan: int, along: int, p: int)
    requires typ == ChanX || typ == ChanY
    ensures multiset(At(nodes, typ, chan, along))[p] >= 1 <==>
      exists k :: 0 <= k < |nodes| && Seen(nodes[k], typ, chan, along) && nodes[k].loc.ptc == Some(p)
  {
    hide At, Seen;
    if nodes != [] {
      var init, last := nodes[..|nodes| - 1], nodes[|nodes| - 1];
      assert nodes == init + [last];
      AtMember(init, typ, chan, along, p);
      AtGrows(init, last, typ, chan, along, p);
      SeenGrows(init, last, typ, chan, along, p);
    } else {
      AtNone(typ, chan, along);
    }
  }

  lemma AtNone(typ: NodeType, chan: int, along: int)
    ensures At([], typ, chan, along) == []
  {
  }

  lemma SeenGrows(init: seq<Node>, last: Node, typ: NodeType, chan: int, along: int, p: int)
    ensures var nodes := init + [last];
      (exists k :: 0 <= k < |nodes| && Seen(nodes[k], typ, chan, along) && nodes[k].loc.ptc == Some(p))
      <==> ((Seen(last, typ, chan, along) && last.loc.ptc == Some(p))
            || exists k :: 0 <= k < |init| && Seen(init[k], typ, chan, along) && init[k].loc.ptc == Some(p))
  {
    hide Seen;
    var nodes := init + [last];
    assert nodes[|init|] == last;
    if k :| 0 <= k < |init| && Seen(init[k], typ, chan, along) && init[k].loc.ptc == Some(p) {
      assert nodes[k] == init[k];
    }
  }

  lemma AtGrows(nodes: seq<Node>, n: Node, typ: NodeType, chan: int, along: int, p: int)
    requires typ == ChanX || typ == ChanY
    ensures multiset(At(nodes + [n], typ, chan, along))[p] == multiset(At(nodes, typ, chan, along))[p]
      + (if Seen(n, typ, chan, along) && n.loc.ptc == Some(p) then 1 else 0)
  {
    hide PtcsAt;
    if typ == ChanX {
      PtcsGrow(nodes, n, typ, along, chan, p);
    } else {
      PtcsGrow(nodes, n, typ, chan, along, p);
    }
  }

  lemma PtcsGrow(nodes: seq<Node>, n: Node, typ: NodeType, x: int, y: int, p: int)
    ensures multiset(PtcsAt(nodes + [n], typ, x, y))[p] == multiset(PtcsAt(nodes, typ, x, y))[p]
      + (if Spans(n, typ, x, y) && n.loc.ptc == Some(p) then 1 else 0)
  {
    assert (nodes + [n])[..|nodes|] == nodes;
  }

  /** If no two nodes share a ptc at a coordinate, the count there is at most one. */
  lemma {:induction false} AtUnique(nodes: seq<Node>, typ: NodeType, chan: int, along: int, p: int)
    requires typ == ChanX || typ == ChanY
    requires forall j, k :: 0 <= j < k < |nodes| ==>
      Seen(nodes[j], typ, chan, along) && Seen(nodes[k], typ, chan, along) ==>
        !(nodes[j].loc.ptc == Some(p) && nodes[k].loc.ptc == Some(p))
    ensures multiset(At(nodes, typ, chan, along))[p] <= 1
  {
    hide At, Seen;
    if nodes != [] {
      var n := |nodes| - 1;
      var init := nodes[..n];
      AtUnique(init, typ, chan, along, p);
      AtGrows(init, nodes[n], typ, chan, along, p);
      AtMember(init, typ, chan, along, p);
      assert nodes == init + [nodes[n]];
      if k :| 0 <= k < n && Seen(init[k], typ, chan, along) && init[k].loc.ptc == Some(p) {
        assert nodes[k] == init[k];
      }
    } else {
      AtNone(typ, chan, along);
    }
  }

  // ----- the rows of one channel -----

  ghost predicate InChannel(nodes: seq<Node>, k: int, typ: NodeType, chan: int) {
    0 <= k < |nodes| && nodes[k].typ == typ && ChanOf(nodes[k]) == chan
  }

  ghost predicate IsMember(nodes: seq<Node>, tracks: seq<nat>, i: int, typ: NodeType, chan: int, m: Track) {
    0 <= i < |tracks| && InChannel(nodes, tracks[i], typ, chan) && m == AsTrack(nodes[tracks[i]], tracks[i])
  }

  lemma {:induction false} MembersAre(nodes: seq<Node>, tracks: seq<nat>, typ: NodeType, chan: int)
    ensures forall m :: m in Members(nodes, tracks, typ, chan) <==> exists i :: IsMember(nodes, tracks, i, typ, chan, m)
    ensures Distinct(tracks) ==> Distinct(Members(nodes, tracks, typ, chan))
    ensures Proper(Members(nodes, tracks, typ, chan))
  {
    if tracks != [] {
      var n := |tracks| - 1;
      var init := tracks[..n];
      MembersAre(nodes, init, typ, chan);
      var before := Members(nodes, init, typ, chan);
      forall m | m in before ensures exists i :: IsMember(nodes, tracks, i, typ, chan, m) {
        var i :| IsMember(nodes, init, i, typ, chan, m);
        assert IsMember(nodes, tracks, i, typ, chan, m);
      }
      forall i, m | IsMember(nodes, tracks, i, typ, chan, m) && i < n ensures m in before {
        assert IsMember(nodes, init, i, typ, chan, m);
      }
      assert InChannel(nodes, tracks[n], typ, chan) ==>
        IsMember(nodes, tracks, n, typ, chan, AsTrack(nodes[tracks[n]], tracks[n]));
      if Distinct(tracks) {
        forall m | m in before ensures m.key != tracks[n] {
          var i :| IsMember(nodes, init, i, typ, chan, m);
          assert tracks[i] != tracks[n];
        }
      }
    }
  }

  /** No track of one row carries the key of a track of another row. */
  ghost predicate KeysApart(rows: seq<Row>) {
    forall i, j, a, b :: 0 <= i < j < |rows| && a in rows[i] && b in rows[j] ==> a.key != b.key
  }

  /** Every track of a row is a member of the channel, and every member is in a row. */
  ghost predicate HoldMembers(rows: seq<Row>, members: seq<Track>) {
    && (forall i, t :: 0 <= i < |rows| && t in rows[i] ==> t in members)
    && (forall t :: t in members ==> exists i :: 0 <= i < |rows| && t in rows[i])
  }

  lemma {:induction false} FlattenMembers(rows: seq<Row>)
    ensures HoldMembers(rows, Flatten(rows))
  {
    if rows != [] {
      var rest := rows[1..];
      FlattenMembers(rest);
      forall i, t | 0 <= i < |rows| && t in rows[i] ensures t in Flatten(rows) {
        if i > 0 { assert t in rest[i - 1]; }
      }
      forall t | t in Flatten(rows) ensures exists i :: 0 <= i < |rows| && t in rows[i] {
        if t in Flatten(rest) {
          var i :| 0 <= i < |rest| && t in rest[i];
          assert t in rows[i + 1];
        }
      }
    }
  }

  lemma {:induction false} FlattenTwice(rows: seq<Row>, i: nat, j: nat, t: Track)
    requires i < j < |rows| && t in rows[i] && t in rows[j]
    ensures multiset(Flatten(rows))[t] >= 2
  {
    if i == 0 {
      var rest := rows[1..];
      FlattenMembers(rest);
      assert t in rest[j - 1];
      assert t in Flatten(rest);
      assert multiset(Flatten(rows)) == multiset(rows[0]) + multiset(Flatten(rest));
    } else {
      FlattenTwice(rows[1..], i - 1, j - 1, t);
    }
  }

  lemma RowsAre(nodes: seq<Node>, tracks: seq<nat>, typ: NodeType, chan: int)
    requires Distinct(tracks)
    ensures var rows := Rows(nodes, tracks, typ, chan);
      && GoodRows(rows) && KeysApart(rows)
      && HoldMembers(rows, Members(nodes, tracks, typ, chan))
      && forall i, j :: 0 <= i < j < |rows| ==> rows[i][0].low <= rows[j][0].low
  {
    hide Pack, Members, Flatten, SortBy;
    var members := Members(nodes, tracks, typ, chan);
    var pool := SortBy(members, TRACK_LENGTH);
    var rows := Pack(pool);
    MembersAre(nodes, tracks, typ, chan);
    SortByProperties(members, TRACK_LENGTH);
    SameMembers(members, pool);
    PackRows(pool);
    PackKeepsTracks(pool);
    FlattenMembers(rows);
    SameMembers(Flatten(rows), members);
    RowsApart(rows, members);
  }

  lemma RowsApart(rows: seq<Row>, members: seq<Track>)
    requires multiset(Flatten(rows)) == multiset(members) && Distinct(members)
    requires forall a, b :: a in members && b in members && a.key == b.key ==> a == b
    requires HoldMembers(rows, members)
    ensures KeysApart(rows)
  {
    DistinctMultiset(members);
    forall i, j, a, b | 0 <= i < j < |rows| && a in rows[i] && b in rows[j] ensures a.key != b.key {
      if a.key == b.key {
        FlattenTwice(rows, i, j, a);
        assert false;
      }
    }
  }

  // ----- where each node ends up -----

  lemma {:induction false} RowIndexOf(rows: seq<Row>, i: nat, t: Track)
    requires KeysApart(rows) && i < |rows| && t in rows[i]
    ensures RowIndex(rows, t.key) == i
  {
    if i > 0 {
      assert !KeyIn(rows[0], t.key) by {
        forall a | a in rows[0] ensures a.key != t.key {}
      }
      RowIndexOf(rows[1..], i - 1, t);
    }
  }

  /** A tracked node is the one track with its key in the row its ptc names. */
  lemma TrackedRow(nodes: seq<Node>, tracks: seq<nat>, k: nat)
    requires Distinct(tracks)
    requires k < |nodes| && IsChan(nodes[k]) && k in tracks
    ensures var rows := Rows(nodes, tracks, nodes[k].typ, ChanOf(nodes[k]));
      var p := RowIndex(rows, k);
      p < |rows| && AsTrack(nodes[k], k) in rows[p]
  {
    hide Rows, Members, RowIndex, GoodRows, KeysApart, Proper, AsTrack, Distinct;
    var typ, chan := nodes[k].typ, ChanOf(nodes[k]);
    var rows, t := Rows(nodes, tracks, typ, chan), AsTrack(nodes[k], k);
    var i :| 0 <= i < |tracks| && tracks[i] == k;
    MembersAre(nodes, tracks, typ, chan);
    RowsAre(nodes, tracks, typ, chan);
    assert IsMember(nodes, tracks, i, typ, chan, t);
    assert t in Members(nodes, tracks, typ, chan);
    var p :| 0 <= p < |rows| && t in rows[p];
    RowIndexOf(rows, p, t);
    AsTrackKey(nodes[k], k);
  }

  lemma AsTrackKey(n: Node, k: nat)
    ensures AsTrack(n, k).key == k
  {
  }

  lemma {:induction false} DepthTwo(s: seq<Track>, a: Track, b: Track, x: int)
    requires a in s && b in s && a != b && Covers(a, x) && Covers(b, x)
    ensures Depth(s, x) >= 2
  {
    if s[0] == a {
      DepthPositive(s[1..], b, x);
    } else if s[0] == b {
      DepthPositive(s[1..], a, x);
    } else {
      DepthTwo(s[1..], a, b, x);
    }
  }

  ghost predicate AllBelow(nodes: seq<Node>, typ: NodeType, n: int) {
    forall k :: 0 <= k < |nodes| && nodes[k].typ == typ ==> ChanOf(nodes[k]) < n
  }

  ghost predicate PlacedIn(rows: seq<Row>, n: Node, k: nat, p: int) {
    0 <= p < |rows| && AsTrack(n, k) in rows[p]
  }

  /** What one packed node shows at a coordinate: the row its track is in. */
  lemma AssignedNode(nodes: seq<Node>, tracks: seq<nat>, nx: int, ny: int, k: nat)
    requires Distinct(tracks) && AllTracked(nodes, tracks)
    requires AllBelow(nodes, ChanX, nx) && AllBelow(nodes, ChanY, ny)
    requires k < |nodes|
    ensures var n := Assigned(nodes, tracks, nx, ny)[k];
      && n.typ == nodes[k].typ && ChanOf(n) == ChanOf(nodes[k]) && AsTrack(n, k) == AsTrack(nodes[k], k)
      && (IsChan(n) ==> n.loc.ptc.Some? && PlacedIn(Rows(nodes, tracks, n.typ, ChanOf(n)), n, k, n.loc.ptc.value))
  {
    hide Rows, RowIndex;
    if IsChan(nodes[k]) {
      TrackedRow(nodes, tracks, k);
    }
  }

  lemma CoversAnyKey(n: Node, j: nat, k: nat, x: int)
    ensures Covers(AsTrack(n, j), x) == Covers(AsTrack(n, k), x)
  {
  }

  /** Two different packed nodes over one coordinate of a channel never share a ptc. */
  lemma AssignedApart(nodes: seq<Node>, tracks: seq<nat>, nx: int, ny: int, along: int, j: nat, k: nat)
    requires Distinct(tracks) && AllTracked(nodes, tracks)
    requires AllBelow(nodes, ChanX, nx) && AllBelow(nodes, ChanY, ny)
    requires j < k < |nodes| && AllStraight(nodes)
    ensures var a, b := Assigned(nodes, tracks, nx, ny)[j], Assigned(nodes, tracks, nx, ny)[k];
      IsChan(a) && OnTrack(a, a.typ, ChanOf(a), along) && OnTrack(b, a.typ, ChanOf(a), along)
      ==> a.loc.ptc != b.loc.ptc
  {
    hide Rows, Assigned;
    var a, b := Assigned(nodes, tracks, nx, ny)[j], Assigned(nodes, tracks, nx, ny)[k];
    AssignedNode(nodes, tracks, nx, ny, j);
    AssignedNode(nodes, tracks, nx, ny, k);
    if IsChan(a) && OnTrack(a, a.typ, ChanOf(a), along) && OnTrack(b, a.typ, ChanOf(a), along)
      && a.loc.ptc == b.loc.ptc
    {
      var rows := Rows(nodes, tracks, a.typ, ChanOf(a));
      var p := a.loc.ptc.value;
      RowsAre(nodes, tracks, a.typ, ChanOf(a));
      CoversAnyKey(a, 0, j, along);
      CoversAnyKey(b, 0, k, along);
      LinkedDepth(rows[p], along);
      DepthTwo(rows[p], AsTrack(a, j), AsTrack(b, k), along);
      assert false;
    }
  }

  lemma {:induction false} DepthSome(s: seq<Track>, x: int)
    ensures Depth(s, x) >= 1 ==> exists t :: t in s && Covers(t, x)
  {
    if Depth(s, x) >= 1 && !Covers(s[0], x) { DepthSome(s[1..], x); }
  }

  /** A track of the row lies over the coordinate, and its node is written low end first. */
  ghost predicate Shows(nodes: seq<Node>, row: Row, along: int) {
    exists t :: t in row && Covers(t, along) && 0 <= t.key < |nodes| && LowFirst(nodes[t.key])
  }

  /** A track of the row lies over the coordinate, and its node is written high end first. */
  ghost predicate Hides(nodes: seq<Node>, row: Row, along: int) {
    exists t :: t in row && Covers(t, along) && 0 <= t.key < |nodes| && !LowFirst(nodes[t.key])
  }

  /** A row has a track over a coordinate, shown or hidden. */
  lemma ShowsOrHides(nodes: seq<Node>, row: Row, along: int)
    requires Linked(row) && Proper(row) && forall t :: t in row ==> 0 <= t.key < |nodes|
    ensures Depth(row, along) ==
      (if Shows(nodes, row, along) then 1 else 0) + (if Hides(nodes, row, along) then 1 else 0)
  {
    LinkedDepth(row, along);
    DepthSome(row, along);
    hide Depth, Linked, Proper, LowFirst, Covers;
    forall t | t in row && Covers(t, along) ensures Depth(row, along) >= 1 { DepthPositive(row, t, along); }
    forall t, u | t in row && u in row && Covers(t, along) && Covers(u, along) ensures t == u {
      if t != u { DepthTwo(row, t, u, along); }
    }
  }

  lemma KeysOfRow(nodes: seq<Node>, tracks: seq<nat>, typ: NodeType, chan: int, p: nat)
    requires Distinct(tracks) && p < |Rows(nodes, tracks, typ, chan)|
    ensures forall t :: t in Rows(nodes, tracks, typ, chan)[p] ==> 0 <= t.key < |nodes|
  {
    hide Rows, Members, GoodRows, KeysApart, Distinct, Proper;
    RowsAre(nodes, tracks, typ, chan);
    MembersAre(nodes, tracks, typ, chan);
    var rows := Rows(nodes, tracks, typ, chan);
    forall t: Track | t in rows[p] ensures 0 <= t.key < |nodes| {
      assert t in Members(nodes, tracks, typ, chan);
      var i :| IsMember(nodes, tracks, i, typ, chan, t);
    }
  }

  /** A row shows a track over a coordinate iff check_ptc sees a packed node with that ptc there. */
  lemma AssignedShows(nodes: seq<Node>, tracks: seq<nat>, nx: int, ny: int,
                      typ: NodeType, chan: int, along: int, p: int)
    requires Distinct(tracks) && AllTracked(nodes, tracks) && AllStraight(nodes)
    requires AllBelow(nodes, ChanX, nx) && AllBelow(nodes, ChanY, ny)
    requires typ == ChanX || typ == ChanY
    ensures var rows := Rows(nodes, tracks, typ, chan);
      var after := Assigned(nodes, tracks, nx, ny);
      (0 <= p < |rows| && Shows(nodes, rows[p], along)) <==>
      exists k :: 0 <= k < |after| && Seen(after[k], typ, chan, along) && after[k].loc.ptc == Some(p)
  {
    hide Rows, Members, Assigned, Depth, GoodRows, Seen, LowFirst, Straight;
    var rows := Rows(nodes, tracks, typ, chan);
    var after := Assigned(nodes, tracks, nx, ny);
    if 0 <= p < |rows| && Shows(nodes, rows[p], along) {
      var t :| t in rows[p] && Covers(t, along) && 0 <= t.key < |nodes| && LowFirst(nodes[t.key]);
      var k := RowNode(nodes, tracks, nx, ny, typ, chan, p, t);
      AsTrackKey(after[k], k);
      CoversAnyKey(after[k], 0, k, along);
      AssignedEnds(nodes, tracks, nx, ny, k);
      SeenIs(after[k], typ, chan, along);
    }
    if k :| 0 <= k < |after| && Seen(after[k], typ, chan, along) && after[k].loc.ptc == Some(p) {
      AssignedEnds(nodes, tracks, nx, ny, k);
      SeenIs(after[k], typ, chan, along);
      AssignedNode(nodes, tracks, nx, ny, k);
      CoversAnyKey(after[k], 0, k, along);
      AsTrackKey(after[k], k);
      assert AsTrack(after[k], k) in rows[p];
    }
  }

  lemma AssignedEnds(nodes: seq<Node>, tracks: seq<nat>, nx: int, ny: int, k: nat)
    requires k < |nodes|
    ensures var n := Assigned(nodes, tracks, nx, ny)[k];
      (LowFirst(n) <==> LowFirst(nodes[k])) && (Straight(n) <==> Straight(nodes[k]))
  {
    hide Rows, RowIndex;
  }

  /** The node behind a track of a row. */
  lemma RowNode(nodes: seq<Node>, tracks: seq<nat>, nx: int, ny: int, typ: NodeType, chan: int, p: nat, t: Track)
    returns (k: nat)
    requires Distinct(tracks) && AllTracked(nodes, tracks)
    requires AllBelow(nodes, ChanX, nx) && AllBelow(nodes, ChanY, ny)
    requires typ == ChanX || typ == ChanY
    requires p < |Rows(nodes, tracks, typ, chan)| && t in Rows(nodes, tracks, typ, chan)[p]
    ensures k < |nodes|
    ensures var n := Assigned(nodes, tracks, nx, ny)[k];
      n.typ == typ && ChanOf(n) == chan && AsTrack(n, k) == t && n.loc.ptc == Some(p)
  {
    hide Rows, Members, Assigned, GoodRows, Distinct, AsTrack, Proper;
    var rows := Rows(nodes, tracks, typ, chan);
    RowsAre(nodes, tracks, typ, chan);
    MembersAre(nodes, tracks, typ, chan);
    assert t in Members(nodes, tracks, typ, chan);
    var i :| IsMember(nodes, tracks, i, typ, chan, t);
    k := tracks[i];
    AssignedNode(nodes, tracks, nx, ny, k);
  }

  /** Over the packed nodes, a ptc is seen once where its row shows a track and nowhere else. */
  lemma AssignedCount(nodes: seq<Node>, tracks: seq<nat>, nx: int, ny: int,
                      typ: NodeType, chan: int, along: int, p: int)
    requires Distinct(tracks) && AllTracked(nodes, tracks) && AllStraight(nodes)
    requires AllBelow(nodes, ChanX, nx) && AllBelow(nodes, ChanY, ny)
    requires typ == ChanX || typ == ChanY
    ensures var rows := Rows(nodes, tracks, typ, chan);
      multiset(At(Assigned(nodes, tracks, nx, ny), typ, chan, along))[p]
      == if 0 <= p < |rows| && Shows(nodes, rows[p], along) then 1 else 0
  {
    hide Rows, Members, Assigned, At, Shows, Seen, Straight;
    var after := Assigned(nodes, tracks, nx, ny);
    AtMember(after, typ, chan, along, p);
    AssignedShows(nodes, tracks, nx, ny, typ, chan, along, p);
    forall j, k | 0 <= j < k < |after| && Seen(after[j], typ, chan, along) && Seen(after[k], typ, chan, along)
      ensures !(after[j].loc.ptc == Some(p) && after[k].loc.ptc == Some(p))
    {
      AssignedEnds(nodes, tracks, nx, ny, j);
      AssignedEnds(nodes, tracks, nx, ny, k);
      SeenIs(after[j], typ, chan, along);
      SeenIs(after[k], typ, chan, along);
      AssignedApart(nodes, tracks, nx, ny, along, j, k);
    }
    AtUnique(after, typ, chan, along, p);
  }

  // ----- padding -----

  lemma {:induction false} PadsCount(base: seq<Node>, padTyp: NodeType, padChan: int, gaps: seq<Gap>, segment: int,
                                     typ: NodeType, chan: int, along: int, p: int)
    requires typ == ChanX || typ == ChanY
    requires padTyp == ChanX || padTyp == ChanY
    ensures multiset(At(AddPads(base, padTyp, padChan, gaps, segment), typ, chan, along))[p]
      == multiset(At(base, typ, chan, along))[p]
       + if padTyp == typ && padChan == chan then GapDepth(gaps, p, along) else 0
  {
    hide At, GapDepth;
    if gaps != [] {
      var n := |gaps| - 1;
      var before := AddPads(base, padTyp, padChan, gaps[..n], segment);
      var pad := PadNode(|before|, padTyp, padChan, gaps[n], segment);
      PadsCount(base, padTyp, padChan, gaps[..n], segment, typ, chan, along, p);
      assert gaps == gaps[..n] + [gaps[n]];
      AtGrows(before, pad, typ, chan, along, p);
      GapDepthOfAppend(gaps[..n], [gaps[n]], p, along);
      OneGapDepth(gaps[n], p, along);
    } else {
      OneGapDepth(Gap(0, 0, 0), p, along);
    }
  }

  lemma OneGapDepth(g: Gap, row: int, x: int)
    ensures GapDepth([g], row, x) == if g.row == row && g.low <= x <= g.high then 1 else 0
    ensures GapDepth([], row, x) == 0
  {
  }

  lemma {:induction false} PaddedCount(base: seq<Node>, nodes: seq<Node>, tracks: seq<nat>, padTyp: NodeType, n: nat,
                                       low: int, high: int, segment: int,
                                       typ: NodeType, chan: int, along: int, p: int)
    requires typ == ChanX || typ == ChanY
    requires padTyp == ChanX || padTyp == ChanY
    ensures multiset(At(Padded(base, nodes, tracks, padTyp, n, low, high, segment), typ, chan, along))[p]
      == multiset(At(base, typ, chan, along))[p]
       + if padTyp == typ && 0 <= chan < n then GapDepth(AllGaps(Rows(nodes, tracks, typ, chan), low, high), p, along)
         else 0
  {
    hide At, GapDepth, AllGaps, Rows, GoodRows;
    if n > 0 {
      PaddedCount(base, nodes, tracks, padTyp, n - 1, low, high, segment, typ, chan, along, p);
      var rows := Rows(nodes, tracks, padTyp, n - 1);
      PadsCount(Padded(base, nodes, tracks, padTyp, n - 1, low, high, segment), padTyp, n - 1,
                AllGaps(rows, low, high), segment, typ, chan, along, p);
    }
  }

  // ----- the end-to-end result -----

  lemma {:induction false} ChanCountAbove(nodes: seq<Node>, tracks: seq<nat>, typ: NodeType, i: nat)
    requires i < |tracks| && tracks[i] < |nodes| && nodes[tracks[i]].typ == typ
    ensures ChanOf(nodes[tracks[i]]) < ChanCount(nodes, tracks, typ)
  {
    var n := |tracks| - 1;
    if i < n {
      assert tracks[..n][i] == tracks[i];
      ChanCountAbove(nodes, tracks[..n], typ, i);
    }
  }

  lemma {:induction false} EndsAre(nodes: seq<Node>, tracks: seq<nat>, alongX: bool, i: nat)
    requires i < |tracks| && tracks[i] < |nodes|
    ensures var loc := nodes[tracks[i]].loc;
      Ends(nodes, tracks, alongX)[2 * i] == (if alongX then loc.xLow else loc.yLow)
      && Ends(nodes, tracks, alongX)[2 * i + 1] == if alongX then loc.xHigh else loc.yHigh
  {
    var n := |tracks| - 1;
    if i < n {
      assert tracks[..n][i] == tracks[i];
      EndsAre(nodes, tracks[..n], alongX, i);
    }
  }

  function LowEdge(nodes: seq<Node>, tracks: seq<nat>, typ: NodeType): int
    requires tracks != []
  {
    Max(MinOf(Ends(nodes, tracks, typ == ChanX)), 1)
  }

  function HighEdge(nodes: seq<Node>, tracks: seq<nat>, typ: NodeType): int
    requires tracks != []
  {
    MaxOf(Ends(nodes, tracks, typ == ChanX))
  }

  /** A row's tracks come from nodes of the channel, so channel number and ends are in range. */
  lemma RowInRange(nodes: seq<Node>, tracks: seq<nat>, typ: NodeType, chan: int, p: nat, t: Track)
    requires CanChannel(nodes, tracks)
    requires typ == ChanX || typ == ChanY
    requires p < |Rows(nodes, tracks, typ, chan)| && t in Rows(nodes, tracks, typ, chan)[p]
    ensures 0 <= chan < ChanCount(nodes, tracks, typ)
    ensures tracks != [] && t.high <= HighEdge(nodes, tracks, typ)
  {
    hide Rows, Members, GoodRows, Ends, ChanCount, MaxOf, Distinct;
    RowsAre(nodes, tracks, typ, chan);
    MembersAre(nodes, tracks, typ, chan);
    assert t in Members(nodes, tracks, typ, chan);
    var i :| IsMember(nodes, tracks, i, typ, chan, t);
    ChanCountAbove(nodes, tracks, typ, i);
    EndsAre(nodes, tracks, typ == ChanX, i);
  }

  lemma BelowCounts(nodes: seq<Node>, tracks: seq<nat>)
    requires CanChannel(nodes, tracks) && AllTracked(nodes, tracks)
    ensures tracks != [] && Distinct(tracks) && AllStraight(nodes)
    ensures AllBelow(nodes, ChanX, ChanCount(nodes, tracks, ChanX))
    ensures AllBelow(nodes, ChanY, ChanCount(nodes, tracks, ChanY))
  {
    hide ChanCount;
    forall k | 0 <= k < |nodes| && IsChan(nodes[k])
      ensures ChanOf(nodes[k]) < ChanCount(nodes, tracks, nodes[k].typ) && Straight(nodes[k])
    {
      var i :| 0 <= i < |tracks| && tracks[i] == k;
      ChanCountAbove(nodes, tracks, nodes[k].typ, i);
    }
  }

  /** The two contributions to a count: tracks the row shows, and padding of the row. */
  lemma RawCount(nodes: seq<Node>, tracks: seq<nat>, segment: int, typ: NodeType, chan: int, along: int, p: int)
    requires CanChannel(nodes, tracks) && AllTracked(nodes, tracks)
    requires typ == ChanX || typ == ChanY
    ensures tracks != [] && Distinct(tracks)
    ensures var rows := Rows(nodes, tracks, typ, chan);
      multiset(At(Channelled(nodes, tracks, segment), typ, chan, along))[p]
      == (if 0 <= p < |rows| && Shows(nodes, rows[p], along) then 1 else 0)
       + (if 0 <= chan < ChanCount(nodes, tracks, typ)
          then GapDepth(AllGaps(rows, LowEdge(nodes, tracks, typ), HighEdge(nodes, tracks, typ)), p, along) else 0)
  {
    var nx, ny := ChanCount(nodes, tracks, ChanX), ChanCount(nodes, tracks, ChanY);
    BelowCounts(nodes, tracks);
    hide Rows, Members, Ends, ChanCount, MinOf, MaxOf, Assigned, At, GapDepth, AllGaps, Padded, Shows, CanChannel,
      AllStraight, AllTracked, Distinct;
    var after := Assigned(nodes, tracks, nx, ny);
    var withX := Padded(after, nodes, tracks, ChanX, nx, LowEdge(nodes, tracks, ChanX),
      HighEdge(nodes, tracks, ChanX), segment);
    AssignedCount(nodes, tracks, nx, ny, typ, chan, along, p);
    PaddedCount(after, nodes, tracks, ChanX, nx, LowEdge(nodes, tracks, ChanX), HighEdge(nodes, tracks, ChanX),
      segment, typ, chan, along, p);
    PaddedCount(withX, nodes, tracks, ChanY, ny, LowEdge(nodes, tracks, ChanY), HighEdge(nodes, tracks, ChanY),
      segment, typ, chan, along, p);
  }

  /** The coordinates that row p of a channel covers once padding is in. */
  predicate InStretch(rows: seq<Row>, p: int, low: int, high: int, along: int) {
    0 <= p < |rows| && rows[p] != [] && Min(low, rows[p][0].low) <= along <= high
  }

  /** What check_ptc sees of row p: padding, or a track written low end first. */
  ghost predicate Visible(nodes: seq<Node>, rows: seq<Row>, p: int, low: int, high: int, along: int) {
    InStretch(rows, p, low, high, along) && !Hides(nodes, rows[p], along)
  }

  /** Row p of a channel of the graph, over one coordinate. */
  ghost predicate RowVisible(nodes: seq<Node>, tracks: seq<nat>, typ: NodeType, chan: int, along: int, p: int)
    requires tracks != []
  {
    Visible(nodes, Rows(nodes, tracks, typ, chan), p, LowEdge(nodes, tracks, typ), HighEdge(nodes, tracks, typ), along)
  }

  /** Row p of a channel of the graph hides a track there. */
  ghost predicate RowHides(nodes: seq<Node>, tracks: seq<nat>, typ: NodeType, chan: int, along: int, p: int) {
    var rows := Rows(nodes, tracks, typ, chan);
    0 <= p < |rows| && Hides(nodes, rows[p], along)
  }

  /** The coordinate is in the padded range and no track of the channel is hidden there. */
  ghost predicate AllShown(nodes: seq<Node>, tracks: seq<nat>, typ: NodeType, chan: int, along: int)
    requires tracks != []
  {
    LowEdge(nodes, tracks, typ) <= along <= HighEdge(nodes, tracks, typ)
    && forall p :: !RowHides(nodes, tracks, typ, chan, along, p)
  }

  /** How often a ptc is seen over one coordinate of one channel once padding is in: once where its row
      is visible, and nowhere else. */
  lemma ChannelCount(nodes: seq<Node>, tracks: seq<nat>, segment: int, typ: NodeType, chan: int, along: int, p: int)
    requires CanChannel(nodes, tracks) && AllTracked(nodes, tracks)
    requires typ == ChanX || typ == ChanY
    ensures tracks != [] && Distinct(tracks)
    ensures multiset(At(Channelled(nodes, tracks, segment), typ, chan, along))[p]
      == if RowVisible(nodes, tracks, typ, chan, along, p) then 1 else 0
  {
    hide Rows, Channelled, LowEdge, ChanCount, MaxOf, Ends, At, GapDepth, AllGaps, Depth, CanChannel, Shows, Hides,
      AllTracked, Distinct;
    RawCount(nodes, tracks, segment, typ, chan, along, p);
    var rows := Rows(nodes, tracks, typ, chan);
    var low, high := LowEdge(nodes, tracks, typ), HighEdge(nodes, tracks, typ);
    RowsAre(nodes, tracks, typ, chan);
    if 0 <= p < |rows| {
      KeysOfRow(nodes, tracks, typ, chan, p);
      ShowsOrHides(nodes, rows[p], along);
      RowInRange(nodes, tracks, typ, chan, p, rows[p][|rows[p]| - 1]);
      AllGapsComplete(rows, low, high, p, along);
    } else {
      AllGapsShape(rows, low, high);
      GapDepthOtherRow(AllGaps(rows, low, high), p, along);
    }
  }

  /** Rows open in order of their first coordinate, so those reaching a coordinate come first. */
  lemma StretchPrefix(rows: seq<Row>, low: int, high: int, along: int, p: int, q: int)
    requires forall i :: 0 <= i < |rows| ==> rows[i] != []
    requires forall i, j :: 0 <= i < j < |rows| ==> rows[i][0].low <= rows[j][0].low
    requires 0 <= p < q && InStretch(rows, q, low, high, along)
    ensures InStretch(rows, p, low, high, along)
  {
  }

  /** Over a coordinate of a channel the visible rows are the first ones. */
  ghost predicate SeenFirst(nodes: seq<Node>, tracks: seq<nat>, typ: NodeType, chan: int, along: int)
    requires tracks != []
  {
    forall p, q :: 0 <= p < q && RowVisible(nodes, tracks, typ, chan, along, q) ==>
      RowVisible(nodes, tracks, typ, chan, along, p)
  }

  lemma SeenPair(nodes: seq<Node>, tracks: seq<nat>, typ: NodeType, chan: int, along: int, p: int, q: int)
    requires Distinct(tracks) && tracks != [] && 0 <= p < q && RowVisible(nodes, tracks, typ, chan, along, q)
    ensures RowVisible(nodes, tracks, typ, chan, along, p) <==> !RowHides(nodes, tracks, typ, chan, along, p)
  {
    RowsOrdered(nodes, tracks, typ, chan);
    hide Rows, LowEdge, HighEdge, Hides, Distinct;
    StretchPrefix(Rows(nodes, tracks, typ, chan), LowEdge(nodes, tracks, typ), HighEdge(nodes, tracks, typ), along,
      p, q);
  }

  lemma HidesInside(nodes: seq<Node>, tracks: seq<nat>, typ: NodeType, chan: int, along: int, p: int)
    requires RowHides(nodes, tracks, typ, chan, along, p)
    ensures 0 <= p < |Rows(nodes, tracks, typ, chan)|
  {
    hide Rows, Hides;
  }

  /** That is, no visible row lies behind one that hides a track there. */
  lemma SeenFirstMeans(nodes: seq<Node>, tracks: seq<nat>, typ: NodeType, chan: int, along: int)
    requires Distinct(tracks) && tracks != []
    ensures SeenFirst(nodes, tracks, typ, chan, along) <==>
      forall p, q :: p < q && RowHides(nodes, tracks, typ, chan, along, p) ==>
        !RowVisible(nodes, tracks, typ, chan, along, q)
  {
    hide RowVisible, RowHides, Distinct;
    forall p, q | 0 <= p < q && RowVisible(nodes, tracks, typ, chan, along, q)
      ensures RowVisible(nodes, tracks, typ, chan, along, p) <==> !RowHides(nodes, tracks, typ, chan, along, p)
    {
      SeenPair(nodes, tracks, typ, chan, along, p, q);
    }
    forall p | RowHides(nodes, tracks, typ, chan, along, p) ensures 0 <= p {
      HidesInside(nodes, tracks, typ, chan, along, p);
    }
  }

  /** How many rows are visible, where these are the first ones. */
  lemma {:induction false} FirstRows(nodes: seq<Node>, tracks: seq<nat>, typ: NodeType, chan: int, along: int, n: nat)
    returns (k: nat)
    requires tracks != [] && SeenFirst(nodes, tracks, typ, chan, along)
    requires forall p :: RowVisible(nodes, tracks, typ, chan, along, p) ==> 0 <= p < n
    ensures k <= n && forall p :: 0 <= p < k <==> RowVisible(nodes, tracks, typ, chan, along, p)
  {
    hide RowVisible;
    if n == 0 || RowVisible(nodes, tracks, typ, chan, along, n - 1) {
      k := n;
    } else {
      k := FirstRows(nodes, tracks, typ, chan, along, n - 1);
    }
  }

  /** One number for each visible row makes a range exactly where these are the first rows. */
  lemma RangeIsFirst(nodes: seq<Node>, tracks: seq<nat>, typ: NodeType, chan: int, along: int, ptcs: seq<int>)
    requires tracks != []
    requires forall p :: multiset(ptcs)[p] == if RowVisible(nodes, tracks, typ, chan, along, p) then 1 else 0
    ensures IsRange(ptcs) <==> SeenFirst(nodes, tracks, typ, chan, along)
  {
    VisibleInside(nodes, tracks, typ, chan, along);
    hide RowVisible, IsRange, Rows;
    if SeenFirst(nodes, tracks, typ, chan, along) {
      var k := FirstRows(nodes, tracks, typ, chan, along, |Rows(nodes, tracks, typ, chan)|);
      hide SeenFirst;
      CountsOfRange(ptcs, k);
    }
    if IsRange(ptcs) { RangeCounts(ptcs); }
  }

  /** Over every coordinate the ptc numbers seen are 0, 1, ... once each exactly where the visible rows
      are the first ones; where no track is hidden in the padded range they are all rows of the channel. */
  lemma ChannelIsFull(nodes: seq<Node>, tracks: seq<nat>, segment: int, typ: NodeType, chan: int, along: int)
    requires CanChannel(nodes, tracks) && AllTracked(nodes, tracks)
    requires typ == ChanX || typ == ChanY
    ensures tracks != []
    ensures IsRange(At(Channelled(nodes, tracks, segment), typ, chan, along)) <==>
      SeenFirst(nodes, tracks, typ, chan, along)
    ensures AllShown(nodes, tracks, typ, chan, along) ==>
      IsRange(At(Channelled(nodes, tracks, segment), typ, chan, along))
      && |At(Channelled(nodes, tracks, segment), typ, chan, along)| == |Rows(nodes, tracks, typ, chan)|
  {
    ChannelCount(nodes, tracks, segment, typ, chan, along, 0);
    var ptcs := At(Channelled(nodes, tracks, segment), typ, chan, along);
    hide Rows, Channelled, LowEdge, HighEdge, At, CanChannel, AllTracked, Distinct, RowVisible, IsRange, AllShown,
      SeenFirst;
    forall p ensures multiset(ptcs)[p] == if RowVisible(nodes, tracks, typ, chan, along, p) then 1 else 0 {
      ChannelCount(nodes, tracks, segment, typ, chan, along, p);
    }
    RangeIsFirst(nodes, tracks, typ, chan, along, ptcs);
    if AllShown(nodes, tracks, typ, chan, along) {
      AllVisible(nodes, tracks, typ, chan, along);
      CountsOfRange(ptcs, |Rows(nodes, tracks, typ, chan)|);
    }
  }

  lemma VisibleInside(nodes: seq<Node>, tracks: seq<nat>, typ: NodeType, chan: int, along: int)
    requires tracks != []
    ensures forall p :: RowVisible(nodes, tracks, typ, chan, along, p) ==> 0 <= p < |Rows(nodes, tracks, typ, chan)|
  {
    hide Rows, LowEdge, HighEdge, Hides;
  }

  lemma AllVisible(nodes: seq<Node>, tracks: seq<nat>, typ: NodeType, chan: int, along: int)
    requires tracks != [] && Distinct(tracks)
    requires AllShown(nodes, tracks, typ, chan, along)
    ensures forall p :: RowVisible(nodes, tracks, typ, chan, along, p) <==> 0 <= p < |Rows(nodes, tracks, typ, chan)|
  {
    RowsOrdered(nodes, tracks, typ, chan);
    hide Rows, LowEdge, HighEdge, Hides;
    forall p ensures RowVisible(nodes, tracks, typ, chan, along, p) <==> 0 <= p < |Rows(nodes, tracks, typ, chan)| {
      assert !RowHides(nodes, tracks, typ, chan, along, p);
    }
  }

  /** Each number of a range occurs once in it. */
  lemma RangeCounts(s: seq<int>)
    requires IsRange(s)
    ensures forall p :: multiset(s)[p] == if 0 <= p < |s| then 1 else 0
  {
    forall p ensures multiset(s)[p] == if 0 <= p < |s| then 1 else 0 {
      DistinctCount(s, p);
      assert p in s <==> multiset(s)[p] > 0;
    }
  }

  lemma RowsOrdered(nodes: seq<Node>, tracks: seq<nat>, typ: NodeType, chan: int)
    requires Distinct(tracks)
    ensures var rows := Rows(nodes, tracks, typ, chan);
      && (forall i :: 0 <= i < |rows| ==> rows[i] != [])
      && forall i, j :: 0 <= i < j < |rows| ==> rows[i][0].low <= rows[j][0].low
  {
    hide Rows, Members, Distinct;
    RowsAre(nodes, tracks, typ, chan);
  }

  /** The visible rows are the first ones wherever one looks. */
  ghost predicate AllSeenFirst(nodes: seq<Node>, tracks: seq<nat>)
    requires tracks != []
  {
    forall typ, chan, along :: (typ == ChanX || typ == ChanY) ==> SeenFirst(nodes, tracks, typ, chan, along)
  }

  /** The main result: what create_channels leaves behind passes check_ptc exactly when at each coordinate
      of each channel the rows that are visible there are the first ones. */
  lemma ChannelledAccepted(nodes: seq<Node>, tracks: seq<nat>, segment: int)
    requires CanChannel(nodes, tracks) && AllTracked(nodes, tracks)
    ensures tracks != [] && (PtcsWellFormed(Channelled(nodes, tracks, segment)) <==> AllSeenFirst(nodes, tracks))
  {
    ChannelIsFull(nodes, tracks, segment, ChanX, 0, 0);
    hide Channelled, PtcsAt, LowEdge, HighEdge, CanChannel, AllTracked, IsRange, SeenFirst, Rows, Hides;
    var after := Channelled(nodes, tracks, segment);
    forall typ, chan, along | typ == ChanX || typ == ChanY
      ensures IsRange(At(after, typ, chan, along)) <==> SeenFirst(nodes, tracks, typ, chan, along)
    {
      ChannelIsFull(nodes, tracks, segment, typ, chan, along);
    }
    WellFormedAt(after);
  }

  lemma WellFormedAt(nodes: seq<Node>)
    ensures PtcsWellFormed(nodes) <==>
      forall typ, chan, along :: (typ == ChanX || typ == ChanY) ==> IsRange(At(nodes, typ, chan, along))
  {
    hide PtcsAt, IsRange;
    if forall typ, chan, along :: (typ == ChanX || typ == ChanY) ==> IsRange(At(nodes, typ, chan, along)) {
      forall typ, x, y | typ == ChanX || typ == ChanY ensures IsRange(PtcsAt(nodes, typ, x, y)) {
        assert IsRange(if typ == ChanX then At(nodes, typ, y, x) else At(nodes, typ, x, y));
      }
    }
  }

  /** With every channel node written low end first nothing is hidden. */
  lemma OrderedSeenFirst(nodes: seq<Node>, tracks: seq<nat>)
    requires CanChannel(nodes, tracks) && AllTracked(nodes, tracks) && AllOrdered(nodes)
    ensures tracks != [] && AllSeenFirst(nodes, tracks)
  {
    BelowCounts(nodes, tracks);
    hide CanChannel, SeenFirst, AllStraight;
    forall typ, chan, along | typ == ChanX || typ == ChanY ensures SeenFirst(nodes, tracks, typ, chan, along) {
      OrderedFirst(nodes, tracks, typ, chan, along);
    }
  }

  lemma OrderedFirst(nodes: seq<Node>, tracks: seq<nat>, typ: NodeType, chan: int, along: int)
    requires Distinct(tracks) && AllOrdered(nodes) && tracks != [] && (typ == ChanX || typ == ChanY)
    ensures SeenFirst(nodes, tracks, typ, chan, along)
  {
    SeenFirstMeans(nodes, tracks, typ, chan, along);
    RowsAre(nodes, tracks, typ, chan);
    MembersAre(nodes, tracks, typ, chan);
    hide Rows, Members, SeenFirst, RowVisible, KeysApart, GoodRows, Distinct, Proper;
    var rows := Rows(nodes, tracks, typ, chan);
    forall p ensures !RowHides(nodes, tracks, typ, chan, along, p) {
      forall t: Track | 0 <= p < |rows| && t in rows[p] && 0 <= t.key < |nodes| ensures LowFirst(nodes[t.key]) {
        assert t in Members(nodes, tracks, typ, chan);
        var i :| IsMember(nodes, tracks, i, typ, chan, t);
        AsTrackKey(nodes[tracks[i]], tracks[i]);
        assert Ordered(nodes[tracks[i]]);
      }
    }
  }

  // ----- ids and missing ptc numbers -----

  ghost predicate IdsAreIndices(nodes: seq<Node>) {
    forall k :: 0 <= k < |nodes| ==> nodes[k].id == k
  }

  /** Later nodes are channel nodes with a ptc, and nothing has happened to the earlier ones. */
  ghost predicate PadsOnly(before: seq<Node>, after: seq<Node>) {
    |before| <= |after| && after[..|before|] == before
    && forall k :: |before| <= k < |after| ==> IsChan(after[k]) && after[k].id == k && after[k].loc.ptc.Some?
  }

  lemma PadsOnlyOn(a: seq<Node>, b: seq<Node>, c: seq<Node>)
    requires PadsOnly(a, b) && PadsOnly(b, c)
    ensures PadsOnly(a, c)
  {
    forall k | |a| <= k < |c| ensures IsChan(c[k]) && c[k].id == k && c[k].loc.ptc.Some? {
      if k < |b| { assert c[k] == c[..|b|][k]; }
    }
    assert c[..|a|] == c[..|b|][..|a|];
  }

  lemma {:induction false} AddPadsOnly(base: seq<Node>, typ: NodeType, chan: int, gaps: seq<Gap>, segment: int)
    requires typ == ChanX || typ == ChanY
    ensures PadsOnly(base, AddPads(base, typ, chan, gaps, segment))
  {
    if gaps != [] {
      var n := |gaps| - 1;
      var r := AddPads(base, typ, chan, gaps[..n], segment);
      AddPadsOnly(base, typ, chan, gaps[..n], segment);
      PadsOnlyOn(base, r, r + [PadNode(|r|, typ, chan, gaps[n], segment)]);
    }
  }

  lemma {:induction false} PaddedOnly(base: seq<Node>, nodes: seq<Node>, tracks: seq<nat>, typ: NodeType, n: nat,
                                      low: int, high: int, segment: int)
    requires typ == ChanX || typ == ChanY
    ensures PadsOnly(base, Padded(base, nodes, tracks, typ, n, low, high, segment))
  {
    hide PadsOnly, Rows, AllGaps, AddPads;
    if n == 0 {
      NoPads(base);
    } else {
      var r := Padded(base, nodes, tracks, typ, n - 1, low, high, segment);
      PaddedOnly(base, nodes, tracks, typ, n - 1, low, high, segment);
      AddPadsOnly(r, typ, n - 1, AllGaps(Rows(nodes, tracks, typ, n - 1), low, high), segment);
      PadsOnlyOn(base, r, Padded(base, nodes, tracks, typ, n, low, high, segment));
    }
  }

  lemma NoPads(base: seq<Node>)
    ensures PadsOnly(base, base)
  {
  }

  /** After create_channels no channel node is without a ptc, ids are still indices, and the other
      nodes are as they were. */
  lemma ChannelledComplete(nodes: seq<Node>, tracks: seq<nat>, segment: int)
    requires CanChannel(nodes, tracks) && AllTracked(nodes, tracks)
    ensures tracks != [] && |nodes| <= |Channelled(nodes, tracks, segment)|
    ensures Numbered(Channelled(nodes, tracks, segment))
    ensures IdsAreIndices(nodes) ==> IdsAreIndices(Channelled(nodes, tracks, segment))
    ensures forall k :: 0 <= k < |nodes| ==>
      if IsChan(nodes[k]) then IsChan(Channelled(nodes, tracks, segment)[k])
        else Channelled(nodes, tracks, segment)[k] == nodes[k]
    ensures forall k :: |nodes| <= k < |Channelled(nodes, tracks, segment)| ==>
      IsChan(Channelled(nodes, tracks, segment)[k])
  {
    var nx, ny := ChanCount(nodes, tracks, ChanX), ChanCount(nodes, tracks, ChanY);
    BelowCounts(nodes, tracks);
    hide Rows, Members, Ends, ChanCount, MinOf, MaxOf, Assigned, Padded, PadsOnly, CanChannel, AllStraight, AllTracked,
      Distinct;
    var after := Assigned(nodes, tracks, nx, ny);
    var withX := Padded(after, nodes, tracks, ChanX, nx, LowEdge(nodes, tracks, ChanX),
      HighEdge(nodes, tracks, ChanX), segment);
    PaddedOnly(after, nodes, tracks, ChanX, nx, LowEdge(nodes, tracks, ChanX), HighEdge(nodes, tracks, ChanX), segment);
    PaddedOnly(withX, nodes, tracks, ChanY, ny, LowEdge(nodes, tracks, ChanY), HighEdge(nodes, tracks, ChanY), segment);
    PadsOnlyOn(after, withX, Channelled(nodes, tracks, segment));
    AssignedComplete(nodes, tracks, nx, ny);
    PadsComplete(after, Channelled(nodes, tracks, segment));
  }

  lemma AssignedComplete(nodes: seq<Node>, tracks: seq<nat>, nx: int, ny: int)
    requires CanChannel(nodes, tracks) && AllTracked(nodes, tracks)
    requires AllBelow(nodes, ChanX, nx) && AllBelow(nodes, ChanY, ny)
    ensures Numbered(Assigned(nodes, tracks, nx, ny))
    ensures IdsAreIndices(nodes) ==> IdsAreIndices(Assigned(nodes, tracks, nx, ny))
    ensures forall k :: 0 <= k < |nodes| ==>
      if IsChan(nodes[k]) then IsChan(Assigned(nodes, tracks, nx, ny)[k])
        else Assigned(nodes, tracks, nx, ny)[k] == nodes[k]
  {
    hide Rows, Assigned, RowIndex;
    var after := Assigned(nodes, tracks, nx, ny);
    forall k | 0 <= k < |nodes|
      ensures after[k].id == nodes[k].id && (IsChan(after[k]) ==> after[k].loc.ptc.Some?)
      ensures if IsChan(nodes[k]) then IsChan(after[k]) else after[k] == nodes[k]
    {
      AssignedOne(nodes, tracks, nx, ny, k);
    }
  }

  lemma AssignedOne(nodes: seq<Node>, tracks: seq<nat>, nx: int, ny: int, k: nat)
    requires CanChannel(nodes, tracks) && AllTracked(nodes, tracks)
    requires AllBelow(nodes, ChanX, nx) && AllBelow(nodes, ChanY, ny) && k < |nodes|
    ensures var n := Assigned(nodes, tracks, nx, ny)[k];
      n.id == nodes[k].id && n.typ == nodes[k].typ && (IsChan(n) ==> n.loc.ptc.Some?) && (!IsChan(n) ==> n == nodes[k])
  {
    hide Rows, RowIndex;
    if k in tracks {
      var i :| 0 <= i < |tracks| && tracks[i] == k;
      assert GoodTrack(nodes[tracks[i]]);
    }
  }

  lemma PadsComplete(before: seq<Node>, after: seq<Node>)
    requires PadsOnly(before, after)
    ensures Numbered(before) ==> Numbered(after)
    ensures IdsAreIndices(before) ==> IdsAreIndices(after)
    ensures |before| <= |after| && forall k :: 0 <= k < |before| ==> after[k] == before[k]
    ensures forall k :: |before| <= k < |after| ==> IsChan(after[k])
  {
    forall k | 0 <= k < |before| ensures after[k] == before[k] {
      assert after[k] == after[..|before|][k];
    }
  }
}
