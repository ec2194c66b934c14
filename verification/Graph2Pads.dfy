/** What create_channels of utils/lib/rr_graph/graph2.py leaves, told by the nodes alone: the tracks that were there,
    the padding that was not, and the width of each channel. */
module Graph2Pads {
  import opened Sequences
  import opened RrNodes
  import opened Channel2
  import opened Graph2
  import opened Graph2Proofs

  // ----- in terms of nodes -----

  /** The node lies over a coordinate of a channel, whichever of its ends is written first. */
  ghost predicate Lies(n: Node, typ: NodeType, chan: int, x: int) {
    && n.typ == typ
    && (typ == ChanX ==>
      n.loc.yLow == chan && (n.loc.xLow <= x <= n.loc.xHigh || n.loc.xHigh <= x <= n.loc.xLow))
    && (typ != ChanX ==>
      n.loc.xLow == chan && (n.loc.yLow <= x <= n.loc.yHigh || n.loc.yHigh <= x <= n.loc.yLow))
  }

  /** Two nodes over one coordinate of a channel differ in ptc. */
  ghost predicate Clear(a: Node, b: Node) {
    forall typ: NodeType, chan: int, x: int ::
      (typ == ChanX || typ == ChanY) && Lies(a, typ, chan, x) && Lies(b, typ, chan, x) ==> a.loc.ptc != b.loc.ptc
  }

  /** Of a track only the ptc is new, of any other node nothing. */
  ghost predicate OnlyPtc(before: seq<Node>, tracks: seq<nat>, after: seq<Node>) {
    |before| <= |after| && forall k: nat :: k < |before| ==>
      if k in tracks then
        after[k].loc.ptc.Some? && after[k] == before[k].(loc := before[k].loc.(ptc := after[k].loc.ptc))
      else after[k] == before[k]
  }

  /** A node nothing can be routed through, along a channel, low end first. */
  ghost predicate IsPad(n: Node, k: nat, segment: int) {
    && n.id == k && n.capacity == 0 && n.segment == segment && n.loc.ptc.Some?
    && ((n.typ == ChanX && n.loc.yLow == n.loc.yHigh && n.loc.xLow <= n.loc.xHigh)
        || (n.typ == ChanY && n.loc.xLow == n.loc.xHigh && n.loc.yLow <= n.loc.yHigh))
  }

  ghost predicate NewArePads(before: seq<Node>, after: seq<Node>, segment: int) {
    forall k: nat :: |before| <= k < |after| ==> IsPad(after[k], k, segment)
  }

  /** A track of the graph before, or a new node. */
  ghost predicate InChannels(before: seq<Node>, tracks: seq<nat>, after: seq<Node>, k: nat) {
    k < |after| && (k in tracks || k >= |before|)
  }

  ghost predicate PtcsApart(before: seq<Node>, tracks: seq<nat>, after: seq<Node>) {
    forall j: nat, k: nat :: InChannels(before, tracks, after, j) && InChannels(before, tracks, after, k) && j != k ==>
      Clear(after[j], after[k])
  }

  /** The channels of one type, by their number. */
  function ListOf(c: Channels, typ: NodeType): seq<ChannelList> { if typ == ChanX then c.xList else c.yList }

  /** The least and greatest coordinate along the channels of one type. */
  function LeastOf(c: Channels, typ: NodeType): int { if typ == ChanX then c.xMin else c.yMin }

  function GreatestOf(c: Channels, typ: NodeType): int { if typ == ChanX then c.xMax else c.yMax }

  /** Each ptc is below the width of its channel. */
  ghost predicate PtcsFit(before: seq<Node>, tracks: seq<nat>, after: seq<Node>, c: Channels) {
    forall k: nat :: InChannels(before, tracks, after, k) ==> PtcFits(after[k], c)
  }

  ghost predicate PtcFits(n: Node, c: Channels) {
    && n.loc.ptc.Some?
    && (n.typ == ChanX ==> 0 <= n.loc.yLow < |c.xList| && 0 <= n.loc.ptc.value < c.xList[n.loc.yLow].info)
    && (n.typ != ChanX ==> 0 <= n.loc.xLow < |c.yList| && 0 <= n.loc.ptc.value < c.yList[n.loc.xLow].info)
  }

  /** The padding stays between the outermost ends of the tracks. */
  ghost predicate PadsInside(before: seq<Node>, after: seq<Node>, c: Channels) {
    forall k :: |before| <= k < |after| ==>
      if after[k].typ == ChanX then c.xMin <= after[k].loc.xLow && after[k].loc.xHigh <= c.xMax
      else c.yMin <= after[k].loc.yLow && after[k].loc.yHigh <= c.yMax
  }

  /** From coordinate 1 on, between the outermost ends of the tracks, every number below the width of a channel is
      there. */
  ghost predicate RowsFull(before: seq<Node>, tracks: seq<nat>, after: seq<Node>, c: Channels) {
    forall typ: NodeType, chan: nat, p: nat, x: int :: IsWithin(c, typ, chan, p, x) ==>
      IsThere(before, tracks, after, typ, chan, p, x)
  }

  ghost predicate IsWithin(c: Channels, typ: NodeType, chan: nat, p: nat, x: int) {
    (typ == ChanX || typ == ChanY) && chan < |ListOf(c, typ)| && p < ListOf(c, typ)[chan].info
    && Max(LeastOf(c, typ), 1) <= x <= GreatestOf(c, typ)
  }

  ghost predicate IsThere(before: seq<Node>, tracks: seq<nat>, after: seq<Node>, typ: NodeType, chan: int, p: int,
      x: int)
  {
    exists k: nat :: InChannels(before, tracks, after, k) && Lies(after[k], typ, chan, x) && after[k].loc.ptc == Some(p)
  }

  /** The tracks over one coordinate of a channel. */
  ghost function Over(nodes: seq<Node>, tracks: seq<nat>, typ: NodeType, chan: int, x: int): set<nat> {
    set k: nat | k in tracks && k < |nodes| && Lies(nodes[k], typ, chan, x)
  }

  /** w is the greatest number of tracks over one coordinate of the channel. */
  ghost predicate IsWidth(nodes: seq<Node>, tracks: seq<nat>, typ: NodeType, chan: int, w: nat) {
    (forall x :: |Over(nodes, tracks, typ, chan, x)| <= w) && exists x :: |Over(nodes, tracks, typ, chan, x)| == w
  }

  /** The channels are listed by number, up to the last that has a track, each with its width. */
  ghost predicate WidthsAre(nodes: seq<Node>, tracks: seq<nat>, c: Channels, typ: NodeType) {
    && (forall chan: nat :: chan < |ListOf(c, typ)| ==>
      ListOf(c, typ)[chan].index == chan && IsWidth(nodes, tracks, typ, chan, ListOf(c, typ)[chan].info))
    && (forall k :: k in tracks && k < |nodes| && nodes[k].typ == typ ==> ChannelNumber(nodes[k]) < |ListOf(c, typ)|)
    && HasTrack(nodes, tracks, typ, |ListOf(c, typ)| - 1)
  }

  ghost predicate HasTrack(nodes: seq<Node>, tracks: seq<nat>, typ: NodeType, chan: int) {
    exists k :: k in tracks && k < |nodes| && nodes[k].typ == typ && ChannelNumber(nodes[k]) == chan
  }

  function ChannelNumber(n: Node): int { if n.typ == ChanX then n.loc.yLow else n.loc.xLow }

  /** The greatest of all widths. */
  ghost predicate MaxIs(c: Channels) {
    && (forall l :: l in c.xList + c.yList ==> l.info <= c.widthMax)
    && exists l :: l in c.xList + c.yList && l.info == c.widthMax
  }

  /** A track ends at the coordinate. */
  ghost predicate HasEnd(nodes: seq<Node>, tracks: seq<nat>, alongX: bool, v: int) {
    exists k :: k in tracks && k < |nodes| && EndsAt(nodes[k].loc, alongX, v)
  }

  predicate EndsAt(loc: Loc, alongX: bool, v: int) {
    if alongX then loc.xLow == v || loc.xHigh == v else loc.yLow == v || loc.yHigh == v
  }

  ghost predicate Extent(nodes: seq<Node>, tracks: seq<nat>, alongX: bool, low: int, high: int) {
    HasEnd(nodes, tracks, alongX, low) && HasEnd(nodes, tracks, alongX, high)
    && forall v :: HasEnd(nodes, tracks, alongX, v) ==> low <= v <= high
  }

  ghost predicate ExtentsAre(nodes: seq<Node>, tracks: seq<nat>, c: Channels) {
    Extent(nodes, tracks, true, c.xMin, c.xMax) && Extent(nodes, tracks, false, c.yMin, c.yMax)
  }

  // ----- the padding of the specification, node by node -----

  ghost predicate PadOf(n: Node, k: nat, typ: NodeType, chan: int, gaps: seq<Gap>, i: nat, segment: int) {
    i < |gaps| && n == PadNode(k, typ, chan, gaps[i], segment)
  }

  predicate InGap(g: Gap, x: int) { g.low <= x <= g.high }

  /** The gaps of one row do not overlap. */
  ghost predicate GapsApart(gaps: seq<Gap>) {
    forall i, j, x :: 0 <= i < j < |gaps| && InGap(gaps[i], x) && InGap(gaps[j], x) ==> gaps[i].row != gaps[j].row
  }

  lemma {:induction false} GapCounts(gaps: seq<Gap>, i: nat, x: int)
    requires i < |gaps| && InGap(gaps[i], x)
    ensures GapDepth(gaps, gaps[i].row, x) >= 1
  {
    if i > 0 { GapCounts(gaps[1..], i - 1, x); }
  }

  lemma {:induction false} GapsCount(gaps: seq<Gap>, i: nat, j: nat, x: int)
    requires i < j < |gaps| && gaps[i].row == gaps[j].row
    requires InGap(gaps[i], x) && InGap(gaps[j], x)
    ensures GapDepth(gaps, gaps[i].row, x) >= 2
  {
    if i > 0 { GapsCount(gaps[1..], i - 1, j - 1, x); } else { GapCounts(gaps[1..], j - 1, x); }
  }

  lemma {:induction false} GapFound(gaps: seq<Gap>, row: nat, x: int) returns (i: nat)
    requires GapDepth(gaps, row, x) >= 1
    ensures i < |gaps| && gaps[i].row == row && InGap(gaps[i], x)
  {
    if gaps[0].row == row && gaps[0].low <= x <= gaps[0].high {
      i := 0;
    } else {
      i := GapFound(gaps[1..], row, x);
      i := i + 1;
    }
  }

  lemma AllGapsApart(rows: seq<Row>, low: int, high: int)
    requires GoodRows(rows)
    ensures GapsApart(AllGaps(rows, low, high))
  {
    hide GapDepth, GoodRows, AllGaps;
    var gaps := AllGaps(rows, low, high);
    AllGapsShape(rows, low, high);
    forall i, j, x | 0 <= i < j < |gaps| && InGap(gaps[i], x) && InGap(gaps[j], x)
      ensures gaps[i].row != gaps[j].row
    {
      if gaps[i].row == gaps[j].row {
        assert gaps[i] in gaps;
        GapsCount(gaps, i, j, x);
        AllGapsComplete(rows, low, high, gaps[i].row, x);
        assert false;
      }
    }
  }

  lemma {:induction false} AddPadsAre(base: seq<Node>, typ: NodeType, chan: int, gaps: seq<Gap>, segment: int)
    ensures var r := AddPads(base, typ, chan, gaps, segment);
      r[..|base|] == base
      && forall i :: 0 <= i < |gaps| ==> r[|base| + i] == PadNode(|base| + i, typ, chan, gaps[i], segment)
  {
    if gaps != [] { AddPadsAre(base, typ, chan, gaps[..|gaps| - 1], segment); }
  }

  lemma PadLies(k: nat, typ: NodeType, chan: int, g: Gap, segment: int)
    requires (typ == ChanX || typ == ChanY) && g.low <= g.high
    ensures IsPad(PadNode(k, typ, chan, g, segment), k, segment)
    ensures PadNode(k, typ, chan, g, segment).loc.ptc == Some(g.row)
    ensures forall t: NodeType, c: int, x: int :: (t == ChanX || t == ChanY) ==>
      (Lies(PadNode(k, typ, chan, g, segment), t, c, x) <==> t == typ && c == chan && InGap(g, x))
  {
  }

  ghost predicate PadsApart(r: seq<Node>, from: nat) {
    forall j, k :: from <= j < k < |r| ==> Clear(r[j], r[k])
  }

  /** The gaps of one channel. */
  ghost function GapsOf(nodes: seq<Node>, tracks: seq<nat>, typ: NodeType, chan: nat, low: int, high: int): seq<Gap> {
    AllGaps(Rows(nodes, tracks, typ, chan), low, high)
  }

  lemma GapsShape(nodes: seq<Node>, tracks: seq<nat>, typ: NodeType, chan: nat, low: int, high: int)
    requires Distinct(tracks)
    ensures var gaps := GapsOf(nodes, tracks, typ, chan, low, high);
      GapsApart(gaps) && forall i :: 0 <= i < |gaps| ==>
        gaps[i].low <= gaps[i].high && gaps[i].row < |Rows(nodes, tracks, typ, chan)|
  {
    hide Rows, AllGaps, GapsApart;
    RowsAre(nodes, tracks, typ, chan);
    AllGapsApart(Rows(nodes, tracks, typ, chan), low, high);
    AllGapsShape(Rows(nodes, tracks, typ, chan), low, high);
  }

  /** Each new node pads a gap of one of the first n channels of the type. */
  ghost predicate PadsFrom(r: seq<Node>, from: nat, nodes: seq<Node>, tracks: seq<nat>, typ: NodeType, n: int, low: int,
      high: int, segment: int)
  {
    forall k :: from <= k < |r| ==> IsPadOf(r[k], k, nodes, tracks, typ, n, low, high, segment)
  }

  ghost predicate IsPadOf(n: Node, k: nat, nodes: seq<Node>, tracks: seq<nat>, typ: NodeType, count: int, low: int,
      high: int, segment: int)
  {
    exists chan: nat, i: nat ::
      chan < count && PadOf(n, k, typ, chan, GapsOf(nodes, tracks, typ, chan, low, high), i, segment)
  }

  lemma PadsClear(j: nat, k: nat, typ: NodeType, c: int, d: int, g: Gap, h: Gap, segment: int)
    requires (typ == ChanX || typ == ChanY) && g.low <= g.high && h.low <= h.high
    requires c == d ==> forall x :: InGap(g, x) && InGap(h, x) ==> g.row != h.row
    ensures Clear(PadNode(j, typ, c, g, segment), PadNode(k, typ, d, h, segment))
  {
    PadLies(j, typ, c, g, segment);
    PadLies(k, typ, d, h, segment);
    hide Lies, PadNode;
  }

  /** Padding one more channel. */
  lemma MorePads(base: seq<Node>, before: seq<Node>, nodes: seq<Node>, tracks: seq<nat>, typ: NodeType, n: nat,
      low: int, high: int, segment: int)
    requires |base| <= |before|
    requires PadsFrom(before, |base|, nodes, tracks, typ, n, low, high, segment)
    ensures var r := AddPads(before, typ, n, GapsOf(nodes, tracks, typ, n, low, high), segment);
      PadsFrom(r, |base|, nodes, tracks, typ, n + 1, low, high, segment)
  {
    var gaps := GapsOf(nodes, tracks, typ, n, low, high);
    var r := AddPads(before, typ, n, gaps, segment);
    AddPadsAre(before, typ, n, gaps, segment);
    hide GapsOf, AddPads, PadNode;
    forall k: nat | |base| <= k < |r| ensures IsPadOf(r[k], k, nodes, tracks, typ, n + 1, low, high, segment) {
      if k >= |before| {
        assert r[|before| + (k - |before|)] == PadNode(k, typ, n, gaps[k - |before|], segment);
        assert PadOf(r[k], k, typ, n, gaps, k - |before|, segment);
      } else {
        assert r[k] == r[..|before|][k];
        assert IsPadOf(before[k], k, nodes, tracks, typ, n, low, high, segment);
      }
    }
  }

  lemma MoreApart(base: seq<Node>, before: seq<Node>, nodes: seq<Node>, tracks: seq<nat>, typ: NodeType, n: nat,
      low: int, high: int, segment: int)
    requires Distinct(tracks) && (typ == ChanX || typ == ChanY) && |base| <= |before|
    requires PadsFrom(before, |base|, nodes, tracks, typ, n, low, high, segment) && PadsApart(before, |base|)
    ensures PadsApart(AddPads(before, typ, n, GapsOf(nodes, tracks, typ, n, low, high), segment), |base|)
  {
    var gaps := GapsOf(nodes, tracks, typ, n, low, high);
    var r := AddPads(before, typ, n, gaps, segment);
    AddPadsAre(before, typ, n, gaps, segment);
    GapsShape(nodes, tracks, typ, n, low, high);
    hide GapsOf, AddPads, PadNode, Clear, Distinct, InGap, Rows, PadsFrom;
    forall k: nat | k < |before| ensures r[k] == before[k] { assert r[k] == r[..|before|][k]; }
    forall k: nat | |before| <= k < |r| ensures r[k] == PadNode(k, typ, n, gaps[k - |before|], segment) {
      assert r[|before| + (k - |before|)] == PadNode(k, typ, n, gaps[k - |before|], segment);
    }
    forall j, k | |base| <= j < k < |r| ensures Clear(r[j], r[k]) {
      if k >= |before| {
        if j >= |before| {
          PadsClear(j, k, typ, n, n, gaps[j - |before|], gaps[k - |before|], segment);
        } else {
          EarlierClear(base, before, nodes, tracks, typ, n, low, high, segment, j, k, gaps[k - |before|]);
        }
      }
    }
  }

  lemma EarlierClear(base: seq<Node>, before: seq<Node>, nodes: seq<Node>, tracks: seq<nat>, typ: NodeType, n: nat,
      low: int, high: int, segment: int, j: nat, k: nat, h: Gap)
    requires Distinct(tracks) && (typ == ChanX || typ == ChanY) && |base| <= j < |before|
    requires PadsFrom(before, |base|, nodes, tracks, typ, n, low, high, segment) && h.low <= h.high
    ensures Clear(before[j], PadNode(k, typ, n, h, segment))
  {
    hide GapsOf, PadNode, Clear, Rows;
    assert IsPadOf(before[j], j, nodes, tracks, typ, n, low, high, segment);
    var chan: nat, i: nat :|
      chan < n && PadOf(before[j], j, typ, chan, GapsOf(nodes, tracks, typ, chan, low, high), i, segment);
    GapsShape(nodes, tracks, typ, chan, low, high);
    PadsClear(j, k, typ, chan, n, GapsOf(nodes, tracks, typ, chan, low, high)[i], h, segment);
  }

  lemma PaddedStep(base: seq<Node>, nodes: seq<Node>, tracks: seq<nat>, typ: NodeType, n: nat, low: int, high: int,
      segment: int)
    ensures Padded(base, nodes, tracks, typ, n, low, high, segment) ==
      if n == 0 then base
      else AddPads(Padded(base, nodes, tracks, typ, n - 1, low, high, segment), typ, n - 1,
        GapsOf(nodes, tracks, typ, n - 1, low, high), segment)
  {
  }

  lemma PrefixOn(a: seq<Node>, b: seq<Node>, c: seq<Node>)
    requires |a| <= |b| <= |c| && b[..|a|] == a && c[..|b|] == b
    ensures c[..|a|] == a
  {
    assert c[..|a|] == c[..|b|][..|a|];
  }

  lemma {:induction false} PaddedAre(base: seq<Node>, nodes: seq<Node>, tracks: seq<nat>, typ: NodeType, n: nat,
      low: int, high: int, segment: int)
    requires Distinct(tracks) && (typ == ChanX || typ == ChanY)
    ensures var r := Padded(base, nodes, tracks, typ, n, low, high, segment);
      && |base| <= |r| && r[..|base|] == base
      && PadsFrom(r, |base|, nodes, tracks, typ, n, low, high, segment) && PadsApart(r, |base|)
  {
    hide Padded, GapsOf, IsPadOf, Clear, Distinct, AddPads, PadNode;
    PaddedStep(base, nodes, tracks, typ, n, low, high, segment);
    if n > 0 {
      var before := Padded(base, nodes, tracks, typ, n - 1, low, high, segment);
      var gaps := GapsOf(nodes, tracks, typ, n - 1, low, high);
      PaddedAre(base, nodes, tracks, typ, n - 1, low, high, segment);
      MorePads(base, before, nodes, tracks, typ, n - 1, low, high, segment);
      MoreApart(base, before, nodes, tracks, typ, n - 1, low, high, segment);
      AddPadsAre(before, typ, n - 1, gaps, segment);
      PrefixOn(base, before, AddPads(before, typ, n - 1, gaps, segment));
    }
  }

  /** Padding leaves what was there and adds padding nodes only. */
  lemma PaddedIsPads(base: seq<Node>, nodes: seq<Node>, tracks: seq<nat>, typ: NodeType, n: nat, low: int, high: int,
      segment: int)
    requires Distinct(tracks) && (typ == ChanX || typ == ChanY)
    ensures var r := Padded(base, nodes, tracks, typ, n, low, high, segment);
      |base| <= |r| && r[..|base|] == base && NewArePads(base, r, segment)
  {
    var r := Padded(base, nodes, tracks, typ, n, low, high, segment);
    PaddedAre(base, nodes, tracks, typ, n, low, high, segment);
    hide Padded, GapsOf, Distinct, PadNode, IsPad, Rows;
    forall k: nat | |base| <= k < |r| ensures IsPad(r[k], k, segment) {
      assert IsPadOf(r[k], k, nodes, tracks, typ, n, low, high, segment);
      var chan: nat, i: nat :|
        chan < n && PadOf(r[k], k, typ, chan, GapsOf(nodes, tracks, typ, chan, low, high), i, segment);
      GapsShape(nodes, tracks, typ, chan, low, high);
      PadLies(k, typ, chan, GapsOf(nodes, tracks, typ, chan, low, high)[i], segment);
    }
  }

  lemma PadsOnPads(a: seq<Node>, b: seq<Node>, c: seq<Node>, segment: int)
    requires |a| <= |b| <= |c| && b[..|a|] == a && c[..|b|] == b
    requires NewArePads(a, b, segment) && NewArePads(b, c, segment)
    ensures c[..|a|] == a && NewArePads(a, c, segment)
  {
    hide IsPad;
    PrefixOn(a, b, c);
    forall k: nat | |a| <= k < |c| ensures IsPad(c[k], k, segment) {
      if k < |b| { assert c[k] == c[..|b|][k]; }
    }
  }

  // ----- the tracks -----

  /** A tracked node after packing: it has the number of the row its track is in. */
  ghost predicate InRow(rows: seq<Row>, n: Node, k: nat) {
    n.loc.ptc.Some? && 0 <= n.loc.ptc.value < |rows| && AsTrack(n, k) in rows[n.loc.ptc.value]
  }

  lemma TrackedAre(nodes: seq<Node>, tracks: seq<nat>, k: nat)
    requires CanChannel(nodes, tracks) && k in tracks
    ensures k < |nodes| && IsChan(nodes[k])
    ensures var after := Assigned(nodes, tracks, ChanCount(nodes, tracks, ChanX), ChanCount(nodes, tracks, ChanY))[k];
      && after.loc.ptc.Some? && after == nodes[k].(loc := nodes[k].loc.(ptc := after.loc.ptc))
      && InRow(Rows(nodes, tracks, nodes[k].typ, ChanOf(nodes[k])), after, k)
      && 0 <= ChanOf(after) < ChanCount(nodes, tracks, after.typ)
  {
    hide Rows, RowIndex, ChanCount, Distinct;
    var i :| 0 <= i < |tracks| && tracks[i] == k;
    assert GoodTrack(nodes[tracks[i]]);
    ChanCountAbove(nodes, tracks, nodes[k].typ, i);
    TrackedRow(nodes, tracks, k);
  }

  lemma LiesOnTrack(n: Node, k: nat)
    requires IsChan(n)
    ensures forall typ: NodeType, chan: int, x: int :: (typ == ChanX || typ == ChanY) && Lies(n, typ, chan, x) ==>
      typ == n.typ && chan == ChanOf(n) && Covers(AsTrack(n, k), x)
  {
  }

  /** Tracks of one row are clear of each other. */
  lemma TracksClear(nodes: seq<Node>, tracks: seq<nat>, a: Node, b: Node, j: nat, k: nat)
    requires Distinct(tracks) && j != k
    requires IsChan(a) && IsChan(b) && InRow(Rows(nodes, tracks, a.typ, ChanOf(a)), a, j)
    requires InRow(Rows(nodes, tracks, b.typ, ChanOf(b)), b, k)
    ensures Clear(a, b)
  {
    LiesOnTrack(a, j);
    LiesOnTrack(b, k);
    AsTrackKey(a, j);
    AsTrackKey(b, k);
    RowsAre(nodes, tracks, a.typ, ChanOf(a));
    hide Rows, Lies, Distinct, Members, AsTrack, ChanOf, KeysApart, HoldMembers, Covers;
    forall typ: NodeType, c: int, x: int |
      (typ == ChanX || typ == ChanY) && Lies(a, typ, c, x) && Lies(b, typ, c, x) && a.loc.ptc == b.loc.ptc
      ensures false
    {
      var row := Rows(nodes, tracks, a.typ, ChanOf(a))[a.loc.ptc.value];
      LinkedDepth(row, x);
      DepthTwo(row, AsTrack(a, j), AsTrack(b, k), x);
    }
  }

  /** A track is clear of the padding. */
  lemma TrackPadClear(nodes: seq<Node>, tracks: seq<nat>, a: Node, j: nat, k: nat, typ: NodeType, chan: nat, i: nat,
      low: int, high: int, segment: int)
    requires Distinct(tracks) && IsChan(a) && InRow(Rows(nodes, tracks, a.typ, ChanOf(a)), a, j)
    requires (typ == ChanX || typ == ChanY) && i < |GapsOf(nodes, tracks, typ, chan, low, high)|
    ensures Clear(a, PadNode(k, typ, chan, GapsOf(nodes, tracks, typ, chan, low, high)[i], segment))
  {
    var gaps := GapsOf(nodes, tracks, typ, chan, low, high);
    LiesOnTrack(a, j);
    GapsShape(nodes, tracks, typ, chan, low, high);
    PadLies(k, typ, chan, gaps[i], segment);
    RowsAre(nodes, tracks, typ, chan);
    hide Rows, Lies, Distinct, Members, AsTrack, ChanOf, KeysApart, HoldMembers, PadNode, AllGaps;
    forall t: NodeType, c: int, x: int | (t == ChanX || t == ChanY) && Lies(a, t, c, x)
      && Lies(PadNode(k, typ, chan, gaps[i], segment), t, c, x) && a.loc.ptc == Some(gaps[i].row)
      ensures false
    {
      var rows := Rows(nodes, tracks, typ, chan);
      GapCounts(gaps, i, x);
      DepthPositive(rows[gaps[i].row], AsTrack(a, j), x);
      AllGapsComplete(rows, low, high, gaps[i].row, x);
    }
  }

  // ----- both types of channel -----

  /** A new node pads a gap of a channel of its type. */
  ghost predicate PadsGap(n: Node, k: nat, nodes: seq<Node>, tracks: seq<nat>, segment: int)
    requires tracks != []
  {
    (n.typ == ChanX || n.typ == ChanY)
    && IsPadOf(n, k, nodes, tracks, n.typ, ChanCount(nodes, tracks, n.typ), LowEdge(nodes, tracks, n.typ),
      HighEdge(nodes, tracks, n.typ), segment)
  }

  lemma PadsGapIs(n: Node, k: nat, nodes: seq<Node>, tracks: seq<nat>, typ: NodeType, segment: int)
    requires tracks != [] && (typ == ChanX || typ == ChanY)
    requires IsPadOf(n, k, nodes, tracks, typ, ChanCount(nodes, tracks, typ), LowEdge(nodes, tracks, typ),
      HighEdge(nodes, tracks, typ), segment)
    ensures n.typ == typ && PadsGap(n, k, nodes, tracks, segment)
  {
    hide GapsOf, ChanCount, LowEdge, HighEdge;
  }

  lemma TypesClear(a: Node, b: Node)
    requires a.typ != b.typ
    ensures Clear(a, b) && Clear(b, a)
  {
  }

  /** The nodes after create_channels: those that were there with their ptc, then padding. */
  lemma ChannelledParts(nodes: seq<Node>, tracks: seq<nat>, segment: int)
    requires CanChannel(nodes, tracks)
    ensures tracks != [] && Distinct(tracks)
    ensures var after := Channelled(nodes, tracks, segment);
      var packed := Assigned(nodes, tracks, ChanCount(nodes, tracks, ChanX), ChanCount(nodes, tracks, ChanY));
      && |nodes| == |packed| <= |after| && after[..|nodes|] == packed
      && (forall k :: |nodes| <= k < |after| ==> PadsGap(after[k], k, nodes, tracks, segment))
      && PadsApart(after, |nodes|)
  {
    var nx, ny := ChanCount(nodes, tracks, ChanX), ChanCount(nodes, tracks, ChanY);
    var packed := Assigned(nodes, tracks, nx, ny);
    var withX := Padded(packed, nodes, tracks, ChanX, nx, LowEdge(nodes, tracks, ChanX), HighEdge(nodes, tracks, ChanX),
      segment);
    var after := Channelled(nodes, tracks, segment);
    assert after == Padded(withX, nodes, tracks, ChanY, ny, LowEdge(nodes, tracks, ChanY),
      HighEdge(nodes, tracks, ChanY), segment);
    hide Channelled, Padded, Assigned, ChanCount, LowEdge, HighEdge, IsPadOf, Clear, PadsGap;
    PaddedAre(packed, nodes, tracks, ChanX, nx, LowEdge(nodes, tracks, ChanX), HighEdge(nodes, tracks, ChanX), segment);
    PaddedAre(withX, nodes, tracks, ChanY, ny, LowEdge(nodes, tracks, ChanY), HighEdge(nodes, tracks, ChanY), segment);
    PrefixOn(packed, withX, after);
    forall k: nat | |nodes| <= k < |after|
      ensures PadsGap(after[k], k, nodes, tracks, segment)
      ensures after[k].typ == if k < |withX| then ChanX else ChanY
    {
      if k < |withX| {
        assert after[k] == after[..|withX|][k];
        PadsGapIs(after[k], k, nodes, tracks, ChanX, segment);
      } else {
        PadsGapIs(after[k], k, nodes, tracks, ChanY, segment);
      }
    }
    forall j, k | |nodes| <= j < k < |after| ensures Clear(after[j], after[k]) {
      if k < |withX| {
        assert after[j] == after[..|withX|][j] && after[k] == after[..|withX|][k];
      } else if j < |withX| {
        TypesClear(after[j], after[k]);
      }
    }
  }

  /** The nodes there were keep all but the ptc of the tracks, and the new ones are padding. */
  lemma ChannelledKeeps(nodes: seq<Node>, tracks: seq<nat>, segment: int)
    requires CanChannel(nodes, tracks)
    ensures tracks != []
    ensures var after := Channelled(nodes, tracks, segment);
      OnlyPtc(nodes, tracks, after) && NewArePads(nodes, after, segment)
  {
    var after := Channelled(nodes, tracks, segment);
    ChannelledParts(nodes, tracks, segment);
    hide Channelled, CanChannel, ChanCount, PadsGap, Distinct, IsPad, Rows, RowIndex;
    forall k: nat | k < |nodes|
      ensures if k in tracks then
          after[k].loc.ptc.Some? && after[k] == nodes[k].(loc := nodes[k].loc.(ptc := after[k].loc.ptc))
        else after[k] == nodes[k]
    {
      assert after[k] == after[..|nodes|][k];
      if k in tracks { TrackedAre(nodes, tracks, k); }
    }
    forall k: nat | |nodes| <= k < |after| ensures IsPad(after[k], k, segment) {
      PadIs(after[k], k, nodes, tracks, segment);
    }
  }

  lemma PadIs(n: Node, k: nat, nodes: seq<Node>, tracks: seq<nat>, segment: int)
    requires tracks != [] && Distinct(tracks) && PadsGap(n, k, nodes, tracks, segment)
    ensures IsPad(n, k, segment) && 0 <= ChanOf(n) < ChanCount(nodes, tracks, n.typ)
    ensures 0 <= n.loc.ptc.value < |Rows(nodes, tracks, n.typ, ChanOf(n))|
  {
    var low, high := LowEdge(nodes, tracks, n.typ), HighEdge(nodes, tracks, n.typ);
    hide GapsOf, ChanCount, LowEdge, HighEdge, Rows, Lies;
    var chan: nat, i: nat :| chan < ChanCount(nodes, tracks, n.typ)
      && PadOf(n, k, n.typ, chan, GapsOf(nodes, tracks, n.typ, chan, low, high), i, segment);
    GapsShape(nodes, tracks, n.typ, chan, low, high);
    PadLies(k, n.typ, chan, GapsOf(nodes, tracks, n.typ, chan, low, high)[i], segment);
  }

  lemma ClearBoth(a: Node, b: Node)
    ensures Clear(a, b) <==> Clear(b, a)
  {
    hide Lies;
  }

  lemma TrackAndPad(nodes: seq<Node>, tracks: seq<nat>, segment: int, a: Node, j: nat, b: Node, k: nat)
    requires tracks != [] && Distinct(tracks)
    requires IsChan(a) && InRow(Rows(nodes, tracks, a.typ, ChanOf(a)), a, j) && PadsGap(b, k, nodes, tracks, segment)
    ensures Clear(a, b)
  {
    var low, high := LowEdge(nodes, tracks, b.typ), HighEdge(nodes, tracks, b.typ);
    hide GapsOf, ChanCount, LowEdge, HighEdge, Rows, Clear, InRow, PadNode;
    var chan: nat, i: nat :| chan < ChanCount(nodes, tracks, b.typ)
      && PadOf(b, k, b.typ, chan, GapsOf(nodes, tracks, b.typ, chan, low, high), i, segment);
    TrackPadClear(nodes, tracks, a, j, k, b.typ, chan, i, low, high, segment);
  }

  /** No two nodes of the channels share a ptc over a coordinate. */
  lemma ChannelledApart(nodes: seq<Node>, tracks: seq<nat>, segment: int)
    requires CanChannel(nodes, tracks)
    ensures tracks != [] && PtcsApart(nodes, tracks, Channelled(nodes, tracks, segment))
  {
    var after := Channelled(nodes, tracks, segment);
    ChannelledParts(nodes, tracks, segment);
    hide Channelled, CanChannel, ChanCount, PadsGap, Distinct, Rows, RowIndex, Clear, Assigned, InRow;
    forall k: nat | k in tracks
      ensures k < |nodes| && IsChan(after[k]) && InRow(Rows(nodes, tracks, after[k].typ, ChanOf(after[k])), after[k], k)
    {
      TrackedAre(nodes, tracks, k);
      assert after[k] == after[..|nodes|][k];
    }
    forall j: nat, k: nat | InChannels(nodes, tracks, after, j) && InChannels(nodes, tracks, after, k) && j < k
      ensures Clear(after[j], after[k]) && Clear(after[k], after[j])
    {
      ClearBoth(after[j], after[k]);
      if k < |nodes| {
        TracksClear(nodes, tracks, after[j], after[k], j, k);
      } else if j < |nodes| {
        TrackAndPad(nodes, tracks, segment, after[j], j, after[k], k);
      }
    }
  }

  // ----- widths -----

  lemma LiesCovers(n: Node, k: nat, typ: NodeType, chan: int, x: int)
    requires typ == ChanX || typ == ChanY
    ensures Lies(n, typ, chan, x) <==> n.typ == typ && ChanOf(n) == chan && Covers(AsTrack(n, k), x)
  {
  }

  /** Counting the tracks of a channel over a coordinate. */
  lemma {:induction false} OverIs(nodes: seq<Node>, tracks: seq<nat>, typ: NodeType, chan: int, x: int)
    requires Distinct(tracks) && (typ == ChanX || typ == ChanY)
    ensures |Over(nodes, tracks, typ, chan, x)| == Depth(Members(nodes, tracks, typ, chan), x)
  {
    if tracks != [] {
      var n := |tracks| - 1;
      var t := tracks[n];
      OverIs(nodes, tracks[..n], typ, chan, x);
      var before := Members(nodes, tracks[..n], typ, chan);
      if t < |nodes| {
        LiesCovers(nodes[t], t, typ, chan, x);
        DepthOfAppend(before, [AsTrack(nodes[t], t)], x);
        DepthOfOne(AsTrack(nodes[t], t), x);
      }
      hide Depth, Lies, Covers, AsTrack;
      OverGrows(nodes, tracks, typ, chan, x);
      assert before + [] == before;
    }
  }

  lemma OverGrows(nodes: seq<Node>, tracks: seq<nat>, typ: NodeType, chan: int, x: int)
    requires Distinct(tracks) && tracks != []
    ensures var n := |tracks| - 1;
      |Over(nodes, tracks, typ, chan, x)| == |Over(nodes, tracks[..n], typ, chan, x)|
        + if tracks[n] < |nodes| && Lies(nodes[tracks[n]], typ, chan, x) then 1 else 0
  {
    hide Lies;
    var n := |tracks| - 1;
    var few, t := Over(nodes, tracks[..n], typ, chan, x), tracks[n];
    assert tracks == tracks[..n] + [t];
    assert t !in tracks[..n];
    assert Over(nodes, tracks, typ, chan, x) == if t < |nodes| && Lies(nodes[t], typ, chan, x) then few + {t} else few;
  }

  /** The number of rows is the width. */
  lemma RowsAreWidth(nodes: seq<Node>, tracks: seq<nat>, typ: NodeType, chan: int)
    requires Distinct(tracks) && (typ == ChanX || typ == ChanY)
    ensures IsWidth(nodes, tracks, typ, chan, |Rows(nodes, tracks, typ, chan)|)
  {
    hide Members, Depth, Pack, SortBy, Over, Distinct;
    var members := Members(nodes, tracks, typ, chan);
    var pool := SortBy(members, TRACK_LENGTH);
    MembersAre(nodes, tracks, typ, chan);
    SortByProperties(members, TRACK_LENGTH);
    SameMembers(members, pool);
    PackHasMaxDepthRows(pool);
    forall x ensures |Over(nodes, tracks, typ, chan, x)| == Depth(pool, x) {
      OverIs(nodes, tracks, typ, chan, x);
      DepthOfMultiset(members, pool, x);
    }
    var x :| Depth(pool, x) == |Pack(pool)|;
    assert |Over(nodes, tracks, typ, chan, x)| == |Pack(pool)|;
  }

  lemma {:induction false} LastChannel(nodes: seq<Node>, tracks: seq<nat>, typ: NodeType)
    ensures ChanCount(nodes, tracks, typ) > 0 ==> HasTrack(nodes, tracks, typ, ChanCount(nodes, tracks, typ) - 1)
  {
    if tracks != [] {
      LastChannel(nodes, tracks[..|tracks| - 1], typ);
      assert tracks[|tracks| - 1] in tracks;
    }
  }

  // ----- extents -----

  lemma {:induction false} EndsHold(nodes: seq<Node>, tracks: seq<nat>, alongX: bool, v: int)
    requires forall i :: 0 <= i < |tracks| ==> tracks[i] < |nodes|
    ensures v in Ends(nodes, tracks, alongX) <==> HasEnd(nodes, tracks, alongX, v)
  {
    if tracks != [] {
      var n := |tracks| - 1;
      EndsHold(nodes, tracks[..n], alongX, v);
      assert tracks == tracks[..n] + [tracks[n]];
      assert HasEnd(nodes, tracks, alongX, v) <==>
        HasEnd(nodes, tracks[..n], alongX, v) || EndsAt(nodes[tracks[n]].loc, alongX, v);
    }
  }

  lemma EndsExtent(nodes: seq<Node>, tracks: seq<nat>, alongX: bool)
    requires tracks != [] && forall i :: 0 <= i < |tracks| ==> tracks[i] < |nodes|
    ensures Extent(nodes, tracks, alongX, MinOf(Ends(nodes, tracks, alongX)), MaxOf(Ends(nodes, tracks, alongX)))
  {
    hide Ends, HasEnd, MinOf, MaxOf;
    forall v ensures v in Ends(nodes, tracks, alongX) <==> HasEnd(nodes, tracks, alongX, v) {
      EndsHold(nodes, tracks, alongX, v);
    }
  }

  // ----- ptc numbers and widths -----

  /** The channels as create_channels computes them: the number of rows of each, and the outermost ends. */
  ghost predicate Tells(nodes: seq<Node>, tracks: seq<nat>, c: Channels, typ: NodeType)
    requires tracks != []
  {
    && |ListOf(c, typ)| == ChanCount(nodes, tracks, typ)
    && (forall chan: nat :: chan < |ListOf(c, typ)| ==>
      ListOf(c, typ)[chan] == ChannelList(chan, |Rows(nodes, tracks, typ, chan)|))
    && LeastOf(c, typ) == MinOf(Ends(nodes, tracks, typ == ChanX))
    && GreatestOf(c, typ) == MaxOf(Ends(nodes, tracks, typ == ChanX))
  }

  lemma NodeFits(nodes: seq<Node>, tracks: seq<nat>, c: Channels, n: Node)
    requires tracks != [] && IsChan(n) && Tells(nodes, tracks, c, n.typ)
    requires 0 <= ChanOf(n) < ChanCount(nodes, tracks, n.typ) && n.loc.ptc.Some?
    requires 0 <= n.loc.ptc.value < |Rows(nodes, tracks, n.typ, ChanOf(n))|
    ensures PtcFits(n, c)
  {
    hide Rows, ChanCount, MinOf, MaxOf, Ends;
    var chan: nat := ChanOf(n);
    assert ListOf(c, n.typ)[chan] == ChannelList(chan, |Rows(nodes, tracks, n.typ, chan)|);
  }

  lemma PadFits(nodes: seq<Node>, tracks: seq<nat>, segment: int, c: Channels, n: Node, k: nat)
    requires tracks != [] && Distinct(tracks) && PadsGap(n, k, nodes, tracks, segment)
    requires Tells(nodes, tracks, c, ChanX) && Tells(nodes, tracks, c, ChanY)
    ensures PtcFits(n, c)
  {
    assert n.typ == ChanX || n.typ == ChanY;
    hide PadsGap, ChanCount, Rows, Tells, PtcFits, ChanOf, Distinct;
    PadIs(n, k, nodes, tracks, segment);
    NodeFits(nodes, tracks, c, n);
  }

  lemma TrackFits(nodes: seq<Node>, tracks: seq<nat>, c: Channels, k: nat)
    requires CanChannel(nodes, tracks) && k in tracks && tracks != []
    requires Tells(nodes, tracks, c, ChanX) && Tells(nodes, tracks, c, ChanY)
    ensures k < |nodes|
    ensures PtcFits(Assigned(nodes, tracks, ChanCount(nodes, tracks, ChanX), ChanCount(nodes, tracks, ChanY))[k], c)
  {
    hide CanChannel, ChanCount, Rows, Tells, PtcFits, Assigned, AsTrack;
    TrackedAre(nodes, tracks, k);
    NodeFits(nodes, tracks, c,
      Assigned(nodes, tracks, ChanCount(nodes, tracks, ChanX), ChanCount(nodes, tracks, ChanY))[k]);
  }

  lemma ChannelledFits(nodes: seq<Node>, tracks: seq<nat>, segment: int, c: Channels)
    requires CanChannel(nodes, tracks)
    requires tracks != [] && Tells(nodes, tracks, c, ChanX) && Tells(nodes, tracks, c, ChanY)
    ensures PtcsFit(nodes, tracks, Channelled(nodes, tracks, segment), c)
  {
    hide Channelled, CanChannel, ChanCount, PadsGap, Distinct, Rows, RowIndex, Assigned, Tells, PtcFits, PadsApart;
    var after := Channelled(nodes, tracks, segment);
    ChannelledParts(nodes, tracks, segment);
    forall k: nat | InChannels(nodes, tracks, after, k) ensures PtcFits(after[k], c) {
      if k >= |nodes| {
        PadFits(nodes, tracks, segment, c, after[k], k);
      } else {
        TrackFits(nodes, tracks, c, k);
        assert after[k] == after[..|nodes|][k];
      }
    }
  }

  lemma WidthsTell(nodes: seq<Node>, tracks: seq<nat>, c: Channels, typ: NodeType)
    requires CanChannel(nodes, tracks) && (typ == ChanX || typ == ChanY)
    requires tracks != [] && Tells(nodes, tracks, c, typ)
    ensures WidthsAre(nodes, tracks, c, typ)
  {
    hide Rows, IsWidth, HasTrack, Ends, MinOf, MaxOf, ChanCount;
    forall chan: nat | chan < |ListOf(c, typ)|
      ensures ListOf(c, typ)[chan].index == chan && IsWidth(nodes, tracks, typ, chan, ListOf(c, typ)[chan].info)
    {
      RowsAreWidth(nodes, tracks, typ, chan);
    }
    forall k | k in tracks && k < |nodes| && nodes[k].typ == typ
      ensures ChannelNumber(nodes[k]) < |ListOf(c, typ)|
    {
      var i :| 0 <= i < |tracks| && tracks[i] == k;
      ChanCountAbove(nodes, tracks, typ, i);
    }
    var i :| 0 <= i < |tracks| && nodes[tracks[i]].typ == typ;
    assert GoodTrack(nodes[tracks[i]]);
    ChanCountAbove(nodes, tracks, typ, i);
    LastChannel(nodes, tracks, typ);
  }

  // ----- where padding is -----

  /** A row's tracks end where tracks end. */
  lemma RowBounds(nodes: seq<Node>, tracks: seq<nat>, typ: NodeType, chan: int, p: nat, t: Track)
    requires CanChannel(nodes, tracks) && (typ == ChanX || typ == ChanY)
    requires p < |Rows(nodes, tracks, typ, chan)| && t in Rows(nodes, tracks, typ, chan)[p]
    ensures tracks != []
    ensures MinOf(Ends(nodes, tracks, typ == ChanX)) <= t.low && t.high <= MaxOf(Ends(nodes, tracks, typ == ChanX))
  {
    hide Rows, Members, GoodRows, Ends, MaxOf, MinOf, Distinct;
    RowsAre(nodes, tracks, typ, chan);
    MembersAre(nodes, tracks, typ, chan);
    assert t in Members(nodes, tracks, typ, chan);
    var i :| IsMember(nodes, tracks, i, typ, chan, t);
    EndsAre(nodes, tracks, typ == ChanX, i);
  }

  /** Where a gap reaches, one of the rows reaches with its padding. */
  lemma GapReaches(rows: seq<Row>, low: int, high: int, i: nat, x: int)
    requires GoodRows(rows) && i < |AllGaps(rows, low, high)| && InGap(AllGaps(rows, low, high)[i], x)
    requires AllGaps(rows, low, high)[i].row < |rows|
    ensures var row := rows[AllGaps(rows, low, high)[i].row];
      row != [] && Min(low, row[0].low) <= x <= Max(high, row[|row| - 1].high)
  {
    hide AllGaps, GapDepth, Depth, Linked;
    var gaps := AllGaps(rows, low, high);
    GapCounts(gaps, i, x);
    AllGapsComplete(rows, low, high, gaps[i].row, x);
  }

  lemma GapInside(nodes: seq<Node>, tracks: seq<nat>, typ: NodeType, chan: nat, low: int, high: int, i: nat)
    requires CanChannel(nodes, tracks) && (typ == ChanX || typ == ChanY) && tracks != []
    requires low >= MinOf(Ends(nodes, tracks, typ == ChanX)) && high <= MaxOf(Ends(nodes, tracks, typ == ChanX))
    requires i < |GapsOf(nodes, tracks, typ, chan, low, high)|
    ensures var g := GapsOf(nodes, tracks, typ, chan, low, high)[i];
      MinOf(Ends(nodes, tracks, typ == ChanX)) <= g.low <= g.high <= MaxOf(Ends(nodes, tracks, typ == ChanX))
  {
    hide Rows, AllGaps, Ends, MinOf, MaxOf, CanChannel, Linked, KeysApart, HoldMembers, Members;
    BelowAll(nodes, tracks);
    var rows, gaps := Rows(nodes, tracks, typ, chan), GapsOf(nodes, tracks, typ, chan, low, high);
    GapsShape(nodes, tracks, typ, chan, low, high);
    RowsAre(nodes, tracks, typ, chan);
    GapReaches(rows, low, high, i, gaps[i].low);
    GapReaches(rows, low, high, i, gaps[i].high);
    var row := rows[gaps[i].row];
    RowBounds(nodes, tracks, typ, chan, gaps[i].row, row[0]);
    RowBounds(nodes, tracks, typ, chan, gaps[i].row, row[|row| - 1]);
  }

  lemma BelowAll(nodes: seq<Node>, tracks: seq<nat>)
    requires CanChannel(nodes, tracks)
    ensures Distinct(tracks)
  {
  }

  lemma PadInside(nodes: seq<Node>, tracks: seq<nat>, segment: int, c: Channels, n: Node, k: nat)
    requires CanChannel(nodes, tracks) && tracks != [] && PadsGap(n, k, nodes, tracks, segment)
    requires Tells(nodes, tracks, c, n.typ)
    ensures if n.typ == ChanX then c.xMin <= n.loc.xLow && n.loc.xHigh <= c.xMax
      else c.yMin <= n.loc.yLow && n.loc.yHigh <= c.yMax
  {
    var low, high := LowEdge(nodes, tracks, n.typ), HighEdge(nodes, tracks, n.typ);
    assert low >= MinOf(Ends(nodes, tracks, n.typ == ChanX)) && high == MaxOf(Ends(nodes, tracks, n.typ == ChanX));
    hide GapsOf, ChanCount, LowEdge, HighEdge, Rows, CanChannel, MinOf, MaxOf, Ends;
    var chan: nat, i: nat :| chan < ChanCount(nodes, tracks, n.typ)
      && PadOf(n, k, n.typ, chan, GapsOf(nodes, tracks, n.typ, chan, low, high), i, segment);
    GapInside(nodes, tracks, n.typ, chan, low, high, i);
  }

  lemma PadType(n: Node, k: nat, nodes: seq<Node>, tracks: seq<nat>, segment: int)
    requires tracks != [] && PadsGap(n, k, nodes, tracks, segment)
    ensures n.typ == ChanX || n.typ == ChanY
  {
  }

  lemma ChannelledInside(nodes: seq<Node>, tracks: seq<nat>, segment: int, c: Channels)
    requires CanChannel(nodes, tracks)
    requires tracks != [] && Tells(nodes, tracks, c, ChanX) && Tells(nodes, tracks, c, ChanY)
    ensures PadsInside(nodes, Channelled(nodes, tracks, segment), c)
  {
    hide Channelled, CanChannel, PadsGap, Distinct, Assigned, Tells, PadsApart, ChanCount;
    var after := Channelled(nodes, tracks, segment);
    ChannelledParts(nodes, tracks, segment);
    forall k: nat | |nodes| <= k < |after|
      ensures if after[k].typ == ChanX then c.xMin <= after[k].loc.xLow && after[k].loc.xHigh <= c.xMax
        else c.yMin <= after[k].loc.yLow && after[k].loc.yHigh <= c.yMax
    {
      PadType(after[k], k, nodes, tracks, segment);
      PadInside(nodes, tracks, segment, c, after[k], k);
    }
  }

  /** Every gap of the channels that are padded has its node. */
  lemma {:induction false} PaddedHas(base: seq<Node>, nodes: seq<Node>, tracks: seq<nat>, typ: NodeType, n: nat,
      low: int, high: int, segment: int, chan: nat, i: nat) returns (k: nat)
    requires Distinct(tracks) && (typ == ChanX || typ == ChanY)
    requires chan < n && i < |GapsOf(nodes, tracks, typ, chan, low, high)|
    ensures var r := Padded(base, nodes, tracks, typ, n, low, high, segment);
      |base| <= k < |r| && PadOf(r[k], k, typ, chan, GapsOf(nodes, tracks, typ, chan, low, high), i, segment)
  {
    hide Padded, GapsOf, Distinct, AddPads, PadNode, PadsFrom, PadsApart;
    PaddedStep(base, nodes, tracks, typ, n, low, high, segment);
    var before := Padded(base, nodes, tracks, typ, n - 1, low, high, segment);
    var gaps := GapsOf(nodes, tracks, typ, n - 1, low, high);
    var r := AddPads(before, typ, n - 1, gaps, segment);
    AddPadsAre(before, typ, n - 1, gaps, segment);
    PaddedAre(base, nodes, tracks, typ, n - 1, low, high, segment);
    if chan == n - 1 {
      k := |before| + i;
    } else {
      k := PaddedHas(base, nodes, tracks, typ, n - 1, low, high, segment, chan, i);
      assert r[k] == r[..|before|][k];
    }
  }

  lemma ChannelledHas(nodes: seq<Node>, tracks: seq<nat>, segment: int, typ: NodeType, chan: nat, i: nat)
    returns (k: nat)
    requires CanChannel(nodes, tracks) && tracks != [] && (typ == ChanX || typ == ChanY)
    requires chan < ChanCount(nodes, tracks, typ)
    requires i < |GapsOf(nodes, tracks, typ, chan, LowEdge(nodes, tracks, typ), HighEdge(nodes, tracks, typ))|
    ensures var after := Channelled(nodes, tracks, segment);
      |nodes| <= k < |after| && after[k] == PadNode(k, typ, chan,
        GapsOf(nodes, tracks, typ, chan, LowEdge(nodes, tracks, typ), HighEdge(nodes, tracks, typ))[i], segment)
  {
    var nx, ny := ChanCount(nodes, tracks, ChanX), ChanCount(nodes, tracks, ChanY);
    var packed := Assigned(nodes, tracks, nx, ny);
    var withX := Padded(packed, nodes, tracks, ChanX, nx, LowEdge(nodes, tracks, ChanX), HighEdge(nodes, tracks, ChanX),
      segment);
    var after := Channelled(nodes, tracks, segment);
    assert after == Padded(withX, nodes, tracks, ChanY, ny, LowEdge(nodes, tracks, ChanY),
      HighEdge(nodes, tracks, ChanY), segment);
    hide Channelled, Padded, Assigned, ChanCount, LowEdge, HighEdge, PadsFrom, PadsApart, GapsOf, PadNode;
    PaddedAre(packed, nodes, tracks, ChanX, nx, LowEdge(nodes, tracks, ChanX), HighEdge(nodes, tracks, ChanX), segment);
    PaddedAre(withX, nodes, tracks, ChanY, ny, LowEdge(nodes, tracks, ChanY), HighEdge(nodes, tracks, ChanY), segment);
    if typ == ChanX {
      k := PaddedHas(packed, nodes, tracks, ChanX, nx, LowEdge(nodes, tracks, ChanX), HighEdge(nodes, tracks, ChanX),
        segment, chan, i);
      assert after[k] == after[..|withX|][k];
    } else {
      k := PaddedHas(withX, nodes, tracks, ChanY, ny, LowEdge(nodes, tracks, ChanY), HighEdge(nodes, tracks, ChanY),
        segment, chan, i);
    }
  }

  /** The node of a track of a row. */
  lemma TrackThere(nodes: seq<Node>, tracks: seq<nat>, segment: int, typ: NodeType, chan: nat, p: nat, x: int)
    requires CanChannel(nodes, tracks) && (typ == ChanX || typ == ChanY)
    requires p < |Rows(nodes, tracks, typ, chan)| && Depth(Rows(nodes, tracks, typ, chan)[p], x) >= 1
    ensures tracks != [] && IsThere(nodes, tracks, Channelled(nodes, tracks, segment), typ, chan, p, x)
  {
    var rows, after := Rows(nodes, tracks, typ, chan), Channelled(nodes, tracks, segment);
    ChannelledParts(nodes, tracks, segment);
    RowsAre(nodes, tracks, typ, chan);
    MembersAre(nodes, tracks, typ, chan);
    hide Rows, Members, Channelled, CanChannel, PadsGap, Distinct, Assigned, Depth, AsTrack, ChanOf, Lies, RowIndex;
    DepthSome(rows[p], x);
    var t :| t in rows[p] && Covers(t, x);
    assert t in Members(nodes, tracks, typ, chan);
    var i :| IsMember(nodes, tracks, i, typ, chan, t);
    var k := tracks[i];
    TrackedAre(nodes, tracks, k);
    assert after[k] == after[..|nodes|][k];
    AssignedSame(nodes[k], after[k], k);
    RowIndexOf(rows, p, t);
    AsTrackKey(nodes[k], k);
    RowIndexOf(rows, after[k].loc.ptc.value, t);
    LiesCovers(after[k], k, typ, chan, x);
    assert InChannels(nodes, tracks, after, k);
  }

  lemma AssignedSame(n: Node, after: Node, k: nat)
    requires after == n.(loc := n.loc.(ptc := after.loc.ptc))
    ensures AsTrack(after, k) == AsTrack(n, k) && ChanOf(after) == ChanOf(n)
  {
  }

  lemma PadThere(nodes: seq<Node>, tracks: seq<nat>, segment: int, typ: NodeType, chan: nat, p: nat, x: int, i: nat)
    requires CanChannel(nodes, tracks) && tracks != [] && (typ == ChanX || typ == ChanY)
    requires chan < ChanCount(nodes, tracks, typ)
    requires var gaps := GapsOf(nodes, tracks, typ, chan, LowEdge(nodes, tracks, typ), HighEdge(nodes, tracks, typ));
      i < |gaps| && gaps[i].row == p && InGap(gaps[i], x)
    ensures IsThere(nodes, tracks, Channelled(nodes, tracks, segment), typ, chan, p, x)
  {
    hide GapsOf, ChanCount, LowEdge, HighEdge, Channelled, CanChannel, PadNode, Lies;
    var k := ChannelledHas(nodes, tracks, segment, typ, chan, i);
    var g := GapsOf(nodes, tracks, typ, chan, LowEdge(nodes, tracks, typ), HighEdge(nodes, tracks, typ))[i];
    PadLies(k, typ, chan, g, segment);
    assert InChannels(nodes, tracks, Channelled(nodes, tracks, segment), k);
  }

  /** Every number below the width of a channel is there, on a track or on padding. */
  lemma ChannelledFull(nodes: seq<Node>, tracks: seq<nat>, segment: int, c: Channels)
    requires CanChannel(nodes, tracks)
    requires tracks != [] && Tells(nodes, tracks, c, ChanX) && Tells(nodes, tracks, c, ChanY)
    ensures RowsFull(nodes, tracks, Channelled(nodes, tracks, segment), c)
  {
    hide Channelled, CanChannel, IsThere;
    forall typ: NodeType, chan: nat, p: nat, x: int | IsWithin(c, typ, chan, p, x)
      ensures IsThere(nodes, tracks, Channelled(nodes, tracks, segment), typ, chan, p, x)
    {
      FullAt(nodes, tracks, segment, c, typ, chan, p, x);
    }
  }

  lemma FullAt(nodes: seq<Node>, tracks: seq<nat>, segment: int, c: Channels, typ: NodeType, chan: nat, p: nat, x: int)
    requires CanChannel(nodes, tracks) && tracks != [] && (typ == ChanX || typ == ChanY) && Tells(nodes, tracks, c, typ)
    requires IsWithin(c, typ, chan, p, x)
    ensures IsThere(nodes, tracks, Channelled(nodes, tracks, segment), typ, chan, p, x)
  {
    assert ListOf(c, typ)[chan] == ChannelList(chan, |Rows(nodes, tracks, typ, chan)|);
    var rows, low, high := Rows(nodes, tracks, typ, chan), LowEdge(nodes, tracks, typ), HighEdge(nodes, tracks, typ);
    var gaps := GapsOf(nodes, tracks, typ, chan, low, high);
    RowsAre(nodes, tracks, typ, chan);
    AllGapsComplete(rows, low, high, p, x);
    hide Rows, AllGaps, GapDepth, Ends, MinOf, MaxOf, CanChannel, Depth, Linked, IsThere, Channelled, ChanCount;
    if GapDepth(gaps, p, x) >= 1 {
      var i := GapFound(gaps, p, x);
      PadThere(nodes, tracks, segment, typ, chan, p, x, i);
    } else {
      TrackThere(nodes, tracks, segment, typ, chan, p, x);
    }
  }
}
