/** utils/lib/rr_graph/tracks.py: tracks of finite length along the lines found for a bag of
    points, their connections, and where a wire at a coordinate can attach. */
module Tracks {
  import opened Sequences
  import opened Points

  datatype Axis = X | Y

  datatype Wire = Wire(axis: Axis, xLow: int, xHigh: int, yLow: int, yHigh: int)

  datatype Side = NoSide | Left | Right | Top | Bottom

  // ----- make_tracks -----

  /** The coverage test as the source computes it. For a positive coordinate it builds a non-empty
      tuple, which counts as true whatever the lines are. */
  predicate GuardPasses(xs: seq<int>, ys: seq<int>, p: Coord) {
    var inX := if p.x > 0 then true else p.x in xs;
    var inY := if p.y > 0 then true else p.y in ys;
    inX || inY
  }

  /** What the docstring promises to assert of every point: a line runs through its own column or
      row, or through the one before it. */
  predicate Covered(xs: seq<int>, ys: seq<int>, p: Coord) {
    BesideLine(xs, p.x) || BesideLine(ys, p.y)
  }

  predicate BesideLine(lines: seq<int>, v: int) {
    v in lines || (v > 0 && v - 1 in lines)
  }

  predicate OffAxes(p: Coord) { p.x > 0 || p.y > 0 }

  /** The guard answers the promised question exactly for the points that are covered anyway and
      for those on or beyond both axes. */
  lemma GuardDecides(xs: seq<int>, ys: seq<int>, p: Coord)
    ensures (GuardPasses(xs, ys, p) <==> Covered(xs, ys, p)) <==> (Covered(xs, ys, p) || !OffAxes(p))
  {
  }

  /** So a bag of points is let through exactly when the points that are not off the axes are
      covered, whatever the others are. */
  lemma GuardAccepts(xs: seq<int>, ys: seq<int>, coords: seq<Coord>)
    ensures (forall i :: 0 <= i < |coords| ==> GuardPasses(xs, ys, coords[i]))
      <==> (forall i :: 0 <= i < |coords| && !OffAxes(coords[i]) ==> Covered(xs, ys, coords[i]))
  {
    hide GuardPasses, Covered, OffAxes;
    forall i | 0 <= i < |coords|
      ensures GuardPasses(xs, ys, coords[i]) <==> OffAxes(coords[i]) || Covered(xs, ys, coords[i])
    {
      GuardOrCovered(xs, ys, coords[i]);
    }
  }

  lemma GuardOrCovered(xs: seq<int>, ys: seq<int>, p: Coord)
    ensures GuardPasses(xs, ys, p) <==> OffAxes(p) || Covered(xs, ys, p)
  {
  }

  function WireAlongY(coords: seq<Coord>, height: Option<int>, x: int): Wire
    requires coords != []
  {
    Wire(Y, x, x, Max(MinOf(Ys(coords)), 1),
         if height.Some? then Min(MaxOf(Ys(coords)), height.value - 2) else MaxOf(Ys(coords)))
  }

  function WireAlongX(coords: seq<Coord>, width: Option<int>, y: int): Wire
    requires coords != []
  {
    Wire(X, Max(MinOf(Xs(coords)), 1),
         if width.Some? then Min(MaxOf(Xs(coords)), width.value - 2) else MaxOf(Xs(coords)), y, y)
  }

  /** One track per line: the y tracks of the columns first, then the x tracks of the rows. */
  function Wires(xs: seq<int>, ys: seq<int>, coords: seq<Coord>, width: Option<int>,
      height: Option<int>): (r: seq<Wire>)
    requires coords != []
    ensures |r| == |xs| + |ys|
  {
    seq(|xs|, i requires 0 <= i < |xs| => WireAlongY(coords, height, xs[i]))
    + seq(|ys|, i requires 0 <= i < |ys| => WireAlongX(coords, width, ys[i]))
  }

  function Clipped(v: int, limit: Option<int>): int { if limit.Some? then Min(v, limit.value - 2) else v }

  /** From the least coordinate of a point, or 1, to the greatest, or the last inside the grid. */
  ghost predicate RunsOver(vs: seq<int>, limit: Option<int>, low: int, high: int) {
    && (exists i :: 0 <= i < |vs| && low == Max(vs[i], 1)) && (forall i :: 0 <= i < |vs| ==> low <= Max(vs[i], 1))
    && (exists i :: 0 <= i < |vs| && high == Clipped(vs[i], limit))
    && forall i :: 0 <= i < |vs| ==> Clipped(vs[i], limit) <= high
  }

  /** One straight track for each line, the columns first, all columns over the same rows and all rows over the same
      columns. */
  ghost predicate TracksAre(wires: seq<Wire>, xs: seq<int>, ys: seq<int>, coords: seq<Coord>, width: Option<int>,
      height: Option<int>)
  {
    && |wires| == |xs| + |ys|
    && (forall k :: 0 <= k < |xs| ==>
      wires[k].axis == Y && wires[k].xLow == wires[k].xHigh == xs[k]
      && RunsOver(Ys(coords), height, wires[k].yLow, wires[k].yHigh))
    && forall k :: |xs| <= k < |wires| ==>
      wires[k].axis == X && wires[k].yLow == wires[k].yHigh == ys[k - |xs|]
      && RunsOver(Xs(coords), width, wires[k].xLow, wires[k].xHigh)
  }

  lemma EndsRun(vs: seq<int>, limit: Option<int>)
    requires vs != []
    ensures RunsOver(vs, limit, Max(MinOf(vs), 1), if limit.Some? then Min(MaxOf(vs), limit.value - 2) else MaxOf(vs))
  {
    var i :| 0 <= i < |vs| && vs[i] == MinOf(vs);
    var j :| 0 <= j < |vs| && vs[j] == MaxOf(vs);
    assert Max(vs[i], 1) == Max(MinOf(vs), 1) && Clipped(vs[j], limit) == Clipped(MaxOf(vs), limit);
  }

  lemma WiresAre(xs: seq<int>, ys: seq<int>, coords: seq<Coord>, width: Option<int>, height: Option<int>)
    requires coords != []
    ensures TracksAre(Wires(xs, ys, coords, width, height), xs, ys, coords, width, height)
  {
    hide RunsOver, Xs, Ys, WireAlongX, WireAlongY, Wires;
    var wires := Wires(xs, ys, coords, width, height);
    forall k | 0 <= k < |wires|
      ensures wires[k] ==
        if k < |xs| then WireAlongY(coords, height, xs[k]) else WireAlongX(coords, width, ys[k - |xs|])
    {
      WireAt(xs, ys, coords, width, height, k);
    }
    forall d: int { WireRuns(coords, width, height, d); }
  }

  lemma WireRuns(coords: seq<Coord>, width: Option<int>, height: Option<int>, d: int)
    requires coords != []
    ensures var t := WireAlongY(coords, height, d);
      t.axis == Y && t.xLow == t.xHigh == d && RunsOver(Ys(coords), height, t.yLow, t.yHigh)
    ensures var t := WireAlongX(coords, width, d);
      t.axis == X && t.yLow == t.yHigh == d && RunsOver(Xs(coords), width, t.xLow, t.xHigh)
  {
    EndsRun(Ys(coords), height);
    EndsRun(Xs(coords), width);
    hide RunsOver, MinOf, MaxOf, Xs, Ys;
  }

  type Link = (nat, nat)

  /** Every x track is joined to the first y track, and every y track to the first x track; with a
      single track there is nothing to join. */
  function LinkOf(wires: seq<Wire>, columns: nat, i: nat): Link
    requires i < |wires|
  {
    if wires[i].axis == X then (i, 0) else (columns, i)
  }

  ghost predicate IsLinks(links: seq<Link>, wires: seq<Wire>, columns: nat, n: nat)
    requires n <= |wires|
  {
    && Distinct(links)
    && (forall i :: 0 <= i < n ==> LinkOf(wires, columns, i) in links)
    && (forall l :: l in links ==> exists i :: 0 <= i < n && LinkOf(wires, columns, i) == l)
  }

  method MakeTracks(xs: seq<int>, ys: seq<int>, coords: seq<Coord>, width: Option<int>, height: Option<int>)
    returns (wires: seq<Wire>, links: seq<Link>)
    requires coords != []
    requires forall i :: 0 <= i < |coords| ==> GuardPasses(xs, ys, coords[i])
    requires |xs| + |ys| == 1 || (xs != [] && ys != [])
    ensures wires == Wires(xs, ys, coords, width, height)
    ensures TracksAre(wires, xs, ys, coords, width, height)
    ensures |wires| == 1 ==> links == []
    ensures |wires| > 1 ==> IsLinks(links, wires, |xs|, |wires|)
  {
    hide TracksAre, WireAlongX, WireAlongY;
    WiresAre(xs, ys, coords, width, height);
    wires := [];
    for i := 0 to |xs|
      invariant wires == seq(i, k requires 0 <= k < i => WireAlongY(coords, height, xs[k]))
    {
      wires := wires + [WireAlongY(coords, height, xs[i])];
    }
    ghost var columns := wires;
    for i := 0 to |ys|
      invariant wires == columns + seq(i, k requires 0 <= k < i => WireAlongX(coords, width, ys[k]))
    {
      wires := wires + [WireAlongX(coords, width, ys[i])];
    }
    if |wires| == 1 {
      return wires, [];
    }
    links := MakeLinks(wires, |xs|);
  }

  method MakeLinks(wires: seq<Wire>, columns: nat) returns (links: seq<Link>)
    ensures IsLinks(links, wires, columns, |wires|)
  {
    links := [];
    for i := 0 to |wires|
      invariant IsLinks(links, wires, columns, i)
    {
      var link := LinkOf(wires, columns, i);
      if link !in links { links := links + [link]; }
    }
  }

  // ----- where a wire attaches -----

  /** is_wire_adjacent_to_track. */
  function AdjacentSide(t: Wire, p: Coord): Side {
    if t.axis == X then
      var pinTop, pinBottom := t.yLow == p.y, t.yLow == p.y - 1;
      if (pinTop || pinBottom) && t.xLow <= p.x <= t.xHigh then (if pinTop then Top else Bottom) else NoSide
    else
      var pinRight, pinLeft := t.xLow == p.x, t.xLow == p.x - 1;
      if (pinRight || pinLeft) && t.yLow <= p.y <= t.yHigh then (if pinRight then Right else Left) else NoSide
  }

  type Attachments = map<Side, nat>

  /** One track for each side on which some track is adjacent: the last such track. */
  function AttachmentsAt(wires: seq<Wire>, p: Coord): Attachments {
    if wires == [] then map[]
    else
      var n := |wires| - 1;
      var before := AttachmentsAt(wires[..n], p);
      if AdjacentSide(wires[n], p) == NoSide then before else before[AdjacentSide(wires[n], p) := n]
  }

  /** A side is offered exactly when some track is adjacent on it. */
  lemma {:induction false} AttachmentSides(wires: seq<Wire>, p: Coord, s: Side)
    ensures s in AttachmentsAt(wires, p) <==>
      s != NoSide && exists i :: 0 <= i < |wires| && AdjacentSide(wires[i], p) == s
  {
    if wires != [] {
      hide AdjacentSide;
      var n := |wires| - 1;
      AttachmentSides(wires[..n], p, s);
      if i :| 0 <= i < n && AdjacentSide(wires[..n][i], p) == s {
        assert AdjacentSide(wires[i], p) == s;
      }
    }
  }

  /** The track offered on a side is adjacent there, and no later one is. */
  lemma {:induction false} AttachmentIsLast(wires: seq<Wire>, p: Coord, s: Side)
    requires s in AttachmentsAt(wires, p)
    ensures var k := AttachmentsAt(wires, p)[s];
      && k < |wires| && AdjacentSide(wires[k], p) == s
      && forall i :: k < i < |wires| ==> AdjacentSide(wires[i], p) != s
  {
    hide AdjacentSide;
    var n := |wires| - 1;
    AttachmentSides(wires, p, s);
    if AdjacentSide(wires[n], p) != s {
      var init := wires[..n];
      AttachmentIsLast(init, p, s);
      assert forall i :: 0 <= i < n ==> init[i] == wires[i];
    }
  }

  // ----- the same, by coordinates -----

  /** A wire at p reaches the track on this side: an x track at its own row is above it and one at the row
      before is below it; a y track at its own column is to its right and one at the column before to its
      left. */
  ghost predicate Meets(t: Wire, p: Coord, s: Side) {
    match s
    case Top => t.axis == X && t.yLow == p.y && t.xLow <= p.x <= t.xHigh
    case Bottom => t.axis == X && t.yLow == p.y - 1 && t.xLow <= p.x <= t.xHigh
    case Right => t.axis == Y && t.xLow == p.x && t.yLow <= p.y <= t.yHigh
    case Left => t.axis == Y && t.xLow == p.x - 1 && t.yLow <= p.y <= t.yHigh
    case NoSide => false
  }

  lemma SideReads(t: Wire, p: Coord, s: Side)
    ensures s != NoSide ==> (AdjacentSide(t, p) == s <==> Meets(t, p, s))
  {
  }

  /** The answer at a coordinate: which sides have a track, and the last track of each. */
  ghost predicate IsAnswer(wires: seq<Wire>, p: Coord, r: Attachments) {
    && (forall s :: s in r <==> exists i :: 0 <= i < |wires| && Meets(wires[i], p, s))
    && (forall s :: s in r ==> r[s] < |wires| && Meets(wires[r[s]], p, s))
    && forall s, i :: s in r && r[s] < i < |wires| ==> !Meets(wires[i], p, s)
  }

  lemma AttachmentsAnswer(wires: seq<Wire>, p: Coord)
    ensures IsAnswer(wires, p, AttachmentsAt(wires, p))
  {
    hide AdjacentSide, Meets, AttachmentsAt;
    forall i, s | 0 <= i < |wires| && s != NoSide ensures AdjacentSide(wires[i], p) == s <==> Meets(wires[i], p, s) {
      SideReads(wires[i], p, s);
    }
    forall i | 0 <= i < |wires| ensures !Meets(wires[i], p, NoSide) { NoSideReached(wires[i], p); }
    forall s ensures s in AttachmentsAt(wires, p) <==> exists i :: 0 <= i < |wires| && Meets(wires[i], p, s) {
      AttachmentSides(wires, p, s);
    }
    forall s | s in AttachmentsAt(wires, p)
      ensures var k := AttachmentsAt(wires, p)[s];
        k < |wires| && Meets(wires[k], p, s) && forall i :: k < i < |wires| ==> !Meets(wires[i], p, s)
    {
      AttachmentSides(wires, p, s);
      AttachmentIsLast(wires, p, s);
    }
  }

  lemma NoSideReached(t: Wire, p: Coord)
    ensures !Meets(t, p, NoSide)
  {
  }

  /** Where the tracks come from lines, the sides of one of the points are told by the lines: its own column
      is to the right, the one before to the left, its own row above and the one before below, as long as
      the tracks, which leave out the grid's edge, come past it. */
  ghost predicate SidesByLines(xs: seq<int>, ys: seq<int>, width: Option<int>, height: Option<int>, p: Coord,
      r: Attachments)
  {
    var inRows, inColumns := 1 <= p.y && (height.Some? ==> p.y <= height.value - 2),
      1 <= p.x && (width.Some? ==> p.x <= width.value - 2);
    && (Right in r <==> inRows && p.x in xs) && (Left in r <==> inRows && p.x - 1 in xs)
    && (Top in r <==> inColumns && p.y in ys) && (Bottom in r <==> inColumns && p.y - 1 in ys)
  }

  lemma WireReaches(coords: seq<Coord>, width: Option<int>, height: Option<int>, i: nat, d: int)
    requires i < |coords|
    ensures var p, t := coords[i], WireAlongY(coords, height, d);
      && (Meets(t, p, Right) <==> 1 <= p.y && (height.Some? ==> p.y <= height.value - 2) && d == p.x)
      && (Meets(t, p, Left) <==> 1 <= p.y && (height.Some? ==> p.y <= height.value - 2) && d == p.x - 1)
      && !Meets(t, p, Top) && !Meets(t, p, Bottom)
    ensures var p, t := coords[i], WireAlongX(coords, width, d);
      && (Meets(t, p, Top) <==> 1 <= p.x && (width.Some? ==> p.x <= width.value - 2) && d == p.y)
      && (Meets(t, p, Bottom) <==> 1 <= p.x && (width.Some? ==> p.x <= width.value - 2) && d == p.y - 1)
      && !Meets(t, p, Right) && !Meets(t, p, Left)
  {
    hide MinOf, MaxOf;
    assert Xs(coords)[i] == coords[i].x && Ys(coords)[i] == coords[i].y;
  }

  lemma WireAt(xs: seq<int>, ys: seq<int>, coords: seq<Coord>, width: Option<int>, height: Option<int>, k: nat)
    requires coords != [] && k < |xs| + |ys|
    ensures Wires(xs, ys, coords, width, height)[k] ==
      if k < |xs| then WireAlongY(coords, height, xs[k]) else WireAlongX(coords, width, ys[k - |xs|])
  {
  }

  /** What one of the tracks offers a listed point. */
  lemma WireSide(xs: seq<int>, ys: seq<int>, coords: seq<Coord>, width: Option<int>, height: Option<int>, i: nat,
      k: nat, s: Side)
    requires i < |coords| && k < |xs| + |ys|
    ensures var p, t := coords[i], Wires(xs, ys, coords, width, height)[k];
      && (s == Right || s == Left ==>
        (Meets(t, p, s) <==>
          k < |xs| && xs[k] == (if s == Right then p.x else p.x - 1)
          && 1 <= p.y && (height.Some? ==> p.y <= height.value - 2)))
      && (s == Top || s == Bottom ==>
        (Meets(t, p, s) <==>
          k >= |xs| && ys[k - |xs|] == (if s == Top then p.y else p.y - 1)
          && 1 <= p.x && (width.Some? ==> p.x <= width.value - 2)))
  {
    hide Meets, WireAlongX, WireAlongY, Wires;
    WireAt(xs, ys, coords, width, height, k);
    WireReaches(coords, width, height, i, if k < |xs| then xs[k] else ys[k - |xs|]);
  }

  lemma ColumnSide(xs: seq<int>, ys: seq<int>, coords: seq<Coord>, width: Option<int>, height: Option<int>, i: nat,
      s: Side)
    requires i < |coords| && (s == Right || s == Left)
    ensures var p, wires := coords[i], Wires(xs, ys, coords, width, height);
      (exists k :: 0 <= k < |wires| && Meets(wires[k], p, s)) <==>
        1 <= p.y && (height.Some? ==> p.y <= height.value - 2) && (if s == Right then p.x else p.x - 1) in xs
  {
    hide Meets, WireAlongX, WireAlongY, Wires;
    var p, wires := coords[i], Wires(xs, ys, coords, width, height);
    var at := if s == Right then p.x else p.x - 1;
    if at in xs {
      var k :| 0 <= k < |xs| && xs[k] == at;
      WireSide(xs, ys, coords, width, height, i, k, s);
    }
    if k :| 0 <= k < |wires| && Meets(wires[k], p, s) { WireSide(xs, ys, coords, width, height, i, k, s); }
  }

  lemma RowSide(xs: seq<int>, ys: seq<int>, coords: seq<Coord>, width: Option<int>, height: Option<int>, i: nat,
      s: Side)
    requires i < |coords| && (s == Top || s == Bottom)
    ensures var p, wires := coords[i], Wires(xs, ys, coords, width, height);
      (exists k :: 0 <= k < |wires| && Meets(wires[k], p, s)) <==>
        1 <= p.x && (width.Some? ==> p.x <= width.value - 2) && (if s == Top then p.y else p.y - 1) in ys
  {
    hide Meets, WireAlongX, WireAlongY, Wires;
    var p, wires := coords[i], Wires(xs, ys, coords, width, height);
    var at := if s == Top then p.y else p.y - 1;
    if at in ys {
      var k :| 0 <= k < |ys| && ys[k] == at;
      WireSide(xs, ys, coords, width, height, i, |xs| + k, s);
    }
    if k :| 0 <= k < |wires| && Meets(wires[k], p, s) { WireSide(xs, ys, coords, width, height, i, k, s); }
  }

  lemma SidesAreLines(xs: seq<int>, ys: seq<int>, coords: seq<Coord>, width: Option<int>, height: Option<int>, i: nat)
    requires i < |coords|
    ensures SidesByLines(xs, ys, width, height, coords[i],
      AttachmentsAt(Wires(xs, ys, coords, width, height), coords[i]))
  {
    hide Meets, AttachmentsAt, Wires;
    AttachmentsAnswer(Wires(xs, ys, coords, width, height), coords[i]);
    ColumnSide(xs, ys, coords, width, height, i, Right);
    ColumnSide(xs, ys, coords, width, height, i, Left);
    RowSide(xs, ys, coords, width, height, i, Top);
    RowSide(xs, ys, coords, width, height, i, Bottom);
  }

  // ----- what an uncovered point is left with -----

  /** No track made from the lines is adjacent to an uncovered point. */
  lemma UncoveredIsUnserved(xs: seq<int>, ys: seq<int>, coords: seq<Coord>, width: Option<int>, height: Option<int>,
      p: Coord)
    requires coords != [] && (forall x :: x in xs ==> 0 <= x) && (forall y :: y in ys ==> 0 <= y)
    requires !Covered(xs, ys, p)
    ensures AttachmentsAt(Wires(xs, ys, coords, width, height), p) == map[]
  {
    var wires := Wires(xs, ys, coords, width, height);
    forall i | 0 <= i < |wires| ensures AdjacentSide(wires[i], p) == NoSide {
      if i < |xs| {
        assert xs[i] in xs && wires[i].xLow == xs[i];
      } else {
        assert ys[i - |xs|] in ys && wires[i].yLow == ys[i - |xs|];
      }
    }
    hide AdjacentSide, Wires, Covered;
    forall s ensures s !in AttachmentsAt(wires, p) { AttachmentSides(wires, p, s); }
  }

  /** Lines at 9 for a point at 5: nothing is complained about, and the point is left without a
      track. */
  method MakeUncovered() returns (wires: seq<Wire>, links: seq<Link>)
    ensures !Covered([9], [9], Coord(5, 5))
    ensures wires == Wires([9], [9], [Coord(5, 5)], None, None) && |wires| == 2
    ensures AttachmentsAt(wires, Coord(5, 5)) == map[]
  {
    wires, links := MakeTracks([9], [9], [Coord(5, 5)], None, None);
    UncoveredIsUnserved([9], [9], [Coord(5, 5)], None, None, Coord(5, 5));
  }
}
