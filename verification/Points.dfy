/** utils/lib/rr_graph/points.py, decompose_points_into_tracks: covering a bag of points with x
    lines and y lines, then deleting the lines that are not needed. */
module Points {
  import opened Sequences
  import opened LineCover

  datatype Coord = Coord(x: int, y: int)

  /** Grid size, if limited, and whether pins sit on the right side only. */
  datatype Limits = Limits(width: Option<int>, height: Option<int>, rightOnly: bool)

  const UNLIMITED := Limits(None, None, false)

  function Xs(coords: seq<Coord>): seq<int> { seq(|coords|, i requires 0 <= i < |coords| => coords[i].x) }
  function Ys(coords: seq<Coord>): seq<int> { seq(|coords|, i requires 0 <= i < |coords| => coords[i].y) }

  /** The first line of a direction: one before the least coordinate, but not below 0. */
  function LowLine(s: seq<int>): int
    requires s != []
  {
    Max(0, MinOf(s) - 1)
  }

  /** The last line of a direction, kept off the grid's outer edge. */
  function HighLine(s: seq<int>, size: Option<int>): int
    requires s != []
  {
    if size.Some? then Min(MaxOf(s), size.value - 2) else MaxOf(s)
  }

  predicate OnXTrack(lim: Limits, p: Coord) {
    p.y > 0 && (lim.height.Some? ==> p.y < lim.height.value - 2)
  }

  predicate OnYTrack(lim: Limits, p: Coord) {
    p.x > 0 && (lim.width.Some? ==> p.x < lim.width.value - 2)
  }

  predicate IsCorner(lim: Limits, p: Coord) {
    (p.x == 0 || (lim.width.Some? && p.x == lim.width.value - 1))
    && (p.y == 0 || (lim.width.Some? && lim.height.Some? && p.y == lim.height.value - 1))
    && (lim.width.None? ==> p.x == 0 && p.y == 0)
  }

  /** The lines on offer. */
  datatype Frame = Frame(xLow: int, xHigh: int, yLow: int, yHigh: int)

  function FrameOf(coords: seq<Coord>, lim: Limits): Frame
    requires coords != []
  {
    Frame(LowLine(Xs(coords)), HighLine(Xs(coords), lim.width), LowLine(Ys(coords)), HighLine(Ys(coords), lim.height))
  }

  /** The x line at d takes point p: its own column, or the column to its left for a left pin. */
  predicate XLineHolds(lim: Limits, f: Frame, p: Coord, d: int) {
    OnXTrack(lim, p) && f.xLow <= p.x <= f.xHigh && (d == p.x || (d == p.x - 1 && p.x > 0 && !lim.rightOnly))
  }

  predicate YLineHolds(lim: Limits, f: Frame, p: Coord, d: int) {
    OnYTrack(lim, p) && !lim.rightOnly && f.yLow <= p.y <= f.yHigh && (d == p.y || (d == p.y - 1 && p.y > 0))
  }

  predicate LineHolds(lim: Limits, f: Frame, isX: bool, p: Coord, d: int) {
    if isX then XLineHolds(lim, f, p, d) else YLineHolds(lim, f, p, d)
  }

  /** Positions of the points a line holds, in the order given. */
  function Held(coords: seq<Coord>, lim: Limits, f: Frame, isX: bool, d: int): seq<nat> {
    if coords == [] then []
    else
      var n := |coords| - 1;
      Held(coords[..n], lim, f, isX, d) + (if LineHolds(lim, f, isX, coords[n], d) then [n] else [])
  }

  /** One line for each coordinate from low to high. */
  function Lines(coords: seq<Coord>, lim: Limits, f: Frame, isX: bool, low: int, high: int): seq<Track>
    decreases high - low
  {
    if low > high then []
    else Lines(coords, lim, f, isX, low, high - 1) + [Track(high, Held(coords, lim, f, isX, high))]
  }

  /** All lines with all the points they hold. */
  function Start(coords: seq<Coord>, lim: Limits): Cover
    requires coords != []
  {
    var f := FrameOf(coords, lim);
    Cover(Lines(coords, lim, f, true, f.xLow, f.xHigh), Lines(coords, lim, f, false, f.yLow, f.yHigh))
  }

  function DimsOf(ts: seq<Track>): seq<int> { seq(|ts|, i requires 0 <= i < |ts| => ts[i].dim) }

  // ----- facts about the starting lines -----

  lemma {:induction false} HeldIs(coords: seq<Coord>, lim: Limits, f: Frame, isX: bool, d: int)
    ensures var h := Held(coords, lim, f, isX, d);
      && (forall j :: 0 <= j < |h| ==> h[j] < |coords| && LineHolds(lim, f, isX, coords[h[j]], d))
      && (forall i :: 0 <= i < |coords| && LineHolds(lim, f, isX, coords[i], d) ==>
        exists j :: 0 <= j < |h| && h[j] == i)
      && (forall i, j :: 0 <= i < j < |h| ==> h[i] < h[j])
  {
    if coords != [] {
      var n := |coords| - 1;
      var init := Held(coords[..n], lim, f, isX, d);
      HeldIs(coords[..n], lim, f, isX, d);
      var h := Held(coords, lim, f, isX, d);
      forall i | 0 <= i < |coords| && LineHolds(lim, f, isX, coords[i], d)
        ensures exists j :: 0 <= j < |h| && h[j] == i
      {
        if i < n {
          assert coords[..n][i] == coords[i];
          var j :| 0 <= j < |init| && init[j] == i;
          assert h[j] == i;
        } else {
          assert h[|h| - 1] == n;
        }
      }
    }
  }

  lemma HeldPoint(coords: seq<Coord>, lim: Limits, f: Frame, isX: bool, d: int, i: nat)
    requires i < |coords|
    ensures HoldsPoint(Track(d, Held(coords, lim, f, isX, d)), i) <==> LineHolds(lim, f, isX, coords[i], d)
  {
    HeldIs(coords, lim, f, isX, d);
  }

  lemma {:induction false} LinesAre(coords: seq<Coord>, lim: Limits, f: Frame, isX: bool, low: int, high: int)
    ensures var ts := Lines(coords, lim, f, isX, low, high);
      && |ts| == Max(0, high - low + 1)
      && forall k :: 0 <= k < |ts| ==> ts[k] == Track(low + k, Held(coords, lim, f, isX, low + k))
    decreases high - low
  {
    if low <= high { LinesAre(coords, lim, f, isX, low, high - 1); }
  }

  /** A point is on some line at the start exactly when some line of the frame takes it. */
  lemma StartHolds(coords: seq<Coord>, lim: Limits, isX: bool, i: nat)
    requires coords != [] && i < |coords|
    ensures Through(Own(Start(coords, lim), isX), i) >= 1 <==>
      LineHolds(lim, FrameOf(coords, lim), isX, coords[i], if isX then coords[i].x else coords[i].y)
  {
    hide Held, Lines, Through, FrameOf;
    var f, ts := FrameOf(coords, lim), Own(Start(coords, lim), isX);
    var p := coords[i];
    var low, high, d := if isX then f.xLow else f.yLow, if isX then f.xHigh else f.yHigh, if isX then p.x else p.y;
    LinesAre(coords, lim, f, isX, low, high);
    ThroughWitness(ts, i);
    if Through(ts, i) >= 1 {
      var t :| t in ts && HoldsPoint(t, i);
      HeldPoint(coords, lim, f, isX, t.dim, i);
    }
    if LineHolds(lim, f, isX, p, d) {
      var t := ts[d - low];
      HeldPoint(coords, lim, f, isX, d, i);
      ThroughMember(ts, t, i);
    }
  }

  /** The columns at the start: from one before the leftmost point, but not before 0, to the rightmost, but not past
      the last but one. Each has the points on it and, unless pins are on the right only, those just right of it, but
      none on the bottom row or on the last two. */
  ghost predicate ColumnsRead(coords: seq<Coord>, lim: Limits, ts: seq<Track>)
    requires coords != []
  {
    var first, last := Max(0, MinOf(Xs(coords)) - 1),
      if lim.width.Some? then Min(MaxOf(Xs(coords)), lim.width.value - 2) else MaxOf(Xs(coords));
    && |ts| == Max(0, last - first + 1) && (forall k :: 0 <= k < |ts| ==> ts[k].dim == first + k)
    && forall k, i :: 0 <= k < |ts| && 0 <= i < |coords| ==>
      (HoldsPoint(ts[k], i) <==>
        0 < coords[i].y && (lim.height.Some? ==> coords[i].y < lim.height.value - 2) && first <= coords[i].x <= last
        && (coords[i].x == first + k || (coords[i].x == first + k + 1 && !lim.rightOnly)))
  }

  /** The rows, in the same way; with pins on the right only they have no points. */
  ghost predicate RowsRead(coords: seq<Coord>, lim: Limits, ts: seq<Track>)
    requires coords != []
  {
    var first, last := Max(0, MinOf(Ys(coords)) - 1),
      if lim.height.Some? then Min(MaxOf(Ys(coords)), lim.height.value - 2) else MaxOf(Ys(coords));
    && |ts| == Max(0, last - first + 1) && (forall k :: 0 <= k < |ts| ==> ts[k].dim == first + k)
    && forall k, i :: 0 <= k < |ts| && 0 <= i < |coords| ==>
      (HoldsPoint(ts[k], i) <==>
        !lim.rightOnly
        && 0 < coords[i].x && (lim.width.Some? ==> coords[i].x < lim.width.value - 2) && first <= coords[i].y <= last
        && (coords[i].y == first + k || coords[i].y == first + k + 1))
  }

  lemma LineReads(coords: seq<Coord>, lim: Limits, isX: bool, low: int, high: int)
    requires coords != []
    ensures var f, ts := FrameOf(coords, lim), Lines(coords, lim, FrameOf(coords, lim), isX, low, high);
      && |ts| == Max(0, high - low + 1) && (forall k :: 0 <= k < |ts| ==> ts[k].dim == low + k)
      && forall k, i :: 0 <= k < |ts| && 0 <= i < |coords| ==>
        (HoldsPoint(ts[k], i) <==> LineHolds(lim, f, isX, coords[i], low + k))
  {
    var f := FrameOf(coords, lim);
    LinesAre(coords, lim, f, isX, low, high);
    hide Held, Lines, HoldsPoint, LineHolds, FrameOf;
    var ts := Lines(coords, lim, f, isX, low, high);
    forall k, i | 0 <= k < |ts| && 0 <= i < |coords|
      ensures HoldsPoint(ts[k], i) <==> LineHolds(lim, f, isX, coords[i], low + k)
    {
      HeldPoint(coords, lim, f, isX, low + k, i);
    }
  }

  lemma ColumnsAreRead(coords: seq<Coord>, lim: Limits)
    requires coords != []
    ensures ColumnsRead(coords, lim, Start(coords, lim).x)
  {
    hide Lines, HoldsPoint, MinOf, MaxOf, Xs, Ys;
    LineReads(coords, lim, true, FrameOf(coords, lim).xLow, FrameOf(coords, lim).xHigh);
  }

  lemma RowsAreRead(coords: seq<Coord>, lim: Limits)
    requires coords != []
    ensures RowsRead(coords, lim, Start(coords, lim).y)
  {
    hide Lines, HoldsPoint, MinOf, MaxOf, Xs, Ys;
    LineReads(coords, lim, false, FrameOf(coords, lim).yLow, FrameOf(coords, lim).yHigh);
  }

  /** Which lines there are at the start, and which points each holds. */
  lemma StartReads(coords: seq<Coord>, lim: Limits)
    requires coords != []
    ensures ColumnsRead(coords, lim, Start(coords, lim).x) && RowsRead(coords, lim, Start(coords, lim).y)
  {
    hide ColumnsRead, RowsRead, Start;
    ColumnsAreRead(coords, lim);
    RowsAreRead(coords, lim);
  }

  /** A surviving line that holds a point is one of the lines the geometry allows. */
  lemma SurvivorHolds(coords: seq<Coord>, lim: Limits, c: Cover, isX: bool, t: Track, i: nat)
    requires coords != [] && i < |coords|
    requires Shrinks(Start(coords, lim), c)
    requires t in Own(c, isX) && HoldsPoint(t, i)
    ensures LineHolds(lim, FrameOf(coords, lim), isX, coords[i], t.dim)
  {
    hide Held, Lines, Through, FrameOf;
    var f := FrameOf(coords, lim);
    ShrinksMembers(Start(coords, lim), c, isX);
    assert t in Own(Start(coords, lim), isX);
    LinesAre(coords, lim, f, isX, if isX then f.xLow else f.yLow, if isX then f.xHigh else f.yHigh);
    HeldPoint(coords, lim, f, isX, t.dim, i);
  }

  lemma StartDims(coords: seq<Coord>, lim: Limits)
    requires coords != []
    ensures Dims(Start(coords, lim))
  {
    hide Held, Lines, FrameOf;
    var f := FrameOf(coords, lim);
    LinesAre(coords, lim, f, true, f.xLow, f.xHigh);
    LinesAre(coords, lim, f, false, f.yLow, f.yHigh);
  }

  /** No surviving line of a decomposition is superfluous: it is alone in its direction, or holds a
      point of the list that no other surviving line holds. */
  lemma SurvivorsIrredundant(coords: seq<Coord>, lim: Limits)
    requires coords != []
    ensures var r := Final(Start(coords, lim));
      forall isX, t :: t in Own(r, isX) ==>
        |Own(r, isX)| == 1 || exists j :: 0 <= j < |t.points| && t.points[j] < |coords| && Load(r, t.points[j]) == 1
  {
    StartDims(coords, lim);
    FinalIrredundant(Start(coords, lim));
    FinalShrinks(Start(coords, lim));
    forall isX, t | t in Own(Final(Start(coords, lim)), isX)
      ensures |Own(Final(Start(coords, lim)), isX)| == 1
        || exists j ::
          0 <= j < |t.points| && t.points[j] < |coords| && Load(Final(Start(coords, lim)), t.points[j]) == 1
    {
      SurvivorNeeded(coords, lim, Final(Start(coords, lim)), isX, t);
    }
  }

  lemma SurvivorNeeded(coords: seq<Coord>, lim: Limits, r: Cover, isX: bool, t: Track)
    requires coords != [] && Shrinks(Start(coords, lim), r)
    requires t in Own(r, isX) && Refused(r, isX, t)
    ensures |Own(r, isX)| == 1 || exists j :: 0 <= j < |t.points| && t.points[j] < |coords| && Load(r, t.points[j]) == 1
  {
    hide Held, Lines, FrameOf, Through;
    if |Own(r, isX)| > 1 {
      var j :| 0 <= j < |t.points| && Load(r, t.points[j]) <= 1;
      SurvivorPoint(coords, lim, r, isX, t, j);
      assert HoldsPoint(t, t.points[j]);
      ThroughMember(Own(r, isX), t, t.points[j]);
    }
  }

  /** A line lists only points of the list. */
  lemma SurvivorPoint(coords: seq<Coord>, lim: Limits, r: Cover, isX: bool, t: Track, j: nat)
    requires coords != [] && Shrinks(Start(coords, lim), r)
    requires t in Own(r, isX) && j < |t.points|
    ensures t.points[j] < |coords|
  {
    hide Held, Lines, FrameOf, Load;
    var f := FrameOf(coords, lim);
    var ts := Own(Start(coords, lim), isX);
    LinesAre(coords, lim, f, isX, if isX then f.xLow else f.yLow, if isX then f.xHigh else f.yHigh);
    ShrinksMembers(Start(coords, lim), r, isX);
    var k: nat :| k < |ts| && ts[k] == t;
    assert t.points == Held(coords, lim, f, isX, t.dim);
    HeldIs(coords, lim, f, isX, t.dim);
  }

  /** The source's closing sanity check: the point lies on or beside a surviving line. */
  predicate OnSurvivor(lim: Limits, xs: seq<int>, ys: seq<int>, p: Coord) {
    (OnXTrack(lim, p) && ((p.x > 0 && p.x - 1 in xs) || p.x in xs))
    || (OnYTrack(lim, p) && ((p.y > 0 && p.y - 1 in ys) || p.y in ys))
  }

  /** What the deletion guarantees about a list of points: those that were on a line still are. */
  lemma StaysOnSurvivor(coords: seq<Coord>, lim: Limits, i: nat)
    requires coords != [] && i < |coords|
    requires Load(Start(coords, lim), i) >= 1
    ensures var r := Final(Start(coords, lim));
      exists isX, t :: t in Own(r, isX) && LineHolds(lim, FrameOf(coords, lim), isX, coords[i], t.dim)
    ensures OnSurvivor(lim, DimsOf(Final(Start(coords, lim)).x), DimsOf(Final(Start(coords, lim)).y), coords[i])
  {
    hide Final, Start, Through, Shrinks, FrameOf;
    var r := Final(Start(coords, lim));
    FinalShrinks(Start(coords, lim));
    assert Load(r, i) >= 1 by { LoadStays(Start(coords, lim), r, i); }
    var isX := Through(r.x, i) >= 1;
    ThroughWitness(Own(r, isX), i);
    var t :| t in Own(r, isX) && HoldsPoint(t, i);
    SurvivorHolds(coords, lim, r, isX, t, i);
    DimMember(Own(r, isX), t);
  }

  lemma LoadStays(before: Cover, after: Cover, i: nat)
    requires Shrinks(before, after) && Load(before, i) >= 1
    ensures Load(after, i) >= 1
  {
  }

  lemma DimMember(ts: seq<Track>, t: Track)
    requires t in ts
    ensures t.dim in DimsOf(ts)
  {
    var k :| 0 <= k < |ts| && ts[k] == t;
    assert DimsOf(ts)[k] == t.dim;
  }

  /** Without limits every point but a corner one starts on a line, and both directions have one. */
  lemma UnlimitedStart(coords: seq<Coord>)
    requires coords != []
    requires forall i :: 0 <= i < |coords| ==> coords[i].x >= 0 && coords[i].y >= 0 && coords[i] != Coord(0, 0)
    ensures forall i :: 0 <= i < |coords| ==> Load(Start(coords, UNLIMITED), i) >= 1
    ensures Start(coords, UNLIMITED).x != [] && Start(coords, UNLIMITED).y != []
  {
    hide Held, Lines, Through, MinOf, MaxOf;
    var f := FrameOf(coords, UNLIMITED);
    LinesAre(coords, UNLIMITED, f, true, f.xLow, f.xHigh);
    LinesAre(coords, UNLIMITED, f, false, f.yLow, f.yHigh);
    assert Xs(coords)[0] == coords[0].x && Ys(coords)[0] == coords[0].y;
    forall i | 0 <= i < |coords| ensures Load(Start(coords, UNLIMITED), i) >= 1 {
      assert Xs(coords)[i] == coords[i].x && Ys(coords)[i] == coords[i].y;
      StartHolds(coords, UNLIMITED, true, i);
      StartHolds(coords, UNLIMITED, false, i);
    }
  }
}
