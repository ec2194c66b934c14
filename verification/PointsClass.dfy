/** decompose_points_into_tracks as the source runs it: Point objects whose counters are shared by
    all lines through them, counted up as points are added to lines and down as lines are deleted.
    The invariant is that each counter equals the number of lines left that hold the point; the lines
    themselves are those of the functions in LineCover. */
module PointsClass {
  import opened Sequences
  import opened LineCover
  import opened Points

  class Point {
    const coord: Coord
    /** How many surviving lines hold this point. */
    var tracks: int

    constructor (coord: Coord)
      ensures this.coord == coord && tracks == 0
    {
      this.coord := coord;
      tracks := 0;
    }
  }

  /** The lines of the frame once the first n points have been added. */
  function Listed(coords: seq<Coord>, lim: Limits, n: nat): Cover
    requires coords != [] && n <= |coords|
  {
    var f := FrameOf(coords, lim);
    Cover(Lines(coords[..n], lim, f, true, f.xLow, f.xHigh), Lines(coords[..n], lim, f, false, f.yLow, f.yHigh))
  }

  function Extended(t: Track, i: nat): Track { Track(t.dim, t.points + [i]) }

  function WithPoint(ts: seq<Track>, k: nat, i: nat): seq<Track>
    requires k < |ts|
  {
    ts[k := Extended(ts[k], i)]
  }

  method MakePoints(coords: seq<Coord>) returns (ps: seq<Point>)
    ensures fresh(ps) && |ps| == |coords| && Distinct(ps)
    ensures forall i :: 0 <= i < |ps| ==> ps[i].coord == coords[i] && ps[i].tracks == 0
  {
    ps := [];
    for i := 0 to |coords|
      invariant fresh(ps) && |ps| == i && Distinct(ps)
      invariant forall j :: 0 <= j < i ==> ps[j].coord == coords[j] && ps[j].tracks == 0
    {
      var p := new Point(coords[i]);
      ps := ps + [p];
    }
  }

  lemma {:induction false} ThroughAdded(ts: seq<Track>, k: nat, i: nat, j: nat)
    requires k < |ts| && !HoldsPoint(ts[k], i)
    ensures Through(WithPoint(ts, k, i), j) == Through(ts, j) + (if j == i then 1 else 0)
  {
    var n, after := |ts| - 1, WithPoint(ts, k, i);
    if k < n {
      ThroughAdded(ts[..n], k, i, j);
      assert after[..n] == WithPoint(ts[..n], k, i);
    } else {
      assert after[..n] == ts[..n];
      HoldsAdded(ts[k], i, j);
    }
  }

  lemma HoldsAdded(t: Track, i: nat, j: nat)
    ensures HoldsPoint(Extended(t, i), j) <==> HoldsPoint(t, j) || i == j
  {
    var after := t.points + [i];
    assert after[|t.points|] == i;
    if HoldsPoint(t, j) {
      var k :| 0 <= k < |t.points| && t.points[k] == j;
      assert after[k] == j;
    }
  }

  lemma ListedIs(coords: seq<Coord>, lim: Limits, n: nat)
    requires coords != [] && n <= |coords|
    ensures var f, c := FrameOf(coords, lim), Listed(coords, lim, n);
      && |c.x| == Max(0, f.xHigh - f.xLow + 1) && |c.y| == Max(0, f.yHigh - f.yLow + 1)
      && (forall k :: 0 <= k < |c.x| ==> c.x[k].dim == f.xLow + k)
      && (forall k :: 0 <= k < |c.y| ==> c.y[k].dim == f.yLow + k)
      && (forall k :: 0 <= k < |c.x| ==> c.x[k].points == Held(coords[..n], lim, f, true, f.xLow + k))
      && (forall k :: 0 <= k < |c.y| ==> c.y[k].points == Held(coords[..n], lim, f, false, f.yLow + k))
  {
    hide Lines, Held, FrameOf;
    var f := FrameOf(coords, lim);
    LinesAre(coords[..n], lim, f, true, f.xLow, f.xHigh);
    LinesAre(coords[..n], lim, f, false, f.yLow, f.yHigh);
  }

  /** Every line lists points of the list, none twice. */
  ghost predicate TracksFit(ts: seq<Track>, n: nat) {
    forall k :: 0 <= k < |ts| ==> Distinct(ts[k].points) && forall j :: 0 <= j < |ts[k].points| ==> ts[k].points[j] < n
  }

  lemma WithPointFits(ts: seq<Track>, k: nat, i: nat, n: nat)
    requires TracksFit(ts, n) && k < |ts| && i < n && !HoldsPoint(ts[k], i)
    ensures TracksFit(WithPoint(ts, k, i), n)
  {
  }

  lemma ListedFits(coords: seq<Coord>, lim: Limits, n: nat)
    requires coords != [] && n <= |coords|
    ensures TracksFit(Listed(coords, lim, n).x, n) && TracksFit(Listed(coords, lim, n).y, n)
  {
    hide Listed, Held, FrameOf;
    var f, c := FrameOf(coords, lim), Listed(coords, lim, n);
    ListedIs(coords, lim, n);
    forall k | 0 <= k < |c.x|
      ensures Distinct(c.x[k].points) && forall j :: 0 <= j < |c.x[k].points| ==> c.x[k].points[j] < n
    {
      HeldFits(coords, lim, f, true, f.xLow + k, n, c.x[k]);
    }
    forall k | 0 <= k < |c.y|
      ensures Distinct(c.y[k].points) && forall j :: 0 <= j < |c.y[k].points| ==> c.y[k].points[j] < n
    {
      HeldFits(coords, lim, f, false, f.yLow + k, n, c.y[k]);
    }
  }

  lemma HeldFits(coords: seq<Coord>, lim: Limits, f: Frame, isX: bool, d: int, n: nat, t: Track)
    requires n <= |coords| && t.points == Held(coords[..n], lim, f, isX, d)
    ensures Distinct(t.points) && forall j :: 0 <= j < |t.points| ==> t.points[j] < n
  {
    HeldIs(coords[..n], lim, f, isX, d);
  }

  lemma {:induction false} NoneThrough(ts: seq<Track>, i: nat)
    requires forall k :: 0 <= k < |ts| ==> !HoldsPoint(ts[k], i)
    ensures Through(ts, i) == 0
  {
    if ts != [] { NoneThrough(ts[..|ts| - 1], i); }
  }

  /** Points that have not been added yet are on no line. */
  lemma NotYetListed(coords: seq<Coord>, lim: Limits, n: nat, i: nat)
    requires coords != [] && n <= |coords| && n <= i
    ensures Load(Listed(coords, lim, n), i) == 0
  {
    hide Listed, FrameOf, Distinct;
    ListedFits(coords, lim, n);
    NoneThrough(Listed(coords, lim, n).x, i);
    NoneThrough(Listed(coords, lim, n).y, i);
  }

  lemma NotInLine(coords: seq<Coord>, lim: Limits, n: nat, isX: bool, k: nat)
    requires coords != [] && n <= |coords| && k < |Own(Listed(coords, lim, n), isX)|
    ensures !HoldsPoint(Own(Listed(coords, lim, n), isX)[k], n)
  {
    hide Listed, Distinct;
    ListedFits(coords, lim, n);
  }

  /** The line before a positive coordinate is in the frame. */
  lemma FrameLow(coords: seq<Coord>, lim: Limits, i: nat)
    requires i < |coords|
    ensures var f := FrameOf(coords, lim);
      (coords[i].x > 0 ==> f.xLow <= coords[i].x - 1) && (coords[i].y > 0 ==> f.yLow <= coords[i].y - 1)
  {
    hide MinOf, MaxOf;
    assert Xs(coords)[i] == coords[i].x && Ys(coords)[i] == coords[i].y;
  }

  /** Adding point i appends it to exactly the lines that take it. */
  lemma ListedGrows(coords: seq<Coord>, lim: Limits, i: nat)
    requires i < |coords|
    ensures var f, a, b := FrameOf(coords, lim), Listed(coords, lim, i), Listed(coords, lim, i + 1);
      && |b.x| == |a.x| == Max(0, f.xHigh - f.xLow + 1) && |b.y| == |a.y| == Max(0, f.yHigh - f.yLow + 1)
      && (forall k :: 0 <= k < |a.x| ==>
            b.x[k] == if XLineHolds(lim, f, coords[i], f.xLow + k) then Extended(a.x[k], i) else a.x[k])
      && (forall k :: 0 <= k < |a.y| ==>
            b.y[k] == if YLineHolds(lim, f, coords[i], f.yLow + k) then Extended(a.y[k], i) else a.y[k])
  {
    hide Listed, FrameOf;
    ListedIs(coords, lim, i);
    ListedIs(coords, lim, i + 1);
    assert coords[..i + 1][..i] == coords[..i];
  }

  class Decomposition {
    const points: seq<Point>
    var cover: Cover

    /** Each point's counter is the number of surviving lines that hold it. */
    ghost predicate Valid()
      reads this, points
    {
      && Distinct(points)
      && TracksFit(cover.x, |points|) && TracksFit(cover.y, |points|)
      && forall i :: 0 <= i < |points| ==> points[i].tracks == Load(cover, i)
    }

    /** All lines of the frame, without points yet, and a fresh counter for every point. */
    constructor (coords: seq<Coord>, lim: Limits)
      requires coords != []
      ensures fresh(points) && |points| == |coords| && forall i :: 0 <= i < |points| ==> points[i].coord == coords[i]
      ensures Valid() && cover == Listed(coords, lim, 0)
    {
      hide Lines, Held, MinOf, MaxOf;
      var ps := MakePoints(coords);
      var f := FrameOf(coords, lim);
      points := ps;
      cover := Cover(Lines([], lim, f, true, f.xLow, f.xHigh), Lines([], lim, f, false, f.yLow, f.yHigh));
      new;
      assert coords[..0] == [];
      ListedFits(coords, lim, 0);
      forall i | 0 <= i < |points| ensures Load(cover, i) == 0 { NotYetListed(coords, lim, 0, i); }
    }

    /** add_point: appends point i to line k of one direction and counts it. */
    method AddTo(isX: bool, k: nat, i: nat)
      requires Valid() && k < |Own(cover, isX)| && i < |points| && !HoldsPoint(Own(cover, isX)[k], i)
      modifies this`cover, points[i]
      ensures Valid()
      ensures Own(cover, isX) == WithPoint(Own(old(cover), isX), k, i) && Own(cover, !isX) == Own(old(cover), !isX)
    {
      hide Through;
      var ts := Own(cover, isX);
      assert ts[k] in ts;
      forall j: nat | j < |points|
        ensures Through(WithPoint(ts, k, i), j) == Through(ts, j) + (if j == i then 1 else 0)
      {
        ThroughAdded(ts, k, i, j);
      }
      cover := if isX then Cover(WithPoint(ts, k, i), cover.y) else Cover(cover.x, WithPoint(ts, k, i));
      points[i].tracks := points[i].tracks + 1;
      WithPointFits(ts, k, i, |points|);
    }

    /** Appends point i to line k of one direction, and to the line before it if asked to. */
    method AddPair(isX: bool, k: nat, both: bool, i: nat)
      requires Valid() && k < |Own(cover, isX)| && i < |points| && !HoldsPoint(Own(cover, isX)[k], i)
      requires both ==> k > 0 && !HoldsPoint(Own(cover, isX)[k - 1], i)
      modifies this`cover, points
      ensures Valid() && Own(cover, !isX) == Own(old(cover), !isX) && |Own(cover, isX)| == |Own(old(cover), isX)|
      ensures forall q :: 0 <= q < |Own(cover, isX)| ==>
        Own(cover, isX)[q] == if q == k || (both && q == k - 1) then Extended(Own(old(cover), isX)[q], i)
          else Own(old(cover), isX)[q]
    {
      hide Valid, HoldsPoint;
      if both { AddTo(isX, k - 1, i); }
      AddTo(isX, k, i);
    }

    /** Adds point i to every line that takes it. */
    method AddPoint(coords: seq<Coord>, lim: Limits, i: nat)
      requires Valid() && coords != [] && |points| == |coords| && i < |coords|
      requires cover == Listed(coords, lim, i)
      modifies this`cover, points
      ensures Valid() && cover == Listed(coords, lim, i + 1)
    {
      hide Valid, Lines, Held, MinOf, MaxOf, FrameOf, LowLine, HighLine, HoldsPoint;
      var f, p := FrameOf(coords, lim), coords[i];
      FrameLow(coords, lim, i);
      ListedGrows(coords, lim, i);
      if OnXTrack(lim, p) && f.xLow <= p.x <= f.xHigh {
        var both := p.x > 0 && !lim.rightOnly;
        if both { NotInLine(coords, lim, i, true, p.x - 1 - f.xLow); }
        NotInLine(coords, lim, i, true, p.x - f.xLow);
        AddPair(true, p.x - f.xLow, both, i);
      }
      assert cover.x == Listed(coords, lim, i + 1).x;
      if OnYTrack(lim, p) && !lim.rightOnly && f.yLow <= p.y <= f.yHigh {
        var both := p.y > 0;
        if both { NotInLine(coords, lim, i, false, p.y - 1 - f.yLow); }
        NotInLine(coords, lim, i, false, p.y - f.yLow);
        AddPair(false, p.y - f.yLow, both, i);
      }
      assert cover.y == Listed(coords, lim, i + 1).y;
    }

    /** Lowers the counter of every point of a line. */
    method Decrement(t: Track)
      requires Distinct(points)
      requires Distinct(t.points) && forall j :: 0 <= j < |t.points| ==> t.points[j] < |points|
      modifies points
      ensures forall i :: 0 <= i < |points| ==>
        points[i].tracks == old(points[i].tracks) - (if HoldsPoint(t, i) then 1 else 0)
    {
      for j := 0 to |t.points|
        invariant forall i :: 0 <= i < |points| ==>
          points[i].tracks == old(points[i].tracks) - (if i in t.points[..j] then 1 else 0)
      {
        points[t.points[j]].tracks := points[t.points[j]].tracks - 1;
      }
      assert t.points[..|t.points|] == t.points;
    }

    /** Whether each point of a line is on another line, as its counter says. */
    method Shared(t: Track) returns (ok: bool)
      requires Valid() && forall j :: 0 <= j < |t.points| ==> t.points[j] < |points|
      ensures ok <==> AllShared(cover, t)
    {
      hide Load, Distinct, TracksFit;
      for j := 0 to |t.points|
        invariant forall m :: 0 <= m < j ==> Load(cover, t.points[m]) > 1
      {
        if points[t.points[j]].tracks <= 1 {
          return false;
        }
      }
      ok := true;
    }

    /** try_remove_track: deletes line k of one direction if it may go. */
    method TryRemove(isX: bool, k: nat) returns (removed: bool)
      requires Valid() && k < |Own(cover, isX)|
      modifies this`cover, points
      ensures Valid()
      ensures removed <==> CanRemove(old(cover), isX, k)
      ensures cover == if removed then Remove(old(cover), isX, k) else old(cover)
      ensures !removed ==> forall i :: 0 <= i < |points| ==> points[i].tracks == old(points[i].tracks)
    {
      hide Load, Distinct, AllShared, HoldsPoint;
      var t := Own(cover, isX)[k];
      assert t in Own(cover, isX);
      removed := Shared(t);
      if !removed || (|Own(cover, isX)| <= 1 && |Own(cover, !isX)| > 1) {
        return false;
      }
      Decrement(t);
      forall i | 0 <= i < |points| ensures points[i].tracks == Load(Remove(cover, isX, k), i) {
        LoadRemoved(cover, isX, k, i);
      }
      cover := Remove(cover, isX, k);
    }

    /** Deletes the smallest line of one direction if it may go. */
    method TryRemoveSmallest(isX: bool) returns (removed: bool)
      requires Valid() && Own(cover, isX) != []
      modifies this`cover, points
      ensures Valid()
      ensures TrySmallest(old(cover), isX) == if removed then Some(cover) else None
      ensures !removed ==> cover == old(cover)
    {
      hide Valid, CanRemove, SmallestAt;
      removed := TryRemove(isX, SmallestAt(Own(cover, isX)));
    }

    /** Deletes lines until none may go; the order is the source's. */
    method RemoveLines()
      requires Valid()
      modifies this`cover, points
      ensures Valid() && cover == Final(old(cover))
    {
      hide Valid, CanRemove, Sweep, SortBy, SmallestAt, TrySmallest, ShrinkOne, XFirst;
      while |cover.x| > 0 && |cover.y| > 0
        invariant Valid() && ShrinkBoth(cover) == ShrinkBoth(old(cover))
        decreases |cover.x| + |cover.y|
      {
        var xFirst := XFirst(cover);
        var removed := TryRemoveSmallest(xFirst);
        if !removed {
          removed := TryRemoveSmallest(!xFirst);
          if !removed {
            break;
          }
        }
      }
      assert cover == ShrinkBoth(old(cover));
      ShrinkDirection(true);
      ShrinkDirection(false);
      SweepDirection(true, SortBy(cover.x, TRACK_SIZE));
      SweepDirection(false, SortBy(cover.y, TRACK_SIZE));
    }

    method ShrinkDirection(isX: bool)
      requires Valid()
      modifies this`cover, points
      ensures Valid() && cover == ShrinkOne(old(cover), isX)
    {
      hide Valid, CanRemove, SmallestAt, TrySmallest;
      while |Own(cover, isX)| > 0
        invariant Valid() && ShrinkOne(cover, isX) == ShrinkOne(old(cover), isX)
        decreases |cover.x| + |cover.y|
      {
        var removed := TryRemoveSmallest(isX);
        if !removed {
          break;
        }
      }
    }

    method SweepDirection(isX: bool, order: seq<Track>)
      requires Valid()
      modifies this`cover, points
      ensures Valid() && cover == Sweep(old(cover), isX, order)
    {
      hide Valid, CanRemove;
      for i := 0 to |order|
        invariant Valid() && cover == Sweep(old(cover), isX, order[..i])
      {
        assert order[..i + 1][..i] == order[..i];
        var k := Find(Own(cover, isX), order[i].dim);
        if k < |Own(cover, isX)| {
          var _ := TryRemove(isX, k);
        }
      }
      assert order[..|order|] == order;
    }
  }

  lemma ListedAll(coords: seq<Coord>, lim: Limits)
    requires coords != []
    ensures Listed(coords, lim, |coords|) == Start(coords, lim)
  {
    assert coords[..|coords|] == coords;
  }

  /** The assertions made on the way: there are points, none of them in a corner, and a grid width comes
      with a grid height. */
  predicate Admissible(coords: seq<Coord>, lim: Limits) {
    coords != [] && (lim.width.Some? ==> lim.height.Some?)
    && forall i :: 0 <= i < |coords| ==> !IsCorner(lim, coords[i])
  }

  /** Every point passes the closing sanity check on the lines that are left. */
  ghost predicate AllOnSurvivors(coords: seq<Coord>, lim: Limits)
    requires coords != []
  {
    var r := Final(Start(coords, lim));
    forall i :: 0 <= i < |coords| ==> OnSurvivor(lim, DimsOf(r.x), DimsOf(r.y), coords[i])
  }

  /** All points on their lines, up to the first in a corner. */
  method AddPoints(coords: seq<Coord>, lim: Limits) returns (d: Decomposition, ok: bool)
    requires coords != []
    ensures fresh(d) && fresh(d.points) && d.Valid()
    ensures ok <==> forall i :: 0 <= i < |coords| ==> !IsCorner(lim, coords[i])
    ensures ok ==> d.cover == Start(coords, lim)
  {
    hide Start, Listed, IsCorner;
    d := new Decomposition(coords, lim);
    for i := 0 to |coords|
      invariant d.Valid() && fresh(d) && fresh(d.points) && |d.points| == |coords|
      invariant d.cover == Listed(coords, lim, i)
      invariant forall j :: 0 <= j < i ==> !IsCorner(lim, coords[j])
    {
      if IsCorner(lim, coords[i]) {
        return d, false;
      }
      d.AddPoint(coords, lim, i);
    }
    ListedAll(coords, lim);
    ok := true;
  }

  method SanityCheck(coords: seq<Coord>, lim: Limits, xs: seq<int>, ys: seq<int>) returns (ok: bool)
    ensures ok <==> forall i :: 0 <= i < |coords| ==> OnSurvivor(lim, xs, ys, coords[i])
  {
    hide OnSurvivor;
    for i := 0 to |coords|
      invariant forall j :: 0 <= j < i ==> OnSurvivor(lim, xs, ys, coords[j])
    {
      if !OnSurvivor(lim, xs, ys, coords[i]) {
        return false;
      }
    }
    ok := true;
  }

  /** The lines that are left; ok unless an assertion fails on the way or a point fails the closing
      sanity check. */
  method Decompose(coords: seq<Coord>, lim: Limits) returns (xs: seq<int>, ys: seq<int>, ok: bool)
    ensures ok <==> Admissible(coords, lim) && AllOnSurvivors(coords, lim)
    ensures Admissible(coords, lim) ==>
      xs == DimsOf(Final(Start(coords, lim)).x) && ys == DimsOf(Final(Start(coords, lim)).y)
  {
    xs, ys, ok := [], [], false;
    hide Start, Final, OnSurvivor, IsCorner;
    if coords == [] || (lim.width.Some? && lim.height.None?) {
      return;
    }
    var d;
    d, ok := AddPoints(coords, lim);
    if ok {
      d.RemoveLines();
      xs, ys := DimsOf(d.cover.x), DimsOf(d.cover.y);
      ok := SanityCheck(coords, lim, xs, ys);
    }
  }
}
