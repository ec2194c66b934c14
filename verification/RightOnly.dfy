/** utils/lib/rr_graph/points.py and tracks.py with pins on the right side only, the one way in which they are
    called with a limited grid: which lines are left is told by the points alone, and so is which lists of
    points create_track gets through. */
module RightOnly {
  import opened Sequences
  import opened LineCover
  import opened Points
  import opened Tracks
  import opened TracksClass
  import opened PointsClass

  // ----- deletion where only x lines hold points, and no point is on two -----

  /** The lines that hold points. */
  function Busy(ts: seq<Track>): seq<Track> {
    if ts == [] then []
    else Busy(ts[..|ts| - 1]) + if ts[|ts| - 1].points != [] then [ts[|ts| - 1]] else []
  }

  ghost predicate AllIdle(ts: seq<Track>) { forall k :: 0 <= k < |ts| ==> ts[k].points == [] }

  ghost predicate AllBusy(ts: seq<Track>) { forall k :: 0 <= k < |ts| ==> ts[k].points != [] }

  /** No y line holds a point, and no point is on two x lines. */
  ghost predicate OneWay(c: Cover) {
    AllIdle(c.y) && forall i :: Through(c.x, i) <= 1
  }

  lemma {:induction false} IdleThrough(ts: seq<Track>, i: nat)
    requires AllIdle(ts)
    ensures Through(ts, i) == 0
  {
    if ts != [] { IdleThrough(ts[..|ts| - 1], i); }
  }

  lemma BusySnoc(ts: seq<Track>, t: Track)
    ensures Busy(ts + [t]) == if t.points != [] then Busy(ts) + [t] else Busy(ts)
  {
    assert (ts + [t])[..|ts|] == ts;
  }

  lemma {:induction false} BusyMembers(ts: seq<Track>)
    ensures forall t :: t in Busy(ts) <==> t in ts && t.points != []
  {
    if ts != [] {
      var init, last := ts[..|ts| - 1], ts[|ts| - 1];
      BusyMembers(init);
      assert ts == init + [last];
      BusySnoc(init, last);
      hide Busy;
    }
  }

  lemma {:induction false} BusySize(ts: seq<Track>)
    ensures |Busy(ts)| <= |ts| && AllBusy(Busy(ts))
  {
    if ts != [] { BusySize(ts[..|ts| - 1]); }
  }

  lemma {:induction false} BusyAlready(ts: seq<Track>)
    requires AllBusy(ts)
    ensures Busy(ts) == ts
  {
    if ts != [] {
      BusyAlready(ts[..|ts| - 1]);
      assert ts == ts[..|ts| - 1] + [ts[|ts| - 1]];
    }
  }

  lemma {:induction false} BusyRemoved(ts: seq<Track>, k: nat)
    requires k < |ts| && ts[k].points == []
    ensures Busy(RemoveAt(ts, k)) == Busy(ts)
  {
    var n := |ts| - 1;
    if k == n {
      assert RemoveAt(ts, k) == ts[..n];
    } else {
      BusyRemoved(ts[..n], k);
      assert RemoveAt(ts, k)[..n - 1] == RemoveAt(ts[..n], k);
      assert RemoveAt(ts, k)[n - 1] == ts[n];
    }
  }

  /** A line with points is refused; a line without is refused only to keep its direction from going
      empty. */
  lemma WhatGoes(c: Cover, isX: bool, k: nat)
    requires OneWay(c) && k < |Own(c, isX)|
    ensures CanRemove(c, isX, k) <==>
      Own(c, isX)[k].points == [] && !(|Own(c, isX)| <= 1 && |Own(c, !isX)| > 1)
  {
    var t := Own(c, isX)[k];
    if t.points != [] {
      IdleThrough(c.y, t.points[0]);
      assert Load(c, t.points[0]) <= 1;
    }
  }

  lemma StaysOneWay(c: Cover, isX: bool, k: nat)
    requires OneWay(c) && k < |Own(c, isX)| && Own(c, isX)[k].points == []
    ensures OneWay(Remove(c, isX, k)) && Busy(Remove(c, isX, k).x) == Busy(c.x)
  {
    hide Through, Busy;
    if isX {
      BusyRemoved(c.x, k);
      forall i ensures Through(RemoveAt(c.x, k), i) <= 1 { ThroughRemoved(c.x, k, i); }
    }
  }

  /** Without points to tell them apart, the first line is the smallest. */
  lemma IdleFirst(ts: seq<Track>)
    requires ts != [] && AllIdle(ts)
    ensures SmallestAt(ts) == 0
  {
    SmallestAtIsSmallest(ts);
    hide SmallestAt;
    assert |ts[0].points| == 0;
  }

  lemma SmallestBusy(ts: seq<Track>)
    requires ts != [] && ts[SmallestAt(ts)].points != []
    ensures AllBusy(ts)
  {
    SmallestAtIsSmallest(ts);
    hide SmallestAt;
  }

  /** One turn of the first loop: y lines have the smaller smallest line, or an equal one. */
  lemma FirstTurn(c: Cover)
    requires OneWay(c) && c.x != [] && c.y != []
    ensures ShrinkBoth(c) ==
      if CanRemove(c, false, 0) then ShrinkBoth(Remove(c, false, 0))
      else if CanRemove(c, true, SmallestAt(c.x)) then ShrinkBoth(Remove(c, true, SmallestAt(c.x)))
      else c
  {
    IdleFirst(c.y);
    hide Through, CanRemove, SmallestAt;
    assert !XFirst(c);
  }

  /** What the first loop leaves of c. */
  ghost predicate AfterFirst(c: Cover, r: Cover) {
    && OneWay(r) && Busy(r.x) == Busy(c.x)
    && LastOf(r.y) == (if r.y == [] then [] else LastOf(c.y))
    && (c.y != [] && |Busy(c.x)| >= 2 ==> r.y != [])
    && (r.x == [] || |r.y| <= 1)
  }

  lemma LastOfRest(ts: seq<Track>)
    requires ts != []
    ensures |RemoveAt(ts, 0)| == |ts| - 1
    ensures LastOf(RemoveAt(ts, 0)) == if |ts| == 1 then [] else LastOf(ts)
  {
    assert RemoveAt(ts, 0) == ts[1..];
  }

  lemma YLineGone(c: Cover, r: Cover)
    requires OneWay(c) && c.x != [] && c.y != [] && CanRemove(c, false, 0) && AfterFirst(Remove(c, false, 0), r)
    ensures AfterFirst(c, r)
  {
    WhatGoes(c, false, 0);
    BusySize(c.x);
    LastOfRest(c.y);
    NoneLast(r.y);
    hide OneWay, Busy, CanRemove, LastOf, RemoveAt;
  }

  lemma NoneLast(ts: seq<Track>)
    ensures LastOf(ts) == [] <==> ts == []
  {
  }

  lemma XLineGone(c: Cover, k: nat, r: Cover)
    requires OneWay(c) && k < |c.x| && CanRemove(c, true, k) && AfterFirst(Remove(c, true, k), r)
    ensures AfterFirst(c, r)
  {
    WhatGoes(c, true, k);
    StaysOneWay(c, true, k);
    hide OneWay, Busy, CanRemove, LastOf;
  }

  lemma NoneGone(c: Cover)
    requires OneWay(c) && (c.x == [] || c.y == [] || !CanRemove(c, false, 0))
    ensures AfterFirst(c, c)
  {
    if c.y != [] { WhatGoes(c, false, 0); }
    hide OneWay, Busy, CanRemove;
  }

  lemma GoesOneWay(c: Cover, isX: bool, k: nat)
    requires OneWay(c) && k < |Own(c, isX)| && CanRemove(c, isX, k)
    ensures OneWay(Remove(c, isX, k))
  {
    WhatGoes(c, isX, k);
    hide OneWay, Busy, CanRemove;
    StaysOneWay(c, isX, k);
  }

  /** The first loop deletes idle lines only, y lines from the first on. */
  lemma {:induction false} FirstLoop(c: Cover)
    requires OneWay(c)
    ensures AfterFirst(c, ShrinkBoth(c))
    decreases |c.x| + |c.y|
  {
    hide OneWay, CanRemove, SmallestAt, Busy, AfterFirst;
    if c.x == [] || c.y == [] {
      NoneGone(c);
    } else {
      FirstTurn(c);
      var k := SmallestAt(c.x);
      hide ShrinkBoth;
      if CanRemove(c, false, 0) {
        GoesOneWay(c, false, 0);
        FirstLoop(Remove(c, false, 0));
        YLineGone(c, ShrinkBoth(c));
      } else if CanRemove(c, true, k) {
        GoesOneWay(c, true, k);
        FirstLoop(Remove(c, true, k));
        XLineGone(c, k, ShrinkBoth(c));
      } else {
        NoneGone(c);
      }
    }
  }

  lemma SecondTurn(c: Cover, isX: bool)
    requires Own(c, isX) != []
    ensures var k := SmallestAt(Own(c, isX));
      ShrinkOne(c, isX) == if CanRemove(c, isX, k) then ShrinkOne(Remove(c, isX, k), isX) else c
  {
    hide CanRemove, SmallestAt;
  }

  /** The second loop deletes the idle x lines that are left. */
  lemma {:induction false} SecondLoop(c: Cover)
    requires OneWay(c) && (c.x == [] || |c.y| <= 1)
    ensures ShrinkOne(c, true) == Cover(Busy(c.x), c.y)
    decreases |c.x|
  {
    if c.x != [] {
      var k := SmallestAt(c.x);
      SecondTurn(c, true);
      WhatGoes(c, true, k);
      if CanRemove(c, true, k) {
        StaysOneWay(c, true, k);
        hide OneWay, Busy, CanRemove, SmallestAt, ShrinkOne;
        SecondLoop(Remove(c, true, k));
      } else {
        hide OneWay, Busy, CanRemove, ShrinkOne;
        SmallestBusy(c.x);
        BusyAlready(c.x);
      }
    }
  }

  function LastOf(ts: seq<Track>): seq<Track> { if ts == [] then [] else [ts[|ts| - 1]] }

  /** The third loop leaves the last y line beside several x lines, and none otherwise. */
  lemma {:induction false} ThirdLoop(c: Cover)
    requires OneWay(c)
    ensures ShrinkOne(c, false) == Cover(c.x, if |c.x| >= 2 then LastOf(c.y) else [])
    decreases |c.y|
  {
    if c.y != [] {
      SecondTurn(c, false);
      IdleIsFirst(c);
      WhatGoes(c, false, 0);
      LastOfRest(c.y);
      hide OneWay, Busy, CanRemove, SmallestAt, ShrinkOne, LastOf, RemoveAt;
      if CanRemove(c, false, 0) {
        GoesOneWay(c, false, 0);
        ThirdLoop(Remove(c, false, 0));
      } else {
        OneLast(c.y);
      }
    }
  }

  lemma IdleIsFirst(c: Cover)
    requires OneWay(c) && c.y != []
    ensures SmallestAt(c.y) == 0 && c.y[0].points == []
  {
    IdleFirst(c.y);
  }

  lemma OneLast(ts: seq<Track>)
    requires |ts| == 1
    ensures LastOf(ts) == ts
  {
  }

  ghost predicate NothingGoes(c: Cover) {
    forall isX, k: nat :: k < |Own(c, isX)| ==> !CanRemove(c, isX, k)
  }

  lemma {:induction false} SweepKeeps(c: Cover, isX: bool, order: seq<Track>)
    requires NothingGoes(c)
    ensures Sweep(c, isX, order) == c
  {
    hide CanRemove;
    if order != [] { SweepKeeps(c, isX, order[..|order| - 1]); }
  }

  /** What the whole deletion leaves: the x lines with points, and next to several of them the last
      y line. */
  lemma OneWayFinal(c: Cover)
    requires OneWay(c)
    ensures Final(c) == Cover(Busy(c.x), if |Busy(c.x)| >= 2 then LastOf(c.y) else [])
  {
    hide Through, Busy, ShrinkBoth, ShrinkOne, Sweep, SortBy, CanRemove;
    var c1 := ShrinkBoth(c);
    FirstLoop(c);
    SecondLoop(c1);
    BusySize(c.x);
    StaysApart(c1);
    ThirdLoop(Cover(Busy(c1.x), c1.y));
    var c3 := ShrinkOne(ShrinkOne(c1, true), false);
    assert c3 == Cover(Busy(c.x), if |Busy(c.x)| >= 2 then LastOf(c1.y) else []);
    assert OneWay(c3);
    forall isX, k: nat | k < |Own(c3, isX)| ensures !CanRemove(c3, isX, k) { WhatGoes(c3, isX, k); }
    SweepKeeps(c3, true, SortBy(c3.x, TRACK_SIZE));
    SweepKeeps(c3, false, SortBy(c3.y, TRACK_SIZE));
  }

  lemma ThroughSnoc(ts: seq<Track>, t: Track, i: nat)
    ensures Through(ts + [t], i) == Through(ts, i) + (if HoldsPoint(t, i) then 1 else 0)
  {
    assert (ts + [t])[..|ts|] == ts;
  }

  lemma {:induction false} BusyThrough(ts: seq<Track>, i: nat)
    ensures Through(Busy(ts), i) == Through(ts, i)
  {
    if ts != [] {
      var init, last := ts[..|ts| - 1], ts[|ts| - 1];
      BusyThrough(init, i);
      assert ts == init + [last];
      ThroughSnoc(init, last, i);
      ThroughSnoc(Busy(init), last, i);
      BusySnoc(init, last);
      hide Through, Busy;
    }
  }

  lemma StaysApart(c: Cover)
    requires OneWay(c)
    ensures OneWay(Cover(Busy(c.x), c.y)) && OneWay(Cover(Busy(c.x), LastOf(c.y))) && OneWay(Cover(Busy(c.x), []))
  {
    hide Through, Busy;
    forall i ensures Through(Busy(c.x), i) <= 1 { BusyThrough(c.x, i); }
  }

  // ----- the lines of right-only points -----

  /** Some point of the list is held by the x line at d. */
  ghost predicate Column(coords: seq<Coord>, lim: Limits, d: int)
    requires coords != []
  {
    exists i :: 0 <= i < |coords| && XLineHolds(lim, FrameOf(coords, lim), coords[i], d)
  }

  ghost predicate TwoColumns(coords: seq<Coord>, lim: Limits)
    requires coords != []
  {
    exists a, b :: a < b && Column(coords, lim, a) && Column(coords, lim, b)
  }

  /** A point is served by its own column or the one to its left, where these hold points, or else by the
      last row, which is kept where there are two columns. */
  ghost predicate Reached(coords: seq<Coord>, lim: Limits, p: Coord)
    requires coords != []
  {
    || (OnXTrack(lim, p) && (Column(coords, lim, p.x) || (p.x > 0 && Column(coords, lim, p.x - 1))))
    || (OnYTrack(lim, p) && TwoColumns(coords, lim)
        && (p.y == FrameOf(coords, lim).yHigh || (p.y > 0 && p.y - 1 == FrameOf(coords, lim).yHigh)))
  }

  lemma {:induction false} LinesThrough(coords: seq<Coord>, lim: Limits, f: Frame, low: int, high: int, i: nat)
    requires lim.rightOnly && i < |coords|
    ensures Through(Lines(coords, lim, f, true, low, high), i) <= 1
    ensures coords[i].x > high ==> Through(Lines(coords, lim, f, true, low, high), i) == 0
    decreases high - low
  {
    if low <= high {
      var init, last := Lines(coords, lim, f, true, low, high - 1), Track(high, Held(coords, lim, f, true, high));
      LinesThrough(coords, lim, f, low, high - 1, i);
      HeldPoint(coords, lim, f, true, high, i);
      hide Held, Lines, Through;
      ThroughSnoc(init, last, i);
      LinesSnoc(coords, lim, f, low, high);
    }
  }

  lemma LinesSnoc(coords: seq<Coord>, lim: Limits, f: Frame, low: int, high: int)
    requires low <= high
    ensures Lines(coords, lim, f, true, low, high) ==
      Lines(coords, lim, f, true, low, high - 1) + [Track(high, Held(coords, lim, f, true, high))]
  {
  }

  lemma {:induction false} NoStranger(coords: seq<Coord>, lim: Limits, f: Frame, low: int, high: int, i: nat)
    requires i >= |coords|
    ensures Through(Lines(coords, lim, f, true, low, high), i) == 0
    decreases high - low
  {
    if low <= high {
      NoStranger(coords, lim, f, low, high - 1, i);
      HeldIs(coords, lim, f, true, high);
      hide Held, Lines, Through;
      ThroughSnoc(Lines(coords, lim, f, true, low, high - 1), Track(high, Held(coords, lim, f, true, high)), i);
      LinesSnoc(coords, lim, f, low, high);
    }
  }

  lemma {:induction false} HeldNone(coords: seq<Coord>, lim: Limits, f: Frame, d: int)
    requires lim.rightOnly
    ensures Held(coords, lim, f, false, d) == []
  {
    if coords != [] { HeldNone(coords[..|coords| - 1], lim, f, d); }
  }

  lemma StartIdle(coords: seq<Coord>, lim: Limits)
    requires coords != [] && lim.rightOnly
    ensures AllIdle(Start(coords, lim).y)
  {
    hide Held, Lines, FrameOf;
    var f, ts := FrameOf(coords, lim), Start(coords, lim).y;
    LinesAre(coords, lim, f, false, f.yLow, f.yHigh);
    forall k | 0 <= k < |ts| ensures ts[k].points == [] { HeldNone(coords, lim, f, f.yLow + k); }
  }

  lemma StartApart(coords: seq<Coord>, lim: Limits, i: nat)
    requires coords != [] && lim.rightOnly
    ensures Through(Start(coords, lim).x, i) <= 1
  {
    hide Held, Lines, FrameOf, Through;
    var f := FrameOf(coords, lim);
    if i < |coords| {
      LinesThrough(coords, lim, f, f.xLow, f.xHigh, i);
    } else {
      NoStranger(coords, lim, f, f.xLow, f.xHigh, i);
    }
  }

  lemma StartOneWay(coords: seq<Coord>, lim: Limits)
    requires coords != [] && lim.rightOnly
    ensures OneWay(Start(coords, lim))
  {
    hide Start, Through, AllIdle;
    StartIdle(coords, lim);
    forall i: nat ensures Through(Start(coords, lim).x, i) <= 1 { StartApart(coords, lim, i); }
  }

  lemma LineAt(coords: seq<Coord>, lim: Limits, k: nat)
    requires coords != [] && k < |Start(coords, lim).x|
    ensures var f := FrameOf(coords, lim);
      Start(coords, lim).x[k] == Track(f.xLow + k, Held(coords, lim, f, true, f.xLow + k))
  {
    hide Held, Lines, FrameOf;
    var f := FrameOf(coords, lim);
    LinesAre(coords, lim, f, true, f.xLow, f.xHigh);
  }

  lemma BusyLine(coords: seq<Coord>, lim: Limits, t: Track) returns (i: nat)
    requires coords != [] && t in Start(coords, lim).x && t.points != []
    ensures i < |coords| && XLineHolds(lim, FrameOf(coords, lim), coords[i], t.dim)
  {
    hide Held, Start, FrameOf, XLineHolds;
    var k: nat :| k < |Start(coords, lim).x| && Start(coords, lim).x[k] == t;
    LineAt(coords, lim, k);
    HeldIs(coords, lim, FrameOf(coords, lim), true, t.dim);
    i := t.points[0];
    assert LineHolds(lim, FrameOf(coords, lim), true, coords[i], t.dim);
  }

  lemma LineOf(coords: seq<Coord>, lim: Limits, i: nat) returns (t: Track)
    requires lim.rightOnly && i < |coords| && XLineHolds(lim, FrameOf(coords, lim), coords[i], coords[i].x)
    ensures t in Start(coords, lim).x && t.points != [] && t.dim == coords[i].x
  {
    var f, ts := FrameOf(coords, lim), Start(coords, lim).x;
    LinesAre(coords, lim, f, true, f.xLow, f.xHigh);
    HeldIs(coords, lim, f, true, coords[i].x);
    hide Held, Lines, FrameOf;
    t := ts[coords[i].x - f.xLow];
  }

  /** The x lines left are the columns with points. */
  lemma ColumnsLeft(coords: seq<Coord>, lim: Limits, d: int)
    requires coords != [] && lim.rightOnly
    ensures d in DimsOf(Busy(Start(coords, lim).x)) <==> Column(coords, lim, d)
  {
    var ts := Start(coords, lim).x;
    BusyMembers(ts);
    hide Start, Busy, FrameOf;
    if d in DimsOf(Busy(ts)) {
      var k :| 0 <= k < |Busy(ts)| && DimsOf(Busy(ts))[k] == d;
      assert Busy(ts)[k] in ts;
      var i := BusyLine(coords, lim, Busy(ts)[k]);
    }
    if i :| 0 <= i < |coords| && XLineHolds(lim, FrameOf(coords, lim), coords[i], d) {
      var t := LineOf(coords, lim, i);
      DimMember(Busy(ts), t);
    }
  }

  lemma {:induction false} BusyOrder(ts: seq<Track>)
    requires forall i, j :: 0 <= i < j < |ts| ==> ts[i].dim < ts[j].dim
    ensures forall i, j :: 0 <= i < j < |Busy(ts)| ==> Busy(ts)[i].dim < Busy(ts)[j].dim
  {
    if ts != [] {
      var init, last := ts[..|ts| - 1], ts[|ts| - 1];
      BusyOrder(init);
      BusyMembers(init);
      hide Busy;
      assert ts == init + [last];
      BusySnoc(init, last);
      forall i | 0 <= i < |Busy(init)| ensures Busy(init)[i].dim < last.dim { assert Busy(init)[i] in init; }
    }
  }

  lemma StartOrder(coords: seq<Coord>, lim: Limits)
    requires coords != []
    ensures var ts := Start(coords, lim).x; forall i, j :: 0 <= i < j < |ts| ==> ts[i].dim < ts[j].dim
  {
    var f := FrameOf(coords, lim);
    LinesAre(coords, lim, f, true, f.xLow, f.xHigh);
    hide Held, Lines, FrameOf;
  }

  /** Two lines are left exactly where two columns hold points. */
  lemma TwoLeft(coords: seq<Coord>, lim: Limits)
    requires coords != [] && lim.rightOnly
    ensures |Busy(Start(coords, lim).x)| >= 2 <==> TwoColumns(coords, lim)
  {
    StartOrder(coords, lim);
    BusyOrder(Start(coords, lim).x);
    var ts := Busy(Start(coords, lim).x);
    hide Start, Busy, Column;
    if |ts| >= 2 {
      assert DimsOf(ts)[0] == ts[0].dim && DimsOf(ts)[1] == ts[1].dim;
      ColumnsLeft(coords, lim, ts[0].dim);
      ColumnsLeft(coords, lim, ts[1].dim);
    }
    if a, b :| a < b && Column(coords, lim, a) && Column(coords, lim, b) {
      ColumnsLeft(coords, lim, a);
      ColumnsLeft(coords, lim, b);
    }
  }

  /** Where a column holds a point there are rows, and the last one has the number the frame says. */
  lemma LastRow(coords: seq<Coord>, lim: Limits, d: int)
    requires coords != [] && Column(coords, lim, d)
    ensures DimsOf(LastOf(Start(coords, lim).y)) == [FrameOf(coords, lim).yHigh]
  {
    var f := FrameOf(coords, lim);
    var i :| 0 <= i < |coords| && XLineHolds(lim, f, coords[i], d);
    FrameRoom(coords, lim, i);
    LinesAre(coords, lim, f, false, f.yLow, f.yHigh);
    hide Held, Lines, FrameOf;
  }

  /** The coordinates of the lines left. */
  lemma RightOnlyLines(coords: seq<Coord>, lim: Limits)
    requires coords != [] && lim.rightOnly
    ensures var r := Final(Start(coords, lim));
      && (forall d :: d in DimsOf(r.x) <==> Column(coords, lim, d))
      && DimsOf(r.y) == if TwoColumns(coords, lim) then [FrameOf(coords, lim).yHigh] else []
  {
    StartOneWay(coords, lim);
    OneWayFinal(Start(coords, lim));
    TwoLeft(coords, lim);
    if TwoColumns(coords, lim) {
      var a, b :| a < b && Column(coords, lim, a) && Column(coords, lim, b);
      LastRow(coords, lim, a);
    }
    hide Final, Start, Busy, LastOf, FrameOf, Column, TwoColumns, OneWay;
    forall d ensures d in DimsOf(Final(Start(coords, lim)).x) <==> Column(coords, lim, d) {
      ColumnsLeft(coords, lim, d);
    }
  }

  /** For right-only points the closing sanity check asks of each point just this. */
  lemma RightOnlyPasses(coords: seq<Coord>, lim: Limits, p: Coord)
    requires coords != [] && lim.rightOnly
    ensures var r := Final(Start(coords, lim));
      OnSurvivor(lim, DimsOf(r.x), DimsOf(r.y), p) <==> Reached(coords, lim, p)
  {
    hide Final, Start, DimsOf, FrameOf, Column, TwoColumns, OnXTrack, OnYTrack;
    RightOnlyLines(coords, lim);
    var r := Final(Start(coords, lim));
    SurvivorReads(lim, DimsOf(r.x), DimsOf(r.y), p, Column(coords, lim, p.x), Column(coords, lim, p.x - 1),
      TwoColumns(coords, lim), FrameOf(coords, lim).yHigh);
  }

  lemma SurvivorReads(lim: Limits, xs: seq<int>, ys: seq<int>, p: Coord, own: bool, left: bool, two: bool, row: int)
    requires (p.x in xs <==> own) && (p.x - 1 in xs <==> left) && ys == if two then [row] else []
    ensures OnSurvivor(lim, xs, ys, p) <==>
      (OnXTrack(lim, p) && (own || (p.x > 0 && left)))
      || (OnYTrack(lim, p) && two && (p.y == row || (p.y > 0 && p.y - 1 == row)))
  {
    hide OnXTrack, OnYTrack;
  }

  /** create_track with pins on the right only goes through exactly when each point is reached. */
  method CreateRightOnly(coords: seq<Coord>, width: Option<int>, height: Option<int>) returns (r: Option<TrackModel>)
    ensures r.Some? <==>
      Admissible(coords, Limits(width, height, true)) && forall i :: 0 <= i < |coords| ==>
        Reached(coords, Limits(width, height, true), coords[i])
    ensures r.Some? ==> fresh(r.value) && r.value.Valid()
    ensures r.Some? ==> LinksFit(r.value.links, |r.value.tracks|) && OneNet(|r.value.tracks|, r.value.links)
    ensures r.Some? ==> forall i :: 0 <= i < |coords| ==> AttachmentsAt(r.value.tracks, coords[i]) != map[]
  {
    var lim := Limits(width, height, true);
    hide Final, Start, OnSurvivor, Reached, OneNet, AttachmentsAt, Clashes, IsCorner, WiresFor;
    if Admissible(coords, lim) {
      forall p ensures OnSurvivor(lim, DimsOf(Final(Start(coords, lim)).x), DimsOf(Final(Start(coords, lim)).y), p)
        <==> Reached(coords, lim, p)
      {
        RightOnlyPasses(coords, lim, p);
      }
    }
    r := CreateTrack(coords, lim);
  }

  // ----- the constant networks of the test architecture -----

  /** The points inside the outer ring, but for the one next to its far corner. */
  predicate IsInner(width: int, height: int, p: Coord) {
    1 <= p.x <= width - 2 && 1 <= p.y <= height - 2 && p != Coord(width - 2, height - 2)
  }

  /** A list of exactly these points, in any order. */
  ghost predicate ListsInner(coords: seq<Coord>, width: int, height: int) {
    forall p :: p in coords <==> IsInner(width, height, p)
  }

  lemma InnerFrame(coords: seq<Coord>, width: int, height: int)
    requires 4 <= width && 4 <= height && ListsInner(coords, width, height)
    ensures coords != []
    ensures var f := FrameOf(coords, Limits(Some(width), Some(height), true));
      f.xLow == 0 && f.xHigh == width - 2 && f.yHigh == height - 2
  {
    hide MinOf, MaxOf;
    var a, b, c := Coord(1, 1), Coord(width - 2, 1), Coord(1, height - 2);
    assert a in coords && b in coords && c in coords;
    var i, j, k :| 0 <= i < |coords| && 0 <= j < |coords| && 0 <= k < |coords|
      && coords[i] == a && coords[j] == b && coords[k] == c;
    assert Xs(coords)[i] == 1 && Xs(coords)[j] == width - 2 && Ys(coords)[k] == height - 2;
    forall q | 0 <= q < |coords| ensures 1 <= Xs(coords)[q] <= width - 2 && 1 <= Ys(coords)[q] <= height - 2 {
      assert coords[q] in coords;
    }
  }

  lemma InnerColumn(coords: seq<Coord>, width: int, height: int, p: Coord)
    requires 4 <= width && 4 <= height && ListsInner(coords, width, height) && coords != []
    requires IsInner(width, height, p) && p.y < height - 2
    ensures Column(coords, Limits(Some(width), Some(height), true), p.x)
  {
    var lim := Limits(Some(width), Some(height), true);
    InnerFrame(coords, width, height);
    hide FrameOf;
    assert p in coords;
    var i :| 0 <= i < |coords| && coords[i] == p;
    assert XLineHolds(lim, FrameOf(coords, lim), coords[i], p.x);
  }

  lemma InnerReached(coords: seq<Coord>, width: int, height: int, p: Coord)
    requires 4 <= width && 4 <= height && ListsInner(coords, width, height) && coords != []
    requires IsInner(width, height, p)
    ensures Reached(coords, Limits(Some(width), Some(height), true), p)
  {
    InnerFrame(coords, width, height);
    InnerColumn(coords, width, height, Coord(1, 1));
    InnerColumn(coords, width, height, Coord(2, 1));
    hide FrameOf, Column, ListsInner;
    if p.y < height - 2 { InnerColumn(coords, width, height, p); }
  }

  /** The network of a global constant: on any grid with two inner columns and rows the call goes through,
      and every inner point but the one left out has a track to attach to. */
  method CreateConstantTracks(coords: seq<Coord>, width: int, height: int) returns (r: Option<TrackModel>)
    requires 4 <= width && 4 <= height && ListsInner(coords, width, height)
    ensures r.Some? && fresh(r.value) && r.value.Valid()
    ensures LinksFit(r.value.links, |r.value.tracks|) && OneNet(|r.value.tracks|, r.value.links)
    ensures forall p :: IsInner(width, height, p) ==> AttachmentsAt(r.value.tracks, p) != map[]
  {
    InnerFrame(coords, width, height);
    forall i | 0 <= i < |coords|
      ensures Reached(coords, Limits(Some(width), Some(height), true), coords[i])
      ensures !IsCorner(Limits(Some(width), Some(height), true), coords[i])
    {
      assert coords[i] in coords;
      InnerReached(coords, width, height, coords[i]);
    }
    hide Reached, OneNet, AttachmentsAt, IsCorner, FrameOf, IsInner;
    r := CreateRightOnly(coords, Some(width), Some(height));
    forall p | IsInner(width, height, p) ensures AttachmentsAt(r.value.tracks, p) != map[] {
      assert p in coords;
    }
  }
}
