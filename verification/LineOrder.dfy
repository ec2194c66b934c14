/** utils/lib/rr_graph/points.py: the order in which the greedy deletion tries its lines, by the number of their
    points. */
module LineOrder {
  import opened Sequences
  import opened LineCover

  /** The first line with the fewest points. */
  ghost predicate IsSmallest(ts: seq<Track>, k: nat) {
    k < |ts| && (forall j :: 0 <= j < |ts| ==> |ts[k].points| <= |ts[j].points|)
    && forall j :: 0 <= j < k ==> |ts[k].points| < |ts[j].points|
  }

  lemma SmallestIs(ts: seq<Track>, k: nat)
    requires IsSmallest(ts, k)
    ensures k == SmallestAt(ts)
  {
    SmallestAtIsSmallest(ts);
  }

  /** While both directions have lines, the smaller of their smallest lines is tried first, that of y where they are
      equal, and then the other; the deletion goes on from what the first to go leaves. */
  lemma FirstDeleted(c: Cover, isX: bool, k: nat, l: nat)
    requires IsSmallest(Own(c, isX), k) && IsSmallest(Own(c, !isX), l)
    requires if isX then |c.x[k].points| < |c.y[l].points| else |c.y[k].points| <= |c.x[l].points|
    ensures CanRemove(c, isX, k) ==> Final(c) == Final(Remove(c, isX, k))
    ensures !CanRemove(c, isX, k) && CanRemove(c, !isX, l) ==> Final(c) == Final(Remove(c, !isX, l))
  {
    SmallestIs(Own(c, isX), k);
    SmallestIs(Own(c, !isX), l);
    assert XFirst(c) == isX;
    hide CanRemove, Sweep, SortBy, ShrinkOne, SmallestAt, IsSmallest;
  }

  /** With lines of one direction only, its smallest line is tried. */
  lemma LoneDeleted(c: Cover, isX: bool, k: nat)
    requires Own(c, !isX) == [] && IsSmallest(Own(c, isX), k) && CanRemove(c, isX, k)
    ensures Final(c) == Final(Remove(c, isX, k))
  {
    SmallestIs(Own(c, isX), k);
    var after := Remove(c, isX, k);
    hide CanRemove, Sweep, SortBy, SmallestAt, IsSmallest;
    assert ShrinkBoth(c) == c && ShrinkBoth(after) == after;
    assert TrySmallest(c, isX) == Some(after);
    assert ShrinkOne(c, isX) == ShrinkOne(after, isX);
    if !isX { assert ShrinkOne(c, true) == c && ShrinkOne(after, true) == after; }
  }

  // ----- when no smallest line may go -----

  ghost predicate Stuck(c: Cover, isX: bool) {
    forall k :: IsSmallest(Own(c, isX), k) ==> !CanRemove(c, isX, k)
  }

  ghost predicate Stalled(c: Cover) { Stuck(c, true) && Stuck(c, false) }

  ghost predicate MayGo(c: Cover, isX: bool, t: Track) {
    AllShared(c, t) && !(|Own(c, isX)| <= 1 && |Own(c, !isX)| > 1)
  }

  lemma StuckTries(c: Cover, isX: bool)
    requires Stuck(c, isX) && Own(c, isX) != []
    ensures TrySmallest(c, isX) == None
  {
    SmallestAtIsSmallest(Own(c, isX));
    assert IsSmallest(Own(c, isX), SmallestAt(Own(c, isX)));
  }

  lemma StalledFinal(c: Cover)
    requires Stalled(c)
    ensures var swept := Sweep(c, true, SortBy(c.x, TRACK_SIZE));
      Final(c) == Sweep(swept, false, SortBy(swept.y, TRACK_SIZE))
  {
    if c.x != [] { StuckTries(c, true); }
    if c.y != [] { StuckTries(c, false); }
    hide TrySmallest, Sweep, SortBy, Stuck;
  }

  lemma RefusedTry(c: Cover, isX: bool, t: Track)
    requires Dims(c) && t in Own(c, isX)
    ensures !MayGo(c, isX, t) ==> TryDim(c, isX, t.dim) == c
    ensures MayGo(c, isX, t) ==> t !in Own(TryDim(c, isX, t.dim), isX)
  {
    var ts := Own(c, isX);
    var k :| 0 <= k < |ts| && ts[k] == t;
    FindIs(ts, k);
    DistinctRemoved(ts, k);
    hide AllShared, Find;
  }

  /** As long as no line listed may go, nothing goes. */
  lemma {:induction false} SweepIdle(c: Cover, isX: bool, order: seq<Track>)
    requires Dims(c) && forall q :: 0 <= q < |order| ==> order[q] in Own(c, isX) && !MayGo(c, isX, order[q])
    ensures Sweep(c, isX, order) == c
  {
    hide MayGo, Dims, TryDim;
    if order != [] {
      SweepIdle(c, isX, order[..|order| - 1]);
      RefusedTry(c, isX, order[|order| - 1]);
    }
  }

  /** The first listed line that may go goes. */
  lemma {:induction false} SweepDeletes(c: Cover, isX: bool, order: seq<Track>, p: nat)
    requires Dims(c) && p < |order| && (forall q :: 0 <= q <= p ==> order[q] in Own(c, isX))
    requires MayGo(c, isX, order[p]) && forall q :: 0 <= q < p ==> !MayGo(c, isX, order[q])
    ensures order[p] !in Own(Sweep(c, isX, order), isX)
    decreases |order|
  {
    hide MayGo, Dims, TryDim, Shrinks;
    var n := |order| - 1;
    var before := Sweep(c, isX, order[..n]);
    if p == n {
      SweepIdle(c, isX, order[..n]);
      RefusedTry(c, isX, order[n]);
    } else {
      SweepDeletes(c, isX, order[..n], p);
      TryDimShrinks(before, isX, order[n].dim);
      ShrinksMembers(before, TryDim(before, isX, order[n].dim), isX);
    }
  }

  /** When the smallest lines stay, the lines are tried by size, those of one size in their order: all x lines, then
      all y lines. The first that may go goes. */
  lemma FirstSwept(c: Cover, isX: bool, p: nat)
    requires Dims(c) && Stalled(c) && p < |Own(c, isX)|
    requires var order := SortBy(Own(c, isX), TRACK_SIZE);
      MayGo(c, isX, order[p]) && forall q :: 0 <= q < p ==> !MayGo(c, isX, order[q])
    requires !isX ==> forall t :: t in c.x ==> !MayGo(c, true, t)
    ensures SortBy(Own(c, isX), TRACK_SIZE)[p] !in Own(Final(c), isX)
    ensures !isX ==> Final(c).x == c.x
  {
    hide MayGo, Dims, Shrinks, Sweep, SortBy, Stalled, Final;
    StalledFinal(c);
    var xs, order := SortBy(c.x, TRACK_SIZE), SortBy(Own(c, isX), TRACK_SIZE);
    SortedMembers(c.x);
    SortedMembers(Own(c, isX));
    var swept := Sweep(c, true, xs);
    if isX {
      forall q | 0 <= q <= p ensures order[q] in Own(c, true) { assert order[q] in order; }
      SweepDeletes(c, true, order, p);
      SweepShrinks(swept, false, SortBy(swept.y, TRACK_SIZE));
      ShrinksMembers(swept, Final(c), true);
    } else {
      forall q | 0 <= q < |xs| ensures xs[q] in Own(c, true) && !MayGo(c, true, xs[q]) { assert xs[q] in xs; }
      SweepIdle(c, true, xs);
      forall q | 0 <= q <= p ensures order[q] in Own(c, false) { assert order[q] in order; }
      SweepDeletes(c, false, order, p);
      SweepOther(c, false, order);
    }
  }

  /** Sweeping one direction leaves the other. */
  lemma {:induction false} SweepOther(c: Cover, isX: bool, order: seq<Track>)
    ensures Own(Sweep(c, isX, order), !isX) == Own(c, !isX)
  {
    if order != [] {
      SweepOther(c, isX, order[..|order| - 1]);
      TryOther(Sweep(c, isX, order[..|order| - 1]), isX, order[|order| - 1].dim);
      hide TryDim;
    }
  }

  lemma TryOther(c: Cover, isX: bool, dim: int)
    ensures Own(TryDim(c, isX, dim), !isX) == Own(c, !isX)
  {
    hide CanRemove, Find;
  }
}
