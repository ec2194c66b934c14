/** The greedy line deletion of utils/lib/rr_graph/points.py, on any family of x lines and y
    lines: how it picks lines, when it may delete one, and what the whole run keeps. */
module LineCover {
  import opened Sequences

  /** A line: its fixed coordinate and the points it holds, as positions in the point list. */
  datatype Track = Track(dim: int, points: seq<nat>)

  /** The surviving x lines and y lines, in dictionary order. */
  datatype Cover = Cover(x: seq<Track>, y: seq<Track>)

  const TRACK_SIZE: Track -> int := (t: Track) => |t.points|

  predicate HoldsPoint(t: Track, i: nat) { exists j :: 0 <= j < |t.points| && t.points[j] == i }

  /** How many of the lines hold point i. */
  function Through(ts: seq<Track>, i: nat): nat {
    if ts == [] then 0
    else Through(ts[..|ts| - 1], i) + (if HoldsPoint(ts[|ts| - 1], i) then 1 else 0)
  }

  /** How many surviving lines hold point i: the value the source keeps in Point.tracks. */
  function Load(c: Cover, i: nat): nat { Through(c.x, i) + Through(c.y, i) }

  function Own(c: Cover, isX: bool): seq<Track> { if isX then c.x else c.y }

  predicate AllShared(c: Cover, t: Track) {
    forall j :: 0 <= j < |t.points| ==> Load(c, t.points[j]) > 1
  }

  /** A line may go if each of its points is on another line, and if it would not leave its
      direction empty next to several lines of the other. */
  predicate CanRemove(c: Cover, isX: bool, k: nat)
    requires k < |Own(c, isX)|
  {
    AllShared(c, Own(c, isX)[k]) && !(|Own(c, isX)| <= 1 && |Own(c, !isX)| > 1)
  }

  function Remove(c: Cover, isX: bool, k: nat): Cover
    requires k < |Own(c, isX)|
  {
    if isX then Cover(RemoveAt(c.x, k), c.y) else Cover(c.x, RemoveAt(c.y, k))
  }

  /** The first line with the fewest points. */
  function SmallestAt(ts: seq<Track>): (k: nat)
    requires ts != []
    ensures k < |ts|
  {
    var n := |ts| - 1;
    if n == 0 then 0
    else
      var k := SmallestAt(ts[..n]);
      if |ts[n].points| < |ts[k].points| then n else k
  }

  lemma {:induction false} SmallestAtIsSmallest(ts: seq<Track>)
    requires ts != []
    ensures forall j :: 0 <= j < |ts| ==> |ts[SmallestAt(ts)].points| <= |ts[j].points|
    ensures forall j :: 0 <= j < SmallestAt(ts) ==> |ts[SmallestAt(ts)].points| < |ts[j].points|
  {
    if |ts| > 1 { SmallestAtIsSmallest(ts[..|ts| - 1]); }
  }

  /** Deletes the smallest line of one direction if it may go. */
  function TrySmallest(c: Cover, isX: bool): (r: Option<Cover>)
    requires Own(c, isX) != []
    ensures r.Some? ==> |r.value.x| + |r.value.y| < |c.x| + |c.y|
  {
    var k := SmallestAt(Own(c, isX));
    if CanRemove(c, isX, k) then Some(Remove(c, isX, k)) else None
  }

  /** Which direction offers the smaller line; ties go to y. */
  predicate XFirst(c: Cover)
    requires c.x != [] && c.y != []
  {
    |c.x[SmallestAt(c.x)].points| < |c.y[SmallestAt(c.y)].points|
  }

  /** First loop: while both directions have lines, delete the smaller of the two smallest, or
      else the other. */
  function ShrinkBoth(c: Cover): Cover
    decreases |c.x| + |c.y|
  {
    if c.x == [] || c.y == [] then c
    else
      var first := TrySmallest(c, XFirst(c));
      if first.Some? then ShrinkBoth(first.value)
      else
        var second := TrySmallest(c, !XFirst(c));
        if second.Some? then ShrinkBoth(second.value) else c
  }

  /** Second and third loop: delete the smallest line of one direction while it may go. */
  function ShrinkOne(c: Cover, isX: bool): Cover
    decreases |c.x| + |c.y|
  {
    if Own(c, isX) == [] then c
    else
      var next := TrySmallest(c, isX);
      if next.Some? then ShrinkOne(next.value, isX) else c
  }

  /** Where a line with this coordinate stands; the length if there is none. */
  function Find(ts: seq<Track>, dim: int): (k: nat)
    ensures k <= |ts|
    ensures k < |ts| ==> ts[k].dim == dim
  {
    if ts == [] then 0 else if ts[0].dim == dim then 0 else 1 + Find(ts[1..], dim)
  }

  function TryDim(c: Cover, isX: bool, dim: int): Cover {
    var k := Find(Own(c, isX), dim);
    if k < |Own(c, isX)| && CanRemove(c, isX, k) then Remove(c, isX, k) else c
  }

  /** Last loop: try every listed line of one direction once. */
  function Sweep(c: Cover, isX: bool, order: seq<Track>): Cover {
    if order == [] then c
    else TryDim(Sweep(c, isX, order[..|order| - 1]), isX, order[|order| - 1].dim)
  }

  /** The whole deletion. */
  function Final(c: Cover): Cover {
    var shrunk := ShrinkOne(ShrinkOne(ShrinkBoth(c), true), false);
    var swept := Sweep(shrunk, true, SortBy(shrunk.x, TRACK_SIZE));
    Sweep(swept, false, SortBy(swept.y, TRACK_SIZE))
  }

  // ----- what one deletion keeps -----

  lemma {:induction false} ThroughRemoved(ts: seq<Track>, k: nat, i: nat)
    requires k < |ts|
    ensures Through(ts, i) == Through(RemoveAt(ts, k), i) + (if HoldsPoint(ts[k], i) then 1 else 0)
  {
    var n := |ts| - 1;
    if k == n {
      assert RemoveAt(ts, k) == ts[..n];
    } else {
      ThroughRemoved(ts[..n], k, i);
      assert RemoveAt(ts, k) == RemoveAt(ts[..n], k) + [ts[n]];
      assert RemoveAt(ts, k)[..n - 1] == RemoveAt(ts[..n], k);
    }
  }

  lemma LoadRemoved(c: Cover, isX: bool, k: nat, i: nat)
    requires k < |Own(c, isX)|
    ensures Load(c, i) == Load(Remove(c, isX, k), i) + (if HoldsPoint(Own(c, isX)[k], i) then 1 else 0)
  {
    ThroughRemoved(Own(c, isX), k, i);
  }

  ghost predicate Balanced(c: Cover) {
    (c.x == [] ==> |c.y| <= 1) && (c.y == [] ==> |c.x| <= 1)
  }

  /** `after` comes from `before` by allowed deletions: no line is new, no point falls off its
      last line, no load grows, and balance is kept. */
  ghost predicate Shrinks(before: Cover, after: Cover) {
    && (forall t :: t in after.x ==> t in before.x) && |after.x| <= |before.x|
    && (forall t :: t in after.y ==> t in before.y) && |after.y| <= |before.y|
    && (forall i :: Load(after, i) <= Load(before, i))
    && (forall i :: Load(before, i) >= 1 ==> Load(after, i) >= 1)
    && (Balanced(before) ==> Balanced(after))
  }

  lemma ShrinksTrans(a: Cover, b: Cover, c: Cover)
    requires Shrinks(a, b) && Shrinks(b, c)
    ensures Shrinks(a, c)
  {
    hide Load, Balanced;
  }

  lemma RemoveShrinks(c: Cover, isX: bool, k: nat)
    requires k < |Own(c, isX)| && CanRemove(c, isX, k)
    ensures Shrinks(c, Remove(c, isX, k))
  {
    hide Through;
    forall i ensures Load(Remove(c, isX, k), i) <= Load(c, i)
             ensures Load(c, i) >= 1 ==> Load(Remove(c, isX, k), i) >= 1
    {
      LoadRemoved(c, isX, k, i);
    }
  }

  lemma {:induction false} ShrinkBothShrinks(c: Cover)
    ensures Shrinks(c, ShrinkBoth(c))
    decreases |c.x| + |c.y|
  {
    hide Shrinks, CanRemove;
    ShrinksRefl(c);
    if c.x != [] && c.y != [] {
      var first, second := TrySmallest(c, XFirst(c)), TrySmallest(c, !XFirst(c));
      if first.Some? {
        RemoveShrinks(c, XFirst(c), SmallestAt(Own(c, XFirst(c))));
        ShrinkBothShrinks(first.value);
        ShrinksTrans(c, first.value, ShrinkBoth(c));
      } else if second.Some? {
        RemoveShrinks(c, !XFirst(c), SmallestAt(Own(c, !XFirst(c))));
        ShrinkBothShrinks(second.value);
        ShrinksTrans(c, second.value, ShrinkBoth(c));
      }
    }
  }

  lemma ShrinksRefl(c: Cover)
    ensures Shrinks(c, c)
  {
  }

  lemma {:induction false} ShrinkOneShrinks(c: Cover, isX: bool)
    ensures Shrinks(c, ShrinkOne(c, isX))
    decreases |c.x| + |c.y|
  {
    hide Shrinks, CanRemove;
    ShrinksRefl(c);
    if Own(c, isX) != [] {
      var next := TrySmallest(c, isX);
      if next.Some? {
        RemoveShrinks(c, isX, SmallestAt(Own(c, isX)));
        ShrinkOneShrinks(next.value, isX);
        ShrinksTrans(c, next.value, ShrinkOne(c, isX));
      }
    }
  }

  lemma {:induction false} SweepShrinks(c: Cover, isX: bool, order: seq<Track>)
    ensures Shrinks(c, Sweep(c, isX, order))
  {
    hide Shrinks, CanRemove;
    ShrinksRefl(c);
    if order != [] {
      var before := Sweep(c, isX, order[..|order| - 1]);
      SweepShrinks(c, isX, order[..|order| - 1]);
      TryDimShrinks(before, isX, order[|order| - 1].dim);
      ShrinksTrans(c, before, Sweep(c, isX, order));
    }
  }

  lemma TryDimShrinks(c: Cover, isX: bool, dim: int)
    ensures Shrinks(c, TryDim(c, isX, dim))
  {
    ShrinksRefl(c);
    var k := Find(Own(c, isX), dim);
    if k < |Own(c, isX)| && CanRemove(c, isX, k) { RemoveShrinks(c, isX, k); }
  }

  /** The deletion as a whole: points stay covered, counters only fall, and a direction is left
      empty only beside a single line of the other. */
  lemma FinalShrinks(c: Cover)
    ensures Shrinks(c, Final(c))
  {
    hide Shrinks, ShrinkOne, ShrinkBoth, Sweep, SortBy;
    var c1 := ShrinkBoth(c);
    var c2 := ShrinkOne(c1, true);
    var c3 := ShrinkOne(c2, false);
    var c4 := Sweep(c3, true, SortBy(c3.x, TRACK_SIZE));
    ShrinkBothShrinks(c);
    ShrinkOneShrinks(c1, true);
    ShrinkOneShrinks(c2, false);
    SweepShrinks(c3, true, SortBy(c3.x, TRACK_SIZE));
    SweepShrinks(c4, false, SortBy(c4.y, TRACK_SIZE));
    ShrinksTrans(c, c1, c2);
    ShrinksTrans(c, c2, c3);
    ShrinksTrans(c, c3, c4);
    ShrinksTrans(c, c4, Final(c));
  }

  // ----- no line that is left could still go -----

  ghost predicate DistinctDims(ts: seq<Track>) {
    forall i, j :: 0 <= i < j < |ts| ==> ts[i].dim != ts[j].dim
  }

  ghost predicate Dims(c: Cover) { DistinctDims(c.x) && DistinctDims(c.y) }

  /** Alone in its direction, or holding a point that no other line holds. */
  ghost predicate Refused(c: Cover, isX: bool, t: Track) {
    |Own(c, isX)| <= 1 || exists j :: 0 <= j < |t.points| && Load(c, t.points[j]) <= 1
  }

  lemma RefusedStays(before: Cover, after: Cover, isX: bool, t: Track)
    requires Shrinks(before, after) && Refused(before, isX, t)
    ensures Refused(after, isX, t)
  {
    hide Load;
    if |Own(before, isX)| > 1 {
      var j :| 0 <= j < |t.points| && Load(before, t.points[j]) <= 1;
      assert Load(after, t.points[j]) <= 1;
    }
  }

  lemma {:induction false} FindIs(ts: seq<Track>, k: nat)
    requires DistinctDims(ts) && k < |ts|
    ensures Find(ts, ts[k].dim) == k
  {
    if k > 0 { FindIs(ts[1..], k - 1); }
  }

  lemma TryDimRefuses(c: Cover, isX: bool, t: Track)
    requires Dims(c)
    ensures Dims(TryDim(c, isX, t.dim))
    ensures t in Own(TryDim(c, isX, t.dim), isX) ==> t in Own(c, isX) && Refused(c, isX, t)
  {
    hide Load, AllShared;
    var ts := Own(c, isX);
    var at := Find(ts, t.dim);
    if at < |ts| {
      DistinctRemoved(ts, at);
    }
    if t in ts {
      var k :| 0 <= k < |ts| && ts[k] == t;
      FindIs(ts, k);
      if !CanRemove(c, isX, k) { RefusedNow(c, isX, k); }
    }
  }

  lemma DistinctRemoved(ts: seq<Track>, k: nat)
    requires DistinctDims(ts) && k < |ts|
    ensures DistinctDims(RemoveAt(ts, k))
    ensures forall t :: t in RemoveAt(ts, k) ==> t in ts && t.dim != ts[k].dim
  {
  }

  lemma RefusedNow(c: Cover, isX: bool, k: nat)
    requires k < |Own(c, isX)| && !CanRemove(c, isX, k)
    ensures Refused(c, isX, Own(c, isX)[k])
  {
    hide Load;
  }

  lemma {:induction false} SweepRefuses(c: Cover, isX: bool, order: seq<Track>)
    requires Dims(c)
    ensures Dims(Sweep(c, isX, order))
    ensures forall t :: t in order && t in Own(Sweep(c, isX, order), isX) ==> Refused(Sweep(c, isX, order), isX, t)
  {
    if order != [] {
      hide Shrinks, Refused, TryDim, Dims;
      var n := |order| - 1;
      var before, after := Sweep(c, isX, order[..n]), Sweep(c, isX, order);
      SweepRefuses(c, isX, order[..n]);
      TryDimShrinks(before, isX, order[n].dim);
      ShrinksMembers(before, after, isX);
      TryDimRefuses(before, isX, order[n]);
      forall t | t in order && t in Own(after, isX) ensures Refused(after, isX, t) {
        assert t == order[n] || t in order[..n];
        RefusedStays(before, after, isX, t);
      }
    }
  }

  lemma ShrinksMembers(before: Cover, after: Cover, isX: bool)
    requires Shrinks(before, after)
    ensures forall t :: t in Own(after, isX) ==> t in Own(before, isX)
  {
  }

  lemma RemoveDims(c: Cover)
    requires Dims(c)
    ensures forall isX: bool, k: nat :: k < |Own(c, isX)| ==> Dims(Remove(c, isX, k))
  {
    forall isX: bool, k: nat | k < |Own(c, isX)| ensures Dims(Remove(c, isX, k)) {
      DistinctRemoved(Own(c, isX), k);
    }
  }

  lemma {:induction false} ShrinkBothDims(c: Cover)
    requires Dims(c)
    ensures Dims(ShrinkBoth(c))
    decreases |c.x| + |c.y|
  {
    hide CanRemove, DistinctDims;
    RemoveDims(c);
    if c.x != [] && c.y != [] {
      var first, second := TrySmallest(c, XFirst(c)), TrySmallest(c, !XFirst(c));
      if first.Some? {
        ShrinkBothDims(first.value);
      } else if second.Some? {
        ShrinkBothDims(second.value);
      }
    }
  }

  lemma {:induction false} ShrinkOneDims(c: Cover, isX: bool)
    requires Dims(c)
    ensures Dims(ShrinkOne(c, isX))
    decreases |c.x| + |c.y|
  {
    hide CanRemove, DistinctDims;
    RemoveDims(c);
    if Own(c, isX) != [] {
      var next := TrySmallest(c, isX);
      if next.Some? { ShrinkOneDims(next.value, isX); }
    }
  }

  /** The result has no line to spare: each surviving line is the only one left in its direction
      or holds a point that no other surviving line holds. */
  lemma FinalIrredundant(c: Cover)
    requires Dims(c)
    ensures Dims(Final(c))
    ensures forall isX, t :: t in Own(Final(c), isX) ==> Refused(Final(c), isX, t)
  {
    hide Shrinks, ShrinkOne, ShrinkBoth, Sweep, SortBy, Refused, Dims;
    ShrinkBothDims(c);
    ShrinkOneDims(ShrinkBoth(c), true);
    ShrinkOneDims(ShrinkOne(ShrinkBoth(c), true), false);
    var c3 := ShrinkOne(ShrinkOne(ShrinkBoth(c), true), false);
    var c4 := Sweep(c3, true, SortBy(c3.x, TRACK_SIZE));
    SweepRefuses(c3, true, SortBy(c3.x, TRACK_SIZE));
    SweepRefuses(c4, false, SortBy(c4.y, TRACK_SIZE));
    SweepShrinks(c3, true, SortBy(c3.x, TRACK_SIZE));
    SweepShrinks(c4, false, SortBy(c4.y, TRACK_SIZE));
    ShrinksMembers(c3, c4, true);
    ShrinksMembers(c4, Final(c), true);
    ShrinksMembers(c4, Final(c), false);
    SortedMembers(c3.x);
    SortedMembers(c4.y);
    forall t | t in Final(c).x ensures Refused(Final(c), true, t) {
      assert t in Own(Final(c), true);
      assert t in Own(c4, true);
      assert t in Own(c3, true);
      assert t in SortBy(c3.x, TRACK_SIZE);
      RefusedStays(c4, Final(c), true, t);
    }
  }

  lemma SortedMembers(ts: seq<Track>)
    ensures forall t :: t in ts <==> t in SortBy(ts, TRACK_SIZE)
  {
    SortByProperties(ts, TRACK_SIZE);
    SameMembers(ts, SortBy(ts, TRACK_SIZE));
  }

  lemma {:induction false} ThroughMember(ts: seq<Track>, t: Track, i: nat)
    requires t in ts && HoldsPoint(t, i)
    ensures Through(ts, i) >= 1
  {
    var n := |ts| - 1;
    if ts[n] != t { ThroughMember(ts[..n], t, i); }
  }

  lemma {:induction false} ThroughWitness(ts: seq<Track>, i: nat)
    ensures Through(ts, i) >= 1 ==> exists t :: t in ts && HoldsPoint(t, i)
  {
    var n := |ts| - 1;
    if Through(ts, i) >= 1 && !HoldsPoint(ts[n], i) { ThroughWitness(ts[..n], i); }
  }
}
