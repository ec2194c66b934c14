/** The Tracks class of utils/lib/rr_graph/tracks.py: the connectivity check by merging shared
    sets, and the cached attachment query; then the whole way from points to attachments. */
module TracksClass {
  import opened Sequences
  import opened Reachability
  import opened LineCover
  import opened Points
  import opened PointsClass
  import opened Tracks

  // ----- what it means for tracks to be connected -----

  ghost predicate Joined(links: seq<Link>, a: NodeId, b: NodeId) {
    exists i :: 0 <= i < |links| && ((NodeId(links[i].0) == a && NodeId(links[i].1) == b)
      || (NodeId(links[i].0) == b && NodeId(links[i].1) == a))
  }

  function Ends(links: seq<Link>): set<NodeId> {
    (set l | l in links :: NodeId(l.0)) + (set l | l in links :: NodeId(l.1))
  }

  /** The links as a graph with edges both ways. */
  ghost function Net(links: seq<Link>): Digraph {
    map a | a in Ends(links) :: set b | b in Ends(links) && Joined(links, a, b)
  }

  lemma NetSteps(links: seq<Link>, a: NodeId, b: NodeId)
    ensures Step(Net(links), a, b) <==> Joined(links, a, b)
  {
    if Joined(links, a, b) {
      var i :| 0 <= i < |links| && ((NodeId(links[i].0) == a && NodeId(links[i].1) == b)
        || (NodeId(links[i].0) == b && NodeId(links[i].1) == a));
      assert links[i] in links;
    }
  }

  ghost predicate SameNet(links: seq<Link>, i: nat, j: nat) {
    Reaches(Net(links), NodeId(i), NodeId(j))
  }

  ghost predicate OneNet(n: nat, links: seq<Link>) {
    n >= 1 && forall i, j :: 0 <= i < n && 0 <= j < n ==> SameNet(links, i, j)
  }

  /** Some link would merge two nets of tracks that run in the same direction. */
  ghost predicate Clashes(wires: seq<Wire>, links: seq<Link>)
    requires LinksFit(links, |wires|)
  {
    exists k :: 0 <= k < |links| && ClashAt(wires, links, k)
  }

  ghost predicate ClashAt(wires: seq<Wire>, links: seq<Link>, k: nat)
    requires LinksFit(links, |wires|) && k < |links|
  {
    wires[links[k].0].axis == wires[links[k].1].axis && !SameNet(links[..k], links[k].0, links[k].1)
  }

  ghost predicate LinksFit(links: seq<Link>, n: nat) {
    forall i :: 0 <= i < |links| ==> links[i].0 < n && links[i].1 < n
  }

  // ----- verify_tracks -----

  /** A set of track indices, shared by all its members. */
  class IndexSet {
    var members: set<nat>

    constructor (i: nat)
      ensures members == {i}
    {
      members := {i};
    }
  }

  /** Every index is in the set it points to, and a set's members are those pointing to it. */
  ghost predicate Partition(sets: seq<IndexSet>)
    reads sets
  {
    forall i :: 0 <= i < |sets| ==> sets[i].members == PointingTo(sets, sets[i])
  }

  ghost function PointingTo(sets: seq<IndexSet>, s: IndexSet): set<nat> {
    set j: nat | j < |sets| && sets[j] == s
  }

  ghost predicate Agree(sets: seq<IndexSet>, links: seq<Link>) {
    forall i :: 0 <= i < |links| && links[i].0 < |sets| && links[i].1 < |sets| ==> sets[links[i].0] == sets[links[i].1]
  }

  ghost predicate Justified(sets: seq<IndexSet>, links: seq<Link>) {
    forall i, j :: 0 <= i < |sets| && 0 <= j < |sets| && sets[i] == sets[j] ==> SameNet(links, i, j)
  }

  /** Indices in one net end up pointing to one set. */
  lemma NetWithinSet(sets: seq<IndexSet>, links: seq<Link>, i: nat, j: nat)
    requires LinksFit(links, |sets|) && Agree(sets, links)
    requires i < |sets| && j < |sets| && SameNet(links, i, j)
    ensures sets[i] == sets[j]
  {
    var closed := set k | 0 <= k < |sets| && sets[k] == sets[i] :: NodeId(k);
    forall u, v | u in closed && Step(Net(links), u, v) ensures v in closed {
      NetSteps(links, u, v);
    }
    ClosedReaches(Net(links), closed, NodeId(i));
    assert NodeId(j) in closed;
  }

  /** Adding a link keeps every net and joins the nets of its two ends. */
  lemma NetGrows(links: seq<Link>, l: Link, i: nat, j: nat)
    ensures SameNet(links, i, j) ==> SameNet(links + [l], i, j)
    ensures SameNet(links, i, l.0) && SameNet(links, l.1, j) ==>
      SameNet(links + [l], i, j) && SameNet(links + [l], j, i)
  {
    var after := links + [l];
    forall a, b ensures Step(Net(links), a, b) ==> Step(Net(after), a, b) {
      NetSteps(links, a, b);
      NetSteps(after, a, b);
      if Joined(links, a, b) {
        var k :| 0 <= k < |links| && ((NodeId(links[k].0) == a && NodeId(links[k].1) == b)
          || (NodeId(links[k].0) == b && NodeId(links[k].1) == a));
        assert after[k] == links[k];
      }
    }
    if SameNet(links, i, j) { ReachesMore(Net(links), Net(after), NodeId(i), NodeId(j)); }
    if SameNet(links, i, l.0) && SameNet(links, l.1, j) {
      ReachesMore(Net(links), Net(after), NodeId(i), NodeId(l.0));
      ReachesMore(Net(links), Net(after), NodeId(l.1), NodeId(j));
      assert after[|links|] == l;
      NetSteps(after, NodeId(l.0), NodeId(l.1));
      ReachesSelf(Net(after), NodeId(l.0));
      ReachesStep(Net(after), NodeId(l.0), NodeId(l.0), NodeId(l.1));
      ReachesTrans(Net(after), NodeId(i), NodeId(l.0), NodeId(l.1));
      ReachesTrans(Net(after), NodeId(i), NodeId(l.1), NodeId(j));
      NetSymmetric(after, i, j);
    }
  }

  lemma NetSymmetric(links: seq<Link>, i: nat, j: nat)
    requires SameNet(links, i, j)
    ensures SameNet(links, j, i)
  {
    forall a, b ensures Step(Net(links), a, b) <==> Step(Net(links), b, a) {
      NetSteps(links, a, b);
      NetSteps(links, b, a);
    }
    ReversedReaches(Net(links), Net(links), NodeId(i), NodeId(j));
  }

  lemma Singletons(sets: seq<IndexSet>)
    requires Distinct(sets) && forall k :: 0 <= k < |sets| ==> sets[k].members == {k}
    ensures Partition(sets) && Justified(sets, [])
  {
    forall i | 0 <= i < |sets| ensures sets[i].members == PointingTo(sets, sets[i]) {
      assert PointingTo(sets, sets[i]) == {i};
    }
    forall i, j | 0 <= i < |sets| && 0 <= j < |sets| && sets[i] == sets[j] ensures SameNet([], i, j) {
      ReachesSelf(Net([]), NodeId(i));
    }
  }

  lemma StayJustified(sets: seq<IndexSet>, links: seq<Link>, l: Link)
    requires Agree(sets, links) && Justified(sets, links)
    requires l.0 < |sets| && l.1 < |sets| && sets[l.0] == sets[l.1]
    ensures Agree(sets, links + [l]) && Justified(sets, links + [l])
  {
    forall i, j | 0 <= i < |sets| && 0 <= j < |sets| && sets[i] == sets[j] ensures SameNet(links + [l], i, j) {
      NetGrows(links, l, i, j);
    }
  }

  lemma MergeJustified(sets: seq<IndexSet>, after: seq<IndexSet>, links: seq<Link>, l: Link)
    requires Agree(sets, links) && Justified(sets, links)
    requires l.0 < |sets| && l.1 < |sets| && |after| == |sets|
    requires forall i :: 0 <= i < |sets| ==> after[i] == if sets[i] == sets[l.1] then sets[l.0] else sets[i]
    ensures Agree(after, links + [l]) && Justified(after, links + [l])
  {
    forall i, j | 0 <= i < |after| && 0 <= j < |after| && after[i] == after[j] ensures SameNet(links + [l], i, j) {
      NetGrows(links, l, i, j);
      NetGrows(links, l, j, i);
    }
  }

  lemma OneObject(sets: seq<IndexSet>)
    ensures |set s | s in sets| == 1 <==> sets != [] && forall i :: 0 <= i < |sets| ==> sets[i] == sets[0]
  {
    var objects := set s | s in sets;
    if sets != [] {
      assert sets[0] in objects;
      if forall i :: 0 <= i < |sets| ==> sets[i] == sets[0] {
        assert objects == {sets[0]};
      }
      if |objects| == 1 {
        forall i | 0 <= i < |sets| ensures sets[i] == sets[0] {
          assert sets[i] in objects && {sets[0]} <= objects;
          SubsetSameSize({sets[0]}, objects);
        }
      }
    }
  }

  /** Merges the set of b into the set of a and repoints its members. */
  method Merge(sets: seq<IndexSet>, a: nat, b: nat) returns (after: seq<IndexSet>)
    requires Partition(sets) && a < |sets| && b < |sets|
    modifies sets[a]
    ensures Partition(after) && |after| == |sets|
    ensures forall i :: 0 <= i < |sets| ==>
      after[i] == if sets[i] == sets[b] then sets[a] else sets[i]
  {
    var target := sets[a];
    assert target.members == PointingTo(sets, target) && sets[b].members == PointingTo(sets, sets[b]);
    target.members := target.members + sets[b].members;
    after := sets;
    for i := 0 to |sets|
      invariant |after| == |sets|
      invariant forall k :: 0 <= k < |sets| ==>
        after[k] == if k < i && sets[k] == sets[b] then target else sets[k]
    {
      if i in target.members {
        after := after[i := target];
      }
    }
    assert PointingTo(after, target) == PointingTo(sets, target) + PointingTo(sets, sets[b]);
    forall i | 0 <= i < |after| && after[i] != target ensures after[i].members == PointingTo(after, after[i]) {
      assert PointingTo(after, after[i]) == PointingTo(sets, after[i]);
      assert sets[i].members == PointingTo(sets, sets[i]);
    }
  }

  /** Accepts exactly when no link merges two nets of like direction and one net is left. */
  method VerifyTracks(wires: seq<Wire>, links: seq<Link>) returns (ok: bool)
    requires LinksFit(links, |wires|)
    ensures ok <==> !Clashes(wires, links) && OneNet(|wires|, links)
  {
    var sets: seq<IndexSet> := [];
    for i := 0 to |wires|
      invariant |sets| == i && fresh(sets) && Distinct(sets)
      invariant forall k :: 0 <= k < i ==> sets[k].members == {k}
    {
      var s := new IndexSet(i);
      sets := sets + [s];
    }
    Singletons(sets);
    assert links[..0] == [];
    for i := 0 to |links|
      invariant |sets| == |wires| && fresh(sets) && Partition(sets)
      invariant Agree(sets, links[..i]) && Justified(sets, links[..i])
      invariant forall k :: 0 <= k < i ==> !ClashAt(wires, links, k)
    {
      var a, b := links[i].0, links[i].1;
      assert links[..i + 1] == links[..i] + [links[i]];
      if sets[a] == sets[b] {
        StayJustified(sets, links[..i], links[i]);
        continue;
      }
      if wires[a].axis == wires[b].axis {
        if SameNet(links[..i], a, b) { NetWithinSet(sets, links[..i], a, b); }
        assert ClashAt(wires, links, i);
        return false;
      }
      ghost var before := sets;
      sets := Merge(sets, a, b);
      MergeJustified(before, sets, links[..i], links[i]);
    }
    assert links[..|links|] == links;
    var objects := set s | s in sets;
    OneObject(sets);
    ok := |objects| == 1;
    if ok {
      forall i, j | 0 <= i < |wires| && 0 <= j < |wires| ensures SameNet(links, i, j) {}
    } else if OneNet(|wires|, links) {
      forall i | 0 <= i < |sets| ensures sets[i] == sets[0] { NetWithinSet(sets, links, i, 0); }
      assert false;
    }
  }

  // ----- the model and its cache -----

  class TrackModel {
    const tracks: seq<Wire>
    const links: seq<Link>
    var cache: map<Coord, Attachments>

    /** Every cached answer is what a fresh computation gives. */
    ghost predicate Valid()
      reads this
    {
      forall c :: c in cache ==> cache[c] == AttachmentsAt(tracks, c)
    }

    constructor (tracks: seq<Wire>, links: seq<Link>)
      ensures Valid() && this.tracks == tracks && this.links == links
    {
      this.tracks, this.links, cache := tracks, links, map[];
    }

    method GetTracksForWireAtCoord(c: Coord) returns (r: Attachments)
      requires Valid()
      modifies this
      ensures Valid() && r == AttachmentsAt(tracks, c)
      ensures IsAnswer(tracks, c, r)
      ensures cache == old(cache)[c := r]
    {
      AttachmentsAnswer(tracks, c);
      hide IsAnswer;
      if c in cache {
        r := cache[c];
      } else {
        r := map[];
        for i := 0 to |tracks|
          invariant r == AttachmentsAt(tracks[..i], c)
        {
          assert tracks[..i + 1][..i] == tracks[..i];
          var side := AdjacentSide(tracks[i], c);
          if side != NoSide { r := r[side := i]; }
        }
        assert tracks[..|tracks|] == tracks;
        cache := cache[c := r];
      }
    }
  }

  // ----- from points to attachments -----

  /** A track built along a line that holds a point is adjacent to that point. */
  lemma WireServes(coords: seq<Coord>, lim: Limits, isX: bool, i: nat, d: int)
    requires i < |coords|
    requires LineHolds(lim, FrameOf(coords, lim), isX, coords[i], d)
    ensures isX ==> AdjacentSide(WireAlongY(coords, lim.height, d), coords[i]) != NoSide
    ensures !isX ==> AdjacentSide(WireAlongX(coords, lim.width, d), coords[i]) != NoSide
  {
    hide MinOf, MaxOf, FrameOf;
    WireBeside(coords, lim, i, d);
  }

  /** The same for a line on or beside a point where the point may use it, whatever the frame. */
  lemma WireBeside(coords: seq<Coord>, lim: Limits, i: nat, d: int)
    requires i < |coords|
    ensures OnXTrack(lim, coords[i]) && (d == coords[i].x || d == coords[i].x - 1) ==>
      AdjacentSide(WireAlongY(coords, lim.height, d), coords[i]) != NoSide
    ensures OnYTrack(lim, coords[i]) && (d == coords[i].y || d == coords[i].y - 1) ==>
      AdjacentSide(WireAlongX(coords, lim.width, d), coords[i]) != NoSide
  {
    hide MinOf, MaxOf;
    assert Xs(coords)[i] == coords[i].x && Ys(coords)[i] == coords[i].y;
  }

  function WiresFor(coords: seq<Coord>, lim: Limits): seq<Wire>
    requires coords != []
  {
    var r := Final(Start(coords, lim));
    Wires(DimsOf(r.x), DimsOf(r.y), coords, lim.width, lim.height)
  }

  /** A point that passes the closing sanity check on some lines has a track to attach to among those
      built along them. */
  lemma PointServed(coords: seq<Coord>, lim: Limits, xs: seq<int>, ys: seq<int>, i: nat)
    requires i < |coords| && OnSurvivor(lim, xs, ys, coords[i])
    ensures AttachmentsAt(Wires(xs, ys, coords, lim.width, lim.height), coords[i]) != map[]
  {
    var wires, p := Wires(xs, ys, coords, lim.width, lim.height), coords[i];
    var at: nat;
    if OnXTrack(lim, p) && ((p.x > 0 && p.x - 1 in xs) || p.x in xs) {
      at :| at < |xs| && (xs[at] == p.x || xs[at] == p.x - 1);
      WireBeside(coords, lim, i, xs[at]);
    } else {
      var k: nat :| k < |ys| && (ys[k] == p.y || ys[k] == p.y - 1);
      at := |xs| + k;
      assert wires[at] == WireAlongX(coords, lim.width, ys[k]);
      WireBeside(coords, lim, i, ys[k]);
    }
    hide AdjacentSide, Wires, OnSurvivor, WireAlongX, WireAlongY, MinOf, MaxOf;
    AttachmentSides(wires, p, AdjacentSide(wires[at], p));
  }

  /** A point that can use a line of one direction leaves room for lines of the other. */
  lemma FrameRoom(coords: seq<Coord>, lim: Limits, i: nat)
    requires i < |coords|
    ensures var f := FrameOf(coords, lim);
      (OnXTrack(lim, coords[i]) ==> f.yLow <= f.yHigh) && (OnYTrack(lim, coords[i]) ==> f.xLow <= f.xHigh)
  {
    hide MinOf, MaxOf;
    assert Xs(coords)[i] == coords[i].x && Ys(coords)[i] == coords[i].y;
  }

  lemma StartSizes(coords: seq<Coord>, lim: Limits)
    requires coords != []
    ensures var f := FrameOf(coords, lim);
      (Start(coords, lim).x != [] <==> f.xLow <= f.xHigh) && (Start(coords, lim).y != [] <==> f.yLow <= f.yHigh)
  {
    hide Held, Lines, FrameOf;
    var f := FrameOf(coords, lim);
    LinesAre(coords, lim, f, true, f.xLow, f.xHigh);
    LinesAre(coords, lim, f, false, f.yLow, f.yHigh);
  }

  /** Where a point passes the sanity check both directions had lines to begin with. */
  lemma BothStart(coords: seq<Coord>, lim: Limits, i: nat)
    requires i < |coords|
    requires var r := Final(Start(coords, lim)); OnSurvivor(lim, DimsOf(r.x), DimsOf(r.y), coords[i])
    ensures Start(coords, lim).x != [] && Start(coords, lim).y != []
  {
    var r := Final(Start(coords, lim));
    FrameRoom(coords, lim, i);
    StartSizes(coords, lim);
    FinalShrinks(Start(coords, lim));
    hide Start, Final, Load, FrameOf;
    if r.x != [] { assert r.x[0] in r.x && Start(coords, lim).x != []; }
    if r.y != [] { assert r.y[0] in r.y && Start(coords, lim).y != []; }
  }

  /** What make_tracks asserts, and the coverage its docstring promises to assert, hold for lines
      that come out of a decomposition. */
  lemma LinesAcceptable(coords: seq<Coord>, lim: Limits)
    requires coords != [] && AllOnSurvivors(coords, lim)
    ensures var r := Final(Start(coords, lim));
      && (|r.x| + |r.y| == 1 || (r.x != [] && r.y != []))
      && forall i :: 0 <= i < |coords| ==>
           && GuardPasses(DimsOf(r.x), DimsOf(r.y), coords[i])
           && Covered(DimsOf(r.x), DimsOf(r.y), coords[i])
  {
    BothStart(coords, lim, 0);
    hide Final, Start, Load, Through, OnSurvivor, GuardPasses, Covered;
    var r := Final(Start(coords, lim));
    FinalShrinks(Start(coords, lim));
    assert OnSurvivor(lim, DimsOf(r.x), DimsOf(r.y), coords[0]);
    LinesLeft(coords[0], lim, r);
    forall i | 0 <= i < |coords|
      ensures GuardPasses(DimsOf(r.x), DimsOf(r.y), coords[i]) && Covered(DimsOf(r.x), DimsOf(r.y), coords[i])
    {
      SurvivorCovers(lim, DimsOf(r.x), DimsOf(r.y), coords[i]);
    }
  }

  lemma SurvivorCovers(lim: Limits, xs: seq<int>, ys: seq<int>, p: Coord)
    requires OnSurvivor(lim, xs, ys, p)
    ensures GuardPasses(xs, ys, p) && Covered(xs, ys, p)
  {
  }

  lemma LinesLeft(p: Coord, lim: Limits, r: Cover)
    requires OnSurvivor(lim, DimsOf(r.x), DimsOf(r.y), p) && Balanced(r)
    ensures |r.x| + |r.y| == 1 || (r.x != [] && r.y != [])
  {
  }

  /** The star of links that make_tracks builds joins all tracks, and only x with y tracks. */
  lemma StarIsOneNet(wires: seq<Wire>, links: seq<Link>, columns: nat)
    requires 0 < columns < |wires|
    requires forall i :: 0 <= i < |wires| ==> wires[i].axis == if i < columns then Y else X
    requires IsLinks(links, wires, columns, |wires|)
    ensures LinksFit(links, |wires|) && !Clashes(wires, links) && OneNet(|wires|, links)
  {
    forall i, j | 0 <= i < |wires| && 0 <= j < |wires| ensures SameNet(links, i, j) {
      ToHub(wires, links, columns, i);
      ToHub(wires, links, columns, j);
      NetSymmetric(links, j, 0);
      ReachesTrans(Net(links), NodeId(i), NodeId(0), NodeId(j));
    }
    forall k | 0 <= k < |links| ensures links[k].0 < |wires| && links[k].1 < |wires|
      && wires[links[k].0].axis != wires[links[k].1].axis
    {
      assert links[k] in links;
    }
  }

  lemma ToHub(wires: seq<Wire>, links: seq<Link>, columns: nat, i: nat)
    requires 0 < columns < |wires| && i < |wires|
    requires forall k :: 0 <= k < |wires| ==> wires[k].axis == if k < columns then Y else X
    requires IsLinks(links, wires, columns, |wires|)
    ensures SameNet(links, i, 0)
  {
    OneLink(wires, links, columns, columns);
    if i < columns {
      OneLink(wires, links, columns, i);
      NetSymmetric(links, columns, i);
      ReachesTrans(Net(links), NodeId(i), NodeId(columns), NodeId(0));
    } else {
      OneLink(wires, links, columns, i);
    }
  }

  lemma OneLink(wires: seq<Wire>, links: seq<Link>, columns: nat, i: nat)
    requires i < |wires| && IsLinks(links, wires, columns, |wires|)
    ensures SameNet(links, LinkOf(wires, columns, i).0, LinkOf(wires, columns, i).1)
  {
    var l := LinkOf(wires, columns, i);
    assert l in links;
    var k :| 0 <= k < |links| && links[k] == l;
    NetSteps(links, NodeId(l.0), NodeId(l.1));
    ReachesSelf(Net(links), NodeId(l.0));
    ReachesStep(Net(links), NodeId(l.0), NodeId(l.0), NodeId(l.1));
  }

  lemma SingleIsOneNet(wires: seq<Wire>)
    requires |wires| == 1
    ensures !Clashes(wires, []) && OneNet(1, [])
  {
    ReachesSelf(Net([]), NodeId(0));
  }

  /** create_track: from points to a connected set of tracks. For any points and limits it goes through
      exactly when the assertions and the closing sanity check of the decomposition do, and then every
      point can attach. */
  method CreateTrack(coords: seq<Coord>, lim: Limits) returns (r: Option<TrackModel>)
    ensures r.Some? <==> Admissible(coords, lim) && AllOnSurvivors(coords, lim)
    ensures r.Some? ==> fresh(r.value) && r.value.Valid() && r.value.tracks == WiresFor(coords, lim)
    ensures r.Some? ==> LinksFit(r.value.links, |r.value.tracks|)
    ensures r.Some? ==> !Clashes(r.value.tracks, r.value.links) && OneNet(|r.value.tracks|, r.value.links)
    ensures r.Some? ==> forall i :: 0 <= i < |coords| ==> AttachmentsAt(r.value.tracks, coords[i]) != map[]
    ensures r.Some? ==> var left := Final(Start(coords, lim));
      TracksAre(r.value.tracks, DimsOf(left.x), DimsOf(left.y), coords, lim.width, lim.height)
    ensures r.Some? ==> var left := Final(Start(coords, lim)); forall i :: 0 <= i < |coords| ==>
      SidesByLines(DimsOf(left.x), DimsOf(left.y), lim.width, lim.height, coords[i],
        AttachmentsAt(r.value.tracks, coords[i]))
  {
    hide Start, Final, Load, Clashes, OneNet, AttachmentsAt, IsLinks, OnSurvivor, GuardPasses, IsCorner, SidesByLines,
      TracksAre;
    var xs, ys, ok := Decompose(coords, lim);
    if !ok {
      return None;
    }
    LinesAcceptable(coords, lim);
    var wires, links := MakeTracks(xs, ys, coords, lim.width, lim.height);
    var model := new TrackModel(wires, links);
    if |wires| == 1 {
      SingleIsOneNet(wires);
    } else {
      StarIsOneNet(wires, links, |xs|);
    }
    var accepted := VerifyTracks(wires, links);
    assert accepted;
    forall i | 0 <= i < |coords|
      ensures AttachmentsAt(wires, coords[i]) != map[]
      ensures SidesByLines(xs, ys, lim.width, lim.height, coords[i], AttachmentsAt(wires, coords[i]))
    {
      PointServed(coords, lim, xs, ys, i);
      SidesAreLines(xs, ys, coords, lim.width, lim.height, i);
    }
    r := Some(model);
  }

  /** A point that starts on a line always passes the sanity check; one that can use neither kind of
      track never does. */
  lemma WhoPasses(coords: seq<Coord>, lim: Limits, i: nat)
    requires i < |coords|
    ensures var r := Final(Start(coords, lim));
      && (Load(Start(coords, lim), i) >= 1 ==> OnSurvivor(lim, DimsOf(r.x), DimsOf(r.y), coords[i]))
      && (!OnXTrack(lim, coords[i]) && !OnYTrack(lim, coords[i]) ==>
          !OnSurvivor(lim, DimsOf(r.x), DimsOf(r.y), coords[i]))
  {
    hide Final, Start, Load;
    if Load(Start(coords, lim), i) >= 1 { StaysOnSurvivor(coords, lim, i); }
  }

  /** Without limits this works for every list of points off the corner. */
  method CreateTrackUnlimited(coords: seq<Coord>) returns (r: Option<TrackModel>)
    requires forall i :: 0 <= i < |coords| ==> coords[i].x >= 0 && coords[i].y >= 0
    ensures r.Some? <==> coords != [] && forall i :: 0 <= i < |coords| ==> coords[i] != Coord(0, 0)
    ensures r.Some? ==> fresh(r.value) && r.value.Valid()
    ensures r.Some? ==> LinksFit(r.value.links, |r.value.tracks|) && OneNet(|r.value.tracks|, r.value.links)
    ensures r.Some? ==> forall i :: 0 <= i < |coords| ==> AttachmentsAt(r.value.tracks, coords[i]) != map[]
  {
    hide Start, Load, OneNet, AttachmentsAt, Final, OnSurvivor;
    if Admissible(coords, UNLIMITED) {
      UnlimitedStart(coords);
      forall i | 0 <= i < |coords|
        ensures OnSurvivor(UNLIMITED, DimsOf(Final(Start(coords, UNLIMITED)).x),
          DimsOf(Final(Start(coords, UNLIMITED)).y), coords[i])
      {
        WhoPasses(coords, UNLIMITED, i);
      }
    }
    r := CreateTrack(coords, UNLIMITED);
  }
}
