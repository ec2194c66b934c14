/** utils/tile_splitter/grid.py: any number of operations on a grid. Every root key stays; sites go missing
    with tiles a split takes over. */
module GridRuns {
  import opened Sequences
  import opened Matrix
  import opened Mesh
  import opened Splice
  import opened TileData
  import opened SplitLine
  import opened Conserve

  /** What is done to a grid: a line put in; a line split, with as many lines put in behind it as
      split_in_dir counts; a tile merged into its neighbour. */
  datatype Operation =
    | PutIn(line: seq<Tile>)
    | Split(m: Lines<Tile>, i: nat, e: Lines<Tile>, mid: Contents, typ: int, types: seq<int>, splitMap: SplitMap)
    | Merge(tile: Tile, into: Tile)

  /** The mesh once the lines for a split are in. */
  ghost function Widened(op: Operation): Lines<Tile>
    requires op.Split? && op.i < |op.m|
  {
    InsertLines(op.m, op.i, op.e)
  }

  /** The lines for a split have been counted and put in. */
  ghost predicate Prepared(op: Operation, h: Contents, empty: int)
    requires op.Split?
  {
    |op.types| > 0 && LinesIn(h, op.m, op.i, op.e, op.mid, empty) && Injective(Widened(op))
    && CountIs(h, op.m, op.i, op.typ, |op.types|, empty, |op.e|)
  }

  /** Some tile of the line cannot be split. */
  ghost predicate Blocked(op: Operation, h: Contents, empty: int) {
    op.Split? && Prepared(op, h, empty)
    && !CanSplitLine(op.mid, Widened(op), op.i, |op.m[0]|, op.typ, |op.types|, op.splitMap, empty)
  }

  /** The contents before and after. */
  ghost predicate Done(op: Operation, h: Contents, now: Contents, empty: int) {
    match op
    case PutIn(line) => Kept(h, now) && EmptyLine(now, line, |line|, empty) && now.Keys == h.Keys + Members(line)
    case Split(m, i, e, mid, typ, types, splitMap) =>
      Prepared(op, h, empty) && CanSplitLine(mid, Widened(op), i, |m[0]|, typ, |types|, splitMap, empty)
      && LineSplit(mid, Widened(op), i, |m[0]|, typ, types, splitMap, now)
    case Merge(tile, into) => tile in h && into in h && tile != into && now == Merged(h, tile, into, empty)
  }

  /** The tiles a split takes over. */
  ghost function Taken(op: Operation): set<Tile> {
    if op.Split? && op.i < |op.m| then Consumed(op.mid, Widened(op), op.i, |op.m[0]|, op.typ, |op.types|) else {}
  }

  /** The sites that go missing with them. */
  ghost function LostBy(op: Operation): multiset<Site> {
    if op.Split? && Taken(op) <= op.mid.Keys then Total(SitesIn(op.mid), Taken(op)) else multiset{}
  }

  ghost predicate TakesNoSite(op: Operation) {
    op.Split? ==> forall t :: t in Taken(op) && t in op.mid ==> op.mid[t].sites == []
  }

  lemma PreparedShape(op: Operation, h: Contents, empty: int)
    requires op.Split? && Prepared(op, h, empty)
    ensures Rectangular(op.m) && op.i < |op.m| && |op.types| > 0
    ensures Rectangular(Widened(op)) && op.i < |Widened(op)| && |Widened(op)[0]| == |op.m[0]|
  {
  }

  lemma OperationLoses(op: Operation, h: Contents, now: Contents, empty: int)
    requires Done(op, h, now, empty)
    ensures Loses(h, now, LostBy(op))
    ensures LostBy(op) == multiset{} <==> TakesNoSite(op)
  {
    hide AllRoots, AllSites, LineSplit, CanSplitLine, LinesIn, Injective, Kept, EmptyLine, Merged, Consumed, Total,
      CountIs, InsertLines;
    match op
    case PutIn(line) => InsertKeeps(h, now, line, empty);
    case Split(m, i, e, mid, typ, types, splitMap) =>
      PreparedShape(op, h, empty);
      DirLoses(h, m, i, e, mid, typ, types, splitMap, now, empty);
      TotalEmpty(SitesIn(mid), Taken(op));
    case Merge(tile, into) => MergeKeeps(h, tile, into, empty);
  }

  // ----- runs -----

  /** Operations, and the contents before the first and after each. */
  datatype Run = Run(ops: seq<Operation>, states: seq<Contents>) {
    ghost function Start(): Contents
      requires states != []
    {
      states[0]
    }

    ghost function End(): Contents
      requires states != []
    {
      states[|states| - 1]
    }
  }

  ghost predicate IsRun(run: Run, empty: int) {
    |run.states| == |run.ops| + 1
    && forall k :: 0 <= k < |run.ops| ==> Done(run.ops[k], run.states[k], run.states[k + 1], empty)
  }

  ghost function NoRun(h: Contents): Run { Run([], [h]) }

  lemma NothingRun(h: Contents, items: seq<Tile>, typ: int, next: map<Tile, Option<Tile>>, empty: int)
    ensures IsRun(NoRun(h), empty) && NoRun(h).Start() == h && NoRun(h).End() == h
    ensures OfType(h, items[..0], typ) == [] && MergesThem([], [], next)
  {
  }

  ghost function Then(run: Run, op: Operation, now: Contents): Run { Run(run.ops + [op], run.states + [now]) }

  lemma RunThen(run: Run, op: Operation, now: Contents, empty: int)
    requires IsRun(run, empty) && Done(op, run.End(), now, empty)
    ensures IsRun(Then(run, op, now), empty)
    ensures Then(run, op, now).Start() == run.Start() && Then(run, op, now).End() == now
  {
    hide Done;
    var more := Then(run, op, now);
    forall k | 0 <= k < |more.ops| ensures Done(more.ops[k], more.states[k], more.states[k + 1], empty) {
      if k < |run.ops| {
        assert Done(run.ops[k], run.states[k], run.states[k + 1], empty);
      }
    }
  }

  ghost function Joined(a: Run, b: Run): Run
    requires b.states != []
  {
    Run(a.ops + b.ops, a.states + b.states[1..])
  }

  lemma RunsJoin(a: Run, b: Run, empty: int)
    requires IsRun(a, empty) && IsRun(b, empty) && a.End() == b.Start()
    ensures IsRun(Joined(a, b), empty) && Joined(a, b).Start() == a.Start() && Joined(a, b).End() == b.End()
  {
    hide Done;
    var c, n := Joined(a, b), |a.ops|;
    forall k | 0 <= k < |c.ops| ensures Done(c.ops[k], c.states[k], c.states[k + 1], empty) {
      if k < n {
        assert Done(a.ops[k], a.states[k], a.states[k + 1], empty);
      } else {
        assert Done(b.ops[k - n], b.states[k - n], b.states[k - n + 1], empty);
      }
    }
  }

  /** No tile ever leaves the grid. */
  lemma {:induction false} RunGrows(run: Run, empty: int)
    requires IsRun(run, empty)
    ensures run.Start().Keys <= run.End().Keys
    decreases |run.ops|
  {
    hide Done;
    if run.ops != [] {
      var n := |run.ops| - 1;
      RunGrows(Run(run.ops[..n], run.states[..n + 1]), empty);
      OperationGrows(run.ops[n], run.states[n], run.states[n + 1], empty);
    }
  }

  lemma OperationGrows(op: Operation, h: Contents, now: Contents, empty: int)
    requires Done(op, h, now, empty)
    ensures h.Keys <= now.Keys
  {
    hide CanSplitLine, InsertLines, Injective, CountIs;
  }

  ghost function Lost(ops: seq<Operation>): multiset<Site> {
    if ops == [] then multiset{} else Lost(ops[..|ops| - 1]) + LostBy(ops[|ops| - 1])
  }

  ghost predicate TakeNoSites(ops: seq<Operation>) { forall k :: 0 <= k < |ops| ==> TakesNoSite(ops[k]) }

  /** Over any run no root key is lost or doubled, and the sites that go missing are exactly those of tiles
      taken over. All sites are kept exactly when no split takes over a tile that holds one. */
  lemma {:induction false} RunLoses(run: Run, empty: int)
    requires IsRun(run, empty)
    ensures AllRoots(run.End()) == AllRoots(run.Start())
    ensures AllSites(run.Start()) == AllSites(run.End()) + Lost(run.ops)
    ensures AllSites(run.End()) == AllSites(run.Start()) <==> TakeNoSites(run.ops)
    decreases |run.ops|
  {
    RunSteps(run, empty);
    LostNothing(run, empty);
  }

  lemma {:induction false} RunSteps(run: Run, empty: int)
    requires IsRun(run, empty)
    ensures Loses(run.Start(), run.End(), Lost(run.ops))
    decreases |run.ops|
  {
    hide Done, AllRoots, AllSites, LostBy, TakesNoSite;
    if run.ops != [] {
      var n := |run.ops| - 1;
      RunSteps(Run(run.ops[..n], run.states[..n + 1]), empty);
      OperationLoses(run.ops[n], run.states[n], run.states[n + 1], empty);
    }
  }

  lemma {:induction false} LostNothing(run: Run, empty: int)
    requires IsRun(run, empty)
    ensures Lost(run.ops) == multiset{} <==> TakeNoSites(run.ops)
    decreases |run.ops|
  {
    hide Done, AllRoots, AllSites, LostBy, TakesNoSite, Loses;
    if run.ops != [] {
      var n := |run.ops| - 1;
      LostNothing(Run(run.ops[..n], run.states[..n + 1]), empty);
      OperationLoses(run.ops[n], run.states[n], run.states[n + 1], empty);
      assert forall k :: 0 <= k < n ==> run.ops[..n][k] == run.ops[k];
    }
  }

  // ----- runs that never put a site into an empty tile -----

  /** The split makes no empty tile; the merge moves no site into one. */
  ghost predicate Careful(op: Operation, h: Contents, empty: int) {
    match op
    case PutIn(_) => true
    case Split(_, _, _, _, _, types, _) => empty !in types
    case Merge(tile, into) => tile in h && into in h && (h[into].typ != empty || h[tile].sites == [])
  }

  lemma StaysBare(op: Operation, h: Contents, now: Contents, empty: int)
    requires Done(op, h, now, empty) && Careful(op, h, empty) && EmptiesBare(h, empty)
    ensures EmptiesBare(now, empty) && TakesNoSite(op)
  {
    hide AllRoots, AllSites, LineSplit, CanSplitLine, LinesIn, Injective, Kept, EmptyLine, Merged, EmptiesBare,
      CountIs, InsertLines, Consumed, TypeAt, Loses;
    match op
    case PutIn(line) => InsertKeeps(h, now, line, empty);
    case Split(m, i, e, mid, typ, types, splitMap) =>
      PreparedShape(op, h, empty);
      SplitHolds(mid, Widened(op), i, |m[0]|, typ, types, splitMap, now);
      WidenedBare(h, m, i, e, mid, empty);
      LineBare(mid, Widened(op), i, typ, types, splitMap, now, empty);
    case Merge(tile, into) => MergeKeeps(h, tile, into, empty);
  }

  lemma WidenedBare(h: Contents, m: Lines<Tile>, i: nat, e: Lines<Tile>, mid: Contents, empty: int)
    requires LinesIn(h, m, i, e, mid, empty) && mid.Keys == Tiles(InsertLines(m, i, e)) && EmptiesBare(h, empty)
    ensures EmptiesBare(mid, empty)
  {
    forall t | t in mid && t !in h ensures mid[t].sites == [] {
      NewIsBare(h, m, i, e, mid, empty, t);
    }
  }

  lemma LineBare(h: Contents, m: Lines<Tile>, i: nat, typ: int, types: seq<int>, splitMap: SplitMap, now: Contents,
      empty: int)
    requires Rectangular(m) && i < |m| && empty !in types && EmptiesBare(h, empty)
    requires LineSplit(h, m, i, |m[0]|, typ, types, splitMap, now)
    requires CanSplitLine(h, m, i, |m[0]|, typ, |types|, splitMap, empty)
    ensures EmptiesBare(now, empty)
    ensures forall t :: t in Consumed(h, m, i, |m[0]|, typ, |types|) && t in h ==> h[t].sites == []
  {
    hide LineSplit, CanSplitLine, Consumed;
    forall t | t in now && now[t].typ == empty ensures now[t].sites == [] {
      SplitHolds(h, m, i, |m[0]|, typ, types, splitMap, now);
      var r, j := PlaceOf(m, t);
      PartOf(h, m, i, |m[0]|, typ, types, splitMap, now, r, j);
      if i <= r < i + |types| { assert types[r - i] in types; }
    }
    forall t | t in Consumed(h, m, i, |m[0]|, typ, |types|) && t in h ensures h[t].sites == [] {
      TakenWasEmpty(h, m, i, typ, |types|, splitMap, empty, t);
    }
  }

  lemma TakenWasEmpty(h: Contents, m: Lines<Tile>, i: nat, typ: int, n: nat, splitMap: SplitMap, empty: int, t: Tile)
    requires Rectangular(m) && i < |m| && t in h && CanSplitLine(h, m, i, |m[0]|, typ, n, splitMap, empty)
    requires t in Consumed(h, m, i, |m[0]|, typ, n)
    ensures h[t].typ == empty
  {
    var r, j :| 0 <= r < |m| && 0 <= j < |m[r]| && i < r < i + n && j < |m[0]| && TypeAt(h, m, i, j) == Some(typ)
      && m[r][j] in h && m[r][j] == t;
    assert Ray(m, i, j, n)[r - i] == t;
    hide TypeAt;
  }

  /** Where empty tiles hold no sites to begin with and every operation is careful, no site is ever lost. */
  lemma {:induction false} CarefulRunKeeps(run: Run, empty: int)
    requires IsRun(run, empty) && EmptiesBare(run.Start(), empty)
    requires forall k :: 0 <= k < |run.ops| ==> Careful(run.ops[k], run.states[k], empty)
    ensures AllSites(run.End()) == AllSites(run.Start()) && EmptiesBare(run.End(), empty)
  {
    AllStayBare(run, empty);
    hide Done, EmptiesBare, Careful;
    RunLoses(run, empty);
  }

  lemma {:induction false} AllStayBare(run: Run, empty: int)
    requires IsRun(run, empty) && EmptiesBare(run.Start(), empty)
    requires forall k :: 0 <= k < |run.ops| ==> Careful(run.ops[k], run.states[k], empty)
    ensures TakeNoSites(run.ops) && EmptiesBare(run.End(), empty)
    decreases |run.ops|
  {
    hide Done, EmptiesBare, Careful, TakesNoSite;
    if run.ops != [] {
      var n := |run.ops| - 1;
      AllStayBare(Run(run.ops[..n], run.states[..n + 1]), empty);
      StaysBare(run.ops[n], run.states[n], run.states[n + 1], empty);
      assert forall k :: 0 <= k < n ==> run.ops[..n][k] == run.ops[k];
    }
  }

  // ----- the runs of split_tile_type and merge_tile_type -----

  /** The mesh after splits that each widen it. */
  ghost function MatrixAfter(m: Lines<Tile>, ops: seq<Operation>): Lines<Tile> {
    if ops == [] then m
    else
      var op := ops[|ops| - 1];
      if op.Split? && op.i < |op.m| then Widened(op) else m
  }

  /** The operation is the split of this line of the mesh. */
  ghost predicate SplitsLine(op: Operation, w: Lines<Tile>, line: seq<Tile>, typ: int, types: seq<int>,
      splitMap: SplitMap)
  {
    op.Split? && op.m == w && op.i < |w| && w[op.i] == line
    && op.typ == typ && op.types == types && op.splitMap == splitMap
  }

  /** Operation q is the split of line lines[q] of the first mesh, wherever it is by then. */
  ghost predicate FollowsLines(ops: seq<Operation>, m: Lines<Tile>, lines: seq<nat>, typ: int, types: seq<int>,
      splitMap: SplitMap)
  {
    |ops| <= |lines|
    && forall q :: 0 <= q < |ops| ==>
         lines[q] < |m| && SplitsLine(ops[q], MatrixAfter(m, ops[..q]), m[lines[q]], typ, types, splitMap)
  }

  lemma FollowsNone(m: Lines<Tile>, lines: seq<nat>, typ: int, types: seq<int>, splitMap: SplitMap)
    ensures FollowsLines([], m, lines, typ, types, splitMap) && MatrixAfter(m, []) == m
  {
  }

  lemma FollowsMore(ops: seq<Operation>, op: Operation, m: Lines<Tile>, lines: seq<nat>, typ: int, types: seq<int>,
      splitMap: SplitMap)
    requires FollowsLines(ops, m, lines, typ, types, splitMap) && |ops| < |lines| && lines[|ops|] < |m|
    requires SplitsLine(op, MatrixAfter(m, ops), m[lines[|ops|]], typ, types, splitMap)
    ensures FollowsLines(ops + [op], m, lines, typ, types, splitMap)
    ensures MatrixAfter(m, ops + [op]) == Widened(op)
  {
    hide SplitsLine, MatrixAfter, InsertLines;
    WidenedLast(ops, op, m, lines[|ops|], typ, types, splitMap);
    var more := ops + [op];
    forall q | 0 <= q < |more|
      ensures lines[q] < |m| && SplitsLine(more[q], MatrixAfter(m, more[..q]), m[lines[q]], typ, types, splitMap)
    {
      assert more[..q] == ops[..q];
      if q == |ops| { assert ops[..q] == ops; }
    }
  }

  lemma WidenedLast(ops: seq<Operation>, op: Operation, m: Lines<Tile>, line: nat, typ: int, types: seq<int>,
      splitMap: SplitMap)
    requires line < |m| && SplitsLine(op, MatrixAfter(m, ops), m[line], typ, types, splitMap)
    ensures op.Split? && op.i < |op.m| && MatrixAfter(m, ops + [op]) == Widened(op)
  {
    hide InsertLines;
  }

  /** The listed tiles of a type, in order. */
  ghost function OfType(h: Contents, items: seq<Tile>, typ: int): seq<Tile> {
    if items == [] then []
    else
      var t := items[|items| - 1];
      OfType(h, items[..|items| - 1], typ) + if t in h && h[t].typ == typ then [t] else []
  }

  lemma {:induction false} OfTypeAre(h: Contents, items: seq<Tile>, typ: int)
    ensures forall k :: 0 <= k < |items| && items[k] in h && h[items[k]].typ == typ ==>
      items[k] in OfType(h, items, typ)
    ensures forall q :: 0 <= q < |OfType(h, items, typ)| ==>
      OfType(h, items, typ)[q] in items && OfType(h, items, typ)[q] in h && h[OfType(h, items, typ)[q]].typ == typ
  {
    if items != [] { OfTypeAre(h, items[..|items| - 1], typ); }
  }

  lemma OfTypeMore(h: Contents, items: seq<Tile>, k: nat, typ: int)
    requires k < |items|
    ensures OfType(h, items[..k + 1], typ) == if items[k] in h && h[items[k]].typ == typ
      then OfType(h, items[..k], typ) + [items[k]] else OfType(h, items[..k], typ)
  {
    assert items[..k + 1][..k] == items[..k];
  }

  lemma {:induction false} OfTypePrefix(h: Contents, items: seq<Tile>, k: nat, typ: int)
    requires k <= |items|
    ensures OfType(h, items[..k], typ) <= OfType(h, items, typ)
    decreases |items| - k
  {
    if k < |items| {
      OfTypePrefix(h, items, k + 1, typ);
      OfTypeMore(h, items, k, typ);
    } else {
      assert items[..k] == items;
    }
  }

  /** The neighbours of tiles in a direction. */
  ghost function Neighbours(tiles: set<Tile>, dir: Direction): map<Tile, Option<Tile>>
    reads tiles`neighboors
  {
    map t | t in tiles :: t.Link(dir)
  }

  ghost predicate HasNext(next: map<Tile, Option<Tile>>, t: Tile) { t in next && next[t].Some? }

  /** Each tile is merged into its neighbour, in order. */
  ghost predicate MergesThem(ops: seq<Operation>, tiles: seq<Tile>, next: map<Tile, Option<Tile>>) {
    |ops| <= |tiles|
    && forall q :: 0 <= q < |ops| ==> HasNext(next, tiles[q]) && ops[q] == Merge(tiles[q], next[tiles[q]].value)
  }

  lemma MergesMore(ops: seq<Operation>, tiles: seq<Tile>, t: Tile, next: map<Tile, Option<Tile>>)
    requires MergesThem(ops, tiles, next) && |ops| == |tiles| && HasNext(next, t)
    ensures MergesThem(ops + [Merge(t, next[t].value)], tiles + [t], next)
  {
  }

  /** One more merge at the end of a run of merges. */
  lemma MergeThen(run: Run, tiles: seq<Tile>, t: Tile, next: map<Tile, Option<Tile>>, now: Contents, empty: int)
    returns (more: Run)
    requires IsRun(run, empty) && MergesThem(run.ops, tiles, next) && |run.ops| == |tiles| && HasNext(next, t)
    requires Done(Merge(t, next[t].value), run.End(), now, empty)
    ensures IsRun(more, empty) && more.Start() == run.Start() && more.End() == now
    ensures MergesThem(more.ops, tiles + [t], next) && |more.ops| == |tiles| + 1
  {
    hide Done;
    MergesMore(run.ops, tiles, t, next);
    RunThen(run, Merge(t, next[t].value), now, empty);
    more := Then(run, Merge(t, next[t].value), now);
  }

  lemma MergesPrefix(ops: seq<Operation>, some: seq<Tile>, all: seq<Tile>, next: map<Tile, Option<Tile>>)
    requires MergesThem(ops, some, next) && some <= all
    ensures MergesThem(ops, all, next)
  {
  }

  /** All but the rest of a list of tiles has been merged, and the next is not. */
  lemma MergesStop(ops: seq<Operation>, h: Contents, items: seq<Tile>, k: nat, typ: int, next: map<Tile, Option<Tile>>)
    requires k < |items| && items[k] in h && h[items[k]].typ == typ
    requires MergesThem(ops, OfType(h, items[..k], typ), next) && |ops| == |OfType(h, items[..k], typ)|
    ensures MergesThem(ops, OfType(h, items, typ), next)
    ensures |ops| < |OfType(h, items, typ)| && OfType(h, items, typ)[|ops|] == items[k]
  {
    var some, more, all := OfType(h, items[..k], typ), OfType(h, items[..k + 1], typ), OfType(h, items, typ);
    OfTypeMore(h, items, k, typ);
    OfTypePrefix(h, items, k + 1, typ);
    hide OfType, MergesThem;
    assert more[|some|] == items[k] && all[|some|] == more[|some|];
    assert some <= all;
    MergesPrefix(ops, some, all, next);
  }

  /** All are merged exactly when every listed tile of the type has a neighbour. */
  lemma MergedAll(ops: seq<Operation>, h: Contents, items: seq<Tile>, typ: int, next: map<Tile, Option<Tile>>)
    requires MergesThem(ops, OfType(h, items, typ), next)
    requires |ops| < |OfType(h, items, typ)| ==> !HasNext(next, OfType(h, items, typ)[|ops|])
    ensures |ops| == |OfType(h, items, typ)| <==>
      forall k :: 0 <= k < |items| && items[k] in h && h[items[k]].typ == typ ==> HasNext(next, items[k])
  {
    OfTypeAre(h, items, typ);
    hide OfType, HasNext;
    var all := OfType(h, items, typ);
    if |ops| == |all| {
      forall k | 0 <= k < |items| && items[k] in h && h[items[k]].typ == typ ensures HasNext(next, items[k]) {
        var q :| 0 <= q < |all| && all[q] == items[k];
      }
    } else {
      var k :| 0 <= k < |items| && items[k] == all[|ops|];
    }
  }

  /** Merges alone lose nothing. */
  lemma MergesKeep(run: Run, tiles: seq<Tile>, next: map<Tile, Option<Tile>>, empty: int)
    requires IsRun(run, empty) && MergesThem(run.ops, tiles, next)
    ensures AllRoots(run.End()) == AllRoots(run.Start()) && AllSites(run.End()) == AllSites(run.Start())
  {
    assert forall k :: 0 <= k < |run.ops| ==> run.ops[k].Merge?;
    hide IsRun, MergesThem, AllRoots, AllSites;
    RunLoses(run, empty);
  }

  lemma KeysOf(tiles: set<Tile>)
    ensures ContentsOf(tiles).Keys == tiles
  {
  }

  lemma TypesOf(items: seq<Tile>, tiles: set<Tile>)
    requires forall k :: 0 <= k < |items| ==> items[k] in tiles
    ensures forall k :: 0 <= k < |items| ==>
      items[k] in ContentsOf(tiles) && ContentsOf(tiles)[items[k]].typ == items[k].tileTypePkey
  {
  }
}
