/** utils/tile_splitter/grid.py, class Grid: one operation after another on a grid, in whatever order a caller
    asks for them: lines put in, types split, tiles and types merged. Each request that goes through is a run
    of operations on the contents of the tiles, and the runs join. Root keys are kept whatever is asked;
    which sites go missing is told by the run. */
module GridRequests {
  import opened Sequences
  import opened Matrix
  import opened Mesh
  import opened Orientation
  import opened TileData
  import opened SplitLine
  import opened Splice
  import opened Conserve
  import opened GridRuns
  import opened GridClass

  datatype Request =
    | Insert(top: Tile, dir: Direction)
    | SplitAll(typ: int, types: seq<int>, dir: Direction, splitMap: SplitMap)
    | MergeOne(tile: Tile, dir: Direction)
    | MergeAll(typ: int, dir: Direction)

  /** The tiles named are in the grid, and there are types to split into. */
  ghost predicate Fits(r: Request, tiles: set<Tile>) {
    match r
    case Insert(top, _) => top in tiles
    case SplitAll(_, types, _, _) => |types| > 0
    case MergeOne(tile, _) => tile in tiles
    case MergeAll(_, _) => true
  }

  method InsertOne(grid: Grid, top: Tile, dir: Direction) returns (ok: bool, ghost run: Run)
    requires grid.Valid() && top in Tiles(grid.mesh)
    modifies grid`mesh, grid`originX, grid`originY, Tiles(grid.mesh)
    ensures grid.Valid() && fresh(Tiles(grid.mesh) - old(Tiles(grid.mesh)))
    ensures IsRun(run, grid.emptyTileTypePkey)
    ensures run.Start() == old(ContentsOf(Tiles(grid.mesh))) && run.End() == ContentsOf(Tiles(grid.mesh))
  {
    hide Tiles, Oriented, ContentsOf, Done, Inside, IsMesh, EmptyCopies, Members;
    ghost var m, x, y := grid.mesh, grid.originX, grid.originY;
    ghost var h := ContentsOf(Tiles(m));
    ghost var i, j := PlaceIn(grid, top, dir);
    ghost var from, line := Oriented(m, dir)[i], [];
    NothingRun(h, [], 0, map[], grid.emptyTileTypePkey);
    ok, line := grid.InsertEmpty(top, dir, i, j);
    SameContents(Tiles(m));
    run := NoRun(h);
    if ok {
      run := LineRun(grid, m, x, y, dir, i, h, from, line);
    }
  }

  lemma LineDone(grid: Grid, m: Lines<Tile>, x: nat, y: nat, dir: Direction, i: nat, h: Contents, from: seq<Tile>,
      line: seq<Tile>)
    requires grid.HasLine(m, x, y, dir, i, line) && h == ContentsOf(Tiles(m))
    requires EmptyCopies(from, line, grid.emptyTileTypePkey)
    ensures Done(PutIn(line), h, ContentsOf(Tiles(grid.mesh)), grid.emptyTileTypePkey)
    ensures Tiles(grid.mesh) == Tiles(m) + Members(line)
  {
    hide EmptyCopies, Tiles, Members, WithLine, Index, ShiftX, ShiftY, Extends, Done;
    grid.LineIsIn(Tiles(m), h, from, line);
  }

  lemma LineRun(grid: Grid, m: Lines<Tile>, x: nat, y: nat, dir: Direction, i: nat, h: Contents, from: seq<Tile>,
      line: seq<Tile>) returns (run: Run)
    requires grid.HasLine(m, x, y, dir, i, line) && h == ContentsOf(Tiles(m))
    requires EmptyCopies(from, line, grid.emptyTileTypePkey)
    ensures IsRun(run, grid.emptyTileTypePkey) && run.Start() == h && run.End() == ContentsOf(Tiles(grid.mesh))
    ensures Tiles(grid.mesh) == Tiles(m) + Members(line)
  {
    LineDone(grid, m, x, y, dir, i, h, from, line);
    NothingRun(h, [], 0, map[], grid.emptyTileTypePkey);
    hide *;
    RunThen(NoRun(h), PutIn(line), ContentsOf(Tiles(grid.mesh)), grid.emptyTileTypePkey);
    run := Then(NoRun(h), PutIn(line), ContentsOf(Tiles(grid.mesh)));
  }

  /** A tile of the grid and its place, seen in a direction. */
  lemma PlaceIn(grid: Grid, top: Tile, dir: Direction) returns (i: int, j: int)
    requires grid.Valid() && top in Tiles(grid.mesh)
    ensures 0 <= i && 0 <= j && Rectangular(grid.mesh)
    ensures i < |Oriented(grid.mesh, dir)|
    ensures Inside(Oriented(grid.mesh, dir), i, j) && Oriented(grid.mesh, dir)[i][j] == top
  {
    grid.SeenMeshed(dir);
    hide Oriented, Tiles, LinksFit;
    i, j := PlaceOf(grid.Seen(dir), top);
  }

  /** One request; a split that fails part-way has no run to the end. */
  method PerformOne(grid: Grid, r: Request) returns (ok: bool, ghost run: Run)
    requires grid.Valid() && Fits(r, Tiles(grid.mesh))
    modifies grid`mesh, grid`originX, grid`originY, Tiles(grid.mesh)
    ensures grid.Valid() && fresh(Tiles(grid.mesh) - old(Tiles(grid.mesh)))
    ensures IsRun(run, grid.emptyTileTypePkey) && run.Start() == old(ContentsOf(Tiles(grid.mesh)))
    ensures ok ==> run.End() == ContentsOf(Tiles(grid.mesh))
  {
    hide ContentsOf, Done, IsMesh, Tiles, IsRun;
    match r
    case Insert(top, dir) =>
      ok, run := InsertOne(grid, top, dir);
    case SplitAll(typ, types, dir, splitMap) =>
      ghost var lines, failed;
      ok, lines, run, failed := grid.SplitTileType(typ, types, dir, splitMap);
    case MergeOne(tile, dir) =>
      ok, run := MergeOneTile(grid, tile, dir);
    case MergeAll(typ, dir) =>
      ok, run := grid.MergeTileType(typ, dir);
  }

  method MergeOneTile(grid: Grid, tile: Tile, dir: Direction) returns (ok: bool, ghost run: Run)
    requires grid.Valid() && tile in Tiles(grid.mesh)
    modifies Tiles(grid.mesh)
    ensures grid.Valid() && IsRun(run, grid.emptyTileTypePkey)
    ensures run.Start() == old(ContentsOf(Tiles(grid.mesh))) && run.End() == ContentsOf(Tiles(grid.mesh))
  {
    hide ContentsOf, Done, IsMesh, Tiles;
    ghost var h := ContentsOf(Tiles(grid.mesh));
    ok := grid.MergeInDir(tile, dir);
    run := NoRun(h);
    if ok {
      grid.MergeIsDone(h, tile, dir);
      run := Then(run, Merge(tile, tile.Link(dir).value), ContentsOf(Tiles(grid.mesh)));
    }
  }

  /** A run from the tiles of a grid to those it has afterwards loses none of them. */
  lemma KeepsTiles(run: Run, prev: set<Tile>, now: set<Tile>, empty: int)
    requires IsRun(run, empty) && run.Start().Keys == prev && run.End() == ContentsOf(now)
    ensures prev <= now
  {
    KeysOf(now);
    RunGrows(run, empty);
  }

  /** One more request at the end of a run. */
  method PerformNext(grid: Grid, r: Request, ghost run: Run, ghost first: set<Tile>)
      returns (ok: bool, ghost run': Run)
    requires grid.Valid() && Fits(r, Tiles(grid.mesh)) && first <= Tiles(grid.mesh)
    requires IsRun(run, grid.emptyTileTypePkey) && run.End() == ContentsOf(Tiles(grid.mesh))
    modifies grid`mesh, grid`originX, grid`originY, Tiles(grid.mesh)
    ensures grid.Valid() && IsRun(run', grid.emptyTileTypePkey) && run'.Start() == run.Start()
    ensures ok ==> run'.End() == ContentsOf(Tiles(grid.mesh))
    ensures ok ==> first <= Tiles(grid.mesh) && fresh(Tiles(grid.mesh) - old(Tiles(grid.mesh)))
  {
    ghost var part, prev := NoRun(run.End()), Tiles(grid.mesh);
    KeysOf(prev);
    hide ContentsOf, Done, IsMesh, Tiles, Rectangular, Fits;
    ok, part := PerformOne(grid, r);
    run' := run;
    if ok {
      KeepsTiles(part, prev, Tiles(grid.mesh), grid.emptyTileTypePkey);
      RunsJoin(run, part, grid.emptyTileTypePkey);
      run' := Joined(run, part);
    }
  }

  /** The requests one after another, up to the first that fails. */
  method Perform(grid: Grid, requests: seq<Request>) returns (ok: bool, ghost run: Run)
    requires grid.Valid() && forall k :: 0 <= k < |requests| ==> Fits(requests[k], Tiles(grid.mesh))
    modifies grid`mesh, grid`originX, grid`originY, Tiles(grid.mesh)
    ensures grid.Valid()
    ensures IsRun(run, grid.emptyTileTypePkey) && run.Start() == old(ContentsOf(Tiles(grid.mesh)))
    ensures ok ==> run.End() == ContentsOf(Tiles(grid.mesh))
    // Every root key is still there; missing are the sites that splits took over, and no others.
    ensures ok ==> AllRoots(ContentsOf(Tiles(grid.mesh))) == old(AllRoots(ContentsOf(Tiles(grid.mesh))))
    ensures ok ==> old(AllSites(ContentsOf(Tiles(grid.mesh)))) == AllSites(ContentsOf(Tiles(grid.mesh))) + Lost(run.ops)
    ensures ok ==>
      (AllSites(ContentsOf(Tiles(grid.mesh))) == old(AllSites(ContentsOf(Tiles(grid.mesh)))) <==> TakeNoSites(run.ops))
  {
    hide ContentsOf, Done, AllRoots, AllSites, TakeNoSites, Lost, IsMesh, Rectangular;
    ghost var h := ContentsOf(Tiles(grid.mesh));
    run := NoRun(h);
    for k := 0 to |requests|
      invariant grid.Valid() && IsRun(run, grid.emptyTileTypePkey)
      invariant run.Start() == h && run.End() == ContentsOf(Tiles(grid.mesh))
      invariant old(Tiles(grid.mesh)) <= Tiles(grid.mesh) && fresh(Tiles(grid.mesh) - old(Tiles(grid.mesh)))
    {
      ghost var prev := Tiles(grid.mesh);
      ok, run := PerformNext(grid, requests[k], run, old(Tiles(grid.mesh)));
      if !ok {
        return;
      }
      assert Tiles(grid.mesh) - old(Tiles(grid.mesh)) <= (Tiles(grid.mesh) - prev) + (prev - old(Tiles(grid.mesh)));
    }
    ok := true;
    RunLoses(run, grid.emptyTileTypePkey);
  }
}
