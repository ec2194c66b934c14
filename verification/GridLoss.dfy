/** utils/tile_splitter/grid.py, merge_in_dir and split_tile_type on a grid of three tiles in a row. The third
    tile, which holds a site, is merged into the empty second one, and then the first is split in two. The
    split takes the second tile for free, since its type says that it is empty, and starts it off with no
    site: after the two calls, which both succeed, the site is in no tile. */
module GridLoss {
  import opened Sequences
  import opened Matrix
  import opened Mesh
  import opened Orientation
  import opened GridLoc
  import opened MeshBuilding
  import opened Splice
  import opened TileData
  import opened SplitLine
  import opened SplitType
  import opened Conserve
  import opened GridRuns
  import opened GridClass
  import opened GridExamples

  ghost predicate Apart(a: Tile, b: Tile, c: Tile) { a != b && b != c && a != c }

  /** The grid of three columns, all listed, with the given contents. */
  ghost predicate HoldsRow(grid: Grid, a: Tile, b: Tile, c: Tile, h: Contents)
    reads grid, Tiles(grid.mesh)
  {
    grid.Valid() && grid.emptyTileTypePkey == EMPTY && Apart(a, b, c) && grid.Seen(East) == RowTiles(a, b, c)
    && Tiles(grid.mesh) == {a, b, c} && a in grid.items && ContentsOf(Tiles(grid.mesh)) == h
  }

  method NewTiles() returns (a: Tile, b: Tile, c: Tile, at: map<Loc, Tile>)
    ensures fresh({a, b, c}) && AreNew(a, b, c)
    ensures at == map[Loc(0, 0) := a, Loc(1, 0) := b, Loc(2, 0) := c] && Unlinked(at)
  {
    a := new Tile([1], [1], 1, []);
    b := new Tile([2], [2], EMPTY, []);
    c := new Tile([3], [3], 2, [SITE]);
    at := map[Loc(0, 0) := a, Loc(1, 0) := b, Loc(2, 0) := c];
  }

  ghost predicate AreNew(a: Tile, b: Tile, c: Tile)
    reads {a, b, c}
  {
    Apart(a, b, c) && DataOf(a) == Data([1], [1], 1, [], false) && DataOf(b) == Data([2], [2], EMPTY, [], false)
    && DataOf(c) == Data([3], [3], 2, [SITE], false)
  }

  method MakeRow() returns (grid: Grid, a: Tile, b: Tile, c: Tile)
    ensures fresh(grid) && fresh(Tiles(grid.mesh)) && HoldsRow(grid, a, b, c, Row(a, b, c))
  {
    hide IsMesh, Snapshot, Oriented, ContentsOf, Tiles, IsGrid, Row, RowTiles, SITE, Apart;
    var at;
    a, b, c, at := NewTiles();
    RowIsGrid(at);
    assert at.Values == {a, b, c};
    ghost var data := [DataOf(a), DataOf(b), DataOf(c)];
    var made := MakeGrid(at, EMPTY);
    grid := made.value;
    assert [DataOf(a), DataOf(b), DataOf(c)] == data;
    RowMesh(grid, at, a, b, c);
    RowContents(a, b, c);
    hide *;
  }

  lemma RowIsGrid(at: map<Loc, Tile>)
    requires at.Keys == {Loc(0, 0), Loc(1, 0), Loc(2, 0)}
    ensures exists w: nat, h: nat :: w > 0 && h > 0 && IsGrid(at, w, h)
  {
    assert IsGrid(at, 3, 1);
  }

  lemma RowMesh(grid: Grid, at: map<Loc, Tile>, a: Tile, b: Tile, c: Tile)
    requires grid.Valid() && at == map[Loc(0, 0) := a, Loc(1, 0) := b, Loc(2, 0) := c] && IsLocMap(at, grid.mesh)
    ensures grid.Seen(East) == RowTiles(a, b, c) && Tiles(grid.mesh) == {a, b, c}
  {
    var m := grid.mesh;
    assert Loc(0, 0) in at && Loc(1, 0) in at && Loc(2, 0) in at && Loc(3, 0) !in at;
    assert Loc(0, 1) !in at && Loc(1, 1) !in at && Loc(2, 1) !in at;
    assert Inside(m, 0, 0) && Inside(m, 1, 0) && Inside(m, 2, 0) && !Inside(m, 3, 0);
    assert !Inside(m, 0, 1) && !Inside(m, 1, 1) && !Inside(m, 2, 1);
    assert |m| == 3 && |m[0]| == 1 && |m[1]| == 1 && |m[2]| == 1;
    assert m[0] == [a] && m[1] == [b] && m[2] == [c];
  }

  lemma RowContents(a: Tile, b: Tile, c: Tile)
    requires AreNew(a, b, c)
    ensures ContentsOf({a, b, c}) == Row(a, b, c)
  {
    hide DataOf;
  }

  method MergeRow(grid: Grid, a: Tile, b: Tile, c: Tile) returns (ok: bool)
    requires HoldsRow(grid, a, b, c, Row(a, b, c))
    modifies Tiles(grid.mesh)
    ensures ok && HoldsRow(grid, a, b, c, RowMerged(a, b, c))
  {
    WestOfLast(grid, a, b, c, Row(a, b, c));
    MergeDone(a, b, c);
    hide Row, RowMerged, RowTiles, Merged, IsMesh, Oriented, ContentsOf, Tiles;
    ok := grid.MergeInDir(c, West);
  }

  lemma WestOfLast(grid: Grid, a: Tile, b: Tile, c: Tile, h: Contents)
    requires HoldsRow(grid, a, b, c, h)
    ensures c.Link(West) == Some(b)
  {
    grid.SeenMeshed(East);
    var m := grid.Seen(East);
    assert Inside(m, 2, 0) && m[2][0] == c && m[1][0] == b;
    hide Oriented, Rectangular, Injective, Tiles;
    assert Along(West, East) == -1 && Along(West, NextDir(East)) == 0;
    assert LinkOf(Snapshot(Tiles(m)), m[2][0], West) == At(m, 2 - 1, 0);
  }

  method SplitRow(grid: Grid, a: Tile, b: Tile, c: Tile) returns (ok: bool)
    requires HoldsRow(grid, a, b, c, RowMerged(a, b, c))
    modifies grid`mesh, grid`originX, grid`originY, Tiles(grid.mesh)
    ensures ok && grid.Valid() && AllSites(ContentsOf(Tiles(grid.mesh))) == multiset{}
  {
    ghost var h, m: Lines<Tile> := ContentsOf(Tiles(grid.mesh)), grid.Seen(East);
    RowTwoWay(grid, a, b, c);
    ghost var lines, run, failed;
    hide Row, RowMerged, RowTiles, ContentsOf, Tiles, Meshed, IsRun, AllSites, Oriented, IsMesh;
    ok, lines, run, failed := grid.SplitTileType(1, [3, 4], East, map[]);
    RowRun(grid, h, m, a, b, c, ok, lines, run);
  }

  lemma RowTwoWay(grid: Grid, a: Tile, b: Tile, c: Tile)
    requires Apart(a, b, c) && grid.emptyTileTypePkey == EMPTY
    ensures grid.TwoWay(RowMerged(a, b, c), RowTiles(a, b, c), 1, [3, 4])
  {
    var m := RowTiles(a, b, c);
    assert m[0] == [a] && m[1] == [b] && m[2] == [c];
  }

  lemma OnlyFirst(h: Contents, m: Lines<Tile>, a: Tile, b: Tile, c: Tile, items: seq<Tile>, lines: seq<nat>)
    requires Apart(a, b, c) && m == RowTiles(a, b, c) && h == RowMerged(a, b, c) && a in items
    requires Found(h, m, items, 1, lines)
    ensures lines == [0] && SitesPlaced(h, m, 0, 1, 2, map[])
  {
    assert m[0] == [a] && m[1] == [b] && m[2] == [c];
    assert Discovered(h, m, items, 1, 0) && !Discovered(h, m, items, 1, 1) && !Discovered(h, m, items, 1, 2);
    assert 0 in lines && 1 !in lines && 2 !in lines;
    forall q | 0 <= q < |lines| ensures lines[q] == 0 { assert lines[q] in lines; }
    DistinctSize(lines);
    assert Elements(lines) == {0};
  }

  lemma RowRun(grid: Grid, h: Contents, m: Lines<Tile>, a: Tile, b: Tile, c: Tile, ok: bool, lines: seq<nat>,
      run: Run)
    requires grid.Valid() && grid.emptyTileTypePkey == EMPTY && Apart(a, b, c) && a in grid.items
    requires m == RowTiles(a, b, c) && h == RowMerged(a, b, c)
    requires Found(h, m, grid.items, 1, lines)
    requires ok <==> forall q :: 0 <= q < |lines| ==> SitesPlaced(h, m, lines[q], 1, 2, map[])
    requires ok ==> |run.ops| == |lines| && grid.Splitting(h, m, lines, 1, [3, 4], East, map[], true, run)
    ensures ok && AllSites(ContentsOf(Tiles(grid.mesh))) == multiset{}
  {
    OnlyFirst(h, m, a, b, c, grid.items, lines);
    hide Found, SitesPlaced, Done, Tiles, ContentsOf, Remaining, Injective, Rectangular, RowMerged, RowTiles, AllSites;
    assert run.ops[..0] == [];
    assert SplitsLine(run.ops[0], m, m[0], 1, [3, 4], map[]);
    assert Done(run.ops[0], h, ContentsOf(Tiles(grid.mesh)), EMPTY);
    NothingLeft(h, m, a, b, c, run.ops[0], ContentsOf(Tiles(grid.mesh)));
  }

  /** The split finds room for its second part, and what was there has no site afterwards. */
  lemma NothingLeft(h: Contents, m: Lines<Tile>, a: Tile, b: Tile, c: Tile, op: Operation, now: Contents)
    requires Apart(a, b, c) && m == RowTiles(a, b, c) && h == RowMerged(a, b, c)
    requires SplitsLine(op, m, m[0], 1, [3, 4], map[]) && Done(op, h, now, EMPTY)
    ensures AllSites(now) == multiset{}
  {
    assert m[0] == [a] && m[1] == [b] && m[2] == [c];
    assert op.i == 0 && Prepared(op, h, EMPTY);
    NoneToInsert(a, b, c, |op.e|);
    assert op.e == [];
    RowTilesAre(a, b, c);
    RowKept(h, op.mid, a, b, c);
    RowParts(op.mid, m, now, a, b, c);
    hide RowMerged, RowTiles, LineSplit, CanSplitLine, CountIs, Tiles;
    TotalEmpty(SitesIn(now), now.Keys);
  }

  lemma RowKept(h: Contents, mid: Contents, a: Tile, b: Tile, c: Tile)
    requires Apart(a, b, c) && h == RowMerged(a, b, c) && Kept(h, mid)
    ensures a in mid && b in mid && c in mid && mid[a] == h[a] && mid[b] == h[b] && mid[c] == h[c]
  {
  }

  lemma NoneToInsert(a: Tile, b: Tile, c: Tile, num: nat)
    requires Apart(a, b, c)
    requires CountIs(RowMerged(a, b, c), RowTiles(a, b, c), 0, 1, 2, EMPTY, num)
    ensures num == 0
  {
    SplitPrepared(a, b, c);
  }

  lemma RowParts(mid: Contents, m: Lines<Tile>, now: Contents, a: Tile, b: Tile, c: Tile)
    requires Apart(a, b, c) && m == RowTiles(a, b, c) && a in mid && b in mid && c in mid
    requires mid[a] == Data([1], [1], 1, [], false) && mid[c].sites == []
    requires LineSplit(mid, m, 0, 1, 1, [3, 4], map[], now)
    ensures forall t :: t in now ==> now[t].sites == []
  {
    assert m[0] == [a] && m[1] == [b] && m[2] == [c];
    assert Inside(m, 0, 0) && Inside(m, 1, 0) && Inside(m, 2, 0);
    RowTilesAre(a, b, c);
    PartOf(mid, m, 0, 1, 1, [3, 4], map[], now, 0, 0);
    PartOf(mid, m, 0, 1, 1, [3, 4], map[], now, 1, 0);
    PartOf(mid, m, 0, 1, 1, [3, 4], map[], now, 2, 0);
    assert now.Keys == {a, b, c};
    hide LineSplit, Tiles;
  }

  /** Make the grid, merge the third tile into the second, split the first over it: every call goes through,
      and the one site there was is gone. */
  method LoseSite() returns (grid: Grid, ghost before: multiset<Site>, merged: bool, split: bool)
    ensures fresh(grid) && grid.Valid() && merged && split
    ensures before == multiset{SITE} && AllSites(ContentsOf(Tiles(grid.mesh))) == multiset{}
  {
    var a, b, c;
    hide HoldsRow, IsMesh, ContentsOf, Tiles, Row, RowMerged, AllSites;
    grid, a, b, c := MakeRow();
    before := AllSites(ContentsOf(Tiles(grid.mesh)));
    RowBefore(grid, a, b, c);
    merged := MergeRow(grid, a, b, c);
    split := SplitRow(grid, a, b, c);
  }

  lemma RowBefore(grid: Grid, a: Tile, b: Tile, c: Tile)
    requires HoldsRow(grid, a, b, c, Row(a, b, c))
    ensures AllSites(ContentsOf(Tiles(grid.mesh))) == multiset{SITE}
  {
    RowTotal(a, b, c);
  }
}
