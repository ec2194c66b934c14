/** utils/tile_splitter/grid.py, split_tile_type twice over on a grid of two tiles. The first call puts a line in
    and gives its tile the second of the new types. The list of tiles is made when the grid is made and not
    added to, so that tile is not on it. The second call, which is to split just that type, therefore finds no
    line, does nothing and succeeds. */
module GridAgain {
  import opened Sequences
  import opened Matrix
  import opened Mesh
  import opened Orientation
  import opened GridLoc
  import opened MeshBuilding
  import opened Splice
  import opened TileData
  import opened SplitLine
  import opened SplitType
  import opened Conserve
  import opened GridRuns
  import opened GridClass

  const EMPTY := 0

  /** A tile of type 1 with one of type 9 to its right. */
  ghost predicate IsPair(h: Contents, m: Lines<Tile>, a: Tile, b: Tile) {
    a != b && m == [[a], [b]] && h.Keys == {a, b} && h[a].typ == 1 && h[b].typ == 9 && h[a].sites == []
  }

  lemma OnlyFirst(h: Contents, m: Lines<Tile>, a: Tile, b: Tile, items: seq<Tile>, lines: seq<nat>)
    requires IsPair(h, m, a, b) && a in items && OnlyThese(items, a, b)
    requires Found(h, m, items, 1, lines)
    ensures lines == [0] && !Discovered(h, m, items, 1, 1)
    ensures SitesPlaced(h, m, 0, 1, 2, map[])
  {
    assert m[0] == [a] && m[1] == [b];
    assert Discovered(h, m, items, 1, 0);
    assert !Discovered(h, m, items, 1, 1);
    assert 0 in lines && 1 !in lines;
    forall q | 0 <= q < |lines| ensures lines[q] == 0 { assert lines[q] in lines; }
    DistinctSize(lines);
    assert Elements(lines) == {0};
  }

  /** One line is put in, and its tile gets the second type. */
  lemma FirstSplit(h: Contents, m: Lines<Tile>, a: Tile, b: Tile, op: Operation, now: Contents) returns (t: Tile)
    requires IsPair(h, m, a, b) && SplitsLine(op, m, m[0], 1, [2, 3], map[]) && Done(op, h, now, EMPTY)
    ensures IsLeft(now, a, b, t)
  {
    assert m[0] == [a] && m[1] == [b] && |m[0]| == 1;
    assert op.i == 0 && Prepared(op, h, EMPTY);
    OneToInsert(h, m, a, b);
    t := PairWidened(h, m, a, b, op);
    PairSplit(op.mid, Widened(op), now, a, t, b);
  }

  /** The line put in stands between the two tiles, which are as they were. */
  lemma PairWidened(h: Contents, m: Lines<Tile>, a: Tile, b: Tile, op: Operation) returns (t: Tile)
    requires IsPair(h, m, a, b) && op.Split? && op.m == m && op.i == 0 && |op.e| == 1
    requires LinesIn(h, m, 0, op.e, op.mid, EMPTY)
    ensures Widened(op) == [[a], [t], [b]]
    ensures IsRowOf(op.mid, a, t, b)
  {
    var w: Lines<Tile> := Widened(op);
    InsertLinesAt(m, 0, op.e, 0);
    InsertLinesAt(m, 0, op.e, 1);
    InsertLinesAt(m, 0, op.e, 2);
    assert EmptyLine(op.mid, op.e[0], 1, EMPTY);
    t := op.e[0][0];
    hide InsertLines;
    assert w[0] == [a] && w[1] == [t] && w[2] == [b];
  }

  ghost predicate IsRowOf(h: Contents, a: Tile, t: Tile, b: Tile) {
    a in h && t in h && b in h && h[a].typ == 1 && h[t].typ == EMPTY && h[b].typ == 9 && h[a].sites == []
  }

  lemma PairSplit(mid: Contents, w: Lines<Tile>, now: Contents, a: Tile, t: Tile, b: Tile)
    requires w == [[a], [t], [b]] && Rectangular(w) && IsRowOf(mid, a, t, b)
    requires LineSplit(mid, w, 0, 1, 1, [2, 3], map[], now)
    ensures IsLeft(now, a, b, t)
  {
    assert w[0] == [a] && w[1] == [t] && w[2] == [b];
    assert Inside(w, 0, 0) && Inside(w, 1, 0) && Inside(w, 2, 0);
    PartOf(mid, w, 0, 1, 1, [2, 3], map[], now, 0, 0);
    PartOf(mid, w, 0, 1, 1, [2, 3], map[], now, 1, 0);
    PartOf(mid, w, 0, 1, 1, [2, 3], map[], now, 2, 0);
    hide LineSplit;
  }

  lemma OneToInsert(h: Contents, m: Lines<Tile>, a: Tile, b: Tile)
    requires IsPair(h, m, a, b)
    ensures OccupiedBehind(h, m, 0, 1, 1, EMPTY)
  {
    assert TypeAt(h, m, 0, 0) == Some(1) && TypeAt(h, m, 1, 0) == Some(9);
    assert !EmptyBehind(h, m, 0, 0, 1, EMPTY);
  }

  lemma PairIsGrid(at: map<Loc, Tile>, a: Tile, b: Tile)
    requires at == map[Loc(0, 0) := a, Loc(1, 0) := b]
    ensures exists w: nat, h: nat :: w > 0 && h > 0 && IsGrid(at, w, h)
  {
    assert IsGrid(at, 2, 1);
  }

  /** What MakePair hands on, and what the first split leaves of it. */
  ghost predicate HoldsPair(grid: Grid, a: Tile, b: Tile)
    reads grid, Tiles(grid.mesh)
  {
    grid.Valid() && grid.emptyTileTypePkey == EMPTY && IsPair(ContentsOf(Tiles(grid.mesh)), grid.Seen(East), a, b)
    && a in grid.items && OnlyThese(grid.items, a, b)
  }

  ghost predicate OnlyThese(items: seq<Tile>, a: Tile, b: Tile) {
    forall k :: 0 <= k < |items| ==> items[k] == a || items[k] == b
  }

  method MakePair() returns (grid: Grid, a: Tile, b: Tile)
    ensures fresh(grid) && fresh(Tiles(grid.mesh)) && HoldsPair(grid, a, b)
  {
    a := new Tile([1], [1], 1, []);
    b := new Tile([2], [2], 9, []);
    var at := map[Loc(0, 0) := a, Loc(1, 0) := b];
    PairIsGrid(at, a, b);
    hide IsMesh, Snapshot, Oriented, ContentsOf, Tiles, IsPair, IsGrid;
    var made := MakeGrid(at, EMPTY);
    grid := made.value;
    PairMesh(grid, at, a, b);
    PairItems(grid, a, b);
    hide *;
  }

  lemma PairItems(grid: Grid, a: Tile, b: Tile)
    requires Tiles(grid.mesh) == {a, b} && forall t :: t in grid.items <==> t in Tiles(grid.mesh)
    ensures a in grid.items && OnlyThese(grid.items, a, b)
  {
    hide Tiles;
    assert forall k :: 0 <= k < |grid.items| ==> grid.items[k] in grid.items;
  }

  /** The first call puts one line in: its tile, of type 3, is not listed. */
  method FirstCall(grid: Grid, a: Tile, b: Tile) returns (ok: bool, ghost t: Tile)
    requires HoldsPair(grid, a, b)
    modifies grid`mesh, grid`originX, grid`originY, Tiles(grid.mesh)
    ensures ok && grid.Valid() && fresh(Tiles(grid.mesh) - old(Tiles(grid.mesh)))
    ensures IsLeft(ContentsOf(Tiles(grid.mesh)), a, b, t)
  {
    ghost var h, m: Lines<Tile> := ContentsOf(Tiles(grid.mesh)), grid.Seen(East);
    FirstTwoWay(grid, h, m, a, b);
    hide ContentsOf, Tiles, IsPair, IsLeft, Meshed, OnlyThese, IsRun;
    ghost var lines, run, failed;
    ok, lines, run, failed := grid.SplitTileType(1, [2, 3], East, map[]);
    t := FirstRun(grid, h, m, a, b, ok, lines, run);
  }

  /** The first tile has the first new type, the tile put in the second; that one is a split tile now, and
      there was no site for it. */
  ghost predicate IsLeft(h: Contents, a: Tile, b: Tile, t: Tile) {
    a in h && b in h && t in h && h[a].typ == 2 && h[b].typ == 9 && h[t].typ == 3 && h[t].split && h[t].sites == []
  }

  /** The second call does nothing. */
  method SecondCall(grid: Grid, a: Tile, b: Tile, ghost t: Tile) returns (ok: bool)
    requires grid.Valid() && grid.emptyTileTypePkey == EMPTY && OnlyThese(grid.items, a, b)
    requires IsLeft(ContentsOf(Tiles(grid.mesh)), a, b, t)
    modifies grid`mesh, grid`originX, grid`originY, Tiles(grid.mesh)
    ensures ok && grid.Valid() && ContentsOf(Tiles(grid.mesh)) == old(ContentsOf(Tiles(grid.mesh)))
  {
    ghost var h, m: Lines<Tile> := ContentsOf(Tiles(grid.mesh)), grid.Seen(East);
    NoneTwoWay(grid, h, m, a, b, t);
    hide ContentsOf, Tiles, IsLeft, Meshed, OnlyThese, IsRun;
    ghost var lines, run, failed;
    ok, lines, run, failed := grid.SplitTileType(3, [4, 5], East, map[]);
    SecondRun(grid, h, m, a, b, t, ok, lines, run);
  }

  /** Two tiles; type 1 is split into 2 and 3, then 3 into 4 and 5. Both calls succeed, and a tile of type 3 is
      there afterwards: a split tile without a site. */
  method SplitTwice() returns (grid: Grid, first: bool, second: bool, ghost t: Tile)
    ensures fresh(grid) && grid.Valid() && first && second
    ensures t in Tiles(grid.mesh) && t.tileTypePkey == 3 && t.splitSites && t.sites == []
  {
    var a, b;
    hide HoldsPair, OnlyThese, IsLeft, IsMesh, ContentsOf, Tiles;
    grid, a, b := MakePair();
    PairListed(grid, a, b);
    first, t := FirstCall(grid, a, b);
    second := SecondCall(grid, a, b, t);
    TypeRead(Tiles(grid.mesh), ContentsOf(Tiles(grid.mesh)), a, b, t);
  }

  lemma PairListed(grid: Grid, a: Tile, b: Tile)
    requires HoldsPair(grid, a, b)
    ensures grid.emptyTileTypePkey == EMPTY && OnlyThese(grid.items, a, b)
  {
  }

  lemma FirstTwoWay(grid: Grid, h: Contents, m: Lines<Tile>, a: Tile, b: Tile)
    requires IsPair(h, m, a, b) && grid.emptyTileTypePkey == EMPTY
    requires OnlyThese(grid.items, a, b)
    ensures grid.TwoWay(h, m, 1, [2, 3])
  {
    assert m[0] == [a] && m[1] == [b];
  }

  /** What the first call does. */
  lemma FirstRun(grid: Grid, h: Contents, m: Lines<Tile>, a: Tile, b: Tile, ok: bool, lines: seq<nat>, run: Run)
    returns (t: Tile)
    requires grid.Valid() && grid.emptyTileTypePkey == EMPTY && IsPair(h, m, a, b) && a in grid.items
    requires OnlyThese(grid.items, a, b)
    requires Found(h, m, grid.items, 1, lines)
    requires ok <==> forall q :: 0 <= q < |lines| ==> SitesPlaced(h, m, lines[q], 1, 2, map[])
    requires ok ==> |run.ops| == |lines| && grid.Splitting(h, m, lines, 1, [2, 3], East, map[], true, run)
    ensures ok && IsLeft(ContentsOf(Tiles(grid.mesh)), a, b, t)
  {
    OnlyFirst(h, m, a, b, grid.items, lines);
    hide IsPair, Found, SitesPlaced, Done, Tiles, ContentsOf, Remaining, Injective, Rectangular;
    assert run.ops[..0] == [];
    assert SplitsLine(run.ops[0], m, m[0], 1, [2, 3], map[]);
    assert Done(run.ops[0], h, ContentsOf(Tiles(grid.mesh)), EMPTY);
    t := FirstSplit(h, m, a, b, run.ops[0], ContentsOf(Tiles(grid.mesh)));
  }

  lemma NoneTwoWay(grid: Grid, h: Contents, m: Lines<Tile>, a: Tile, b: Tile, t: Tile)
    requires grid.emptyTileTypePkey == EMPTY && IsLeft(h, a, b, t)
    requires OnlyThese(grid.items, a, b)
    ensures grid.TwoWay(h, m, 3, [4, 5])
  {
  }

  /** What the second call does: nothing. */
  lemma SecondRun(grid: Grid, h: Contents, m: Lines<Tile>, a: Tile, b: Tile, t: Tile, ok: bool, lines: seq<nat>,
      run: Run)
    requires grid.Valid() && grid.emptyTileTypePkey == EMPTY && IsLeft(h, a, b, t)
    requires OnlyThese(grid.items, a, b)
    requires Found(h, m, grid.items, 3, lines)
    requires ok <==> forall q :: 0 <= q < |lines| ==> SitesPlaced(h, m, lines[q], 3, 2, map[])
    requires ok ==> |run.ops| == |lines| && grid.Splitting(h, m, lines, 3, [4, 5], East, map[], true, run)
    ensures ok && ContentsOf(Tiles(grid.mesh)) == h
  {
    hide Tiles, ContentsOf, Remaining, Injective, Rectangular, SitesPlaced, Done;
    assert forall q :: 0 <= q < |lines| ==> lines[q] in lines;
    assert lines == [];
  }

  lemma TypeRead(tiles: set<Tile>, h: Contents, a: Tile, b: Tile, t: Tile)
    requires h == ContentsOf(tiles) && IsLeft(h, a, b, t)
    ensures t in tiles && t.tileTypePkey == 3 && t.splitSites && t.sites == []
  {
  }

  lemma PairMesh(grid: Grid, at: map<Loc, Tile>, a: Tile, b: Tile)
    requires grid.Valid() && at == map[Loc(0, 0) := a, Loc(1, 0) := b] && IsLocMap(at, grid.mesh)
    requires a != b && a.tileTypePkey == 1 && b.tileTypePkey == 9 && a.sites == []
    ensures grid.Seen(East) == [[a], [b]] && Tiles(grid.mesh) == {a, b}
    ensures IsPair(ContentsOf(Tiles(grid.mesh)), grid.Seen(East), a, b)
  {
    var m := grid.mesh;
    assert Loc(0, 0) in at && Loc(1, 0) in at && Loc(2, 0) !in at && Loc(0, 1) !in at && Loc(1, 1) !in at;
    assert Inside(m, 0, 0) && Inside(m, 1, 0) && !Inside(m, 2, 0) && !Inside(m, 0, 1) && !Inside(m, 1, 1);
    assert |m| == 2 && |m[0]| == 1 && |m[1]| == 1;
    assert m[0] == [a] && m[1] == [b];
  }
}
