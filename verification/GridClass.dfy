/** utils/tile_splitter/grid.py, class Grid: the mesh on the heap. The object keeps, as a ghost, the
    matrix its tiles form, columns from west to east and each from north to south, together with the
    place of the origin in it; every operation is stated as an operation on that matrix and on the
    contents of its tiles. */
module GridClass {
  import opened Sequences
  import opened Matrix
  import opened Mesh
  import opened Orientation
  import opened Splice
  import opened GridLoc
  import opened TileData
  import opened MeshBuilding
  import opened SplitLine
  import opened SplitType
  import opened Conserve
  import opened GridRuns
  import TwoWaySites

  /** The part of the mesh right of and below a place. */
  ghost function From<T>(m: Lines<T>, x: nat, y: nat): Lines<T>
    requires Rectangular(m) && x < |m| && y < |m[0]|
  {
    seq(|m| - x, i requires 0 <= i < |m| - x => m[x + i][y..])
  }

  lemma FromAt<T>(m: Lines<T>, x: nat, y: nat)
    requires Rectangular(m) && x < |m| && y < |m[0]|
    ensures Rectangular(From(m, x, y)) && |From(m, x, y)| == |m| - x && |From(m, x, y)[0]| == |m[0]| - y
    ensures forall i, j :: i >= 0 && j >= 0 ==> At(From(m, x, y), i, j) == At(m, x + i, y + j)
  {
  }

  lemma SpliceStart(m: Lines<Tile>, i: nat, dir: Direction, empty: int)
    requires IsMesh(Snapshot(Tiles(m)), m, dir, NextDir(dir)) && i < |m|
    ensures Splicing(Snapshot(Tiles(m) + Members([])), m, i, [], 0, dir)
    ensures EmptyCopies(m[i], [], empty) && Members([]) == {}
  {
    SplicingStarts(Snapshot(Tiles(m)), m, i, dir);
    assert Tiles(m) + Members([]) == Tiles(m);
  }

  lemma FromAtPoint<T>(m: Lines<T>, x: nat, y: nat, i: nat, j: nat)
    requires Rectangular(m) && x < |m| && y < |m[0]|
    ensures At(From(m, x, y), i, j) == At(m, x + i, y + j)
  {
    FromAt(m, x, y);
  }

  /** The links right and down, in a part of the mesh. */
  lemma PartLinks(g: Links, m: Lines<Tile>, ox: nat, oy: nat, x: nat, y: nat)
    requires IsMesh(g, m, East, South) && ox < |m| && oy < |m[0]| && Inside(From(m, ox, oy), x, y)
    ensures From(m, ox, oy)[x][y] in Tiles(m)
    ensures LinkOf(g, From(m, ox, oy)[x][y], South) == At(From(m, ox, oy), x, y + 1)
    ensures LinkOf(g, From(m, ox, oy)[x][y], East) == At(From(m, ox, oy), x + 1, y)
  {
    hide Injective, From, LinksFit, Rectangular, Tiles, LinkOf;
    FromAtPoint(m, ox, oy, x, y);
    FromAtPoint(m, ox, oy, x, y + 1);
    FromAtPoint(m, ox, oy, x + 1, y);
    assert At(From(m, ox, oy), x, y) == At(m, ox + x, oy + y);
    InTiles(m, ox + x, oy + y);
    LinkAt(g, m, East, South, ox + x, oy + y, South);
    LinkAt(g, m, East, South, ox + x, oy + y, East);
  }

  lemma LinkIs(tiles: set<Tile>, t: Tile, d: Direction)
    requires t in tiles
    ensures LinkOf(Snapshot(tiles), t, d) == t.Link(d)
  {
  }

  /** Each new tile is empty and lists the keys of the tile it was put behind. */
  ghost predicate EmptyCopies(line: seq<Tile>, e: seq<Tile>, empty: int)
    reads Members(line)`phyTilePkeys
    reads Members(e)`rootPhyTilePkeys, Members(e)`phyTilePkeys, Members(e)`tileTypePkey, Members(e)`sites,
      Members(e)`splitSites
  {
    |e| <= |line| && forall c :: 0 <= c < |e| ==> DataOf(e[c]) == Data([], line[c].phyTilePkeys, empty, [], false)
  }

  lemma EmptyCopiesSnoc(line: seq<Tile>, e: seq<Tile>, t: Tile, empty: int)
    requires EmptyCopies(line, e, empty) && |e| < |line|
    requires DataOf(t) == Data([], line[|e|].phyTilePkeys, empty, [], false)
    ensures EmptyCopies(line, e + [t], empty)
  {
  }

  // ----- building the mesh -----

  ghost function MatrixOf(grid: map<Loc, Tile>, w: nat, h: nat): Lines<Tile>
    requires IsGrid(grid, w, h)
  {
    seq(w, x requires 0 <= x < w => seq(h, y requires 0 <= y < h => grid[Loc(x, y)]))
  }

  ghost predicate Unlinked(grid: map<Loc, Tile>)
    reads grid.Values`neighboors
  {
    (forall l :: l in grid ==> grid[l].neighboors == map[])
    && forall l, k :: l in grid && k in grid && l != k ==> grid[l] != grid[k]
  }

  lemma MatrixOfTiles(grid: map<Loc, Tile>, w: nat, h: nat)
    requires IsGrid(grid, w, h)
    ensures Tiles(MatrixOf(grid, w, h)) == grid.Values
  {
    var m := MatrixOf(grid, w, h);
    forall t | t in grid.Values ensures t in Tiles(m) {
      var l :| l in grid && grid[l] == t;
      InTiles(m, l.x, l.y);
    }
    forall t | t in Tiles(m) ensures t in grid.Values {
      var i, j :| 0 <= i < |m| && 0 <= j < |m[i]| && m[i][j] == t;
      assert Loc(i, j) in grid && grid[Loc(i, j)] == t;
    }
  }

  lemma MatrixOfGrid(grid: map<Loc, Tile>, w: nat, h: nat)
    requires IsGrid(grid, w, h) && w > 0 && h > 0 && Unlinked(grid)
    ensures var m := MatrixOf(grid, w, h);
      IsLocMap(grid, m) && Partial(Snapshot(Tiles(m)), m, {}) && Tiles(m) == grid.Values
  {
    var m := MatrixOf(grid, w, h);
    forall i, j ensures Inside(m, i, j) <==> 0 <= i < w && 0 <= j < h {}
    forall i, j, k, l | Inside(m, i, j) && Inside(m, k, l) && m[i][j] == m[k][l] ensures i == k && j == l {
      assert grid[Loc(i, j)] == grid[Loc(k, l)];
    }
    MatrixOfTiles(grid, w, h);
    hide Tiles, Partial;
    NothingMade(Snapshot(Tiles(m)), m);
  }

  /** The tiles of the grid, each once, in some order. */
  method Values(grid: map<Loc, Tile>) returns (items: seq<Tile>)
    requires forall l, k :: l in grid && k in grid && l != k ==> grid[l] != grid[k]
    ensures Distinct(items) && forall t :: t in items <==> t in grid.Values
  {
    items := [];
    var left := grid.Keys;
    while left != {}
      invariant left <= grid.Keys
      invariant Distinct(items) && forall t :: t in items <==> exists l :: l in grid && l !in left && grid[l] == t
      decreases left
    {
      var l :| l in left;
      assert grid[l] !in items;
      left := left - {l};
      items := items + [grid[l]];
    }
  }

  /** The constructor of the source: fails exactly on a grid that is not a full rectangle at (0, 0). */
  method MakeGrid(grid: map<Loc, Tile>, empty: int) returns (r: Option<Grid>)
    requires Unlinked(grid)
    modifies grid.Values`neighboors
    ensures r.Some? <==> exists w: nat, h: nat :: w > 0 && h > 0 && IsGrid(grid, w, h)
    ensures r.Some? ==> fresh(r.value) && r.value.Valid() && IsLocMap(grid, r.value.mesh)
    ensures r.Some? ==> r.value.originX == 0 && r.value.originY == 0 && r.value.emptyTileTypePkey == empty
    ensures r.Some? ==> forall t :: t in r.value.items <==> t in Tiles(r.value.mesh)
  {
    var ok := CheckGridLoc(grid);
    if !ok {
      return None;
    }
    ghost var w: nat, h: nat :| w > 0 && h > 0 && IsGrid(grid, w, h);
    ghost var m := StitchAll(grid, w, h);
    hide IsGrid, Tiles, Snapshot, IsMesh;
    var items := Values(grid);
    var g := new Grid(grid[Loc(0, 0)], items, empty, m);
    return Some(g);
  }

  /** Links all tiles of a full grid. */
  method StitchAll(grid: map<Loc, Tile>, ghost w: nat, ghost h: nat) returns (ghost m: Lines<Tile>)
    requires Unlinked(grid) && w > 0 && h > 0 && IsGrid(grid, w, h)
    modifies grid.Values`neighboors
    ensures IsLocMap(grid, m) && Tiles(m) == grid.Values && IsMesh(Snapshot(Tiles(m)), m, East, South)
    ensures Loc(0, 0) in grid && m[0][0] == grid[Loc(0, 0)]
  {
    assert Loc(0, 0) in grid;
    hide Partial, MatrixOf, Unlinked, IsGrid, Tiles, Snapshot, Closed, LinksFit, Injective;
    m := MatrixOf(grid, w, h);
    MatrixOfGrid(grid, w, h);
    assert Inside(m, 0, 0);
    var visited, made := BuildMesh(grid[Loc(0, 0)], {}, Loc(0, 0), grid, m, {});
    WentFromStart(m, made, visited);
    AllMade(Snapshot(Tiles(m)), m, made, visited);
  }

  lemma WentFromStart(m: Lines<Tile>, made: Edges, visited: set<Tile>)
    requires Went(m, {}, {}, made, visited)
    ensures ClosedSince(m, made, {}, visited)
  {
  }

  // ----- a line put into the whole mesh -----

  /** The line fits next to line i of the mesh seen in a direction. */
  ghost predicate Extends(m: Lines<Tile>, dir: Direction, i: nat, line: seq<Tile>) {
    Rectangular(m) && i < Breadth(m, dir) && |line| == if Horizontal(dir) then |m[0]| else |m|
  }

  ghost function ShiftX(m: Lines<Tile>, dir: Direction, i: nat, x: nat): nat
    requires Rectangular(m)
  {
    if Horizontal(dir) && Index(m, dir, i) <= x then x + 1 else x
  }

  ghost function ShiftY(m: Lines<Tile>, dir: Direction, i: nat, y: nat): nat
    requires Rectangular(m)
  {
    if !Horizontal(dir) && Index(m, dir, i) <= y then y + 1 else y
  }

  /** Only the first tile of a line has nothing before it. */
  lemma TopOfLine(g: Links, m: Lines<Tile>, dir: Direction, i: nat, j: nat)
    requires IsMesh(g, m, East, South) && Inside(Oriented(m, dir), i, j)
    ensures Oriented(m, dir)[i][j] in Tiles(m)
    ensures LinkOf(g, Oriented(m, dir)[i][j], Opposite(NextDir(dir))) == None <==> j == 0
    ensures IsMesh(g, Oriented(m, dir), dir, NextDir(dir)) && Tiles(Oriented(m, dir)) == Tiles(m)
  {
    var o: Lines<Tile> := Oriented(m, dir);
    var back := Opposite(NextDir(dir));
    OrientedMesh(g, m, dir);
    Perpendicular(back, dir);
    hide Oriented, Injective, Along, Opposite, Tiles;
    InTiles(o, i, j);
    LinkAt(g, o, dir, NextDir(dir), i, j, back);
  }

  lemma WithLineAt(m: Lines<Tile>, dir: Direction, i: nat, line: seq<Tile>, x: nat, y: nat)
    requires Extends(m, dir, i, line) && Inside(m, x, y)
    ensures At(WithLine(m, dir, Index(m, dir, i), line), ShiftX(m, dir, i, x), ShiftY(m, dir, i, y)) == Some(m[x][y])
  {
    var k := Index(m, dir, i);
    hide InsertLine, InsertRow, Rectangular;
    if Horizontal(dir) { InsertLineAt(m, k, line); } else { InsertRowAt(m, k, line); }
  }

  lemma LineFits(m: Lines<Tile>, dir: Direction, i: nat)
    requires Rectangular(m) && i < |Oriented(m, dir)|
    ensures |Oriented(m, dir)[0]| == if Horizontal(dir) then |m[0]| else |m|
    ensures i < Breadth(m, dir)
    ensures Rectangular(Oriented(m, dir))
  {
    OrientedShape(m, dir);
  }

  /** A line spliced in, in the columns of the whole mesh. */
  lemma GridAfter(g: Links, m: Lines<Tile>, dir: Direction, i: nat, line: seq<Tile>)
    requires Extends(m, dir, i, line) && i < |Oriented(m, dir)|
    requires IsMesh(g, InsertLine(Oriented(m, dir), i + 1, line), dir, NextDir(dir))
    ensures IsMesh(g, WithLine(m, dir, Index(m, dir, i), line), East, South)
    ensures Tiles(WithLine(m, dir, Index(m, dir, i), line)) == Tiles(InsertLine(Oriented(m, dir), i + 1, line))
  {
    hide Oriented, Columns, InsertLine, WithLine, Tiles, LinksFit, Injective, Rectangular;
    ColumnsInsert(m, dir, i, line);
    ColumnsMesh(g, InsertLine(Oriented(m, dir), i + 1, line), dir);
  }

  /** The new mesh, and the origin in it. */
  lemma GridHolds(g: Links, m: Lines<Tile>, dir: Direction, i: nat, line: seq<Tile>, x: nat, y: nat, origin: Tile)
    requires Rectangular(m) && i < |Oriented(m, dir)| && |line| == |Oriented(m, dir)[0]|
    requires IsMesh(g, InsertLine(Oriented(m, dir), i + 1, line), dir, NextDir(dir))
      && g.Keys == Tiles(m) + Members(line)
    requires x < |m| && y < |m[0]| && m[x][y] == origin
    ensures Extends(m, dir, i, line)
    ensures var now, u, v := WithLine(m, dir, Index(m, dir, i), line), ShiftX(m, dir, i, x), ShiftY(m, dir, i, y);
      IsMesh(g, now, East, South) && Tiles(now) == Tiles(m) + Members(line)
      && u < |now| && v < |now[0]| && now[u][v] == origin
  {
    LineFits(m, dir, i);
    GridAfter(g, m, dir, i, line);
    WithLineAt(m, dir, i, line, x, y);
    hide Oriented, WithLine, Tiles, Members, LinksFit, Injective, InsertLine, Index, ShiftX, ShiftY, Breadth;
  }

  lemma EmptyCopiesAre(from: seq<Tile>, line: seq<Tile>, empty: int, tiles: set<Tile>)
    requires EmptyCopies(from, line, empty) && Members(line) <= tiles
    ensures EmptyLine(ContentsOf(tiles), line, |line|, empty)
  {
    forall c | 0 <= c < |line|
      ensures line[c] in tiles && DataOf(line[c]).typ == empty
    {
      assert line[c] in Members(line);
    }
  }

  lemma TopSeen(m: Lines<Tile>, i: nat, e: Lines<Tile>, seen: Lines<Tile>)
    requires Inside(m, i, 0) && seen == InsertLines(m, i, e)
    ensures Inside(seen, i, 0) && seen[i][0] == m[i][0]
  {
    InsertLinesAt(m, i, e, i);
  }

  lemma LineWidth(was: Lines<Tile>, dir: Direction, i: nat, line: seq<Tile>, m: Lines<Tile>, e: Lines<Tile>)
    requires Extends(was, dir, i, line) && i < |m| && Rectangular(m) && Oriented(was, dir) == InsertLines(m, i, e)
    ensures |line| == |m[0]|
  {
    OrientedShape(was, dir);
    InsertLinesAt(m, i, e, i);
  }

  lemma SeenWithLine(was: Lines<Tile>, dir: Direction, i: nat, line: seq<Tile>, m: Lines<Tile>, e: Lines<Tile>)
    requires Extends(was, dir, i, line) && i < |m| && Oriented(was, dir) == InsertLines(m, i, e)
    ensures Rectangular(WithLine(was, dir, Index(was, dir, i), line))
    ensures Oriented(WithLine(was, dir, Index(was, dir, i), line), dir) == InsertLines(m, i, [line] + e)
    ensures Rectangular(InsertLines(m, i, [line] + e))
  {
    hide Oriented, WithLine, InsertLine, InsertLines, Index;
    OrientedWithLine(was, dir, i, line);
    InsertOneMore(m, i, e, line);
    OrientedShape(WithLine(was, dir, Index(was, dir, i), line), dir);
  }

  // ----- what walking from the origin shows after a line is put in -----

  /** The part of the mesh right of and below the origin, after a line is put in at column or row k. */
  ghost function ShownWith(m: Lines<Tile>, dir: Direction, k: int, line: seq<Tile>, x: nat, y: nat): Lines<Tile>
    requires Rectangular(m) && x < |m| && y < |m[0]| && 0 <= k <= Breadth(m, dir)
    requires |line| == if Horizontal(dir) then |m[0]| else |m|
  {
    FromAt(m, x, y);
    if Horizontal(dir) then
      if k <= x then From(m, x, y) else InsertLine(From(m, x, y), k - x, line[y..])
    else
      if k <= y then From(m, x, y) else InsertRow(From(m, x, y), k - y, line[x..])
  }

  lemma {:induction false} FromColumns(m: Lines<Tile>, k: nat, line: seq<Tile>, x: nat, y: nat)
    requires Rectangular(m) && x < |m| && y < |m[0]| && k <= |m| && |line| == |m[0]|
    ensures Rectangular(InsertLine(m, k, line)) && |InsertLine(m, k, line)| == |m| + 1
      && |InsertLine(m, k, line)[0]| == |m[0]|
    ensures k <= x ==> From(InsertLine(m, k, line), x + 1, y) == From(m, x, y)
    ensures k > x ==> k - x <= |From(m, x, y)|
    ensures k > x ==> From(InsertLine(m, k, line), x, y) == InsertLine(From(m, x, y), k - x, line[y..])
  {
    var n: Lines<Tile> := InsertLine(m, k, line);
    InsertLineAt(m, k, line);
    assert forall i :: 0 <= i < |n| ==> n[i] == if i < k then m[i] else if i == k then line else m[i - 1];
  }

  lemma {:induction false} FromRows(m: Lines<Tile>, k: nat, row: seq<Tile>, x: nat, y: nat)
    requires Rectangular(m) && x < |m| && y < |m[0]| && k <= |m[0]| && |row| == |m|
    ensures Rectangular(InsertRow(m, k, row)) && |InsertRow(m, k, row)| == |m|
      && |InsertRow(m, k, row)[0]| == |m[0]| + 1
    ensures k <= y ==> From(InsertRow(m, k, row), x, y + 1) == From(m, x, y)
    ensures k > y ==> Rectangular(From(m, x, y)) && k - y <= |From(m, x, y)[0]| && |From(m, x, y)| == |m| - x
    ensures k > y ==> From(InsertRow(m, k, row), x, y) == InsertRow(From(m, x, y), k - y, row[x..])
  {
    FromAt(m, x, y);
    var n: Lines<Tile> := InsertRow(m, k, row);
    forall i | 0 <= i < |n|
      ensures k <= y ==> n[i][y + 1..] == m[i][y..]
      ensures k > y ==> n[i][y..] == m[i][y..][..k - y] + [row[i]] + m[i][y..][k - y..]
    {
      assert n[i] == m[i][..k] + [row[i]] + m[i][k..];
    }
  }

  /** What the origin shows afterwards: the old view with one column or row more at the right place, or
      the old view as it was when the line goes in before the origin's own column or row. */
  lemma ReadBack(m: Lines<Tile>, dir: Direction, i: nat, line: seq<Tile>, x: nat, y: nat)
    requires Extends(m, dir, i, line) && x < |m| && y < |m[0]|
    ensures var now, u, v := WithLine(m, dir, Index(m, dir, i), line), ShiftX(m, dir, i, x), ShiftY(m, dir, i, y);
      Rectangular(now) && u < |now| && v < |now[0]|
      && From(now, u, v) == ShownWith(m, dir, Index(m, dir, i), line, x, y)
  {
    if Horizontal(dir) {
      FromColumns(m, Index(m, dir, i), line, x, y);
    } else {
      FromRows(m, Index(m, dir, i), line, x, y);
    }
    hide From, InsertLine, InsertRow, Rectangular;
  }

  class Grid {
    var origin: Tile
    var items: seq<Tile>
    const emptyTileTypePkey: int
    /** The whole mesh by columns; the origin stands at (originX, originY). */
    ghost var mesh: Lines<Tile>
    ghost var originX: nat
    ghost var originY: nat

    constructor (origin: Tile, items: seq<Tile>, empty: int, ghost mesh: Lines<Tile>)
      requires IsMesh(Snapshot(Tiles(mesh)), mesh, East, South) && mesh[0][0] == origin
      requires Distinct(items) && forall k :: 0 <= k < |items| ==> items[k] in Tiles(mesh)
      ensures Valid() && this.items == items && emptyTileTypePkey == empty && this.mesh == mesh
      ensures originX == 0 && originY == 0
    {
      this.origin := origin;
      this.items := items;
      emptyTileTypePkey := empty;
      this.mesh := mesh;
      originX, originY := 0, 0;
    }

    ghost predicate Valid()
      reads this, Tiles(mesh)`neighboors
    {
      && IsMesh(Snapshot(Tiles(mesh)), mesh, East, South)
      && originX < |mesh| && originY < |mesh[0]| && mesh[originX][originY] == origin
      && Distinct(items) && forall k :: 0 <= k < |items| ==> items[k] in Tiles(mesh)
    }

    /** One new tile behind the tile at a place of line i. */
    method SpliceOne(node: Tile, dir: Direction, ghost m: Lines<Tile>, ghost i: nat, ghost e: seq<Tile>)
        returns (t: Tile)
      requires Splicing(Snapshot(Tiles(m) + Members(e)), m, i, e, 0, dir)
      requires |e| < |m[0]| && Inside(m, i, |e|) && node == m[i][|e|] && EmptyCopies(m[i], e, emptyTileTypePkey)
      modifies Tiles(m)`neighboors
      ensures fresh(t) && Splicing(Snapshot(Tiles(m) + Members(e + [t])), m, i, e + [t], 0, dir)
      ensures EmptyCopies(m[i], e + [t], emptyTileTypePkey)
      ensures |e| + 1 < |m[0]| ==> Inside(m, i, |e| + 1)
      ensures node.Link(NextDir(dir)) == if |e| + 1 < |m[0]| then Some(m[i][|e| + 1]) else None
    {
      hide Splicing, LinksFit, Along, NextDir, Tiles, Members, Opposite, At, Inserted, NewMap;
      ghost var tiles := Tiles(m) + Members(e);
      ghost var g := Snapshot(tiles);
      t := new Tile([], node.phyTilePkeys, emptyTileTypePkey, []);
      EmptyCopiesSnoc(m[i], e, t, emptyTileTypePkey);
      hide EmptyCopies;
      assert Snapshot(tiles) == g;
      NextLine(g, m, i, e, dir);
      SpliceStep(g, m, i, e, dir, t);
      InsertedMaps(g, node, t, dir);
      MembersSnoc(e, t);
      Insert(node, t, dir, tiles);
      SnapshotIs(tiles + {t}, Inserted(g, node, t, dir));
      assert Tiles(m) + Members(e + [t]) == tiles + {t};
      NextInLine(Snapshot(tiles + {t}), m, i, e + [t], 0, dir, |e|);
    }

    /** insert_in_direction, by the maps of all tiles. */
    method Insert(node: Tile, t: Tile, dir: Direction, ghost tiles: set<Tile>)
      requires node in tiles && t !in tiles && t.neighboors == map[]
      requires node.Link(dir) != Some(node) && (node.Link(dir).Some? ==> node.Link(dir).value in tiles)
      modifies node`neighboors, t`neighboors, (if node.Link(dir).Some? then {node.Link(dir).value} else {})`neighboors
      ensures forall x :: x in tiles + {t} ==>
        x.neighboors == old(Inserted(Snapshot(tiles), node, t, dir))[x]
    {
      ghost var g := Snapshot(tiles);
      InsertedMaps(g, node, t, dir);
      hide Inserted;
      node.InsertInDirection(t, dir);
    }

    /** The walk down the line, putting a tile behind each. */
    method SpliceLine(top: Tile, dir: Direction, ghost m: Lines<Tile>, ghost i: nat) returns (emptyTiles: seq<Tile>)
      requires IsMesh(Snapshot(Tiles(m)), m, dir, NextDir(dir)) && Inside(m, i, 0) && m[i][0] == top
      modifies Tiles(m)`neighboors
      ensures Inside(m, i, 0) && |emptyTiles| == |m[0]| && fresh(Members(emptyTiles))
      ensures Splicing(Snapshot(Tiles(m) + Members(emptyTiles)), m, i, emptyTiles, 0, dir)
      ensures EmptyCopies(m[i], emptyTiles, emptyTileTypePkey)
    {
      hide Splicing, LinksFit, NextDir, Tiles, At, Injective, EmptyCopies, Opposite, DataOf, Members, Snapshot;
      emptyTiles := [];
      var node := top;
      SpliceStart(m, i, dir, emptyTileTypePkey);
      hide Rectangular;
      while true
        invariant |emptyTiles| < |m[0]| && Inside(m, i, |emptyTiles|) && node == m[i][|emptyTiles|]
        invariant fresh(Members(emptyTiles))
        invariant Splicing(Snapshot(Tiles(m) + Members(emptyTiles)), m, i, emptyTiles, 0, dir)
        invariant EmptyCopies(m[i], emptyTiles, emptyTileTypePkey)
        decreases |m[0]| - |emptyTiles|
      {
        var t := SpliceOne(node, dir, m, i, emptyTiles);
        MembersSnoc(emptyTiles, t);
        emptyTiles := emptyTiles + [t];
        if NextDir(dir) in node.neighboors {
          node := node.neighboors[NextDir(dir)];
        } else {
          break;
        }
      }
    }

    /** Links two new tiles of the line. */
    method LinkOne(e: seq<Tile>, p: nat, dir: Direction, ghost m: Lines<Tile>, ghost i: nat)
      requires Splicing(Snapshot(Tiles(m) + Members(e)), m, i, e, p, dir) && p + 1 < |e|
      modifies Members(e)`neighboors
      ensures Splicing(Snapshot(Tiles(m) + Members(e)), m, i, e, p + 1, dir)
    {
      ghost var tiles := Tiles(m) + Members(e);
      ghost var g := Snapshot(tiles);
      hide LinksFit, Along, NextDir, Tiles, Opposite, At, OldsFit, NewsFit, Injective, Rectangular;
      NewMember(m, i, e, g, p);
      NewMember(m, i, e, g, p + 1);
      ZipStep(g, m, i, e, p, dir);
      hide Splicing;
      assert e[p] in Members(e) && e[p + 1] in Members(e);
      var ok := e[p].LinkNeighboorInDirection(e[p + 1], NextDir(dir));
      assert ok;
      SnapshotIs(tiles, Linked(g, e[p], e[p + 1], NextDir(dir)));
    }

    method LinkLine(e: seq<Tile>, dir: Direction, ghost m: Lines<Tile>, ghost i: nat)
      requires Splicing(Snapshot(Tiles(m) + Members(e)), m, i, e, 0, dir) && |e| == |m[0]|
      modifies Members(e)`neighboors
      ensures i + 1 <= |m| && Tiles(InsertLine(m, i + 1, e)) == Tiles(m) + Members(e)
      ensures IsMesh(Snapshot(Tiles(m) + Members(e)), InsertLine(m, i + 1, e), dir, NextDir(dir))
    {
      InsertedTiles(m, i, e);
      hide OldsFit, NewsFit, Tiles, Members, Snapshot, IsMesh, InsertLine;
      var p := 0;
      while p + 1 < |e|
        invariant Splicing(Snapshot(Tiles(m) + Members(e)), m, i, e, p, dir)
      {
        LinkOne(e, p, dir, m, i);
        p := p + 1;
      }
      SplicingEnds(Snapshot(Tiles(m) + Members(e)), m, i, e, p, dir);
    }

    /** What walking right and down from the origin shows. */
    ghost function View(): Lines<Tile>
      requires Valid()
      reads this, Tiles(mesh)`neighboors
    {
      From(mesh, originX, originY)
    }

    ghost predicate ShowsTo(r: map<Loc, Tile>, x: nat, y: nat)
      requires Valid()
      reads this, Tiles(mesh)`neighboors
    {
      forall l: Loc :: (l in r <==> Inside(View(), l.x, l.y) && (l.x < x || (l.x == x && l.y < y)))
        && (l in r ==> r[l] == View()[l.x][l.y])
    }

    /** One column, from its tile in the origin's row down. */
    method OutputColumn(top: Tile, x: nat, before: map<Loc, Tile>) returns (r: map<Loc, Tile>)
      requires Valid() && Inside(View(), x, 0) && View()[x][0] == top && ShowsTo(before, x, 0)
      ensures ShowsTo(r, x + 1, 0)
    {
      hide ShowsTo;
      r := before;
      var node, y := top, 0;
      while true
        invariant Inside(View(), x, y) && View()[x][y] == node && ShowsTo(r, x, y)
        decreases |View()[x]| - y
      {
        ShowsMore(r, x, y);
        r := r[Loc(x, y) := node];
        ViewLinks(x, y);
        if South in node.neighboors {
          node := node.neighboors[South];
          y := y + 1;
        } else {
          break;
        }
      }
    }

    lemma ShowsMore(r: map<Loc, Tile>, x: nat, y: nat)
      requires Valid() && Inside(View(), x, y) && ShowsTo(r, x, y)
      ensures ShowsTo(r[Loc(x, y) := View()[x][y]], x, y + 1)
      ensures !Inside(View(), x, y + 1) ==> ShowsTo(r[Loc(x, y) := View()[x][y]], x + 1, 0)
    {
      FromAt(mesh, originX, originY);
      hide IsMesh;
    }

    /** The links right and down, in the view. */
    lemma ViewLinks(x: nat, y: nat)
      requires Valid() && Inside(View(), x, y)
      ensures View()[x][y].Link(South) == At(View(), x, y + 1)
      ensures View()[x][y].Link(East) == At(View(), x + 1, y)
    {
      var g := Snapshot(Tiles(mesh));
      hide IsMesh, From, Tiles;
      PartLinks(g, mesh, originX, originY, x, y);
      LinkIs(Tiles(mesh), View()[x][y], South);
      LinkIs(Tiles(mesh), View()[x][y], East);
    }

    /** output_grid; the check at its end, which is all check_grid does, never fails. */
    method OutputGrid() returns (ok: bool, r: map<Loc, Tile>)
      requires Valid()
      ensures ok && forall l: Loc :: l in r <==> Inside(View(), l.x, l.y)
      ensures forall l: Loc :: l in r ==> Inside(View(), l.x, l.y) && r[l] == View()[l.x][l.y]
    {
      FromAt(mesh, originX, originY);
      hide ShowsTo, IsMesh, From;
      r := map[];
      var node, x := origin, 0;
      assert ShowsTo(r, 0, 0) by { ShowsNone(); }
      while true
        invariant Inside(View(), x, 0) && View()[x][0] == node && ShowsTo(r, x, 0)
        decreases |View()| - x
      {
        r := OutputColumn(node, x, r);
        ViewLinks(x, 0);
        if East in node.neighboors {
          node := node.neighboors[East];
          x := x + 1;
        } else {
          break;
        }
      }
      ShowsAll(r, x + 1);
      ok := CheckGridLoc(r);
    }

    lemma ShowsNone()
      requires Valid()
      ensures ShowsTo(map[], 0, 0)
    {
    }

    lemma ShowsAll(r: map<Loc, Tile>, x: nat)
      requires Valid() && ShowsTo(r, x, 0) && x >= |View()|
      ensures forall l: Loc :: l in r <==> Inside(View(), l.x, l.y)
      ensures forall l: Loc :: l in r ==> Inside(View(), l.x, l.y) && r[l] == View()[l.x][l.y]
      ensures exists w: nat, h: nat :: w > 0 && h > 0 && IsGrid(r, w, h)
    {
      FromAt(mesh, originX, originY);
      hide IsMesh, From;
      assert IsGrid(r, |View()|, |View()[0]|);
    }

    /** The mesh is the given one with one more line behind line i, and the origin is where it was. */
    ghost predicate HasLine(m: Lines<Tile>, x: nat, y: nat, dir: Direction, i: nat, line: seq<Tile>)
      reads this
    {
      Extends(m, dir, i, line) && mesh == WithLine(m, dir, Index(m, dir, i), line)
      && Tiles(mesh) == Tiles(m) + Members(line)
      && originX == ShiftX(m, dir, i, x) && originY == ShiftY(m, dir, i, y)
    }

    /** A line of new tiles behind line i of a mesh. */
    method InsertBehind(top: Tile, dir: Direction, ghost m: Lines<Tile>, ghost i: nat) returns (e: seq<Tile>)
      requires IsMesh(Snapshot(Tiles(m)), m, dir, NextDir(dir)) && Inside(m, i, 0) && m[i][0] == top
      modifies Tiles(m)`neighboors
      ensures i < |m| && |e| == |m[0]| && fresh(Members(e)) && EmptyCopies(m[i], e, emptyTileTypePkey)
      ensures IsMesh(Snapshot(Tiles(m) + Members(e)), InsertLine(m, i + 1, e), dir, NextDir(dir))
    {
      hide IsMesh, Tiles, NextDir, Splicing, InsertLine, Snapshot;
      e := SpliceLine(top, dir, m, i);
      LinkLine(e, dir, m, i);
    }

    /** insert_empty: fails, changing nothing, when top does not start its line. Otherwise the mesh gets
        one column or row of new, empty tiles next to that line and every old tile keeps its place. */
    method InsertEmpty(top: Tile, dir: Direction, ghost i: nat, ghost j: nat) returns (ok: bool, ghost line: seq<Tile>)
      requires Valid() && Inside(Oriented(mesh, dir), i, j) && Oriented(mesh, dir)[i][j] == top
      modifies `mesh, `originX, `originY, Tiles(mesh)`neighboors
      ensures Valid()
      ensures ok <==> j == 0
      ensures !ok ==> mesh == old(mesh) && originX == old(originX) && originY == old(originY)
      ensures ok ==> fresh(Members(line)) && EmptyCopies(old(Oriented(mesh, dir))[i], line, emptyTileTypePkey)
      ensures ok ==> HasLine(old(mesh), old(originX), old(originY), dir, i, line)
      ensures ok ==> View() == ShownWith(old(mesh), dir, Index(old(mesh), dir, i), line, old(originX), old(originY))
      // A new tile has the type of empty tiles, lists the physical tiles of the one it stands behind, and has no root
      // and no site.
      ensures ok ==> AreEmpty(old(Oriented(mesh, dir))[i], line, emptyTileTypePkey)
      // It is linked to that one, to what stood behind it, and to the next new tile.
      ensures ok ==> AllBehind(old(Oriented(mesh, dir)), dir, i, line)
    {
      ghost var g, was: Lines<Tile> := Snapshot(Tiles(mesh)), mesh;
      ghost var m: Lines<Tile> := Oriented(mesh, dir);
      hide Oriented, Tiles, Members, LinksFit, Injective, Rectangular, Splicing, WithLine, InsertLine, EmptyCopies,
        ShiftX, ShiftY, Index, Breadth, NextDir, Opposite, Along, Snapshot, Horizontal, AllBehind, AreEmpty;
      TopOfLine(g, mesh, dir, i, j);
      LinkIs(Tiles(mesh), top, Opposite(NextDir(dir)));
      line := [];
      if Opposite(NextDir(dir)) in top.neighboors {
        return false, line;
      }
      var emptyTiles := InsertBehind(top, dir, m, i);
      line := emptyTiles;
      NowHasLine(was, dir, i, line);
      CopiesAreEmpty(m[i], line, emptyTileTypePkey);
      LineBehind(was, old(originX), old(originY), dir, i, line);
      ReadBack(was, dir, i, line, old(originX), old(originY));
      ok := true;
    }

    static ghost predicate AreEmpty(from: seq<Tile>, line: seq<Tile>, empty: int)
      reads Members(from)`phyTilePkeys
      reads Members(line)`rootPhyTilePkeys, Members(line)`phyTilePkeys, Members(line)`tileTypePkey,
        Members(line)`sites, Members(line)`splitSites
    {
      |line| == |from| && forall k :: 0 <= k < |line| ==>
        (line[k] in Members(line) && from[k] in Members(from) && line[k].tileTypePkey == empty
          && line[k].phyTilePkeys == from[k].phyTilePkeys && line[k].rootPhyTilePkeys == []
          && line[k].sites == [] && !line[k].splitSites)
    }

    static lemma CopiesAreEmpty(from: seq<Tile>, line: seq<Tile>, empty: int)
      requires EmptyCopies(from, line, empty) && |line| == |from|
      ensures AreEmpty(from, line, empty)
    {
      forall k | 0 <= k < |line| ensures line[k] in Members(line) && from[k] in Members(from) {}
    }

    static ghost predicate AllBehind(m: Lines<Tile>, dir: Direction, i: nat, line: seq<Tile>)
      reads Members(line)`neighboors, Tiles(m)`neighboors
    {
      forall k :: 0 <= k < |line| ==> StandsBehind(m, dir, i, k, line)
    }

    /** The links of the new tile behind tile k of line i. */
    static ghost predicate StandsBehind(m: Lines<Tile>, dir: Direction, i: nat, k: nat, line: seq<Tile>)
      requires k < |line|
      reads Members(line)`neighboors, Tiles(m)`neighboors
    {
      && Inside(m, i, k) && m[i][k] in Tiles(m) && line[k] in Members(line)
      && m[i][k].Link(dir) == Some(line[k]) && line[k].Link(Opposite(dir)) == Some(m[i][k])
      && line[k].Link(dir) == At(m, i + 1, k)
      && line[k].Link(NextDir(dir)) == if k + 1 < |line| then Some(line[k + 1]) else None
    }

    lemma LineBehind(was: Lines<Tile>, x: nat, y: nat, dir: Direction, i: nat, line: seq<Tile>)
      requires Valid() && Rectangular(was) && HasLine(was, x, y, dir, i, line)
      ensures AllBehind(Oriented(was, dir), dir, i, line)
    {
      hide Oriented, Index, WithLine, Tiles, IsMesh, Members, Breadth, Horizontal, StandsBehind;
      var m: Lines<Tile> := Oriented(was, dir);
      OrientedWithLine(was, dir, i, line);
      OrientedShape(was, dir);
      SeenMeshed(dir);
      assert Seen(dir) == InsertLine(m, i + 1, line);
      forall k | 0 <= k < |line| ensures StandsBehind(m, dir, i, k, line) {
        LinkedBehind(m, dir, i, k, line);
      }
    }

    static lemma LinkedBehind(m: Lines<Tile>, dir: Direction, i: nat, k: nat, line: seq<Tile>)
      requires Rectangular(m) && i < |m| && k < |line| && Meshed(InsertLine(m, i + 1, line), dir)
      ensures StandsBehind(m, dir, i, k, line)
    {
      var w: Lines<Tile> := InsertLine(m, i + 1, line);
      assert w[i] == m[i] && w[i + 1] == line && (i + 1 < |m| ==> w[i + 2] == m[i + 1]);
      assert |w[i]| == |w[i + 1]| == |w[0]|;
      hide InsertLine, IsMesh, Tiles;
      MeshLinks(w, i, k, dir);
      MeshLinks(w, i + 1, k, dir);
      LinkAhead(w, i, k, dir);
    }

    /** The link back to the line before. */
    static lemma LinkAhead(m: Lines<Tile>, i: nat, k: nat, dir: Direction)
      requires Meshed(m, dir) && i + 1 < |m| && k < |m[0]|
      ensures Inside(m, i, k) && Inside(m, i + 1, k) && m[i + 1][k] in Tiles(m)
      ensures m[i + 1][k].Link(Opposite(dir)) == Some(m[i][k])
    {
      assert Inside(m, i + 1, k) && m[i + 1][k] in Tiles(m);
      LinkAt(Snapshot(Tiles(m)), m, dir, NextDir(dir), i + 1, k, Opposite(dir));
      hide LinksFit, Injective;
    }

    /** insert_empty next to a line given by its first tile: one of the operations of a run. */
    method InsertTop(top: Tile, dir: Direction, ghost i: nat) returns (ghost line: seq<Tile>)
      requires Valid() && Inside(Seen(dir), i, 0) && Seen(dir)[i][0] == top
      modifies `mesh, `originX, `originY, Tiles(mesh)`neighboors
      ensures Valid() && fresh(Members(line)) && HasLine(old(mesh), old(originX), old(originY), dir, i, line)
      ensures Done(PutIn(line), old(ContentsOf(Tiles(mesh))), ContentsOf(Tiles(mesh)), emptyTileTypePkey)
    {
      hide IsMesh, Oriented, Tiles, Snapshot, EmptyCopies, Members, WithLine, Index, ShiftX, ShiftY, Extends,
        EmptyLine, Kept, Done;
      ghost var tiles, h := Tiles(mesh), ContentsOf(Tiles(mesh));
      ghost var from := Seen(dir)[i];
      var ok;
      ok, line := InsertEmpty(top, dir, i, 0);
      LineIsIn(tiles, h, from, line);
    }

    lemma LineIsIn(tiles: set<Tile>, h: Contents, from: seq<Tile>, line: seq<Tile>)
      requires h.Keys == tiles && (forall t :: t in tiles ==> DataOf(t) == h[t]) && Tiles(mesh) == tiles + Members(line)
      requires EmptyCopies(from, line, emptyTileTypePkey)
      ensures Done(PutIn(line), h, ContentsOf(Tiles(mesh)), emptyTileTypePkey)
    {
      hide EmptyCopies, Members, EmptyLine, Kept;
      ContentsGrow(tiles, Members(line), h);
      EmptyCopiesAre(from, line, emptyTileTypePkey, Tiles(mesh));
    }

    /** Records the line in the mesh. */
    ghost method NowHasLine(m: Lines<Tile>, dir: Direction, i: nat, line: seq<Tile>)
      requires m == mesh && Rectangular(m) && i < |Oriented(m, dir)| && |line| == |Oriented(m, dir)[0]|
      requires IsMesh(Snapshot(Tiles(m) + Members(line)), InsertLine(Oriented(m, dir), i + 1, line), dir, NextDir(dir))
      requires originX < |m| && originY < |m[0]| && m[originX][originY] == origin
      requires Distinct(items) && forall k :: 0 <= k < |items| ==> items[k] in Tiles(m)
      modifies `mesh, `originX, `originY
      ensures Valid() && HasLine(m, old(originX), old(originY), dir, i, line)
    {
      hide Oriented, Tiles, Members, LinksFit, Injective, Rectangular, WithLine, InsertLine,
        ShiftX, ShiftY, Index, Breadth, NextDir;
      GridHolds(Snapshot(Tiles(m) + Members(line)), m, dir, i, line, originX, originY, origin);
      originX, originY := ShiftX(m, dir, i, originX), ShiftY(m, dir, i, originY);
      mesh := WithLine(m, dir, Index(m, dir, i), line);
    }

    /** The whole mesh seen in a direction. */
    ghost function Seen(dir: Direction): Lines<Tile>
      requires Valid()
      reads this, Tiles(mesh)`neighboors
    {
      Oriented(mesh, dir)
    }

    /** The lines are in behind line i, nothing else has changed. */
    ghost predicate Widened(m: Lines<Tile>, h: Contents, dir: Direction, i: nat, e: Lines<Tile>)
      reads this, Tiles(mesh)
    {
      Valid() && i < |m| && Seen(dir) == InsertLines(m, i, e)
      && LinesIn(h, m, i, e, ContentsOf(Tiles(mesh)), emptyTileTypePkey)
    }

    /** One more line. */
    method WidenOnce(top: Tile, dir: Direction, ghost i: nat, ghost m: Lines<Tile>, ghost h: Contents,
        ghost e: Lines<Tile>)
        returns (ghost e': Lines<Tile>)
      requires Widened(m, h, dir, i, e) && Inside(m, i, 0) && m[i][0] == top
      modifies `mesh, `originX, `originY, Tiles(mesh)`neighboors
      ensures Widened(m, h, dir, i, e') && |e'| == |e| + 1 && fresh(Tiles(mesh) - old(Tiles(mesh)))
    {
      ghost var was, x, y, mid := mesh, originX, originY, ContentsOf(Tiles(mesh));
      WidenedTop(m, h, dir, i, e);
      hide Inside, IsMesh, Oriented, Tiles, Snapshot, ContentsOf, Members, Widened, HasLine, Done;
      ghost var line := InsertTop(top, dir, i);
      e' := [line] + e;
      TilesOf(was, x, y, dir, i, line);
      WidenedMore(was, x, y, m, h, dir, i, e, mid, line);
    }

    lemma TilesOf(was: Lines<Tile>, x: nat, y: nat, dir: Direction, i: nat, line: seq<Tile>)
      requires HasLine(was, x, y, dir, i, line)
      ensures Tiles(mesh) == Tiles(was) + Members(line)
    {
    }

    lemma WidenedTop(m: Lines<Tile>, h: Contents, dir: Direction, i: nat, e: Lines<Tile>)
      requires Widened(m, h, dir, i, e) && Inside(m, i, 0)
      ensures Valid() && Inside(Seen(dir), i, 0) && Seen(dir)[i][0] == m[i][0]
      ensures i < |m| && Oriented(mesh, dir) == InsertLines(m, i, e)
      ensures LinesIn(h, m, i, e, ContentsOf(Tiles(mesh)), emptyTileTypePkey)
    {
      hide Valid, LinesIn, Oriented, InsertLines, ContentsOf, Tiles;
      TopSeen(m, i, e, Seen(dir));
    }

    lemma WidenedMore(was: Lines<Tile>, x: nat, y: nat, m: Lines<Tile>, h: Contents, dir: Direction, i: nat,
        e: Lines<Tile>, mid: Contents, line: seq<Tile>)
      requires Valid() && HasLine(was, x, y, dir, i, line)
      requires i < |m| && Oriented(was, dir) == InsertLines(m, i, e) && LinesIn(h, m, i, e, mid, emptyTileTypePkey)
      requires Done(PutIn(line), mid, ContentsOf(Tiles(mesh)), emptyTileTypePkey)
      ensures Widened(m, h, dir, i, [line] + e)
    {
      LineWidth(was, dir, i, line, m, e);
      hide Oriented, InsertLines, Tiles, ContentsOf, Kept, EmptyLine, Members, Valid, WithLine, Index, ShiftX, ShiftY;
      SeenWithLine(was, dir, i, line, m, e);
      LinesInMore(h, m, i, e, mid, line, ContentsOf(Tiles(mesh)), emptyTileTypePkey);
    }

    /** As many lines as asked for. */
    method Widen(top: Tile, dir: Direction, num: nat, ghost i: nat, ghost m: Lines<Tile>, ghost h: Contents)
        returns (ghost e: Lines<Tile>)
      requires Valid() && m == Seen(dir) && h == ContentsOf(Tiles(mesh)) && Inside(m, i, 0) && m[i][0] == top
      modifies `mesh, `originX, `originY, Tiles(mesh)`neighboors
      ensures Widened(m, h, dir, i, e) && |e| == num && fresh(Tiles(mesh) - old(Tiles(mesh)))
    {
      hide LinesIn, InsertLines, Valid, Widened, Seen, ContentsOf;
      e := [];
      NoLinesIn(h, m, i, dir);
      for p := 0 to num
        invariant Widened(m, h, dir, i, e) && |e| == p && fresh(Tiles(mesh) - old(Tiles(mesh)))
      {
        ghost var prev := Tiles(mesh);
        e := WidenOnce(top, dir, i, m, h, e);
        assert Tiles(mesh) - old(Tiles(mesh)) <= (Tiles(mesh) - prev) + (prev - old(Tiles(mesh)));
      }
    }

    lemma NoLinesIn(h: Contents, m: Lines<Tile>, i: nat, dir: Direction)
      requires Valid() && m == Seen(dir) && h == ContentsOf(Tiles(mesh)) && i < |m|
      ensures Widened(m, h, dir, i, [])
    {
      OrientedMesh(Snapshot(Tiles(mesh)), mesh, dir);
      OrientedShape(mesh, dir);
      assert InsertLines(m, i, []) == m;
      hide IsMesh, Oriented, InsertLines, Tiles;
    }

    lemma SeenMeshed(dir: Direction)
      requires Valid()
      ensures Meshed(Seen(dir), dir) && Tiles(Seen(dir)) == Tiles(mesh)
    {
      OrientedMesh(Snapshot(Tiles(mesh)), mesh, dir);
      OrientedShape(mesh, dir);
      hide LinksFit, Injective, Oriented, Tiles, Rectangular;
    }

    /** What split_in_dir does to line i: how many lines it puts in, when it gets through, and which
        tiles it changes. */
    ghost predicate DirSplit(m: Lines<Tile>, h: Contents, dir: Direction, i: nat, typ: int, types: seq<int>,
        splitMap: SplitMap, ok: bool, e: Lines<Tile>, mid: Contents)
      reads this, Tiles(mesh)
    {
      Valid() && Rectangular(m) && i < |m|
      && CountIs(h, m, i, typ, |types|, emptyTileTypePkey, |e|)
      && Seen(dir) == InsertLines(m, i, e) && LinesIn(h, m, i, e, mid, emptyTileTypePkey)
      && (ok <==> CanSplitLine(mid, InsertLines(m, i, e), i, |m[0]|, typ, |types|, splitMap, emptyTileTypePkey))
      && (ok ==> LineSplit(mid, InsertLines(m, i, e), i, |m[0]|, typ, types, splitMap, ContentsOf(Tiles(mesh))))
    }

    method SplitInDir(top: Tile, typ: int, types: seq<int>, dir: Direction, splitMap: SplitMap, ghost i: nat)
        returns (ok: bool, ghost e: Lines<Tile>, ghost mid: Contents)
      requires Valid() && Inside(Seen(dir), i, 0) && Seen(dir)[i][0] == top && |types| > 0
      modifies `mesh, `originX, `originY, Tiles(mesh)
      ensures fresh(Tiles(mesh) - old(Tiles(mesh)))
      ensures DirSplit(old(Seen(dir)), old(ContentsOf(Tiles(mesh))), dir, i, typ, types, splitMap, ok, e, mid)
      ensures |Seen(dir)| == |old(Seen(dir))| + |e| && (e == [] ==> Seen(dir) == old(Seen(dir)))
      // For two types one line is put in if a tile right behind one of the type is taken, none otherwise.
      ensures |types| == 2 ==> |e| == if
        OccupiedBehind(old(ContentsOf(Tiles(mesh))), old(Seen(dir)), i, typ, 1, emptyTileTypePkey) then 1 else 0
    {
      hide Valid, Tiles, LinesIn, InsertLines, LineSplit, CanSplitLine, CountIs, Meshed, Seen, ContentsOf, Rectangular;
      ghost var m: Lines<Tile>, h := Seen(dir), ContentsOf(Tiles(mesh));
      SeenMeshed(dir);
      var num := CountLine(top, typ, |types|, dir, emptyTileTypePkey, m, i);
      e := Widen(top, dir, num, i, m, h);
      mid := ContentsOf(Tiles(mesh));
      SeenMeshed(dir);
      TopSeen(m, i, e, Seen(dir));
      WidthSeen(h, m, i, e, mid, emptyTileTypePkey);
      LinesCounted(m, i, e);
      if |types| == 2 { TwoWaySites.OneLineIn(h, m, i, typ, emptyTileTypePkey, |e|); }
      ok := SplitTiles(top, typ, types, dir, splitMap, emptyTileTypePkey, Seen(dir), i);
    }

    static lemma LinesCounted(m: Lines<Tile>, i: nat, e: Lines<Tile>)
      requires i < |m|
      ensures |InsertLines(m, i, e)| == |m| + |e| && (e == [] ==> InsertLines(m, i, e) == m)
    {
    }

    /** A split that went through is one of the operations of a run; one that did not was blocked. */
    lemma SplitIsDone(m: Lines<Tile>, h: Contents, dir: Direction, i: nat, typ: int, types: seq<int>,
        splitMap: SplitMap, ok: bool, e: Lines<Tile>, mid: Contents)
      requires DirSplit(m, h, dir, i, typ, types, splitMap, ok, e, mid) && |types| > 0
      ensures var op := Split(m, i, e, mid, typ, types, splitMap);
        if ok then Done(op, h, ContentsOf(Tiles(mesh)), emptyTileTypePkey) else Blocked(op, h, emptyTileTypePkey)
    {
      hide LinesIn, CanSplitLine, LineSplit, Injective, CountIs;
      SeenInjective(dir);
    }

    /** Two new types, neither of them the old one, and a line behind every line with an item of it. */
    ghost predicate TwoWay(h: Contents, m: Lines<Tile>, typ: int, types: seq<int>)
      reads `items
    {
      |types| == 2 && typ !in types && typ != emptyTileTypePkey
      && forall i :: 0 <= i < |m| && Discovered(h, m, items, typ, i) ==> i + 1 < |m|
    }

    /** The first lines have been split, by the operations of the run; the others are still in the mesh. If
        the type is no new type, exactly its tiles outside the lines split are left. In a two-way split at
        most one line was put in for each. */
    ghost predicate Splitting(h: Contents, m: Lines<Tile>, lines: seq<nat>, typ: int, types: seq<int>, dir: Direction,
        splitMap: SplitMap, two: bool, run: Run)
      reads this, Tiles(mesh)
    {
      var p := |run.ops|;
      Valid() && Rectangular(m) && Injective(m) && Distinct(lines) && (forall q :: 0 <= q < |lines| ==> lines[q] < |m|)
      && IsRun(run, emptyTileTypePkey) && run.Start() == h && run.End() == ContentsOf(Tiles(mesh))
      && FollowsLines(run.ops, m, lines, typ, types, splitMap) && Seen(dir) == MatrixAfter(m, run.ops)
      && (forall q :: p <= q < |lines| ==> HasLineWith(Seen(dir), m[lines[q]], if two then 1 else 0))
      && (typ !in types && typ != emptyTileTypePkey ==>
        Remaining(h, LinesAt(m, lines), p, typ, ContentsOf(Tiles(mesh))))
      && (two ==> |Seen(dir)| <= |m| + p)
    }

    /** What is done to one of the lines found. */
    method SplitFound(top: Tile, typ: int, types: seq<int>, dir: Direction, splitMap: SplitMap,
        ghost h: Contents, ghost m: Lines<Tile>, ghost lines: seq<nat>, ghost two: bool, ghost run: Run)
        returns (ok: bool, ghost op: Operation, ghost run': Run)
      requires |types| > 0 && (two ==> |types| == 2 && typ !in types && typ != emptyTileTypePkey)
      requires Splitting(h, m, lines, typ, types, dir, splitMap, two, run) && |run.ops| < |lines|
      requires Inside(m, lines[|run.ops|], 0) && m[lines[|run.ops|]][0] == top
      modifies `mesh, `originX, `originY, Tiles(mesh)
      ensures Valid() && fresh(Tiles(mesh) - old(Tiles(mesh)))
      ensures ok ==> Splitting(h, m, lines, typ, types, dir, splitMap, two, run') && |run'.ops| == |run.ops| + 1
      ensures !ok ==> run' == run && Blocked(op, run.End(), emptyTileTypePkey)
      ensures SplitsLine(op, MatrixAfter(m, run.ops), m[lines[|run.ops|]], typ, types, splitMap)
      ensures two ==> (ok <==> SitesPlaced(h, m, lines[|run.ops|], typ, 2, splitMap))
    {
      hide Valid, Tiles, ContentsOf, Remaining, LinesIn, LineSplit, CanSplitLine, InsertLines, SitesPlaced, Injective,
        Rectangular, CountIs, Seen, Distinct, LinesAt, IsRun, Done, Blocked, FollowsLines, MatrixAfter;
      ghost var p := |run.ops|;
      ghost var w: Lines<Tile>, before := Seen(dir), ContentsOf(Tiles(mesh));
      ghost var behind := if two then 1 else 0;
      ghost var r: nat :| r + behind < |w| && w[r] == m[lines[p]];
      ghost var e, mid;
      ok, e, mid := SplitInDir(top, typ, types, dir, splitMap, r);
      op := Split(w, r, e, mid, typ, types, splitMap);
      SplitIsDone(w, before, dir, r, typ, types, splitMap, ok, e, mid);
      SeenInjective(dir);
      if two {
        TwoWayStep(h, m, lines, p, typ, splitMap, w, before, r, e, mid, emptyTileTypePkey);
      }
      run' := run;
      if ok {
        run' := Then(run, op, ContentsOf(Tiles(mesh)));
        RunThen(run, op, ContentsOf(Tiles(mesh)), emptyTileTypePkey);
        FollowsMore(run.ops, op, m, lines, typ, types, splitMap);
        LinesStay(m, lines, p, w, r, e, behind);
        if typ !in types && typ != emptyTileTypePkey {
          RemainingAfter(h, m, lines, p, typ, types, splitMap, w, before, r, e, mid, ContentsOf(Tiles(mesh)),
            emptyTileTypePkey);
        }
      }
    }

    lemma SeenInjective(dir: Direction)
      requires Valid()
      ensures Injective(Seen(dir))
    {
      SeenMeshed(dir);
      hide LinksFit, Tiles, Oriented;
    }

    /** split_tile_type. The run has one split for each discovered line, in the order they were found, up to
        the first that is blocked. Where TwoWay holds, none is blocked exactly when the sites of all tiles to
        split are placed. */
    method SplitTileType(typ: int, types: seq<int>, dir: Direction, splitMap: SplitMap)
        returns (ok: bool, ghost lines: seq<nat>, ghost run: Run, ghost failed: Operation)
      requires Valid() && |types| > 0
      modifies `mesh, `originX, `originY, Tiles(mesh)
      ensures Valid() && fresh(Tiles(mesh) - old(Tiles(mesh)))
      ensures Found(old(ContentsOf(Tiles(mesh))), old(Seen(dir)), items, typ, lines)
      ensures IsRun(run, emptyTileTypePkey) && run.Start() == old(ContentsOf(Tiles(mesh)))
      ensures FollowsLines(run.ops, old(Seen(dir)), lines, typ, types, splitMap)
      ensures ok ==> |run.ops| == |lines|
      ensures ok ==> Splitting(old(ContentsOf(Tiles(mesh))), old(Seen(dir)), lines, typ, types, dir,
        splitMap, old(TwoWay(ContentsOf(Tiles(mesh)), Seen(dir), typ, types)), run)
      ensures !ok ==> |run.ops| < |lines| && Blocked(failed, run.End(), emptyTileTypePkey)
      ensures !ok ==> lines[|run.ops|] < |old(Seen(dir))|
      ensures !ok ==>
        SplitsLine(failed, MatrixAfter(old(Seen(dir)), run.ops), old(Seen(dir))[lines[|run.ops|]], typ, types, splitMap)
      ensures old(TwoWay(ContentsOf(Tiles(mesh)), Seen(dir), typ, types)) ==>
        (ok <==> forall q :: 0 <= q < |lines| ==>
          SitesPlaced(old(ContentsOf(Tiles(mesh))), old(Seen(dir)), lines[q], typ, 2, splitMap))
      // In a grid whose tiles are all listed nothing is left of a type that is not among the new ones.
      ensures ok && typ !in types && typ != emptyTileTypePkey && (forall t :: t in old(Tiles(mesh)) ==> t in items) ==>
        forall t :: t in Tiles(mesh) ==> t.tileTypePkey != typ
      // A two-way split into other types keeps all sites exactly when, in the grid before, its lines are spared.
      ensures ok && old(TwoWay(ContentsOf(Tiles(mesh)), Seen(dir), typ, types)) && emptyTileTypePkey !in types ==>
        (AllSites(ContentsOf(Tiles(mesh))) == old(AllSites(ContentsOf(Tiles(mesh)))) <==>
          SparesAll(old(ContentsOf(Tiles(mesh))), old(Seen(dir)), lines, typ))
      // It puts in one line for each line where a tile right behind one of the type is taken in the grid before,
      // and none for any other.
      ensures old(TwoWay(ContentsOf(Tiles(mesh)), Seen(dir), typ, types)) && emptyTileTypePkey !in types ==>
        OneForEach(old(ContentsOf(Tiles(mesh))), old(Seen(dir)), lines, typ, run.ops)
      ensures ok && old(TwoWay(ContentsOf(Tiles(mesh)), Seen(dir), typ, types)) && emptyTileTypePkey !in types ==>
        |Seen(dir)| == |old(Seen(dir))|
          + |TwoWaySites.Crowded(old(ContentsOf(Tiles(mesh))), old(Seen(dir)), lines, |lines|, typ, emptyTileTypePkey)|
      ensures ok && old(TwoWay(ContentsOf(Tiles(mesh)), Seen(dir), typ, types)) && emptyTileTypePkey !in types ==>
        ((forall q :: 0 <= q < |lines| ==>
            !OccupiedBehind(old(ContentsOf(Tiles(mesh))), old(Seen(dir)), lines[q], typ, 1, emptyTileTypePkey)) ==>
          Seen(dir) == old(Seen(dir)))
    {
      hide Valid, ContentsOf, SitesPlaced, Injective, Rectangular, Splitting, Found, AreTops, TwoWay, Seen, Meshed,
        IsRun, FollowsLines, MatrixAfter, Blocked, SplitsLine, AllSites, SparesAll;
      ghost var h, m: Lines<Tile> := ContentsOf(Tiles(mesh)), Seen(dir);
      ghost var two := TwoWay(h, m, typ, types);
      SeenMeshed(dir);
      KeysOf(Tiles(mesh));
      ItemsIn();
      var tops;
      tops, lines := FindTops(items, typ, dir, m);
      StartSplitting(h, m, lines, typ, types, dir, splitMap);
      TwoWayTypes(h, m, typ, types);
      run := NoRun(h);
      failed := Merge(origin, origin);
      for p := 0 to |tops|
        invariant Splitting(h, m, lines, typ, types, dir, splitMap, two, run) && |run.ops| == p
        invariant fresh(Tiles(mesh) - old(Tiles(mesh)))
        invariant two ==> forall q :: 0 <= q < p ==> SitesPlaced(h, m, lines[q], typ, 2, splitMap)
      {
        ghost var prev := Tiles(mesh);
        SplittingIs(h, m, lines, typ, types, dir, splitMap, two, run);
        if two && emptyTileTypePkey !in types {
          SplittingWidens(h, m, lines, typ, types, dir, splitMap, run);
        }
        ok, failed, run := SplitFound(tops[p], typ, types, dir, splitMap, h, m, lines, two, run);
        assert Tiles(mesh) - old(Tiles(mesh)) <= (Tiles(mesh) - prev) + (prev - old(Tiles(mesh)));
        if !ok {
          return;
        }
      }
      ok := true;
      SplittingIs(h, m, lines, typ, types, dir, splitMap, two, run);
      if typ !in types && typ != emptyTileTypePkey && forall t :: t in old(Tiles(mesh)) ==> t in items {
        SplittingClears(h, m, lines, typ, types, dir, splitMap, two, run);
      }
      if two && emptyTileTypePkey !in types {
        SplittingSpares(h, m, lines, typ, types, dir, splitMap, run);
        SplittingWidens(h, m, lines, typ, types, dir, splitMap, run);
      }
    }

    /** Each of the splits puts in one line or none, as the grid before tells. */
    ghost predicate OneForEach(h: Contents, m: Lines<Tile>, lines: seq<nat>, typ: int, ops: seq<Operation>) {
      forall q :: 0 <= q < |ops| ==> (q < |lines| && ops[q].Split?
        && |ops[q].e| == if OccupiedBehind(h, m, lines[q], typ, 1, emptyTileTypePkey) then 1 else 0)
    }

    lemma ItemsIn()
      requires Valid()
      ensures forall k :: 0 <= k < |items| ==> items[k] in Tiles(mesh)
    {
    }

    lemma TwoWayTypes(h: Contents, m: Lines<Tile>, typ: int, types: seq<int>)
      ensures TwoWay(h, m, typ, types) ==> |types| == 2 && typ !in types && typ != emptyTileTypePkey
    {
    }

    lemma SplittingIs(h: Contents, m: Lines<Tile>, lines: seq<nat>, typ: int, types: seq<int>, dir: Direction,
        splitMap: SplitMap, two: bool, run: Run)
      requires Splitting(h, m, lines, typ, types, dir, splitMap, two, run)
      ensures Valid() && IsRun(run, emptyTileTypePkey) && run.Start() == h
      ensures FollowsLines(run.ops, m, lines, typ, types, splitMap)
      ensures forall q :: 0 <= q < |lines| ==> lines[q] < |m|
    {
    }

    lemma SplittingClears(h: Contents, m: Lines<Tile>, lines: seq<nat>, typ: int, types: seq<int>, dir: Direction,
        splitMap: SplitMap, two: bool, run: Run)
      requires Splitting(h, m, lines, typ, types, dir, splitMap, two, run) && |run.ops| == |lines|
      requires typ !in types && typ != emptyTileTypePkey
      requires Found(h, m, items, typ, lines) && h.Keys == Tiles(m) && forall t :: t in h ==> t in items
      ensures forall t :: t in Tiles(mesh) ==> t.tileTypePkey != typ
    {
      hide Valid, IsRun, FollowsLines, MatrixAfter, Remaining, Found, Injective, Seen, LinesAt, Tiles;
      ListedMeansGone(h, m, items, typ, lines, ContentsOf(Tiles(mesh)));
      forall t | t in Tiles(mesh) ensures t.tileTypePkey != typ {
        assert t in ContentsOf(Tiles(mesh));
      }
    }

    /** Each of the lines is spared. */
    ghost predicate SparesAll(h: Contents, m: Lines<Tile>, lines: seq<nat>, typ: int) {
      forall q :: 0 <= q < |lines| ==> lines[q] < |m| && TwoWaySites.Spared(h, m, lines[q], typ, emptyTileTypePkey)
    }

    lemma SplittingSpares(h: Contents, m: Lines<Tile>, lines: seq<nat>, typ: int, types: seq<int>, dir: Direction,
        splitMap: SplitMap, run: Run)
      requires Splitting(h, m, lines, typ, types, dir, splitMap, true, run) && |run.ops| == |lines|
      requires TwoWay(h, m, typ, types) && emptyTileTypePkey !in types
      requires Found(h, m, items, typ, lines) && h.Keys == Tiles(m)
      ensures AllSites(ContentsOf(Tiles(mesh))) == AllSites(h) <==> SparesAll(h, m, lines, typ)
    {
      FoundBehind(h, m, lines, typ, types);
      hide Valid, IsRun, FollowsLines, MatrixAfter, Remaining, Injective, Rectangular, Seen, LinesAt, Tiles, AllSites,
        Distinct, TwoWaySites.Spared;
      TwoWaySites.TwoWayKeepsSites(run, m, lines, typ, types, splitMap, emptyTileTypePkey);
    }

    lemma SplittingWidens(h: Contents, m: Lines<Tile>, lines: seq<nat>, typ: int, types: seq<int>, dir: Direction,
        splitMap: SplitMap, run: Run)
      requires Splitting(h, m, lines, typ, types, dir, splitMap, true, run) && |run.ops| <= |lines|
      requires TwoWay(h, m, typ, types) && emptyTileTypePkey !in types
      requires Found(h, m, items, typ, lines) && h.Keys == Tiles(m)
      ensures OneForEach(h, m, lines, typ, run.ops)
      ensures |run.ops| == |lines| ==>
        |Seen(dir)| == |m| + |TwoWaySites.Crowded(h, m, lines, |lines|, typ, emptyTileTypePkey)|
      ensures |run.ops| == |lines| ==>
        ((forall q :: 0 <= q < |lines| ==> !OccupiedBehind(h, m, lines[q], typ, 1, emptyTileTypePkey)) ==>
          Seen(dir) == m)
    {
      hide Splitting, TwoWaySites.SplitsInTwo, MatrixAfter, Seen, TwoWaySites.Spared, TwoWaySites.Crowded, Found,
        TwoWay, OccupiedBehind, TakesNoSite;
      FoundInTwo(h, m, lines, typ, types, dir, splitMap, run);
      forall q | 0 <= q < |run.ops|
        ensures q < |lines| && run.ops[q].Split?
        ensures |run.ops[q].e| == if OccupiedBehind(h, m, lines[q], typ, 1, emptyTileTypePkey) then 1 else 0
      {
        TwoWaySites.RunSpared(run, m, lines, typ, types, splitMap, emptyTileTypePkey, q);
      }
      TwoWaySites.TwoWayWidens(run, m, lines, typ, types, splitMap, emptyTileTypePkey, |run.ops|);
      assert run.ops[..|run.ops|] == run.ops;
      NoCrowd(h, m, lines, typ);
    }

    lemma NoCrowd(h: Contents, m: Lines<Tile>, lines: seq<nat>, typ: int)
      ensures (forall q :: 0 <= q < |lines| ==> !OccupiedBehind(h, m, lines[q], typ, 1, emptyTileTypePkey)) ==>
        TwoWaySites.Crowded(h, m, lines, |lines|, typ, emptyTileTypePkey) == {}
    {
      hide OccupiedBehind;
    }

    lemma FoundInTwo(h: Contents, m: Lines<Tile>, lines: seq<nat>, typ: int, types: seq<int>, dir: Direction,
        splitMap: SplitMap, run: Run)
      requires Splitting(h, m, lines, typ, types, dir, splitMap, true, run)
      requires TwoWay(h, m, typ, types) && emptyTileTypePkey !in types
      requires Found(h, m, items, typ, lines) && h.Keys == Tiles(m)
      ensures TwoWaySites.SplitsInTwo(run, m, lines, typ, types, splitMap, emptyTileTypePkey)
      ensures run.Start() == h && Seen(dir) == MatrixAfter(m, run.ops)
    {
      FoundBehind(h, m, lines, typ, types);
      hide Valid, IsRun, FollowsLines, MatrixAfter, Remaining, Injective, Rectangular, Seen, LinesAt, Tiles, Distinct,
        Found;
    }

    lemma FoundBehind(h: Contents, m: Lines<Tile>, lines: seq<nat>, typ: int, types: seq<int>)
      requires TwoWay(h, m, typ, types) && Found(h, m, items, typ, lines)
      ensures forall q :: 0 <= q < |lines| ==> lines[q] + 1 < |m|
    {
      hide Distinct, Discovered;
      forall q | 0 <= q < |lines| ensures lines[q] + 1 < |m| { assert lines[q] in lines; }
    }

    lemma StartSplitting(h: Contents, m: Lines<Tile>, lines: seq<nat>, typ: int, types: seq<int>, dir: Direction,
        splitMap: SplitMap)
      requires Valid() && m == Seen(dir) && h == ContentsOf(Tiles(mesh)) && Found(h, m, items, typ, lines)
      ensures Splitting(h, m, lines, typ, types, dir, splitMap, TwoWay(h, m, typ, types), NoRun(h))
    {
      var two := TwoWay(h, m, typ, types);
      SeenMeshed(dir);
      SeenInjective(dir);
      RemainingStarts(h, LinesAt(m, lines), typ);
      FollowsNone(m, lines, typ, types, splitMap);
      hide LinksFit, Tiles, Injective, Oriented, LinesAt, Remaining, IsMesh, Done, FollowsLines, MatrixAfter;
      forall q | 0 <= q < |lines| ensures HasLineWith(Seen(dir), m[lines[q]], if two then 1 else 0) {
        assert lines[q] in lines;
        assert Discovered(h, m, items, typ, lines[q]);
      }
    }

    /** The tile has been merged into its neighbour. */
    ghost predicate MergedIn(h: Contents, tile: Tile, dir: Direction)
      reads this, Tiles(mesh), tile
    {
      tile in h && tile.Link(dir).Some? && tile.Link(dir).value in h && tile.Link(dir).value != tile
      && ContentsOf(Tiles(mesh)) == Merged(h, tile, tile.Link(dir).value, emptyTileTypePkey)
    }

    /** merge_in_dir: fails, changing nothing, when there is no neighbour in the direction. */
    method MergeInDir(tile: Tile, dir: Direction) returns (ok: bool)
      requires Valid() && tile in Tiles(mesh)
      modifies Tiles(mesh)`rootPhyTilePkeys, Tiles(mesh)`phyTilePkeys, Tiles(mesh)`sites, Tiles(mesh)`tileTypePkey
      ensures Valid()
      ensures ok <==> tile.Link(dir).Some?
      ensures if ok then MergedIn(old(ContentsOf(Tiles(mesh))), tile, dir)
              else ContentsOf(Tiles(mesh)) == old(ContentsOf(Tiles(mesh)))
      ensures ok ==> tile.tileTypePkey == emptyTileTypePkey
      ensures ok ==> forall x :: x in Tiles(mesh) && x != tile ==> x.tileTypePkey == old(x.tileTypePkey)
      // The neighbour has what the tile had, after its own; the tile has nothing.
      ensures ok ==> tile.rootPhyTilePkeys == [] && tile.phyTilePkeys == [] && tile.sites == []
      ensures ok ==> var into := tile.Link(dir).value;
        into.rootPhyTilePkeys == old(tile.Link(dir).value.rootPhyTilePkeys) + old(tile.rootPhyTilePkeys)
        && into.phyTilePkeys == old(tile.Link(dir).value.phyTilePkeys) + old(tile.phyTilePkeys)
        && into.sites == old(tile.Link(dir).value.sites) + old(tile.sites)
    {
      hide IsMesh, Tiles, Merged;
      LinkIs(Tiles(mesh), tile, dir);
      if dir !in tile.neighboors {
        return false;
      }
      ghost var h := ContentsOf(Tiles(mesh));
      NeighbourOther(Snapshot(Tiles(mesh)), mesh, East, tile, dir);
      MergeInto(tile, tile.neighboors[dir], emptyTileTypePkey, Tiles(mesh));
      TypesMerged(Tiles(mesh), h, tile, tile.neighboors[dir], emptyTileTypePkey);
      MergedData(Tiles(mesh), h, tile, tile.neighboors[dir], emptyTileTypePkey);
      ok := true;
    }

    static lemma MergedData(tiles: set<Tile>, h: Contents, t: Tile, into: Tile, empty: int)
      requires t in tiles && into in tiles && t != into && h.Keys == tiles
      requires ContentsOf(tiles) == Merged(h, t, into, empty)
      ensures t.rootPhyTilePkeys == [] && t.phyTilePkeys == [] && t.sites == []
      ensures into.rootPhyTilePkeys == h[into].rootPkeys + h[t].rootPkeys
      ensures into.phyTilePkeys == h[into].phyPkeys + h[t].phyPkeys && into.sites == h[into].sites + h[t].sites
    {
      assert ContentsOf(tiles)[t] == DataOf(t) && ContentsOf(tiles)[into] == DataOf(into);
    }

    /** merge_tile_type: merges the listed tiles of the type, in order, each into its neighbour; fails exactly
        at the first that has no neighbour in the direction. */
    method MergeTileType(typ: int, dir: Direction) returns (ok: bool, ghost run: Run)
      requires Valid()
      modifies Tiles(mesh)`rootPhyTilePkeys, Tiles(mesh)`phyTilePkeys, Tiles(mesh)`sites, Tiles(mesh)`tileTypePkey
      ensures Valid()
      ensures IsRun(run, emptyTileTypePkey)
      ensures run.Start() == old(ContentsOf(Tiles(mesh))) && run.End() == ContentsOf(Tiles(mesh))
      ensures MergesThem(run.ops, OfType(run.Start(), items, typ), old(Neighbours(Tiles(mesh), dir)))
      ensures ok <==> |run.ops| == |OfType(run.Start(), items, typ)|
      ensures !ok ==> !HasNext(old(Neighbours(Tiles(mesh), dir)), OfType(run.Start(), items, typ)[|run.ops|])
      ensures ok <==> forall k :: 0 <= k < |items| && old(items[k].tileTypePkey) == typ ==> items[k].Link(dir).Some?
      ensures AllRoots(ContentsOf(Tiles(mesh))) == old(AllRoots(ContentsOf(Tiles(mesh))))
      ensures AllSites(ContentsOf(Tiles(mesh))) == old(AllSites(ContentsOf(Tiles(mesh))))
      ensures ok && typ != emptyTileTypePkey ==> forall k :: 0 <= k < |items| ==> items[k].tileTypePkey != typ
    {
      ghost var h := ContentsOf(Tiles(mesh));
      hide IsMesh, Tiles, AllRoots, AllSites, EmptiesBare, ContentsOf, Snapshot, Done, OfType, MergesThem;
      ghost var next := Neighbours(Tiles(mesh), dir);
      run := NoRun(h);
      NothingRun(h, items, typ, next, emptyTileTypePkey);
      ItemsIn();
      TypesOf(items, Tiles(mesh));
      for k := 0 to |items|
        invariant Valid() && IsRun(run, emptyTileTypePkey) && run.Start() == h && run.End() == ContentsOf(Tiles(mesh))
        invariant MergesThem(run.ops, OfType(h, items[..k], typ), next) && |run.ops| == |OfType(h, items[..k], typ)|
        invariant forall l :: k <= l < |items| ==> items[l] in h && items[l].tileTypePkey == h[items[l]].typ
        invariant forall l :: 0 <= l < k && items[l].tileTypePkey == typ ==> typ == emptyTileTypePkey
      {
        OfTypeMore(h, items, k, typ);
        if items[k].tileTypePkey == typ {
          ghost var before := ContentsOf(Tiles(mesh));
          ok := MergeInDir(items[k], dir);
          if !ok {
            MergesStop(run.ops, h, items, k, typ, next);
            MergesKeep(run, OfType(h, items, typ), next, emptyTileTypePkey);
            MergedAll(run.ops, h, items, typ, next);
            return;
          }
          MergeIsDone(before, items[k], dir);
          run := MergeThen(run, OfType(h, items[..k], typ), items[k], next, ContentsOf(Tiles(mesh)), emptyTileTypePkey);
        }
      }
      assert items[..|items|] == items;
      ok := true;
      MergesKeep(run, OfType(h, items, typ), next, emptyTileTypePkey);
      MergedAll(run.ops, h, items, typ, next);
    }

    lemma MergeIsDone(h: Contents, tile: Tile, dir: Direction)
      requires MergedIn(h, tile, dir)
      ensures tile.Link(dir).Some?
      ensures Done(Merge(tile, tile.Link(dir).value), h, ContentsOf(Tiles(mesh)), emptyTileTypePkey)
    {
    }
  }

  lemma WidthSeen(h: Contents, m: Lines<Tile>, i: nat, e: Lines<Tile>, mid: Contents, empty: int)
    requires LinesIn(h, m, i, e, mid, empty)
    ensures Rectangular(m) && i < |m| && Rectangular(InsertLines(m, i, e)) && |InsertLines(m, i, e)[0]| == |m[0]|
  {
  }
}
