/** One mesh seen from each of the four directions: lines follow each other in the direction, and
    each line is walked in the direction's zipper direction. */
module Orientation {
  import opened Sequences
  import opened Matrix
  import opened Mesh

  ghost function Oriented(m: Lines<Tile>, dir: Direction): Lines<Tile>
    requires Rectangular(m)
  {
    match dir
    case East => m
    case West => Reversed(m)
    case South => Transposed(m)
    case North => Reversed(Transposed(m))
  }

  ghost function Columns(m: Lines<Tile>, dir: Direction): Lines<Tile>
    requires Rectangular(m)
  {
    match dir
    case East => m
    case West => ReversedAt(m); Reversed(m)
    case South => Transposed(m)
    case North => ReversedAt(m); Transposed(Reversed(m))
  }

  lemma OrientedMesh(g: Links, m: Lines<Tile>, dir: Direction)
    requires IsMesh(g, m, East, South)
    ensures IsMesh(g, Oriented(m, dir), dir, NextDir(dir))
    ensures Columns(Oriented(m, dir), dir) == m && Tiles(Oriented(m, dir)) == Tiles(m)
  {
    ReversedTwice(m);
    TransposedTwice(m);
    TransposedMesh(g, m, East, South);
    ReversedMesh(g, m, East, South);
    ReversedTwice(Transposed(m));
    ReversedMesh(g, Transposed(m), South, East);
    hide Reversed, Transposed, LinksFit, Injective, Rectangular, Tiles;
  }

  lemma ColumnsMesh(g: Links, m: Lines<Tile>, dir: Direction)
    requires IsMesh(g, m, dir, NextDir(dir))
    ensures IsMesh(g, Columns(m, dir), East, South)
    ensures Oriented(Columns(m, dir), dir) == m && Tiles(Columns(m, dir)) == Tiles(m)
  {
    ReversedTwice(m);
    TransposedTwice(m);
    TransposedMesh(g, m, dir, NextDir(dir));
    ReversedMesh(g, m, dir, NextDir(dir));
    TransposedTwice(Reversed(m));
    TransposedMesh(g, Reversed(m), Opposite(dir), NextDir(dir));
    hide Reversed, Transposed, LinksFit, Injective, Rectangular, Tiles;
  }

  predicate Horizontal(dir: Direction) { dir == East || dir == West }

  /** The number of lines across a direction. */
  ghost function Breadth(m: Lines<Tile>, dir: Direction): nat
    requires Rectangular(m)
  {
    if Horizontal(dir) then |m| else |m[0]|
  }

  /** The column or row index at which a line behind line i goes in. */
  ghost function Index(m: Lines<Tile>, dir: Direction, i: nat): (k: int)
    requires Rectangular(m)
    ensures i < Breadth(m, dir) ==> 0 <= k <= Breadth(m, dir)
  {
    if dir == East || dir == South then i + 1 else Breadth(m, dir) - 1 - i
  }

  /** The mesh with one more column or row. */
  ghost function WithLine(m: Lines<Tile>, dir: Direction, k: nat, line: seq<Tile>): Lines<Tile>
    requires Rectangular(m) && k <= Breadth(m, dir) && (!Horizontal(dir) ==> |line| == |m|)
  {
    if Horizontal(dir) then InsertLine(m, k, line) else InsertRow(m, k, line)
  }

  lemma OrientedShape(m: Lines<Tile>, dir: Direction)
    requires Rectangular(m)
    ensures Rectangular(Oriented(m, dir)) && |Oriented(m, dir)| == Breadth(m, dir)
    ensures |Oriented(m, dir)[0]| == if Horizontal(dir) then |m[0]| else |m|
  {
    TransposedAt(m);
    ReversedAt(m);
    ReversedAt(Transposed(m));
    hide Reversed, Transposed;
  }

  /** A line put in behind line i, whichever way the mesh is turned, is a column or a row put in. */
  lemma ColumnsInsert(m: Lines<Tile>, dir: Direction, i: nat, line: seq<Tile>)
    requires Rectangular(m) && i < Breadth(m, dir) && |line| == (if Horizontal(dir) then |m[0]| else |m|)
    ensures i < |Oriented(m, dir)|
    ensures Rectangular(InsertLine(Oriented(m, dir), i + 1, line))
    ensures Columns(InsertLine(Oriented(m, dir), i + 1, line), dir) == WithLine(m, dir, Index(m, dir, i), line)
  {
    hide Reversed, Transposed, InsertLine, InsertRow, Rectangular;
    OrientedShape(m, dir);
    InsertLineAt(Oriented(m, dir), i + 1, line);
    if dir == West {
      ReversedInsert(m, i + 1, line);
    } else if dir == South {
      TransposedInsert(m, i + 1, line);
    } else if dir == North {
      TransposedAt(m);
      ReversedInsert(Transposed(m), i + 1, line);
      TransposedInsert(m, Index(m, dir, i), line);
    }
  }

  lemma OrientedColumns(n: Lines<Tile>, dir: Direction)
    requires Rectangular(n)
    ensures Rectangular(Columns(n, dir)) && Oriented(Columns(n, dir), dir) == n
  {
    ReversedTwice(n);
    ReversedAt(n);
    TransposedTwice(n);
    TransposedTwice(Reversed(n));
    hide Reversed, Transposed;
  }

  lemma OrientedWithLine(m: Lines<Tile>, dir: Direction, i: nat, line: seq<Tile>)
    requires Rectangular(m) && i < Breadth(m, dir) && |line| == (if Horizontal(dir) then |m[0]| else |m|)
    ensures i < |Oriented(m, dir)| && Rectangular(WithLine(m, dir, Index(m, dir, i), line))
    ensures Oriented(WithLine(m, dir, Index(m, dir, i), line), dir) == InsertLine(Oriented(m, dir), i + 1, line)
  {
    hide Oriented, Columns, WithLine, InsertLine, Index, Rectangular, Breadth;
    ColumnsInsert(m, dir, i, line);
    OrientedColumns(InsertLine(Oriented(m, dir), i + 1, line), dir);
  }
}
