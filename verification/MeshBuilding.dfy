/** utils/tile_splitter/grid.py, build_mesh: stitching a grid of unlinked tiles into a mesh. The
    recursion links each tile to the ones below and to its right, and visits those not yet seen; a
    link may be made twice but is never changed. Everything right of and below the first tile is
    linked when it returns. */
module MeshBuilding {
  import opened Sequences
  import opened Matrix
  import opened Mesh
  import opened Splice
  import opened GridLoc

  /** A link made to the tile below or to the right of a place. */
  datatype Edge = Edge(x: int, y: int, d: Direction)

  type Edges = set<Edge>

  /** The links of the tile at a place when some links have been made, each in both directions. */
  ghost function Made(m: Lines<Tile>, made: Edges, i: int, j: int, d: Direction): Option<Tile> {
    var x, y := i + Along(d, East), j + Along(d, South);
    var e := if d == South || d == East then Edge(i, j, d) else Edge(x, y, Opposite(d));
    if e in made then At(m, x, y) else None
  }

  ghost predicate Partial(g: Links, m: Lines<Tile>, made: Edges) {
    Rectangular(m) && Injective(m) && g.Keys == Tiles(m)
    && forall i, j, d :: Inside(m, i, j) ==> LinkOf(g, m[i][j], d) == Made(m, made, i, j, d)
  }

  lemma PartialAt(g: Links, m: Lines<Tile>, made: Edges, i: int, j: int, d: Direction)
    requires Partial(g, m, made) && Inside(m, i, j)
    ensures LinkOf(g, m[i][j], d) == Made(m, made, i, j, d)
  {
  }

  lemma MadeMore(m: Lines<Tile>, made: Edges, x: int, y: int, e: Direction, i: int, j: int, d: Direction)
    requires e == South || e == East
    ensures Made(m, made + {Edge(x, y, e)}, i, j, d) ==
      if d == e && i == x && j == y then At(m, x + Along(e, East), y + Along(e, South))
      else if d == Opposite(e) && i == x + Along(e, East) && j == y + Along(e, South) then At(m, x, y)
      else Made(m, made, i, j, d)
  {
  }

  lemma NothingMade(g: Links, m: Lines<Tile>)
    requires Rectangular(m) && Injective(m) && g.Keys == Tiles(m) && forall t :: t in g ==> g[t] == map[]
    ensures Partial(g, m, {})
  {
    hide Injective, Rectangular;
    forall i, j, d | Inside(m, i, j) ensures LinkOf(g, m[i][j], d) == Made(m, {}, i, j, d) {
      InTiles(m, i, j);
    }
  }

  /** One more link, possibly made before. */
  lemma LinkStep(g: Links, m: Lines<Tile>, made: Edges, x: int, y: int, e: Direction)
    requires Partial(g, m, made) && (e == South || e == East)
    requires Inside(m, x, y) && Inside(m, x + Along(e, East), y + Along(e, South))
    ensures var a, b := m[x][y], m[x + Along(e, East)][y + Along(e, South)];
      && a != b && a in Tiles(m) && b in Tiles(m)
      && LinkOf(g, a, e) in {None, Some(b)} && LinkOf(g, b, Opposite(e)) in {None, Some(a)}
      && Partial(Linked(g, a, b, e), m, made + {Edge(x, y, e)})
  {
    var u, v := x + Along(e, East), y + Along(e, South);
    var a, b := m[x][y], m[u][v];
    var now, more := Linked(g, a, b, e), made + {Edge(x, y, e)};
    InTiles(m, x, y);
    InTiles(m, u, v);
    SameTile(m, x, y, u, v);
    PartialAt(g, m, made, x, y, e);
    PartialAt(g, m, made, u, v, Opposite(e));
    assert now.Keys == g.Keys;
    forall i, j, d | Inside(m, i, j) ensures LinkOf(now, m[i][j], d) == Made(m, more, i, j, d) {
      LinkMade(g, m, made, x, y, e, i, j, d);
    }
    hide Injective, Rectangular, Tiles, Linked;
  }

  lemma LinkMade(g: Links, m: Lines<Tile>, made: Edges, x: int, y: int, e: Direction, i: int, j: int, d: Direction)
    requires Partial(g, m, made) && (e == South || e == East)
    requires Inside(m, x, y) && Inside(m, x + Along(e, East), y + Along(e, South)) && Inside(m, i, j)
    ensures var a, b := m[x][y], m[x + Along(e, East)][y + Along(e, South)];
      LinkOf(Linked(g, a, b, e), m[i][j], d) == Made(m, made + {Edge(x, y, e)}, i, j, d)
  {
    var u, v := x + Along(e, East), y + Along(e, South);
    InTiles(m, x, y);
    InTiles(m, u, v);
    SameTile(m, x, y, u, v);
    SameTile(m, i, j, u, v);
    SameTile(m, i, j, x, y);
    LinkedLink(g, m[x][y], m[u][v], e, m[i][j], d);
    MadeMore(m, made, x, y, e, i, j, d);
    PartialAt(g, m, made, i, j, d);
    hide Injective, Rectangular, Tiles, Linked, Made, LinkOf, Along, Opposite, Partial;
  }

  // ----- everything linked -----

  /** Both links of a place made, and the tiles they lead to visited. */
  ghost predicate Closed(m: Lines<Tile>, made: Edges, visited: set<Tile>, x: int, y: int) {
    (Inside(m, x, y + 1) ==> Edge(x, y, South) in made && m[x][y + 1] in visited)
    && (Inside(m, x + 1, y) ==> Edge(x, y, East) in made && m[x + 1][y] in visited)
  }

  ghost predicate ClosedSince(m: Lines<Tile>, made: Edges, before: set<Tile>, visited: set<Tile>) {
    forall i, j :: Inside(m, i, j) && m[i][j] in visited && m[i][j] !in before ==> Closed(m, made, visited, i, j)
  }

  lemma {:induction false} AllVisited(m: Lines<Tile>, made: Edges, visited: set<Tile>, x: nat, y: nat)
    requires Rectangular(m) && Inside(m, x, y)
    requires Closed(m, made, visited, 0, 0) && ClosedSince(m, made, {}, visited)
    ensures Closed(m, made, visited, x, y)
    decreases x + y
  {
    if x > 0 {
      AllVisited(m, made, visited, x - 1, y);
    } else if y > 0 {
      AllVisited(m, made, visited, x, y - 1);
    }
  }

  lemma MadeAll(m: Lines<Tile>, made: Edges, visited: set<Tile>, i: int, j: int, d: Direction)
    requires Inside(m, i, j) && Closed(m, made, visited, i, j)
    requires var x, y := i + Along(d, East), j + Along(d, South); Inside(m, x, y) ==> Closed(m, made, visited, x, y)
    ensures Made(m, made, i, j, d) == At(m, i + Along(d, East), j + Along(d, South))
  {
  }

  lemma AllMade(g: Links, m: Lines<Tile>, made: Edges, visited: set<Tile>)
    requires Partial(g, m, made) && Closed(m, made, visited, 0, 0) && ClosedSince(m, made, {}, visited)
    ensures IsMesh(g, m, East, South)
  {
    hide LinkOf, Injective, Rectangular, ClosedSince, Made, Closed, At, Along;
    forall i, j, d | Inside(m, i, j) ensures LinkOf(g, m[i][j], d) == At(m, i + Along(d, East), j + Along(d, South)) {
      var x, y := i + Along(d, East), j + Along(d, South);
      AllVisited(m, made, visited, i, j);
      if Inside(m, x, y) { AllVisited(m, made, visited, x, y); }
      MadeAll(m, made, visited, i, j, d);
      PartialAt(g, m, made, i, j, d);
    }
  }

  // ----- the search -----

  function CoordinateInDirection(loc: Loc, d: Direction): Option<Loc> {
    match d
    case North => if loc.y == 0 then None else Some(Loc(loc.x, loc.y - 1))
    case South => Some(Loc(loc.x, loc.y + 1))
    case East => Some(Loc(loc.x + 1, loc.y))
    case West => if loc.x == 0 then None else Some(Loc(loc.x - 1, loc.y))
  }

  /** The grid in coordinate form. */
  ghost predicate IsLocMap(grid: map<Loc, Tile>, m: Lines<Tile>) {
    forall l: Loc :: (l in grid <==> Inside(m, l.x, l.y)) && (l in grid ==> grid[l] == m[l.x][l.y])
  }

  /** How a visit leaves things: more links, more visited, and every tile newly visited closed. */
  ghost predicate Went(m: Lines<Tile>, made: Edges, visited: set<Tile>, made': Edges, visited': set<Tile>) {
    made <= made' && visited <= visited' <= Tiles(m) && ClosedSince(m, made', visited, visited')
  }

  lemma WentOn(m: Lines<Tile>, a: Edges, u: set<Tile>, b: Edges, v: set<Tile>, c: Edges, w: set<Tile>)
    requires Went(m, a, u, b, v) && Went(m, b, v, c, w)
    ensures Went(m, a, u, c, w)
  {
    hide Tiles;
  }

  method Visit(current: Tile, visited: set<Tile>, loc: Loc, d: Direction, grid: map<Loc, Tile>, ghost m: Lines<Tile>,
      ghost made: Edges)
      returns (visited': set<Tile>, ghost made': Edges)
    requires Partial(Snapshot(Tiles(m)), m, made) && IsLocMap(grid, m) && visited <= Tiles(m)
      && (d == South || d == East)
    requires loc in grid && grid[loc] == current
    modifies Tiles(m)`neighboors
    ensures Partial(Snapshot(Tiles(m)), m, made') && Went(m, made, visited, made', visited')
    ensures var x, y := loc.x + Along(d, East), loc.y + Along(d, South);
      Inside(m, x, y) ==> Edge(loc.x, loc.y, d) in made' && m[x][y] in visited'
    decreases |Tiles(m) - visited|, 0
  {
    hide Went, Snapshot, Tiles, IsLocMap, Along, Inside, Rectangular, Injective, CoordinateInDirection, Opposite;
    visited', made' := visited, made;
    var next := CoordinateInDirection(loc, d);
    NextLoc(loc, d);
    LocIs(grid, m, loc);
    LocIs(grid, m, next.value);
    WentNowhere(m, made, visited);
    assert Injective(m);
    hide Partial;
    if next.value in grid {
      var other := grid[next.value];
      made' := Stitch(current, other, loc, d, m, made);
      WentLink(m, made, visited, Edge(loc.x, loc.y, d));
      if other !in visited {
        visited' := visited + {other};
        ghost var linked := made';
        FewerLeft(m, visited, other, next.value.x, next.value.y);
        visited', made' := BuildMesh(other, visited', next.value, grid, m, linked);
        WentFurther(m, linked, visited, next.value.x, next.value.y, made', visited');
        WentOn(m, made, visited, linked, visited, made', visited');
      }
    }
  }

  /** One link_neighboor_in_direction. */
  method Stitch(current: Tile, other: Tile, ghost loc: Loc, d: Direction, ghost m: Lines<Tile>, ghost made: Edges)
      returns (ghost made': Edges)
    requires Partial(Snapshot(Tiles(m)), m, made) && (d == South || d == East)
    requires Inside(m, loc.x, loc.y) && Inside(m, loc.x + Along(d, East), loc.y + Along(d, South))
    requires current == m[loc.x][loc.y] && other == m[loc.x + Along(d, East)][loc.y + Along(d, South)]
    modifies Tiles(m)`neighboors
    ensures made' == made + {Edge(loc.x, loc.y, d)} && Partial(Snapshot(Tiles(m)), m, made')
  {
    ghost var tiles := Tiles(m);
    ghost var g := Snapshot(tiles);
    LinkStep(g, m, made, loc.x, loc.y, d);
    hide Partial, Tiles, Along, Opposite;
    var ok := current.LinkNeighboorInDirection(other, d);
    assert ok;
    SnapshotIs(tiles, Linked(g, current, other, d));
    made' := made + {Edge(loc.x, loc.y, d)};
  }

  lemma NextLoc(loc: Loc, d: Direction)
    requires d == South || d == East
    ensures CoordinateInDirection(loc, d) == Some(Loc(loc.x + Along(d, East), loc.y + Along(d, South)))
  {
  }

  lemma LocIs(grid: map<Loc, Tile>, m: Lines<Tile>, l: Loc)
    requires IsLocMap(grid, m)
    ensures l in grid <==> Inside(m, l.x, l.y)
    ensures l in grid ==> grid[l] == m[l.x][l.y] && grid[l] in Tiles(m)
  {
  }

  lemma FewerAfter(m: Lines<Tile>, made: Edges, visited: set<Tile>, made': Edges, visited': set<Tile>)
    requires Went(m, made, visited, made', visited')
    ensures |Tiles(m) - visited'| <= |Tiles(m) - visited| && visited' <= Tiles(m)
  {
    assert Tiles(m) - visited == (Tiles(m) - visited') + (visited' - visited);
  }

  /** Linked downwards, and since then only more. */
  lemma StillClosed(m: Lines<Tile>, below: Edges, down: set<Tile>, x: int, y: int, made: Edges, visited: set<Tile>)
    requires Inside(m, x, y + 1) ==> Edge(x, y, South) in below && m[x][y + 1] in down
    requires Inside(m, x + 1, y) ==> Edge(x, y, East) in made && m[x + 1][y] in visited
    requires Went(m, below, down, made, visited)
    ensures Closed(m, made, visited, x, y)
  {
    hide Tiles, ClosedSince;
  }

  lemma WentNowhere(m: Lines<Tile>, made: Edges, visited: set<Tile>)
    requires visited <= Tiles(m)
    ensures Went(m, made, visited, made, visited)
  {
  }

  lemma WentLink(m: Lines<Tile>, made: Edges, visited: set<Tile>, e: Edge)
    requires visited <= Tiles(m)
    ensures Went(m, made, visited, made + {e}, visited)
  {
  }

  lemma FewerLeft(m: Lines<Tile>, visited: set<Tile>, other: Tile, x: int, y: int)
    requires visited <= Tiles(m) && Inside(m, x, y) && m[x][y] == other && other !in visited
    ensures visited + {other} <= Tiles(m) && |Tiles(m) - (visited + {other})| < |Tiles(m) - visited|
  {
    InTiles(m, x, y);
    assert Tiles(m) - (visited + {other}) == Tiles(m) - visited - {other};
  }

  /** The tile stepped to is itself newly visited, and closed. */
  lemma WentFurther(m: Lines<Tile>, made: Edges, visited: set<Tile>, x: int, y: int, made': Edges, visited': set<Tile>)
    requires Injective(m) && Inside(m, x, y)
    requires Went(m, made, visited + {m[x][y]}, made', visited') && Closed(m, made', visited', x, y)
    ensures Went(m, made, visited, made', visited')
    ensures made <= made' && visited + {m[x][y]} <= visited'
  {
    forall i, j | Inside(m, i, j) && m[i][j] in visited' && m[i][j] !in visited
      ensures Closed(m, made', visited', i, j)
    {
      SameTile(m, i, j, x, y);
    }
  }

  /** Links everything that can be reached downwards and to the right; none of its assertions fails. */
  method BuildMesh(current: Tile, visited: set<Tile>, loc: Loc, grid: map<Loc, Tile>, ghost m: Lines<Tile>,
      ghost made: Edges)
      returns (visited': set<Tile>, ghost made': Edges)
    requires Partial(Snapshot(Tiles(m)), m, made) && IsLocMap(grid, m) && visited <= Tiles(m)
    requires loc in grid && grid[loc] == current
    modifies Tiles(m)`neighboors
    ensures Partial(Snapshot(Tiles(m)), m, made') && Went(m, made, visited, made', visited')
    ensures Closed(m, made', visited', loc.x, loc.y)
    decreases |Tiles(m) - visited|, 1
  {
    hide Partial, Went, Snapshot, Tiles, IsLocMap, Closed;
    var down, below := Visit(current, visited, loc, South, grid, m, made);
    FewerAfter(m, made, visited, below, down);
    visited', made' := Visit(current, down, loc, East, grid, m, below);
    WentOn(m, made, visited, below, down, made', visited');
    StillClosed(m, below, down, loc.x, loc.y, made', visited');
  }
}
