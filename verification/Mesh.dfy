/** utils/tile_splitter/grid.py: directions, tiles and the links between neighbours. A mesh is read
    as a matrix of lines: lines follow each other in one direction, the tiles of a line in another.
    The links of many tiles are taken together as one map, so that what an operation does to them can
    be said of values. */
module Mesh {
  import opened Sequences
  import opened Matrix

  datatype Direction = North | South | East | West

  function Opposite(d: Direction): (r: Direction)
    ensures r != d
  {
    match d
    case North => South
    case South => North
    case East => West
    case West => East
  }

  /** SPLIT_NEXT_DIRECTIONS: the direction a row or column is walked in. */
  function NextDir(d: Direction): Direction {
    match d
    case North => East
    case South => East
    case East => South
    case West => South
  }

  datatype Site = Site(name: string, phyTilePkey: int, tileTypePkey: int, siteTypePkey: int, sitePkey: int, x: int,
    y: int)

  /** One step of a direction along an axis. */
  function Along(d: Direction, axis: Direction): int {
    if d == axis then 1 else if d == Opposite(axis) then -1 else 0
  }

  class Tile {
    var rootPhyTilePkeys: seq<int>
    var phyTilePkeys: seq<int>
    var tileTypePkey: int
    var sites: seq<Site>
    var splitSites: bool
    var neighboors: map<Direction, Tile>

    constructor (rootPhyTilePkeys: seq<int>, phyTilePkeys: seq<int>, tileTypePkey: int, sites: seq<Site>)
      ensures this.rootPhyTilePkeys == rootPhyTilePkeys && this.phyTilePkeys == phyTilePkeys
      ensures this.tileTypePkey == tileTypePkey && this.sites == sites && !splitSites && neighboors == map[]
    {
      this.rootPhyTilePkeys := rootPhyTilePkeys;
      this.phyTilePkeys := phyTilePkeys;
      this.tileTypePkey := tileTypePkey;
      this.sites := sites;
      splitSites := false;
      neighboors := map[];
    }

    function Link(d: Direction): Option<Tile>
      reads this`neighboors
    {
      if d in neighboors then Some(neighboors[d]) else None
    }

    /** Fails when either tile is already linked to a third one there. */
    method LinkNeighboorInDirection(other: Tile, d: Direction) returns (ok: bool)
      requires this != other
      modifies this`neighboors, other`neighboors
      ensures ok <==> old(Link(d)) in {None, Some(other)} && old(other.Link(Opposite(d))) in {None, Some(this)}
      ensures ok ==> neighboors == old(neighboors)[d := other]
      ensures ok ==> other.neighboors == old(other.neighboors)[Opposite(d) := this]
    {
      if d in neighboors && neighboors[d] != other {
        return false;
      }
      neighboors := neighboors[d := other];
      var back := Opposite(d);
      if back in other.neighboors && other.neighboors[back] != this {
        return false;
      }
      other.neighboors := other.neighboors[back := this];
      return true;
    }

    /** Puts a tile between this one and its neighbour. */
    method InsertInDirection(other: Tile, d: Direction)
      requires this != other && Link(d) != Some(this) && Link(d) != Some(other)
      modifies this`neighboors, other`neighboors, (if Link(d).Some? then {Link(d).value} else {})`neighboors
      ensures neighboors == old(neighboors)[d := other]
      ensures old(Link(d)) == None ==> other.neighboors == old(other.neighboors)[Opposite(d) := this]
      ensures old(Link(d)).Some? ==>
        other.neighboors == old(other.neighboors)[Opposite(d) := this][d := old(Link(d)).value]
        && old(Link(d)).value.neighboors == old(Link(d).value.neighboors)[Opposite(d) := other]
    {
      var oldNeighboor := Link(d);
      var back := Opposite(d);
      neighboors := neighboors[d := other];
      other.neighboors := other.neighboors[back := this];
      if oldNeighboor.Some? {
        other.neighboors := other.neighboors[d := oldNeighboor.value];
        oldNeighboor.value.neighboors := oldNeighboor.value.neighboors[back := other];
      }
    }
  }

  // ----- meshes -----

  ghost function Tiles(m: Lines<Tile>): set<Tile> {
    set i, j | 0 <= i < |m| && 0 <= j < |m[i]| :: m[i][j]
  }

  /** The neighbour maps of some tiles, at one moment. */
  type Links = map<Tile, map<Direction, Tile>>

  ghost function Snapshot(tiles: set<Tile>): Links
    reads tiles`neighboors
  {
    map t | t in tiles :: t.neighboors
  }

  ghost function LinkOf(g: Links, t: Tile, d: Direction): Option<Tile> {
    if t in g && d in g[t] then Some(g[t][d]) else None
  }

  ghost predicate LinksFit(g: Links, m: Lines<Tile>, fwd: Direction, nxt: Direction) {
    forall i, j, d :: Inside(m, i, j) ==> LinkOf(g, m[i][j], d) == At(m, i + Along(d, fwd), j + Along(d, nxt))
  }

  /** Lines of equal length, every tile at one place, and every link where the matrix has it: the
      links are mutually inverse and stop at the edges. */
  ghost predicate IsMesh(g: Links, m: Lines<Tile>, fwd: Direction, nxt: Direction) {
    Rectangular(m) && Injective(m) && g.Keys == Tiles(m) && LinksFit(g, m, fwd, nxt)
  }

  // ----- the same mesh from its other sides -----

  /** Every entry of the first is an entry of the second. */
  ghost predicate Within(m: Lines<Tile>, n: Lines<Tile>) {
    forall i, j :: Inside(m, i, j) ==> exists k, l :: At(n, k, l) == At(m, i, j)
  }

  lemma WithinTiles(m: Lines<Tile>, n: Lines<Tile>)
    requires Within(m, n)
    ensures Tiles(m) <= Tiles(n)
  {
    forall t | t in Tiles(m) ensures t in Tiles(n) {
      var i, j :| 0 <= i < |m| && 0 <= j < |m[i]| && m[i][j] == t;
      assert Inside(m, i, j);
      var k, l :| At(n, k, l) == At(m, i, j);
    }
  }

  lemma TransposedTiles(m: Lines<Tile>)
    requires Rectangular(m)
    ensures Tiles(Transposed(m)) == Tiles(m)
  {
    var t: Lines<Tile> := Transposed(m);
    TransposedAt(m);
    hide Transposed, Tiles;
    forall j, i | Inside(t, j, i)
      ensures exists k, l :: At(m, k, l) == At(t, j, i)
    {
      assert At(m, i, j) == At(t, j, i);
    }
    forall i, j | Inside(m, i, j)
      ensures exists k, l :: At(t, k, l) == At(m, i, j)
    {
      assert At(t, j, i) == At(m, i, j);
    }
    WithinTiles(m, t);
    WithinTiles(t, m);
  }

  lemma ReversedTiles(m: Lines<Tile>)
    ensures Tiles(Reversed(m)) == Tiles(m)
  {
    var r: Lines<Tile> := Reversed(m);
    ReversedAt(m);
    hide Reversed, Tiles;
    forall i, j | Inside(r, i, j) ensures exists k, l :: At(m, k, l) == At(r, i, j) {
      assert At(m, |m| - 1 - i, j) == At(r, i, j);
    }
    forall i, j | Inside(m, i, j) ensures exists k, l :: At(r, k, l) == At(m, i, j) {
      assert At(r, |m| - 1 - i, j) == At(m, i, j);
    }
    WithinTiles(m, r);
    WithinTiles(r, m);
  }

  lemma AlongOpposite(d: Direction, axis: Direction)
    ensures Along(d, Opposite(axis)) == -Along(d, axis)
  {
  }

  /** The link of the tile at a place. */
  lemma LinkAt(g: Links, m: Lines<Tile>, fwd: Direction, nxt: Direction, i: int, j: int, d: Direction)
    requires LinksFit(g, m, fwd, nxt) && Inside(m, i, j)
    ensures LinkOf(g, m[i][j], d) == At(m, i + Along(d, fwd), j + Along(d, nxt))
  {
  }

  lemma TransposedMesh(g: Links, m: Lines<Tile>, fwd: Direction, nxt: Direction)
    requires IsMesh(g, m, fwd, nxt)
    ensures IsMesh(g, Transposed(m), nxt, fwd)
  {
    var t: Lines<Tile> := Transposed(m);
    TransposedAt(m);
    TransposedInjective(m);
    TransposedTiles(m);
    hide Transposed, Tiles, Injective, LinkOf, Along;
    forall j, i, d | Inside(t, j, i) ensures LinkOf(g, t[j][i], d) == At(t, j + Along(d, nxt), i + Along(d, fwd)) {
      assert At(t, j, i) == At(m, i, j);
      LinkAt(g, m, fwd, nxt, i, j, d);
    }
  }

  lemma ReversedMesh(g: Links, m: Lines<Tile>, fwd: Direction, nxt: Direction)
    requires IsMesh(g, m, fwd, nxt)
    ensures IsMesh(g, Reversed(m), Opposite(fwd), nxt)
  {
    var r: Lines<Tile> := Reversed(m);
    ReversedAt(m);
    ReversedInjective(m);
    ReversedTiles(m);
    hide Reversed, Tiles, Injective, LinkOf, Along, Opposite;
    forall i, j, d | Inside(r, i, j)
      ensures LinkOf(g, r[i][j], d) == At(r, i + Along(d, Opposite(fwd)), j + Along(d, nxt))
    {
      var k := |m| - 1 - i;
      AlongOpposite(d, fwd);
      ReversedAtPoint(m, i, j);
      ReversedAtPoint(m, i + Along(d, Opposite(fwd)), j + Along(d, nxt));
      LinkAt(g, m, fwd, nxt, k, j, d);
    }
  }
}
