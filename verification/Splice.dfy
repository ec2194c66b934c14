/** utils/tile_splitter/grid.py, insert_empty: what splicing a line of new tiles into the mesh does
    to the links. The links are followed through both loops, first while the columns are spliced one
    by one and then while the new tiles are zipped together; at the end they are the links of the
    matrix with the line put in. */
module Splice {
  import opened Sequences
  import opened Matrix
  import opened Mesh

  ghost function Members(s: seq<Tile>): set<Tile> { set c | 0 <= c < |s| :: s[c] }

  lemma MembersSnoc(s: seq<Tile>, t: Tile)
    ensures Members(s + [t]) == Members(s) + {t}
  {
    var all := s + [t];
    forall x | x in Members(s) + {t} ensures x in Members(all) {
      if x == t {
        assert all[|s|] == t;
      } else {
        var c :| 0 <= c < |s| && s[c] == x;
        assert all[c] == x;
      }
    }
    forall x | x in Members(all) ensures x in Members(s) + {t} {
      var c :| 0 <= c < |all| && all[c] == x;
    }
    assert Members(all) <= Members(s) + {t} && Members(s) + {t} <= Members(all);
  }

  lemma MemberIs(s: seq<Tile>, t: Tile)
    ensures t in Members(s) <==> t in s
  {
    if t in s {
      var k :| 0 <= k < |s| && s[k] == t;
      assert s[k] in Members(s);
    }
  }

  lemma SnapshotIs(tiles: set<Tile>, g: Links)
    requires g.Keys == tiles && forall t :: t in tiles ==> t.neighboors == g[t]
    ensures Snapshot(tiles) == g
  {
  }

  /** The link of an old tile while the columns below |e| are spliced: behind line i comes e. */
  ghost function OldLink(m: Lines<Tile>, i: nat, e: seq<Tile>, dir: Direction, a: int, c: int,
      d: Direction): Option<Tile>
  {
    var step := Along(d, dir);
    if step != 0 && c < |e| then InsertedAt(m, i + 1, e, (if a <= i then a else a + 1) + step, c)
    else At(m, a + step, c + Along(d, NextDir(dir)))
  }

  /** The link of a new tile while the first p pairs of new tiles are linked. */
  ghost function NewLink(m: Lines<Tile>, i: nat, e: seq<Tile>, p: nat, dir: Direction, c: int,
      d: Direction): Option<Tile>
  {
    var step, next := Along(d, dir), c + Along(d, NextDir(dir));
    if step != 0 then InsertedAt(m, i + 1, e, i + 1 + step, c)
    else if 0 <= next < |e| && Min(c, next) < p then Some(e[next])
    else None
  }

  ghost predicate OldsFit(g: Links, m: Lines<Tile>, i: nat, e: seq<Tile>, dir: Direction) {
    forall a, c, d :: Inside(m, a, c) ==> LinkOf(g, m[a][c], d) == OldLink(m, i, e, dir, a, c, d)
  }

  ghost predicate NewsFit(g: Links, m: Lines<Tile>, i: nat, e: seq<Tile>, p: nat, dir: Direction) {
    forall c, d :: 0 <= c < |e| ==> LinkOf(g, e[c], d) == NewLink(m, i, e, p, dir, c, d)
  }

  /** The matrix and the new tiles, all different. */
  ghost predicate Apart(m: Lines<Tile>, i: nat, e: seq<Tile>) {
    Rectangular(m) && Injective(m) && i < |m| && |e| <= |m[0]| && Distinct(e)
    && forall c :: 0 <= c < |e| ==> e[c] !in Tiles(m)
  }

  /** The mesh while new tiles e go in behind line i. */
  ghost predicate Splicing(g: Links, m: Lines<Tile>, i: nat, e: seq<Tile>, p: nat, dir: Direction) {
    Apart(m, i, e) && g.Keys == Tiles(m) + Members(e) && OldsFit(g, m, i, e, dir) && NewsFit(g, m, i, e, p, dir)
  }

  lemma SplicingStarts(g: Links, m: Lines<Tile>, i: nat, dir: Direction)
    requires IsMesh(g, m, dir, NextDir(dir)) && i < |m|
    ensures Splicing(g, m, i, [], 0, dir)
  {
    hide Injective, Rectangular, Along, NextDir, Opposite, Tiles;
    assert Members([]) == {};
  }

  lemma Perpendicular(d: Direction, dir: Direction)
    ensures Along(d, dir) == 0 <==> Along(d, NextDir(dir)) != 0
    ensures Along(d, dir) == 1 <==> d == dir
    ensures Along(d, dir) == -1 <==> d == Opposite(dir)
    ensures Along(d, NextDir(dir)) == 1 <==> d == NextDir(dir)
    ensures Along(d, NextDir(dir)) == -1 <==> d == Opposite(NextDir(dir))
    ensures -1 <= Along(d, dir) <= 1 && -1 <= Along(d, NextDir(dir)) <= 1
  {
  }

  // ----- one column -----

  /** One more column spliced changes two links of old tiles. */
  lemma OldLinkSnoc(m: Lines<Tile>, i: nat, e: seq<Tile>, n: Tile, dir: Direction, a: int, c: int, d: Direction)
    requires Inside(m, a, c) && i < |m|
    ensures OldLink(m, i, e + [n], dir, a, c, d) ==
      if c == |e| && ((a == i && d == dir) || (a == i + 1 && d == Opposite(dir))) then Some(n)
        else OldLink(m, i, e, dir, a, c, d)
  {
    Perpendicular(d, dir);
    hide Along, NextDir, Opposite, Inside, At;
  }

  lemma NewLinkSnoc(m: Lines<Tile>, i: nat, e: seq<Tile>, n: Tile, dir: Direction, c: int, d: Direction)
    requires 0 <= c <= |e| && i < |m|
    ensures NewLink(m, i, e + [n], 0, dir, c, d) ==
      if c < |e| then NewLink(m, i, e, 0, dir, c, d)
      else if d == dir then At(m, i + 1, c)
      else if d == Opposite(dir) then At(m, i, c)
      else None
  {
    Perpendicular(d, dir);
    hide Along, NextDir, Opposite, Inside, At;
  }

  ghost function MapOf(g: Links, t: Tile): map<Direction, Tile> { if t in g then g[t] else map[] }

  ghost function NewMap(t: Tile, after: Option<Tile>, dir: Direction): map<Direction, Tile> {
    if after.Some? then map[Opposite(dir) := t, dir := after.value] else map[Opposite(dir) := t]
  }

  /** The neighbour maps after insert_in_direction has put n behind the tile in line i. */
  ghost function Inserted(g: Links, t: Tile, n: Tile, dir: Direction): Links {
    var after := LinkOf(g, t, dir);
    var h := g[t := MapOf(g, t)[dir := n]][n := NewMap(t, after, dir)];
    if after.Some? then h[after.value := MapOf(g, after.value)[Opposite(dir) := n]] else h
  }

  /** The maps that change. */
  lemma InsertedMaps(g: Links, t: Tile, n: Tile, dir: Direction)
    requires t in g && n !in g && LinkOf(g, t, dir) != Some(t)
    requires LinkOf(g, t, dir).Some? ==> LinkOf(g, t, dir).value in g
    ensures Inserted(g, t, n, dir).Keys == g.Keys + {n}
    ensures Inserted(g, t, n, dir)[n] == NewMap(t, LinkOf(g, t, dir), dir)
    ensures Inserted(g, t, n, dir)[t] == g[t][dir := n]
    ensures var after := LinkOf(g, t, dir);
      && (after.Some? ==> Inserted(g, t, n, dir)[after.value] == g[after.value][Opposite(dir) := n])
      && forall x :: x in g && x != t && Some(x) != after ==> Inserted(g, t, n, dir)[x] == g[x]
  {
  }

  /** What that does to each link. */
  lemma InsertedLink(g: Links, t: Tile, n: Tile, dir: Direction, x: Tile, d: Direction)
    requires t in g && n !in g && LinkOf(g, t, dir) != Some(t)
    requires LinkOf(g, t, dir).Some? ==> LinkOf(g, t, dir).value in g
    ensures LinkOf(Inserted(g, t, n, dir), x, d) ==
      if x == n then (if d == dir then LinkOf(g, t, dir) else if d == Opposite(dir) then Some(t) else None)
      else if x == t && d == dir then Some(n)
      else if Some(x) == LinkOf(g, t, dir) && d == Opposite(dir) then Some(n)
      else LinkOf(g, x, d)
  {
  }

  lemma InTiles(m: Lines<Tile>, a: int, c: int)
    requires Inside(m, a, c)
    ensures m[a][c] in Tiles(m)
  {
  }

  lemma SameTile(m: Lines<Tile>, a: int, c: int, k: int, l: int)
    requires Injective(m) && Inside(m, a, c) && Inside(m, k, l)
    ensures m[a][c] == m[k][l] <==> a == k && c == l
  {
  }

  /** The tile in the next line, before the column is spliced. */
  lemma NextLine(g: Links, m: Lines<Tile>, i: nat, e: seq<Tile>, dir: Direction)
    requires Splicing(g, m, i, e, 0, dir) && |e| < |m[0]|
    ensures Inside(m, i, |e|) && LinkOf(g, m[i][|e|], dir) == At(m, i + 1, |e|)
    ensures m[i][|e|] in g && LinkOf(g, m[i][|e|], dir) != Some(m[i][|e|])
    ensures At(m, i + 1, |e|).Some? ==> At(m, i + 1, |e|).value in g
    ensures m[i][|e|] in Tiles(m) && (At(m, i + 1, |e|).Some? ==> At(m, i + 1, |e|).value in Tiles(m))
  {
    hide Injective, OldLink, NewLink, Distinct, Tiles;
    assert Inside(m, i, |e|);
    assert LinkOf(g, m[i][|e|], dir) == OldLink(m, i, e, dir, i, |e|, dir);
    FirstLink(m, i, e, dir);
    InTiles(m, i, |e|);
    if Inside(m, i + 1, |e|) {
      InTiles(m, i + 1, |e|);
      SameTile(m, i, |e|, i + 1, |e|);
    }
  }

  /** The zipper walk along line i is not disturbed. */
  lemma NextInLine(g: Links, m: Lines<Tile>, i: nat, e: seq<Tile>, p: nat, dir: Direction, c: nat)
    requires Splicing(g, m, i, e, p, dir) && c < |m[0]|
    ensures Inside(m, i, c) && m[i][c] in Tiles(m) && (c + 1 < |m[0]| ==> Inside(m, i, c + 1))
    ensures LinkOf(g, m[i][c], NextDir(dir)) == (if c + 1 < |m[0]| then Some(m[i][c + 1]) else None)
  {
    hide Injective, NewLink, Distinct, Tiles;
    assert Inside(m, i, c);
    InTiles(m, i, c);
    assert LinkOf(g, m[i][c], NextDir(dir)) == OldLink(m, i, e, dir, i, c, NextDir(dir));
    Perpendicular(NextDir(dir), dir);
  }

  lemma FirstLink(m: Lines<Tile>, i: nat, e: seq<Tile>, dir: Direction)
    ensures OldLink(m, i, e, dir, i, |e|, dir) == At(m, i + 1, |e|)
  {
    Perpendicular(dir, dir);
  }

  lemma SplicedOld(g: Links, m: Lines<Tile>, i: nat, e: seq<Tile>, dir: Direction, n: Tile, a: int, c: int,
      d: Direction)
    requires Splicing(g, m, i, e, 0, dir) && |e| < |m[0]| && n !in g
    requires Inside(m, i, |e|) && Inside(m, a, c)
    ensures LinkOf(Inserted(g, m[i][|e|], n, dir), m[a][c], d) == OldLink(m, i, e + [n], dir, a, c, d)
  {
    OldLinkSnoc(m, i, e, n, dir, a, c, d);
    NextLine(g, m, i, e, dir);
    InsertedLink(g, m[i][|e|], n, dir, m[a][c], d);
    assert LinkOf(g, m[a][c], d) == OldLink(m, i, e, dir, a, c, d);
    InTiles(m, a, c);
    SameTile(m, a, c, i, |e|);
    if Inside(m, i + 1, |e|) { SameTile(m, a, c, i + 1, |e|); }
    hide Along, NextDir, OldLink, NewLink, Injective, Splicing, LinkOf, Inserted, Opposite;
  }

  lemma SplicedNew(g: Links, m: Lines<Tile>, i: nat, e: seq<Tile>, dir: Direction, n: Tile, c: int, d: Direction)
    requires Splicing(g, m, i, e, 0, dir) && |e| < |m[0]| && n !in g
    requires Inside(m, i, |e|) && 0 <= c <= |e|
    ensures LinkOf(Inserted(g, m[i][|e|], n, dir), (e + [n])[c], d) == NewLink(m, i, e + [n], 0, dir, c, d)
  {
    NewLinkSnoc(m, i, e, n, dir, c, d);
    NextLine(g, m, i, e, dir);
    InsertedLink(g, m[i][|e|], n, dir, (e + [n])[c], d);
    hide Along, NextDir, OldLink, NewLink, Injective, Inserted, Opposite;
    if c < |e| {
      assert LinkOf(g, e[c], d) == NewLink(m, i, e, 0, dir, c, d);
      assert e[c] in Members(e);
      InTiles(m, i, |e|);
      if Inside(m, i + 1, |e|) { InTiles(m, i + 1, |e|); }
    } else {
      assert Inside(m, i, c);
    }
  }

  lemma SpliceStep(g: Links, m: Lines<Tile>, i: nat, e: seq<Tile>, dir: Direction, n: Tile)
    requires Splicing(g, m, i, e, 0, dir) && |e| < |m[0]| && n !in g && Inside(m, i, |e|)
    ensures Splicing(Inserted(g, m[i][|e|], n, dir), m, i, e + [n], 0, dir)
  {
    var all, now := e + [n], Inserted(g, m[i][|e|], n, dir);
    NextLine(g, m, i, e, dir);
    ApartSnoc(m, i, e, n, g);
    assert now.Keys == g.Keys + {n};
    MembersSnoc(e, n);
    hide Along, NextDir, OldLink, NewLink, Injective, Inserted, Splicing, LinkOf;
    forall a, c, d | Inside(m, a, c) ensures LinkOf(now, m[a][c], d) == OldLink(m, i, all, dir, a, c, d) {
      SplicedOld(g, m, i, e, dir, n, a, c, d);
    }
    forall c, d | 0 <= c < |all| ensures LinkOf(now, all[c], d) == NewLink(m, i, all, 0, dir, c, d) {
      SplicedNew(g, m, i, e, dir, n, c, d);
    }
  }

  lemma ApartSnoc(m: Lines<Tile>, i: nat, e: seq<Tile>, n: Tile, g: Links)
    requires Apart(m, i, e) && |e| < |m[0]| && n !in g && g.Keys == Tiles(m) + Members(e)
    ensures Apart(m, i, e + [n])
  {
    hide Rectangular, Injective, Tiles;
    forall c | 0 <= c < |e| ensures e[c] != n { assert e[c] in Members(e); }
  }

  // ----- linking the new line -----

  /** The neighbour maps after linking two tiles. */
  ghost function Linked(g: Links, a: Tile, b: Tile, d: Direction): Links {
    g[a := MapOf(g, a)[d := b]][b := MapOf(g, b)[Opposite(d) := a]]
  }

  lemma LinkedLink(g: Links, a: Tile, b: Tile, dir: Direction, x: Tile, d: Direction)
    requires a in g && b in g && a != b
    ensures LinkOf(Linked(g, a, b, dir), x, d) ==
      if x == a && d == dir then Some(b) else if x == b && d == Opposite(dir) then Some(a) else LinkOf(g, x, d)
  {
  }

  lemma NewLinkMore(m: Lines<Tile>, i: nat, e: seq<Tile>, p: nat, dir: Direction, c: int, d: Direction)
    requires 0 <= c < |e| && p + 1 < |e|
    ensures NewLink(m, i, e, p + 1, dir, c, d) ==
      if c == p && d == NextDir(dir) then Some(e[p + 1])
      else if c == p + 1 && d == Opposite(NextDir(dir)) then Some(e[p])
      else NewLink(m, i, e, p, dir, c, d)
  {
    Perpendicular(d, dir);
    hide Along, NextDir, Opposite, InsertedAt;
  }

  lemma NotYetLinked(m: Lines<Tile>, i: nat, e: seq<Tile>, p: nat, dir: Direction)
    requires p + 1 < |e|
    ensures NewLink(m, i, e, p, dir, p, NextDir(dir)) == None
    ensures NewLink(m, i, e, p, dir, p + 1, Opposite(NextDir(dir))) == None
  {
    Perpendicular(NextDir(dir), dir);
    Perpendicular(Opposite(NextDir(dir)), dir);
    hide Along, NextDir, Opposite, Inside, At;
  }

  lemma NewMember(m: Lines<Tile>, i: nat, e: seq<Tile>, g: Links, c: int)
    requires Apart(m, i, e) && g.Keys == Tiles(m) + Members(e) && 0 <= c < |e|
    ensures e[c] in g && e[c] !in Tiles(m)
  {
    assert e[c] in Members(e);
  }

  /** One more pair of new tiles linked. */
  lemma ZipStep(g: Links, m: Lines<Tile>, i: nat, e: seq<Tile>, p: nat, dir: Direction)
    requires Splicing(g, m, i, e, p, dir) && p + 1 < |e|
    ensures LinkOf(g, e[p], NextDir(dir)) == None && LinkOf(g, e[p + 1], Opposite(NextDir(dir))) == None
    ensures Splicing(Linked(g, e[p], e[p + 1], NextDir(dir)), m, i, e, p + 1, dir)
  {
    var now := Linked(g, e[p], e[p + 1], NextDir(dir));
    NewMember(m, i, e, g, p);
    NewMember(m, i, e, g, p + 1);
    NotYetLinked(m, i, e, p, dir);
    assert now.Keys == g.Keys;
    assert e[p] != e[p + 1];
    hide Along, NextDir, Opposite, OldLink, NewLink, Injective, LinkOf, Linked, Rectangular, Tiles, Members;
    assert LinkOf(g, e[p], NextDir(dir)) == NewLink(m, i, e, p, dir, p, NextDir(dir));
    assert LinkOf(g, e[p + 1], Opposite(NextDir(dir))) == NewLink(m, i, e, p, dir, p + 1, Opposite(NextDir(dir)));
    forall a, c, d | Inside(m, a, c) ensures LinkOf(now, m[a][c], d) == OldLink(m, i, e, dir, a, c, d) {
      InTiles(m, a, c);
      LinkedLink(g, e[p], e[p + 1], NextDir(dir), m[a][c], d);
    }
    forall c, d | 0 <= c < |e| ensures LinkOf(now, e[c], d) == NewLink(m, i, e, p + 1, dir, c, d) {
      LinkedLink(g, e[p], e[p + 1], NextDir(dir), e[c], d);
      NewLinkMore(m, i, e, p, dir, c, d);
      assert c != p ==> e[c] != e[p];
      assert c != p + 1 ==> e[c] != e[p + 1];
    }
  }

  // ----- the finished mesh -----

  lemma OldEnds(m: Lines<Tile>, i: nat, e: seq<Tile>, dir: Direction, a: int, c: int, d: Direction)
    requires 0 <= c < |e| && i < |m|
    ensures OldLink(m, i, e, dir, a, c, d) ==
      InsertedAt(m, i + 1, e, (if a <= i then a else a + 1) + Along(d, dir), c + Along(d, NextDir(dir)))
  {
    Perpendicular(d, dir);
    hide Along, NextDir, Opposite, Inside, At;
  }

  lemma NewEnds(m: Lines<Tile>, i: nat, e: seq<Tile>, p: nat, dir: Direction, c: int, d: Direction)
    requires 0 <= c < |e| <= p + 1 && i < |m|
    ensures NewLink(m, i, e, p, dir, c, d) == InsertedAt(m, i + 1, e, i + 1 + Along(d, dir), c + Along(d, NextDir(dir)))
  {
    Perpendicular(d, dir);
    hide Along, NextDir, Opposite, Inside, At;
  }

  /** Where the entry at a place of the new matrix comes from. */
  lemma InsertedFrom(m: Lines<Tile>, i: nat, e: seq<Tile>, r: int, c: int)
    requires Rectangular(m) && i < |m| && |e| == |m[0]| && Inside(InsertLine(m, i + 1, e), r, c)
    ensures 0 <= c < |e|
    ensures r <= i ==> Inside(m, r, c) && InsertLine(m, i + 1, e)[r][c] == m[r][c]
    ensures r == i + 1 ==> InsertLine(m, i + 1, e)[r][c] == e[c]
    ensures r > i + 1 ==> Inside(m, r - 1, c) && InsertLine(m, i + 1, e)[r][c] == m[r - 1][c]
  {
  }

  lemma InsertedTiles(m: Lines<Tile>, i: nat, e: seq<Tile>)
    requires Rectangular(m) && i < |m| && |e| == |m[0]|
    ensures Tiles(InsertLine(m, i + 1, e)) == Tiles(m) + Members(e)
  {
    var n: Lines<Tile> := InsertLine(m, i + 1, e);
    forall t | t in Tiles(n) ensures t in Tiles(m) + Members(e) {
      var r, c :| 0 <= r < |n| && 0 <= c < |n[r]| && n[r][c] == t;
      InsertedFrom(m, i, e, r, c);
      if r <= i { InTiles(m, r, c); } else if r > i + 1 { InTiles(m, r - 1, c); }
    }
    forall t | t in Tiles(m) + Members(e) ensures t in Tiles(n) {
      if t in Tiles(m) {
        var a, c :| 0 <= a < |m| && 0 <= c < |m[a]| && m[a][c] == t;
        InTiles(n, if a <= i then a else a + 1, c);
      } else {
        var c :| 0 <= c < |e| && e[c] == t;
        InTiles(n, i + 1, c);
      }
    }
    assert Tiles(n) <= Tiles(m) + Members(e) && Tiles(m) + Members(e) <= Tiles(n);
  }

  lemma InsertedRectangular(m: Lines<Tile>, i: nat, e: seq<Tile>)
    requires Rectangular(m) && i < |m| && |e| == |m[0]|
    ensures Rectangular(InsertLine(m, i + 1, e))
  {
    InsertLineAt(m, i + 1, e);
  }

  lemma InsertedInjective(m: Lines<Tile>, i: nat, e: seq<Tile>)
    requires Apart(m, i, e) && |e| == |m[0]|
    ensures Injective(InsertLine(m, i + 1, e))
  {
    var n: Lines<Tile> := InsertLine(m, i + 1, e);
    hide InsertLine, Injective;
    forall a, b, c, d | Inside(n, a, b) && Inside(n, c, d) && n[a][b] == n[c][d] ensures a == c && b == d {
      InsertedFrom(m, i, e, a, b);
      InsertedFrom(m, i, e, c, d);
      var k, l := if a <= i then a else a - 1, if c <= i then c else c - 1;
      if a != i + 1 { InTiles(m, k, b); }
      if c != i + 1 { InTiles(m, l, d); }
      if a != i + 1 && c != i + 1 { SameTile(m, k, b, l, d); }
    }
    assert Injective(n) by { InjectiveIntro(n); }
  }

  lemma InjectiveIntro(n: Lines<Tile>)
    requires forall a, b, c, d :: Inside(n, a, b) && Inside(n, c, d) && n[a][b] == n[c][d] ==> a == c && b == d
    ensures Injective(n)
  {
  }

  /** With the line complete and linked, the links are those of the matrix with the line put in. */
  lemma SplicingEnds(g: Links, m: Lines<Tile>, i: nat, e: seq<Tile>, p: nat, dir: Direction)
    requires Splicing(g, m, i, e, p, dir) && |e| == |m[0]| && p + 1 >= |e|
    ensures IsMesh(g, InsertLine(m, i + 1, e), dir, NextDir(dir))
  {
    hide InsertLine, Injective, NextDir, Tiles, Members, OldsFit, NewsFit, LinksFit, Distinct, Rectangular;
    InsertedRectangular(m, i, e);
    InsertedTiles(m, i, e);
    InsertedInjective(m, i, e);
    EndLinks(g, m, i, e, p, dir);
  }

  lemma EndLinks(g: Links, m: Lines<Tile>, i: nat, e: seq<Tile>, p: nat, dir: Direction)
    requires Splicing(g, m, i, e, p, dir) && |e| == |m[0]| && p + 1 >= |e|
    ensures LinksFit(g, InsertLine(m, i + 1, e), dir, NextDir(dir))
  {
    var n: Lines<Tile> := InsertLine(m, i + 1, e);
    hide Splicing, InsertLine, Along, NextDir, LinkOf, At;
    forall r, c, d | Inside(n, r, c)
      ensures LinkOf(g, n[r][c], d) == At(n, r + Along(d, dir), c + Along(d, NextDir(dir)))
    {
      EndLink(g, m, i, e, p, dir, r, c, d);
    }
  }

  lemma EndLink(g: Links, m: Lines<Tile>, i: nat, e: seq<Tile>, p: nat, dir: Direction, r: int, c: int, d: Direction)
    requires Splicing(g, m, i, e, p, dir) && |e| == |m[0]| && p + 1 >= |e|
    requires Inside(InsertLine(m, i + 1, e), r, c)
    ensures LinkOf(g, InsertLine(m, i + 1, e)[r][c], d) ==
      At(InsertLine(m, i + 1, e), r + Along(d, dir), c + Along(d, NextDir(dir)))
  {
    hide InsertLine, Injective, Along, NextDir, Opposite, OldLink, NewLink, LinkOf, Tiles, Members, InsertedAt,
      Distinct, At, Rectangular;
    InsertedFrom(m, i, e, r, c);
    InsertLineAtPoint(m, i + 1, e, r + Along(d, dir), c + Along(d, NextDir(dir)));
    if r == i + 1 {
      NewEnds(m, i, e, p, dir, c, d);
      assert LinkOf(g, e[c], d) == NewLink(m, i, e, p, dir, c, d);
    } else {
      var a := if r <= i then r else r - 1;
      OldEnds(m, i, e, dir, a, c, d);
      assert LinkOf(g, m[a][c], d) == OldLink(m, i, e, dir, a, c, d);
    }
  }
}
