/** utils/tile_splitter/grid.py: inputs on which the grid does not do what its documentation says. A split
    can lose a site, can ask for too few lines, and can miss tiles of the type it is to split. */
module GridExamples {
  import opened Sequences
  import opened Matrix
  import opened Mesh
  import opened Splice
  import opened TileData
  import opened SplitLine
  import opened SplitType
  import opened Conserve
  import opened GridRuns

  const EMPTY := 0
  const SITE := Site("site", 3, 2, 1, 1, 0, 0)

  /** Three tiles in a row: one to split, an empty one, and one with a site. */
  ghost function Row(a: Tile, b: Tile, c: Tile): Contents {
    map[a := Data([1], [1], 1, [], false), b := Data([2], [2], EMPTY, [], false), c := Data([3], [3], 2, [SITE], false)]
  }

  /** The site is merged into the empty tile. */
  ghost function RowMerged(a: Tile, b: Tile, c: Tile): Contents {
    map[a := Data([1], [1], 1, [], false), b := Data([2, 3], [2, 3], EMPTY, [SITE], false),
        c := Data([], [], EMPTY, [], false)]
  }

  /** The first tile is split over the second, which is taken to be free. */
  ghost function RowSplit(a: Tile, b: Tile, c: Tile): Contents {
    map[a := Data([1], [1], 3, [], true), b := Data([2, 3], [1], 4, [], true), c := Data([], [], EMPTY, [], false)]
  }

  ghost function LosingRun(a: Tile, b: Tile, c: Tile): Run {
    Run([Merge(c, b), Split(RowTiles(a, b, c), 0, [], RowMerged(a, b, c), 1, [3, 4], map[])],
        [Row(a, b, c), RowMerged(a, b, c), RowSplit(a, b, c)])
  }

  ghost function RowTiles(a: Tile, b: Tile, c: Tile): Lines<Tile> { [[a], [b], [c]] }

  lemma RowTilesAre(a: Tile, b: Tile, c: Tile)
    requires a != b && b != c && a != c
    ensures Rectangular(RowTiles(a, b, c)) && Injective(RowTiles(a, b, c))
    ensures Tiles(RowTiles(a, b, c)) == {a, b, c} && InsertLines(RowTiles(a, b, c), 0, []) == RowTiles(a, b, c)
  {
    var m := RowTiles(a, b, c);
    assert m[0][0] == a && m[1][0] == b && m[2][0] == c;
  }

  /** The split finds room without putting a line in. */
  lemma SplitPrepared(a: Tile, b: Tile, c: Tile)
    requires a != b && b != c && a != c
    ensures Prepared(LosingRun(a, b, c).ops[1], RowMerged(a, b, c), EMPTY)
  {
    RowTilesAre(a, b, c);
    var m, h := RowTiles(a, b, c), RowMerged(a, b, c);
    hide Rectangular, Injective, Tiles, InsertLines;
    assert TypeAt(h, m, 0, 0) == Some(1) && TypeAt(h, m, 1, 0) == Some(EMPTY);
    assert EmptyBehind(h, m, 0, 0, 1, EMPTY);
    assert CountIs(h, m, 0, 1, 2, EMPTY, 0);
  }

  lemma SplitGoesThrough(a: Tile, b: Tile, c: Tile)
    requires a != b && b != c && a != c
    ensures Rectangular(RowTiles(a, b, c))
    ensures CanSplitLine(RowMerged(a, b, c), RowTiles(a, b, c), 0, 1, 1, 2, map[], EMPTY)
    ensures LineSplit(RowMerged(a, b, c), RowTiles(a, b, c), 0, 1, 1, [3, 4], map[], RowSplit(a, b, c))
  {
    RowTilesAre(a, b, c);
    var m, h, now := RowTiles(a, b, c), RowMerged(a, b, c), RowSplit(a, b, c);
    hide Injective, Tiles;
    assert CanSplit(h, Ray(m, 0, 0, 2), map[], EMPTY) by {
      assert Ray(m, 0, 0, 2) == [a, b];
    }
    forall r, j | Inside(m, r, j) ensures PartAt(h, m, 0, 1, 1, [3, 4], map[], now, r, j) {
      assert Inside(m, 0, j) && j == 0;
      assert r == 0 || r == 1 || r == 2;
    }
  }

  lemma RowTotal(a: Tile, b: Tile, c: Tile)
    requires a != b && b != c && a != c
    ensures AllSites(Row(a, b, c)) == multiset{SITE}
  {
    var h := Row(a, b, c);
    TotalRemove(SitesIn(h), h.Keys, c);
    TotalEmpty(SitesIn(h), h.Keys - {c});
    assert multiset([SITE]) == multiset{SITE};
  }

  lemma RowSplitTotal(a: Tile, b: Tile, c: Tile)
    requires a != b && b != c && a != c
    ensures AllSites(RowSplit(a, b, c)) == multiset{}
  {
    TotalEmpty(SitesIn(RowSplit(a, b, c)), RowSplit(a, b, c).Keys);
  }

  lemma MergeDone(a: Tile, b: Tile, c: Tile)
    requires a != b && b != c && a != c
    ensures RowMerged(a, b, c) == Merged(Row(a, b, c), c, b, EMPTY)
  {
    var now := Merged(Row(a, b, c), c, b, EMPTY);
    assert [2] + [3] == [2, 3] && [] + [SITE] == [SITE];
    assert now.Keys == {a, b, c} == RowMerged(a, b, c).Keys;
    assert now[a] == RowMerged(a, b, c)[a] && now[b] == RowMerged(a, b, c)[b] && now[c] == RowMerged(a, b, c)[c];
  }

  lemma SplitDone(a: Tile, b: Tile, c: Tile)
    requires a != b && b != c && a != c
    ensures Done(Split(RowTiles(a, b, c), 0, [], RowMerged(a, b, c), 1, [3, 4], map[]), RowMerged(a, b, c),
      RowSplit(a, b, c), EMPTY)
  {
    RowTilesAre(a, b, c);
    SplitPrepared(a, b, c);
    SplitGoesThrough(a, b, c);
    hide Prepared, CanSplitLine, LineSplit, Rectangular, Injective, Tiles, InsertLines, RowMerged, RowSplit;
  }

  /** A merge into an empty tile and a split of the tile in front of it: the site is gone. */
  lemma SiteIsLost(a: Tile, b: Tile, c: Tile)
    requires a != b && b != c && a != c
    ensures IsRun(LosingRun(a, b, c), EMPTY)
    ensures AllSites(Row(a, b, c)) == multiset{SITE} && AllSites(RowSplit(a, b, c)) == multiset{}
  {
    MergeDone(a, b, c);
    assert Done(Merge(c, b), Row(a, b, c), RowMerged(a, b, c), EMPTY);
    SplitDone(a, b, c);
    RowTotal(a, b, c);
    RowSplitTotal(a, b, c);
    hide AllSites, Row, RowMerged, RowSplit, Done, RowTiles;
  }

  // ----- too few lines -----

  /** A tile to split in three, a taken one behind it, and an empty one behind that. */
  ghost function Crowded(a: Tile, b: Tile, c: Tile): Contents {
    map[a := Data([1], [1], 1, [], false), b := Data([2], [2], 2, [], false), c := Data([3], [3], EMPTY, [], false)]
  }

  /** One line is put in, so that the split runs into the taken tile. */
  lemma TooFewLines(a: Tile, b: Tile, c: Tile, e: Lines<Tile>, mid: Contents)
    requires a != b && b != c && a != c
    requires LinesIn(Crowded(a, b, c), RowTiles(a, b, c), 0, e, mid, EMPTY)
    requires CountIs(Crowded(a, b, c), RowTiles(a, b, c), 0, 1, 3, EMPTY, |e|)
    ensures |e| == 1
    ensures !CanSplitLine(mid, InsertLines(RowTiles(a, b, c), 0, e), 0, 1, 1, 3, map[], EMPTY)
  {
    var h, m := Crowded(a, b, c), RowTiles(a, b, c);
    hide InsertLines, LinesIn, CanSplitLine, CanSplit;
    assert TypeAt(h, m, 0, 0) == Some(1) && TypeAt(h, m, 1, 0) == Some(2) && TypeAt(h, m, 2, 0) == Some(EMPTY);
    assert !EmptyBehind(h, m, 0, 0, 1, EMPTY) && EmptyBehind(h, m, 0, 0, 2, EMPTY);
    assert OccupiedBehind(h, m, 0, 1, 1, EMPTY) && !OccupiedBehind(h, m, 0, 1, 2, EMPTY);
    LineRoom(h, m, 0, 1, 3, e, mid, map[], EMPTY);
    assert Inside(m, 0, 0) && !EmptyBehind(h, m, 0, 0, 1, EMPTY);
  }
}
