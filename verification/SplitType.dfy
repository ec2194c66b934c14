/** utils/tile_splitter/grid.py, split_tile_type: what splitting one line after another does to the
    tiles of the type being split. */
module SplitType {
  import opened Sequences
  import opened Matrix
  import opened Mesh
  import opened TileData
  import opened SplitLine
  import opened Splice

  ghost predicate HasType(h: Contents, t: Tile, typ: int) { t in h && h[t].typ == typ }

  /** A tile of the mesh with the new lines in is an old tile or an empty one. */
  lemma OldOrEmpty(h: Contents, m: Lines<Tile>, i: nat, e: Lines<Tile>, mid: Contents, empty: int, r: nat, j: nat)
    requires LinesIn(h, m, i, e, mid, empty) && Inside(InsertLines(m, i, e), r, j)
    ensures var t := InsertLines(m, i, e)[r][j];
      t in mid && (r <= i || r > i + |e| ==> t in h && mid[t] == h[t]) && (i < r <= i + |e| ==> mid[t].typ == empty)
  {
    InsertLinesAt(m, i, e, r);
    if r <= i || r > i + |e| {
      var a := if r <= i then r else r - |e|;
      assert Inside(m, a, j) && m[a][j] in Tiles(m);
    } else {
      assert EmptyLine(mid, e[r - i - 1], |m[0]|, empty);
      assert |InsertLines(m, i, e)[r]| == |m[0]|;
    }
  }

  /** Where an old tile is once the lines are in. */
  lemma OldPlace(m: Lines<Tile>, i: nat, e: Lines<Tile>, t: Tile) returns (r: nat, j: nat)
    requires i < |m| && t in Tiles(m)
    ensures Inside(InsertLines(m, i, e), r, j) && InsertLines(m, i, e)[r][j] == t
    ensures t in m[i] ==> exists c :: Inside(InsertLines(m, i, e), i, c) && InsertLines(m, i, e)[i][c] == t
  {
    var a, c :| 0 <= a < |m| && 0 <= c < |m[a]| && m[a][c] == t;
    r, j := if a <= i then a else a + |e|, c;
    InsertLinesAt(m, i, e, r);
    InsertLinesAt(m, i, e, i);
    if t in m[i] {
      var k :| 0 <= k < |m[i]| && m[i][k] == t;
      assert Inside(InsertLines(m, i, e), i, k);
    }
  }

  /** After a line is split, no tile at a place of the mesh has the old type unless it had it before and
      stands elsewhere. */
  lemma ClearedAt(h: Contents, m: Lines<Tile>, i: nat, e: Lines<Tile>, mid: Contents, typ: int, types: seq<int>,
      splitMap: SplitMap, now: Contents, empty: int, r: nat, j: nat)
    requires typ !in types && typ != empty && |types| > 0
    requires LinesIn(h, m, i, e, mid, empty)
      && CanSplitLine(mid, InsertLines(m, i, e), i, |m[0]|, typ, |types|, splitMap, empty)
    requires LineSplit(mid, InsertLines(m, i, e), i, |m[0]|, typ, types, splitMap, now)
    requires Inside(InsertLines(m, i, e), r, j)
    ensures var t := InsertLines(m, i, e)[r][j];
      t in now && (HasType(now, t, typ) <==> HasType(h, t, typ) && r != i) && (HasType(now, t, typ) ==> now[t] == h[t])
  {
    var w: Lines<Tile> := InsertLines(m, i, e);
    var t := w[r][j];
    OldOrEmpty(h, m, i, e, mid, empty, r, j);
    PartOf(mid, w, i, |m[0]|, typ, types, splitMap, now, r, j);
    assert |w[r]| == |m[0]|;
    if r == i {
      assert types[0] in types;
    } else if i < r < i + |types| && TypeAt(mid, w, i, j) == Some(typ) {
      assert CanSplit(mid, Ray(w, i, j, |types|), splitMap, empty);
      assert Ray(w, i, j, |types|)[r - i] == t;
      assert types[r - i] in types;
    }
    hide LinesIn, LineSplit, CanSplitLine, InsertLines;
  }

  /** Splitting a line takes exactly its tiles from those of the type, and leaves the others alone. */
  lemma LineCleared(h: Contents, m: Lines<Tile>, i: nat, e: Lines<Tile>, mid: Contents, typ: int, types: seq<int>,
      splitMap: SplitMap, now: Contents, empty: int)
    requires typ !in types && typ != empty && |types| > 0
    requires LinesIn(h, m, i, e, mid, empty)
      && CanSplitLine(mid, InsertLines(m, i, e), i, |m[0]|, typ, |types|, splitMap, empty)
    requires LineSplit(mid, InsertLines(m, i, e), i, |m[0]|, typ, types, splitMap, now)
      && Injective(InsertLines(m, i, e))
    ensures forall t :: HasType(now, t, typ) <==> HasType(h, t, typ) && t !in m[i]
    ensures forall t :: HasType(now, t, typ) ==> t in h && now[t] == h[t]
  {
    var w: Lines<Tile> := InsertLines(m, i, e);
    InsertLinesAt(m, i, e, i);
    forall t | HasType(now, t, typ) || HasType(h, t, typ)
      ensures HasType(now, t, typ) <==> HasType(h, t, typ) && t !in m[i]
      ensures HasType(now, t, typ) ==> t in h && now[t] == h[t]
    {
      TileCleared(h, m, i, e, mid, typ, types, splitMap, now, empty, t);
    }
  }

  lemma TileCleared(h: Contents, m: Lines<Tile>, i: nat, e: Lines<Tile>, mid: Contents, typ: int, types: seq<int>,
      splitMap: SplitMap, now: Contents, empty: int, t: Tile)
    requires typ !in types && typ != empty && |types| > 0
    requires LinesIn(h, m, i, e, mid, empty)
      && CanSplitLine(mid, InsertLines(m, i, e), i, |m[0]|, typ, |types|, splitMap, empty)
    requires LineSplit(mid, InsertLines(m, i, e), i, |m[0]|, typ, types, splitMap, now)
      && Injective(InsertLines(m, i, e))
    requires HasType(now, t, typ) || HasType(h, t, typ)
    ensures HasType(now, t, typ) <==> HasType(h, t, typ) && t !in m[i]
    ensures HasType(now, t, typ) ==> t in h && now[t] == h[t]
  {
    var w: Lines<Tile> := InsertLines(m, i, e);
    var r, j := 0, 0;
    if t in h {
      r, j := OldPlace(m, i, e, t);
    } else {
      assert t in Tiles(w);
      r, j :| 0 <= r < |w| && 0 <= j < |w[r]| && w[r][j] == t;
    }
    ClearedAt(h, m, i, e, mid, typ, types, splitMap, now, empty, r, j);
    InsertLinesAt(m, i, e, i);
    assert r == i ==> t in m[i];
    if t in m[i] && t in h {
      var c :| Inside(w, i, c) && w[i][c] == t;
      assert r == i;
    }
    hide LinesIn, LineSplit, CanSplitLine, InsertLines;
  }

  // ----- several lines -----

  /** The tile is in none of the first p lines. */
  ghost predicate Outside(lines: Lines<Tile>, p: nat, t: Tile) {
    forall q :: 0 <= q < p && q < |lines| ==> t !in lines[q]
  }

  /** The tiles of the type left are those that had it and are in none of the first p lines, unchanged. */
  ghost predicate Remaining(before: Contents, lines: Lines<Tile>, p: nat, typ: int, h: Contents) {
    && (forall t :: t in h && HasType(h, t, typ) ==>
      HasType(before, t, typ) && Outside(lines, p, t) && h[t] == before[t])
    && forall t :: t in before && HasType(before, t, typ) && Outside(lines, p, t) ==> HasType(h, t, typ)
  }

  lemma RemainingStarts(h: Contents, lines: Lines<Tile>, typ: int)
    ensures Remaining(h, lines, 0, typ, h)
  {
  }

  lemma RemainingStep(before: Contents, lines: Lines<Tile>, p: nat, typ: int, h: Contents, now: Contents)
    requires Remaining(before, lines, p, typ, h) && p < |lines|
    requires forall t :: HasType(now, t, typ) <==> HasType(h, t, typ) && t !in lines[p]
    requires forall t :: HasType(now, t, typ) ==> t in h && now[t] == h[t]
    ensures Remaining(before, lines, p + 1, typ, now)
  {
    forall t ensures Outside(lines, p + 1, t) <==> Outside(lines, p, t) && t !in lines[p] {
      if Outside(lines, p, t) && t !in lines[p] {
        forall q | 0 <= q < p + 1 ensures t !in lines[q] {}
      }
    }
    hide Outside;
  }

  /** The line is one of the matrix, with so many behind it at least. */
  ghost predicate HasLineWith(m: Lines<Tile>, line: seq<Tile>, behind: nat) {
    exists r :: 0 <= r && r + behind < |m| && m[r] == line
  }

  lemma StillHasLine(m: Lines<Tile>, i: nat, e: Lines<Tile>, line: seq<Tile>, behind: nat)
    requires i < |m| && HasLineWith(m, line, behind)
    ensures HasLineWith(InsertLines(m, i, e), line, behind)
  {
    var r :| 0 <= r && r + behind < |m| && m[r] == line;
    var s := if r <= i then r else r + |e|;
    InsertLinesAt(m, i, e, s);
  }

  /** Whether the sites of a line's tiles are all placed does not depend on what was split before. */
  lemma SitesPlacedSame(before: Contents, m: Lines<Tile>, i: nat, lines: Lines<Tile>, p: nat, typ: int, n: nat,
      splitMap: SplitMap, h: Contents, w: Lines<Tile>, r: nat)
    requires Remaining(before, lines, p, typ, h) && i < |m| && r < |w| && w[r] == m[i]
    requires forall t :: t in m[i] ==> Outside(lines, p, t)
    ensures SitesPlaced(h, w, r, typ, n, splitMap) <==> SitesPlaced(before, m, i, typ, n, splitMap)
  {
    forall j | 0 <= j < |m[i]|
      ensures TypeAt(h, w, r, j) == Some(typ) <==> TypeAt(before, m, i, j) == Some(typ)
      ensures TypeAt(h, w, r, j) == Some(typ) ==> h[w[r][j]] == before[m[i][j]]
    {
      assert m[i][j] in m[i];
      assert HasType(h, w[r][j], typ) <==> HasType(before, m[i][j], typ);
    }
    forall j | Inside(w, r, j) ensures Inside(m, i, j) {}
  }

  // ----- finding the lines -----

  /** A tile of the type in line i is among the listed tiles. */
  ghost predicate Discovered(h: Contents, m: Lines<Tile>, items: seq<Tile>, typ: int, i: nat)
    requires i < |m|
  {
    exists k :: 0 <= k < |items| && HasType(h, items[k], typ) && items[k] in m[i]
  }

  /** The found lines are exactly the discovered ones, each once. */
  ghost predicate Found(h: Contents, m: Lines<Tile>, items: seq<Tile>, typ: int, lines: seq<nat>) {
    Distinct(lines) && (forall q :: 0 <= q < |lines| ==> lines[q] < |m|)
    && forall i :: 0 <= i < |m| ==> (i in lines <==> Discovered(h, m, items, typ, i))
  }

  ghost function LinesAt(m: Lines<Tile>, lines: seq<nat>): Lines<Tile>
    requires forall q :: 0 <= q < |lines| ==> lines[q] < |m|
  {
    seq(|lines|, q requires 0 <= q < |lines| => m[lines[q]])
  }

  lemma OneLine(m: Lines<Tile>, a: nat, b: nat, t: Tile)
    requires Injective(m) && a < |m| && b < |m|
    ensures t in m[a] && t in m[b] ==> a == b
  {
    if t in m[a] && t in m[b] {
      var c :| 0 <= c < |m[a]| && m[a][c] == t;
      var d :| 0 <= d < |m[b]| && m[b][d] == t;
      assert Inside(m, a, c) && Inside(m, b, d);
    }
  }

  /** A tile of one of the lines is in no other. */
  lemma LinesApart(m: Lines<Tile>, lines: seq<nat>, p: nat, t: Tile)
    requires Injective(m) && Distinct(lines) && forall q :: 0 <= q < |lines| ==> lines[q] < |m|
    requires p < |lines| && t in m[lines[p]]
    ensures Outside(LinesAt(m, lines), p, t)
  {
    forall q | 0 <= q < p ensures t !in m[lines[q]] { OneLine(m, lines[q], lines[p], t); }
  }

  /** With all lines split, a tile still has the type exactly when it had it in a line that was not
      discovered. */
  lemma NothingElseLeft(before: Contents, m: Lines<Tile>, items: seq<Tile>, typ: int, lines: seq<nat>, now: Contents,
      t: Tile)
    requires Found(before, m, items, typ, lines) && Remaining(before, LinesAt(m, lines), |lines|, typ, now)
    ensures HasType(now, t, typ) <==>
      HasType(before, t, typ) && forall i :: 0 <= i < |m| && Discovered(before, m, items, typ, i) ==> t !in m[i]
  {
    var all := LinesAt(m, lines);
    assert HasType(now, t, typ) <==> HasType(before, t, typ) && Outside(all, |lines|, t);
    if Outside(all, |lines|, t) {
      forall i | 0 <= i < |m| && Discovered(before, m, items, typ, i) ensures t !in m[i] {
        var q :| 0 <= q < |lines| && lines[q] == i;
        assert t !in all[q];
      }
    } else {
      var q :| 0 <= q < |lines| && t in all[q];
      assert lines[q] in lines;
    }
  }

  /** So the type is gone exactly when every line holding it was discovered. */
  lemma AllGone(before: Contents, m: Lines<Tile>, items: seq<Tile>, typ: int, lines: seq<nat>, now: Contents)
    requires Found(before, m, items, typ, lines) && Remaining(before, LinesAt(m, lines), |lines|, typ, now)
    requires before.Keys == Tiles(m) && Injective(m)
    ensures (forall t :: t in now ==> !HasType(now, t, typ)) <==>
      forall i, j :: Inside(m, i, j) && HasType(before, m[i][j], typ) ==> Discovered(before, m, items, typ, i)
  {
    if i, j :| Inside(m, i, j) && HasType(before, m[i][j], typ) && !Discovered(before, m, items, typ, i) {
      var t := m[i][j];
      NothingElseLeft(before, m, items, typ, lines, now, t);
      forall k | 0 <= k < |m| && Discovered(before, m, items, typ, k) ensures t !in m[k] {
        OneLine(m, i, k, t);
      }
      assert HasType(now, t, typ);
    } else {
      forall t | t in now ensures !HasType(now, t, typ) {
        NothingElseLeft(before, m, items, typ, lines, now, t);
        if HasType(before, t, typ) {
          var i, j :| 0 <= i < |m| && 0 <= j < |m[i]| && m[i][j] == t;
          assert Inside(m, i, j) && t in m[i];
        }
      }
    }
  }

  /** The lines still to split stay in the mesh when another is split. */
  lemma LinesStay(m: Lines<Tile>, lines: seq<nat>, p: nat, w: Lines<Tile>, r: nat, e: Lines<Tile>, behind: nat)
    requires r < |w| && forall q :: 0 <= q < |lines| ==> lines[q] < |m|
    requires forall q :: p <= q < |lines| ==> HasLineWith(w, m[lines[q]], behind)
    ensures forall q :: p <= q < |lines| ==> HasLineWith(InsertLines(w, r, e), m[lines[q]], behind)
  {
    forall q | p <= q < |lines| ensures HasLineWith(InsertLines(w, r, e), m[lines[q]], behind) {
      StillHasLine(w, r, e, m[lines[q]], behind);
    }
  }

  /** One line split, into any number of types other than its own. */
  lemma RemainingAfter(h: Contents, m: Lines<Tile>, lines: seq<nat>, p: nat, typ: int, types: seq<int>,
      splitMap: SplitMap, w: Lines<Tile>, before: Contents, r: nat, e: Lines<Tile>, mid: Contents, now: Contents,
      empty: int)
    requires (forall q :: 0 <= q < |lines| ==> lines[q] < |m|) && p < |lines|
    requires |types| > 0 && typ !in types && typ != empty
    requires r < |w| && w[r] == m[lines[p]] && Remaining(h, LinesAt(m, lines), p, typ, before)
    requires LinesIn(before, w, r, e, mid, empty) && Injective(InsertLines(w, r, e))
    requires CanSplitLine(mid, InsertLines(w, r, e), r, |w[0]|, typ, |types|, splitMap, empty)
    requires LineSplit(mid, InsertLines(w, r, e), r, |w[0]|, typ, types, splitMap, now)
    ensures Remaining(h, LinesAt(m, lines), p + 1, typ, now)
  {
    hide LineSplit, CanSplitLine, Remaining, Injective, Outside, HasType, EmptyLines, Kept, Rectangular, Tiles;
    LineCleared(before, w, r, e, mid, typ, types, splitMap, now, empty);
    RemainingStep(h, LinesAt(m, lines), p, typ, before, now);
  }

  /** One line of a two-way split. */
  lemma TwoWayStep(h: Contents, m: Lines<Tile>, lines: seq<nat>, p: nat, typ: int, splitMap: SplitMap,
      w: Lines<Tile>, before: Contents, r: nat, e: Lines<Tile>, mid: Contents, empty: int)
    requires Injective(m) && Distinct(lines) && (forall q :: 0 <= q < |lines| ==> lines[q] < |m|) && p < |lines|
    requires typ != empty
    requires r + 1 < |w| && w[r] == m[lines[p]] && Remaining(h, LinesAt(m, lines), p, typ, before)
    requires LinesIn(before, w, r, e, mid, empty) && CountIs(before, w, r, typ, 2, empty, |e|)
    requires Injective(InsertLines(w, r, e))
    ensures |InsertLines(w, r, e)| <= |w| + 1
    ensures CanSplitLine(mid, InsertLines(w, r, e), r, |w[0]|, typ, 2, splitMap, empty)
      <==> SitesPlaced(h, m, lines[p], typ, 2, splitMap)
  {
    hide CanSplitLine, SitesPlaced, Remaining, CountIs, Injective, Outside, HasType, EmptyLines, Kept, Rectangular,
      Tiles;
    var all := LinesAt(m, lines);
    forall t | t in m[lines[p]] ensures Outside(all, p, t) { LinesApart(m, lines, p, t); }
    SitesPlacedSame(h, m, lines[p], all, p, typ, 2, splitMap, before, w, r);
    TwoWayRoom(before, w, r, typ, e, mid, splitMap, empty);
  }

  /** In a grid whose tiles are all listed, as they are until a line is put in, the type is gone. */
  lemma ListedMeansGone(before: Contents, m: Lines<Tile>, items: seq<Tile>, typ: int, lines: seq<nat>, now: Contents)
    requires Found(before, m, items, typ, lines) && Remaining(before, LinesAt(m, lines), |lines|, typ, now)
    requires before.Keys == Tiles(m) && Injective(m) && forall t :: t in Tiles(m) ==> t in items
    ensures forall t :: t in now ==> !HasType(now, t, typ)
  {
    AllGone(before, m, items, typ, lines, now);
    forall i, j | Inside(m, i, j) && HasType(before, m[i][j], typ) ensures Discovered(before, m, items, typ, i) {
      InTiles(m, i, j);
      var k :| 0 <= k < |items| && items[k] == m[i][j];
      assert items[k] in m[i];
    }
    hide Discovered, Remaining, HasType, Injective;
  }

  /** A later split misses a line of which no tile is listed, such as one put in by an earlier split: its
      tiles keep the type. */
  lemma UnlistedStays(before: Contents, m: Lines<Tile>, items: seq<Tile>, typ: int, lines: seq<nat>, now: Contents,
      i: nat, j: nat)
    requires Found(before, m, items, typ, lines) && Remaining(before, LinesAt(m, lines), |lines|, typ, now)
      && Injective(m)
    requires Inside(m, i, j) && HasType(before, m[i][j], typ) && forall k :: 0 <= k < |items| ==> items[k] !in m[i]
    ensures HasType(now, m[i][j], typ)
  {
    NothingElseLeft(before, m, items, typ, lines, now, m[i][j]);
    forall l | 0 <= l < |m| && Discovered(before, m, items, typ, l) ensures m[i][j] !in m[l] {
      OneLine(m, i, l, m[i][j]);
    }
    hide Remaining, Injective;
  }

  // ----- in place -----

  /** To the end of the line. */
  method WalkToEnd(tile: Tile, dir: Direction, ghost m: Lines<Tile>, ghost i: nat, ghost j: nat) returns (last: Tile)
    requires Meshed(m, dir) && i < |m| && j < |m[0]| && m[i][j] == tile
    ensures Inside(m, i, |m[0]| - 1) && last == m[i][|m[0]| - 1]
  {
    hide IsMesh, Tiles;
    last := tile;
    ghost var c := j;
    MeshLinks(m, i, c, dir);
    while NextDir(dir) in last.neighboors
      invariant Meshed(m, dir) && Inside(m, i, c) && m[i][c] == last && last.Link(NextDir(dir)) == At(m, i, c + 1)
      decreases |m[0]| - c
    {
      last := last.neighboors[NextDir(dir)];
      c := c + 1;
      MeshLinks(m, i, c, dir);
    }
  }

  lemma LinkBack(m: Lines<Tile>, i: nat, j: nat, dir: Direction)
    requires Meshed(m, dir) && i < |m| && j < |m[0]|
    ensures Inside(m, i, j) && m[i][j].Link(Opposite(NextDir(dir))) == At(m, i, j - 1)
  {
    var back := Opposite(NextDir(dir));
    Perpendicular(back, dir);
    hide LinksFit, Injective, Along, Opposite;
    assert Inside(m, i, j) && m[i][j] in Tiles(m);
    LinkAt(Snapshot(Tiles(m)), m, dir, NextDir(dir), i, j, back);
  }

  /** Back to the start of the line, noting its tiles. */
  method WalkBack(last: Tile, dir: Direction, seen: set<Tile>, ghost m: Lines<Tile>, ghost i: nat)
      returns (top: Tile, seen': set<Tile>)
    requires Meshed(m, dir) && i < |m| && Inside(m, i, |m[0]| - 1) && m[i][|m[0]| - 1] == last
    ensures Inside(m, i, 0) && top == m[i][0] && seen' == seen + Members(m[i])
  {
    hide IsMesh, Tiles;
    top, seen' := last, seen + {last};
    ghost var c := |m[0]| - 1;
    LinkBack(m, i, c, dir);
    assert Members(m[i][c..]) == {last};
    while Opposite(NextDir(dir)) in top.neighboors
      invariant Meshed(m, dir) && 0 <= c < |m[i]| && m[i][c] == top
        && top.Link(Opposite(NextDir(dir))) == At(m, i, c - 1)
      invariant seen' == seen + Members(m[i][c..])
      decreases c
    {
      top := top.neighboors[Opposite(NextDir(dir))];
      c := c - 1;
      LinkBack(m, i, c, dir);
      MembersCons(m[i], c);
      seen' := seen' + {top};
    }
    assert m[i][0..] == m[i];
  }

  lemma MembersCons(s: seq<Tile>, c: nat)
    requires c < |s|
    ensures Members(s[c..]) == Members(s[c + 1..]) + {s[c]}
  {
    var t := s[c..];
    forall x | x in Members(s[c + 1..]) + {s[c]} ensures x in Members(t) {
      if x == s[c] {
        assert t[0] == x;
      } else {
        var k :| 0 <= k < |s[c + 1..]| && s[c + 1..][k] == x;
        assert t[k + 1] == x;
      }
    }
    forall x | x in Members(t) ensures x in Members(s[c + 1..]) + {s[c]} {
      var k :| 0 <= k < |t| && t[k] == x;
      if k > 0 { assert s[c + 1..][k - 1] == x; }
    }
    assert Members(t) <= Members(s[c + 1..]) + {s[c]} && Members(s[c + 1..]) + {s[c]} <= Members(t);
  }

  /** The lines found after the first k items, and the tiles seen: those of these lines. */
  ghost predicate FoundSoFar(h: Contents, m: Lines<Tile>, items: seq<Tile>, typ: int, lines: seq<nat>,
      tops: seq<Tile>, seen: set<Tile>)
  {
    Rectangular(m) && Found(h, m, items, typ, lines) && |tops| == |lines|
    && (forall q :: 0 <= q < |tops| ==> tops[q] == m[lines[q]][0])
    && (forall t :: t in seen ==> exists q :: 0 <= q < |lines| && t in m[lines[q]])
    && forall q, c :: 0 <= q < |lines| && Inside(m, lines[q], c) ==> m[lines[q]][c] in seen
  }

  lemma DiscoveredMore(h: Contents, m: Lines<Tile>, items: seq<Tile>, k: nat, typ: int, i: nat)
    requires i < |m| && k < |items|
    ensures Discovered(h, m, items[..k + 1], typ, i) <==>
      Discovered(h, m, items[..k], typ, i) || (HasType(h, items[k], typ) && items[k] in m[i])
  {
    var a, b := items[..k], items[..k + 1];
    if l :| 0 <= l < |b| && HasType(h, b[l], typ) && b[l] in m[i] {
      assert l < k ==> a[l] == b[l];
    }
    if l :| 0 <= l < |a| && HasType(h, a[l], typ) && a[l] in m[i] { assert b[l] == a[l]; }
    assert b[k] == items[k];
  }

  /** An item that adds no line. */
  lemma FoundSame(h: Contents, m: Lines<Tile>, items: seq<Tile>, k: nat, typ: int, lines: seq<nat>, tops: seq<Tile>,
      seen: set<Tile>)
    requires k < |items| && Injective(m) && FoundSoFar(h, m, items[..k], typ, lines, tops, seen)
    requires items[k] in seen || !HasType(h, items[k], typ)
    ensures FoundSoFar(h, m, items[..k + 1], typ, lines, tops, seen)
  {
    forall i | 0 <= i < |m| ensures i in lines <==> Discovered(h, m, items[..k + 1], typ, i) {
      DiscoveredMore(h, m, items, k, typ, i);
      if items[k] in seen {
        var q :| 0 <= q < |lines| && items[k] in m[lines[q]];
        OneLine(m, lines[q], i, items[k]);
        assert lines[q] in lines;
      }
    }
    hide Injective, Discovered;
  }

  /** An item in a line not seen before. */
  lemma FoundMore(h: Contents, m: Lines<Tile>, items: seq<Tile>, k: nat, typ: int, lines: seq<nat>, tops: seq<Tile>,
      seen: set<Tile>, i: nat)
    requires k < |items| && Injective(m) && FoundSoFar(h, m, items[..k], typ, lines, tops, seen)
    requires i < |m| && items[k] in m[i] && items[k] !in seen && HasType(h, items[k], typ)
    ensures FoundSoFar(h, m, items[..k + 1], typ, lines + [i], tops + [m[i][0]], seen + Members(m[i]))
  {
    var all := lines + [i];
    var c :| 0 <= c < |m[i]| && m[i][c] == items[k];
    forall q | 0 <= q < |lines| ensures lines[q] != i {
      assert lines[q] == i ==> Inside(m, lines[q], c);
    }
    forall l | 0 <= l < |m| ensures l in all <==> Discovered(h, m, items[..k + 1], typ, l) {
      DiscoveredMore(h, m, items, k, typ, l);
      OneLine(m, i, l, items[k]);
    }
    hide Injective, Discovered, Rectangular;
    forall t | t in seen + Members(m[i]) ensures exists q :: 0 <= q < |all| && t in m[all[q]] {
      MemberIs(m[i], t);
      if t in seen {
        var q :| 0 <= q < |lines| && t in m[lines[q]];
        assert all[q] == lines[q];
      } else {
        assert all[|lines|] == i;
      }
    }
    forall q, c | 0 <= q < |all| && Inside(m, all[q], c) ensures m[all[q]][c] in seen + Members(m[i]) {
      if q < |lines| { assert Inside(m, lines[q], c); } else { assert m[i][c] in Members(m[i]); }
    }
  }

  /** Exactly the first tiles of the discovered lines, each once. */
  ghost predicate AreTops(h: Contents, m: Lines<Tile>, items: seq<Tile>, typ: int, tops: seq<Tile>) {
    Distinct(tops)
    && (forall q :: 0 <= q < |tops| ==>
          exists i :: 0 <= i < |m| && Discovered(h, m, items, typ, i) && At(m, i, 0) == Some(tops[q]))
    && forall i :: 0 <= i < |m| && Discovered(h, m, items, typ, i) ==> Inside(m, i, 0) && m[i][0] in tops
  }

  lemma TopsAre(h: Contents, m: Lines<Tile>, items: seq<Tile>, typ: int, lines: seq<nat>, tops: seq<Tile>)
    requires Rectangular(m) && Injective(m) && Found(h, m, items, typ, lines) && |tops| == |lines|
    requires forall q :: 0 <= q < |tops| ==> Inside(m, lines[q], 0) && tops[q] == m[lines[q]][0]
    ensures AreTops(h, m, items, typ, tops)
  {
    hide Discovered, Rectangular;
    forall p, q | 0 <= p < q < |tops| ensures tops[p] != tops[q] {
      assert tops[p] in m[lines[p]] && tops[q] in m[lines[q]];
      OneLine(m, lines[p], lines[q], tops[p]);
    }
    forall q | 0 <= q < |tops|
      ensures exists i :: 0 <= i < |m| && Discovered(h, m, items, typ, i) && At(m, i, 0) == Some(tops[q])
    {
      assert lines[q] in lines && At(m, lines[q], 0) == Some(tops[q]);
    }
    forall i | 0 <= i < |m| && Discovered(h, m, items, typ, i) ensures Inside(m, i, 0) && m[i][0] in tops {
      assert i in lines;
      var q :| 0 <= q < |lines| && lines[q] == i;
      assert tops[q] == m[i][0];
    }
    assert Distinct(tops);
    assert forall q :: 0 <= q < |tops| ==>
      exists i :: 0 <= i < |m| && Discovered(h, m, items, typ, i) && At(m, i, 0) == Some(tops[q]);
    assert forall i :: 0 <= i < |m| && Discovered(h, m, items, typ, i) ==> Inside(m, i, 0) && m[i][0] in tops;
  }

  /** The first loop of split_tile_type: the first tile of every line with an item of the type. */
  method FindTops(items: seq<Tile>, typ: int, dir: Direction, ghost m: Lines<Tile>)
      returns (tops: seq<Tile>, ghost lines: seq<nat>)
    requires Meshed(m, dir) && forall k :: 0 <= k < |items| ==> items[k] in Tiles(m)
    ensures Rectangular(m) && Found(ContentsOf(Tiles(m)), m, items, typ, lines) && |tops| == |lines|
    ensures forall q :: 0 <= q < |tops| ==> Inside(m, lines[q], 0) && tops[q] == m[lines[q]][0]
    ensures AreTops(ContentsOf(Tiles(m)), m, items, typ, tops)
  {
    ghost var h := ContentsOf(Tiles(m));
    assert Injective(m);
    tops, lines := [], [];
    var seen: set<Tile> := {};
    NothingFound(h, m, typ);
    hide FoundSoFar, LinksFit, Snapshot, ContentsOf, Injective, AreTops;
    assert items[..0] == [];
    for k := 0 to |items|
      invariant FoundSoFar(h, m, items[..k], typ, lines, tops, seen)
    {
      var tile := items[k];
      ItemType(m, tile, typ);
      if tile !in seen && tile.tileTypePkey == typ {
        ghost var i: nat, j: nat :| i < |m| && j < |m[i]| && m[i][j] == tile;
        FoundMore(h, m, items, k, typ, lines, tops, seen, i);
        var last := WalkToEnd(tile, dir, m, i, j);
        var top;
        top, seen := WalkBack(last, dir, seen, m, i);
        tops, lines := tops + [top], lines + [i];
      } else {
        FoundSame(h, m, items, k, typ, lines, tops, seen);
      }
    }
    assert items[..|items|] == items;
    FoundAtEnd(h, m, items, typ, lines, tops, seen);
  }

  lemma NothingFound(h: Contents, m: Lines<Tile>, typ: int)
    requires Rectangular(m)
    ensures FoundSoFar(h, m, [], typ, [], [], {})
  {
  }

  lemma ItemType(m: Lines<Tile>, t: Tile, typ: int)
    requires t in Tiles(m)
    ensures HasType(ContentsOf(Tiles(m)), t, typ) <==> t.tileTypePkey == typ
    ensures exists i: nat, j: nat :: i < |m| && j < |m[i]| && m[i][j] == t
  {
    var i, j :| 0 <= i < |m| && 0 <= j < |m[i]| && m[i][j] == t;
  }

  lemma FoundAtEnd(h: Contents, m: Lines<Tile>, items: seq<Tile>, typ: int, lines: seq<nat>, tops: seq<Tile>,
      seen: set<Tile>)
    requires FoundSoFar(h, m, items, typ, lines, tops, seen) && Injective(m)
    ensures Rectangular(m) && Found(h, m, items, typ, lines) && |tops| == |lines|
    ensures forall q :: 0 <= q < |tops| ==> Inside(m, lines[q], 0) && tops[q] == m[lines[q]][0]
    ensures AreTops(h, m, items, typ, tops)
  {
    hide AreTops, Injective;
    TopsAre(h, m, items, typ, lines, tops);
  }
}
