/** utils/tile_splitter/grid.py, split_in_dir: how many lines a split needs, and splitting the tiles of
    one line. Lines follow each other in the split direction. */
module SplitLine {
  import opened Sequences
  import opened Matrix
  import opened Mesh
  import opened TileData

  // ----- how many lines to insert -----

  ghost predicate Holds(h: Contents, m: Lines<Tile>) { Rectangular(m) && h.Keys == Tiles(m) }

  ghost function TypeAt(h: Contents, m: Lines<Tile>, i: int, j: int): Option<int> {
    if Inside(m, i, j) && m[i][j] in h then Some(h[m[i][j]].typ) else None
  }

  /** The last of the next k positions that is not empty, 0 if there is none. */
  ghost function LastTaken(h: Contents, m: Lines<Tile>, i: nat, j: nat, k: nat, empty: int): (r: nat)
    ensures r <= k
  {
    if k == 0 then 0
    else if TypeAt(h, m, i + k, j).Some? && TypeAt(h, m, i + k, j) != Some(empty) then k
    else LastTaken(h, m, i, j, k - 1, empty)
  }

  /** The greatest of these over the tiles to split among the first c of the line. */
  ghost function ToInsert(h: Contents, m: Lines<Tile>, i: nat, c: nat, typ: int, n: nat, empty: int): (r: nat)
    ensures r <= Max(1, n - 1)
  {
    if c == 0 then 0
    else
      var before := ToInsert(h, m, i, c - 1, typ, n, empty);
      if TypeAt(h, m, i, c - 1) == Some(typ) then Max(before, LastTaken(h, m, i, c - 1, Max(1, n - 1), empty))
        else before
  }

  /** The position l behind a place, where there is one, is empty. */
  ghost predicate EmptyBehind(h: Contents, m: Lines<Tile>, i: nat, j: nat, l: nat, empty: int) {
    TypeAt(h, m, i + l, j) in {None, Some(empty)}
  }

  lemma {:induction false} LastTakenIs(h: Contents, m: Lines<Tile>, i: nat, j: nat, k: nat, empty: int)
    ensures var r := LastTaken(h, m, i, j, k, empty); r > 0 ==> !EmptyBehind(h, m, i, j, r, empty)
    ensures forall l :: LastTaken(h, m, i, j, k, empty) < l <= k ==> EmptyBehind(h, m, i, j, l, empty)
  {
    if k > 0 { LastTakenIs(h, m, i, j, k - 1, empty); }
  }

  lemma {:induction false} ToInsertCovers(h: Contents, m: Lines<Tile>, i: nat, c: nat, typ: int, n: nat, empty: int)
    ensures forall j :: 0 <= j < c && TypeAt(h, m, i, j) == Some(typ) ==>
      LastTaken(h, m, i, j, Max(1, n - 1), empty) <= ToInsert(h, m, i, c, typ, n, empty)
  {
    if c > 0 { ToInsertCovers(h, m, i, c - 1, typ, n, empty); }
  }

  /** Some tile of the type in the line has a taken tile l positions behind it. */
  ghost predicate OccupiedBehind(h: Contents, m: Lines<Tile>, i: nat, typ: int, l: nat, empty: int) {
    exists j: nat :: TypeAt(h, m, i, j) == Some(typ) && !EmptyBehind(h, m, i, j, l, empty)
  }

  /** How many lines the split of a line into n puts in behind it: as many as the farthest taken tile within
      reach lies behind a tile of the type, and none if none of these has one. */
  ghost predicate CountIs(h: Contents, m: Lines<Tile>, i: nat, typ: int, n: nat, empty: int, num: nat) {
    && num <= Max(1, n - 1)
    && (num == 0 || OccupiedBehind(h, m, i, typ, num, empty))
    && forall l :: num < l <= Max(1, n - 1) ==> !OccupiedBehind(h, m, i, typ, l, empty)
  }

  lemma {:induction false} ToInsertTaken(h: Contents, m: Lines<Tile>, i: nat, c: nat, typ: int, n: nat, empty: int)
    ensures var r := ToInsert(h, m, i, c, typ, n, empty); r == 0 || OccupiedBehind(h, m, i, typ, r, empty)
  {
    if c > 0 {
      ToInsertTaken(h, m, i, c - 1, typ, n, empty);
      LastTakenIs(h, m, i, c - 1, Max(1, n - 1), empty);
    }
    hide TypeAt, LastTaken, EmptyBehind;
  }

  /** The count is the one number that fits. */
  lemma ToInsertIs(h: Contents, m: Lines<Tile>, i: nat, typ: int, n: nat, empty: int, num: nat)
    requires Rectangular(m) && i < |m|
    ensures CountIs(h, m, i, typ, n, empty, num) <==> num == ToInsert(h, m, i, |m[0]|, typ, n, empty)
  {
    var r := ToInsert(h, m, i, |m[0]|, typ, n, empty);
    ToInsertTaken(h, m, i, |m[0]|, typ, n, empty);
    ToInsertCovers(h, m, i, |m[0]|, typ, n, empty);
    forall l, j: nat | r < l <= Max(1, n - 1) && TypeAt(h, m, i, j) == Some(typ)
      ensures EmptyBehind(h, m, i, j, l, empty)
    {
      LastTakenIs(h, m, i, j, Max(1, n - 1), empty);
    }
    hide TypeAt, LastTaken, EmptyBehind, ToInsert;
  }

  // ----- the inserted lines -----

  ghost function InsertLines(m: Lines<Tile>, i: nat, e: Lines<Tile>): Lines<Tile>
    requires i < |m|
  {
    m[..i + 1] + e + m[i + 1..]
  }

  lemma InsertLinesAt(m: Lines<Tile>, i: nat, e: Lines<Tile>, r: nat)
    requires i < |m| && r < |m| + |e|
    ensures |InsertLines(m, i, e)| == |m| + |e|
    ensures InsertLines(m, i, e)[r] == if r <= i then m[r] else if r <= i + |e| then e[r - i - 1] else m[r - |e|]
  {
  }

  lemma InsertOneMore(m: Lines<Tile>, i: nat, e: Lines<Tile>, line: seq<Tile>)
    requires i < |m|
    ensures i + 1 <= |InsertLines(m, i, e)|
    ensures InsertLine(InsertLines(m, i, e), i + 1, line) == InsertLines(m, i, [line] + e)
  {
    assert InsertLines(m, i, e)[..i + 1] == m[..i + 1];
    assert InsertLines(m, i, e)[i + 1..] == e + m[i + 1..];
    assert m[..i + 1] + [line] + (e + m[i + 1..]) == m[..i + 1] + ([line] + e) + m[i + 1..];
  }

  ghost predicate EmptyLine(h: Contents, line: seq<Tile>, width: nat, empty: int) {
    |line| == width
    && forall c :: 0 <= c < width ==>
      line[c] in h && h[line[c]].typ == empty && h[line[c]].rootPkeys == [] && h[line[c]].sites == []
  }

  /** What was there is still there, unchanged. */
  ghost predicate Kept(h: Contents, now: Contents) { forall t :: t in h ==> t in now && now[t] == h[t] }

  /** The new lines are empty. */
  ghost predicate EmptyLines(h: Contents, e: Lines<Tile>, width: nat, empty: int) {
    forall k :: 0 <= k < |e| ==> EmptyLine(h, e[k], width, empty)
  }

  /** What the ray of a split runs over once the lines are in. */
  lemma RayAfter(m: Lines<Tile>, i: nat, j: nat, n: nat, e: Lines<Tile>, k: nat)
    requires Rectangular(m) && i < |m| && j < |m[0]|
    requires Rectangular(InsertLines(m, i, e)) && |InsertLines(m, i, e)[0]| == |m[0]| && |InsertLines(m, i, e)| > i
    requires k < |Ray(InsertLines(m, i, e), i, j, n)|
    ensures k == 0 ==> Ray(InsertLines(m, i, e), i, j, n)[k] == m[i][j]
    ensures 1 <= k <= |e| ==> j < |e[k - 1]| && Ray(InsertLines(m, i, e), i, j, n)[k] == e[k - 1][j]
    ensures k > |e| ==> Inside(m, i + k - |e|, j) && Ray(InsertLines(m, i, e), i, j, n)[k] == m[i + k - |e|][j]
  {
    InsertLinesAt(m, i, e, i + k);
    assert |InsertLines(m, i, e)[i + k]| == |m[0]|;
  }

  lemma RayLength(m: Lines<Tile>, i: nat, j: nat, n: nat, e: Lines<Tile>)
    requires Rectangular(m) && i < |m| && j < |m[0]|
    requires Rectangular(InsertLines(m, i, e)) && |InsertLines(m, i, e)[0]| == |m[0]|
    ensures |InsertLines(m, i, e)| == |m| + |e|
    ensures |Ray(InsertLines(m, i, e), i, j, n)| == Min(n, |m| + |e| - i)
  {
  }

  /** The lines are in, and nothing else has changed. */
  ghost predicate LinesIn(h: Contents, m: Lines<Tile>, i: nat, e: Lines<Tile>, now: Contents, empty: int) {
    Rectangular(m) && i < |m| && h.Keys == Tiles(m)
    && Rectangular(InsertLines(m, i, e)) && |InsertLines(m, i, e)[0]| == |m[0]| && |InsertLines(m, i, e)| > i
    && EmptyLines(now, e, |m[0]|, empty) && Kept(h, now)
  }

  /** One line more. */
  lemma LinesInMore(h: Contents, m: Lines<Tile>, i: nat, e: Lines<Tile>, mid: Contents, line: seq<Tile>,
      now: Contents, empty: int)
    requires LinesIn(h, m, i, e, mid, empty) && EmptyLine(now, line, |m[0]|, empty)
    requires Kept(mid, now)
    requires Rectangular(InsertLines(m, i, [line] + e))
    ensures LinesIn(h, m, i, [line] + e, now, empty)
  {
    var all := [line] + e;
    forall k | 0 <= k < |all| ensures EmptyLine(now, all[k], |m[0]|, empty) {
      if k > 0 { assert EmptyLine(mid, e[k - 1], |m[0]|, empty); }
    }
    assert InsertLines(m, i, all)[0] == m[0];
  }

  /** The contents of tiles that were there keep. */
  lemma ContentsGrow(tiles: set<Tile>, more: set<Tile>, h: Contents)
    requires h.Keys == tiles && forall t :: t in tiles ==> DataOf(t) == h[t]
    ensures Kept(h, ContentsOf(tiles + more))
  {
  }

  lemma EmptyAfter(h: Contents, m: Lines<Tile>, i: nat, j: nat, n: nat, e: Lines<Tile>, now: Contents, empty: int,
      k: nat)
    requires LinesIn(h, m, i, e, now, empty) && j < |m[0]| && k < |Ray(InsertLines(m, i, e), i, j, n)|
    ensures var ray := Ray(InsertLines(m, i, e), i, j, n);
      ray[k] in now && (k == 0 || now[ray[k]].typ == empty <==> k <= |e| || EmptyBehind(h, m, i, j, k - |e|, empty))
  {
    RayAfter(m, i, j, n, e, k);
    hide InsertLines, Ray;
    if k == 0 {
      assert Inside(m, i, j) && m[i][j] in Tiles(m);
    } else if k > |e| {
      assert m[i + k - |e|][j] in Tiles(m);
    }
  }

  /** Whether the tiles of a split are empty once the lines are in: what lay right behind the tile, as
      far as the split still reaches, must have been empty. */
  lemma RestEmptyAfter(h: Contents, m: Lines<Tile>, i: nat, j: nat, n: nat, e: Lines<Tile>, now: Contents, empty: int)
    requires LinesIn(h, m, i, e, now, empty) && j < |m[0]| && n > 0
    ensures RestEmpty(now, Ray(InsertLines(m, i, e), i, j, n), empty) <==>
      forall l :: 1 <= l < n - |e| ==> EmptyBehind(h, m, i, j, l, empty)
  {
    var ray := Ray(InsertLines(m, i, e), i, j, n);
    forall k | 0 <= k < |ray|
      ensures ray[k] in now && (k == 0 || now[ray[k]].typ == empty <==>
        k <= |e| || EmptyBehind(h, m, i, j, k - |e|, empty))
    {
      EmptyAfter(h, m, i, j, n, e, now, empty, k);
    }
    RayLength(m, i, j, n, e);
    hide InsertLines, Ray, LinesIn;
    forall l | 1 <= l < n - |e| && !EmptyBehind(h, m, i, j, l, empty) ensures !RestEmpty(now, ray, empty) {
      assert ray[l + |e|] in now;
    }
  }

  // ----- splitting the tiles of the line -----

  /** Where the columns below c of line i with the given type have been split, everything else is as
      it was. */
  ghost predicate PartAt(h: Contents, m: Lines<Tile>, i: nat, c: nat, typ: int, types: seq<int>, splitMap: SplitMap,
      now: Contents, r: int, j: int)
    requires Inside(m, r, j)
  {
    m[r][j] in h && m[r][j] in now && Inside(m, i, j) && m[i][j] in h
    && if j < c && h[m[i][j]].typ == typ && i <= r < i + |types|
       then BecomesPart(h[m[r][j]], h[m[i][j]], splitMap, r - i, types[r - i], now[m[r][j]])
       else now[m[r][j]] == h[m[r][j]]
  }

  ghost predicate LineSplit(h: Contents, m: Lines<Tile>, i: nat, c: nat, typ: int, types: seq<int>,
      splitMap: SplitMap, now: Contents)
  {
    h.Keys == now.Keys == Tiles(m) && forall r, j :: Inside(m, r, j) ==>
      PartAt(h, m, i, c, typ, types, splitMap, now, r, j)
  }

  lemma NothingSplit(h: Contents, m: Lines<Tile>, i: nat, typ: int, types: seq<int>, splitMap: SplitMap)
    requires Holds(h, m) && i < |m|
    ensures LineSplit(h, m, i, 0, typ, types, splitMap, h)
  {
    forall r, j | Inside(m, r, j) ensures PartAt(h, m, i, 0, typ, types, splitMap, h, r, j) {
      assert Inside(m, i, j) && m[i][j] in Tiles(m) && m[r][j] in Tiles(m);
    }
  }

  lemma PartOf(h: Contents, m: Lines<Tile>, i: nat, c: nat, typ: int, types: seq<int>, splitMap: SplitMap,
      now: Contents, r: int, j: int)
    requires LineSplit(h, m, i, c, typ, types, splitMap, now) && Inside(m, r, j)
    ensures PartAt(h, m, i, c, typ, types, splitMap, now, r, j)
  {
  }

  /** The tiles of a ray, by place. */
  lemma InRay(m: Lines<Tile>, i: nat, c: nat, n: nat, r: int, j: int)
    requires Rectangular(m) && Injective(m) && i < |m| && c < |m[0]| && Inside(m, r, j)
    ensures m[r][j] in Ray(m, i, c, n) <==> j == c && i <= r < i + n
    ensures j == c && i <= r < i + n ==> r - i < |Ray(m, i, c, n)| && Ray(m, i, c, n)[r - i] == m[r][j]
  {
    var ray := Ray(m, i, c, n);
    if m[r][j] in ray {
      var k :| 0 <= k < |ray| && ray[k] == m[r][j];
      assert Inside(m, i + k, c);
    }
    if j == c && i <= r < i + n { assert ray[r - i] == m[r][j]; }
  }

  /** Whether the tile of a column not yet reached can be split has not changed. */
  lemma CanSplitSame(h: Contents, m: Lines<Tile>, i: nat, c: nat, typ: int, types: seq<int>, splitMap: SplitMap,
      now: Contents, empty: int)
    requires Rectangular(m) && i < |m| && c < |m[0]| && LineSplit(h, m, i, c, typ, types, splitMap, now)
    ensures m[i][c] in h && m[i][c] in now && now[m[i][c]] == h[m[i][c]]
    ensures CanSplit(now, Ray(m, i, c, |types|), splitMap, empty) <==>
      CanSplit(h, Ray(m, i, c, |types|), splitMap, empty)
  {
    var ray := Ray(m, i, c, |types|);
    assert Inside(m, i, c);
    PartOf(h, m, i, c, typ, types, splitMap, now, i, c);
    forall k | 0 <= k < |ray| ensures ray[k] in h && ray[k] in now && now[ray[k]] == h[ray[k]] {
      PartOf(h, m, i, c, typ, types, splitMap, now, i + k, c);
    }
    hide LineSplit, Ray;
  }

  /** One more column split. */
  lemma LineStep(h: Contents, m: Lines<Tile>, i: nat, c: nat, typ: int, types: seq<int>, splitMap: SplitMap,
      mid: Contents, now: Contents)
    requires Rectangular(m) && Injective(m) && i < |m| && c < |m[0]| && LineSplit(h, m, i, c, typ, types, splitMap, mid)
    requires forall k :: 0 <= k < |Ray(m, i, c, |types|)| ==> Ray(m, i, c, |types|)[k] in mid
    requires RaySplit(mid, Ray(m, i, c, |types|), types, splitMap, now)
    requires m[i][c] in h && h[m[i][c]].typ == typ
    ensures LineSplit(h, m, i, c + 1, typ, types, splitMap, now)
  {
    forall r, j | Inside(m, r, j) ensures PartAt(h, m, i, c + 1, typ, types, splitMap, now, r, j) {
      PartOf(h, m, i, c, typ, types, splitMap, mid, r, j);
      PartOf(h, m, i, c, typ, types, splitMap, mid, i, c);
      InRay(m, i, c, |types|, r, j);
      InRay(m, i, c, |types|, i, c);
      hide LineSplit, Rectangular, Injective, BecomesPart, Ray;
    }
  }

  /** A column without a tile to split. */
  lemma LineSkip(h: Contents, m: Lines<Tile>, i: nat, c: nat, typ: int, types: seq<int>, splitMap: SplitMap,
      now: Contents)
    requires Rectangular(m) && i < |m| && c < |m[0]| && LineSplit(h, m, i, c, typ, types, splitMap, now)
    requires m[i][c] in h && h[m[i][c]].typ != typ
    ensures LineSplit(h, m, i, c + 1, typ, types, splitMap, now)
  {
    forall r, j | Inside(m, r, j) ensures PartAt(h, m, i, c + 1, typ, types, splitMap, now, r, j) {
      PartOf(h, m, i, c, typ, types, splitMap, now, r, j);
    }
  }

  /** The tiles to split among the first c of the line can all be split. */
  ghost predicate CanSplitLine(h: Contents, m: Lines<Tile>, i: nat, c: nat, typ: int, n: nat, splitMap: SplitMap,
      empty: int)
    requires Rectangular(m) && i < |m| && c <= |m[0]|
  {
    forall j :: 0 <= j < c && TypeAt(h, m, i, j) == Some(typ) ==> CanSplit(h, Ray(m, i, j, n), splitMap, empty)
  }

  /** What splitting the tile at a place, with so many lines put in behind it, asks of the mesh before. */
  ghost predicate RoomFor(h: Contents, m: Lines<Tile>, i: nat, j: nat, n: nat, lines: nat, splitMap: SplitMap,
      empty: int)
    requires Inside(m, i, j) && m[i][j] in h
  {
    && (forall l :: 1 <= l < n - lines ==> EmptyBehind(h, m, i, j, l, empty))
    && AllPlaced(h[m[i][j]].sites, splitMap, Min(n, |m| + lines - i))
  }

  lemma PlaceAfter(h: Contents, m: Lines<Tile>, i: nat, j: nat, e: Lines<Tile>, mid: Contents, empty: int)
    requires LinesIn(h, m, i, e, mid, empty) && j < |m[0]|
    ensures Inside(m, i, j) && m[i][j] in h
    ensures TypeAt(mid, InsertLines(m, i, e), i, j) == TypeAt(h, m, i, j) == Some(h[m[i][j]].typ)
  {
    InsertLinesAt(m, i, e, i);
    assert Inside(m, i, j) && m[i][j] in Tiles(m);
  }

  /** With the counted lines in, a line can be split exactly when each of its tiles has room: after
      inserting as many lines as the last taken position says, whatever stood right behind the tile
      must still have been empty. */
  lemma RoomDecides(h: Contents, m: Lines<Tile>, i: nat, j: nat, n: nat, e: Lines<Tile>, mid: Contents,
      splitMap: SplitMap, empty: int)
    requires LinesIn(h, m, i, e, mid, empty) && j < |m[0]| && n > 0
    ensures Inside(m, i, j) && m[i][j] in h
    ensures CanSplit(mid, Ray(InsertLines(m, i, e), i, j, n), splitMap, empty) <==>
      RoomFor(h, m, i, j, n, |e|, splitMap, empty)
  {
    PlaceAfter(h, m, i, j, e, mid, empty);
    RestEmptyAfter(h, m, i, j, n, e, mid, empty);
    RayLength(m, i, j, n, e);
    RayAfter(m, i, j, n, e, 0);
    hide InsertLines, Ray, EmptyBehind, AllPlaced;
    var ray := Ray(InsertLines(m, i, e), i, j, n);
    forall k | 0 <= k < |ray| ensures ray[k] in mid { EmptyAfter(h, m, i, j, n, e, mid, empty, k); }
  }

  lemma LineRoom(h: Contents, m: Lines<Tile>, i: nat, typ: int, n: nat, e: Lines<Tile>, mid: Contents,
      splitMap: SplitMap, empty: int)
    requires LinesIn(h, m, i, e, mid, empty) && n > 0
    ensures CanSplitLine(mid, InsertLines(m, i, e), i, |m[0]|, typ, n, splitMap, empty) <==>
      forall j :: 0 <= j < |m[0]| && TypeAt(h, m, i, j) == Some(typ) ==>
        Inside(m, i, j) && m[i][j] in h && RoomFor(h, m, i, j, n, |e|, splitMap, empty)
  {
    var w: Lines<Tile> := InsertLines(m, i, e);
    forall j | 0 <= j < |m[0]|
      ensures TypeAt(mid, w, i, j) == TypeAt(h, m, i, j) && Inside(m, i, j) && m[i][j] in h
      ensures CanSplit(mid, Ray(w, i, j, n), splitMap, empty) <==> RoomFor(h, m, i, j, n, |e|, splitMap, empty)
    {
      PlaceAfter(h, m, i, j, e, mid, empty);
      RoomDecides(h, m, i, j, n, e, mid, splitMap, empty);
    }
    hide InsertLines, Ray, RoomFor, CanSplit, TypeAt, Rectangular;
  }

  /** The sites of every tile to split go to one of the first n tiles. */
  ghost predicate SitesPlaced(h: Contents, m: Lines<Tile>, i: nat, typ: int, n: nat, splitMap: SplitMap) {
    forall j :: Inside(m, i, j) && TypeAt(h, m, i, j) == Some(typ) ==> AllPlaced(h[m[i][j]].sites, splitMap, n)
  }

  /** A two-way split of a line with a line behind it always has room. */
  lemma TwoWayRoom(h: Contents, m: Lines<Tile>, i: nat, typ: int, e: Lines<Tile>, mid: Contents, splitMap: SplitMap,
      empty: int)
    requires LinesIn(h, m, i, e, mid, empty) && i + 1 < |m|
    requires CountIs(h, m, i, typ, 2, empty, |e|)
    ensures |e| <= 1
    ensures CanSplitLine(mid, InsertLines(m, i, e), i, |m[0]|, typ, 2, splitMap, empty) <==>
      SitesPlaced(h, m, i, typ, 2, splitMap)
  {
    LineRoom(h, m, i, typ, 2, e, mid, splitMap, empty);
    forall j | 0 <= j < |m[0]| && TypeAt(h, m, i, j) == Some(typ)
      ensures Inside(m, i, j) && m[i][j] in h
        && (RoomFor(h, m, i, j, 2, |e|, splitMap, empty) <==> AllPlaced(h[m[i][j]].sites, splitMap, 2))
    {
      PlaceAfter(h, m, i, j, e, mid, empty);
      assert |e| == 0 ==> !OccupiedBehind(h, m, i, typ, 1, empty);
    }
    hide InsertLines, CanSplitLine, RoomFor, LinesIn, CountIs, AllPlaced;
  }

  // ----- in place -----

  ghost predicate Meshed(m: Lines<Tile>, dir: Direction)
    reads Tiles(m)`neighboors
  {
    Rectangular(m) && IsMesh(Snapshot(Tiles(m)), m, dir, NextDir(dir))
  }

  /** The links ahead and along the line. */
  lemma MeshLinks(m: Lines<Tile>, i: nat, j: nat, dir: Direction)
    requires Meshed(m, dir) && i < |m| && j < |m[0]|
    ensures Inside(m, i, j) && m[i][j] in Tiles(m)
    ensures i + 1 < |m| ==> Inside(m, i + 1, j)
    ensures m[i][j].Link(dir) == At(m, i + 1, j) && m[i][j].Link(NextDir(dir)) == At(m, i, j + 1)
  {
    var g := Snapshot(Tiles(m));
    hide LinksFit, Injective;
    assert Inside(m, i, j) && m[i][j] in Tiles(m);
    LinkAt(g, m, dir, NextDir(dir), i, j, dir);
    LinkAt(g, m, dir, NextDir(dir), i, j, NextDir(dir));
  }

  lemma TypeIs(m: Lines<Tile>, i: nat, j: nat)
    requires Inside(m, i, j) && m[i][j] in Tiles(m)
    ensures TypeAt(ContentsOf(Tiles(m)), m, i, j) == Some(m[i][j].tileTypePkey)
  {
  }

  /** The inner loop of split_in_dir: the last taken position ahead of one tile. */
  method CountAhead(tile: Tile, n: nat, dir: Direction, empty: int, ghost m: Lines<Tile>, ghost i: nat, ghost j: nat)
      returns (num: nat)
    requires Meshed(m, dir) && i < |m| && j < |m[0]| && m[i][j] == tile
    ensures num == LastTaken(ContentsOf(Tiles(m)), m, i, j, Max(1, n - 1), empty)
  {
    ghost var h := ContentsOf(Tiles(m));
    var last := Max(1, n - 1);
    hide IsMesh, Tiles, ContentsOf, TypeAt;
    MeshLinks(m, i, j, dir);
    num := 0;
    var node, idx := tile, 0;
    while idx < last && dir in node.neighboors
      invariant idx <= last && i + idx < |m| && num == LastTaken(h, m, i, j, idx, empty)
      invariant Inside(m, i + idx, j) && m[i + idx][j] == node
      invariant node.Link(dir) == At(m, i + idx + 1, j)
    {
      node := node.neighboors[dir];
      idx := idx + 1;
      MeshLinks(m, i + idx, j, dir);
      TypeIs(m, i + idx, j);
      if node.tileTypePkey != empty {
        num := idx;
      }
    }
    if idx < last { NothingAhead(h, m, i, j, idx, last, empty); }
  }

  lemma {:induction false} NothingAhead(h: Contents, m: Lines<Tile>, i: nat, j: nat, k: nat, l: nat, empty: int)
    requires i + k + 1 >= |m| && k <= l
    ensures LastTaken(h, m, i, j, l, empty) == LastTaken(h, m, i, j, k, empty)
    decreases l
  {
    if k < l { NothingAhead(h, m, i, j, k, l - 1, empty); }
  }

  /** How many lines the split of a line needs. */
  method CountLine(top: Tile, typ: int, n: nat, dir: Direction, empty: int, ghost m: Lines<Tile>, ghost i: nat)
      returns (num: nat)
    requires Meshed(m, dir) && i < |m| && m[i][0] == top
    ensures num == ToInsert(ContentsOf(Tiles(m)), m, i, |m[0]|, typ, n, empty)
    // The farthest taken tile within reach behind a tile of the type lies this far behind it.
    ensures CountIs(ContentsOf(Tiles(m)), m, i, typ, n, empty, num)
  {
    ghost var h := ContentsOf(Tiles(m));
    hide IsMesh, Tiles, ContentsOf, TypeAt, LastTaken;
    num := 0;
    var node := Some(top);
    ghost var c := 0;
    while node.Some?
      invariant c <= |m[0]| && num == ToInsert(h, m, i, c, typ, n, empty)
      invariant node == At(m, i, c)
      decreases |m[0]| - c
    {
      MeshLinks(m, i, c, dir);
      TypeIs(m, i, c);
      if node.value.tileTypePkey == typ {
        var taken := CountAhead(node.value, n, dir, empty, m, i, c);
        num := Max(num, taken);
      }
      node := node.value.Link(NextDir(dir));
      c := c + 1;
    }
    ToInsertIs(h, m, i, typ, n, empty, num);
  }

  lemma CanSplitNone(h: Contents, m: Lines<Tile>, i: nat, typ: int, n: nat, splitMap: SplitMap, empty: int)
    requires Rectangular(m) && i < |m|
    ensures CanSplitLine(h, m, i, 0, typ, n, splitMap, empty)
  {
  }

  lemma CanSplitMore(h: Contents, m: Lines<Tile>, i: nat, c: nat, typ: int, n: nat, splitMap: SplitMap, empty: int)
    requires Rectangular(m) && i < |m| && c < |m[0]| && CanSplitLine(h, m, i, c, typ, n, splitMap, empty)
    ensures CanSplitLine(h, m, i, c + 1, typ, n, splitMap, empty) <==>
      (TypeAt(h, m, i, c) == Some(typ) ==> CanSplit(h, Ray(m, i, c, n), splitMap, empty))
    ensures !(TypeAt(h, m, i, c) == Some(typ) ==> CanSplit(h, Ray(m, i, c, n), splitMap, empty)) ==>
      !CanSplitLine(h, m, i, |m[0]|, typ, n, splitMap, empty)
  {
  }

  lemma ContentsHold(m: Lines<Tile>)
    requires Rectangular(m)
    ensures Holds(ContentsOf(Tiles(m)), m)
  {
  }

  /** The second loop of split_in_dir. */
  method SplitTiles(top: Tile, typ: int, types: seq<int>, dir: Direction, splitMap: SplitMap, empty: int,
      ghost m: Lines<Tile>, ghost i: nat) returns (ok: bool)
    requires Meshed(m, dir) && i < |m| && m[i][0] == top && |types| > 0
    modifies Tiles(m)`tileTypePkey, Tiles(m)`phyTilePkeys, Tiles(m)`sites, Tiles(m)`splitSites
    ensures ok <==> CanSplitLine(old(ContentsOf(Tiles(m))), m, i, |m[0]|, typ, |types|, splitMap, empty)
    ensures ok ==> LineSplit(old(ContentsOf(Tiles(m))), m, i, |m[0]|, typ, types, splitMap, ContentsOf(Tiles(m)))
  {
    ghost var h := ContentsOf(Tiles(m));
    hide IsMesh, Tiles, ContentsOf, TypeAt, Ray, LineSplit, CanSplit, CanSplitLine, Snapshot, NextDir;
    ContentsHold(m);
    NothingSplit(h, m, i, typ, types, splitMap);
    CanSplitNone(h, m, i, typ, |types|, splitMap, empty);
    var node := Some(top);
    ghost var c := 0;
    while node.Some?
      invariant c <= |m[0]| && Meshed(m, dir) && node == At(m, i, c)
      invariant LineSplit(h, m, i, c, typ, types, splitMap, ContentsOf(Tiles(m)))
      invariant CanSplitLine(h, m, i, c, typ, |types|, splitMap, empty)
      decreases |m[0]| - c
    {
      MeshLinks(m, i, c, dir);
      CanSplitMore(h, m, i, c, typ, |types|, splitMap, empty);
      var done := SplitColumn(node.value, typ, types, dir, splitMap, empty, m, i, c, h);
      if !done {
        return false;
      }
      node := node.value.Link(NextDir(dir));
      c := c + 1;
    }
    return true;
  }

  /** One tile of the line. */
  method SplitColumn(tile: Tile, typ: int, types: seq<int>, dir: Direction, splitMap: SplitMap, empty: int,
      ghost m: Lines<Tile>, ghost i: nat, ghost c: nat, ghost h: Contents) returns (ok: bool)
    requires Meshed(m, dir) && i < |m| && c < |m[0]| && m[i][c] == tile && |types| > 0
    requires LineSplit(h, m, i, c, typ, types, splitMap, ContentsOf(Tiles(m)))
    modifies Tiles(m)`tileTypePkey, Tiles(m)`phyTilePkeys, Tiles(m)`sites, Tiles(m)`splitSites
    ensures ok <==> (TypeAt(h, m, i, c) == Some(typ) ==> CanSplit(h, Ray(m, i, c, |types|), splitMap, empty))
    ensures ok ==> LineSplit(h, m, i, c + 1, typ, types, splitMap, ContentsOf(Tiles(m)))
  {
    MeshLinks(m, i, c, dir);
    TypeIs(m, i, c);
    hide LinksFit, Injective, Rectangular, Tiles, Ray, LineSplit, CanSplit, RaySplit;
    ghost var mid := ContentsOf(Tiles(m));
    CanSplitSame(h, m, i, c, typ, types, splitMap, mid, empty);
    if tile.tileTypePkey != typ {
      LineSkip(h, m, i, c, typ, types, splitMap, mid);
      return true;
    }
    ok := SplitOver(tile, types, dir, splitMap, empty, m, i, c);
    if ok {
      RayIn(mid, m, i, c, |types|, splitMap, empty);
      LineStep(h, m, i, c, typ, types, splitMap, mid, ContentsOf(Tiles(m)));
    }
  }

  lemma RayIn(h: Contents, m: Lines<Tile>, i: nat, c: nat, n: nat, splitMap: SplitMap, empty: int)
    requires Rectangular(m) && i < |m| && c < |m[0]| && CanSplit(h, Ray(m, i, c, n), splitMap, empty)
    ensures forall k :: 0 <= k < |Ray(m, i, c, n)| ==> Ray(m, i, c, n)[k] in h
  {
  }
}
