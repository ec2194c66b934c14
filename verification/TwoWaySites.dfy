/** utils/tile_splitter/grid.py, split_tile_type with two new types: whether any site goes missing is settled
    by the grid before. Splitting one line neither moves what lies right behind another line still to be split
    nor changes it, unless that is a tile of the type itself. */
module TwoWaySites {
  import opened Sequences
  import opened Matrix
  import opened Mesh
  import opened Splice
  import opened TileData
  import opened SplitLine
  import opened SplitType
  import opened Conserve
  import opened GridRuns

  /** A tile has the type now exactly if it had it before. */
  ghost predicate SameType(h: Contents, now: Contents, t: Tile, typ: int) {
    t in h && t in now && (now[t].typ == typ <==> h[t].typ == typ)
  }

  /** A tile is as it was, or had the type and is not empty now. */
  ghost predicate AsBehind(h: Contents, now: Contents, t: Tile, typ: int, empty: int) {
    t in h && t in now && (now[t] == h[t] || (h[t].typ == typ && now[t].typ != empty))
  }

  /** Line i of the first mesh is in the mesh, with the line behind it right behind it. */
  ghost predicate InPlace(m: Lines<Tile>, i: nat, w: Lines<Tile>, r: nat) {
    i + 1 < |m| && r + 1 < |w| && w[r] == m[i] && w[r + 1] == m[i + 1]
  }

  ghost predicate Untouched(h: Contents, line: seq<Tile>, behind: seq<Tile>, now: Contents, typ: int, empty: int) {
    && (forall j :: 0 <= j < |line| ==> SameType(h, now, line[j], typ))
    && forall j :: 0 <= j < |behind| ==> AsBehind(h, now, behind[j], typ, empty)
  }

  /** A line waits to be split: it and the one behind it are where and what they were, as far as it matters. */
  ghost predicate Waiting(h: Contents, m: Lines<Tile>, i: nat, w: Lines<Tile>, now: Contents, typ: int, empty: int) {
    i + 1 < |m| && (exists r: nat :: InPlace(m, i, w, r)) && Untouched(h, m[i], m[i + 1], now, typ, empty)
  }

  lemma WaitingAtFirst(h: Contents, m: Lines<Tile>, i: nat, typ: int, empty: int)
    requires h.Keys == Tiles(m) && i + 1 < |m|
    ensures Waiting(h, m, i, m, h, typ, empty)
  {
    assert InPlace(m, i, m, i);
    LineIn(h, m, i);
    LineIn(h, m, i + 1);
  }

  lemma LineIn(h: Contents, m: Lines<Tile>, i: nat)
    requires h.Keys == Tiles(m) && i < |m|
    ensures forall j :: 0 <= j < |m[i]| ==> m[i][j] in h
  {
  }

  // ----- one split, seen from a line that waits -----

  /** Where a waiting line is once another has been widened. */
  lemma StaysInPlace(m: Lines<Tile>, i: nat, w: Lines<Tile>, r: nat, at: nat, e: Lines<Tile>) returns (s: nat)
    requires InPlace(m, i, w, r) && at < |w| && r != at
    ensures InPlace(m, i, InsertLines(w, at, e), s)
    ensures s == (if r < at then r else r + |e|) && s != at && (s == at + 1 ==> e == [])
  {
    s := if r < at then r else r + |e|;
    InsertLinesAt(w, at, e, s);
    InsertLinesAt(w, at, e, s + 1);
  }

  /** A tile of the widened mesh before and after the split. */
  lemma CellAfter(before: Contents, w: Lines<Tile>, at: nat, e: Lines<Tile>, mid: Contents, typ: int, types: seq<int>,
      splitMap: SplitMap, now: Contents, empty: int, r: nat, j: nat)
    requires LinesIn(before, w, at, e, mid, empty) && |types| == 2 && typ != empty && typ !in types
    requires CanSplitLine(mid, InsertLines(w, at, e), at, |w[0]|, typ, 2, splitMap, empty)
    requires LineSplit(mid, InsertLines(w, at, e), at, |w[0]|, typ, types, splitMap, now)
    requires Inside(InsertLines(w, at, e), r, j) && InsertLines(w, at, e)[r][j] in before
    ensures var t := InsertLines(w, at, e)[r][j];
      && SameOrSplit(before, now, t, typ, types, empty, r == at, r == at + 1)
  {
    var v: Lines<Tile> := InsertLines(w, at, e);
    PartOf(mid, v, at, |w[0]|, typ, types, splitMap, now, r, j);
    assert |v[r]| == |w[0]|;
    if at < r < at + 2 && TypeAt(mid, v, at, j) == Some(typ) {
      assert CanSplit(mid, Ray(v, at, j, 2), splitMap, empty);
      assert Ray(v, at, j, 2)[r - at] == v[r][j];
    }
    assert types[0] in types && types[1] in types;
    hide LinesIn, LineSplit, CanSplitLine, InsertLines;
  }

  /** As it was; or, in the line that is split, a tile of the type that now has the first new type; or, in the
      line behind it, an empty tile that now has the second. */
  ghost predicate SameOrSplit(before: Contents, now: Contents, t: Tile, typ: int, types: seq<int>, empty: int,
      split: bool, behind: bool)
    requires |types| == 2
  {
    t in before && t in now
    && (now[t] == before[t] || (split && before[t].typ == typ && now[t].typ == types[0])
        || (behind && before[t].typ == empty && now[t].typ == types[1]))
  }

  /** Splitting one line leaves another waiting. */
  lemma WaitingStays(h: Contents, m: Lines<Tile>, i: nat, w: Lines<Tile>, r: nat, before: Contents, at: nat,
      e: Lines<Tile>, mid: Contents, typ: int, types: seq<int>, splitMap: SplitMap, now: Contents, empty: int)
    requires InPlace(m, i, w, r) && Untouched(h, m[i], m[i + 1], before, typ, empty) && r != at
    requires LinesIn(before, w, at, e, mid, empty)
    requires |types| == 2 && typ != empty && typ !in types && empty !in types
    requires CanSplitLine(mid, InsertLines(w, at, e), at, |w[0]|, typ, 2, splitMap, empty)
    requires LineSplit(mid, InsertLines(w, at, e), at, |w[0]|, typ, types, splitMap, now)
    ensures Waiting(h, m, i, InsertLines(w, at, e), now, typ, empty)
  {
    var s := StaysInPlace(m, i, w, r, at, e);
    assert types[0] in types && types[1] in types;
    hide LinesIn, LineSplit, CanSplitLine, InsertLines;
    forall j | 0 <= j < |m[i]| ensures SameType(h, now, m[i][j], typ) {
      assert SameType(h, before, m[i][j], typ);
      CellAfter(before, w, at, e, mid, typ, types, splitMap, now, empty, s, j);
    }
    var behind := m[i + 1];
    forall j | 0 <= j < |behind| ensures AsBehind(h, now, behind[j], typ, empty) {
      assert AsBehind(h, before, behind[j], typ, empty);
      CellAfter(before, w, at, e, mid, typ, types, splitMap, now, empty, s + 1, j);
    }
  }

  // ----- the split of a line that waited -----

  lemma TypeSame(h: Contents, m: Lines<Tile>, i: nat, w: Lines<Tile>, r: nat, before: Contents, typ: int, empty: int,
      j: nat)
    requires InPlace(m, i, w, r) && Untouched(h, m[i], m[i + 1], before, typ, empty) && typ != empty
    ensures TypeAt(before, w, r, j) == Some(typ) <==> TypeAt(h, m, i, j) == Some(typ)
    ensures TypeAt(before, w, r + 1, j) in {None, Some(empty)} <==> TypeAt(h, m, i + 1, j) in {None, Some(empty)}
  {
    if j < |m[i]| { assert SameType(h, before, m[i][j], typ); }
    if j < |m[i + 1]| { assert AsBehind(h, before, m[i + 1][j], typ, empty); }
  }

  lemma TakenSame(h: Contents, m: Lines<Tile>, i: nat, w: Lines<Tile>, r: nat, before: Contents, typ: int, empty: int)
    requires InPlace(m, i, w, r) && Untouched(h, m[i], m[i + 1], before, typ, empty) && typ != empty
    ensures OccupiedBehind(before, w, r, typ, 1, empty) <==> OccupiedBehind(h, m, i, typ, 1, empty)
  {
    forall j: nat
      ensures TypeAt(before, w, r, j) == Some(typ) <==> TypeAt(h, m, i, j) == Some(typ)
      ensures EmptyBehind(before, w, r, j, 1, empty) <==> EmptyBehind(h, m, i, j, 1, empty)
    {
      TypeSame(h, m, i, w, r, before, typ, empty, j);
    }
    hide TypeAt, EmptyBehind, InPlace, Untouched;
  }

  /** A two-way split of the line puts in a line, or no tile right behind one of the type holds a site. */
  ghost predicate Spared(h: Contents, m: Lines<Tile>, i: nat, typ: int, empty: int) {
    OccupiedBehind(h, m, i, typ, 1, empty) || forall j :: BareAt(h, m, i, typ, j)
  }

  ghost predicate BareAt(h: Contents, m: Lines<Tile>, i: nat, typ: int, j: int) {
    Inside(m, i + 1, j) && TypeAt(h, m, i, j) == Some(typ) && m[i + 1][j] in h ==> h[m[i + 1][j]].sites == []
  }

  lemma BareReads(h: Contents, m: Lines<Tile>, i: nat, typ: int)
    ensures BareBehind(h, m, i, typ, 2) <==> forall j :: BareAt(h, m, i, typ, j)
    ensures BareBehind(h, m, i, typ, 1)
  {
    hide TypeAt;
    if forall j :: BareAt(h, m, i, typ, j) {
      forall r, j | Inside(m, r, j) && i < r < i + 2 && TypeAt(h, m, i, j) == Some(typ) && m[r][j] in h
        ensures h[m[r][j]].sites == []
      {
        assert BareAt(h, m, i, typ, j);
      }
    }
  }

  lemma BareSame(h: Contents, m: Lines<Tile>, i: nat, w: Lines<Tile>, r: nat, before: Contents, typ: int, empty: int,
      j: nat)
    requires InPlace(m, i, w, r) && Untouched(h, m[i], m[i + 1], before, typ, empty) && typ != empty
    requires !OccupiedBehind(h, m, i, typ, 1, empty)
    ensures BareAt(before, w, r, typ, j) <==> BareAt(h, m, i, typ, j)
  {
    TypeSame(h, m, i, w, r, before, typ, empty, j);
    if TypeAt(h, m, i, j) == Some(typ) {
      assert EmptyBehind(h, m, i, j, 1, empty);
      if j < |m[i + 1]| { assert AsBehind(h, before, m[i + 1][j], typ, empty); }
    }
  }

  /** Whether the split of a line that waited is spared can be told from the grid before. */
  lemma SparedSame(h: Contents, m: Lines<Tile>, i: nat, w: Lines<Tile>, r: nat, before: Contents, typ: int, empty: int)
    requires InPlace(m, i, w, r) && Untouched(h, m[i], m[i + 1], before, typ, empty) && typ != empty
    ensures Spared(before, w, r, typ, empty) <==> Spared(h, m, i, typ, empty)
    ensures OccupiedBehind(before, w, r, typ, 1, empty) <==> OccupiedBehind(h, m, i, typ, 1, empty)
  {
    TakenSame(h, m, i, w, r, before, typ, empty);
    hide BareAt, OccupiedBehind, Untouched, InPlace;
    if !OccupiedBehind(h, m, i, typ, 1, empty) {
      forall j: int ensures BareAt(before, w, r, typ, j) <==> BareAt(h, m, i, typ, j) {
        if j >= 0 {
          BareSame(h, m, i, w, r, before, typ, empty, j);
        } else {
          BareOutside(h, m, i, typ, j);
          BareOutside(before, w, r, typ, j);
        }
      }
    }
  }

  lemma BareOutside(h: Contents, m: Lines<Tile>, i: nat, typ: int, j: int)
    requires j < 0
    ensures BareAt(h, m, i, typ, j)
  {
  }

  lemma OneLineIn(h: Contents, m: Lines<Tile>, i: nat, typ: int, empty: int, num: nat)
    requires CountIs(h, m, i, typ, 2, empty, num)
    ensures num == if OccupiedBehind(h, m, i, typ, 1, empty) then 1 else 0
  {
    hide OccupiedBehind;
    assert num == 0 ==> !OccupiedBehind(h, m, i, typ, 1, empty);
  }

  /** A two-way split takes no site exactly when its line is spared. */
  lemma SplitSpared(op: Operation, before: Contents, empty: int)
    requires op.Split? && |op.types| == 2 && Prepared(op, before, empty)
    ensures op.i < |op.m| && op.m != []
    ensures |op.e| == if OccupiedBehind(before, op.m, op.i, op.typ, 1, empty) then 1 else 0
    ensures TakesNoSite(op) <==> Spared(before, op.m, op.i, op.typ, empty)
  {
    PreparedShape(op, before, empty);
    DirKeepsSites(before, op.m, op.i, op.e, op.mid, op.typ, 2, empty);
    ConsumedIn(op.mid, Widened(op), op.i, |op.m[0]|, op.typ, 2);
    OneLineIn(before, op.m, op.i, op.typ, empty, |op.e|);
    BareReads(before, op.m, op.i, op.typ);
    hide Consumed, BareBehind, BareAt, OccupiedBehind, CountIs, LinesIn, Injective, InsertLines;
  }

  // ----- over the run of a two-way split -----

  /** The run of split_tile_type with two types, neither of them the type split nor the empty one, and a line
      behind every line it splits. */
  ghost predicate SplitsInTwo(run: Run, m: Lines<Tile>, lines: seq<nat>, typ: int, types: seq<int>,
      splitMap: SplitMap, empty: int)
  {
    && IsRun(run, empty) && FollowsLines(run.ops, m, lines, typ, types, splitMap)
    && |types| == 2 && typ !in types && typ != empty && empty !in types
    && Rectangular(m) && Injective(m) && run.Start().Keys == Tiles(m)
    && Distinct(lines) && forall q :: 0 <= q < |lines| ==> lines[q] + 1 < |m|
  }

  ghost predicate AllWaiting(h: Contents, m: Lines<Tile>, lines: seq<nat>, p: nat, w: Lines<Tile>, now: Contents,
      typ: int, empty: int)
  {
    forall q :: p <= q < |lines| ==> Waiting(h, m, lines[q], w, now, typ, empty)
  }

  /** Different lines of a mesh are different. */
  lemma LinesDiffer(m: Lines<Tile>, a: nat, b: nat)
    requires Rectangular(m) && Injective(m) && a < |m| && b < |m| && m[a] == m[b]
    ensures a == b
  {
    assert Inside(m, a, 0) && Inside(m, b, 0) && m[a][0] == m[b][0];
  }

  /** A line stands where it was split, and only there. */
  lemma OnePlace(m: Lines<Tile>, i: nat, w: Lines<Tile>, r: nat, at: nat, e: Lines<Tile>)
    requires InPlace(m, i, w, r) && at < |w| && w[at] == m[i]
    requires Rectangular(InsertLines(w, at, e)) && Injective(InsertLines(w, at, e))
    ensures r == at
  {
    if r != at {
      var s := StaysInPlace(m, i, w, r, at, e);
      InsertLinesAt(w, at, e, at);
      hide InsertLines, Rectangular, Injective;
      LinesDiffer(InsertLines(w, at, e), s, at);
    }
  }

  lemma WaitingStep(h: Contents, m: Lines<Tile>, i: nat, k: nat, op: Operation, before: Contents, now: Contents,
      typ: int, types: seq<int>, splitMap: SplitMap, empty: int)
    requires Rectangular(m) && Injective(m) && i < |m| && k < |m| && i != k
    requires |types| == 2 && typ != empty && typ !in types && empty !in types
    requires op.Split? && Waiting(h, m, i, op.m, before, typ, empty) && Done(op, before, now, empty)
    requires SplitsLine(op, op.m, m[k], typ, types, splitMap)
    ensures Waiting(h, m, i, Widened(op), now, typ, empty)
  {
    var r: nat :| InPlace(m, i, op.m, r);
    if r == op.i { LinesDiffer(m, i, k); }
    hide LinesIn, LineSplit, CanSplitLine, InsertLines, Untouched, Rectangular, Injective, CountIs;
    WaitingStays(h, m, i, op.m, r, before, op.i, op.e, op.mid, typ, types, splitMap, now, empty);
  }

  lemma RunSplits(ops: seq<Operation>, m: Lines<Tile>, lines: seq<nat>, typ: int, types: seq<int>, splitMap: SplitMap,
      p: nat)
    requires FollowsLines(ops, m, lines, typ, types, splitMap) && p < |ops|
    ensures p < |lines| && lines[p] < |m| && ops[p].Split? && ops[p].i < |ops[p].m|
    ensures SplitsLine(ops[p], ops[p].m, m[lines[p]], typ, types, splitMap) && ops[p].m == MatrixAfter(m, ops[..p])
    ensures MatrixAfter(m, ops[..p + 1]) == Widened(ops[p])
  {
    hide MatrixAfter, InsertLines;
    assert SplitsLine(ops[p], MatrixAfter(m, ops[..p]), m[lines[p]], typ, types, splitMap);
    WidenedLast(ops[..p], ops[p], m, lines[p], typ, types, splitMap);
    assert ops[..p + 1] == ops[..p] + [ops[p]];
  }

  lemma DonePrepared(op: Operation, h: Contents, now: Contents, empty: int)
    requires op.Split? && Done(op, h, now, empty)
    ensures Prepared(op, h, empty)
  {
    hide LinesIn, LineSplit, CanSplitLine, CountIs, Injective, InsertLines;
  }

  /** What is known of one split of the run. */
  lemma RunStep(run: Run, m: Lines<Tile>, lines: seq<nat>, typ: int, types: seq<int>, splitMap: SplitMap, empty: int,
      p: nat)
    requires SplitsInTwo(run, m, lines, typ, types, splitMap, empty) && p < |run.ops|
    ensures p < |lines| && lines[p] < |m| && run.ops[p].Split? && run.ops[p].i < |run.ops[p].m|
    ensures SplitsLine(run.ops[p], run.ops[p].m, m[lines[p]], typ, types, splitMap)
    ensures run.ops[p].m == MatrixAfter(m, run.ops[..p]) && Prepared(run.ops[p], run.states[p], empty)
    ensures MatrixAfter(m, run.ops[..p + 1]) == Widened(run.ops[p])
    ensures Done(run.ops[p], run.states[p], run.states[p + 1], empty)
  {
    hide MatrixAfter, Done, Prepared, FollowsLines, SplitsLine, Rectangular, Injective, Distinct, InsertLines;
    RunSplits(run.ops, m, lines, typ, types, splitMap, p);
    assert Done(run.ops[p], run.states[p], run.states[p + 1], empty);
    DonePrepared(run.ops[p], run.states[p], run.states[p + 1], empty);
  }

  lemma AllWaitingFirst(h: Contents, m: Lines<Tile>, lines: seq<nat>, typ: int, empty: int)
    requires h.Keys == Tiles(m) && forall q :: 0 <= q < |lines| ==> lines[q] + 1 < |m|
    ensures AllWaiting(h, m, lines, 0, m, h, typ, empty)
  {
    hide Waiting, Tiles;
    forall q | 0 <= q < |lines| ensures Waiting(h, m, lines[q], m, h, typ, empty) {
      WaitingAtFirst(h, m, lines[q], typ, empty);
    }
  }

  lemma AllWaitingStep(h: Contents, m: Lines<Tile>, lines: seq<nat>, p: nat, op: Operation, before: Contents,
      now: Contents, typ: int, types: seq<int>, splitMap: SplitMap, empty: int)
    requires Rectangular(m) && Injective(m) && p < |lines| && Distinct(lines)
    requires forall q :: 0 <= q < |lines| ==> lines[q] + 1 < |m|
    requires |types| == 2 && typ != empty && typ !in types && empty !in types
    requires op.Split? && AllWaiting(h, m, lines, p, op.m, before, typ, empty) && Done(op, before, now, empty)
    requires SplitsLine(op, op.m, m[lines[p]], typ, types, splitMap)
    ensures AllWaiting(h, m, lines, p + 1, Widened(op), now, typ, empty)
  {
    hide Waiting, Done, Rectangular, Injective, InsertLines;
    forall q | p + 1 <= q < |lines| ensures Waiting(h, m, lines[q], Widened(op), now, typ, empty) {
      WaitingStep(h, m, lines[q], lines[p], op, before, now, typ, types, splitMap, empty);
    }
  }

  lemma {:induction false} WaitingAfter(run: Run, m: Lines<Tile>, lines: seq<nat>, typ: int, types: seq<int>,
      splitMap: SplitMap, empty: int, p: nat)
    requires SplitsInTwo(run, m, lines, typ, types, splitMap, empty) && p <= |run.ops|
    ensures AllWaiting(run.Start(), m, lines, p, MatrixAfter(m, run.ops[..p]), run.states[p], typ, empty)
  {
    if p == 0 {
      hide Rectangular, Injective, Distinct, FollowsLines, Done, AllWaiting;
      AllWaitingFirst(run.Start(), m, lines, typ, empty);
    } else {
      hide Rectangular, Injective, Distinct, FollowsLines, Done, AllWaiting, MatrixAfter, SplitsLine, InsertLines;
      WaitingAfter(run, m, lines, typ, types, splitMap, empty, p - 1);
      RunStep(run, m, lines, typ, types, splitMap, empty, p - 1);
      AllWaitingStep(run.Start(), m, lines, p - 1, run.ops[p - 1], run.states[p - 1], run.states[p], typ, types,
        splitMap, empty);
    }
  }

  lemma WaitingSpared(h: Contents, m: Lines<Tile>, i: nat, op: Operation, before: Contents, typ: int, types: seq<int>,
      splitMap: SplitMap, empty: int)
    requires Rectangular(m) && i < |m| && |types| == 2 && typ != empty
    requires op.Split? && Waiting(h, m, i, op.m, before, typ, empty) && Prepared(op, before, empty)
    requires SplitsLine(op, op.m, m[i], typ, types, splitMap)
    ensures TakesNoSite(op) <==> Spared(h, m, i, typ, empty)
    ensures |op.e| == if OccupiedBehind(h, m, i, typ, 1, empty) then 1 else 0
  {
    var r: nat :| InPlace(m, i, op.m, r);
    PreparedShape(op, before, empty);
    SplitSpared(op, before, empty);
    hide LinesIn, InsertLines, Untouched, TakesNoSite, Spared, OccupiedBehind, CountIs, Rectangular, Injective;
    OnePlace(m, i, op.m, r, op.i, op.e);
    SparedSame(h, m, i, op.m, op.i, before, typ, empty);
  }

  /** A split of the run takes no site exactly when its line is spared in the grid the run began with. */
  lemma RunSpared(run: Run, m: Lines<Tile>, lines: seq<nat>, typ: int, types: seq<int>, splitMap: SplitMap, empty: int,
      p: nat)
    requires SplitsInTwo(run, m, lines, typ, types, splitMap, empty) && p < |run.ops|
    ensures p < |lines| && lines[p] < |m| && m != []
    ensures TakesNoSite(run.ops[p]) <==> Spared(run.Start(), m, lines[p], typ, empty)
    ensures run.ops[p].Split?
    ensures |run.ops[p].e| == if OccupiedBehind(run.Start(), m, lines[p], typ, 1, empty) then 1 else 0
  {
    WaitingAfter(run, m, lines, typ, types, splitMap, empty, p);
    RunStep(run, m, lines, typ, types, splitMap, empty, p);
    hide MatrixAfter, IsRun, FollowsLines, Prepared, TakesNoSite, Spared, OccupiedBehind, Rectangular, Injective,
      Waiting, SplitsLine, Distinct;
    assert Waiting(run.Start(), m, lines[p], run.ops[p].m, run.states[p], typ, empty);
    WaitingSpared(run.Start(), m, lines[p], run.ops[p], run.states[p], typ, types, splitMap, empty);
  }

  /** A finished two-way split keeps all sites exactly when each line it splits is spared, in the grid before. */
  lemma TwoWayKeepsSites(run: Run, m: Lines<Tile>, lines: seq<nat>, typ: int, types: seq<int>, splitMap: SplitMap,
      empty: int)
    requires SplitsInTwo(run, m, lines, typ, types, splitMap, empty) && |run.ops| == |lines|
    ensures AllSites(run.End()) == AllSites(run.Start()) <==>
      forall q :: 0 <= q < |lines| ==> lines[q] < |m| && Spared(run.Start(), m, lines[q], typ, empty)
  {
    RunLoses(run, empty);
    hide AllSites, TakesNoSite, Spared, Done, SplitsInTwo;
    forall q | 0 <= q < |lines|
      ensures lines[q] < |m| && (TakesNoSite(run.ops[q]) <==> Spared(run.Start(), m, lines[q], typ, empty))
    {
      RunSpared(run, m, lines, typ, types, splitMap, empty, q);
    }
  }

  // ----- how wide the mesh gets -----

  /** Those of the first p lines in which a tile right behind one of the type is taken. */
  ghost function Crowded(h: Contents, m: Lines<Tile>, lines: seq<nat>, p: nat, typ: int, empty: int): set<nat>
    requires p <= |lines|
  {
    set q: nat | q < p && OccupiedBehind(h, m, lines[q], typ, 1, empty)
  }

  lemma CrowdedMore(h: Contents, m: Lines<Tile>, lines: seq<nat>, p: nat, typ: int, empty: int)
    requires p < |lines|
    ensures |Crowded(h, m, lines, p + 1, typ, empty)| == |Crowded(h, m, lines, p, typ, empty)|
      + if OccupiedBehind(h, m, lines[p], typ, 1, empty) then 1 else 0
  {
    hide OccupiedBehind;
    var few, more := Crowded(h, m, lines, p, typ, empty), Crowded(h, m, lines, p + 1, typ, empty);
    assert more == if OccupiedBehind(h, m, lines[p], typ, 1, empty) then few + {p} else few;
  }

  lemma WidenedSize(op: Operation)
    requires op.Split? && op.i < |op.m|
    ensures |Widened(op)| == |op.m| + |op.e| && (op.e == [] ==> Widened(op) == op.m)
  {
  }

  lemma WidensOnce(run: Run, m: Lines<Tile>, lines: seq<nat>, typ: int, types: seq<int>, splitMap: SplitMap,
      empty: int, p: nat)
    requires SplitsInTwo(run, m, lines, typ, types, splitMap, empty) && p < |run.ops|
    ensures p < |lines|
    ensures |MatrixAfter(m, run.ops[..p + 1])| == |MatrixAfter(m, run.ops[..p])|
      + if OccupiedBehind(run.Start(), m, lines[p], typ, 1, empty) then 1 else 0
    ensures !OccupiedBehind(run.Start(), m, lines[p], typ, 1, empty) ==>
      MatrixAfter(m, run.ops[..p + 1]) == MatrixAfter(m, run.ops[..p])
  {
    RunStep(run, m, lines, typ, types, splitMap, empty, p);
    RunSpared(run, m, lines, typ, types, splitMap, empty, p);
    WidenedSize(run.ops[p]);
    hide FollowsLines, IsRun, Rectangular, Injective, Distinct, OccupiedBehind, Prepared, Done, SplitsLine, Widened,
      MatrixAfter, Spared, TakesNoSite;
  }

  lemma NoneCrowded(h: Contents, m: Lines<Tile>, lines: seq<nat>, p: nat, typ: int, empty: int)
    requires p <= |lines|
    ensures |Crowded(h, m, lines, p, typ, empty)| == 0 <==> Crowded(h, m, lines, p, typ, empty) == {}
    ensures p == 0 ==> Crowded(h, m, lines, p, typ, empty) == {}
  {
  }

  /** A two-way split puts in one line for each of the crowded ones, and none for the others. */
  lemma {:induction false} TwoWayWidens(run: Run, m: Lines<Tile>, lines: seq<nat>, typ: int, types: seq<int>,
      splitMap: SplitMap, empty: int, p: nat)
    requires SplitsInTwo(run, m, lines, typ, types, splitMap, empty) && p <= |run.ops| <= |lines|
    ensures |MatrixAfter(m, run.ops[..p])| == |m| + |Crowded(run.Start(), m, lines, p, typ, empty)|
    ensures Crowded(run.Start(), m, lines, p, typ, empty) == {} ==> MatrixAfter(m, run.ops[..p]) == m
  {
    hide OccupiedBehind, MatrixAfter, Crowded, FollowsLines, Done, Rectangular, Injective, Distinct;
    NoneCrowded(run.Start(), m, lines, p, typ, empty);
    if p > 0 {
      TwoWayWidens(run, m, lines, typ, types, splitMap, empty, p - 1);
      WidensOnce(run, m, lines, typ, types, splitMap, empty, p - 1);
      CrowdedMore(run.Start(), m, lines, p - 1, typ, empty);
      NoneCrowded(run.Start(), m, lines, p - 1, typ, empty);
    } else {
      FollowsNone(m, lines, typ, types, splitMap);
      assert run.ops[..p] == [];
    }
  }
}
