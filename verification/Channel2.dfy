/** utils/lib/rr_graph/channel2.py: packing the tracks of one channel into as few ptc rows as any
    packing can, and padding the rows. */
module Channel2 {
  import opened Sequences

  datatype Track = Track(low: int, high: int, key: int)
  datatype Gap = Gap(row: nat, low: int, high: int)

  type Row = seq<Track>

  const TRACK_LENGTH: Track -> int := (t: Track) => t.high - t.low
  const TRACK_LOW: Track -> int := (t: Track) => t.low

  predicate Covers(t: Track, x: int) { t.low <= x <= t.high }

  ghost predicate Proper(s: seq<Track>) {
    forall t :: t in s ==> t.low <= t.high
  }

  /** Each track of a row starts after the previous one ends. */
  ghost predicate Linked(row: Row) {
    forall i :: 0 <= i < |row| - 1 ==> row[i].high < row[i + 1].low
  }

  /** How many tracks of s cover coordinate x. */
  function Depth(s: seq<Track>, x: int): nat {
    if s == [] then 0 else (if Covers(s[0], x) then 1 else 0) + Depth(s[1..], x)
  }

  // ----- specification of the greedy -----

  /** The position to take next: among the tracks starting at or after `start`, those with the
      least start, and of these the last in the pool. */
  function Choice(pool: seq<Track>, start: int): (r: Option<nat>)
    ensures r.Some? ==> r.value < |pool|
  {
    if pool == [] then None
    else
      var n := |pool| - 1;
      var r := Choice(pool[..n], start);
      if pool[n].low < start then r
      else if r.None? || pool[n].low <= pool[r.value].low then Some(n)
      else r
  }

  /** One row: repeatedly take the track chosen from `start` on; returns the row and the pool
      that is left. */
  function Chain(pool: seq<Track>, start: int): (r: (Row, seq<Track>))
    ensures |r.0| + |r.1| == |pool|
    decreases |pool|
  {
    match Choice(pool, start)
    case None => ([], pool)
    case Some(i) =>
      var r := Chain(RemoveAt(pool, i), pool[i].high + 1);
      ([pool[i]] + r.0, r.1)
  }

  lemma ChainTakes(pool: seq<Track>, start: int)
    requires Choice(pool, start).Some?
    ensures var i := Choice(pool, start).value;
      var r := Chain(RemoveAt(pool, i), pool[i].high + 1);
      Chain(pool, start).0 == [pool[i]] + r.0 && Chain(pool, start).1 == r.1
  {
  }

  lemma ChainStops(pool: seq<Track>, start: int)
    requires Choice(pool, start).None?
    ensures Chain(pool, start).0 == [] && Chain(pool, start).1 == pool
  {
  }

  function MinLow(pool: seq<Track>): int
    requires pool != []
  {
    if |pool| == 1 then pool[0].low
    else Min(pool[0].low, MinLow(pool[1..]))
  }

  /** All rows: start each one at the least start left in the pool. */
  function Pack(pool: seq<Track>): (rows: seq<Row>)
    decreases |pool|
  {
    if pool == [] then []
    else
      var r := Chain(pool, MinLow(pool));
      if r.0 == [] then [] else [r.0] + Pack(r.1)
  }

  function Flatten(rows: seq<Row>): seq<Track> {
    if rows == [] then [] else rows[0] + Flatten(rows[1..])
  }

  // ----- properties of one chain -----

  lemma {:induction false} ChoiceProperties(pool: seq<Track>, start: int)
    ensures Choice(pool, start).None? ==> forall t :: t in pool ==> t.low < start
    ensures Choice(pool, start).Some? ==>
      var i := Choice(pool, start).value;
      && pool[i].low >= start
      && (forall t :: t in pool && t.low >= start ==> pool[i].low <= t.low)
      && (forall j :: i < j < |pool| ==> pool[j].low != pool[i].low)
  {
    if pool != [] {
      var n := |pool| - 1;
      ChoiceProperties(pool[..n], start);
      assert pool == pool[..n] + [pool[n]];
    }
  }

  lemma {:induction false} MinLowProperties(pool: seq<Track>)
    requires pool != []
    ensures forall t :: t in pool ==> MinLow(pool) <= t.low
    ensures exists t :: t in pool && t.low == MinLow(pool)
  {
    if |pool| > 1 {
      MinLowProperties(pool[1..]);
      var t :| t in pool[1..] && t.low == MinLow(pool[1..]);
      assert t in pool && pool[0] in pool;
    } else {
      assert pool[0] in pool;
    }
  }

  lemma DepthOfAppend(a: seq<Track>, b: seq<Track>, x: int)
    ensures Depth(a + b, x) == Depth(a, x) + Depth(b, x)
  {
    if a == [] {
      assert a + b == b;
    } else {
      assert (a + b)[1..] == a[1..] + b;
    }
  }

  lemma DepthOfOne(t: Track, x: int)
    ensures Depth([t], x) == if Covers(t, x) then 1 else 0
  {
  }

  lemma DepthOfRemoved(s: seq<Track>, i: nat, x: int)
    requires i < |s|
    ensures Depth(s, x) == Depth(RemoveAt(s, i), x) + (if Covers(s[i], x) then 1 else 0)
  {
    assert s == s[..i] + ([s[i]] + s[i + 1..]);
    DepthOfAppend(s[..i], [s[i]] + s[i + 1..], x);
    DepthOfAppend([s[i]], s[i + 1..], x);
    DepthOfAppend(s[..i], s[i + 1..], x);
  }

  lemma {:induction false} DepthPositive(s: seq<Track>, t: Track, x: int)
    requires t in s && Covers(t, x)
    ensures Depth(s, x) >= 1
  {
    if s[0] != t { DepthPositive(s[1..], t, x); }
  }

  lemma {:induction false} DepthWitness(s: seq<Track>, x: int, y: int)
    requires Depth(s, x) > Depth(s, y)
    ensures exists t :: t in s && Covers(t, x) && !Covers(t, y)
  {
    if !(Covers(s[0], x) && !Covers(s[0], y)) { DepthWitness(s[1..], x, y); }
  }

  lemma {:induction false} DepthZero(s: seq<Track>, x: int)
    requires forall t :: t in s ==> !Covers(t, x)
    ensures Depth(s, x) == 0
  {
    if s != [] { DepthZero(s[1..], x); }
  }

  /** A chain and what it leaves behind are together the pool it was taken from. */
  lemma {:induction false} ChainSplitsPool(pool: seq<Track>, start: int)
    ensures var (row, rest) := Chain(pool, start);
      && multiset(pool) == multiset(row) + multiset(rest)
      && (forall x :: Depth(pool, x) == Depth(row, x) + Depth(rest, x))
      && (forall t :: t in pool <==> t in row || t in rest)
    decreases |pool|
  {
    var (row, rest) := Chain(pool, start);
    hide Chain, Choice, RemoveAt;
    if Choice(pool, start).None? {
      ChainStops(pool, start);
    } else {
      var i := Choice(pool, start).value;
      ChainTakes(pool, start);
      ChainSplitsPool(RemoveAt(pool, i), pool[i].high + 1);
      RemoveAtMultiset(pool, i);
      var less := Chain(RemoveAt(pool, i), pool[i].high + 1).0;
      forall x ensures Depth(row, x) == Depth(less, x) + if Covers(pool[i], x) then 1 else 0 {
        DepthOfAppend([pool[i]], less, x);
        DepthOfOne(pool[i], x);
      }
      forall x ensures Depth(pool, x) == Depth(row, x) + Depth(rest, x) {
        DepthOfRemoved(pool, i, x);
      }
    }
    SameMembers(pool, row + rest);
  }

  /** Tracks of a chain start at or after `start` and do not overlap. */
  lemma {:induction false} ChainIsLinked(pool: seq<Track>, start: int)
    ensures Linked(Chain(pool, start).0)
    ensures Chain(pool, start).0 != [] ==> Chain(pool, start).0[0].low >= start
    decreases |pool|
  {
    match Choice(pool, start)
    case None =>
    case Some(i) =>
      ChoiceProperties(pool, start);
      ChainIsLinked(RemoveAt(pool, i), pool[i].high + 1);
  }

  /** The tracks of a linked row are in increasing, pairwise disjoint positions. */
  lemma {:induction false} LinkedOrder(row: Row, i: nat, j: nat)
    requires Linked(row) && Proper(row)
    requires i < j < |row|
    ensures row[i].high < row[j].low
  {
    if i + 1 < j {
      LinkedOrder(row, i, j - 1);
      assert row[j - 1] in row;
    }
  }

  lemma {:induction false} LinkedDepth(row: Row, x: int)
    requires Linked(row) && Proper(row)
    ensures Depth(row, x) <= 1
  {
    if row != [] {
      LinkedDepth(row[1..], x);
      if Covers(row[0], x) {
        forall t | t in row[1..] ensures !Covers(t, x) {
          var j :| 1 <= j < |row| && row[j] == t;
          LinkedOrder(row, 0, j);
        }
        DepthZero(row[1..], x);
      }
    }
  }

  ghost predicate DepthAtMost(s: seq<Track>, d: nat) {
    forall y :: Depth(s, y) <= d
  }

  /** The heart of optimality: where the pool is as deep as it is anywhere, and the coordinate
      just before `start` is already less deep, the chain from `start` cannot jump over x. */
  lemma {:induction false} ChainHits(pool: seq<Track>, start: int, deepest: nat, x: int)
    requires Proper(pool)
    requires DepthAtMost(pool, deepest)
    requires Depth(pool, start - 1) < deepest
    requires start <= x && Depth(pool, x) == deepest
    ensures Depth(Chain(pool, start).0, x) >= 1
    decreases |pool|
  {
    hide Chain, Choice, Depth, DepthAtMost, RemoveAt;
    ChoiceInReach(pool, start, x);
    ChainTakes(pool, start);
    var i := Choice(pool, start).value;
    var next := Chain(RemoveAt(pool, i), pool[i].high + 1).0;
    if pool[i].high < x {
      ChainHitsStep(pool, i, deepest, x);
      ChainHits(RemoveAt(pool, i), pool[i].high + 1, deepest, x);
    }
    DepthOfAppend([pool[i]], next, x);
    DepthOfOne(pool[i], x);
  }

  lemma ChoiceInReach(pool: seq<Track>, start: int, x: int)
    requires Depth(pool, start - 1) < Depth(pool, x) && start <= x
    ensures Choice(pool, start).Some? && pool[Choice(pool, start).value].low <= x
  {
    DepthWitness(pool, x, start - 1);
    ChoiceProperties(pool, start);
  }

  lemma ChainHitsStep(pool: seq<Track>, i: nat, deepest: nat, x: int)
    requires i < |pool| && pool[i].high < x
    requires DepthAtMost(pool, deepest)
    ensures DepthAtMost(RemoveAt(pool, i), deepest)
    requires Proper(pool)
    ensures Depth(RemoveAt(pool, i), pool[i].high) < deepest
    ensures Proper(RemoveAt(pool, i))
    ensures Depth(RemoveAt(pool, i), x) == Depth(pool, x)
  {
    forall y ensures Depth(RemoveAt(pool, i), y) <= deepest {
      DepthOfRemoved(pool, i, y);
    }
    DepthOfRemoved(pool, i, x);
    assert pool[i] in pool;
    DepthOfRemoved(pool, i, pool[i].high);
  }

  // ----- properties of the whole packing -----

  lemma FirstChain(pool: seq<Track>)
    requires pool != []
    ensures var r := Chain(pool, MinLow(pool));
      r.0 != [] && r.0[0].low == MinLow(pool) && |r.1| < |pool| && Pack(pool) == [r.0] + Pack(r.1)
  {
    MinLowProperties(pool);
    ChoiceProperties(pool, MinLow(pool));
  }

  lemma {:induction false} PackKeepsTracks(pool: seq<Track>)
    ensures multiset(Flatten(Pack(pool))) == multiset(pool)
    decreases |pool|
  {
    if pool != [] {
      var r := Chain(pool, MinLow(pool));
      FirstChain(pool);
      ChainSplitsPool(pool, MinLow(pool));
      PackKeepsTracks(r.1);
      assert Pack(pool)[1..] == Pack(r.1);
    }
  }

  /** Rows are non-empty, free of overlaps, and opened in order of their first coordinate. */
  lemma {:induction false} PackRows(pool: seq<Track>)
    ensures forall i :: 0 <= i < |Pack(pool)| ==> Pack(pool)[i] != [] && Linked(Pack(pool)[i])
    ensures forall i :: 0 <= i < |Pack(pool)| ==>
      forall t :: t in Pack(pool)[i] ==> t in pool
    ensures forall i, j :: 0 <= i < j < |Pack(pool)| ==> Pack(pool)[i][0].low <= Pack(pool)[j][0].low
    decreases |pool|
  {
    if pool != [] {
      var r := Chain(pool, MinLow(pool));
      FirstChain(pool);
      ChainIsLinked(pool, MinLow(pool));
      ChainSplitsPool(pool, MinLow(pool));
      PackRows(r.1);
      MinLowProperties(pool);
      var rows: seq<Row>, later: seq<Row> := Pack(pool), Pack(r.1);
      forall i | 0 < i < |rows|
        ensures rows[i] == later[i - 1] && rows[0][0].low <= rows[i][0].low
      {
        assert rows[i][0] in later[i - 1];
      }
    }
  }

  ghost predicate IsMaxDepth(s: seq<Track>, d: nat) {
    DepthAtMost(s, d) && exists x :: Depth(s, x) == d
  }

  /** Where a pool is deepest, its first row has a track. */
  lemma FirstChainHits(pool: seq<Track>, deepest: nat, x: int)
    requires Proper(pool) && pool != []
    requires DepthAtMost(pool, deepest) && Depth(pool, x) == deepest
    ensures Depth(Chain(pool, MinLow(pool)).0, x) >= 1
  {
    var start := MinLow(pool);
    MinLowProperties(pool);
    assert pool[0] in pool;
    DepthPositive(pool, pool[0], pool[0].low);
    DepthZero(pool, start - 1);
    DepthWitness(pool, x, start - 1);
    ChainHits(pool, start, deepest, x);
  }

  /** The number of rows is exactly the largest number of tracks that meet at one coordinate. */
  lemma {:induction false} PackHasMaxDepthRows(pool: seq<Track>)
    requires Proper(pool)
    ensures IsMaxDepth(pool, |Pack(pool)|)
    decreases |pool|
  {
    if pool == [] {
      assert Depth(pool, 0) == 0;
    } else {
      var start := MinLow(pool);
      var (row, rest) := Chain(pool, start);
      var k := |Pack(rest)|;
      FirstChain(pool);
      ChainSplitsPool(pool, start);
      ChainIsLinked(pool, start);
      PackHasMaxDepthRows(rest);
      forall x ensures Depth(pool, x) <= k + 1 {
        LinkedDepth(row, x);
      }
      if forall x :: Depth(pool, x) != k + 1 {
        var x :| Depth(rest, x) == k;
        FirstChainHits(pool, k, x);
        assert false;
      }
    }
  }

  ghost predicate IsPacking(rows: seq<Row>, pool: seq<Track>) {
    && multiset(Flatten(rows)) == multiset(pool)
    && forall i, x :: 0 <= i < |rows| ==> Depth(rows[i], x) <= 1
  }

  lemma {:induction false} DepthOfMultiset(a: seq<Track>, b: seq<Track>, x: int)
    requires multiset(a) == multiset(b)
    ensures Depth(a, x) == Depth(b, x)
  {
    if a == [] {
      assert |multiset(b)| == 0;
    } else {
      SameMembers(a, b);
      assert a[0] in a;
      var i :| 0 <= i < |b| && b[i] == a[0];
      RemoveAtMultiset(b, i);
      assert a == [a[0]] + a[1..];
      RemoveAtMultiset(a, 0);
      assert a[1..] == RemoveAt(a, 0);
      assert multiset(a[1..]) == multiset(a) - multiset{a[0]};
      assert multiset(RemoveAt(b, i)) == multiset(b) - multiset{b[i]};
      DepthOfMultiset(a[1..], RemoveAt(b, i), x);
      DepthOfRemoved(b, i, x);
    }
  }

  lemma {:induction false} DepthOfRows(rows: seq<Row>, x: int)
    requires forall i :: 0 <= i < |rows| ==> Depth(rows[i], x) <= 1
    ensures Depth(Flatten(rows), x) <= |rows|
  {
    if rows != [] {
      DepthOfRows(rows[1..], x);
      DepthOfAppend(rows[0], Flatten(rows[1..]), x);
    }
  }

  lemma PackIsPacking(pool: seq<Track>)
    requires Proper(pool)
    ensures IsPacking(Pack(pool), pool)
  {
    PackKeepsTracks(pool);
    PackRows(pool);
    forall i, x | 0 <= i < |Pack(pool)| ensures Depth(Pack(pool)[i], x) <= 1 {
      LinkedDepth(Pack(pool)[i], x);
    }
  }

  /** No arrangement of the same tracks into overlap-free rows uses fewer rows. */
  lemma PackIsOptimal(pool: seq<Track>, other: seq<Row>)
    requires Proper(pool)
    requires IsPacking(other, pool)
    ensures IsPacking(Pack(pool), pool)
    ensures |Pack(pool)| <= |other|
  {
    PackIsPacking(pool);
    PackHasMaxDepthRows(pool);
    var x :| Depth(pool, x) == |Pack(pool)|;
    DepthOfMultiset(Flatten(other), pool, x);
    DepthOfRows(other, x);
  }

  // ----- padding -----

  /** The stretch low..high as one gap, or nothing if it is empty. */
  function GapOver(row: nat, low: int, high: int): seq<Gap> {
    if low <= high then [Gap(row, low, high)] else []
  }

  /** The gaps between neighbouring tracks of a row. */
  function InnerGaps(row: nat, tracks: Row): seq<Gap> {
    var n := |tracks| - 1;
    if n < 1 then []
    else InnerGaps(row, tracks[..n]) + GapOver(row, tracks[n - 1].high + 1, tracks[n].low - 1)
  }

  lemma InnerGapsGrow(row: nat, tracks: Row, i: nat)
    requires i < |tracks|
    ensures InnerGaps(row, tracks[..i + 1]) == if i == 0 then [] else
      InnerGaps(row, tracks[..i]) + GapOver(row, tracks[i - 1].high + 1, tracks[i].low - 1)
  {
    assert tracks[..i + 1][..i] == tracks[..i];
  }

  function RowGaps(row: nat, tracks: Row, minValue: int, maxValue: int): seq<Gap> {
    if tracks == [] then []
    else
      GapOver(row, minValue, tracks[0].low - 1)
      + InnerGaps(row, tracks)
      + GapOver(row, tracks[|tracks| - 1].high + 1, maxValue)
  }

  function AllGaps(rows: seq<Row>, minValue: int, maxValue: int): seq<Gap> {
    if rows == [] then []
    else AllGaps(rows[..|rows| - 1], minValue, maxValue)
         + RowGaps(|rows| - 1, rows[|rows| - 1], minValue, maxValue)
  }

  /** How many gaps of row `row` cover coordinate x. */
  function GapDepth(gaps: seq<Gap>, row: int, x: int): nat {
    if gaps == [] then 0
    else (if gaps[0].row == row && gaps[0].low <= x <= gaps[0].high then 1 else 0)
         + GapDepth(gaps[1..], row, x)
  }

  lemma GapDepthOfAppend(a: seq<Gap>, b: seq<Gap>, row: int, x: int)
    ensures GapDepth(a + b, row, x) == GapDepth(a, row, x) + GapDepth(b, row, x)
  {
    if a == [] {
      assert a + b == b;
    } else {
      assert (a + b)[1..] == a[1..] + b;
    }
  }

  lemma GapOverDepth(row: nat, low: int, high: int, x: int)
    ensures GapDepth(GapOver(row, low, high), row, x) == if low <= x <= high then 1 else 0
  {
  }

  ghost predicate Complete(row: nat, tracks: Row, x: int)
    requires tracks != []
  {
    GapDepth(InnerGaps(row, tracks), row, x) + Depth(tracks, x)
      == if tracks[0].low <= x <= tracks[|tracks| - 1].high then 1 else 0
  }

  lemma CompleteGrows(row: nat, init: Row, last: Track, x: int)
    requires init != [] && init[0].low <= init[|init| - 1].high < last.low <= last.high
    requires Complete(row, init, x)
    ensures Complete(row, init + [last], x)
  {
    hide Depth, GapDepth, GapOver, InnerGaps;
    var tracks, prev := init + [last], init[|init| - 1];
    var gap := GapOver(row, prev.high + 1, last.low - 1);
    assert tracks[..|init| + 1] == tracks && tracks[..|init|] == init;
    InnerGapsGrow(row, tracks, |init|);
    GapDepthOfAppend(InnerGaps(row, init), gap, row, x);
    GapOverDepth(row, prev.high + 1, last.low - 1, x);
    DepthOfAppend(init, [last], x);
    DepthOfOne(last, x);
  }

  lemma {:induction false} InnerGapsComplete(row: nat, tracks: Row, x: int)
    requires Linked(tracks) && Proper(tracks) && tracks != []
    ensures Complete(row, tracks, x)
  {
    hide Complete, InnerGaps, Linked, Proper;
    var n := |tracks| - 1;
    if n == 0 {
      CompleteSingle(row, tracks[0], x);
      assert tracks == [tracks[0]];
    } else {
      var init, last := tracks[..n], tracks[n];
      assert tracks == init + [last];
      LinkedInit(tracks);
      InnerGapsComplete(row, init, x);
      CompleteGrows(row, init, last, x);
    }
  }

  lemma LinkedInit(tracks: Row)
    requires Linked(tracks) && Proper(tracks) && |tracks| >= 2
    ensures var n := |tracks| - 1;
      Linked(tracks[..n]) && Proper(tracks[..n])
      && tracks[0].low <= tracks[n - 1].high < tracks[n].low <= tracks[n].high
  {
    var n := |tracks| - 1;
    assert tracks[0] in tracks && tracks[n] in tracks && tracks[n - 1] in tracks;
    if n > 1 { LinkedOrder(tracks, 0, n - 1); }
  }

  lemma CompleteSingle(row: nat, t: Track, x: int)
    ensures Complete(row, [t], x)
  {
  }

  lemma {:induction false} InnerGapsShape(row: nat, tracks: Row)
    ensures forall g :: g in InnerGaps(row, tracks) ==> g.row == row && g.low <= g.high
  {
    if |tracks| > 1 { InnerGapsShape(row, tracks[..|tracks| - 1]); }
  }

  lemma {:induction false} GapDepthOtherRow(gaps: seq<Gap>, row: int, x: int)
    requires forall g :: g in gaps ==> g.row != row
    ensures GapDepth(gaps, row, x) == 0
  {
    if gaps != [] { GapDepthOtherRow(gaps[1..], row, x); }
  }

  /** Tracks and gaps of one row cover each coordinate of the padded stretch exactly once and
      nothing outside it. */
  lemma RowGapsComplete(row: nat, tracks: Row, minValue: int, maxValue: int, x: int)
    requires Linked(tracks) && Proper(tracks) && tracks != []
    ensures GapDepth(RowGaps(row, tracks, minValue, maxValue), row, x) + Depth(tracks, x)
         == if Min(minValue, tracks[0].low) <= x <= Max(maxValue, tracks[|tracks| - 1].high) then 1 else 0
  {
    hide Depth, GapDepth, GapOver, InnerGaps;
    var last := tracks[|tracks| - 1];
    var a, c := GapOver(row, minValue, tracks[0].low - 1), GapOver(row, last.high + 1, maxValue);
    var b := InnerGaps(row, tracks);
    InnerGapsComplete(row, tracks, x);
    GapDepthOfAppend(a + b, c, row, x);
    GapDepthOfAppend(a, b, row, x);
    GapOverDepth(row, minValue, tracks[0].low - 1, x);
    GapOverDepth(row, last.high + 1, maxValue, x);
    assert tracks[0] in tracks && last in tracks;
    if |tracks| > 1 { LinkedOrder(tracks, 0, |tracks| - 1); }
  }

  lemma RowGapsShape(row: nat, tracks: Row, minValue: int, maxValue: int)
    ensures forall g :: g in RowGaps(row, tracks, minValue, maxValue) ==> g.row == row && g.low <= g.high
  {
    InnerGapsShape(row, tracks);
  }

  ghost predicate GoodRows(rows: seq<Row>) {
    forall i :: 0 <= i < |rows| ==> rows[i] != [] && Linked(rows[i]) && Proper(rows[i])
  }

  lemma {:induction false} AllGapsShape(rows: seq<Row>, minValue: int, maxValue: int)
    ensures forall g :: g in AllGaps(rows, minValue, maxValue) ==> g.row < |rows| && g.low <= g.high
  {
    if rows != [] {
      AllGapsShape(rows[..|rows| - 1], minValue, maxValue);
      RowGapsShape(|rows| - 1, rows[|rows| - 1], minValue, maxValue);
    }
  }

  /** After padding, every row covers each coordinate of its stretch exactly once. */
  lemma {:induction false} AllGapsComplete(rows: seq<Row>, minValue: int, maxValue: int, row: nat, x: int)
    requires GoodRows(rows) && row < |rows|
    ensures GapDepth(AllGaps(rows, minValue, maxValue), row, x) + Depth(rows[row], x)
         == if Min(minValue, rows[row][0].low) <= x <= Max(maxValue, rows[row][|rows[row]| - 1].high) then 1 else 0
  {
    hide Depth, GapDepth, RowGaps, Linked, Proper;
    var n := |rows| - 1;
    var before, last := AllGaps(rows[..n], minValue, maxValue), RowGaps(n, rows[n], minValue, maxValue);
    GapDepthOfAppend(before, last, row, x);
    if row < n {
      RowGapsShape(n, rows[n], minValue, maxValue);
      AllGapsComplete(rows[..n], minValue, maxValue, row, x);
      GapDepthOtherRow(last, row, x);
    } else {
      AllGapsShape(rows[..n], minValue, maxValue);
      RowGapsComplete(n, rows[n], minValue, maxValue, x);
      GapDepthOtherRow(before, row, x);
    }
  }

  // ----- the class -----

  /** The dictionary the source keeps: start coordinate to the (end, key) pairs still unpacked. */
  type Buckets = map<int, seq<(int, int)>>

  function Bucket(pool: seq<Track>, low: int): seq<(int, int)> {
    if pool == [] then []
    else
      var t := pool[|pool| - 1];
      Bucket(pool[..|pool| - 1], low) + (if t.low == low then [(t.high, t.key)] else [])
  }

  ghost predicate Holds(byLow: Buckets, pool: seq<Track>) {
    forall low :: (low in byLow <==> Bucket(pool, low) != [])
      && (low in byLow ==> byLow[low] == Bucket(pool, low))
  }

  lemma {:induction false} BucketEmpty(pool: seq<Track>, low: int)
    ensures Bucket(pool, low) == [] <==> forall t :: t in pool ==> t.low != low
  {
    if pool != [] {
      assert pool == pool[..|pool| - 1] + [pool[|pool| - 1]];
      BucketEmpty(pool[..|pool| - 1], low);
    }
  }

  /** Taking the last track of one start out of the pool pops the end of that bucket only. */
  lemma {:induction false} BucketOfRemoved(pool: seq<Track>, i: nat, other: int)
    requires i < |pool| && forall j :: i < j < |pool| ==> pool[j].low != pool[i].low
    ensures Bucket(pool, other) == Bucket(RemoveAt(pool, i), other)
        + (if other == pool[i].low then [(pool[i].high, pool[i].key)] else [])
  {
    var n := |pool| - 1;
    if i == n {
      assert RemoveAt(pool, n) == pool[..n];
    } else {
      BucketOfRemoved(pool[..n], i, other);
      assert RemoveAt(pool, i) == RemoveAt(pool[..n], i) + [pool[n]];
      assert RemoveAt(pool, i)[..n - 1] == RemoveAt(pool[..n], i);
    }
  }

  /** The source sorts by length first, so of the tracks that start together the longest goes
      first. */
  lemma ChoiceIsLongest(pool: seq<Track>, start: int)
    requires SortedBy(pool, TRACK_LENGTH)
    requires Choice(pool, start).Some?
    ensures var c := pool[Choice(pool, start).value];
      forall t :: t in pool && t.low == c.low ==> t.high <= c.high
  {
    ChoiceProperties(pool, start);
    var i := Choice(pool, start).value;
    forall t | t in pool && t.low == pool[i].low ensures t.high <= pool[i].high {
      var j :| 0 <= j < |pool| && pool[j] == t;
      assert TRACK_LENGTH(pool[j]) <= TRACK_LENGTH(pool[i]);
    }
  }

  lemma HoldsKeys(byLow: Buckets, pool: seq<Track>)
    requires Holds(byLow, pool)
    ensures forall t :: t in pool ==> t.low in byLow
    ensures forall low :: low in byLow ==> exists t :: t in pool && t.low == low
    ensures pool == [] <==> |byLow| == 0
  {
    forall low | low in byLow ensures exists t :: t in pool && t.low == low {
      BucketEmpty(pool, low);
    }
    forall t | t in pool ensures t.low in byLow {
      BucketEmpty(pool, t.low);
    }
    assert |byLow| == |byLow.Keys|;
    if pool == [] {
      IntSetEmpty(byLow.Keys);
    } else {
      assert pool[0] in pool;
      assert pool[0].low in byLow.Keys;
    }
  }

  /** The bucket found by scanning upwards from `start` is where the chosen track sits. */
  lemma ChoiceByBucket(byLow: Buckets, pool: seq<Track>, start: int, low: int)
    requires Holds(byLow, pool)
    requires start <= low && low in byLow && forall l :: start <= l < low ==> l !in byLow
    ensures Choice(pool, start).Some? && pool[Choice(pool, start).value].low == low
  {
    HoldsKeys(byLow, pool);
    ChoiceProperties(pool, start);
    var t :| t in pool && t.low == low;
    var c := pool[Choice(pool, start).value];
    assert c in pool && c.low in byLow;
  }

  class Channel {
    var trees: seq<Row>
    const tracks: seq<Track>

    ghost predicate Valid()
      reads this
    {
      forall i :: 0 <= i < |trees| ==> trees[i] != [] && Linked(trees[i])
    }

    constructor (input: seq<Track>)
      ensures Valid() && trees == [] && tracks == SortBy(input, TRACK_LENGTH)
    {
      trees := [];
      tracks := SortBy(input, TRACK_LENGTH);
    }

    method StartTrack(track: Track)
      modifies this
      ensures trees == old(trees) + [[track]]
    {
      trees := trees + [[track]];
    }

    method AddTrackToTree(track: Track)
      requires trees != []
      modifies this
      ensures trees == old(trees)[..|old(trees)| - 1] + [old(trees)[|old(trees)| - 1] + [track]]
    {
      trees := trees[|trees| - 1 := trees[|trees| - 1] + [track]];
    }

    /** Checks that no track of a row starts before its predecessor ends. */
    method VerifyTrees() returns (ok: bool)
      ensures ok <==> forall i, j :: 0 <= i < |trees| && 0 <= j < |trees[i]| - 1 ==>
                        trees[i][j].high <= trees[i][j + 1].low
    {
      for i := 0 to |trees|
        invariant forall k, j :: 0 <= k < i && 0 <= j < |trees[k]| - 1 ==>
                    trees[k][j].high <= trees[k][j + 1].low
      {
        var j := 0;
        while j + 1 < |trees[i]|
          invariant 0 <= j
          invariant forall m :: 0 <= m < j && m < |trees[i]| - 1 ==>
                      trees[i][m].high <= trees[i][m + 1].low
        {
          if trees[i][j].high > trees[i][j + 1].low {
            return false;
          }
          j := j + 1;
        }
      }
      return true;
    }

    /** Collects the tracks into buckets by start coordinate. */
    method MakeBuckets() returns (byLow: Buckets)
      ensures Holds(byLow, tracks)
    {
      byLow := map[];
      assert forall low :: Bucket(tracks[..0], low) == [];
      for i := 0 to |tracks|
        invariant Holds(byLow, tracks[..i])
      {
        var t := tracks[i];
        assert tracks[..i + 1][..i] == tracks[..i];
        if t.low !in byLow {
          byLow := byLow[t.low := []];
        }
        byLow := byLow[t.low := byLow[t.low] + [(t.high, t.key)]];
      }
      assert tracks[..|tracks|] == tracks;
    }

    /** Pops the last entry of a bucket; the bucket goes when it is empty. */
    method Pop(byLow: Buckets, low: int, ghost pool: seq<Track>, ghost i: nat)
      returns (left: Buckets, high: int, key: int)
      requires Holds(byLow, pool)
      requires i < |pool| && pool[i].low == low && forall j :: i < j < |pool| ==> pool[j].low != low
      ensures Track(low, high, key) == pool[i]
      ensures Holds(left, RemoveAt(pool, i))
    {
      forall other ensures Bucket(pool, other) == Bucket(RemoveAt(pool, i), other)
          + (if other == low then [(pool[i].high, pool[i].key)] else []) {
        BucketOfRemoved(pool, i, other);
      }
      var stack := byLow[low];
      high, key := stack[|stack| - 1].0, stack[|stack| - 1].1;
      left := byLow[low := stack[..|stack| - 1]];
      if |left[low]| == 0 {
        left := left - {low};
      }
    }

    /** The least key from `start` to `highest`, by a linear scan. */
    method ScanUp(byLow: Buckets, start: int, highest: int) returns (low: Option<int>)
      ensures low.Some? ==> start <= low.value && low.value in byLow
      ensures low.Some? ==> forall l :: start <= l < low.value ==> l !in byLow
      ensures low.None? ==> forall l :: start <= l <= highest ==> l !in byLow
    {
      var next := start;
      while next <= highest
        invariant start <= next
        invariant forall l :: start <= l < next ==> l !in byLow
      {
        if next in byLow {
          return Some(next);
        }
        next := next + 1;
      }
      return None;
    }

    /** Moves the chosen track from its bucket to the end of the newest row. */
    method TakeNext(byLow: Buckets, low: int, ghost pool: seq<Track>, ghost start: int)
      returns (left: Buckets, high: int)
      requires trees != []
      requires Holds(byLow, pool)
      requires Choice(pool, start).Some? && pool[Choice(pool, start).value].low == low
      modifies this
      ensures var i := Choice(pool, start).value;
        var r := Chain(RemoveAt(pool, i), pool[i].high + 1);
        && Holds(left, RemoveAt(pool, i)) && high == pool[i].high
        && trees == old(trees)[..|old(trees)| - 1] + [old(trees)[|old(trees)| - 1] + [pool[i]]]
        && Chain(pool, start).0 == [pool[i]] + r.0 && Chain(pool, start).1 == r.1
    {
      hide Chain, Choice, Bucket, Holds;
      ChoiceProperties(pool, start);
      ChainTakes(pool, start);
      var key;
      left, high, key := Pop(byLow, low, pool, Choice(pool, start).value);
      AddTrackToTree(Track(low, high, key));
    }

    /** Lets the newest row grow by the next track that starts at `start` or later, if there is one. */
    method ExtendOnce(byLow: Buckets, start: int, highest: int, ghost pool: seq<Track>)
      returns (left: Buckets, trackHigh: Option<int>, ghost rest: seq<Track>, ghost taken: seq<Track>)
      requires trees != []
      requires Holds(byLow, pool)
      requires forall t :: t in pool ==> t.low <= highest
      modifies this
      ensures Holds(left, rest) && forall t :: t in rest ==> t.low <= highest
      ensures trees == old(trees)[..|old(trees)| - 1] + [old(trees)[|old(trees)| - 1] + taken]
      ensures Chain(pool, start).0 == taken + if trackHigh.Some? then Chain(rest, trackHigh.value + 1).0 else []
      ensures Chain(pool, start).1 == if trackHigh.Some? then Chain(rest, trackHigh.value + 1).1 else rest
      ensures trackHigh.Some? ==> |rest| < |pool|
    {
      hide Chain, Choice, Bucket, Holds, RemoveAt;
      left, trackHigh, rest, taken := byLow, None, pool, [];
      var low := ScanUp(left, start, highest);
      if low.Some? {
        ChoiceByBucket(left, pool, start, low.value);
        ghost var i := Choice(pool, start).value;
        var newHigh;
        left, newHigh := TakeNext(left, low.value, pool, start);
        trackHigh, rest, taken := Some(newHigh), RemoveAt(pool, i), [pool[i]];
      } else {
        NothingFollows(left, pool, start, highest);
        ChainStops(pool, start);
        assert trees[|trees| - 1] + [] == trees[|trees| - 1];
        assert trees == trees[..|trees| - 1] + [trees[|trees| - 1]];
      }
    }

    /** Lets the newest row grow while some track can follow the one that ends at `high`. */
    method ExtendRow(byLow: Buckets, high: int, highest: int, ghost pool: seq<Track>) returns (left: Buckets)
      requires trees != []
      requires Holds(byLow, pool)
      requires forall t :: t in pool ==> t.low <= highest
      modifies this
      ensures Holds(left, Chain(pool, high + 1).1)
      ensures trees == old(trees)[..|old(trees)| - 1] + [old(trees)[|old(trees)| - 1] + Chain(pool, high + 1).0]
    {
      hide Chain, Holds;
      left := byLow;
      ghost var rest, row := pool, [];
      ghost var done, first := trees[..|trees| - 1], trees[|trees| - 1];
      assert first + row == first;
      var trackHigh := Some(high);
      while trackHigh.Some?
        invariant Holds(left, rest)
        invariant forall t :: t in rest ==> t.low <= highest
        invariant trees == done + [first + row]
        invariant Chain(pool, high + 1).0
               == row + if trackHigh.Some? then Chain(rest, trackHigh.value + 1).0 else []
        invariant Chain(pool, high + 1).1
               == if trackHigh.Some? then Chain(rest, trackHigh.value + 1).1 else rest
        decreases trackHigh.Some?, |rest|
      {
        ghost var taken;
        left, trackHigh, rest, taken := ExtendOnce(left, trackHigh.value + 1, highest, rest);
        assert first + row + taken == first + (row + taken);
        row := row + taken;
      }
      assert row + [] == row;
    }

    /** Packs every track into rows, each row opened at the least start left. */
    method PackTracks()
      requires Valid()
      modifies this
      ensures Valid()
      ensures trees == old(trees) + Pack(tracks)
    {
      var byLow := MakeBuckets();
      ghost var pool := tracks;
      HoldsKeys(byLow, pool);
      var highest := 0;
      if |byLow| > 0 {
        highest := GreatestKey(byLow.Keys);
      }
      while |byLow| > 0
        invariant Holds(byLow, pool)
        invariant pool == [] <==> |byLow| == 0
        invariant trees + Pack(pool) == old(trees) + Pack(tracks)
        invariant forall t :: t in pool ==> t.low <= highest
        decreases |pool|
      {
        byLow, pool := PackRow(byLow, highest, pool);
      }
      assert trees + [] == trees;
      PackRows(tracks);
      var ok := VerifyTrees();
      assert ok;
    }

    /** Opens one row and fills it. */
    method PackRow(byLow: Buckets, highest: int, ghost pool: seq<Track>)
      returns (left: Buckets, ghost rest: seq<Track>)
      requires Holds(byLow, pool) && pool != []
      requires forall t :: t in pool ==> t.low <= highest
      modifies this
      ensures Holds(left, rest) && (rest == [] <==> |left| == 0) && |rest| < |pool|
      ensures trees + Pack(rest) == old(trees) + Pack(pool)
      ensures forall t :: t in rest ==> t.low <= highest
    {
      hide Chain, Choice, Bucket, Holds, Pack, MinLow;
      HoldsKeys(byLow, pool);
      var low := LeastKey(byLow.Keys);
      MinLowProperties(pool);
      FirstChain(pool);
      ChoiceByBucket(byLow, pool, low, low);
      ChoiceProperties(pool, low);
      ghost var i := Choice(pool, low).value;
      var high, key;
      left, high, key := Pop(byLow, low, pool, i);
      StartTrack(Track(low, high, key));
      ghost var more := Chain(RemoveAt(pool, i), high + 1);
      ChainTakes(pool, low);
      left := ExtendRow(left, high, highest, RemoveAt(pool, i));
      assert trees == old(trees) + [[pool[i]] + more.0];
      rest := more.1;
      assert trees + Pack(rest) == old(trees) + ([[pool[i]] + more.0] + Pack(rest));
      ChainSplitsPool(pool, low);
      HoldsKeys(left, rest);
    }

    /** The tracks to add so that no row has a gap between minValue and maxValue. */
    method FillEmpty(minValue: int, maxValue: int) returns (gaps: seq<Gap>)
      requires forall i :: 0 <= i < |trees| ==> trees[i] != [] && SortedBy(trees[i], TRACK_LOW)
      ensures gaps == AllGaps(trees, minValue, maxValue)
    {
      gaps := [];
      for idx := 0 to |trees|
        invariant gaps == AllGaps(trees[..idx], minValue, maxValue)
      {
        assert trees[..idx + 1][..idx] == trees[..idx];
        var rowGaps := FillRow(idx, trees[idx], minValue, maxValue);
        gaps := gaps + rowGaps;
      }
      assert trees[..|trees|] == trees;
    }

    method FillRow(idx: nat, tree: Row, minValue: int, maxValue: int) returns (gaps: seq<Gap>)
      requires tree != [] && SortedBy(tree, TRACK_LOW)
      ensures gaps == RowGaps(idx, tree, minValue, maxValue)
    {
      hide SortBy, InnerGaps;
      var row := SortBy(tree, TRACK_LOW);
      SortByOfSorted(tree, TRACK_LOW);
      gaps := [];
      if minValue <= row[0].low - 1 {
        gaps := [Gap(idx, minValue, row[0].low - 1)];
      }
      ghost var head := GapOver(idx, minValue, row[0].low - 1);
      InnerGapsGrow(idx, row, 0);
      for i := 1 to |row|
        invariant gaps == head + InnerGaps(idx, row[..i])
      {
        ghost var gap := GapOver(idx, row[i - 1].high + 1, row[i].low - 1);
        InnerGapsGrow(idx, row, i);
        ghost var before := gaps;
        if row[i - 1].high + 1 <= row[i].low - 1 {
          gaps := gaps + [Gap(idx, row[i - 1].high + 1, row[i].low - 1)];
        }
        assert gaps == before + gap;
      }
      assert row[..|row|] == row;
      if row[|row| - 1].high + 1 <= maxValue {
        gaps := gaps + [Gap(idx, row[|row| - 1].high + 1, maxValue)];
      }
    }
  }

  lemma NothingFollows(byLow: Buckets, pool: seq<Track>, start: int, highest: int)
    requires Holds(byLow, pool)
    requires forall t :: t in pool ==> t.low <= highest
    requires forall l :: start <= l <= highest ==> l !in byLow
    ensures Choice(pool, start).None?
  {
    var c := Choice(pool, start);
    if c.Some? {
      assert pool[c.value] in pool;
      ChoiceProperties(pool, start);
      HoldsKeys(byLow, pool);
    }
  }

  /** Python's `min` over the keys of a dictionary. */
  method LeastKey(keys: set<int>) returns (low: int)
    requires keys != {}
    ensures low in keys && forall k :: k in keys ==> low <= k
  {
    IntSetMember(keys);
    low :| low in keys;
    var left := keys;
    while left != {}
      invariant left <= keys && low in keys
      invariant forall k :: k in keys ==> k in left || low <= k
      decreases left
    {
      IntSetMember(left);
      var k :| k in left;
      left := left - {k};
      if k < low { low := k; }
    }
  }

  /** Python's `max` over the keys of a dictionary. */
  method GreatestKey(keys: set<int>) returns (high: int)
    requires keys != {}
    ensures high in keys && forall k :: k in keys ==> k <= high
  {
    IntSetMember(keys);
    high :| high in keys;
    var left := keys;
    while left != {}
      invariant left <= keys && high in keys
      invariant forall k :: k in keys ==> k in left || k <= high
      decreases left
    {
      IntSetMember(left);
      var k :| k in left;
      left := left - {k};
      if high < k { high := k; }
    }
  }
}
