/** utils/tile_splitter/grid.py: root keys and sites, added up as multisets over the tiles. Inserting, splitting and
    merging all keep the root keys. Inserting and merging keep the sites as well; a split keeps those of the
    tile it splits and drops those of the tiles it takes over, and what a line or a whole split_in_dir drops is
    added up over the tiles taken, each of which is taken once. */
module Conserve {
  import opened Sequences
  import opened Matrix
  import opened Mesh
  import opened Splice
  import opened TileData
  import opened SplitLine

  // ----- totals over a set of tiles -----

  ghost function Total<X>(f: map<Tile, seq<X>>, s: set<Tile>): multiset<X>
    requires s <= f.Keys
    decreases |s|
  {
    if s == {} then multiset{}
    else
      var t :| t in s;
      multiset(f[t]) + Total(f, s - {t})
  }

  lemma {:induction false} TotalRemove<X>(f: map<Tile, seq<X>>, s: set<Tile>, t: Tile)
    requires s <= f.Keys && t in s
    ensures Total(f, s) == multiset(f[t]) + Total(f, s - {t})
    decreases |s|
  {
    var u :| u in s && Total(f, s) == multiset(f[u]) + Total(f, s - {u});
    if u != t {
      TotalRemove(f, s - {u}, t);
      TotalRemove(f, s - {t}, u);
      assert s - {u} - {t} == s - {t} - {u};
    }
  }

  lemma {:induction false} TotalSame<X>(f: map<Tile, seq<X>>, g: map<Tile, seq<X>>, s: set<Tile>)
    requires s <= f.Keys && s <= g.Keys && forall t :: t in s ==> f[t] == g[t]
    ensures Total(f, s) == Total(g, s)
    decreases |s|
  {
    if s != {} {
      var t :| t in s;
      TotalRemove(f, s, t);
      TotalRemove(g, s, t);
      TotalSame(f, g, s - {t});
    }
  }

  lemma {:induction false} TotalUnion<X>(f: map<Tile, seq<X>>, a: set<Tile>, b: set<Tile>)
    requires a <= f.Keys && b <= f.Keys && a !! b
    ensures Total(f, a + b) == Total(f, a) + Total(f, b)
    decreases |a|
  {
    if a == {} {
      assert a + b == b;
    } else {
      var t :| t in a;
      var less := a - {t};
      assert a + b - {t} == less + b;
      TotalRemove(f, a, t);
      TotalRemove(f, a + b, t);
      TotalUnion(f, less, b);
    }
  }

  lemma {:induction false} TotalNone<X>(f: map<Tile, seq<X>>, s: set<Tile>)
    requires s <= f.Keys && forall t :: t in s ==> f[t] == []
    ensures Total(f, s) == multiset{}
    decreases |s|
  {
    if s != {} {
      var t :| t in s;
      TotalRemove(f, s, t);
      TotalNone(f, s - {t});
    }
  }

  /** The same over a list of different tiles. */
  ghost function Sum<X>(f: map<Tile, seq<X>>, s: seq<Tile>): multiset<X>
    requires forall k :: 0 <= k < |s| ==> s[k] in f
  {
    if s == [] then multiset{} else Sum(f, s[..|s| - 1]) + multiset(f[s[|s| - 1]])
  }

  lemma {:induction false} TotalOfList<X>(f: map<Tile, seq<X>>, s: seq<Tile>)
    requires Distinct(s) && forall k :: 0 <= k < |s| ==> s[k] in f
    ensures Members(s) <= f.Keys && Total(f, Members(s)) == Sum(f, s)
    decreases |s|
  {
    if s != [] {
      var n := |s| - 1;
      TotalOfList(f, s[..n]);
      assert s == s[..n] + [s[n]];
      MembersSnoc(s[..n], s[n]);
      assert s[n] !in Members(s[..n]);
      TotalRemove(f, Members(s), s[n]);
      assert Members(s) - {s[n]} == Members(s[..n]);
    }
  }

  lemma {:induction false} SumFromFirst<X>(f: map<Tile, seq<X>>, s: seq<Tile>)
    requires s != [] && forall k :: 0 <= k < |s| ==> s[k] in f
    ensures Sum(f, s) == multiset(f[s[0]]) + Sum(f, s[1..])
  {
    var n := |s| - 1;
    if n == 0 {
      assert s[..0] == [] && s[1..] == [];
    } else {
      var init, tail := s[..n], s[1..];
      SumFromFirst(f, init);
      assert tail != [] && tail[|tail| - 1] == s[n] && tail[..|tail| - 1] == init[1..];
      assert Sum(f, tail) == Sum(f, tail[..|tail| - 1]) + multiset(f[s[n]]);
    }
  }

  lemma {:induction false} SumSame<X>(f: map<Tile, seq<X>>, g: map<Tile, seq<X>>, s: seq<Tile>)
    requires forall k :: 0 <= k < |s| ==> s[k] in f && s[k] in g && f[s[k]] == g[s[k]]
    ensures Sum(f, s) == Sum(g, s)
  {
    if s != [] { SumSame(f, g, s[..|s| - 1]); }
  }

  lemma {:induction false} SumEmpty<X>(f: map<Tile, seq<X>>, s: seq<Tile>)
    requires forall k :: 0 <= k < |s| ==> s[k] in f
    ensures Sum(f, s) == multiset{} <==> forall k :: 0 <= k < |s| ==> f[s[k]] == []
  {
    if s != [] {
      var n := |s| - 1;
      SumEmpty(f, s[..n]);
      assert |multiset(f[s[n]])| == |f[s[n]]|;
      assert (forall k :: 0 <= k < |s| ==> f[s[k]] == []) <==>
        f[s[n]] == [] && forall k :: 0 <= k < n ==> f[s[..n][k]] == [];
    }
  }

  /** Nothing is there exactly when no tile has any. */
  lemma TotalEmpty<X>(f: map<Tile, seq<X>>, s: set<Tile>)
    requires s <= f.Keys
    ensures Total(f, s) == multiset{} <==> forall t :: t in s ==> f[t] == []
  {
    if t :| t in s && f[t] != [] {
      TotalRemove(f, s, t);
      assert f[t][0] in multiset(f[t]);
    } else {
      TotalNone(f, s);
    }
  }

  // ----- the shares of a split make up the whole -----

  ghost function Shares(sites: seq<Site>, splitMap: SplitMap, n: nat): multiset<Site> {
    if n == 0 then multiset{} else Shares(sites, splitMap, n - 1) + multiset(Share(sites, splitMap, n - 1))
  }

  lemma {:induction false} SharesSnoc(sites: seq<Site>, s: Site, splitMap: SplitMap, n: nat)
    ensures Shares(sites + [s], splitMap, n) ==
      Shares(sites, splitMap, n) + if Placed(s, splitMap, n) then multiset{s} else multiset{}
  {
    if n > 0 {
      SharesSnoc(sites, s, splitMap, n - 1);
      assert (sites + [s])[..|sites|] == sites;
    }
  }

  lemma {:induction false} NoShares(splitMap: SplitMap, n: nat)
    ensures Shares([], splitMap, n) == multiset{}
  {
    if n > 0 { NoShares(splitMap, n - 1); }
  }

  lemma {:induction false} SharesAreAll(sites: seq<Site>, splitMap: SplitMap, n: nat)
    requires AllPlaced(sites, splitMap, n)
    ensures Shares(sites, splitMap, n) == multiset(sites)
  {
    if sites == [] {
      NoShares(splitMap, n);
    } else {
      var last := |sites| - 1;
      SharesAreAll(sites[..last], splitMap, n);
      SharesSnoc(sites[..last], sites[last], splitMap, n);
      assert sites == sites[..last] + [sites[last]];
    }
  }

  // ----- roots and sites of the whole mesh -----

  ghost function Roots(h: Contents): map<Tile, seq<int>> { map t | t in h :: h[t].rootPkeys }

  ghost function SitesIn(h: Contents): map<Tile, seq<Site>> { map t | t in h :: h[t].sites }

  ghost function AllRoots(h: Contents): multiset<int> { Total(Roots(h), h.Keys) }

  ghost function AllSites(h: Contents): multiset<Site> { Total(SitesIn(h), h.Keys) }

  /** No site stands in a tile that counts as empty. */
  ghost predicate EmptiesBare(h: Contents, empty: int) { forall t :: t in h && h[t].typ == empty ==> h[t].sites == [] }

  /** New empty tiles add nothing. */
  lemma LinesAddNothing(h: Contents, now: Contents, empty: int)
    requires Kept(h, now) && forall t :: t in now && t !in h ==> now[t].rootPkeys == [] && now[t].sites == []
    ensures AllRoots(now) == AllRoots(h) && AllSites(now) == AllSites(h)
    ensures EmptiesBare(h, empty) ==> EmptiesBare(now, empty)
  {
    var more := now.Keys - h.Keys;
    assert now.Keys == h.Keys + more;
    TotalUnion(Roots(now), h.Keys, more);
    TotalUnion(SitesIn(now), h.Keys, more);
    TotalSame(Roots(now), Roots(h), h.Keys);
    TotalSame(SitesIn(now), SitesIn(h), h.Keys);
    TotalNone(Roots(now), more);
    TotalNone(SitesIn(now), more);
  }

  // ----- splitting -----

  lemma {:induction false} SumOfShares(h: Contents, now: Contents, ray: seq<Tile>, types: seq<int>,
      splitMap: SplitMap, n: nat)
    requires n <= |ray| <= |types| && (forall k :: 0 <= k < |ray| ==> ray[k] in h)
      && RaySplit(h, ray, types, splitMap, now)
    ensures |ray| > 0 ==> Sum(SitesIn(now), ray[..n]) == Shares(h[ray[0]].sites, splitMap, n)
  {
    if n > 0 {
      SumOfShares(h, now, ray, types, splitMap, n - 1);
      assert ray[..n][..n - 1] == ray[..n - 1];
    }
  }

  lemma SplitRoots(h: Contents, ray: seq<Tile>, types: seq<int>, splitMap: SplitMap, now: Contents)
    requires |ray| <= |types| && (forall k :: 0 <= k < |ray| ==> ray[k] in h) && RaySplit(h, ray, types, splitMap, now)
    ensures AllRoots(now) == AllRoots(h)
  {
    hide Elements, Share;
    forall t | t in h ensures now[t].rootPkeys == h[t].rootPkeys {
      if t in ray {
        var k :| 0 <= k < |ray| && ray[k] == t;
      }
    }
    TotalSame(Roots(now), Roots(h), h.Keys);
  }

  lemma OutsideRay(h: Contents, ray: seq<Tile>, types: seq<int>, splitMap: SplitMap, now: Contents)
    requires |ray| <= |types| && (forall k :: 0 <= k < |ray| ==> ray[k] in h) && RaySplit(h, ray, types, splitMap, now)
    ensures Members(ray) <= h.Keys && now.Keys == h.Keys
    ensures Total(SitesIn(now), h.Keys - Members(ray)) == Total(SitesIn(h), h.Keys - Members(ray))
  {
    var rest := h.Keys - Members(ray);
    forall t | t in rest ensures now[t] == h[t] {
      assert t !in ray by {
        forall k | 0 <= k < |ray| ensures ray[k] != t { assert ray[k] in Members(ray); }
      }
    }
    hide RaySplit;
    TotalSame(SitesIn(now), SitesIn(h), rest);
  }

  /** What the tiles of a split hold before and after: the sites of all but the first are gone. */
  lemma RayTotals(h: Contents, ray: seq<Tile>, types: seq<int>, splitMap: SplitMap, now: Contents, empty: int)
    requires |ray| <= |types| && CanSplit(h, ray, splitMap, empty) && RaySplit(h, ray, types, splitMap, now)
    requires Distinct(ray)
    ensures Members(ray) <= h.Keys && now.Keys == h.Keys
    ensures Total(SitesIn(h), Members(ray)) == Total(SitesIn(now), Members(ray)) + Sum(SitesIn(h), ray[1..])
  {
    SumOfShares(h, now, ray, types, splitMap, |ray|);
    SharesAreAll(h[ray[0]].sites, splitMap, |ray|);
    hide RaySplit, AllPlaced, Distinct;
    assert ray[..|ray|] == ray;
    TotalOfList(SitesIn(h), ray);
    TotalOfList(SitesIn(now), ray);
    SumFromFirst(SitesIn(h), ray);
  }

  /** Splitting one tile keeps all root keys and loses exactly the sites of the tiles it takes over. */
  lemma SplitLoses(h: Contents, ray: seq<Tile>, types: seq<int>, splitMap: SplitMap, now: Contents, empty: int)
    requires |ray| <= |types| && CanSplit(h, ray, splitMap, empty) && RaySplit(h, ray, types, splitMap, now)
    requires Distinct(ray)
    ensures AllRoots(now) == AllRoots(h)
    ensures AllSites(h) == AllSites(now) + Sum(SitesIn(h), ray[1..])
    ensures AllSites(now) == AllSites(h) <==> forall k :: 1 <= k < |ray| ==> h[ray[k]].sites == []
  {
    hide Distinct, AllRoots, AllPlaced, Total, Sum, Members, RaySplit;
    SplitRoots(h, ray, types, splitMap, now);
    OutsideRay(h, ray, types, splitMap, now);
    RayTotals(h, ray, types, splitMap, now, empty);
    var r, rest := Members(ray), h.Keys - Members(ray);
    assert h.Keys == rest + r;
    TotalUnion(SitesIn(h), rest, r);
    TotalUnion(SitesIn(now), rest, r);
    NoneBehind(h, ray);
  }

  lemma NoneBehind(h: Contents, ray: seq<Tile>)
    requires |ray| > 0 && forall k :: 0 <= k < |ray| ==> ray[k] in h
    ensures Sum(SitesIn(h), ray[1..]) == multiset{} <==> forall k :: 1 <= k < |ray| ==> h[ray[k]].sites == []
  {
    hide Sum;
    SumEmpty(SitesIn(h), ray[1..]);
    forall k | 1 <= k < |ray| ensures ray[1..][k - 1] == ray[k] {}
  }

  // ----- splitting a line, column by column -----

  ghost predicate InColumns(m: Lines<Tile>, c: nat, t: Tile) { exists r, j :: Inside(m, r, j) && j < c && m[r][j] == t }

  /** The outcome in the first c columns, the beginning in the others. */
  ghost function Cut(h: Contents, m: Lines<Tile>, now: Contents, c: nat): Contents
    requires h.Keys == now.Keys
  {
    map t | t in h :: if InColumns(m, c, t) then now[t] else h[t]
  }

  lemma CutAt(h: Contents, m: Lines<Tile>, now: Contents, c: nat, r: int, j: int)
    requires h.Keys == now.Keys == Tiles(m) && Injective(m) && Inside(m, r, j)
    ensures m[r][j] in h && Cut(h, m, now, c)[m[r][j]] == if j < c then now[m[r][j]] else h[m[r][j]]
  {
    InTiles(m, r, j);
    if InColumns(m, c, m[r][j]) {
      var a, b :| Inside(m, a, b) && b < c && m[a][b] == m[r][j];
    }
  }

  /** A tile and its place. */
  lemma PlaceOf(m: Lines<Tile>, t: Tile) returns (r: int, j: int)
    requires t in Tiles(m)
    ensures Inside(m, r, j) && m[r][j] == t
  {
    r, j :| 0 <= r < |m| && 0 <= j < |m[r]| && m[r][j] == t;
  }

  lemma CutSplit(h: Contents, m: Lines<Tile>, i: nat, c: nat, w: nat, typ: int, types: seq<int>, splitMap: SplitMap,
      now: Contents)
    requires Injective(m) && LineSplit(h, m, i, w, typ, types, splitMap, now) && c <= w
    ensures LineSplit(h, m, i, c, typ, types, splitMap, Cut(h, m, now, c))
  {
    var mid := Cut(h, m, now, c);
    forall r, j | Inside(m, r, j) ensures PartAt(h, m, i, c, typ, types, splitMap, mid, r, j) {
      PartOf(h, m, i, w, typ, types, splitMap, now, r, j);
      CutAt(h, m, now, c, r, j);
      hide BecomesPart, Injective, LineSplit, Cut;
    }
  }

  /** A tile of the column being split, from one cut to the next. */
  lemma CutPart(h: Contents, m: Lines<Tile>, i: nat, c: nat, w: nat, typ: int, types: seq<int>, splitMap: SplitMap,
      now: Contents, k: nat)
    requires Rectangular(m) && Injective(m) && i + k < |m| && c < |m[0]| && c < w && k < |types|
    requires LineSplit(h, m, i, w, typ, types, splitMap, now) && m[i][c] in h && h[m[i][c]].typ == typ
    ensures var t, mid, nxt := m[i + k][c], Cut(h, m, now, c), Cut(h, m, now, c + 1);
      t in h && mid[m[i][c]] == h[m[i][c]] && BecomesPart(mid[t], h[m[i][c]], splitMap, k, types[k], nxt[t])
  {
    assert Inside(m, i + k, c) && Inside(m, i, c);
    PartOf(h, m, i, w, typ, types, splitMap, now, i + k, c);
    CutAt(h, m, now, c, i + k, c);
    CutAt(h, m, now, c + 1, i + k, c);
    CutAt(h, m, now, c, i, c);
    hide LineSplit, Injective, Rectangular, Cut, BecomesPart;
  }

  /** A tile outside it. */
  lemma CutOther(h: Contents, m: Lines<Tile>, i: nat, c: nat, w: nat, typ: int, types: seq<int>, splitMap: SplitMap,
      now: Contents, t: Tile)
    requires Rectangular(m) && Injective(m) && i < |m| && c < |m[0]| && c < w
    requires LineSplit(h, m, i, w, typ, types, splitMap, now) && t in h && t !in Ray(m, i, c, |types|)
    ensures Cut(h, m, now, c + 1)[t] == Cut(h, m, now, c)[t]
  {
    var r, j := PlaceOf(m, t);
    CutAt(h, m, now, c, r, j);
    CutAt(h, m, now, c + 1, r, j);
    PartOf(h, m, i, w, typ, types, splitMap, now, r, j);
    InRay(m, i, c, |types|, r, j);
    hide LineSplit, Injective, Rectangular, Cut, BecomesPart, Ray;
  }

  lemma CutParts(h: Contents, m: Lines<Tile>, i: nat, c: nat, w: nat, typ: int, types: seq<int>, splitMap: SplitMap,
      now: Contents)
    requires Rectangular(m) && Injective(m) && i < |m| && c < |m[0]| && c < w && |types| > 0
    requires LineSplit(h, m, i, w, typ, types, splitMap, now) && m[i][c] in h && h[m[i][c]].typ == typ
    ensures var ray, mid, nxt := Ray(m, i, c, |types|), Cut(h, m, now, c), Cut(h, m, now, c + 1);
      0 < |ray| <= |types|
      && forall k :: 0 <= k < |ray| ==>
        ray[k] in mid && BecomesPart(mid[ray[k]], mid[ray[0]], splitMap, k, types[k], nxt[ray[k]])
  {
    var ray, mid, nxt := Ray(m, i, c, |types|), Cut(h, m, now, c), Cut(h, m, now, c + 1);
    hide LineSplit, BecomesPart, Cut, Injective, Tiles;
    forall k | 0 <= k < |ray|
      ensures ray[k] in mid && ray[k] in nxt && ray[0] in mid
      ensures BecomesPart(mid[ray[k]], mid[ray[0]], splitMap, k, types[k], nxt[ray[k]])
    {
      CutRayPart(h, m, i, c, w, typ, types, splitMap, now, k);
    }
  }

  /** Tile k of the ray, from one cut to the next. */
  lemma CutRayPart(h: Contents, m: Lines<Tile>, i: nat, c: nat, w: nat, typ: int, types: seq<int>, splitMap: SplitMap,
      now: Contents, k: nat)
    requires Rectangular(m) && Injective(m) && i < |m| && c < |m[0]| && c < w && k < |Ray(m, i, c, |types|)|
    requires LineSplit(h, m, i, w, typ, types, splitMap, now) && m[i][c] in h && h[m[i][c]].typ == typ
    ensures var ray, mid, nxt := Ray(m, i, c, |types|), Cut(h, m, now, c), Cut(h, m, now, c + 1);
      ray[k] in mid && ray[k] in nxt && ray[0] in mid
      && BecomesPart(mid[ray[k]], mid[ray[0]], splitMap, k, types[k], nxt[ray[k]])
  {
    CutKeys(h, m, now, c);
    CutPart(h, m, i, c, w, typ, types, splitMap, now, k);
    hide LineSplit, BecomesPart, Cut, Injective, Tiles;
  }

  /** From one cut to the next, a column with a tile to split is split. */
  lemma CutRay(h: Contents, m: Lines<Tile>, i: nat, c: nat, w: nat, typ: int, types: seq<int>, splitMap: SplitMap,
      now: Contents)
    requires Rectangular(m) && Injective(m) && i < |m| && c < |m[0]| && c < w && |types| > 0
    requires LineSplit(h, m, i, w, typ, types, splitMap, now) && m[i][c] in h && h[m[i][c]].typ == typ
    ensures var ray, mid := Ray(m, i, c, |types|), Cut(h, m, now, c);
      |ray| <= |types| && (forall k :: 0 <= k < |ray| ==> ray[k] in mid)
      && RaySplit(mid, ray, types, splitMap, Cut(h, m, now, c + 1))
  {
    var ray, mid, nxt := Ray(m, i, c, |types|), Cut(h, m, now, c), Cut(h, m, now, c + 1);
    CutParts(h, m, i, c, w, typ, types, splitMap, now);
    CutKeys(h, m, now, c);
    hide LineSplit, BecomesPart, Cut, Injective, Rectangular, Ray, Tiles;
    forall t | t in mid && t !in ray ensures nxt[t] == mid[t] {
      CutOther(h, m, i, c, w, typ, types, splitMap, now, t);
    }
  }

  lemma CutKeys(h: Contents, m: Lines<Tile>, now: Contents, c: nat)
    requires h.Keys == now.Keys
    ensures Cut(h, m, now, c).Keys == h.Keys && Cut(h, m, now, c + 1).Keys == h.Keys
  {
  }

  lemma CutSkip(h: Contents, m: Lines<Tile>, i: nat, c: nat, w: nat, typ: int, types: seq<int>, splitMap: SplitMap,
      now: Contents)
    requires Rectangular(m) && Injective(m) && i < |m| && c < |m[0]| && c < w
    requires LineSplit(h, m, i, w, typ, types, splitMap, now) && m[i][c] in h && h[m[i][c]].typ != typ
    ensures Cut(h, m, now, c + 1) == Cut(h, m, now, c)
  {
    forall t | t in h ensures Cut(h, m, now, c + 1)[t] == Cut(h, m, now, c)[t] {
      var r, j := PlaceOf(m, t);
      CutAt(h, m, now, c, r, j);
      CutAt(h, m, now, c + 1, r, j);
      PartOf(h, m, i, w, typ, types, splitMap, now, r, j);
    }
  }

  /** The tiles that splitting the first c columns of a line takes over. */
  ghost function Consumed(h: Contents, m: Lines<Tile>, i: nat, c: nat, typ: int, n: nat): set<Tile> {
    set r, j | 0 <= r < |m| && 0 <= j < |m[r]| && i < r < i + n && j < c && TypeAt(h, m, i, j) == Some(typ)
      && m[r][j] in h :: m[r][j]
  }

  /** All root keys are there, and all sites but some. */
  ghost predicate Loses(h: Contents, now: Contents, lost: multiset<Site>) {
    AllRoots(now) == AllRoots(h) && AllSites(h) == AllSites(now) + lost
  }

  lemma CutNothing(h: Contents, m: Lines<Tile>, i: nat, now: Contents, typ: int, n: nat)
    requires h.Keys == now.Keys
    ensures Consumed(h, m, i, 0, typ, n) == {}
    ensures Loses(h, Cut(h, m, now, 0), Total(SitesIn(h), {}))
  {
    assert Cut(h, m, now, 0) == h;
  }

  lemma ConsumedIn(h: Contents, m: Lines<Tile>, i: nat, c: nat, typ: int, n: nat)
    ensures Consumed(h, m, i, c, typ, n) <= h.Keys
  {
  }

  lemma {:induction false} CutLoses(h: Contents, m: Lines<Tile>, i: nat, c: nat, typ: int, types: seq<int>,
      splitMap: SplitMap, now: Contents, empty: int)
    requires Rectangular(m) && Injective(m) && i < |m| && c <= |m[0]| && |types| > 0
    requires LineSplit(h, m, i, |m[0]|, typ, types, splitMap, now)
    requires CanSplitLine(h, m, i, |m[0]|, typ, |types|, splitMap, empty)
    ensures Consumed(h, m, i, c, typ, |types|) <= h.Keys
    ensures Loses(h, Cut(h, m, now, c), Total(SitesIn(h), Consumed(h, m, i, c, typ, |types|)))
  {
    hide Injective, InColumns, AllRoots, AllSites, Loses, CanSplitLine, Consumed, Total;
    ConsumedIn(h, m, i, c, typ, |types|);
    if c == 0 {
      CutNothing(h, m, i, now, typ, |types|);
    } else {
      CutLoses(h, m, i, c - 1, typ, types, splitMap, now, empty);
      CutSplit(h, m, i, c - 1, |m[0]|, typ, types, splitMap, now);
      assert Inside(m, i, c - 1) && m[i][c - 1] in Tiles(m);
      if h[m[i][c - 1]].typ == typ {
        CutColumn(h, m, i, c - 1, typ, types, splitMap, now, empty);
      } else {
        CutSkip(h, m, i, c - 1, |m[0]|, typ, types, splitMap, now);
        ConsumedSkip(h, m, i, c - 1, typ, |types|);
      }
    }
  }

  lemma ConsumedSkip(h: Contents, m: Lines<Tile>, i: nat, c: nat, typ: int, n: nat)
    requires TypeAt(h, m, i, c) != Some(typ)
    ensures Consumed(h, m, i, c + 1, typ, n) == Consumed(h, m, i, c, typ, n)
  {
  }

  /** One more column: the tiles behind the one that is split. */
  lemma ConsumedMore(h: Contents, m: Lines<Tile>, i: nat, c: nat, typ: int, n: nat)
    requires Rectangular(m) && Injective(m) && h.Keys == Tiles(m) && i < |m| && c < |m[0]| && n > 0
    requires TypeAt(h, m, i, c) == Some(typ)
    ensures |Ray(m, i, c, n)| > 0
    ensures Consumed(h, m, i, c + 1, typ, n) == Consumed(h, m, i, c, typ, n) + Members(Ray(m, i, c, n)[1..])
    ensures Consumed(h, m, i, c, typ, n) !! Members(Ray(m, i, c, n)[1..])
  {
    var more := Members(Ray(m, i, c, n)[1..]);
    hide Rectangular, Injective, Tiles, TypeAt, Members, Consumed, Ray;
    forall t | t in Consumed(h, m, i, c + 1, typ, n) ensures t in Consumed(h, m, i, c, typ, n) || t in more {
      ConsumedBefore(h, m, i, c, typ, n, t);
    }
    forall t | t in Consumed(h, m, i, c, typ, n) ensures t in Consumed(h, m, i, c + 1, typ, n) {
      ConsumedGrows(h, m, i, c, typ, n, t);
    }
    forall t | t in more ensures t in Consumed(h, m, i, c + 1, typ, n) && t !in Consumed(h, m, i, c, typ, n) {
      ConsumedNow(h, m, i, c, typ, n, t);
    }
  }

  lemma ConsumedBefore(h: Contents, m: Lines<Tile>, i: nat, c: nat, typ: int, n: nat, t: Tile)
    requires Rectangular(m) && i < |m| && c < |m[0]| && n > 0 && t in Consumed(h, m, i, c + 1, typ, n)
    ensures |Ray(m, i, c, n)| > 0 && (t in Consumed(h, m, i, c, typ, n) || t in Members(Ray(m, i, c, n)[1..]))
  {
    hide TypeAt;
    var r, j :| 0 <= r < |m| && 0 <= j < |m[r]| && i < r < i + n && j < c + 1 && TypeAt(h, m, i, j) == Some(typ)
      && m[r][j] in h && m[r][j] == t;
    assert j == c ==> Ray(m, i, c, n)[1..][r - i - 1] == t;
  }

  lemma ConsumedGrows(h: Contents, m: Lines<Tile>, i: nat, c: nat, typ: int, n: nat, t: Tile)
    requires t in Consumed(h, m, i, c, typ, n)
    ensures t in Consumed(h, m, i, c + 1, typ, n)
  {
    hide TypeAt;
  }

  lemma ConsumedNow(h: Contents, m: Lines<Tile>, i: nat, c: nat, typ: int, n: nat, t: Tile)
    requires Rectangular(m) && Injective(m) && h.Keys == Tiles(m) && i < |m| && c < |m[0]| && n > 0
    requires TypeAt(h, m, i, c) == Some(typ) && |Ray(m, i, c, n)| > 0 && t in Members(Ray(m, i, c, n)[1..])
    ensures t in Consumed(h, m, i, c + 1, typ, n) && t !in Consumed(h, m, i, c, typ, n)
  {
    hide TypeAt;
    var k :| 0 <= k < |Ray(m, i, c, n)[1..]| && Ray(m, i, c, n)[1..][k] == t;
    assert m[i + k + 1][c] == t && Inside(m, i + k + 1, c);
    InTiles(m, i + k + 1, c);
    forall r, j | Inside(m, r, j) ensures m[r][j] == t ==> j == c {
      SameTile(m, r, j, i + k + 1, c);
    }
  }

  lemma CutColumn(h: Contents, m: Lines<Tile>, i: nat, c: nat, typ: int, types: seq<int>, splitMap: SplitMap,
      now: Contents, empty: int)
    requires Rectangular(m) && Injective(m) && i < |m| && c < |m[0]| && |types| > 0
    requires LineSplit(h, m, i, |m[0]|, typ, types, splitMap, now)
    requires CanSplitLine(h, m, i, |m[0]|, typ, |types|, splitMap, empty)
    requires Inside(m, i, c) && m[i][c] in h && h[m[i][c]].typ == typ
    requires h.Keys == now.Keys && LineSplit(h, m, i, c, typ, types, splitMap, Cut(h, m, now, c))
    requires Consumed(h, m, i, c, typ, |types|) <= h.Keys
    requires Loses(h, Cut(h, m, now, c), Total(SitesIn(h), Consumed(h, m, i, c, typ, |types|)))
    ensures Consumed(h, m, i, c + 1, typ, |types|) <= h.Keys
    ensures Loses(h, Cut(h, m, now, c + 1), Total(SitesIn(h), Consumed(h, m, i, c + 1, typ, |types|)))
  {
    hide LineSplit, Injective, Rectangular, Cut, RaySplit, AllRoots, AllSites, Ray, CanSplit, Tiles, Consumed, Total,
      Members, Sum;
    var mid, ray := Cut(h, m, now, c), Ray(m, i, c, |types|);
    SplitHolds(h, m, i, |m[0]|, typ, types, splitMap, now);
    CutRay(h, m, i, c, |m[0]|, typ, types, splitMap, now);
    CanSplitSame(h, m, i, c, typ, types, splitMap, mid, empty);
    RayDistinct(m, i, c, |types|);
    forall k | 0 <= k < |ray| ensures ray[k] in h && ray[k] in mid && mid[ray[k]] == h[ray[k]] {
      RayUntouched(h, m, i, c, |types|, now, k);
    }
    TailSame(h, mid, ray);
    SplitLoses(mid, ray, types, splitMap, Cut(h, m, now, c + 1), empty);
    ConsumedMore(h, m, i, c, typ, |types|);
    ConsumedIn(h, m, i, c + 1, typ, |types|);
    TotalUnion(SitesIn(h), Consumed(h, m, i, c, typ, |types|), Members(ray[1..]));
  }

  lemma SplitHolds(h: Contents, m: Lines<Tile>, i: nat, c: nat, typ: int, types: seq<int>, splitMap: SplitMap,
      now: Contents)
    requires LineSplit(h, m, i, c, typ, types, splitMap, now)
    ensures h.Keys == now.Keys == Tiles(m)
  {
  }

  /** The tiles of a list but the first, where they are as they were. */
  lemma TailSame(h: Contents, mid: Contents, ray: seq<Tile>)
    requires ray != [] && Distinct(ray)
    requires forall k :: 0 <= k < |ray| ==> ray[k] in h && ray[k] in mid && mid[ray[k]] == h[ray[k]]
    ensures Members(ray[1..]) <= h.Keys
    ensures Sum(SitesIn(mid), ray[1..]) == Total(SitesIn(h), Members(ray[1..]))
  {
    hide Members, Sum, Total;
    SumSame(SitesIn(mid), SitesIn(h), ray[1..]);
    TotalOfList(SitesIn(h), ray[1..]);
  }

  lemma RayUntouched(h: Contents, m: Lines<Tile>, i: nat, c: nat, n: nat, now: Contents, k: nat)
    requires Rectangular(m) && Injective(m) && i < |m| && c < |m[0]| && n > 0 && h.Keys == now.Keys == Tiles(m)
    requires k < |Ray(m, i, c, n)|
    ensures var t := Ray(m, i, c, n)[k]; t in h && t in Cut(h, m, now, c) && Cut(h, m, now, c)[t] == h[t]
  {
    assert Inside(m, i + k, c);
    CutAt(h, m, now, c, i + k, c);
    hide Cut, Injective;
  }

  /** Splitting a line keeps all root keys and loses exactly the sites of the tiles it takes over. */
  lemma LineLoses(h: Contents, m: Lines<Tile>, i: nat, typ: int, types: seq<int>, splitMap: SplitMap, now: Contents,
      empty: int)
    requires Rectangular(m) && Injective(m) && i < |m| && |types| > 0
    requires LineSplit(h, m, i, |m[0]|, typ, types, splitMap, now)
    requires CanSplitLine(h, m, i, |m[0]|, typ, |types|, splitMap, empty)
    ensures Consumed(h, m, i, |m[0]|, typ, |types|) <= h.Keys
    ensures Loses(h, now, Total(SitesIn(h), Consumed(h, m, i, |m[0]|, typ, |types|)))
    ensures AllSites(now) == AllSites(h) <==>
      forall t :: t in Consumed(h, m, i, |m[0]|, typ, |types|) ==> h[t].sites == []
  {
    hide Injective, AllRoots, AllSites, CanSplitLine, PartAt, Consumed, Total;
    CutLoses(h, m, i, |m[0]|, typ, types, splitMap, now, empty);
    forall t | t in h ensures Cut(h, m, now, |m[0]|)[t] == now[t] {
      var r, j := PlaceOf(m, t);
      CutAt(h, m, now, |m[0]|, r, j);
    }
    assert Cut(h, m, now, |m[0]|) == now;
    TotalEmpty(SitesIn(h), Consumed(h, m, i, |m[0]|, typ, |types|));
  }

  /** A tile that only appeared with the new lines is empty in every respect. */
  lemma NewIsBare(h: Contents, m: Lines<Tile>, i: nat, e: Lines<Tile>, mid: Contents, empty: int, t: Tile)
    requires LinesIn(h, m, i, e, mid, empty) && t in Tiles(InsertLines(m, i, e)) && t !in h
    ensures t in mid && mid[t].rootPkeys == [] && mid[t].sites == []
  {
    var w: Lines<Tile> := InsertLines(m, i, e);
    var r, j := PlaceOf(w, t);
    InsertLinesAt(m, i, e, r);
    if r <= i || r > i + |e| {
      InTiles(m, if r <= i then r else r - |e|, j);
    } else {
      assert EmptyLine(mid, e[r - i - 1], |m[0]|, empty);
      assert |w[r]| == |m[0]|;
    }
  }

  /** Lines put in and the line split: lost are the sites of the tiles taken over, none of them new. */
  lemma DirLoses(h: Contents, m: Lines<Tile>, i: nat, e: Lines<Tile>, mid: Contents, typ: int, types: seq<int>,
      splitMap: SplitMap, now: Contents, empty: int)
    requires LinesIn(h, m, i, e, mid, empty) && Injective(InsertLines(m, i, e)) && |types| > 0
    requires LineSplit(mid, InsertLines(m, i, e), i, |m[0]|, typ, types, splitMap, now)
    requires CanSplitLine(mid, InsertLines(m, i, e), i, |m[0]|, typ, |types|, splitMap, empty)
    ensures Consumed(mid, InsertLines(m, i, e), i, |m[0]|, typ, |types|) <= mid.Keys
    ensures Loses(h, now, Total(SitesIn(mid), Consumed(mid, InsertLines(m, i, e), i, |m[0]|, typ, |types|)))
    ensures AllSites(now) == AllSites(h) <==>
      forall t :: t in Consumed(mid, InsertLines(m, i, e), i, |m[0]|, typ, |types|) ==> mid[t].sites == []
  {
    forall t | t in mid && t !in h ensures mid[t].rootPkeys == [] && mid[t].sites == [] {
      NewIsBare(h, m, i, e, mid, empty, t);
    }
    hide Injective, CanSplitLine, AllRoots, AllSites, EmptiesBare, InsertLines, Consumed, Total;
    LinesAddNothing(h, mid, empty);
    LineLoses(mid, InsertLines(m, i, e), i, typ, types, splitMap, now, empty);
  }

  /** Close enough behind a tile of the type, counting the lines put in, no tile has a site. */
  ghost predicate BareBehind(h: Contents, m: Lines<Tile>, i: nat, typ: int, reach: int) {
    forall r, j :: Inside(m, r, j) && i < r < i + reach && TypeAt(h, m, i, j) == Some(typ) && m[r][j] in h ==>
      h[m[r][j]].sites == []
  }

  /** Whether sites are lost, in terms of the grid before. */
  lemma DirKeepsSites(h: Contents, m: Lines<Tile>, i: nat, e: Lines<Tile>, mid: Contents, typ: int, n: nat, empty: int)
    requires LinesIn(h, m, i, e, mid, empty)
    ensures BareBehind(h, m, i, typ, n - |e|) <==>
      forall t :: t in Consumed(mid, InsertLines(m, i, e), i, |m[0]|, typ, n) ==> mid[t].sites == []
  {
    hide Consumed, InsertLines, Kept;
    ConsumedIn(mid, InsertLines(m, i, e), i, |m[0]|, typ, n);
    if forall t :: t in Consumed(mid, InsertLines(m, i, e), i, |m[0]|, typ, n) ==> mid[t].sites == [] {
      forall r, j | Inside(m, r, j) && i < r < i + n - |e| && TypeAt(h, m, i, j) == Some(typ) && m[r][j] in h
        ensures h[m[r][j]].sites == []
      {
        TakenBehind(h, m, i, e, mid, typ, n, empty, r, j);
      }
    }
    if BareBehind(h, m, i, typ, n - |e|) {
      forall t | t in Consumed(mid, InsertLines(m, i, e), i, |m[0]|, typ, n) ensures mid[t].sites == [] {
        TakenIsBare(h, m, i, e, mid, typ, n, empty, t);
      }
    }
  }

  lemma TakenBehind(h: Contents, m: Lines<Tile>, i: nat, e: Lines<Tile>, mid: Contents, typ: int, n: nat, empty: int,
      r: int, j: int)
    requires LinesIn(h, m, i, e, mid, empty) && Inside(m, r, j) && i < r < i + n - |e|
    requires TypeAt(h, m, i, j) == Some(typ) && m[r][j] in h
    ensures m[r][j] in Consumed(mid, InsertLines(m, i, e), i, |m[0]|, typ, n) && mid[m[r][j]] == h[m[r][j]]
  {
    PlaceAfter(h, m, i, j, e, mid, empty);
    InsertLinesAt(m, i, e, r + |e|);
    hide InsertLines, TypeAt;
    var w: Lines<Tile> := InsertLines(m, i, e);
    assert w[r + |e|][j] == m[r][j];
  }

  lemma TakenIsBare(h: Contents, m: Lines<Tile>, i: nat, e: Lines<Tile>, mid: Contents, typ: int, n: nat, empty: int,
      t: Tile)
    requires LinesIn(h, m, i, e, mid, empty) && BareBehind(h, m, i, typ, n - |e|)
    requires t in Consumed(mid, InsertLines(m, i, e), i, |m[0]|, typ, n)
    ensures mid[t].sites == []
  {
    var w: Lines<Tile> := InsertLines(m, i, e);
    hide TypeAt, InsertLines;
    var r, j :| 0 <= r < |w| && 0 <= j < |w[r]| && i < r < i + n && j < |m[0]| && TypeAt(mid, w, i, j) == Some(typ)
      && w[r][j] in mid && w[r][j] == t;
    PlaceAfter(h, m, i, j, e, mid, empty);
    InsertLinesAt(m, i, e, r);
    if r <= i + |e| {
      assert EmptyLine(mid, e[r - i - 1], |m[0]|, empty);
    } else {
      InTiles(m, r - |e|, j);
      assert Inside(m, r - |e|, j);
    }
  }

  /** A line put in: nothing is lost. */
  lemma InsertKeeps(h: Contents, now: Contents, line: seq<Tile>, empty: int)
    requires Kept(h, now) && EmptyLine(now, line, |line|, empty) && now.Keys == h.Keys + Members(line)
    ensures Loses(h, now, multiset{})
    ensures EmptiesBare(h, empty) ==> EmptiesBare(now, empty)
  {
    forall t | t in now && t !in h ensures now[t].rootPkeys == [] && now[t].sites == [] {
      MemberIs(line, t);
    }
    hide AllRoots, AllSites;
    LinesAddNothing(h, now, empty);
  }

  // ----- merging -----

  /** One tile merged into another; the merged tile comes last, and is empty afterwards. */
  ghost function Merged(h: Contents, t: Tile, into: Tile, empty: int): Contents
    requires t in h && into in h
  {
    var a, b := h[t], h[into];
    h[into := b.(rootPkeys := b.rootPkeys + a.rootPkeys, phyPkeys := b.phyPkeys + a.phyPkeys,
      sites := b.sites + a.sites)]
     [t := Data([], [], empty, [], a.split)]
  }

  lemma TotalMoved<X>(f: map<Tile, seq<X>>, g: map<Tile, seq<X>>, s: set<Tile>, t: Tile, into: Tile)
    requires s <= f.Keys && s <= g.Keys && t in s && into in s && t != into
    requires g[t] == [] && g[into] == f[into] + f[t] && forall x :: x in s && x != t && x != into ==> g[x] == f[x]
    ensures Total(g, s) == Total(f, s)
  {
    var less := s - {t};
    assert multiset(g[into]) == multiset(f[into]) + multiset(f[t]) && multiset(g[t]) == multiset{};
    TotalRemove(f, s, t);
    TotalRemove(f, less, into);
    TotalRemove(g, s, t);
    TotalRemove(g, less, into);
    TotalSame(g, f, less - {into});
  }

  /** Merging loses neither roots nor sites, and leaves empty tiles bare unless it fills one. */
  lemma MergeKeeps(h: Contents, t: Tile, into: Tile, empty: int)
    requires t in h && into in h && t != into
    ensures AllRoots(Merged(h, t, into, empty)) == AllRoots(h) && AllSites(Merged(h, t, into, empty)) == AllSites(h)
    ensures EmptiesBare(h, empty) ==>
      (EmptiesBare(Merged(h, t, into, empty), empty) <==> h[into].typ != empty || h[t].sites == [])
  {
    var now := Merged(h, t, into, empty);
    assert now.Keys == h.Keys;
    hide Total, EmptiesBare;
    TotalMoved(Roots(h), Roots(now), h.Keys, t, into);
    TotalMoved(SitesIn(h), SitesIn(now), h.Keys, t, into);
    MergeBare(h, t, into, empty);
  }

  lemma MergeBare(h: Contents, t: Tile, into: Tile, empty: int)
    requires t in h && into in h && t != into
    ensures EmptiesBare(h, empty) ==>
      (EmptiesBare(Merged(h, t, into, empty), empty) <==> h[into].typ != empty || h[t].sites == [])
  {
    var now := Merged(h, t, into, empty);
    if EmptiesBare(h, empty) && h[into].typ == empty && h[t].sites != [] {
      assert now[into].sites != [];
    }
  }

  method MergeInto(tile: Tile, into: Tile, empty: int, ghost tiles: set<Tile>)
    requires tile in tiles && into in tiles && tile != into
    modifies tiles`rootPhyTilePkeys, tiles`phyTilePkeys, tiles`sites, tiles`tileTypePkey
    ensures ContentsOf(tiles) == Merged(old(ContentsOf(tiles)), tile, into, empty)
  {
    into.rootPhyTilePkeys := into.rootPhyTilePkeys + tile.rootPhyTilePkeys;
    into.phyTilePkeys := into.phyTilePkeys + tile.phyTilePkeys;
    into.sites := into.sites + tile.sites;
    tile.sites := [];
    tile.tileTypePkey := empty;
    tile.rootPhyTilePkeys := [];
    tile.phyTilePkeys := [];
  }

  lemma TypesMerged(tiles: set<Tile>, h: Contents, tile: Tile, into: Tile, empty: int)
    requires tile in h && into in h && h.Keys == tiles && tile != into
      && ContentsOf(tiles) == Merged(h, tile, into, empty)
    ensures tile.tileTypePkey == empty && forall x :: x in tiles && x != tile ==> x.tileTypePkey == h[x].typ
  {
    forall x | x in tiles ensures x.tileTypePkey == ContentsOf(tiles)[x].typ {}
  }

  /** A neighbour is another tile of the mesh. */
  lemma NeighbourOther(g: Links, m: Lines<Tile>, fwd: Direction, t: Tile, dir: Direction)
    requires IsMesh(g, m, fwd, NextDir(fwd)) && t in Tiles(m) && LinkOf(g, t, dir).Some?
    ensures LinkOf(g, t, dir).value in Tiles(m) && LinkOf(g, t, dir).value != t
  {
    var x, y := PlaceOf(m, t);
    Perpendicular(dir, fwd);
    hide LinksFit, Tiles, Injective, Along;
    var u, v := x + Along(dir, fwd), y + Along(dir, NextDir(fwd));
    LinkAt(g, m, fwd, NextDir(fwd), x, y, dir);
    InTiles(m, u, v);
    SameTile(m, x, y, u, v);
  }
}
