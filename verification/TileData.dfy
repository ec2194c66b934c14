/** utils/tile_splitter/grid.py: what tiles hold besides their links, and what splitting one tile
    does to it. The tiles of a split are the first few of the ray that starts at the tile; they lose
    their keys, get their types and a copy of the keys of the first, and then the sites are handed
    out by the split map. */
module TileData {
  import opened Sequences
  import opened Matrix
  import opened Mesh

  /** What a tile holds besides its links. */
  datatype Data = Data(rootPkeys: seq<int>, phyPkeys: seq<int>, typ: int, sites: seq<Site>, split: bool)

  ghost function DataOf(t: Tile): Data
    reads t`rootPhyTilePkeys, t`phyTilePkeys, t`tileTypePkey, t`sites, t`splitSites
  {
    Data(t.rootPhyTilePkeys, t.phyTilePkeys, t.tileTypePkey, t.sites, t.splitSites)
  }

  type Contents = map<Tile, Data>

  ghost function ContentsOf(tiles: set<Tile>): Contents
    reads tiles`rootPhyTilePkeys, tiles`phyTilePkeys, tiles`tileTypePkey, tiles`sites, tiles`splitSites
  {
    map t | t in tiles :: DataOf(t)
  }

  // ----- splitting one tile -----

  /** Site location to the index of the tile the site goes to. */
  type SplitMap = map<(int, int), nat>

  /** Links are no part of the contents. */
  twostate lemma SameContents(tiles: set<Tile>)
    requires forall t :: t in tiles ==>
      unchanged(t`rootPhyTilePkeys, t`phyTilePkeys, t`tileTypePkey, t`sites, t`splitSites)
    ensures ContentsOf(tiles) == old(ContentsOf(tiles))
  {
    forall t | t in tiles ensures DataOf(t) == old(DataOf(t)) {}
  }

  predicate GoesTo(s: Site, splitMap: SplitMap, k: nat) {
    (s.x, s.y) in splitMap && splitMap[(s.x, s.y)] == k
  }

  /** The sites that go to tile k, in order. */
  function Share(sites: seq<Site>, splitMap: SplitMap, k: nat): seq<Site> {
    if sites == [] then []
    else
      var last := sites[|sites| - 1];
      var rest := Share(sites[..|sites| - 1], splitMap, k);
      if GoesTo(last, splitMap, k) then rest + [last] else rest
  }

  predicate Placed(s: Site, splitMap: SplitMap, n: nat) { (s.x, s.y) in splitMap && splitMap[(s.x, s.y)] < n }

  ghost predicate AllPlaced(sites: seq<Site>, splitMap: SplitMap, n: nat) {
    forall k :: 0 <= k < |sites| ==> Placed(sites[k], splitMap, n)
  }

  /** The first n tiles from a place on, in the direction of the lines. */
  ghost function Ray(m: Lines<Tile>, i: nat, j: nat, n: nat): (ray: seq<Tile>)
    requires Rectangular(m) && i < |m| && j < |m[0]|
    ensures |ray| == Min(n, |m| - i)
  {
    seq(Min(n, |m| - i), k requires 0 <= k < Min(n, |m| - i) => m[i + k][j])
  }

  /** Every tile but the first must be empty, and every site must have a tile to go to. */
  ghost predicate CanSplit(h: Contents, ray: seq<Tile>, splitMap: SplitMap, empty: int) {
    && |ray| > 0 && (forall k :: 0 <= k < |ray| ==> ray[k] in h)
    && (forall k :: 1 <= k < |ray| ==> h[ray[k]].typ == empty)
    && AllPlaced(h[ray[0]].sites, splitMap, |ray|)
  }

  /** One tile of a split: it keeps its own root keys, lists the split tile's keys and gets its share
      of that tile's sites; what it held before is gone. */
  ghost predicate BecomesPart(was: Data, from: Data, splitMap: SplitMap, k: nat, typ: int, now: Data) {
    now.rootPkeys == was.rootPkeys && Elements(now.phyPkeys) == Elements(from.phyPkeys)
    && now.typ == typ && now.sites == Share(from.sites, splitMap, k) && now.split
  }

  /** Each site of the split tile is on the tile its place on the map says, as often as it was on the split tile, and
      no other site is there. */
  ghost predicate SitesGo(sites: seq<Site>, ray: seq<Tile>, splitMap: SplitMap, now: Contents) {
    forall k, s :: 0 <= k < |ray| ==>
      (ray[k] in now && multiset(now[ray[k]].sites)[s] ==
        if (s.x, s.y) in splitMap && splitMap[(s.x, s.y)] == k then multiset(sites)[s] else 0)
  }

  lemma {:induction false} ShareCounts(sites: seq<Site>, splitMap: SplitMap, k: nat, s: Site)
    ensures multiset(Share(sites, splitMap, k))[s] ==
      if (s.x, s.y) in splitMap && splitMap[(s.x, s.y)] == k then multiset(sites)[s] else 0
  {
    if sites != [] {
      var n := |sites| - 1;
      ShareCounts(sites[..n], splitMap, k, s);
      assert sites == sites[..n] + [sites[n]];
    }
  }

  lemma SitesAreSent(h: Contents, ray: seq<Tile>, types: seq<int>, splitMap: SplitMap, now: Contents)
    requires 0 < |ray| <= |types| && (forall k :: 0 <= k < |ray| ==> ray[k] in h)
    requires RaySplit(h, ray, types, splitMap, now)
    ensures SitesGo(h[ray[0]].sites, ray, splitMap, now)
  {
    hide Share, Elements;
    forall k, s | 0 <= k < |ray|
      ensures ray[k] in now
      ensures multiset(now[ray[k]].sites)[s] ==
        if (s.x, s.y) in splitMap && splitMap[(s.x, s.y)] == k then multiset(h[ray[0]].sites)[s] else 0
    {
      ShareCounts(h[ray[0]].sites, splitMap, k, s);
      assert BecomesPart(h[ray[k]], h[ray[0]], splitMap, k, types[k], now[ray[k]]);
    }
  }

  /** The contents after the first tile of the ray is split over the ray. */
  ghost predicate RaySplit(h: Contents, ray: seq<Tile>, types: seq<int>, splitMap: SplitMap, now: Contents)
    requires |ray| <= |types| && forall k :: 0 <= k < |ray| ==> ray[k] in h
  {
    && now.Keys == h.Keys
    && (forall t :: t in h && t !in ray ==> now[t] == h[t])
    && forall k :: 0 <= k < |ray| ==> BecomesPart(h[ray[k]], h[ray[0]], splitMap, k, types[k], now[ray[k]])
  }

  // ----- in place -----

  lemma ElementsSnoc(s: seq<int>, x: int)
    ensures Elements(s + [x]) == Elements(s) + {x}
  {
    forall y: int ensures y in Elements(s + [x]) <==> y in Elements(s) + {x} {
      assert y in s + [x] <==> y in s || y == x;
    }
  }

  /** A list of the members of a set, in some order. */
  method ListOf(s: set<int>) returns (r: seq<int>)
    ensures Elements(r) == s
  {
    var left := s;
    r := [];
    while left != {}
      invariant left <= s && Elements(r) == s - left
      decreases left
    {
      IntSetMember(left);
      var x: int :| x in left;
      ElementsSnoc(r, x);
      left := left - {x};
      r := r + [x];
    }
  }

  ghost function Cleared(h: Contents, s: seq<Tile>): Contents {
    map t | t in h :: if t in s then h[t].(phyPkeys := []) else h[t]
  }

  ghost predicate AllOfType(h: Contents, s: seq<Tile>, typ: int) {
    forall k :: 0 <= k < |s| ==> s[k] in h && h[s[k]].typ == typ
  }

  lemma TypeSnoc(h: Contents, s: seq<Tile>, k: nat, typ: int)
    requires k < |s| && s[k] in h && AllOfType(h, s[..k], typ)
    ensures AllOfType(h, s[..k + 1], typ) <==> h[s[k]].typ == typ
    ensures s[..k + 1] == s[..k] + [s[k]] && (k + 1 == |s| ==> s[..k + 1] == s)
    ensures h[s[k]].typ != typ ==> !AllOfType(h, s, typ)
  {
    assert s[..k + 1] == s[..k] + [s[k]];
    assert h[s[k]].typ == typ || (!AllOfType(h, s, typ) && !AllOfType(h, s[..k + 1], typ)) by {
      assert s[..k + 1][k] == s[k];
    }
  }

  lemma NoneCleared(h: Contents, typ: int)
    ensures h == Cleared(h, []) && AllOfType(h, [], typ)
  {
  }

  /** Clears the keys of one tile. */
  method Clear(t: Tile, ghost tiles: set<Tile>, ghost h: Contents, ghost s: seq<Tile>)
    requires t in tiles && ContentsOf(tiles) == Cleared(h, s)
    modifies t`phyTilePkeys
    ensures ContentsOf(tiles) == Cleared(h, s + [t])
  {
    t.phyTilePkeys := [];
  }

  /** Clearing keys leaves the type. */
  lemma TypeOf(t: Tile, tiles: set<Tile>, h: Contents, s: seq<Tile>)
    requires t in tiles && ContentsOf(tiles) == Cleared(h, s)
    ensures t in h && t.tileTypePkey == h[t].typ
  {
    assert DataOf(t) == ContentsOf(tiles)[t];
  }

  /** One step of the walk: the tile loses its keys. */
  method GatherOne(node: Tile, k: nat, n: nat, dir: Direction, ghost m: Lines<Tile>, ghost i: nat, ghost j: nat,
      ghost h: Contents)
      returns (next: Option<Tile>)
    requires IsMesh(Snapshot(Tiles(m)), m, dir, NextDir(dir)) && i < |m| && j < |m[0]| && k < |Ray(m, i, j, n)|
    requires node == Ray(m, i, j, n)[k]
    requires ContentsOf(Tiles(m)) == Cleared(h, Ray(m, i, j, n)[..k])
    modifies Tiles(m)`phyTilePkeys
    ensures ContentsOf(Tiles(m)) == Cleared(h, Ray(m, i, j, n)[..k + 1])
    ensures next == if k + 1 < |Ray(m, i, j, n)| then Some(Ray(m, i, j, n)[k + 1]) else None
  {
    hide LinksFit, Injective, Tiles, NextDir, Snapshot, ContentsOf, Cleared;
    ghost var ray := Ray(m, i, j, n);
    RayLink(m, i, j, n, k, dir);
    hide Ray, IsMesh;
    Clear(node, Tiles(m), h, ray[..k]);
    assert ray[..k + 1] == ray[..k] + [node];
    if k + 1 >= n || dir !in node.neighboors {
      return None;
    }
    return Some(node.neighboors[dir]);
  }

  /** The walk over the tiles of the split: each must be empty. */
  method Gather(tile: Tile, n: nat, dir: Direction, empty: int, ghost m: Lines<Tile>, ghost i: nat, ghost j: nat)
      returns (ok: bool, newTiles: seq<Tile>)
    requires Rectangular(m) && IsMesh(Snapshot(Tiles(m)), m, dir, NextDir(dir))
    requires i < |m| && j < |m[0]| && m[i][j] == tile && n > 0
    modifies Tiles(m)`phyTilePkeys
    ensures ok <==> AllOfType(old(ContentsOf(Tiles(m))), Ray(m, i, j, n), empty)
    ensures ok ==> newTiles == Ray(m, i, j, n)
    ensures ok ==> ContentsOf(Tiles(m)) == Cleared(old(ContentsOf(Tiles(m))), newTiles)
  {
    hide LinksFit, Injective, Tiles, NextDir, Snapshot, IsMesh, Rectangular, ContentsOf, Cleared, AllOfType;
    ghost var ray, h := Ray(m, i, j, n), ContentsOf(Tiles(m));
    newTiles := [];
    var node := Some(tile);
    RayLink(m, i, j, n, 0, dir);
    NoneCleared(h, empty);
    hide Ray, Inside, Min;
    while node.Some?
      invariant |newTiles| <= |ray| && newTiles == ray[..|newTiles|] && AllOfType(h, newTiles, empty)
      invariant node == if |newTiles| < |ray| then Some(ray[|newTiles|]) else None
      invariant ContentsOf(Tiles(m)) == Cleared(h, newTiles)
      decreases |ray| - |newTiles|
    {
      RayLink(m, i, j, n, |newTiles|, dir);
      TypeOf(node.value, Tiles(m), h, newTiles);
      TypeSnoc(h, ray, |newTiles|, empty);
      if node.value.tileTypePkey != empty {
        return false, newTiles;
      }
      var next := GatherOne(node.value, |newTiles|, n, dir, m, i, j, h);
      newTiles := newTiles + [node.value];
      node := next;
    }
    assert ray[..|ray|] == ray;
    ok := true;
  }

  /** Walking in the direction of the lines. */
  lemma RayLink(m: Lines<Tile>, i: nat, j: nat, n: nat, k: nat, dir: Direction)
    requires IsMesh(Snapshot(Tiles(m)), m, dir, NextDir(dir)) && i < |m| && j < |m[0]| && k < |Ray(m, i, j, n)|
    ensures Ray(m, i, j, n)[k] == m[i + k][j] && m[i + k][j] in Tiles(m)
    ensures m[i + k][j].Link(dir) == if i + k + 1 < |m| then Some(m[i + k + 1][j]) else None
    ensures i + k + 1 < |m| && k + 1 < n ==> k + 1 < |Ray(m, i, j, n)| && Ray(m, i, j, n)[k + 1] == m[i + k + 1][j]
    ensures i + k + 1 == |m| || k + 1 == n ==> k + 1 == |Ray(m, i, j, n)|
  {
    var g := Snapshot(Tiles(m));
    hide LinksFit, Injective;
    assert Inside(m, i + k, j) && m[i + k][j] in Tiles(m);
    LinkAt(g, m, dir, NextDir(dir), i + k, j, dir);
    assert Along(dir, NextDir(dir)) == 0;
  }

  /** One tile of the split gets its type and the keys, and no sites yet. */
  ghost predicate Stamped(was: Data, phys: set<int>, typ: int, now: Data) {
    now.rootPkeys == was.rootPkeys && Elements(now.phyPkeys) == Elements(was.phyPkeys) + phys
    && now.typ == typ && now.sites == [] && now.split
  }

  ghost predicate AllStamped(h: Contents, ray: seq<Tile>, c: nat, phys: set<int>, types: seq<int>, now: Contents) {
    c <= |ray| <= |types| && now.Keys == h.Keys && (forall k :: 0 <= k < |ray| ==> ray[k] in h)
    && (forall t :: t in h && t !in ray[..c] ==> now[t] == h[t])
    && forall k :: 0 <= k < c ==> Stamped(h[ray[k]], phys, types[k], now[ray[k]])
  }

  lemma StampMore(h: Contents, ray: seq<Tile>, c: nat, phys: set<int>, types: seq<int>, mid: Contents, now: Contents)
    requires AllStamped(h, ray, c, phys, types, mid) && c < |ray| && Distinct(ray)
    requires now.Keys == h.Keys && forall t :: t in h && t != ray[c] ==> now[t] == mid[t]
    requires Stamped(mid[ray[c]], phys, types[c], now[ray[c]])
    ensures AllStamped(h, ray, c + 1, phys, types, now)
  {
    hide Stamped;
    assert ray[c] !in ray[..c];
    assert ray[..c + 1] == ray[..c] + [ray[c]];
    forall k | 0 <= k < c ensures now[ray[k]] == mid[ray[k]] {}
  }

  method Stamp(newTiles: seq<Tile>, phys: set<int>, types: seq<int>, ghost tiles: set<Tile>)
    requires |newTiles| <= |types| && Distinct(newTiles) && forall k :: 0 <= k < |newTiles| ==> newTiles[k] in tiles
    modifies tiles`tileTypePkey, tiles`phyTilePkeys, tiles`sites, tiles`splitSites
    ensures AllStamped(old(ContentsOf(tiles)), newTiles, |newTiles|, phys, types, ContentsOf(tiles))
  {
    ghost var h := ContentsOf(tiles);
    for k := 0 to |newTiles|
      invariant AllStamped(h, newTiles, k, phys, types, ContentsOf(tiles))
    {
      ghost var mid := ContentsOf(tiles);
      StampOne(newTiles[k], phys, types[k], tiles);
      StampMore(h, newTiles, k, phys, types, mid, ContentsOf(tiles));
    }
  }

  method StampOne(t: Tile, phys: set<int>, typ: int, ghost tiles: set<Tile>)
    requires t in tiles
    modifies t`tileTypePkey, t`phyTilePkeys, t`sites, t`splitSites
    ensures Stamped(old(DataOf(t)), phys, typ, DataOf(t))
    ensures forall x :: x in tiles && x != t ==> DataOf(x) == old(DataOf(x))
  {
    var list := ListOf((set x | x in t.phyTilePkeys) + phys);
    t.tileTypePkey := typ;
    t.phyTilePkeys := list;
    t.sites := [];
    t.splitSites := true;
    assert (set x | x in old(t.phyTilePkeys)) == Elements(old(t.phyTilePkeys));
  }

  // ----- handing out the sites -----

  /** The first s sites have been handed out. */
  ghost predicate Handed(h: Contents, ray: seq<Tile>, sites: seq<Site>, splitMap: SplitMap, now: Contents) {
    now.Keys == h.Keys && (forall k :: 0 <= k < |ray| ==> ray[k] in h)
    && (forall t :: t in h && t !in ray ==> now[t] == h[t])
    && forall k :: 0 <= k < |ray| ==> now[ray[k]] == h[ray[k]].(sites := Share(sites, splitMap, k))
  }

  lemma HandMore(h: Contents, ray: seq<Tile>, sites: seq<Site>, c: nat, splitMap: SplitMap, mid: Contents,
      now: Contents)
    requires c < |sites| && Handed(h, ray, sites[..c], splitMap, mid) && Distinct(ray)
    requires Placed(sites[c], splitMap, |ray|)
    requires var t := ray[splitMap[(sites[c].x, sites[c].y)]];
      now == mid[t := mid[t].(sites := mid[t].sites + [sites[c]])]
    ensures Handed(h, ray, sites[..c + 1], splitMap, now)
  {
    assert sites[..c + 1][..c] == sites[..c];
    forall k | 0 <= k < |ray| ensures now[ray[k]] == h[ray[k]].(sites := Share(sites[..c + 1], splitMap, k)) {}
  }

  method GiveSite(t: Tile, s: Site, ghost tiles: set<Tile>)
    requires t in tiles
    modifies t`sites
    ensures var h := old(ContentsOf(tiles)); ContentsOf(tiles) == h[t := h[t].(sites := h[t].sites + [s])]
  {
    t.sites := t.sites + [s];
  }

  lemma NoneHanded(h: Contents, ray: seq<Tile>, splitMap: SplitMap)
    requires forall k :: 0 <= k < |ray| ==> ray[k] in h && h[ray[k]].sites == []
    ensures Handed(h, ray, [], splitMap, h)
  {
  }

  method HandOut(newTiles: seq<Tile>, sites: seq<Site>, splitMap: SplitMap, n: nat, ghost tiles: set<Tile>)
      returns (ok: bool)
    requires Distinct(newTiles) && |newTiles| <= n && forall k :: 0 <= k < |newTiles| ==> newTiles[k] in tiles
    requires forall k :: 0 <= k < |newTiles| ==> newTiles[k].sites == []
    modifies tiles`sites
    ensures ok <==> AllPlaced(sites, splitMap, |newTiles|)
    ensures ok ==> Handed(old(ContentsOf(tiles)), newTiles, sites, splitMap, ContentsOf(tiles))
  {
    ghost var h := ContentsOf(tiles);
    assert forall k :: 0 <= k < |newTiles| ==> newTiles[k] in h && h[newTiles[k]].sites == newTiles[k].sites;
    NoneHanded(h, newTiles, splitMap);
    hide Handed, ContentsOf, Distinct;
    for c := 0 to |sites|
      invariant AllPlaced(sites[..c], splitMap, |newTiles|)
      invariant Handed(h, newTiles, sites[..c], splitMap, ContentsOf(tiles))
    {
      var s := sites[c];
      if (s.x, s.y) !in splitMap || splitMap[(s.x, s.y)] >= n || splitMap[(s.x, s.y)] >= |newTiles| {
        return false;
      }
      ghost var mid := ContentsOf(tiles);
      GiveSite(newTiles[splitMap[(s.x, s.y)]], s, tiles);
      HandMore(h, newTiles, sites, c, splitMap, mid, ContentsOf(tiles));
    }
    assert sites[..|sites|] == sites;
    return true;
  }

  // ----- the whole split of one tile -----

  /** The tiles of the split after the walk. */
  ghost predicate Emptied(h: Contents, ray: seq<Tile>, now: Contents) {
    now.Keys == h.Keys && (forall k :: 0 <= k < |ray| ==> ray[k] in h)
    && (forall t :: t in h && t !in ray ==> now[t] == h[t])
    && forall k :: 0 <= k < |ray| ==> now[ray[k]].rootPkeys == h[ray[k]].rootPkeys && now[ray[k]].phyPkeys == []
  }

  lemma SplitCombines(h: Contents, ray: seq<Tile>, types: seq<int>, splitMap: SplitMap, a: Contents, b: Contents,
      now: Contents)
    requires 0 < |ray| <= |types| && Emptied(h, ray, a)
    requires AllStamped(a, ray, |ray|, Elements(h[ray[0]].phyPkeys), types, b)
    requires Handed(b, ray, h[ray[0]].sites, splitMap, now)
    ensures RaySplit(h, ray, types, splitMap, now)
  {
    assert ray[..|ray|] == ray;
    hide Share, Elements;
    forall k | 0 <= k < |ray| ensures BecomesPart(h[ray[k]], h[ray[0]], splitMap, k, types[k], now[ray[k]]) {
      assert a[ray[k]].phyPkeys == [];
      NoElements();
    }
  }

  lemma NoElements()
    ensures Elements<int>([]) == {}
  {
  }

  lemma RayDistinct(m: Lines<Tile>, i: nat, j: nat, n: nat)
    requires Rectangular(m) && Injective(m) && i < |m| && j < |m[0]| && n > 0
    ensures Distinct(Ray(m, i, j, n)) && |Ray(m, i, j, n)| > 0 && Ray(m, i, j, n)[0] == m[i][j]
    ensures forall k :: 0 <= k < |Ray(m, i, j, n)| ==> Ray(m, i, j, n)[k] in Tiles(m)
  {
    var ray := Ray(m, i, j, n);
    forall k, l | 0 <= k < l < |ray| ensures ray[k] != ray[l] {
      assert Inside(m, i + k, j) && Inside(m, i + l, j);
    }
    forall k | 0 <= k < |ray| ensures ray[k] in Tiles(m) {
      assert Inside(m, i + k, j);
    }
  }

  /** Clearing keys and setting the first tile's type empties the tiles of the split. */
  lemma NowEmptied(h: Contents, ray: seq<Tile>, empty: int)
    requires |ray| > 0 && Distinct(ray) && forall k :: 0 <= k < |ray| ==> ray[k] in h
    ensures var typed := h[ray[0] := h[ray[0]].(typ := empty)];
      Emptied(h, ray, Cleared(typed, ray)) && (AllOfType(typed, ray, empty) <==> RestEmpty(h, ray, empty))
  {
  }

  /** The tiles of the split that are not the first are empty. */
  ghost predicate RestEmpty(h: Contents, ray: seq<Tile>, empty: int) {
    (forall k :: 0 <= k < |ray| ==> ray[k] in h) && forall k :: 1 <= k < |ray| ==> h[ray[k]].typ == empty
  }

  /** Up to the end of the walk. */
  method Prepare(tile: Tile, n: nat, dir: Direction, empty: int, ghost m: Lines<Tile>, ghost i: nat, ghost j: nat)
      returns (ok: bool, newTiles: seq<Tile>)
    requires Rectangular(m) && IsMesh(Snapshot(Tiles(m)), m, dir, NextDir(dir))
    requires i < |m| && j < |m[0]| && m[i][j] == tile && n > 0
    modifies Tiles(m)`tileTypePkey, Tiles(m)`phyTilePkeys
    ensures ok <==> RestEmpty(old(ContentsOf(Tiles(m))), Ray(m, i, j, n), empty)
    ensures ok ==> newTiles == Ray(m, i, j, n) && Emptied(old(ContentsOf(Tiles(m))), newTiles, ContentsOf(Tiles(m)))
  {
    hide IsMesh, Tiles, Ray, Snapshot, Cleared, Emptied, AllOfType, RestEmpty, Distinct, ContentsOf, Injective;
    ghost var tiles, h := Tiles(m), ContentsOf(Tiles(m));
    RayOfMesh(m, i, j, n, dir);
    NowEmptied(h, Ray(m, i, j, n), empty);
    SetType(tile, empty, tiles);
    ok, newTiles := Gather(tile, n, dir, empty, m, i, j);
  }

  method SetType(t: Tile, typ: int, ghost tiles: set<Tile>)
    requires t in tiles
    modifies t`tileTypePkey
    ensures var h := old(ContentsOf(tiles)); ContentsOf(tiles) == h[t := h[t].(typ := typ)]
  {
    t.tileTypePkey := typ;
  }

  lemma RayOfMesh(m: Lines<Tile>, i: nat, j: nat, n: nat, dir: Direction)
    requires IsMesh(Snapshot(Tiles(m)), m, dir, NextDir(dir)) && i < |m| && j < |m[0]| && n > 0
    ensures Distinct(Ray(m, i, j, n)) && |Ray(m, i, j, n)| > 0 && Ray(m, i, j, n)[0] == m[i][j]
    ensures forall k :: 0 <= k < |Ray(m, i, j, n)| ==>
      Ray(m, i, j, n)[k] in Tiles(m) && Ray(m, i, j, n)[k] in ContentsOf(Tiles(m))
  {
    RayDistinct(m, i, j, n);
  }

  /** split_tile: fails exactly when a tile to be used is not empty, or a site has no tile to go to. */
  method SplitOver(tile: Tile, types: seq<int>, dir: Direction, splitMap: SplitMap, empty: int,
      ghost m: Lines<Tile>, ghost i: nat, ghost j: nat) returns (ok: bool)
    requires Rectangular(m) && IsMesh(Snapshot(Tiles(m)), m, dir, NextDir(dir))
    requires i < |m| && j < |m[0]| && m[i][j] == tile && |types| > 0
    modifies Tiles(m)`tileTypePkey, Tiles(m)`phyTilePkeys, Tiles(m)`sites, Tiles(m)`splitSites
    ensures ok <==> CanSplit(old(ContentsOf(Tiles(m))), Ray(m, i, j, |types|), splitMap, empty)
    ensures ok ==> RaySplit(old(ContentsOf(Tiles(m))), Ray(m, i, j, |types|), types, splitMap, ContentsOf(Tiles(m)))
    ensures ok ==> SitesGo(old(tile.sites), Ray(m, i, j, |types|), splitMap, ContentsOf(Tiles(m)))
  {
    hide IsMesh, Rectangular, Tiles, Ray, Snapshot, Distinct, Emptied, Stamped, AllStamped, Handed, RaySplit, AllPlaced,
      SitesGo;
    ghost var tiles, h := Tiles(m), ContentsOf(Tiles(m));
    RayOfMesh(m, i, j, |types|, dir);
    var sites := tile.sites;
    var phys := set x | x in tile.phyTilePkeys;
    assert phys == Elements(tile.phyTilePkeys) && h[tile] == DataOf(tile);
    hide ContentsOf, Elements;
    var newTiles;
    ok, newTiles := Prepare(tile, |types|, dir, empty, m, i, j);
    if !ok {
      return;
    }
    ghost var a := ContentsOf(tiles);
    Stamp(newTiles, phys, types, tiles);
    ghost var b := ContentsOf(tiles);
    NoSitesYet(a, newTiles, phys, types, b, tiles);
    ok := HandOut(newTiles, sites, splitMap, |types|, tiles);
    if ok {
      SplitCombines(h, newTiles, types, splitMap, a, b, ContentsOf(tiles));
      SitesAreSent(h, newTiles, types, splitMap, ContentsOf(tiles));
    }
  }

  lemma NoSitesYet(a: Contents, ray: seq<Tile>, phys: set<int>, types: seq<int>, b: Contents, tiles: set<Tile>)
    requires AllStamped(a, ray, |ray|, phys, types, b) && b == ContentsOf(tiles)
    ensures forall k :: 0 <= k < |ray| ==> ray[k] in tiles && ray[k].sites == []
  {
    forall k | 0 <= k < |ray| ensures ray[k] in tiles && ray[k].sites == [] {
      assert b[ray[k]] == DataOf(ray[k]);
    }
  }

  // ----- one site in each split tile -----

  /** Exactly one of the sites is mapped to tile k. */
  ghost predicate OneGoesTo(sites: seq<Site>, splitMap: SplitMap, k: nat) {
    exists i :: 0 <= i < |sites| && GoesTo(sites[i], splitMap, k)
      && forall j :: 0 <= j < |sites| && GoesTo(sites[j], splitMap, k) ==> j == i
  }

  lemma {:induction false} ShareNone(sites: seq<Site>, splitMap: SplitMap, k: nat)
    ensures Share(sites, splitMap, k) == [] <==> forall i :: 0 <= i < |sites| ==> !GoesTo(sites[i], splitMap, k)
  {
    if sites != [] {
      var n := |sites| - 1;
      ShareNone(sites[..n], splitMap, k);
      assert forall i :: 0 <= i < n ==> sites[..n][i] == sites[i];
    }
  }

  lemma OneMoreGoes(init: seq<Site>, last: Site, splitMap: SplitMap, k: nat)
    ensures OneGoesTo(init + [last], splitMap, k) <==>
      if GoesTo(last, splitMap, k) then forall i :: 0 <= i < |init| ==> !GoesTo(init[i], splitMap, k)
      else OneGoesTo(init, splitMap, k)
  {
    hide GoesTo;
    var sites := init + [last];
    assert sites[|init|] == last && forall i :: 0 <= i < |init| ==> sites[i] == init[i];
    if OneGoesTo(init, splitMap, k) && !GoesTo(last, splitMap, k) {
      var i :| 0 <= i < |init| && GoesTo(init[i], splitMap, k)
        && forall j :: 0 <= j < |init| && GoesTo(init[j], splitMap, k) ==> j == i;
      assert GoesTo(sites[i], splitMap, k);
    }
  }

  lemma {:induction false} ShareOne(sites: seq<Site>, splitMap: SplitMap, k: nat)
    ensures |Share(sites, splitMap, k)| == 1 <==> OneGoesTo(sites, splitMap, k)
  {
    if sites != [] {
      var init, last := sites[..|sites| - 1], sites[|sites| - 1];
      ShareOne(init, splitMap, k);
      ShareNone(init, splitMap, k);
      assert sites == init + [last];
      OneMoreGoes(init, last, splitMap, k);
      hide OneGoesTo, GoesTo;
    }
  }

  /** Each part of a split tile holds exactly one site, as documented, exactly when the map sends one of
      the tile's sites to each part. */
  lemma OneSiteEach(h: Contents, ray: seq<Tile>, types: seq<int>, splitMap: SplitMap, now: Contents)
    requires 0 < |ray| <= |types| && forall k :: 0 <= k < |ray| ==> ray[k] in h
    requires RaySplit(h, ray, types, splitMap, now)
    ensures forall k :: 0 <= k < |ray| ==> ray[k] in now && now[ray[k]].split
    ensures (forall k :: 0 <= k < |ray| ==> |now[ray[k]].sites| == 1) <==>
      (forall k :: 0 <= k < |ray| ==> OneGoesTo(h[ray[0]].sites, splitMap, k))
  {
    hide OneGoesTo, Share, Elements;
    forall k | 0 <= k < |ray|
      ensures |now[ray[k]].sites| == 1 <==> OneGoesTo(h[ray[0]].sites, splitMap, k)
    {
      ShareOne(h[ray[0]].sites, splitMap, k);
      assert BecomesPart(h[ray[k]], h[ray[0]], splitMap, k, types[k], now[ray[k]]);
    }
  }
}
