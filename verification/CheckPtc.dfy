/** utils/check_ptc.py: the acceptance condition for the channels of a routing graph. */
module CheckPtc {
  import opened Sequences
  import opened RrNodes

  datatype Verdict =
    | Accepted
    | DuplicateId(id: int)
    | GapInPtc(typ: NodeType, x: int, y: int, expected: int, found: int)
    | LowestPtc(typ: NodeType, x: int, y: int, ptc: int)

  datatype Key = Key(typ: NodeType, x: int, y: int)

  type ChanPtcs = map<Key, seq<(int, int)>>

  function Ptcs(entries: seq<(int, int)>): (r: seq<int>)
    ensures |r| == |entries|
  {
    seq(|entries|, i requires 0 <= i < |entries| => entries[i].1)
  }

  function ByPtc(ptc: int): int { ptc }

  function Entry(chanPtcs: ChanPtcs, k: Key): seq<(int, int)> {
    if k in chanPtcs then chanPtcs[k] else []
  }

  /** The dictionary after reading `nodes`: one (id, ptc) entry per node over each coordinate. */
  ghost predicate Collected(chanPtcs: ChanPtcs, nodes: seq<Node>) {
    && (forall k: Key :: k.typ == ChanX || k.typ == ChanY ==>
          Ptcs(Entry(chanPtcs, k)) == PtcsAt(nodes, k.typ, k.x, k.y))
    && Usable(chanPtcs)
  }

  /** Python's three tests accept exactly the permutations of 0..n-1. */
  lemma ThreeTests(s: seq<int>)
    requires s != []
    ensures MinOf(s) == 0 && MaxOf(s) == |s| - 1 && |Elements(s)| == |s| <==> IsRange(s)
  {
    if IsRange(s) { RangePasses(s); }
    if MinOf(s) == 0 && MaxOf(s) == |s| - 1 && |Elements(s)| == |s| { PassesRange(s); }
  }

  lemma RangePasses(s: seq<int>)
    requires s != [] && IsRange(s)
    ensures MinOf(s) == 0 && MaxOf(s) == |s| - 1 && |Elements(s)| == |s|
  {
    hide MinOf, MaxOf;
    DistinctSize(s);
    assert 0 in s && |s| - 1 in s;
    var low, high :| 0 <= low < |s| && 0 <= high < |s| && s[low] == MinOf(s) && s[high] == MaxOf(s);
    assert s[low] in s && s[high] in s;
  }

  lemma PassesRange(s: seq<int>)
    requires s != [] && MinOf(s) == 0 && MaxOf(s) == |s| - 1 && |Elements(s)| == |s|
    ensures IsRange(s)
  {
    hide MinOf, MaxOf;
    SizeDistinct(s);
    assert Elements(s) <= RangeSet(|s|);
    SubsetSameSize(Elements(s), RangeSet(|s|));
    assert forall p :: p in s <==> p in Elements(s);
  }

  /** If a list sorted by ptc has every entry at its own index, it was well formed. */
  lemma SortedMismatch(s: seq<int>, sorted: seq<int>)
    requires multiset(s) == multiset(sorted)
    requires forall i :: 0 <= i < |sorted| ==> sorted[i] == i
    ensures IsRange(s)
  {
    SameMembers(s, sorted);
    assert |s| == |multiset(s)| == |sorted|;
    assert Distinct(sorted);
    DistinctTransfers(sorted, s);
    forall p | 0 <= p < |s| ensures p in s {
      assert sorted[p] == p;
    }
  }

  /** `found` stands at index i of the numbers in order, and is the first that is not its own index. */
  ghost predicate FirstOut(s: seq<int>, i: int, found: int) {
    var sorted := SortBy(s, ByPtc);
    0 <= i < |sorted| && sorted[i] == found && found != i && forall j :: 0 <= j < i ==> sorted[j] == j
  }

  /** What the reported pair says about the numbers: all below i are in use; i itself is missing, or the
      number before it is in use twice, or the lowest is negative. */
  lemma FirstOutMeans(s: seq<int>, i: int, found: int)
    requires FirstOut(s, i, found)
    ensures forall j :: 0 <= j < i ==> j in s
    ensures found in s
    ensures found > i ==> i !in s
    ensures found < i ==> if i == 0 then found < 0 else found == i - 1 && !Distinct(s)
  {
    var sorted := SortBy(s, ByPtc);
    SortByProperties(s, ByPtc);
    SameMembers(s, sorted);
    forall j | 0 <= j < i ensures j in s {
      assert sorted[j] in sorted;
    }
    assert sorted[i] in sorted;
    forall k | 0 <= k < |sorted| ensures found > i ==> sorted[k] != i {
      assert k > i ==> ByPtc(sorted[i]) <= ByPtc(sorted[k]);
    }
    if 0 < i && found < i {
      assert ByPtc(sorted[i - 1]) <= ByPtc(sorted[i]);
      assert !Distinct(sorted);
      if Distinct(s) { DistinctTransfers(s, sorted); }
    }
  }

  /** Tests one coordinate's entries as the source does; on failure names the first entry, in
      ptc order, that is not at its own index. */
  method CheckCoordinate(k: Key, entries: seq<(int, int)>) returns (v: Verdict)
    requires entries != []
    ensures v == Accepted <==> IsRange(Ptcs(entries))
    ensures v.GapInPtc? ==>
      (v.typ, v.x, v.y) == (k.typ, k.x, k.y) && v.expected > 1 && FirstOut(Ptcs(entries), v.expected, v.found)
    ensures v.LowestPtc? ==>
      (v.typ, v.x, v.y) == (k.typ, k.x, k.y) && exists i :: 0 <= i <= 1 && FirstOut(Ptcs(entries), i, v.ptc)
    ensures !v.DuplicateId?
  {
    hide MinOf, MaxOf, SortBy, IsRange, SortedBy;
    var ptcs := Ptcs(entries);
    ThreeTests(ptcs);
    if MinOf(ptcs) == 0 && MaxOf(ptcs) == |ptcs| - 1 && |Elements(ptcs)| == |ptcs| {
      return Accepted;
    }
    var sorted := SortBy(ptcs, ByPtc);
    SortByProperties(ptcs, ByPtc);
    for i := 0 to |sorted|
      invariant forall j :: 0 <= j < i ==> sorted[j] == j
    {
      if sorted[i] != i {
        assert FirstOut(ptcs, i, sorted[i]);
        return if i > 1 then GapInPtc(k.typ, k.x, k.y, i, sorted[i]) else LowestPtc(k.typ, k.x, k.y, sorted[i]);
      }
    }
    SortedMismatch(ptcs, sorted);
    assert false;
    v := Accepted;
  }

  ghost predicate Usable(chanPtcs: ChanPtcs) {
    forall k :: k in chanPtcs ==> (k.typ == ChanX || k.typ == ChanY) && chanPtcs[k] != []
  }

  /** Python's "create the list if missing, then append". */
  method AddEntry(chanPtcs: ChanPtcs, key: Key, entry: (int, int)) returns (r: ChanPtcs)
    requires Usable(chanPtcs) && (key.typ == ChanX || key.typ == ChanY)
    ensures Usable(r)
    ensures forall k: Key :: Entry(r, k) == Entry(chanPtcs, k) + (if k == key then [entry] else [])
  {
    r := chanPtcs;
    if key !in r { r := r[key := []]; }
    r := r[key := r[key] + [entry]];
  }

  method CollectColumn(chanPtcs: ChanPtcs, n: Node, x: int, entry: (int, int)) returns (r: ChanPtcs)
    requires Usable(chanPtcs) && IsChan(n)
    ensures Usable(r)
    ensures forall k: Key :: Entry(r, k) == Entry(chanPtcs, k)
              + (if k.typ == n.typ && k.x == x && n.loc.yLow <= k.y <= n.loc.yHigh then [entry] else [])
  {
    hide Usable, Entry;
    r := chanPtcs;
    var y := n.loc.yLow;
    while y <= n.loc.yHigh
      invariant n.loc.yLow <= y && Usable(r)
      invariant forall k: Key :: Entry(r, k) == Entry(chanPtcs, k)
                  + (if k.typ == n.typ && k.x == x && n.loc.yLow <= k.y < y && k.y <= n.loc.yHigh then [entry] else [])
    {
      r := AddEntry(r, Key(n.typ, x, y), entry);
      y := y + 1;
    }
  }

  /** Reads one node into the dictionary. */
  method Collect(chanPtcs: ChanPtcs, n: Node, ghost before: seq<Node>) returns (r: ChanPtcs)
    requires Collected(chanPtcs, before)
    requires IsChan(n) ==> n.loc.ptc.Some?
    ensures Collected(r, before + [n])
  {
    r := chanPtcs;
    if IsChan(n) {
      r := CollectSpan(chanPtcs, n, (n.id, n.loc.ptc.value));
    }
    forall k: Key | k.typ == ChanX || k.typ == ChanY
      ensures Ptcs(Entry(r, k)) == PtcsAt(before + [n], k.typ, k.x, k.y)
    {
      assert (before + [n])[..|before|] == before;
    }
  }

  method CollectSpan(chanPtcs: ChanPtcs, n: Node, entry: (int, int)) returns (r: ChanPtcs)
    requires Usable(chanPtcs) && IsChan(n)
    ensures Usable(r)
    ensures forall k: Key :: Entry(r, k) ==
              Entry(chanPtcs, k) + (if Spans(n, k.typ, k.x, k.y) then [entry] else [])
  {
    hide Usable, Entry;
    r := chanPtcs;
    var x := n.loc.xLow;
    while x <= n.loc.xHigh
      invariant n.loc.xLow <= x && Usable(r)
      invariant forall k: Key :: Entry(r, k) ==
                  Entry(chanPtcs, k) + (if Spans(n, k.typ, k.x, k.y) && k.x < x then [entry] else [])
    {
      r := CollectColumn(r, n, x, entry);
      x := x + 1;
    }
  }

  /** The whole check: accepts exactly when ids are distinct and every used coordinate holds
      ptc numbers 0, 1, ... once each. */
  method CheckAll(nodes: seq<Node>) returns (v: Verdict)
    requires Numbered(nodes)
    ensures v == Accepted <==>
      (forall i, j :: 0 <= i < j < |nodes| ==> nodes[i].id != nodes[j].id) && PtcsWellFormed(nodes)
  {
    var chanPtcs: ChanPtcs := map[];
    assert Collected(chanPtcs, nodes[..0]);
    hide Collected, PtcsAt, PtcsWellFormed;
    var ids: map<int, Node> := map[];
    for i := 0 to |nodes|
      invariant Collected(chanPtcs, nodes[..i])
      invariant forall j :: 0 <= j < i ==> nodes[j].id in ids
      invariant forall id :: id in ids ==> exists j :: 0 <= j < i && nodes[j].id == id
      invariant forall j, k :: 0 <= j < k < i ==> nodes[j].id != nodes[k].id
    {
      assert nodes[i] in nodes;
      if nodes[i].id in ids {
        return DuplicateId(nodes[i].id);
      }
      ids := ids[nodes[i].id := nodes[i]];
      assert nodes[..i + 1] == nodes[..i] + [nodes[i]];
      chanPtcs := Collect(chanPtcs, nodes[i], nodes[..i]);
    }
    assert nodes[..|nodes|] == nodes;
    v := CheckEntries(chanPtcs, nodes);
  }

  method CheckEntries(chanPtcs: ChanPtcs, ghost nodes: seq<Node>) returns (v: Verdict)
    requires Collected(chanPtcs, nodes)
    ensures v == Accepted <==> PtcsWellFormed(nodes)
  {
    var left := chanPtcs.Keys;
    while left != {}
      invariant left <= chanPtcs.Keys
      invariant forall k :: k in chanPtcs && k !in left ==> IsRange(Ptcs(chanPtcs[k]))
      decreases left
    {
      var k :| k in left;
      left := left - {k};
      v := CheckCoordinate(k, chanPtcs[k]);
      if v != Accepted {
        assert !IsRange(PtcsAt(nodes, k.typ, k.x, k.y));
        return;
      }
    }
    forall typ, x, y | typ == ChanX || typ == ChanY
      ensures IsRange(PtcsAt(nodes, typ, x, y))
    {
      assert Ptcs(Entry(chanPtcs, Key(typ, x, y))) == PtcsAt(nodes, typ, x, y);
    }
    v := Accepted;
  }
}
