/** utils/fix_xc7_carry.py, find_carry4_chains: grouping the CARRY4_VPR cells into chains. */
module CarryChains {
  import opened Sequences
  import opened Netlist

  predicate IsCarry(cells: Cells, c: Name) { c in cells && cells[c].typ == Carry4Vpr }

  function Conns(cells: Cells, c: Name, port: Port): seq<Bit> {
    if c in cells && port in cells[c].conns then cells[c].conns[port] else []
  }

  /** How a carry cell is fed: it is a root, it hangs off a CO net, or an assertion fails. */
  datatype Feed = Root | Via(co: Bit) | Broken

  /** The driver of the only net of a port, if it is a cell of the given type and port. */
  function DriverOf(cells: Cells, m: BitMap, c: Name, port: Port, typ: CellType, via: Port): Option<Name> {
    var bits := Conns(cells, c, port);
    if |bits| == 1 && bits[0] in m && m[bits[0]].driver.Some? then
      var p := m[bits[0]].driver.value;
      if p.cell in cells && cells[p.cell].typ == typ && p.port == via then Some(p.cell) else None
    else None
  }

  /** Follows CIN back through the COUT plug and the CO cell to the net the chain continues from. */
  function FeedOf(cells: Cells, m: BitMap, c: Name): Feed {
    if !(c in cells && CIN in cells[c].conns) then Root
    else
      var plug := DriverOf(cells, m, c, CIN, CoutPlug, COUT);
      if plug.None? then Broken
      else
        var direct := DriverOf(cells, m, plug.value, CIN, CoDirect, OUT);
        if direct.None? then Broken
        else if |Conns(cells, direct.value, CO)| == 1 then Via(Conns(cells, direct.value, CO)[0])
        else Broken
  }

  /** CO net to the cell hanging off it; a later cell on the same net replaces an earlier one. */
  type NonRoots = map<Bit, Name>

  ghost predicate Recorded(cells: Cells, m: BitMap, order: seq<Name>, nonRoots: NonRoots) {
    && (forall b :: b in nonRoots ==>
      nonRoots[b] in order && IsCarry(cells, nonRoots[b]) && FeedOf(cells, m, nonRoots[b]) == Via(b))
    && (forall c :: c in order && IsCarry(cells, c) && FeedOf(cells, m, c).Via? ==> FeedOf(cells, m, c).co in nonRoots)
  }

  /** The map built in netlist order. */
  function Hanging(cells: Cells, m: BitMap, order: seq<Name>): NonRoots {
    if order == [] then map[]
    else
      var c := order[|order| - 1];
      var before := Hanging(cells, m, order[..|order| - 1]);
      if IsCarry(cells, c) && FeedOf(cells, m, c).Via? then before[FeedOf(cells, m, c).co := c] else before
  }

  lemma {:induction false} HangingRecorded(cells: Cells, m: BitMap, order: seq<Name>)
    ensures Recorded(cells, m, order, Hanging(cells, m, order))
  {
    hide FeedOf, IsCarry;
    if order != [] {
      var n := |order| - 1;
      HangingRecorded(cells, m, order[..n]);
      assert order == order[..n] + [order[n]];
    }
  }

  /** The next cell of a chain: the one hanging off the first CO3 net that has one. */
  function NextFrom(bits: seq<Bit>, nonRoots: NonRoots): Option<Name> {
    if bits == [] then None
    else if bits[0] in nonRoots then Some(nonRoots[bits[0]])
    else NextFrom(bits[1..], nonRoots)
  }

  function Next(cells: Cells, nonRoots: NonRoots, c: Name): Option<Name> {
    NextFrom(Conns(cells, c, RowCO(3)), nonRoots)
  }

  lemma {:induction false} NextBit(bits: seq<Bit>, nonRoots: NonRoots)
    ensures NextFrom(bits, nonRoots).Some? ==>
      exists b :: b in bits && b in nonRoots && nonRoots[b] == NextFrom(bits, nonRoots).value
    ensures NextFrom(bits, nonRoots).None? ==> forall b :: b in bits ==> b !in nonRoots
  {
    if bits != [] && bits[0] !in nonRoots {
      NextBit(bits[1..], nonRoots);
    } else if bits != [] {
      assert bits[0] in bits;
    }
  }

  /** CO3 is an output wherever a CARRY4_VPR has it connected. */
  ghost predicate Co3Drives(cells: Cells) {
    forall c :: IsCarry(cells, c) && RowCO(3) in cells[c].conns ==>
      RowCO(3) in cells[c].directions && cells[c].directions[RowCO(3)] == Output
  }

  /** Different cells never continue to the same cell: a recorded cell has one feeding net, and
      that net has one driver. */
  lemma NextInjective(cells: Cells, m: BitMap, order: seq<Name>, nonRoots: NonRoots, a: Name, b: Name)
    requires SingleDriver(cells) && Co3Drives(cells) && Recorded(cells, m, order, nonRoots)
    requires IsCarry(cells, a) && IsCarry(cells, b)
    requires Next(cells, nonRoots, a).Some? && Next(cells, nonRoots, a) == Next(cells, nonRoots, b)
    ensures a == b
  {
    var s, t := Conns(cells, a, RowCO(3)), Conns(cells, b, RowCO(3));
    NextBit(s, nonRoots);
    NextBit(t, nonRoots);
    var x :| x in s && x in nonRoots && nonRoots[x] == Next(cells, nonRoots, a).value;
    var y :| y in t && y in nonRoots && nonRoots[y] == Next(cells, nonRoots, b).value;
    assert x == y;
    var i, j :| 0 <= i < |s| && 0 <= j < |t| && s[i] == x && t[j] == x;
    if a != b {
      assert Clash(cells, Pin(a, RowCO(3), i), Pin(b, RowCO(3), j), x);
    }
  }

  // ----- chains -----

  /** A run of cells from a root, each the next of the one before. */
  ghost predicate IsWalk(cells: Cells, m: BitMap, nonRoots: NonRoots, w: seq<Name>) {
    && w != [] && (forall i :: 0 <= i < |w| ==> IsCarry(cells, w[i]))
    && FeedOf(cells, m, w[0]) == Root
    && forall i :: 0 <= i < |w| - 1 ==> Next(cells, nonRoots, w[i]) == Some(w[i + 1])
  }

  ghost predicate IsChain(cells: Cells, m: BitMap, nonRoots: NonRoots, w: seq<Name>) {
    IsWalk(cells, m, nonRoots, w) && Next(cells, nonRoots, w[|w| - 1]) == None
  }

  /** Everything one needs for walking to be safe. */
  ghost predicate Ready(cells: Cells, m: BitMap, order: seq<Name>, nonRoots: NonRoots) {
    SingleDriver(cells) && Co3Drives(cells) && Recorded(cells, m, order, nonRoots)
  }

  /** A cell with a predecessor is fed by a carry net, so it is no root. */
  lemma StepBack(cells: Cells, m: BitMap, order: seq<Name>, nonRoots: NonRoots, w: seq<Name>, i: nat)
    requires Ready(cells, m, order, nonRoots) && IsWalk(cells, m, nonRoots, w) && 0 < i < |w|
    ensures Next(cells, nonRoots, w[i - 1]) == Some(w[i]) && FeedOf(cells, m, w[i]).Via?
  {
    hide FeedOf;
    assert Next(cells, nonRoots, w[i - 1]) == Some(w[i - 1 + 1]);
    NextBit(Conns(cells, w[i - 1], RowCO(3)), nonRoots);
  }

  /** Two walks that meet have met at their roots: stepping back from the meeting point is unique
      and a root has nothing before it. */
  lemma {:induction false} WalksMeet(cells: Cells, m: BitMap, order: seq<Name>, nonRoots: NonRoots,
                                     v: seq<Name>, w: seq<Name>, i: nat, j: nat)
    requires Ready(cells, m, order, nonRoots)
    requires IsWalk(cells, m, nonRoots, v) && IsWalk(cells, m, nonRoots, w)
    requires i < |v| && j < |w| && v[i] == w[j]
    ensures i == j && v[0] == w[0]
    decreases i + j
  {
    hide FeedOf, Next, SingleDriver, Co3Drives, Recorded;
    if i > 0 { StepBack(cells, m, order, nonRoots, v, i); }
    if j > 0 { StepBack(cells, m, order, nonRoots, w, j); }
    if i > 0 && j > 0 {
      assert IsCarry(cells, v[i - 1]) && IsCarry(cells, w[j - 1]);
      NextInjective(cells, m, order, nonRoots, v[i - 1], w[j - 1]);
      WalksMeet(cells, m, order, nonRoots, v, w, i - 1, j - 1);
    }
  }

  /** A walk never visits a cell twice. */
  lemma WalkDistinct(cells: Cells, m: BitMap, order: seq<Name>, nonRoots: NonRoots, w: seq<Name>)
    requires Ready(cells, m, order, nonRoots) && IsWalk(cells, m, nonRoots, w)
    ensures Distinct(w)
  {
    forall i, j | 0 <= i < j < |w| ensures w[i] != w[j] {
      if w[i] == w[j] { WalksMeet(cells, m, order, nonRoots, w, w, i, j); }
    }
  }

  /** A chain contains every walk from its root. */
  lemma {:induction false} WalkInChain(cells: Cells, m: BitMap, nonRoots: NonRoots, w: seq<Name>, chain: seq<Name>)
    requires IsWalk(cells, m, nonRoots, w) && IsChain(cells, m, nonRoots, chain) && w[0] == chain[0]
    ensures |w| <= |chain| && w == chain[..|w|]
  {
    var n := |w| - 1;
    if n > 0 {
      var init := w[..n];
      WalkInChain(cells, m, nonRoots, init, chain);
      assert Next(cells, nonRoots, w[n - 1]) == Some(w[n - 1 + 1]);
      assert chain[n - 1] == init[n - 1];
      assert w == init + [w[n]];
    }
  }

  // ----- the search -----

  /** Sorts the carry cells into roots and cells hanging off a CO net; fails on a malformed one. */
  method Classify(cells: Cells, order: seq<Name>, m: BitMap) returns (ok: bool, roots: seq<Name>, nonRoots: NonRoots)
    requires Distinct(order)
    ensures ok <==> forall c :: c in order && IsCarry(cells, c) ==> !FeedOf(cells, m, c).Broken?
    ensures ok ==> nonRoots == Hanging(cells, m, order)
    ensures ok ==> Distinct(roots) && forall c :: c in roots <==>
      c in order && IsCarry(cells, c) && FeedOf(cells, m, c) == Root
  {
    hide FeedOf, IsCarry;
    roots, nonRoots := [], map[];
    for i := 0 to |order|
      invariant forall c :: c in order[..i] && IsCarry(cells, c) ==> !FeedOf(cells, m, c).Broken?
      invariant nonRoots == Hanging(cells, m, order[..i])
      invariant Distinct(roots)
      invariant forall c :: c in roots <==> c in order[..i] && IsCarry(cells, c) && FeedOf(cells, m, c) == Root
    {
      var c := order[i];
      assert order[..i + 1] == order[..i] + [c];
      assert order[..i + 1][..i] == order[..i];
      assert c !in order[..i];
      if IsCarry(cells, c) {
        match FeedOf(cells, m, c)
        case Root => roots := roots + [c];
        case Via(b) => nonRoots := nonRoots[b := c];
        case Broken =>
          assert c in order;
          return false, [], map[];
      }
    }
    assert order[..|order|] == order;
    ok := true;
  }

  /** Walks one chain from its root. */
  method WalkChain(cells: Cells, m: BitMap, order: seq<Name>, nonRoots: NonRoots, root: Name) returns (chain: seq<Name>)
    requires Ready(cells, m, order, nonRoots)
    requires IsCarry(cells, root) && FeedOf(cells, m, root) == Root
    requires root in order
    ensures IsChain(cells, m, nonRoots, chain) && chain[0] == root
    ensures forall c :: c in chain ==> c in order
  {
    hide FeedOf, IsCarry, Next;
    chain := [root];
    var cell := root;
    while true
      invariant IsWalk(cells, m, nonRoots, chain) && chain[0] == root && chain[|chain| - 1] == cell
      invariant forall c :: c in chain ==> c in order
      decreases |order| - |chain|
    {
      WalkDistinct(cells, m, order, nonRoots, chain);
      FitsIn(chain, order);
      var next := Next(cells, nonRoots, cell);
      if next.None? {
        break;
      }
      NextIsCarry(cells, m, order, nonRoots, cell);
      chain := chain + [next.value];
      cell := next.value;
      WalkDistinct(cells, m, order, nonRoots, chain);
      FitsIn(chain, order);
    }
  }

  lemma NextIsCarry(cells: Cells, m: BitMap, order: seq<Name>, nonRoots: NonRoots, c: Name)
    requires Ready(cells, m, order, nonRoots) && Next(cells, nonRoots, c).Some?
    ensures IsCarry(cells, Next(cells, nonRoots, c).value) && Next(cells, nonRoots, c).value in order
    ensures FeedOf(cells, m, Next(cells, nonRoots, c).value).Via?
  {
    NextBit(Conns(cells, c, RowCO(3)), nonRoots);
  }

  lemma FitsIn(s: seq<Name>, t: seq<Name>)
    requires Distinct(s) && forall c :: c in s ==> c in t
    ensures |s| <= |t|
  {
    DistinctSize(s);
    ElementsSize(t);
    assert Elements(s) <= Elements(t);
    assert Elements(t) == Elements(s) + (Elements(t) - Elements(s));
  }

  /** The cell is on some run from a root. */
  ghost predicate OnWalk(cells: Cells, m: BitMap, nonRoots: NonRoots, c: Name) {
    exists w :: IsWalk(cells, m, nonRoots, w) && w[|w| - 1] == c
  }

  ghost predicate InChains(chains: seq<seq<Name>>, c: Name) {
    exists k :: 0 <= k < |chains| && c in chains[k]
  }

  /** No cell occurs twice, in one chain or in two. */
  ghost predicate Apart(chains: seq<seq<Name>>) {
    && (forall k :: 0 <= k < |chains| ==> Distinct(chains[k]))
    && forall k, l :: 0 <= k < l < |chains| ==> forall c :: c in chains[k] ==> c !in chains[l]
  }

  /** Cells that hang off the same CO net. */
  ghost predicate SharedFeed(cells: Cells, m: BitMap, a: Name, b: Name) {
    a != b && IsCarry(cells, a) && IsCarry(cells, b)
    && FeedOf(cells, m, a).Via? && FeedOf(cells, m, a) == FeedOf(cells, m, b)
  }

  /** The recorded cells are all the cells with a feeding net iff no two share that net. */
  lemma RecordedAll(cells: Cells, m: BitMap, order: seq<Name>, nonRoots: NonRoots)
    requires Recorded(cells, m, order, nonRoots) && forall c :: c in cells ==> c in order
    ensures (forall c :: IsCarry(cells, c) && FeedOf(cells, m, c).Via? ==> c in nonRoots.Values)
      <==> !exists a, b :: SharedFeed(cells, m, a, b)
  {
    hide FeedOf;
    if a, b :| SharedFeed(cells, m, a, b) {
      var bit := FeedOf(cells, m, a).co;
      var lost := if nonRoots[bit] == a then b else a;
      forall x | x in nonRoots ensures nonRoots[x] != lost {}
      assert lost !in nonRoots.Values;
    } else {
      forall c | IsCarry(cells, c) && FeedOf(cells, m, c).Via? ensures c in nonRoots.Values {
        var bit := FeedOf(cells, m, c).co;
        assert bit in nonRoots;
        assert !SharedFeed(cells, m, c, nonRoots[bit]);
      }
    }
  }

  /** One chain for each root, in order. */
  ghost predicate ChainsOf(cells: Cells, m: BitMap, nonRoots: NonRoots, roots: seq<Name>, chains: seq<seq<Name>>) {
    |chains| == |roots|
    && forall k :: 0 <= k < |chains| ==> IsChain(cells, m, nonRoots, chains[k]) && chains[k][0] == roots[k]
  }

  /** A chain starts at the cell. */
  ghost predicate Heads(chains: seq<seq<Name>>, c: Name) {
    exists k :: 0 <= k < |chains| && chains[k] != [] && chains[k][0] == c
  }

  lemma RootsHead(cells: Cells, m: BitMap, nonRoots: NonRoots, roots: seq<Name>, chains: seq<seq<Name>>)
    requires ChainsOf(cells, m, nonRoots, roots, chains)
    ensures forall c :: c in roots ==> Heads(chains, c)
  {
    forall c | c in roots ensures Heads(chains, c) {
      var k :| 0 <= k < |roots| && roots[k] == c;
      assert IsChain(cells, m, nonRoots, chains[k]);
    }
  }

  lemma ChainsApart(cells: Cells, m: BitMap, order: seq<Name>, nonRoots: NonRoots, roots: seq<Name>,
      chains: seq<seq<Name>>)
    requires Ready(cells, m, order, nonRoots) && ChainsOf(cells, m, nonRoots, roots, chains) && Distinct(roots)
    ensures Apart(chains)
  {
    hide Ready;
    forall k | 0 <= k < |chains| ensures Distinct(chains[k]) {
      WalkDistinct(cells, m, order, nonRoots, chains[k]);
    }
    forall k, l | 0 <= k < l < |chains| ensures forall c :: c in chains[k] ==> c !in chains[l] {
      forall c | c in chains[k] && c in chains[l] ensures false {
        var i :| 0 <= i < |chains[k]| && chains[k][i] == c;
        var j :| 0 <= j < |chains[l]| && chains[l][j] == c;
        WalksMeet(cells, m, order, nonRoots, chains[k], chains[l], i, j);
      }
    }
  }

  lemma PrefixIsWalk(cells: Cells, m: BitMap, nonRoots: NonRoots, w: seq<Name>, n: nat)
    requires IsWalk(cells, m, nonRoots, w) && 0 < n <= |w|
    ensures IsWalk(cells, m, nonRoots, w[..n])
  {
  }

  lemma ChainCellOnWalk(cells: Cells, m: BitMap, nonRoots: NonRoots, w: seq<Name>, c: Name)
    requires IsWalk(cells, m, nonRoots, w) && c in w
    ensures OnWalk(cells, m, nonRoots, c)
  {
    hide FeedOf, Next, IsWalk;
    var i :| 0 <= i < |w| && w[i] == c;
    PrefixIsWalk(cells, m, nonRoots, w, i + 1);
    assert w[..i + 1][i] == c;
  }

  lemma WalkCellInChains(cells: Cells, m: BitMap, nonRoots: NonRoots, roots: seq<Name>, chains: seq<seq<Name>>,
      w: seq<Name>)
    requires ChainsOf(cells, m, nonRoots, roots, chains) && IsWalk(cells, m, nonRoots, w)
    requires forall c :: IsCarry(cells, c) && FeedOf(cells, m, c) == Root ==> c in roots
    ensures InChains(chains, w[|w| - 1])
  {
    hide FeedOf, Next;
    assert IsCarry(cells, w[0]) && w[0] in roots;
    var k :| 0 <= k < |roots| && roots[k] == w[0];
    WalkInChain(cells, m, nonRoots, w, chains[k]);
    assert w[|w| - 1] in chains[k];
  }

  /** The chains hold exactly the cells some run from a root arrives at. */
  lemma ChainsHoldWalks(cells: Cells, m: BitMap, nonRoots: NonRoots, roots: seq<Name>, chains: seq<seq<Name>>)
    requires ChainsOf(cells, m, nonRoots, roots, chains)
    requires forall c :: IsCarry(cells, c) && FeedOf(cells, m, c) == Root ==> c in roots
    ensures forall c :: InChains(chains, c) <==> OnWalk(cells, m, nonRoots, c)
  {
    hide FeedOf, Next;
    forall c ensures InChains(chains, c) <==> OnWalk(cells, m, nonRoots, c) {
      if k :| 0 <= k < |chains| && c in chains[k] {
        ChainCellOnWalk(cells, m, nonRoots, chains[k], c);
      }
      if w :| IsWalk(cells, m, nonRoots, w) && w[|w| - 1] == c {
        WalkCellInChains(cells, m, nonRoots, roots, chains, w);
      }
    }
  }

  /** A cell of a chain is a root or a recorded cell. */
  lemma InChainIsRecorded(cells: Cells, m: BitMap, nonRoots: NonRoots, w: seq<Name>, i: nat)
    requires IsWalk(cells, m, nonRoots, w) && i < |w|
    ensures FeedOf(cells, m, w[i]) == Root || w[i] in nonRoots.Values
  {
    hide FeedOf;
    if i > 0 {
      assert Next(cells, nonRoots, w[i - 1]) == Some(w[i - 1 + 1]);
      NextBit(Conns(cells, w[i - 1], RowCO(3)), nonRoots);
    }
  }

  /** The documented promise, that every carry cell ends up in a chain, holds of a finished search
      exactly when no two cells hang off the same CO net. */
  lemma FindsAllCells(cells: Cells, m: BitMap, order: seq<Name>, nonRoots: NonRoots, chains: seq<seq<Name>>)
    requires Recorded(cells, m, order, nonRoots) && forall c :: c in cells ==> c in order
    requires forall c :: IsCarry(cells, c) ==> !FeedOf(cells, m, c).Broken?
    requires forall c :: InChains(chains, c) <==> OnWalk(cells, m, nonRoots, c)
    requires forall b :: b in nonRoots ==> OnWalk(cells, m, nonRoots, nonRoots[b])
    ensures (forall c :: IsCarry(cells, c) ==> InChains(chains, c)) <==> !exists a, b :: SharedFeed(cells, m, a, b)
  {
    hide FeedOf, Next, SharedFeed;
    RecordedAll(cells, m, order, nonRoots);
    forall c | IsCarry(cells, c)
      ensures InChains(chains, c) <==> !FeedOf(cells, m, c).Via? || c in nonRoots.Values
    {
      if w :| IsWalk(cells, m, nonRoots, w) && w[|w| - 1] == c {
        InChainIsRecorded(cells, m, nonRoots, w, |w| - 1);
      }
      if FeedOf(cells, m, c) == Root {
        assert IsWalk(cells, m, nonRoots, [c]);
        assert OnWalk(cells, m, nonRoots, c);
      } else if c in nonRoots.Values {
        var b :| b in nonRoots && nonRoots[b] == c;
      }
    }
  }

  /** The final assertion: every recorded cell is in some chain. */
  method AllUsed(nonRoots: NonRoots, used: set<Name>) returns (ok: bool)
    ensures ok <==> forall b :: b in nonRoots ==> nonRoots[b] in used
  {
    var left := nonRoots.Keys;
    while left != {}
      invariant left <= nonRoots.Keys
      invariant forall b :: b in nonRoots && b !in left ==> nonRoots[b] in used
      decreases left
    {
      var b :| b in left;
      if nonRoots[b] !in used {
        return false;
      }
      left := left - {b};
    }
    return true;
  }

  /** Walks every root. */
  method WalkRoots(cells: Cells, order: seq<Name>, m: BitMap, nonRoots: NonRoots, roots: seq<Name>)
      returns (chains: seq<seq<Name>>, used: set<Name>)
    requires Ready(cells, m, order, nonRoots)
    requires forall c :: c in roots ==> c in order && IsCarry(cells, c) && FeedOf(cells, m, c) == Root
    ensures ChainsOf(cells, m, nonRoots, roots, chains)
    ensures forall c :: c in used <==> InChains(chains, c)
  {
    hide Ready, FeedOf, IsCarry, Next;
    chains, used := [], {};
    for i := 0 to |roots|
      invariant ChainsOf(cells, m, nonRoots, roots[..i], chains)
      invariant forall c :: c in used <==> InChains(chains, c)
    {
      assert roots[i] in roots;
      var chain := WalkChain(cells, m, order, nonRoots, roots[i]);
      InChainsMore(chains, chain);
      chains := chains + [chain];
      used := used + Elements(chain);
    }
    assert roots[..|roots|] == roots;
  }

  lemma InChainsMore(chains: seq<seq<Name>>, chain: seq<Name>)
    ensures forall c :: InChains(chains + [chain], c) <==> InChains(chains, c) || c in chain
  {
    var all := chains + [chain];
    forall c ensures InChains(all, c) <==> InChains(chains, c) || c in chain {
      if k :| 0 <= k < |chains| && c in chains[k] { assert c in all[k]; }
      if c in chain { assert c in all[|chains|]; }
    }
  }

  /** Every cell is fed by a plug on a CARRY_CO_DIRECT or is a root, and some run from a root arrives
      at every recorded cell. */
  ghost predicate ChainsFound(cells: Cells, order: seq<Name>, m: BitMap) {
    && (forall c :: IsCarry(cells, c) ==> !FeedOf(cells, m, c).Broken?)
    && var hanging := Hanging(cells, m, order);
      forall b :: b in hanging ==> OnWalk(cells, m, hanging, hanging[b])
  }

  /** find_carry4_chains: fails exactly when a cell is fed by something else than a plug on a
      CARRY_CO_DIRECT, or hangs off a net no run from a root arrives at. */
  method FindChains(cells: Cells, order: seq<Name>, m: BitMap) returns (r: Option<seq<seq<Name>>>)
    requires SingleDriver(cells) && Co3Drives(cells)
    requires Distinct(order) && forall c :: c in order <==> c in cells
    ensures r.Some? <==> ChainsFound(cells, order, m)
    ensures r.Some? ==> Apart(r.value)
    ensures r.Some? ==> forall k :: 0 <= k < |r.value| ==> IsChain(cells, m, Hanging(cells, m, order), r.value[k])
    ensures r.Some? ==> forall c :: InChains(r.value, c) ==> IsCarry(cells, c)
    ensures r.Some? ==> forall c :: IsCarry(cells, c) && FeedOf(cells, m, c) == Root ==> Heads(r.value, c)
    ensures r.Some? ==>
      ((forall c :: IsCarry(cells, c) ==> InChains(r.value, c)) <==> !exists a, b :: SharedFeed(cells, m, a, b))
  {
    hide FeedOf, Next, SharedFeed, SingleDriver, Co3Drives, Hanging, Apart, Recorded, OnWalk;
    var ok, roots, nonRoots := Classify(cells, order, m);
    if !ok {
      return None;
    }
    HangingRecorded(cells, m, order);
    var chains, used := WalkRoots(cells, order, m, nonRoots, roots);
    ChainsApart(cells, m, order, nonRoots, roots, chains);
    RootsHead(cells, m, nonRoots, roots, chains);
    ChainsHoldWalks(cells, m, nonRoots, roots, chains);
    var all := AllUsed(nonRoots, used);
    if !all {
      return None;
    }
    FindsAllCells(cells, m, order, nonRoots, chains);
    return Some(chains);
  }

  // ----- what a link is -----

  /** CO3 of a, through a CARRY_CO_DIRECT and a CARRY_COUT_PLUG, to CIN of b. */
  ghost predicate Linked(cells: Cells, a: Name, direct: Name, plug: Name, b: Name) {
    && IsCarry(cells, a) && IsCarry(cells, b)
    && direct in cells && cells[direct].typ == CoDirect && plug in cells && cells[plug].typ == CoutPlug
    && (exists co :: co in Conns(cells, a, RowCO(3)) && Conns(cells, direct, CO) == [co])
    && (exists out :: out in Conns(cells, direct, OUT) && Conns(cells, plug, CIN) == [out])
    && (exists cin :: cin in Conns(cells, plug, COUT) && Conns(cells, b, CIN) == [cin])
  }

  lemma DriverIs(cells: Cells, m: BitMap, c: Name, port: Port, typ: CellType, via: Port)
    requires Lists(cells, m, AllPins(cells)) && DriverOf(cells, m, c, port, typ, via).Some?
    ensures var d := DriverOf(cells, m, c, port, typ, via).value;
      d in cells && cells[d].typ == typ
      && exists x :: x in Conns(cells, d, via) && Conns(cells, c, port) == [x]
  {
    var bits := Conns(cells, c, port);
    MapReads(cells, m, bits[0]);
    assert Carries(cells, m[bits[0]].driver.value, bits[0]);
    assert bits == [bits[0]];
  }

  /** Every step of a chain is such a link. */
  lemma NextIsLinked(cells: Cells, m: BitMap, order: seq<Name>, nonRoots: NonRoots, a: Name)
    requires Lists(cells, m, AllPins(cells)) && Recorded(cells, m, order, nonRoots)
    requires IsCarry(cells, a) && Next(cells, nonRoots, a).Some?
    ensures exists direct, plug :: Linked(cells, a, direct, plug, Next(cells, nonRoots, a).value)
  {
    var b := Next(cells, nonRoots, a).value;
    NextBit(Conns(cells, a, RowCO(3)), nonRoots);
    var plug := DriverOf(cells, m, b, CIN, CoutPlug, COUT);
    var direct := DriverOf(cells, m, plug.value, CIN, CoDirect, OUT);
    hide Lists, DriverOf, Next, Recorded;
    DriverIs(cells, m, b, CIN, CoutPlug, COUT);
    DriverIs(cells, m, plug.value, CIN, CoDirect, OUT);
    var co := Conns(cells, direct.value, CO)[0];
    assert Conns(cells, direct.value, CO) == [co];
    assert Linked(cells, a, direct.value, plug.value, b);
  }
}
