/** utils/fix_xc7_carry.py, main: the map of the nets, the chains, and the rows of all chains one after
    another. The chains never share a cell, so no row is fixed twice and what is known about a run of
    separate rows applies to the whole: which netlists get through, what becomes of each cell, and
    that the values on all nets stay what they were. */
module CarryMain {
  import opened Sequences
  import opened Netlist
  import opened CarryChains
  import opened CarryFix
  import opened CarryClosed
  import opened CarryMeaning
  import opened CarryPins

  /** Every row passes its checks. */
  ghost predicate RowsPass(cells: Cells, m: BitMap, rows: seq<Row>) {
    forall k :: 0 <= k < |rows| ==> Decide(cells, m, rows[k]) != Fail && PlugsAreSingle(cells, m, rows[k])
  }

  ghost predicate NoPlugsBehindLuts(before: Cells, after: Cells) {
    forall p, d :: p in after && after[p].typ == CoutPlug && d in before && before[d].typ == CoDirect
      && d in after && after[d].typ == CoLut
      ==> forall x :: x in Conns(after, p, CIN) ==> x !in Conns(after, d, OUT)
  }

  ghost predicate SameMeaning(before: Cells, after: Cells) {
    forall v: Values, others: Others :: Allows(after, v, others) <==> Allows(before, v, others)
  }

  lemma ChainRows(cells: Cells, chains: seq<seq<Name>>)
    requires Apart(chains) && forall c :: InChains(chains, c) ==> IsCarry(cells, c)
    ensures CarryRows(cells, AllRows(chains, |chains|)) && Separate(AllRows(chains, |chains|))
  {
    var rows := AllRows(chains, |chains|);
    AllRowsSeparate(chains, |chains|);
    hide AllRows, Separate, Apart;
    forall i | 0 <= i < |rows| ensures IsCarry(cells, rows[i].cell) && rows[i].idx < 4 {
      assert rows[i] in rows;
      var k :| 0 <= k < |chains| && RowOf(chains[k], |chains[k]|, rows[i]);
      assert rows[i].cell in chains[k];
      assert InChains(chains, rows[i].cell);
    }
  }

  lemma RunMeans(before: Cells, m: BitMap, rows: seq<Row>, after: Cells)
    requires Mapped(before, m) && CarryRows(before, rows) && Fixed(before, m, rows, after) && RowsPass(before, m, rows)
    ensures SameMeaning(before, after) && NoPlugsBehindLuts(before, after)
  {
    forall v: Values, others: Others ensures Allows(after, v, others) <==> Allows(before, v, others) {
      SameValues(before, m, rows, after, v, others);
    }
    hide Mapped, CarryRows, Fixed, Conns, Decide, PlugsAreSingle;
    forall p, d | p in after && after[p].typ == CoutPlug && d in before && before[d].typ == CoDirect
                  && d in after && after[d].typ == CoLut
      ensures forall x :: x in Conns(after, p, CIN) ==> x !in Conns(after, d, OUT)
    {
      NoPlugBehindLut(before, m, rows, after, p, d);
    }
  }

  lemma DrivesCo3(cells: Cells)
    requires Proper(cells)
    ensures Co3Drives(cells)
  {
    forall c | IsCarry(cells, c) ensures Sends(cells, c, RowCO(3)) {}
  }

  /** Nothing in a netlist with one driver a net stops the run: not the search, not a row. */
  ghost predicate Passes(before: Cells, order: seq<Name>, m: BitMap, chains: seq<seq<Name>>) {
    Lists(before, m, AllPins(before)) && ChainsFound(before, order, m) && Apart(chains)
    && RowsPass(before, m, AllRows(chains, |chains|))
  }

  /** A check of the search, or of a row of one of the chains it found, fails. */
  ghost predicate Stops(before: Cells, order: seq<Name>, m: BitMap, chains: seq<seq<Name>>) {
    Lists(before, m, AllPins(before))
    && (ChainsFound(before, order, m) ==> Apart(chains) && !RowsPass(before, m, AllRows(chains, |chains|)))
  }

  ghost predicate AreChains(before: Cells, order: seq<Name>, m: BitMap, chains: seq<seq<Name>>) {
    && (forall k :: 0 <= k < |chains| ==> IsChain(before, m, Hanging(before, m, order), chains[k]))
    && forall c :: InChains(chains, c) ==> IsCarry(before, c)
  }

  lemma RowsRun(before: Cells, m: BitMap, chains: seq<seq<Name>>)
    requires Mapped(before, m) && Apart(chains) && forall c :: InChains(chains, c) ==> IsCarry(before, c)
    ensures var rows := AllRows(chains, |chains|);
      FixRows(before, m, rows).Some? <==> RowsPass(before, m, rows)
    ensures var rows := AllRows(chains, |chains|);
      FixRows(before, m, rows).Some? ==>
        var after := FixRows(before, m, rows).value;
        Fixed(before, m, rows, after) && SameMeaning(before, after) && NoPlugsBehindLuts(before, after)
        && Resolved(before, after, chains)
    ensures RowsPass(before, m, AllRows(chains, |chains|)) <==> RowsFine(before, chains)
  {
    var rows := AllRows(chains, |chains|);
    ChainRows(before, chains);
    RunWorks(before, m, rows);
    PassReads(before, m, chains);
    if FixRows(before, m, rows).Some? {
      RunIsFixed(before, m, rows);
      hide Mapped, CarryRows, Fixed, FixRows, SameMeaning, NoPlugsBehindLuts, AllRows, Apart, Separate, RowsFine,
        Resolved, IsCarry, Decide, PlugsAreSingle;
      RunMeans(before, m, rows, FixRows(before, m, rows).value);
      RunResolves(before, m, chains, FixRows(before, m, rows).value);
    }
  }

  /** The whole run: which netlists it gets through, and that a finished run keeps every value. */
  method FixDesign(design: Design, order: seq<Name>) returns (ok: bool, ghost m: BitMap, ghost chains: seq<seq<Name>>)
    requires Distinct(order) && forall c :: c in order <==> c in design.cells
    requires Proper(design.cells) && Shaped(design.cells)
    modifies design
    ensures ok ==> SingleDriver(old(design.cells)) && Passes(old(design.cells), order, m, chains)
    ensures ok ==> AreChains(old(design.cells), order, m, chains)
    ensures ok ==> Fixed(old(design.cells), m, AllRows(chains, |chains|), design.cells)
    ensures ok ==> SameMeaning(old(design.cells), design.cells) && NoPlugsBehindLuts(old(design.cells), design.cells)
    ensures !ok && SingleDriver(old(design.cells)) ==> Stops(old(design.cells), order, m, chains)
    // A chain runs from a cell without CIN over links CO3, CARRY_CO_DIRECT, CARRY_COUT_PLUG, CIN as far as they go.
    ensures ok ==> ChainsRead(old(design.cells), chains)
    // Of the rows of the chains exactly the congested ones lose their CARRY_CO_DIRECT, to a CARRY_CO_TOP_POP at the
    // top of a chain and to a CARRY_CO_LUT elsewhere; the plugs behind such LUTs move to the CO net; no other cell
    // changes.
    ensures ok ==> RowsResolved(old(design.cells), design.cells, chains)
    ensures ok ==> StrangersStay(old(design.cells), design.cells, chains)
    ensures ok ==> PlugsResolved(old(design.cells), design.cells) && OthersStay(old(design.cells), design.cells)
    // No row of a chain is congested any more.
    ensures ok ==> NoneCongested(design.cells, chains)
    // A run with its chains found gets through exactly if all their rows are fine.
    ensures ok ==> RowsFine(old(design.cells), chains)
    ensures !ok && SingleDriver(old(design.cells)) && ChainsFound(old(design.cells), order, m) ==>
      !RowsFine(old(design.cells), chains)
  {
    hide SingleDriver, Lists, AllPins, Shaped, Proper, Fixed, OnWalk, FeedOf, Hanging, Apart, IsChain, RowsPass,
      AllRows, FixRows, SameMeaning, NoPlugsBehindLuts, Co3Drives, IsCarry, SharedFeed, RowsResolved, StrangersStay,
      PlugsResolved, OthersStay, NoneCongested, RowsFine, ChainsRead, Heads;
    m, chains := map[], [];
    var found := CreateBitToCellMap(design.cells);
    if found.None? {
      return false, m, chains;
    }
    m := found.value;
    DrivesCo3(design.cells);
    var list := FindChains(design.cells, order, found.value);
    if list.None? {
      return false, m, chains;
    }
    chains := list.value;
    RowsRun(design.cells, m, chains);
    AllChainsRead(design.cells, m, order, chains);
    ok := design.FixupChains(found.value, list.value);
  }
}
