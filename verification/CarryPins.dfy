/** What a run of utils/fix_xc7_carry.py owes the rows of its chains, said of the pins on the nets of the
    netlist before and of the cells after: which rows are congested, and what becomes of their placeholders
    and of the plugs behind them. */
module CarryPins {
  import opened Sequences
  import opened Netlist
  import opened CarryChains
  import opened CarryFix
  import opened CarryClosed
  import opened CarryMeaning

  // ----- congestion, in pins -----

  ghost predicate SinkOn(cells: Cells, p: Pin, b: Bit) { Carries(cells, p, b) && !Drives(cells, p) }

  ghost predicate HasSink(cells: Cells, b: Bit) { exists p :: SinkOn(cells, p, b) }

  /** Some sink is no CIN of a CARRY_COUT_PLUG. */
  ghost predicate HasOtherSink(cells: Cells, b: Bit) {
    exists p :: SinkOn(cells, p, b) && !(cells[p.cell].typ == CoutPlug && p.port == CIN)
  }

  /** A CARRY_CO_DIRECT whose CO is on the CO net of the row. */
  ghost predicate Placeholder(cells: Cells, c: Name, row: nat, d: Name) {
    && d in cells && cells[d].typ == CoDirect
    && exists co :: Carries(cells, Pin(c, RowCO(row), 0), co) && Carries(cells, Pin(d, CO, 0), co)
  }

  ghost predicate IsUsed(cells: Cells, p: Pin) { exists b :: Carries(cells, p, b) && HasSink(cells, b) }

  ghost predicate IsUsedByOthers(cells: Cells, p: Pin) { exists b :: Carries(cells, p, b) && HasOtherSink(cells, b) }

  /** O is used and so is CO, by something else than the carry input of a cell. */
  ghost predicate Congested(cells: Cells, c: Name, row: nat, d: Name) {
    IsUsed(cells, Pin(c, RowO(row), 0)) && IsUsedByOthers(cells, Pin(d, OUT, 0))
  }

  // ----- the rows -----

  ghost predicate RowOfChains(chains: seq<seq<Name>>, c: Name, row: nat, last: bool) {
    row < 4 && exists k, i :: InChain(chains, k, i, c) && (last <==> i == |chains[k]| - 1)
  }

  ghost predicate InChain(chains: seq<seq<Name>>, k: int, i: int, c: Name) {
    0 <= k < |chains| && 0 <= i < |chains[k]| && chains[k][i] == c
  }

  lemma RowsAre(chains: seq<seq<Name>>, r: Row)
    requires Apart(chains)
    ensures r in AllRows(chains, |chains|) <==> RowOfChains(chains, r.cell, r.idx, r.last)
  {
    AllRowsSeparate(chains, |chains|);
    hide AllRows, Separate, Apart;
    if RowOfChains(chains, r.cell, r.idx, r.last) {
      var k, i :| InChain(chains, k, i, r.cell) && (r.last <==> i == |chains[k]| - 1);
      assert RowOf(chains[k], |chains[k]|, r);
    }
    if k :| 0 <= k < |chains| && RowOf(chains[k], |chains[k]|, r) {
      var i :| 0 <= i < |chains[k]| && chains[k][i] == r.cell && (r.last <==> i == |chains[k]| - 1);
      assert InChain(chains, k, i, r.cell);
    }
  }

  /** The one sink of the CO net is a placeholder that drives one bit. */
  ghost predicate Alone(cells: Cells, c: Name, row: nat, d: Name) {
    && |Conns(cells, c, RowCO(row))| == 1 && Placeholder(cells, c, row, d) && |Conns(cells, d, OUT)| == 1
    && forall p :: SinkOn(cells, p, Conns(cells, c, RowCO(row))[0]) ==> p == Pin(d, CO, 0)
  }

  /** What the checks of a row ask for: one bit each on O and CO, and its placeholder alone on CO. If the row is
      spilled to a LUT, the plugs behind the placeholder have its bit as their first. */
  ghost predicate RowFine(cells: Cells, c: Name, row: nat, last: bool, d: Name) {
    && |Conns(cells, c, RowO(row))| == 1 && Alone(cells, c, row, d)
    && (Congested(cells, c, row, d) && !(row == 3 && last) ==> PlugsOnFirst(cells, Conns(cells, d, OUT)[0]))
  }

  ghost predicate PlugsOnFirst(cells: Cells, b: Bit) {
    forall p :: SinkOn(cells, p, b) && cells[p.cell].typ == CoutPlug && p.port == CIN ==> p.idx == 0
  }

  ghost predicate RowsFine(cells: Cells, chains: seq<seq<Name>>) {
    forall c, row, last :: RowOfChains(chains, c, row, last) ==> exists d :: RowFine(cells, c, row, last, d)
  }

  // ----- reading the map of the nets -----

  lemma SinksRead(cells: Cells, m: BitMap, b: Bit)
    requires Mapped(cells, m)
    ensures forall p :: p in Sinks(m, b) <==> SinkOn(cells, p, b)
    ensures Distinct(Sinks(m, b))
  {
    forall p ensures p in Sinks(m, b) <==> SinkOn(cells, p, b) { SinkIs(cells, m, b, p); }
    if b in m { MapReads(cells, m, b); }
  }

  lemma UsedReads(cells: Cells, m: BitMap, b: Bit)
    requires Mapped(cells, m)
    ensures IsBitUsed(m, b) <==> HasSink(cells, b)
    ensures UsedByOthers(cells, Sinks(m, b)) <==> HasOtherSink(cells, b)
  {
    SinksRead(cells, m, b);
    hide Mapped, SinkOn, Sinks;
    var sinks := Sinks(m, b);
    if IsBitUsed(m, b) { assert sinks[0] in sinks; }
    if UsedByOthers(cells, sinks) {
      var k :| 0 <= k < |sinks| && !IsPlugPin(cells, sinks[k]);
      assert sinks[k] in sinks;
      SinkCell(cells, sinks[k], b);
    }
    if p :| SinkOn(cells, p, b) && !(p.cell in cells && cells[p.cell].typ == CoutPlug && p.port == CIN) {
      assert p in sinks;
    }
  }

  lemma SinkCell(cells: Cells, p: Pin, b: Bit)
    requires SinkOn(cells, p, b)
    ensures p.cell in cells
  {
  }

  lemma OnePin(cells: Cells, c: Name, port: Port)
    ensures |Conns(cells, c, port)| == 1 ==>
      forall b :: Carries(cells, Pin(c, port, 0), b) <==> b == Conns(cells, c, port)[0]
    ensures forall b :: Carries(cells, Pin(c, port, 0), b) ==>
      |Conns(cells, c, port)| > 0 && b == Conns(cells, c, port)[0]
  {
  }

  lemma PlugTakes(cells: Cells, p: Name)
    requires Proper(cells) && p in cells && cells[p].typ == CoutPlug
    ensures forall b :: SinkOn(cells, Pin(p, CIN, 0), b) <==> Carries(cells, Pin(p, CIN, 0), b)
  {
    assert Takes(cells, p, CIN);
  }

  lemma DirectTakes(cells: Cells, d: Name)
    requires Proper(cells) && d in cells && cells[d].typ == CoDirect
    ensures forall b :: SinkOn(cells, Pin(d, CO, 0), b) <==> Carries(cells, Pin(d, CO, 0), b)
  {
    assert Takes(cells, d, CO);
  }

  // ----- the placeholder of a row -----

  lemma PlaceholderSinks(cells: Cells, c: Name, row: nat, d: Name)
    requires Proper(cells) && Placeholder(cells, c, row, d) && |Conns(cells, c, RowCO(row))| == 1
    ensures SinkOn(cells, Pin(d, CO, 0), Conns(cells, c, RowCO(row))[0])
  {
    OnePin(cells, c, RowCO(row));
    DirectTakes(cells, d);
    hide Proper, SinkOn, Carries;
  }

  lemma AloneIsOnly(cells: Cells, c: Name, row: nat, d: Name, x: Name)
    requires Proper(cells) && Alone(cells, c, row, d) && Placeholder(cells, c, row, x)
    ensures x == d
  {
    hide Proper, SinkOn, Placeholder;
    PlaceholderSinks(cells, c, row, x);
  }

  lemma PlaceholderWatches(cells: Cells, c: Name, row: nat, d: Name)
    requires Shaped(cells) && IsCarry(cells, c) && row < 4
    requires |Conns(cells, c, RowCO(row))| == 1 && Placeholder(cells, c, row, d)
    ensures Watches(cells, d, c, row)
  {
    hide Watches;
    assert Conns(cells, c, RowCO(row))[0] in Conns(cells, d, CO);
  }

  lemma WatchesPlaceholder(cells: Cells, c: Name, row: nat, d: Name)
    requires Watches(cells, d, c, row)
    ensures Placeholder(cells, c, row, d) && |Conns(cells, d, CO)| == 1
  {
    var co := Conns(cells, c, RowCO(row))[0];
    assert Carries(cells, Pin(c, RowCO(row), 0), co) && Carries(cells, Pin(d, CO, 0), co);
  }

  lemma SoleSink(sinks: seq<Pin>, p: Pin)
    requires Distinct(sinks) && p in sinks && forall q :: q in sinks ==> q == p
    ensures sinks == [p]
  {
    DistinctSize(sinks);
    assert Elements(sinks) == {p};
    assert sinks[0] in sinks;
  }

  /** The placeholder that the code finds for a row. */
  lemma AloneIsObserved(cells: Cells, m: BitMap, r: Row, d: Name)
    requires Mapped(cells, m) && IsCarry(cells, r.cell) && r.idx < 4 && Alone(cells, r.cell, r.idx, d)
    ensures Observer(cells, m, Conns(cells, r.cell, RowCO(r.idx))[0]) == Some((d, Conns(cells, d, OUT)[0]))
  {
    hide SinkOn;
    var co := Conns(cells, r.cell, RowCO(r.idx))[0];
    PlaceholderSinks(cells, r.cell, r.idx, d);
    SinksRead(cells, m, co);
    hide Mapped, Sinks;
    SoleSink(Sinks(m, co), Pin(d, CO, 0));
  }

  lemma ObservedIsAlone(cells: Cells, m: BitMap, r: Row)
    requires Mapped(cells, m) && IsCarry(cells, r.cell) && r.idx < 4 && |Conns(cells, r.cell, RowCO(r.idx))| == 1
    requires Observer(cells, m, Conns(cells, r.cell, RowCO(r.idx))[0]).Some?
    ensures Alone(cells, r.cell, r.idx, Observer(cells, m, Conns(cells, r.cell, RowCO(r.idx))[0]).value.0)
  {
    var co := Conns(cells, r.cell, RowCO(r.idx))[0];
    var d := Observer(cells, m, co).value.0;
    ObserverWatches(cells, m, r, co);
    WatchesPlaceholder(cells, r.cell, r.idx, d);
    SinksRead(cells, m, co);
    hide Mapped, Watches, Placeholder, Sinks;
    forall p | SinkOn(cells, p, co) ensures p == Pin(d, CO, 0) {
      assert p in Sinks(m, co);
    }
  }

  /** What is decided for a row. */
  lemma DecideReads(cells: Cells, m: BitMap, r: Row, d: Name)
    requires Mapped(cells, m) && IsCarry(cells, r.cell) && r.idx < 4
    requires |Conns(cells, r.cell, RowO(r.idx))| == 1 && Alone(cells, r.cell, r.idx, d)
    ensures Decide(cells, m, r) ==
      if !Congested(cells, r.cell, r.idx, d) then Keep
      else if r.idx == 3 && r.last then Pop(d)
      else if r.last && RestIdle(cells, m, r.cell, r.idx + 1) != Some(false) then Fail
      else Spill(d, Conns(cells, d, OUT)[0], Conns(cells, r.cell, RowCO(r.idx))[0])
  {
    AloneIsObserved(cells, m, r, d);
    UsedReads(cells, m, Conns(cells, r.cell, RowO(r.idx))[0]);
    UsedReads(cells, m, Conns(cells, d, OUT)[0]);
    OnePin(cells, r.cell, RowO(r.idx));
    OnePin(cells, d, OUT);
    if r.idx == 3 { PlaceholderWatches(cells, r.cell, r.idx, d); }
    hide Mapped, Observer, UsedByOthers, IsBitUsed, RestIdle, HasSink, HasOtherSink, Placeholder;
  }

  // ----- which rows pass -----

  lemma PlugsRead(cells: Cells, m: BitMap, b: Bit)
    requires Mapped(cells, m)
    ensures PlugsOnFirst(cells, b) <==>
      forall k :: 0 <= k < |Sinks(m, b)| && IsPlugPin(cells, Sinks(m, b)[k]) ==> Sinks(m, b)[k].idx == 0
  {
    SinksRead(cells, m, b);
    hide Mapped, Sinks;
    var sinks := Sinks(m, b);
    forall k | 0 <= k < |sinks| && IsPlugPin(cells, sinks[k]) && PlugsOnFirst(cells, b) ensures sinks[k].idx == 0 {
      assert sinks[k] in sinks;
    }
  }

  /** A row gets through exactly if it is fine, where the row above is used if there is need of it. */
  lemma RowReads(cells: Cells, m: BitMap, r: Row)
    requires Mapped(cells, m) && IsCarry(cells, r.cell) && r.idx < 4
    ensures Decide(cells, m, r) != Fail && PlugsAreSingle(cells, m, r) ==>
      exists d :: RowFine(cells, r.cell, r.idx, r.last, d)
    ensures (r.last && r.idx < 3 ==> RestIdle(cells, m, r.cell, r.idx + 1) == Some(false)) ==>
      ((exists d :: RowFine(cells, r.cell, r.idx, r.last, d)) ==>
        Decide(cells, m, r) != Fail && PlugsAreSingle(cells, m, r))
  {
    hide Mapped, Observer, RestIdle, Congested, Alone, PlugsOnFirst, UsedByOthers, IsBitUsed;
    if d :| RowFine(cells, r.cell, r.idx, r.last, d) {
      DecideReads(cells, m, r, d);
      AloneOut(cells, r.cell, r.idx, d);
      PlugsRead(cells, m, Conns(cells, d, OUT)[0]);
    }
    if Decide(cells, m, r) != Fail && PlugsAreSingle(cells, m, r) {
      ObservedIsAlone(cells, m, r);
      var d := Observer(cells, m, Conns(cells, r.cell, RowCO(r.idx))[0]).value.0;
      DecideReads(cells, m, r, d);
      AloneOut(cells, r.cell, r.idx, d);
      PlugsRead(cells, m, Conns(cells, d, OUT)[0]);
      assert RowFine(cells, r.cell, r.idx, r.last, d);
    }
  }

  lemma AloneOut(cells: Cells, c: Name, row: nat, d: Name)
    requires Alone(cells, c, row, d)
    ensures |Conns(cells, d, OUT)| == 1 && |Conns(cells, c, RowCO(row))| == 1
  {
  }

  /** A row that is fine has a sink on its CO net, so nothing below it is at the end of what is used. */
  lemma FineIsUsed(cells: Cells, m: BitMap, c: Name, row: nat, last: bool, d: Name)
    requires Mapped(cells, m) && IsCarry(cells, c) && row < 4 && RowFine(cells, c, row, last, d)
    ensures RestIdle(cells, m, c, row) == Some(false)
  {
    PlaceholderSinks(cells, c, row, d);
    UsedReads(cells, m, Conns(cells, c, RowCO(row))[0]);
    hide Mapped, IsBitUsed, SinkOn, UsedByOthers;
  }

  /** All rows of the chains pass their checks exactly if they are fine. */
  lemma PassReads(cells: Cells, m: BitMap, chains: seq<seq<Name>>)
    requires Mapped(cells, m) && Apart(chains) && forall c :: InChains(chains, c) ==> IsCarry(cells, c)
    ensures RowsFine(cells, chains) <==>
      forall k :: 0 <= k < |AllRows(chains, |chains|)| ==>
        Decide(cells, m, AllRows(chains, |chains|)[k]) != Fail && PlugsAreSingle(cells, m, AllRows(chains, |chains|)[k])
  {
    var rows := AllRows(chains, |chains|);
    hide Mapped, Apart, AllRows, Decide, PlugsAreSingle, RowFine, IsCarry, RestIdle;
    if RowsFine(cells, chains) {
      forall k | 0 <= k < |rows| ensures Decide(cells, m, rows[k]) != Fail && PlugsAreSingle(cells, m, rows[k]) {
        RowPasses(cells, m, chains, rows[k]);
      }
    }
    if forall k :: 0 <= k < |rows| ==> Decide(cells, m, rows[k]) != Fail && PlugsAreSingle(cells, m, rows[k]) {
      forall c, row, last | RowOfChains(chains, c, row, last) ensures exists d :: RowFine(cells, c, row, last, d) {
        var r := Row(c, row, last);
        RowsAre(chains, r);
        InChainsOf(chains, c, row, last);
        RowReads(cells, m, r);
      }
    }
  }

  lemma InChainsOf(chains: seq<seq<Name>>, c: Name, row: nat, last: bool)
    requires RowOfChains(chains, c, row, last)
    ensures InChains(chains, c) && row < 4
    ensures row < 3 ==> RowOfChains(chains, c, row + 1, last)
  {
    var k, i :| InChain(chains, k, i, c) && (last <==> i == |chains[k]| - 1);
    assert c in chains[k];
  }

  lemma RowPasses(cells: Cells, m: BitMap, chains: seq<seq<Name>>, r: Row)
    requires Mapped(cells, m) && Apart(chains) && (forall c :: InChains(chains, c) ==> IsCarry(cells, c))
    requires RowsFine(cells, chains) && r in AllRows(chains, |chains|)
    ensures Decide(cells, m, r) != Fail && PlugsAreSingle(cells, m, r)
  {
    hide Mapped, Apart, AllRows, Decide, PlugsAreSingle, RowFine, IsCarry, RestIdle, RowOfChains;
    RowsAre(chains, r);
    InChainsOf(chains, r.cell, r.idx, r.last);
    if r.idx < 3 {
      var d :| RowFine(cells, r.cell, r.idx + 1, r.last, d);
      FineIsUsed(cells, m, r.cell, r.idx + 1, r.last, d);
    }
    RowReads(cells, m, r);
  }

  // ----- what becomes of the cells -----

  /** The row has one placeholder. It keeps its type unless the row is congested; then it is a dummy layer of carry
      on top of the chain, and a LUT anywhere else. */
  ghost predicate RowResolved(before: Cells, after: Cells, c: Name, row: nat, last: bool, d: Name) {
    && Placeholder(before, c, row, d) && (forall x :: Placeholder(before, c, row, x) ==> x == d) && d in after
    && after[d] == before[d].(typ :=
      if !Congested(before, c, row, d) then CoDirect else if row == 3 && last then CoTopPop else CoLut)
  }

  ghost predicate RowsResolved(before: Cells, after: Cells, chains: seq<seq<Name>>) {
    forall c, row, last :: RowOfChains(chains, c, row, last) ==> exists d :: RowResolved(before, after, c, row, last, d)
  }

  /** A placeholder that belongs to no row stays. */
  ghost predicate StrangersStay(before: Cells, after: Cells, chains: seq<seq<Name>>) {
    forall d :: d in before && before[d].typ == CoDirect && (d in after ==> after[d] != before[d]) ==>
      exists c, row, last :: RowOfChains(chains, c, row, last) && Placeholder(before, c, row, d)
  }

  /** The plug hangs off the output of a placeholder that became a LUT; the CO net is co. */
  ghost predicate BehindLut(before: Cells, after: Cells, p: Name, d: Name, co: Bit) {
    && d in before && before[d].typ == CoDirect && d in after && after[d].typ == CoLut
    && Carries(before, Pin(d, CO, 0), co)
    && exists out :: Carries(before, Pin(d, OUT, 0), out) && Carries(before, Pin(p, CIN, 0), out)
  }

  /** A plug behind a LUT is moved to the CO net; any other stays. */
  ghost predicate PlugsResolved(before: Cells, after: Cells) {
    forall p :: p in before && before[p].typ == CoutPlug ==>
      && p in after
      && (forall d, co :: BehindLut(before, after, p, d, co) ==> after[p] == OnNet(before[p], co))
      && (after[p] != before[p] ==> exists d, co :: BehindLut(before, after, p, d, co))
  }

  /** The cell with its carry input on another net. */
  ghost function OnNet(cell: Cell, co: Bit): Cell {
    if CIN in cell.conns && cell.conns[CIN] != [] then
      cell.(conns := cell.conns[CIN := [co] + cell.conns[CIN][1..]])
    else cell
  }

  ghost predicate OthersStay(before: Cells, after: Cells) {
    after.Keys == before.Keys
    && forall c :: c in before && before[c].typ != CoDirect && before[c].typ != CoutPlug ==> after[c] == before[c]
  }

  ghost predicate NoneCongested(after: Cells, chains: seq<seq<Name>>) {
    forall c, row, last, d :: RowOfChains(chains, c, row, last) && Placeholder(after, c, row, d) ==>
      !Congested(after, c, row, d)
  }

  /** Everything a run through the chains owes. */
  ghost predicate Resolved(before: Cells, after: Cells, chains: seq<seq<Name>>) {
    && RowsResolved(before, after, chains) && StrangersStay(before, after, chains)
    && PlugsResolved(before, after) && OthersStay(before, after)
    && NoneCongested(after, chains)
  }

  ghost predicate Chains(cells: Cells, chains: seq<seq<Name>>) {
    Apart(chains) && forall c :: InChains(chains, c) ==> IsCarry(cells, c)
  }

  /** A row among the rows of the chains, and where it stands. */
  lemma RowAt(cells: Cells, chains: seq<seq<Name>>, r: Row) returns (k: nat)
    requires Chains(cells, chains) && RowOfChains(chains, r.cell, r.idx, r.last)
    ensures IsCarry(cells, r.cell) && r.idx < 4
    ensures k < |AllRows(chains, |chains|)| && AllRows(chains, |chains|)[k] == r
  {
    RowsAre(chains, r);
    InChainsOf(chains, r.cell, r.idx, r.last);
    hide Apart, AllRows, RowOfChains;
    k :| 0 <= k < |AllRows(chains, |chains|)| && AllRows(chains, |chains|)[k] == r;
  }

  lemma RowIn(cells: Cells, chains: seq<seq<Name>>, k: nat)
    requires Chains(cells, chains) && k < |AllRows(chains, |chains|)|
    ensures var r := AllRows(chains, |chains|)[k]; RowOfChains(chains, r.cell, r.idx, r.last)
    ensures var r := AllRows(chains, |chains|)[k]; IsCarry(cells, r.cell) && r.idx < 4
  {
    var r := AllRows(chains, |chains|)[k];
    hide Apart, AllRows, RowOfChains;
    assert r in AllRows(chains, |chains|);
    RowsAre(chains, r);
    InChainsOf(chains, r.cell, r.idx, r.last);
  }

  /** A row that keeps its placeholder shares it with no row that rewrites it. */
  lemma KeepsOwn(before: Cells, m: BitMap, chains: seq<seq<Name>>, r: Row, d: Name, k: nat)
    requires Mapped(before, m) && Chains(before, chains) && RowOfChains(chains, r.cell, r.idx, r.last)
    requires Watches(before, d, r.cell, r.idx) && k < |AllRows(chains, |chains|)|
    requires Rewrites(before, m, AllRows(chains, |chains|)[k], d)
    ensures AllRows(chains, |chains|)[k] == r
  {
    var rows := AllRows(chains, |chains|);
    RowIn(before, chains, k);
    var j := RowAt(before, chains, r);
    AllRowsSeparate(chains, |chains|);
    hide Mapped, Chains, AllRows, RowOfChains, Watches, Decide;
    ActionFacts(before, m, rows[k]);
    SamePlaceholder(before, m, rows[k], r, d);
    assert rows[j] == r;
  }

  lemma DirectOutcome(before: Cells, m: BitMap, chains: seq<seq<Name>>, after: Cells, r: Row, d: Name)
    requires Mapped(before, m) && Chains(before, chains) && RowOfChains(chains, r.cell, r.idx, r.last)
    requires Fixed(before, m, AllRows(chains, |chains|), after) && Watches(before, d, r.cell, r.idx)
    ensures d in before && d in after && before[d].typ == CoDirect
    ensures after[d] == before[d].(typ :=
      if Rewrites(before, m, r, d) then NewType(Decide(before, m, r)) else CoDirect)
  {
    var rows := AllRows(chains, |chains|);
    var j := RowAt(before, chains, r);
    hide Mapped, Chains, AllRows, RowOfChains, Decide, Rewrites, NewType;
    assert DirectAfter(before, m, rows, after, d);
    forall k | 0 <= k < |rows| && Rewrites(before, m, rows[k], d) ensures rows[k] == r {
      KeepsOwn(before, m, chains, r, d, k);
    }
    assert rows[j] == r;
  }

  lemma RowOutcome(before: Cells, m: BitMap, chains: seq<seq<Name>>, after: Cells, r: Row, d: Name)
    requires Mapped(before, m) && Chains(before, chains) && RowOfChains(chains, r.cell, r.idx, r.last)
    requires Fixed(before, m, AllRows(chains, |chains|), after)
    requires RowFine(before, r.cell, r.idx, r.last, d) && Decide(before, m, r) != Fail
    ensures RowResolved(before, after, r.cell, r.idx, r.last, d)
  {
    var j := RowAt(before, chains, r);
    hide Mapped, Chains, AllRows, RowOfChains, Congested, Watches, Fixed, RestIdle, Placeholder;
    AloneFacts(before, m, r, d);
    DirectOutcome(before, m, chains, after, r, d);
    DecideReads(before, m, r, d);
    forall x | Placeholder(before, r.cell, r.idx, x) ensures x == d {
      AloneIsOnly(before, r.cell, r.idx, d, x);
    }
  }

  lemma AloneFacts(before: Cells, m: BitMap, r: Row, d: Name)
    requires Mapped(before, m) && IsCarry(before, r.cell) && r.idx < 4 && Alone(before, r.cell, r.idx, d)
    ensures Proper(before) && Watches(before, d, r.cell, r.idx) && Placeholder(before, r.cell, r.idx, d)
  {
    PlaceholderWatches(before, r.cell, r.idx, d);
  }

  lemma StrangerOutcome(before: Cells, m: BitMap, chains: seq<seq<Name>>, after: Cells, d: Name)
    requires Mapped(before, m) && Chains(before, chains) && Fixed(before, m, AllRows(chains, |chains|), after)
    requires d in before && before[d].typ == CoDirect && (d in after ==> after[d] != before[d])
    ensures exists c, row, last :: RowOfChains(chains, c, row, last) && Placeholder(before, c, row, d)
  {
    var rows := AllRows(chains, |chains|);
    hide Mapped, Chains, AllRows, RowOfChains, Decide, Watches, Placeholder, NewType, Rewrites;
    assert DirectAfter(before, m, rows, after, d);
    var k :| 0 <= k < |rows| && Rewrites(before, m, rows[k], d);
    RowIn(before, chains, k);
    RewritesPlaceholder(before, m, rows[k], d);
  }

  lemma RewritesPlaceholder(before: Cells, m: BitMap, r: Row, d: Name)
    requires Mapped(before, m) && IsCarry(before, r.cell) && r.idx < 4 && Rewrites(before, m, r, d)
    ensures Placeholder(before, r.cell, r.idx, d)
  {
    hide Mapped, Decide, Watches, Placeholder;
    ActionFacts(before, m, r);
    WatchesPlaceholder(before, r.cell, r.idx, d);
  }

  // ----- plugs -----

  /** The row is spilled to this LUT, with these nets. */
  lemma SpillReads(before: Cells, m: BitMap, r: Row)
    requires Mapped(before, m) && IsCarry(before, r.cell) && r.idx < 4 && Decide(before, m, r).Spill?
    ensures var a := Decide(before, m, r);
      && a.direct in before && before[a.direct].typ == CoDirect
      && (forall b :: Carries(before, Pin(a.direct, CO, 0), b) <==> b == a.co)
      && (forall b :: Carries(before, Pin(a.direct, OUT, 0), b) <==> b == a.out)
      && Carries(before, Pin(r.cell, RowCO(r.idx), 0), a.co) && Drives(before, Pin(r.cell, RowCO(r.idx), 0))
  {
    var a := Decide(before, m, r);
    hide Mapped, Decide, Carries, Drives;
    ActionFacts(before, m, r);
    RowDrives(before, m, r, a.co);
    OnePin(before, a.direct, CO);
    OnePin(before, a.direct, OUT);
  }

  lemma FeedsReads(before: Cells, m: BitMap, r: Row, p: Name)
    requires Mapped(before, m) && Decide(before, m, r).Spill?
    ensures Feeds(before, m, r, p) <==>
      (p in before && before[p].typ == CoutPlug && Carries(before, Pin(p, CIN, 0), Decide(before, m, r).out))
  {
    SinksRead(before, m, Decide(before, m, r).out);
    if p in before && before[p].typ == CoutPlug { PlugTakes(before, p); }
    hide Mapped, Decide, SinkOn, Carries, Sinks;
  }

  lemma MovedIsOnNet(cell: Cell, co: Bit)
    ensures MovedPlug(cell, co) == OnNet(cell, co)
  {
    if CIN in cell.conns && cell.conns[CIN] != [] {
      assert cell.conns[CIN][0 := co] == [co] + cell.conns[CIN][1..];
    }
  }

  /** A LUT is the placeholder of a row that was spilled. */
  lemma LutRow(before: Cells, m: BitMap, rows: seq<Row>, after: Cells, d: Name) returns (k: nat)
    requires Fixed(before, m, rows, after)
    requires d in before && before[d].typ == CoDirect && d in after && after[d].typ == CoLut
    ensures k < |rows| && Decide(before, m, rows[k]).Spill? && Decide(before, m, rows[k]).direct == d
  {
    hide Decide;
    assert DirectAfter(before, m, rows, after, d);
    k :| 0 <= k < |rows| && Rewrites(before, m, rows[k], d);
  }

  lemma PlugMoves(before: Cells, m: BitMap, chains: seq<seq<Name>>, after: Cells, p: Name, d: Name, co: Bit)
    requires Mapped(before, m) && Chains(before, chains) && Fixed(before, m, AllRows(chains, |chains|), after)
    requires p in before && before[p].typ == CoutPlug && BehindLut(before, after, p, d, co)
    ensures p in after && after[p] == OnNet(before[p], co)
  {
    var rows := AllRows(chains, |chains|);
    hide Mapped, Chains, AllRows, RowOfChains, Decide, Feeds, MovedPlug, OnNet, DirectAfter, Carries;
    var k := LutRow(before, m, rows, after, d);
    RowIn(before, chains, k);
    SpillReads(before, m, rows[k]);
    FeedsReads(before, m, rows[k], p);
    assert PlugAfter(before, m, rows, after, p);
    MovedIsOnNet(before[p], co);
  }

  lemma PlugMoved(before: Cells, m: BitMap, chains: seq<seq<Name>>, after: Cells, p: Name)
      returns (d: Name, co: Bit, c: Name, row: nat)
    requires Mapped(before, m) && Chains(before, chains) && Fixed(before, m, AllRows(chains, |chains|), after)
    requires p in before && p in after && before[p].typ == CoutPlug && after[p] != before[p]
    ensures BehindLut(before, after, p, d, co) && after[p] == OnNet(before[p], co)
    ensures Carries(before, Pin(c, RowCO(row), 0), co) && Drives(before, Pin(c, RowCO(row), 0))
  {
    var rows := AllRows(chains, |chains|);
    hide Mapped, Chains, AllRows, RowOfChains, Decide, Feeds, MovedPlug, OnNet, Carries, Drives;
    assert PlugAfter(before, m, rows, after, p);
    var k :| 0 <= k < |rows| && Feeds(before, m, rows[k], p);
    FeedsSpill(before, m, rows[k], p);
    RowIn(before, chains, k);
    SpillReads(before, m, rows[k]);
    FeedsReads(before, m, rows[k], p);
    var a := Decide(before, m, rows[k]);
    d, co, c, row := a.direct, a.co, rows[k].cell, rows[k].idx;
    MovedIsOnNet(before[p], co);
    assert DirectAfter(before, m, rows, after, d);
    assert Rewrites(before, m, rows[k], d);
  }

  lemma FeedsSpill(before: Cells, m: BitMap, r: Row, p: Name)
    requires Feeds(before, m, r, p)
    ensures Decide(before, m, r).Spill?
  {
    hide Decide;
  }

  lemma PlugsOutcome(before: Cells, m: BitMap, chains: seq<seq<Name>>, after: Cells)
    requires Mapped(before, m) && Chains(before, chains) && Fixed(before, m, AllRows(chains, |chains|), after)
    ensures PlugsResolved(before, after)
  {
    hide Mapped, Chains, AllRows, BehindLut, OnNet, DirectAfter, PlugAfter;
    forall p | p in before && before[p].typ == CoutPlug
      ensures p in after && (after[p] != before[p] ==> exists d, co :: BehindLut(before, after, p, d, co))
      ensures forall d, co :: BehindLut(before, after, p, d, co) ==> after[p] == OnNet(before[p], co)
    {
      if after[p] != before[p] {
        var d, co, c, row := PlugMoved(before, m, chains, after, p);
      }
      forall d, co | BehindLut(before, after, p, d, co) ensures after[p] == OnNet(before[p], co) {
        PlugMoves(before, m, chains, after, p, d, co);
      }
    }
  }

  // ----- no congestion is left -----

  /** A pin that is no CIN of a plug is on the nets it was on, and what drives still drives. */
  lemma PinKept(before: Cells, m: BitMap, rows: seq<Row>, after: Cells, p: Pin, b: Bit)
    requires Fixed(before, m, rows, after) && p.cell in before
    ensures p.cell in after && (Drives(after, p) <==> Drives(before, p))
    ensures after[p.cell].typ == CoutPlug <==> before[p.cell].typ == CoutPlug
    ensures !(before[p.cell].typ == CoutPlug && p.port == CIN) ==> (Carries(after, p, b) <==> Carries(before, p, b))
  {
    hide Decide, Rewrites, Feeds;
    if before[p.cell].typ == CoDirect {
      assert DirectAfter(before, m, rows, after, p.cell);
    } else if before[p.cell].typ == CoutPlug {
      assert PlugAfter(before, m, rows, after, p.cell);
    }
  }

  lemma OtherSinksKept(before: Cells, m: BitMap, rows: seq<Row>, after: Cells, b: Bit)
    requires Fixed(before, m, rows, after) && HasOtherSink(after, b)
    ensures HasOtherSink(before, b)
  {
    var p :| SinkOn(after, p, b) && !(after[p.cell].typ == CoutPlug && p.port == CIN);
    SinkCell(after, p, b);
    PinKept(before, m, rows, after, p, b);
    hide Fixed, Carries, Drives;
    assert SinkOn(before, p, b);
  }

  /** No plug is moved to the O net of a row. */
  lemma SumSinksKept(before: Cells, m: BitMap, chains: seq<seq<Name>>, after: Cells, c: Name, row: nat, o: Bit)
    requires Mapped(before, m) && Chains(before, chains) && Fixed(before, m, AllRows(chains, |chains|), after)
    requires IsCarry(before, c) && row < 4 && Carries(before, Pin(c, RowO(row), 0), o) && HasSink(after, o)
    ensures HasSink(before, o)
  {
    var rows := AllRows(chains, |chains|);
    var p :| SinkOn(after, p, o);
    SinkCell(after, p, o);
    PinKept(before, m, rows, after, p, o);
    assert Drives(before, Pin(c, RowO(row), 0)) by { SumDrives(before, c, row); }
    if before[p.cell].typ == CoutPlug && p.port == CIN && after[p.cell] != before[p.cell] {
      hide Mapped, Chains, Fixed, AllRows, Drives;
      var d, co, c', row' := PlugMoved(before, m, chains, after, p.cell);
      if o == co { OneDriver(before, m, o, Pin(c, RowO(row), 0), Pin(c', RowCO(row'), 0)); }
      assert p.idx != 0;
    }
    hide Mapped, Chains, Fixed, AllRows, Drives;
    assert SinkOn(before, p, o);
  }

  lemma SumDrives(cells: Cells, c: Name, row: nat)
    requires Proper(cells) && IsCarry(cells, c) && row < 4
    ensures RowO(row) in cells[c].conns ==> Drives(cells, Pin(c, RowO(row), 0))
  {
    assert Sends(cells, c, RowO(row));
  }

  lemma CongestedBefore(before: Cells, m: BitMap, chains: seq<seq<Name>>, after: Cells, c: Name, row: nat, d: Name)
    requires Mapped(before, m) && Chains(before, chains) && Fixed(before, m, AllRows(chains, |chains|), after)
    requires IsCarry(before, c) && row < 4 && Placeholder(after, c, row, d)
    ensures Placeholder(before, c, row, d)
    ensures Congested(after, c, row, d) ==> Congested(before, c, row, d)
  {
    var rows := AllRows(chains, |chains|);
    Keeps(before, m, rows, after, d);
    var co :| Carries(after, Pin(c, RowCO(row), 0), co) && Carries(after, Pin(d, CO, 0), co);
    PinKept(before, m, rows, after, Pin(c, RowCO(row), 0), co);
    PinKept(before, m, rows, after, Pin(d, CO, 0), co);
    hide Mapped, Chains, Fixed, AllRows, Carries, HasSink, HasOtherSink;
    if Congested(after, c, row, d) {
      var o :| Carries(after, Pin(c, RowO(row), 0), o) && HasSink(after, o);
      PinKept(before, m, rows, after, Pin(c, RowO(row), 0), o);
      SumSinksKept(before, m, chains, after, c, row, o);
      var out :| Carries(after, Pin(d, OUT, 0), out) && HasOtherSink(after, out);
      PinKept(before, m, rows, after, Pin(d, OUT, 0), out);
      OtherSinksKept(before, m, rows, after, out);
    }
  }

  lemma NoneIsLeft(before: Cells, m: BitMap, chains: seq<seq<Name>>, after: Cells)
    requires Mapped(before, m) && Chains(before, chains) && Fixed(before, m, AllRows(chains, |chains|), after)
    requires RowsResolved(before, after, chains)
    ensures NoneCongested(after, chains)
  {
    forall c, row, last, d | RowOfChains(chains, c, row, last) && Placeholder(after, c, row, d)
      ensures !Congested(after, c, row, d)
    {
      InChainsOf(chains, c, row, last);
      CongestedBefore(before, m, chains, after, c, row, d);
      var x :| RowResolved(before, after, c, row, last, x);
      assert x == d && after[d].typ == CoDirect;
      hide Mapped, Apart, Fixed, AllRows, RowOfChains, Congested, IsCarry, RowsResolved;
    }
  }

  lemma RowsOutcome(before: Cells, m: BitMap, chains: seq<seq<Name>>, after: Cells)
    requires Mapped(before, m) && Chains(before, chains) && Fixed(before, m, AllRows(chains, |chains|), after)
    requires RowsFine(before, chains)
    ensures RowsResolved(before, after, chains)
  {
    forall c, row, last | RowOfChains(chains, c, row, last)
      ensures exists d :: RowResolved(before, after, c, row, last, d)
    {
      var r := Row(c, row, last);
      var d :| RowFine(before, c, row, last, d);
      RowsAre(chains, r);
      hide Mapped, Apart, Fixed, AllRows, RowOfChains, RowFine, IsCarry, RowsFine, Decide, PlugsAreSingle, RowResolved;
      RowPasses(before, m, chains, r);
      RowOutcome(before, m, chains, after, r, d);
    }
  }

  /** A run that gets through resolves all congestion and does nothing else. */
  lemma RunResolves(before: Cells, m: BitMap, chains: seq<seq<Name>>, after: Cells)
    requires Mapped(before, m) && Chains(before, chains) && Fixed(before, m, AllRows(chains, |chains|), after)
    requires RowsFine(before, chains)
    ensures Resolved(before, after, chains)
  {
    hide Mapped, Chains, AllRows, RowsFine, RowsResolved, PlugsResolved, NoneCongested, RowOfChains, Placeholder;
    RowsOutcome(before, m, chains, after);
    PlugsOutcome(before, m, chains, after);
    NoneIsLeft(before, m, chains, after);
    forall d | d in before && before[d].typ == CoDirect && (d in after ==> after[d] != before[d])
      ensures exists c, row, last :: RowOfChains(chains, c, row, last) && Placeholder(before, c, row, d)
    {
      StrangerOutcome(before, m, chains, after, d);
    }
  }

  // ----- the chains, in pins -----

  /** A chain starts at a cell without CIN, each of its cells is linked to the next, and the last to none. */
  ghost predicate ChainReads(cells: Cells, chain: seq<Name>) {
    && chain != [] && (forall i :: 0 <= i < |chain| ==> IsCarry(cells, chain[i]))
    && CIN !in cells[chain[0]].conns
    && (forall i :: 0 <= i < |chain| - 1 ==> LinksTo(cells, chain[i], chain[i + 1]))
    && IsLast(cells, chain[|chain| - 1])
  }

  ghost predicate IsLast(cells: Cells, a: Name) { forall b :: !LinksTo(cells, a, b) }

  ghost predicate LinksTo(cells: Cells, a: Name, b: Name) { exists direct, plug :: Linked(cells, a, direct, plug, b) }

  /** Every cell without CIN starts a chain. */
  ghost predicate ChainsRead(cells: Cells, chains: seq<seq<Name>>) {
    && (forall k :: 0 <= k < |chains| ==> ChainReads(cells, chains[k]))
    && forall c :: IsCarry(cells, c) && CIN !in cells[c].conns ==> Heads(chains, c)
  }

  lemma DriverFound(cells: Cells, m: BitMap, c: Name, port: Port, d: Name, via: Port, x: Bit)
    requires Mapped(cells, m) && c in cells && d in cells && Sends(cells, d, via)
    requires Conns(cells, c, port) == [x] && x in Conns(cells, d, via)
    ensures DriverOf(cells, m, c, port, cells[d].typ, via) == Some(d)
  {
    var i :| 0 <= i < |Conns(cells, d, via)| && Conns(cells, d, via)[i] == x;
    var p := Pin(d, via, i);
    assert Carries(cells, p, x) && Drives(cells, p);
    MapHas(cells, m, p, x);
    MapReads(cells, m, x);
  }

  lemma PlugSends(cells: Cells, p: Name, d: Name)
    requires Proper(cells)
    ensures p in cells && cells[p].typ == CoutPlug ==> Sends(cells, p, COUT)
    ensures d in cells && cells[d].typ == CoDirect ==> Sends(cells, d, OUT)
  {
  }

  /** A cell that is linked to hangs off the CO net of the link. */
  lemma LinkedFeeds(cells: Cells, m: BitMap, a: Name, direct: Name, plug: Name, b: Name) returns (co: Bit)
    requires Mapped(cells, m) && Linked(cells, a, direct, plug, b)
    ensures FeedOf(cells, m, b) == Via(co) && co in Conns(cells, a, RowCO(3))
  {
    PlugSends(cells, plug, direct);
    hide Mapped, Sends, DriverOf;
    co :| co in Conns(cells, a, RowCO(3)) && Conns(cells, direct, CO) == [co];
    var out :| out in Conns(cells, direct, OUT) && Conns(cells, plug, CIN) == [out];
    var cin :| cin in Conns(cells, plug, COUT) && Conns(cells, b, CIN) == [cin];
    DriverFound(cells, m, b, CIN, plug, COUT, cin);
    DriverFound(cells, m, plug, CIN, direct, OUT, out);
  }

  lemma ChainLinks(cells: Cells, m: BitMap, order: seq<Name>, chain: seq<Name>)
    requires Mapped(cells, m) && (forall c :: c in cells ==> c in order)
    requires IsChain(cells, m, Hanging(cells, m, order), chain)
    ensures ChainReads(cells, chain)
  {
    var nonRoots := Hanging(cells, m, order);
    HangingRecorded(cells, m, order);
    RootReads(cells, m, chain[0]);
    var last := chain[|chain| - 1];
    hide Mapped, FeedOf, Hanging, Linked;
    forall i | 0 <= i < |chain| - 1 ensures LinksTo(cells, chain[i], chain[i + 1]) {
      assert Next(cells, nonRoots, chain[i]) == Some(chain[i + 1]);
      MappedLists(cells, m);
      NextIsLinked(cells, m, order, nonRoots, chain[i]);
    }
    NextBit(Conns(cells, last, RowCO(3)), nonRoots);
    forall b ensures LinksTo(cells, last, b) ==> exists co :: co in Conns(cells, last, RowCO(3)) && co in nonRoots {
      LinkRecorded(cells, m, order, last, b);
    }
  }

  lemma LinkRecorded(cells: Cells, m: BitMap, order: seq<Name>, a: Name, b: Name)
    requires Mapped(cells, m) && (forall c :: c in cells ==> c in order)
    ensures LinksTo(cells, a, b) ==>
      exists co :: co in Conns(cells, a, RowCO(3)) && co in Hanging(cells, m, order)
  {
    HangingRecorded(cells, m, order);
    hide Mapped, FeedOf, Hanging, Linked;
    if direct, plug :| Linked(cells, a, direct, plug, b) {
      LinkedIsCarry(cells, a, direct, plug, b);
      var co := LinkedFeeds(cells, m, a, direct, plug, b);
    }
  }

  lemma LinkedIsCarry(cells: Cells, a: Name, direct: Name, plug: Name, b: Name)
    requires Linked(cells, a, direct, plug, b)
    ensures IsCarry(cells, b)
  {
  }

  lemma MappedLists(cells: Cells, m: BitMap)
    requires Mapped(cells, m)
    ensures Lists(cells, m, AllPins(cells))
  {
  }

  lemma RootReads(cells: Cells, m: BitMap, c: Name)
    requires IsCarry(cells, c)
    ensures FeedOf(cells, m, c) == Root <==> CIN !in cells[c].conns
  {
    hide DriverOf;
  }

  lemma AllChainsRead(cells: Cells, m: BitMap, order: seq<Name>, chains: seq<seq<Name>>)
    requires Mapped(cells, m) && (forall c :: c in cells ==> c in order)
    requires forall k :: 0 <= k < |chains| ==> IsChain(cells, m, Hanging(cells, m, order), chains[k])
    requires forall c :: IsCarry(cells, c) && FeedOf(cells, m, c) == Root ==> Heads(chains, c)
    ensures ChainsRead(cells, chains)
  {
    hide Mapped, FeedOf, Hanging, IsChain, ChainReads, Heads;
    forall k | 0 <= k < |chains| ensures ChainReads(cells, chains[k]) { ChainLinks(cells, m, order, chains[k]); }
    forall c | IsCarry(cells, c) && CIN !in cells[c].conns ensures Heads(chains, c) { RootReads(cells, m, c); }
  }
}
