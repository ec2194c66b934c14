/** The value on every net before and after utils/fix_xc7_carry.py, under the cells' equations from
    carry4_vpr.sim.v, carry_cout_plug.sim.v and clean_carry_map.v. */
module CarryMeaning {
  import opened Sequences
  import opened Netlist
  import opened CarryChains
  import opened CarryFix
  import opened CarryClosed

  type Values = Bit -> bool

  /** What a cell we know nothing about asks of the nets on it. */
  type Others = (Name, Cell, Values) -> bool

  /** The value on an input, false when it is not connected. */
  function In(cell: Cell, port: Port, v: Values): bool {
    port in cell.conns && |cell.conns[port]| > 0 && v(cell.conns[port][0])
  }

  /** An output, when connected, carries this value. */
  predicate Gives(cell: Cell, port: Port, v: Values, x: bool) {
    port in cell.conns && |cell.conns[port]| > 0 ==> v(cell.conns[port][0]) == x
  }

  // ----- CARRY4_VPR -----

  /** The carry into a row; row 4 stands for the carry out of the cell. */
  function CarryAt(cell: Cell, v: Values, row: nat): bool {
    if row == 0 then
      var p := cell.params;
      (In(cell, CYINIT, v) && p.cyinitAx) || p.cyinitC1
      || (In(cell, CIN, v) && !p.cyinitAx && !p.cyinitC0 && !p.cyinitC1)
    else if In(cell, RowS(row - 1), v) then CarryAt(cell, v, row - 1)
    else In(cell, RowDI(row - 1), v)
  }

  function RowOut(cell: Cell, v: Values, row: nat): bool { CarryAt(cell, v, row) != In(cell, RowS(row), v) }

  ghost predicate CarryHolds(cell: Cell, v: Values) {
    forall i :: 0 <= i < 4 ==>
      Gives(cell, RowO(i), v, RowOut(cell, v, i)) && Gives(cell, RowCO(i), v, CarryAt(cell, v, i + 1))
  }

  // ----- the placeholders -----

  function Digit(b: bool): nat { if b then 1 else 0 }

  /** A lookup table, lowest input first. */
  function Lut(init: seq<bool>, i0: bool, i1: bool, i2: bool): bool
    requires |init| == 8
  {
    init[Digit(i0) + 2 * Digit(i1) + 4 * Digit(i2)]
  }

  /** 8'b01110100 and 4'b0110, bit 0 first; the second has no third input. */
  const MUX_AND_XOR := [false, false, true, false, true, true, true, false]
  const XOR := [false, true, true, false, false, true, true, false]

  function LutOut(cell: Cell, v: Values): bool {
    if cell.params.topOfChain then Lut(MUX_AND_XOR, In(cell, O, v), In(cell, S, v), In(cell, DI, v))
    else Lut(XOR, In(cell, O, v), In(cell, S, v), false)
  }

  function Wires(cell: Cell, port: Port): seq<Bit> { if port in cell.conns then cell.conns[port] else [] }

  /** The dummy layer a CARRY_CO_TOP_POP stands for: a carry cell fed by a plug on CO, S0 tied to 0. */
  function Dummy(cell: Cell): Cell {
    Cell(Carry4Vpr, map[], map[CIN := Wires(cell, CO), RowS(0) := [Const('0')]], Params(false, false, false, false))
  }

  ghost predicate Holds(c: Name, cell: Cell, v: Values, others: Others) {
    match cell.typ
    case Carry4Vpr => CarryHolds(cell, v)
    case CoutPlug => Gives(cell, COUT, v, In(cell, CIN, v))
    case CoDirect => Gives(cell, OUT, v, In(cell, CO, v))
    case CoLut => Gives(cell, OUT, v, LutOut(cell, v))
    case CoTopPop => Gives(cell, OUT, v, RowOut(Dummy(cell), v, 0))
    case OtherCell(_) => others(c, cell, v)
  }

  /** The values the netlist allows on its nets. */
  ghost predicate Allows(cells: Cells, v: Values, others: Others) {
    !v(Const('0')) && forall c :: c in cells ==> Holds(c, cells[c], v, others)
  }

  // ----- one placeholder -----

  lemma LutIs(cell: Cell, v: Values)
    ensures cell.params.topOfChain ==>
      LutOut(cell, v) == if In(cell, S, v) then In(cell, S, v) != In(cell, O, v) else In(cell, DI, v)
    ensures !cell.params.topOfChain ==> LutOut(cell, v) == (In(cell, S, v) != In(cell, O, v))
  {
  }

  lemma PopIs(cell: Cell, v: Values)
    requires !v(Const('0'))
    ensures RowOut(Dummy(cell), v, 0) == In(cell, CO, v)
  {
  }

  lemma SameIn(cells: Cells, a: Name, p: Port, b: Name, q: Port, v: Values)
    requires a in cells && b in cells && Conns(cells, a, p) == Conns(cells, b, q) && |Conns(cells, a, p)| == 1
    ensures In(cells[a], p, v) == In(cells[b], q, v)
    ensures forall x :: Gives(cells[b], q, v, x) ==> In(cells[a], p, v) == x
  {
  }

  /** Where the watched carry cell holds, the three kinds of placeholder give the same value. */
  lemma PlaceholdersAgree(cells: Cells, d: Name, c: Name, row: nat, v: Values)
    requires Watches(cells, d, c, row) && row < 4 && CarryHolds(cells[c], v) && !v(Const('0'))
    ensures LutOut(cells[d], v) == In(cells[d], CO, v)
    ensures RowOut(Dummy(cells[d]), v, 0) == In(cells[d], CO, v)
  {
    var seen := if row == 3 then 3 else row + 1;
    LutIs(cells[d], v);
    PopIs(cells[d], v);
    assert Gives(cells[c], RowCO(row), v, CarryAt(cells[c], v, row + 1));
    assert Gives(cells[c], RowO(seen), v, RowOut(cells[c], v, seen));
    SameIn(cells, d, CO, c, RowCO(row), v);
    SameIn(cells, d, O, c, RowO(seen), v);
    SameIn(cells, d, S, c, RowS(seen), v);
    if row == 3 { SameIn(cells, d, DI, c, RowDI(3), v); }
    hide LutOut, Dummy, Gives, In, Conns;
  }

  // ----- the run -----

  /** A placeholder before and after. */
  lemma DirectMeans(before: Cells, m: BitMap, rows: seq<Row>, after: Cells, d: Name, v: Values, others: Others)
    requires Mapped(before, m) && CarryRows(before, rows) && !v(Const('0'))
    requires d in before && d in after && before[d].typ == CoDirect && DirectAfter(before, m, rows, after, d)
    requires forall c :: IsCarry(before, c) ==> CarryHolds(before[c], v)
    ensures Holds(d, after[d], v, others) <==> Holds(d, before[d], v, others)
  {
    hide Mapped, Rewrites, NewType, Watches, Decide, LutOut, Dummy, RowOut;
    if k :| 0 <= k < |rows| && Rewrites(before, m, rows[k], d) {
      RewriteFacts(before, m, rows[k], d);
      assert IsCarry(before, rows[k].cell);
      PlaceholdersAgree(before, d, rows[k].cell, rows[k].idx, v);
      DummySame(before[d], NewType(Decide(before, m, rows[k])), v);
    }
  }

  lemma DummySame(cell: Cell, typ: CellType, v: Values)
    ensures LutOut(cell.(typ := typ), v) == LutOut(cell, v)
    ensures Dummy(cell.(typ := typ)) == Dummy(cell)
  {
  }

  lemma RewriteFacts(before: Cells, m: BitMap, r: Row, d: Name)
    requires Mapped(before, m) && IsCarry(before, r.cell) && r.idx < 4 && Rewrites(before, m, r, d)
    ensures Watches(before, d, r.cell, r.idx)
    ensures NewType(Decide(before, m, r)) == CoLut || NewType(Decide(before, m, r)) == CoTopPop
  {
    hide Mapped, Watches, Decide;
    ActionFacts(before, m, r);
  }

  /** The net a moved plug leaves and the one it goes to carry the same value. */
  lemma FeedFacts(before: Cells, m: BitMap, r: Row, p: Name, v: Values)
    requires Mapped(before, m) && IsCarry(before, r.cell) && r.idx < 4 && Feeds(before, m, r, p)
    requires forall d :: d in before && before[d].typ == CoDirect ==> Gives(before[d], OUT, v, In(before[d], CO, v))
    ensures var a := Decide(before, m, r);
      a.Spill? && CIN in before[p].conns && |before[p].conns[CIN]| > 0 && before[p].conns[CIN][0] == a.out
        && v(a.out) == v(a.co)
  {
    hide Mapped, Decide;
    var a := Decide(before, m, r);
    ActionFacts(before, m, r);
    SinkIs(before, m, a.out, Pin(p, CIN, 0));
    assert Gives(before[a.direct], OUT, v, In(before[a.direct], CO, v));
  }

  lemma PlugMeans(before: Cells, m: BitMap, rows: seq<Row>, after: Cells, p: Name, v: Values, others: Others)
    requires Mapped(before, m) && CarryRows(before, rows)
    requires p in before && p in after && before[p].typ == CoutPlug && PlugAfter(before, m, rows, after, p)
    requires forall d :: d in before && before[d].typ == CoDirect ==> Gives(before[d], OUT, v, In(before[d], CO, v))
    ensures Holds(p, after[p], v, others) <==> Holds(p, before[p], v, others)
  {
    hide Mapped, Feeds, Decide;
    if k :| 0 <= k < |rows| && Feeds(before, m, rows[k], p) {
      assert IsCarry(before, rows[k].cell);
      FeedFacts(before, m, rows[k], p, v);
    }
  }

  /** Where the carry cells and the placeholders hold, each cell holds after iff it did before. */
  lemma CellMeans(before: Cells, m: BitMap, rows: seq<Row>, after: Cells, c: Name, v: Values, others: Others)
    requires Mapped(before, m) && CarryRows(before, rows) && Fixed(before, m, rows, after) && !v(Const('0'))
    requires c in before
    requires forall x :: IsCarry(before, x) ==> CarryHolds(before[x], v)
    requires before[c].typ != CoDirect ==>
      forall d :: d in before && before[d].typ == CoDirect ==> Gives(before[d], OUT, v, In(before[d], CO, v))
    ensures Holds(c, after[c], v, others) <==> Holds(c, before[c], v, others)
  {
    hide Mapped, CarryHolds, Gives, Holds, CarryRows;
    if before[c].typ == CoDirect {
      DirectMeans(before, m, rows, after, c, v, others);
    } else if before[c].typ == CoutPlug {
      PlugMeans(before, m, rows, after, c, v, others);
    } else {
      assert after[c] == before[c];
    }
  }

  /** The rewritten netlist allows exactly the values the original does, on every net. */
  lemma SameValues(before: Cells, m: BitMap, rows: seq<Row>, after: Cells, v: Values, others: Others)
    requires Mapped(before, m) && CarryRows(before, rows) && Fixed(before, m, rows, after)
    ensures Allows(after, v, others) <==> Allows(before, v, others)
  {
    hide Mapped, CarryRows, Fixed, CarryHolds, Gives;
    forall c ensures c in after <==> c in before { Keeps(before, m, rows, after, c); }
    if Allows(before, v, others) || Allows(after, v, others) {
      forall x | IsCarry(before, x) ensures CarryHolds(before[x], v) {
        Keeps(before, m, rows, after, x);
        if Allows(before, v, others) {
          assert Holds(x, before[x], v, others);
        } else {
          assert Holds(x, after[x], v, others);
        }
      }
      forall d | d in before && before[d].typ == CoDirect ensures Gives(before[d], OUT, v, In(before[d], CO, v)) {
        CellMeans(before, m, rows, after, d, v, others);
        Keeps(before, m, rows, after, d);
        assert Holds(d, before[d], v, others);
      }
      forall c | c in before ensures Holds(c, after[c], v, others) <==> Holds(c, before[c], v, others) {
        CellMeans(before, m, rows, after, c, v, others);
      }
    }
  }

  /** No COUT plug is left on the net of a LUT. */
  lemma NoPlugBehindLut(before: Cells, m: BitMap, rows: seq<Row>, after: Cells, p: Name, d: Name)
    requires Mapped(before, m) && CarryRows(before, rows) && Fixed(before, m, rows, after)
    requires forall k :: 0 <= k < |rows| ==> PlugsAreSingle(before, m, rows[k])
    requires p in after && after[p].typ == CoutPlug
    requires d in before && before[d].typ == CoDirect && d in after && after[d].typ == CoLut
    ensures forall x :: x in Conns(after, p, CIN) ==> x !in Conns(after, d, OUT)
  {
    Keeps(before, m, rows, after, p);
    Keeps(before, m, rows, after, d);
    assert DirectAfter(before, m, rows, after, d) && PlugAfter(before, m, rows, after, p);
    hide Mapped, Decide, Feeds, Rewrites, PlugsAreSingle, Fixed, PlugAfter;
    var k :| 0 <= k < |rows| && Rewrites(before, m, rows[k], d);
    assert IsCarry(before, rows[k].cell);
    SpillFacts(before, m, rows[k], d);
    PlugClears(before, m, rows, after, p, d, k);
  }

  lemma PlugClears(before: Cells, m: BitMap, rows: seq<Row>, after: Cells, p: Name, d: Name, k: nat)
    requires Mapped(before, m) && CarryRows(before, rows)
    requires p in before && before[p].typ == CoutPlug && p in after && PlugAfter(before, m, rows, after, p)
    requires k < |rows| && PlugsAreSingle(before, m, rows[k])
    requires d in before && before[d].typ == CoDirect && Decide(before, m, rows[k]).Spill?
    requires var out := Decide(before, m, rows[k]).out;
      Carries(before, Pin(d, OUT, 0), out) && Drives(before, Pin(d, OUT, 0))
    ensures Decide(before, m, rows[k]).out !in Conns(after, p, CIN)
  {
    hide Mapped, Decide, Feeds, PlugsAreSingle, Carries;
    var out := Decide(before, m, rows[k]).out;
    forall j | 0 <= j < |Conns(after, p, CIN)| ensures Conns(after, p, CIN)[j] != out {
      if l :| 0 <= l < |rows| && Feeds(before, m, rows[l], p) {
        assert IsCarry(before, rows[l].cell);
        CoIsNoOut(before, m, rows[l], p, d, out);
        if j > 0 { PlugBit(before, m, rows[k], d, p, j); }
      } else {
        PlugBit(before, m, rows[k], d, p, j);
      }
    }
  }

  lemma SpillFacts(before: Cells, m: BitMap, r: Row, d: Name)
    requires Mapped(before, m) && IsCarry(before, r.cell) && r.idx < 4
    requires Rewrites(before, m, r, d) && NewType(Decide(before, m, r)) == CoLut
    ensures Decide(before, m, r).Spill? && Conns(before, d, OUT) == [Decide(before, m, r).out]
    ensures Carries(before, Pin(d, OUT, 0), Decide(before, m, r).out) && Drives(before, Pin(d, OUT, 0))
  {
    hide Mapped, Decide, Watches;
    ActionFacts(before, m, r);
  }

  /** Only bit 0 of a plug can be on the net of a spilled placeholder, and then the plug is moved. */
  lemma PlugBit(before: Cells, m: BitMap, r: Row, d: Name, p: Name, j: nat)
    requires Mapped(before, m) && Decide(before, m, r).Spill? && PlugsAreSingle(before, m, r)
    requires p in before && before[p].typ == CoutPlug && j < |Conns(before, p, CIN)|
    ensures Conns(before, p, CIN)[j] == Decide(before, m, r).out ==> j == 0 && Feeds(before, m, r, p)
  {
    hide Decide, SingleDriver, Shaped;
    var out := Decide(before, m, r).out;
    if Conns(before, p, CIN)[j] == out {
      assert Takes(before, p, CIN);
      assert Carries(before, Pin(p, CIN, j), out) && !Drives(before, Pin(p, CIN, j));
      SinkIs(before, m, out, Pin(p, CIN, j));
      var k :| 0 <= k < |Sinks(m, out)| && Sinks(m, out)[k] == Pin(p, CIN, j);
    }
  }

  /** A moved plug ends on a CO net, which no placeholder drives. */
  lemma CoIsNoOut(before: Cells, m: BitMap, r: Row, p: Name, d: Name, out: Bit)
    requires Mapped(before, m) && IsCarry(before, r.cell) && r.idx < 4 && Feeds(before, m, r, p)
    requires d in before && before[d].typ == CoDirect && Carries(before, Pin(d, OUT, 0), out)
      && Drives(before, Pin(d, OUT, 0))
    ensures Decide(before, m, r).Spill? && Decide(before, m, r).co != out
  {
    hide Mapped, Decide, Watches;
    var co := Decide(before, m, r).co;
    ActionFacts(before, m, r);
    RowDrives(before, m, r, co);
    if co == out {
      OneDriver(before, m, out, Pin(d, OUT, 0), Pin(r.cell, RowCO(r.idx), 0));
    }
  }
}
