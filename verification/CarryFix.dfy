/** utils/fix_xc7_carry.py: is_bit_used_other_than_carry4_cin, fixup_cin and fixup_congested_rows.
    The functions say what one row, a run of rows and a chain do to the cells; class Design does it
    in place. */
module CarryFix {
  import opened Sequences
  import opened Netlist
  import opened CarryChains

  /** One row of a CARRY4_VPR, and whether the cell is the last of its chain. */
  datatype Row = Row(cell: Name, idx: nat, last: bool)

  function Single(bits: seq<Bit>): Option<Bit> { if |bits| == 1 then Some(bits[0]) else None }

  function Sinks(m: BitMap, b: Bit): seq<Pin> { if b in m then m[b].sinks else [] }

  predicate IsBitUsed(m: BitMap, b: Bit) { |Sinks(m, b)| > 0 }

  predicate IsPlugPin(cells: Cells, p: Pin) {
    p.cell in cells && cells[p.cell].typ == CoutPlug && p.port == CIN
  }

  /** The CARRY_CO_DIRECT that is the one sink of a CO net, and the net it drives. */
  function Observer(cells: Cells, m: BitMap, co: Bit): Option<(Name, Bit)> {
    var sinks := Sinks(m, co);
    if |sinks| != 1 || sinks[0].cell !in cells || cells[sinks[0].cell].typ != CoDirect || sinks[0].port != CO then None
    else
      match Single(Conns(cells, sinks[0].cell, OUT))
      case None => None
      case Some(out) => Some((sinks[0].cell, out))
  }

  predicate UsedByOthers(cells: Cells, sinks: seq<Pin>) {
    exists k :: 0 <= k < |sinks| && !IsPlugPin(cells, sinks[k])
  }

  /** check_if_rest_of_carry4_is_unused, from the given row up. */
  function RestIdle(cells: Cells, m: BitMap, c: Name, row: nat): Option<bool>
    decreases 4 - row
  {
    if row >= 4 then Some(true)
    else
      match Single(Conns(cells, c, RowO(row)))
      case None => None
      case Some(o) =>
        if IsBitUsed(m, o) then Some(false)
        else
          match Single(Conns(cells, c, RowCO(row)))
          case None => None
          case Some(co) => if IsBitUsed(m, co) then Some(false) else RestIdle(cells, m, c, row + 1)
  }

  /** A plug pin with its first CIN bit moved to another net. */
  function MovedPlug(cell: Cell, co: Bit): Cell {
    if CIN in cell.conns && |cell.conns[CIN]| > 0 then
      cell.(conns := cell.conns[CIN := cell.conns[CIN][0 := co]])
    else cell
  }

  /** fixup_cin: moves every plug among the sinks; fails on a plug pin that is not bit 0. */
  function MovePlugs(cells: Cells, sinks: seq<Pin>, co: Bit): Option<Cells> {
    if sinks == [] then Some(cells)
    else
      var p := sinks[|sinks| - 1];
      match MovePlugs(cells, sinks[..|sinks| - 1], co)
      case None => None
      case Some(now) =>
        if !IsPlugPin(now, p) then Some(now)
        else if p.idx != 0 then None
        else Some(now[p.cell := MovedPlug(now[p.cell], co)])
  }

  /** What has to happen to a row. */
  datatype Action = Fail | Keep | Pop(direct: Name) | Spill(direct: Name, out: Bit, co: Bit)

  function Decide(cells: Cells, m: BitMap, r: Row): Action {
    match (Single(Conns(cells, r.cell, RowO(r.idx))), Single(Conns(cells, r.cell, RowCO(r.idx))))
    case (Some(o), Some(co)) =>
      (match Observer(cells, m, co)
       case None => Fail
       case Some((direct, out)) =>
         if !IsBitUsed(m, o) || !UsedByOthers(cells, Sinks(m, out)) then Keep
         else if r.idx == 3 && r.last then
           (if cells[direct].params.topOfChain then Pop(direct) else Fail)
         else if r.last && RestIdle(cells, m, r.cell, r.idx + 1) != Some(false) then Fail
         else Spill(direct, out, co))
    case _ => Fail
  }

  function Perform(cells: Cells, m: BitMap, a: Action): Option<Cells> {
    match a
    case Fail => None
    case Keep => Some(cells)
    case Pop(d) => if d in cells then Some(cells[d := cells[d].(typ := CoTopPop)]) else None
    case Spill(d, out, co) =>
      if d in cells then MovePlugs(cells[d := cells[d].(typ := CoLut)], Sinks(m, out), co) else None
  }

  function FixRow(cells: Cells, m: BitMap, r: Row): Option<Cells> { Perform(cells, m, Decide(cells, m, r)) }

  /** What a row that gets through shows: with sinks on its O, and one behind its placeholder that is no CIN of a plug,
      the placeholder has its new type; otherwise nothing has changed. */
  ghost predicate RowShows(before: Cells, m: BitMap, r: Row, now: Cells) {
    forall o, co, p: Pin, out ::
      Conns(before, r.cell, RowO(r.idx)) == [o] && Conns(before, r.cell, RowCO(r.idx)) == [co]
      && co in m && m[co].sinks == [p] && Conns(before, p.cell, OUT) == [out] ==>
        if HasUse(m, o) && HasOtherUse(before, m, out) then
          p.cell in now && now[p.cell].typ == if r.idx == 3 && r.last then CoTopPop else CoLut
        else now == before
  }

  ghost predicate HasUse(m: BitMap, b: Bit) { b in m && m[b].sinks != [] }

  ghost predicate HasOtherUse(cells: Cells, m: BitMap, b: Bit) {
    b in m && exists p :: p in m[b].sinks && !(p.cell in cells && cells[p.cell].typ == CoutPlug && p.port == CIN)
  }

  function FixRows(cells: Cells, m: BitMap, rows: seq<Row>): Option<Cells> {
    if rows == [] then Some(cells)
    else
      match FixRows(cells, m, rows[..|rows| - 1])
      case None => None
      case Some(now) => FixRow(now, m, rows[|rows| - 1])
  }

  function CellRows(c: Name, last: bool): seq<Row> {
    [Row(c, 0, last), Row(c, 1, last), Row(c, 2, last), Row(c, 3, last)]
  }

  /** The first n cells of a chain, four rows each. */
  function RowsOf(chain: seq<Name>, n: nat): seq<Row>
    requires n <= |chain|
  {
    if n == 0 then [] else RowsOf(chain, n - 1) + CellRows(chain[n - 1], n == |chain|)
  }

  function AllRows(chains: seq<seq<Name>>, n: nat): seq<Row>
    requires n <= |chains|
  {
    if n == 0 then [] else AllRows(chains, n - 1) + RowsOf(chains[n - 1], |chains[n - 1]|)
  }

  // ----- in place -----

  class Design {
    var cells: Cells

    constructor (cells: Cells)
      ensures this.cells == cells
    {
      this.cells := cells;
    }

    method IsBitUsedOtherThanCarry4Cin(m: BitMap, out: Bit) returns (used: bool)
      ensures used <==> UsedByOthers(cells, Sinks(m, out))
    {
      var sinks := Sinks(m, out);
      for k := 0 to |sinks|
        invariant forall j :: 0 <= j < k ==> IsPlugPin(cells, sinks[j])
      {
        if !IsPlugPin(cells, sinks[k]) {
          return true;
        }
      }
      return false;
    }

    method FixupCin(m: BitMap, out: Bit, co: Bit) returns (ok: bool)
      modifies this
      ensures ok <==> MovePlugs(old(cells), Sinks(m, out), co).Some?
      ensures ok ==> cells == MovePlugs(old(cells), Sinks(m, out), co).value
    {
      var sinks := Sinks(m, out);
      for k := 0 to |sinks|
        invariant MovePlugs(old(cells), sinks[..k], co) == Some(cells)
      {
        assert sinks[..k + 1][..k] == sinks[..k];
        var p := sinks[k];
        if IsPlugPin(cells, p) {
          if p.idx != 0 {
            MovePlugsFails(old(cells), sinks, k + 1, co);
            return false;
          }
          cells := cells[p.cell := MovedPlug(cells[p.cell], co)];
        }
      }
      assert sinks[..|sinks|] == sinks;
      return true;
    }

    /** One row of the loop body. */
    method FixupRow(m: BitMap, r: Row) returns (ok: bool)
      modifies this
      ensures ok <==> FixRow(old(cells), m, r).Some?
      ensures ok ==> cells == FixRow(old(cells), m, r).value
      ensures ok ==> RowShows(old(cells), m, r, cells)
    {
      hide RowShows;
      RowShown(cells, m, r);
      var o := Single(Conns(cells, r.cell, RowO(r.idx)));
      var co := Single(Conns(cells, r.cell, RowCO(r.idx)));
      if o.None? || co.None? {
        return false;
      }
      var observer := Observer(cells, m, co.value);
      if observer.None? {
        return false;
      }
      var direct, out := observer.value.0, observer.value.1;
      var coUsed := IsBitUsedOtherThanCarry4Cin(m, out);
      if !(IsBitUsed(m, o.value) && coUsed) {
        return true;
      }
      if r.idx == 3 && r.last {
        ok := cells[direct].params.topOfChain;
        cells := cells[direct := cells[direct].(typ := CoTopPop)];
        return;
      }
      if r.last {
        var idle := RestIdle(cells, m, r.cell, r.idx + 1);
        if idle != Some(false) {
          return false;
        }
      }
      cells := cells[direct := cells[direct].(typ := CoLut)];
      ok := FixupCin(m, out, co.value);
    }

    /** The four rows of one cell, after the rows already done. */
    method FixupCell(m: BitMap, c: Name, last: bool, ghost before: Cells, ghost done: seq<Row>) returns (ok: bool)
      requires FixRows(before, m, done) == Some(cells)
      modifies this
      ensures ok <==> FixRows(before, m, done + CellRows(c, last)).Some?
      ensures ok ==> cells == FixRows(before, m, done + CellRows(c, last)).value
    {
      hide FixRow, FixRows;
      ghost var rows := CellRows(c, last);
      assert done + rows[..0] == done;
      for i := 0 to 4
        invariant FixRows(before, m, done + rows[..i]) == Some(cells)
      {
        ghost var cells0 := cells;
        var fine := FixupRow(m, Row(c, i, last));
        NextRow(before, m, done, rows, i, cells0);
        if !fine {
          return false;
        }
      }
      assert rows[..4] == rows;
      return true;
    }

    method FixupCongestedRows(m: BitMap, chain: seq<Name>, ghost before: Cells, ghost done: seq<Row>) returns (ok: bool)
      requires FixRows(before, m, done) == Some(cells)
      modifies this
      ensures ok <==> FixRows(before, m, done + RowsOf(chain, |chain|)).Some?
      ensures ok ==> cells == FixRows(before, m, done + RowsOf(chain, |chain|)).value
    {
      hide FixRows, CellRows;
      assert done + RowsOf(chain, 0) == done;
      for n := 0 to |chain|
        invariant FixRows(before, m, done + RowsOf(chain, n)) == Some(cells)
      {
        ghost var rows := CellRows(chain[n], n + 1 == |chain|);
        var fine := FixupCell(m, chain[n], n + 1 == |chain|, before, done + RowsOf(chain, n));
        assert done + RowsOf(chain, n) + rows == done + RowsOf(chain, n + 1);
        if !fine {
          RowsPrefix(chain, n + 1, |chain|);
          ghost var rest := RowsOf(chain, |chain|)[|RowsOf(chain, n + 1)|..];
          FixRowsFails(before, m, done + RowsOf(chain, n + 1), rest);
          assert done + RowsOf(chain, n + 1) + rest == done + RowsOf(chain, |chain|);
          return false;
        }
      }
      return true;
    }

    /** The loop of main over the chains. */
    method FixupChains(m: BitMap, chains: seq<seq<Name>>) returns (ok: bool)
      modifies this
      ensures ok <==> FixRows(old(cells), m, AllRows(chains, |chains|)).Some?
      ensures ok ==> cells == FixRows(old(cells), m, AllRows(chains, |chains|)).value
    {
      hide FixRows, RowsOf;
      assert FixRows(cells, m, AllRows(chains, 0)) == Some(cells) by { FixNoRows(cells, m); }
      for n := 0 to |chains|
        invariant FixRows(old(cells), m, AllRows(chains, n)) == Some(cells)
      {
        ok := FixupCongestedRows(m, chains[n], old(cells), AllRows(chains, n));
        if !ok {
          AllRowsPrefix(chains, n + 1, |chains|);
          ghost var now, all := AllRows(chains, n + 1), AllRows(chains, |chains|);
          FixRowsFails(old(cells), m, now, all[|now|..]);
          assert now + all[|now|..] == all;
          return false;
        }
      }
      return true;
    }
  }

  /** One row more of a list of rows: the rest matters only if it goes through. */
  lemma NextRow(before: Cells, m: BitMap, done: seq<Row>, rows: seq<Row>, i: nat, cells: Cells)
    requires i < |rows| && FixRows(before, m, done + rows[..i]) == Some(cells)
    ensures FixRows(before, m, done + rows[..i + 1]) == FixRow(cells, m, rows[i])
    ensures FixRow(cells, m, rows[i]).None? ==> FixRows(before, m, done + rows).None?
  {
    hide FixRow, FixRows;
    FixRowsSnoc(before, m, done + rows[..i], rows[i]);
    assert done + rows[..i] + [rows[i]] == done + rows[..i + 1];
    if FixRow(cells, m, rows[i]).None? {
      FixRowsFails(before, m, done + rows[..i + 1], rows[i + 1..]);
      assert done + rows[..i + 1] + rows[i + 1..] == done + rows;
    }
  }

  lemma FixNoRows(cells: Cells, m: BitMap)
    ensures FixRows(cells, m, []) == Some(cells)
  {
  }

  lemma FixRowsSnoc(cells: Cells, m: BitMap, rows: seq<Row>, r: Row)
    ensures FixRows(cells, m, rows + [r]) ==
      (match FixRows(cells, m, rows) case None => None case Some(now) => FixRow(now, m, r))
  {
    assert (rows + [r])[..|rows|] == rows;
  }

  lemma {:induction false} MovePlugsFails(cells: Cells, sinks: seq<Pin>, k: nat, co: Bit)
    requires k <= |sinks| && MovePlugs(cells, sinks[..k], co).None?
    ensures MovePlugs(cells, sinks, co).None?
    decreases |sinks|
  {
    if k < |sinks| {
      var init := sinks[..|sinks| - 1];
      assert init[..k] == sinks[..k];
      MovePlugsFails(cells, init, k, co);
    } else {
      assert sinks[..k] == sinks;
    }
  }

  lemma UseIs(cells: Cells, m: BitMap, b: Bit)
    ensures IsBitUsed(m, b) <==> HasUse(m, b)
    ensures UsedByOthers(cells, Sinks(m, b)) <==> HasOtherUse(cells, m, b)
  {
    if UsedByOthers(cells, Sinks(m, b)) {
      var k :| 0 <= k < |Sinks(m, b)| && !IsPlugPin(cells, Sinks(m, b)[k]);
      assert Sinks(m, b)[k] in m[b].sinks;
    }
  }

  /** The decision on a row that does not fail. */
  lemma DecideShows(cells: Cells, m: BitMap, r: Row, o: Bit, co: Bit, p: Pin, out: Bit)
    requires Conns(cells, r.cell, RowO(r.idx)) == [o] && Conns(cells, r.cell, RowCO(r.idx)) == [co]
    requires co in m && m[co].sinks == [p] && Conns(cells, p.cell, OUT) == [out]
    requires Decide(cells, m, r) != Fail
    ensures p.cell in cells && Decide(cells, m, r) ==
      if !(HasUse(m, o) && HasOtherUse(cells, m, out)) then Keep
      else if r.idx == 3 && r.last then Pop(p.cell) else Spill(p.cell, out, co)
  {
    hide HasUse, HasOtherUse, UsedByOthers, RestIdle, IsBitUsed;
    UseIs(cells, m, o);
    UseIs(cells, m, out);
  }

  lemma PerformShows(cells: Cells, m: BitMap, a: Action)
    requires Perform(cells, m, a).Some?
    ensures a == Keep ==> Perform(cells, m, a).value == cells
    ensures a.Pop? ==> a.direct in cells && Perform(cells, m, a).value[a.direct].typ == CoTopPop
    ensures a.Spill? ==> a.direct in Perform(cells, m, a).value && Perform(cells, m, a).value[a.direct].typ == CoLut
  {
    if a.Spill? {
      hide MovePlugs;
      MovePlugsKeeps(cells[a.direct := cells[a.direct].(typ := CoLut)], Sinks(m, a.out), a.co, a.direct);
    }
  }

  lemma RowShown(cells: Cells, m: BitMap, r: Row)
    ensures FixRow(cells, m, r).Some? ==> RowShows(cells, m, r, FixRow(cells, m, r).value)
  {
    hide HasUse, HasOtherUse, Decide, Perform;
    if FixRow(cells, m, r).Some? {
      ActionWorks(cells, m, Decide(cells, m, r));
      PerformShows(cells, m, Decide(cells, m, r));
      forall o, co, p: Pin, out |
        Conns(cells, r.cell, RowO(r.idx)) == [o] && Conns(cells, r.cell, RowCO(r.idx)) == [co]
        && co in m && m[co].sinks == [p] && Conns(cells, p.cell, OUT) == [out]
        ensures p.cell in cells && Decide(cells, m, r) ==
          if !(HasUse(m, o) && HasOtherUse(cells, m, out)) then Keep
          else if r.idx == 3 && r.last then Pop(p.cell) else Spill(p.cell, out, co)
      {
        DecideShows(cells, m, r, o, co, p, out);
      }
    }
  }

  lemma ActionWorks(cells: Cells, m: BitMap, a: Action)
    requires Perform(cells, m, a).Some?
    ensures a != Fail && (a.Pop? ==> a.direct in Perform(cells, m, a).value)
  {
  }

  /** Moving plugs changes no type. */
  lemma {:induction false} MovePlugsKeeps(cells: Cells, sinks: seq<Pin>, co: Bit, c: Name)
    requires MovePlugs(cells, sinks, co).Some? && c in cells
    ensures var now := MovePlugs(cells, sinks, co).value; c in now && now[c].typ == cells[c].typ
    decreases |sinks|
  {
    if sinks != [] { MovePlugsKeeps(cells, sinks[..|sinks| - 1], co, c); }
  }

  lemma {:induction false} FixRowsFails(cells: Cells, m: BitMap, rows: seq<Row>, more: seq<Row>)
    requires FixRows(cells, m, rows).None?
    ensures FixRows(cells, m, rows + more).None?
    decreases |more|
  {
    if more == [] {
      assert rows + more == rows;
    } else {
      var n := |more| - 1;
      FixRowsFails(cells, m, rows, more[..n]);
      FixRowsSnoc(cells, m, rows + more[..n], more[n]);
      assert rows + more == rows + more[..n] + [more[n]];
    }
  }

  lemma {:induction false} RowsPrefix(chain: seq<Name>, n: nat, k: nat)
    requires n <= k <= |chain|
    ensures |RowsOf(chain, n)| <= |RowsOf(chain, k)| && RowsOf(chain, k)[..|RowsOf(chain, n)|] == RowsOf(chain, n)
    decreases k
  {
    if n < k {
      RowsPrefix(chain, n, k - 1);
      assert RowsOf(chain, k)[..|RowsOf(chain, k - 1)|] == RowsOf(chain, k - 1);
    }
  }

  lemma {:induction false} AllRowsPrefix(chains: seq<seq<Name>>, n: nat, k: nat)
    requires n <= k <= |chains|
    ensures |AllRows(chains, n)| <= |AllRows(chains, k)|
      && AllRows(chains, k)[..|AllRows(chains, n)|] == AllRows(chains, n)
    decreases k
  {
    if n < k {
      AllRowsPrefix(chains, n, k - 1);
      assert AllRows(chains, k)[..|AllRows(chains, k - 1)|] == AllRows(chains, k - 1);
    }
  }

  // ----- the rows of separate chains -----

  /** Each row once. */
  ghost predicate Separate(rows: seq<Row>) {
    forall i, j :: 0 <= i < j < |rows| ==> rows[i].cell != rows[j].cell || rows[i].idx != rows[j].idx
  }

  /** A row of one of the first n cells of the chain. */
  ghost predicate RowOf(chain: seq<Name>, n: nat, r: Row)
    requires n <= |chain|
  {
    r.idx < 4 && exists i :: 0 <= i < n && chain[i] == r.cell && (r.last <==> i == |chain| - 1)
  }

  lemma SeparateConcat(a: seq<Row>, b: seq<Row>)
    requires Separate(a) && Separate(b)
    requires forall i, j :: 0 <= i < |a| && 0 <= j < |b| ==> a[i].cell != b[j].cell
    ensures Separate(a + b)
  {
  }

  lemma CellRowsAre(c: Name, last: bool)
    ensures Separate(CellRows(c, last))
    ensures forall r :: r in CellRows(c, last) <==> r.idx < 4 && r.cell == c && r.last == last
  {
    forall r ensures r in CellRows(c, last) <==> r.idx < 4 && r.cell == c && r.last == last {
      if r.idx < 4 && r.cell == c && r.last == last {
        assert CellRows(c, last)[r.idx] == r;
      }
    }
  }

  lemma {:induction false} RowsOfSeparate(chain: seq<Name>, n: nat)
    requires n <= |chain| && Distinct(chain)
    ensures Separate(RowsOf(chain, n))
    ensures forall r :: r in RowsOf(chain, n) <==> RowOf(chain, n, r)
  {
    if n > 0 {
      var before, four := RowsOf(chain, n - 1), CellRows(chain[n - 1], n == |chain|);
      RowsOfSeparate(chain, n - 1);
      CellRowsAre(chain[n - 1], n == |chain|);
      hide CellRows, Separate;
      forall i, j | 0 <= i < |before| && 0 <= j < |four| ensures before[i].cell != four[j].cell {
        assert RowOf(chain, n - 1, before[i]) && four[j] in four;
      }
      SeparateConcat(before, four);
      forall r ensures r in before + four <==> RowOf(chain, n, r) {
        assert r in before + four <==> r in before || r in four;
      }
    }
  }

  lemma {:induction false} AllRowsSeparate(chains: seq<seq<Name>>, n: nat)
    requires n <= |chains| && Apart(chains)
    ensures Separate(AllRows(chains, n))
    ensures forall r :: r in AllRows(chains, n) <==> exists k :: 0 <= k < n && RowOf(chains[k], |chains[k]|, r)
  {
    if n > 0 {
      var before, more := AllRows(chains, n - 1), RowsOf(chains[n - 1], |chains[n - 1]|);
      AllRowsSeparate(chains, n - 1);
      RowsOfSeparate(chains[n - 1], |chains[n - 1]|);
      hide Separate, RowsOf, AllRows;
      forall i, j | 0 <= i < |before| && 0 <= j < |more| ensures before[i].cell != more[j].cell {
        assert before[i] in before && more[j] in more;
        var k :| 0 <= k < n - 1 && RowOf(chains[k], |chains[k]|, before[i]);
        assert before[i].cell in chains[k] && more[j].cell in chains[n - 1];
      }
      SeparateConcat(before, more);
      forall r ensures r in before + more <==> exists k :: 0 <= k < n && RowOf(chains[k], |chains[k]|, r) {
        assert r in before + more <==> r in before || r in more;
      }
      assert AllRows(chains, n) == before + more by { AllRowsStep(chains, n); }
    }
  }

  lemma AllRowsStep(chains: seq<seq<Name>>, n: nat)
    requires 0 < n <= |chains|
    ensures AllRows(chains, n) == AllRows(chains, n - 1) + RowsOf(chains[n - 1], |chains[n - 1]|)
  {
  }

  /** The branch that uses the row above cannot be part of a run that ends well, even with the
      misspelt lookup in it put right: the row above has no sink on its CO net, and its own turn
      requires one. */
  lemma IdleRowFails(cells: Cells, m: BitMap, r: Row)
    requires r.idx < 3 && RestIdle(cells, m, r.cell, r.idx + 1) == Some(true)
    ensures Decide(cells, m, Row(r.cell, r.idx + 1, r.last)) == Fail
  {
  }
}
