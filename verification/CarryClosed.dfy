/** What a run of utils/fix_xc7_carry.py does to each cell, said of the netlist it started from: fixing one row
    leaves the others' outcome alone. */
module CarryClosed {
  import opened Sequences
  import opened Netlist
  import opened CarryChains
  import opened CarryFix

  // ----- the netlists carry_map.v leaves behind -----

  /** If the port is connected at all, it is an output (an input). */
  ghost predicate Sends(cells: Cells, c: Name, port: Port)
    requires c in cells
  {
    port in cells[c].conns ==> port in cells[c].directions && cells[c].directions[port] == Output
  }

  ghost predicate Takes(cells: Cells, c: Name, port: Port)
    requires c in cells
  {
    port in cells[c].conns ==> port in cells[c].directions && cells[c].directions[port] == Input
  }

  ghost predicate Proper(cells: Cells) {
    forall c :: c in cells ==>
      match cells[c].typ
      case Carry4Vpr => forall i :: 0 <= i < 4 ==> Sends(cells, c, RowO(i)) && Sends(cells, c, RowCO(i))
      case CoDirect => Sends(cells, c, OUT) && Takes(cells, c, CO)
      case CoutPlug => Sends(cells, c, COUT) && Takes(cells, c, CIN)
      case _ => true
  }

  /** The placeholder watching one row sees that row's CO, and O and S of the next row, or its own
      O, S and DI at the top. */
  ghost predicate Watches(cells: Cells, d: Name, c: Name, row: nat) {
    d in cells && cells[d].typ == CoDirect && IsCarry(cells, c)
    && (cells[d].params.topOfChain <==> row == 3)
    && var seen := if row == 3 then 3 else row + 1;
    && Single(Conns(cells, c, RowCO(row))).Some? && Conns(cells, d, CO) == Conns(cells, c, RowCO(row))
    && Single(Conns(cells, c, RowO(seen))).Some? && Conns(cells, d, O) == Conns(cells, c, RowO(seen))
    && Single(Conns(cells, c, RowS(seen))).Some? && Conns(cells, d, S) == Conns(cells, c, RowS(seen))
    && (row == 3 ==> Single(Conns(cells, c, RowDI(3))).Some? && Conns(cells, d, DI) == Conns(cells, c, RowDI(3)))
  }

  ghost predicate Shaped(cells: Cells) {
    forall c, row, d :: IsCarry(cells, c) && 0 <= row < 4 && d in cells && cells[d].typ == CoDirect
      && |Conns(cells, c, RowCO(row))| == 1 && Conns(cells, c, RowCO(row))[0] in Conns(cells, d, CO)
      ==> Watches(cells, d, c, row)
  }

  ghost predicate Mapped(cells: Cells, m: BitMap) {
    SingleDriver(cells) && Proper(cells) && Shaped(cells) && Lists(cells, m, AllPins(cells))
  }

  ghost predicate CarryRows(cells: Cells, rows: seq<Row>) {
    forall k :: 0 <= k < |rows| ==> IsCarry(cells, rows[k].cell) && rows[k].idx < 4
  }

  // ----- the outcome, cell by cell -----

  function NewType(a: Action): CellType { if a.Pop? then CoTopPop else CoLut }

  predicate Rewrites(cells: Cells, m: BitMap, r: Row, d: Name) {
    var a := Decide(cells, m, r);
    (a.Pop? || a.Spill?) && a.direct == d
  }

  /** The row is spilled to a LUT and the plug hangs off the net of that LUT. */
  predicate Feeds(cells: Cells, m: BitMap, r: Row, plug: Name) {
    var a := Decide(cells, m, r);
    a.Spill? && IsPlugPin(cells, Pin(plug, CIN, 0)) && Pin(plug, CIN, 0) in Sinks(m, a.out)
  }

  ghost predicate DirectAfter(before: Cells, m: BitMap, rows: seq<Row>, after: Cells, d: Name)
    requires d in before && d in after
  {
    && (forall k :: 0 <= k < |rows| && Rewrites(before, m, rows[k], d) ==>
          after[d] == before[d].(typ := NewType(Decide(before, m, rows[k]))))
    && ((forall k :: 0 <= k < |rows| ==> !Rewrites(before, m, rows[k], d)) ==> after[d] == before[d])
  }

  ghost predicate PlugAfter(before: Cells, m: BitMap, rows: seq<Row>, after: Cells, p: Name)
    requires p in before && p in after
  {
    && (forall k :: 0 <= k < |rows| && Feeds(before, m, rows[k], p) ==>
          after[p] == MovedPlug(before[p], Decide(before, m, rows[k]).co))
    && ((forall k :: 0 <= k < |rows| ==> !Feeds(before, m, rows[k], p)) ==> after[p] == before[p])
  }

  ghost predicate Fixed(before: Cells, m: BitMap, rows: seq<Row>, after: Cells) {
    && after.Keys == before.Keys
    && forall c :: c in before ==>
      match before[c].typ
      case CoDirect => DirectAfter(before, m, rows, after, c)
      case CoutPlug => PlugAfter(before, m, rows, after, c)
      case _ => after[c] == before[c]
  }

  // ----- different rows have different nets and placeholders -----

  /** A sink listed for a net is an input pin on it, and the other way round. */
  lemma SinkIs(cells: Cells, m: BitMap, b: Bit, p: Pin)
    requires Mapped(cells, m)
    ensures p in Sinks(m, b) <==> Carries(cells, p, b) && !Drives(cells, p)
  {
    if b in m { MapReads(cells, m, b); } else if Carries(cells, p, b) { MapHas(cells, m, p, b); }
  }

  lemma OneDriver(cells: Cells, m: BitMap, b: Bit, p: Pin, q: Pin)
    requires Mapped(cells, m)
    requires Carries(cells, p, b) && Drives(cells, p) && Carries(cells, q, b) && Drives(cells, q)
    ensures p == q
  {
    assert !Clash(cells, p, q, b);
  }

  /** The CO net of a row, with the row driving it. */
  lemma RowDrives(cells: Cells, m: BitMap, r: Row, co: Bit)
    requires Mapped(cells, m) && IsCarry(cells, r.cell) && r.idx < 4
    requires Single(Conns(cells, r.cell, RowCO(r.idx))) == Some(co)
    ensures Carries(cells, Pin(r.cell, RowCO(r.idx), 0), co) && Drives(cells, Pin(r.cell, RowCO(r.idx), 0))
  {
    hide SingleDriver, Lists, Shaped;
    assert Sends(cells, r.cell, RowCO(r.idx));
  }

  /** The placeholder found for a row watches that row. */
  lemma ObserverWatches(cells: Cells, m: BitMap, r: Row, co: Bit)
    requires Mapped(cells, m) && IsCarry(cells, r.cell) && r.idx < 4
    requires Single(Conns(cells, r.cell, RowCO(r.idx))) == Some(co) && Observer(cells, m, co).Some?
    ensures var (d, out) := Observer(cells, m, co).value;
      Watches(cells, d, r.cell, r.idx) && Single(Conns(cells, d, OUT)) == Some(out)
      && Carries(cells, Pin(d, OUT, 0), out) && Drives(cells, Pin(d, OUT, 0))
  {
    var p := Sinks(m, co)[0];
    assert p in Sinks(m, co);
    SinkIs(cells, m, co, p);
    assert co in Conns(cells, p.cell, CO);
    assert Sends(cells, p.cell, OUT);
  }

  /** Rows with the same CO net are the same row of the same cell. */
  lemma SameRow(cells: Cells, m: BitMap, r: Row, s: Row, co: Bit)
    requires Mapped(cells, m) && IsCarry(cells, r.cell) && r.idx < 4 && IsCarry(cells, s.cell) && s.idx < 4
    requires Single(Conns(cells, r.cell, RowCO(r.idx))) == Some(co)
    requires Single(Conns(cells, s.cell, RowCO(s.idx))) == Some(co)
    ensures r.cell == s.cell && r.idx == s.idx
  {
    hide Mapped;
    RowDrives(cells, m, r, co);
    RowDrives(cells, m, s, co);
    OneDriver(cells, m, co, Pin(r.cell, RowCO(r.idx), 0), Pin(s.cell, RowCO(s.idx), 0));
  }

  /** What a row that is acted on has. */
  lemma ActionFacts(cells: Cells, m: BitMap, r: Row)
    requires Mapped(cells, m) && IsCarry(cells, r.cell) && r.idx < 4
    requires var a := Decide(cells, m, r); a.Pop? || a.Spill?
    ensures var a := Decide(cells, m, r);
      Watches(cells, a.direct, r.cell, r.idx) && Single(Conns(cells, a.direct, OUT)).Some?
    ensures var a := Decide(cells, m, r); a.Spill? ==>
      Single(Conns(cells, r.cell, RowCO(r.idx))) == Some(a.co) && Single(Conns(cells, a.direct, OUT)) == Some(a.out)
      && Carries(cells, Pin(a.direct, OUT, 0), a.out) && Drives(cells, Pin(a.direct, OUT, 0))
    ensures var a := Decide(cells, m, r); a.Pop? ==> r.idx == 3 && r.last
  {
    hide Mapped, RestIdle, Watches;
    ObserverWatches(cells, m, r, Single(Conns(cells, r.cell, RowCO(r.idx))).value);
  }

  lemma SamePlaceholder(cells: Cells, m: BitMap, r: Row, s: Row, d: Name)
    requires Mapped(cells, m) && IsCarry(cells, r.cell) && r.idx < 4 && IsCarry(cells, s.cell) && s.idx < 4
    requires Watches(cells, d, r.cell, r.idx) && Watches(cells, d, s.cell, s.idx)
    ensures r.cell == s.cell && r.idx == s.idx
  {
    hide Mapped;
    SameRow(cells, m, r, s, Conns(cells, d, CO)[0]);
  }

  /** No two rows act on the same placeholder. */
  lemma RewritesOnce(cells: Cells, m: BitMap, r: Row, s: Row, d: Name)
    requires Mapped(cells, m) && IsCarry(cells, r.cell) && r.idx < 4 && IsCarry(cells, s.cell) && s.idx < 4
    requires Rewrites(cells, m, r, d) && Rewrites(cells, m, s, d)
    ensures r.cell == s.cell && r.idx == s.idx
  {
    hide Mapped, Watches, Decide;
    ActionFacts(cells, m, r);
    ActionFacts(cells, m, s);
    SamePlaceholder(cells, m, r, s, d);
  }

  /** No two rows move the same plug. */
  lemma FeedsOnce(cells: Cells, m: BitMap, r: Row, s: Row, plug: Name)
    requires Mapped(cells, m) && IsCarry(cells, r.cell) && r.idx < 4 && IsCarry(cells, s.cell) && s.idx < 4
    requires Feeds(cells, m, r, plug) && Feeds(cells, m, s, plug)
    ensures r.cell == s.cell && r.idx == s.idx
  {
    hide Mapped, Watches, Decide;
    var a, b := Decide(cells, m, r), Decide(cells, m, s);
    SinkIs(cells, m, a.out, Pin(plug, CIN, 0));
    SinkIs(cells, m, b.out, Pin(plug, CIN, 0));
    assert a.out == b.out;
    ActionFacts(cells, m, r);
    ActionFacts(cells, m, s);
    OneDriver(cells, m, a.out, Pin(a.direct, OUT, 0), Pin(b.direct, OUT, 0));
    SamePlaceholder(cells, m, r, s, a.direct);
  }

  // ----- what a run leaves alone -----

  /** Types, connections and parameters a run of rows cannot change. */
  lemma Keeps(before: Cells, m: BitMap, rows: seq<Row>, after: Cells, c: Name)
    requires Fixed(before, m, rows, after)
    ensures c in after <==> c in before
    ensures c in before ==> (after[c].typ == CoutPlug <==> before[c].typ == CoutPlug)
    ensures c in before && after[c].typ == CoDirect ==> before[c].typ == CoDirect
    ensures c in before && before[c].typ != CoutPlug ==>
      after[c].conns == before[c].conns && after[c].params == before[c].params
    ensures c in before && before[c].typ != CoutPlug && before[c].typ != CoDirect ==> after[c] == before[c]
  {
    hide Rewrites, Feeds, Decide;
    if c in before && before[c].typ == CoDirect {
      assert DirectAfter(before, m, rows, after, c);
    } else if c in before && before[c].typ == CoutPlug {
      assert PlugAfter(before, m, rows, after, c);
    }
  }

  /** The placeholder of a row that is not among the done ones is as it was. */
  lemma ObserverSame(before: Cells, m: BitMap, rows: seq<Row>, after: Cells, r: Row, co: Bit)
    requires Mapped(before, m) && Fixed(before, m, rows, after) && CarryRows(before, rows + [r]) && Separate(rows + [r])
    requires Single(Conns(before, r.cell, RowCO(r.idx))) == Some(co)
    ensures Observer(after, m, co) == Observer(before, m, co)
    ensures Observer(before, m, co).Some? ==> var d := Observer(before, m, co).value.0; after[d] == before[d]
  {
    var all := rows + [r];
    assert all[|rows|] == r;
    if |Sinks(m, co)| == 1 {
      Keeps(before, m, rows, after, Sinks(m, co)[0].cell);
    }
    if Observer(before, m, co).Some? {
      var d := Observer(before, m, co).value.0;
      hide Mapped, Watches, Decide;
      ObserverWatches(before, m, r, co);
      forall k | 0 <= k < |rows| ensures !Rewrites(before, m, rows[k], d) {
        if Rewrites(before, m, rows[k], d) {
          assert all[k] == rows[k];
          ActionFacts(before, m, rows[k]);
          SamePlaceholder(before, m, rows[k], r, d);
        }
      }
      assert d in before && before[d].typ == CoDirect;
      assert DirectAfter(before, m, rows, after, d);
    }
  }

  lemma OthersSame(before: Cells, m: BitMap, rows: seq<Row>, after: Cells, sinks: seq<Pin>)
    requires Fixed(before, m, rows, after)
    ensures forall p :: IsPlugPin(after, p) <==> IsPlugPin(before, p)
    ensures UsedByOthers(after, sinks) <==> UsedByOthers(before, sinks)
  {
    forall p ensures IsPlugPin(after, p) <==> IsPlugPin(before, p) {
      Keeps(before, m, rows, after, p.cell);
    }
    hide IsPlugPin;
  }

  lemma {:induction false} RestIdleSame(before: Cells, m: BitMap, after: Cells, c: Name, row: nat)
    requires c in before && c in after && before[c] == after[c]
    ensures RestIdle(after, m, c, row) == RestIdle(before, m, c, row)
    decreases 4 - row
  {
    if row < 4 { RestIdleSame(before, m, after, c, row + 1); }
  }

  /** Fixing rows never changes what is decided for another row. */
  lemma DecideSame(before: Cells, m: BitMap, rows: seq<Row>, after: Cells, r: Row)
    requires Mapped(before, m) && Fixed(before, m, rows, after) && CarryRows(before, rows + [r]) && Separate(rows + [r])
    ensures Decide(after, m, r) == Decide(before, m, r)
    ensures var a := Decide(before, m, r); a.Pop? || a.Spill? ==>
      a.direct in before && a.direct in after && before[a.direct].typ == CoDirect && after[a.direct] == before[a.direct]
  {
    assert (rows + [r])[|rows|] == r;
    Keeps(before, m, rows, after, r.cell);
    RestIdleSame(before, m, after, r.cell, r.idx + 1);
    hide Mapped, Fixed, RestIdle, UsedByOthers, Separate, CarryRows;
    var co := Single(Conns(before, r.cell, RowCO(r.idx)));
    if co.Some? {
      ObserverSame(before, m, rows, after, r, co.value);
      var seen := Observer(before, m, co.value);
      if seen.Some? { OthersSame(before, m, rows, after, Sinks(m, seen.value.1)); }
    }
  }

  // ----- one row more -----

  /** Moving plugs fails only on a plug pin that is not bit 0, and keeps every cell's type. */
  lemma {:induction false} MovePlugsWorks(cells: Cells, sinks: seq<Pin>, co: Bit)
    ensures MovePlugs(cells, sinks, co).Some? <==>
      forall k :: 0 <= k < |sinks| && IsPlugPin(cells, sinks[k]) ==> sinks[k].idx == 0
    ensures MovePlugs(cells, sinks, co).Some? ==>
      var now := MovePlugs(cells, sinks, co).value;
      now.Keys == cells.Keys && forall n :: n in cells ==> now[n].typ == cells[n].typ
    decreases |sinks|
  {
    if sinks != [] {
      var n := |sinks| - 1;
      MovePlugsWorks(cells, sinks[..n], co);
      assert forall k :: 0 <= k < n ==> sinks[k] == sinks[..n][k];
    }
  }

  predicate Moves(cells: Cells, sinks: seq<Pin>, c: Name) {
    IsPlugPin(cells, Pin(c, CIN, 0)) && Pin(c, CIN, 0) in sinks
  }

  /** What moving plugs does to each cell. */
  lemma {:induction false} MovePlugsEffect(cells: Cells, sinks: seq<Pin>, co: Bit, c: Name)
    requires MovePlugs(cells, sinks, co).Some? && c in cells
    ensures c in MovePlugs(cells, sinks, co).value
    ensures MovePlugs(cells, sinks, co).value[c] == if Moves(cells, sinks, c) then MovedPlug(cells[c], co) else cells[c]
    decreases |sinks|
  {
    if sinks != [] {
      var n := |sinks| - 1;
      var p := sinks[n];
      var now := MovePlugs(cells, sinks[..n], co).value;
      MovePlugsEffect(cells, sinks[..n], co, c);
      MovePlugsWorks(cells, sinks[..n], co);
      MovesSnoc(cells, sinks, c);
      MovedTwice(cells, c, co);
      hide MovedPlug, Moves;
      assert IsPlugPin(now, p) <==> IsPlugPin(cells, p);
    }
  }

  lemma MovesSnoc(cells: Cells, sinks: seq<Pin>, c: Name)
    requires sinks != []
    ensures var n := |sinks| - 1;
      Moves(cells, sinks, c) <==>
        Moves(cells, sinks[..n], c) || (sinks[n] == Pin(c, CIN, 0) && IsPlugPin(cells, sinks[n]))
  {
    assert sinks == sinks[..|sinks| - 1] + [sinks[|sinks| - 1]];
  }

  lemma MovedTwice(cells: Cells, c: Name, co: Bit)
    ensures c in cells ==> MovedPlug(MovedPlug(cells[c], co), co) == MovedPlug(cells[c], co)
  {
    if c in cells && CIN in cells[c].conns && |cells[c].conns[CIN]| > 0 {
      var bits := cells[c].conns[CIN];
      assert bits[0 := co][0 := co] == bits[0 := co];
      assert cells[c].conns[CIN := bits[0 := co]][CIN := bits[0 := co]] == cells[c].conns[CIN := bits[0 := co]];
    }
  }

  lemma OneMore(rows: seq<Row>, r: Row)
    ensures forall k :: 0 <= k < |rows| ==> (rows + [r])[k] == rows[k]
    ensures (rows + [r])[|rows|] == r
  {
  }

  /** The placeholder acted on. */
  lemma DirectStep(before: Cells, m: BitMap, rows: seq<Row>, after: Cells, r: Row, now: Cells, d: Name)
    requires Mapped(before, m) && CarryRows(before, rows + [r]) && Separate(rows + [r])
    requires d in before && d in after && d in now && DirectAfter(before, m, rows, after, d)
    requires Rewrites(before, m, r, d) ==> now[d] == before[d].(typ := NewType(Decide(before, m, r)))
    requires !Rewrites(before, m, r, d) ==> now[d] == after[d]
    ensures DirectAfter(before, m, rows + [r], now, d)
  {
    var all := rows + [r];
    OneMore(rows, r);
    hide Mapped, Rewrites, Decide, NewType;
    if Rewrites(before, m, r, d) {
      forall k | 0 <= k < |rows| ensures !Rewrites(before, m, all[k], d) {
        if Rewrites(before, m, all[k], d) { RewritesOnce(before, m, all[k], r, d); }
      }
      assert Rewrites(before, m, all[|rows|], d);
    } else {
      forall k | 0 <= k < |all| && Rewrites(before, m, all[k], d)
        ensures now[d] == before[d].(typ := NewType(Decide(before, m, all[k])))
      {
        assert k < |rows| && all[k] == rows[k];
      }
    }
  }

  /** The plug moved. */
  lemma PlugStep(before: Cells, m: BitMap, rows: seq<Row>, after: Cells, r: Row, now: Cells, p: Name)
    requires Mapped(before, m) && CarryRows(before, rows + [r]) && Separate(rows + [r])
    requires p in before && p in after && p in now && PlugAfter(before, m, rows, after, p)
    requires Feeds(before, m, r, p) ==> now[p] == MovedPlug(after[p], Decide(before, m, r).co)
    requires !Feeds(before, m, r, p) ==> now[p] == after[p]
    ensures PlugAfter(before, m, rows + [r], now, p)
  {
    var all := rows + [r];
    OneMore(rows, r);
    hide Mapped, IsPlugPin, Decide, MovedPlug;
    if Feeds(before, m, r, p) {
      forall k | 0 <= k < |rows| ensures !Feeds(before, m, all[k], p) && !Feeds(before, m, rows[k], p) {
        if Feeds(before, m, all[k], p) { FeedsOnce(before, m, all[k], r, p); }
      }
      assert Feeds(before, m, all[|rows|], p);
    } else {
      forall k | 0 <= k < |all| && Feeds(before, m, all[k], p)
        ensures now[p] == MovedPlug(before[p], Decide(before, m, all[k]).co)
      {
        assert k < |rows| && all[k] == rows[k];
      }
    }
  }

  /** What carrying out a decision does to each cell, when the acted-on placeholder is as it was. */
  lemma PerformEffect(before: Cells, m: BitMap, rows: seq<Row>, after: Cells, r: Row, c: Name)
    requires Fixed(before, m, rows, after) && Perform(after, m, Decide(before, m, r)).Some?
    requires var a := Decide(before, m, r); a.Pop? || a.Spill? ==>
      a.direct in before && a.direct in after && before[a.direct].typ == CoDirect && after[a.direct] == before[a.direct]
    ensures var now := Perform(after, m, Decide(before, m, r)).value;
      && now.Keys == after.Keys
      && (c in after ==>
        && (Rewrites(before, m, r, c) ==> now[c] == before[c].(typ := NewType(Decide(before, m, r))))
        && (Feeds(before, m, r, c) ==> now[c] == MovedPlug(after[c], Decide(before, m, r).co))
        && (!Rewrites(before, m, r, c) && !Feeds(before, m, r, c) ==> now[c] == after[c]))
  {
    var a := Decide(before, m, r);
    hide Decide, MovedPlug;
    if a.Spill? {
      var mid := after[a.direct := after[a.direct].(typ := CoLut)];
      MovePlugsWorks(mid, Sinks(m, a.out), a.co);
      Keeps(before, m, rows, after, c);
      hide Fixed;
      if c in mid { MovePlugsEffect(mid, Sinks(m, a.out), a.co, c); }
    }
  }

  /** One row more. */
  lemma FixedStep(before: Cells, m: BitMap, rows: seq<Row>, after: Cells, r: Row)
    requires Mapped(before, m) && Fixed(before, m, rows, after) && CarryRows(before, rows + [r]) && Separate(rows + [r])
    requires FixRow(after, m, r).Some?
    ensures Fixed(before, m, rows + [r], FixRow(after, m, r).value)
  {
    DecideSame(before, m, rows, after, r);
    var now := FixRow(after, m, r).value;
    hide Decide, Perform, Rewrites, Feeds, MovedPlug, CarryRows, Separate, Mapped, DirectAfter, PlugAfter, NewType;
    PerformEffect(before, m, rows, after, r, r.cell);
    forall c | c in before
      ensures match before[c].typ
        case CoDirect => DirectAfter(before, m, rows + [r], now, c)
        case CoutPlug => PlugAfter(before, m, rows + [r], now, c)
        case _ => now[c] == before[c]
    {
      CellStep(before, m, rows, after, r, c);
    }
  }

  lemma CellStep(before: Cells, m: BitMap, rows: seq<Row>, after: Cells, r: Row, c: Name)
    requires Mapped(before, m) && Fixed(before, m, rows, after) && CarryRows(before, rows + [r]) && Separate(rows + [r])
    requires Perform(after, m, Decide(before, m, r)).Some? && c in before
    requires var a := Decide(before, m, r); a.Pop? || a.Spill? ==>
      a.direct in before && a.direct in after && before[a.direct].typ == CoDirect && after[a.direct] == before[a.direct]
    ensures var now := Perform(after, m, Decide(before, m, r)).value;
      c in now && match before[c].typ
        case CoDirect => DirectAfter(before, m, rows + [r], now, c)
        case CoutPlug => PlugAfter(before, m, rows + [r], now, c)
        case _ => now[c] == before[c]
  {
    var now := Perform(after, m, Decide(before, m, r)).value;
    hide Decide, Perform, Rewrites, Feeds, MovedPlug, CarryRows, Separate, Mapped, DirectAfter, PlugAfter, NewType;
    PerformEffect(before, m, rows, after, r, c);
    CellKind(before, m, r, c);
    if before[c].typ == CoDirect {
      DirectStep(before, m, rows, after, r, now, c);
    } else if before[c].typ == CoutPlug {
      PlugStep(before, m, rows, after, r, now, c);
    }
  }

  lemma CellKind(before: Cells, m: BitMap, r: Row, c: Name)
    requires c in before
    ensures Rewrites(before, m, r, c) ==> before[c].typ == CoDirect
    ensures Feeds(before, m, r, c) ==> before[c].typ == CoutPlug
  {
    hide RestIdle, UsedByOthers;
  }

  lemma NothingFixed(before: Cells, m: BitMap)
    ensures Fixed(before, m, [], before)
  {
  }

  /** A run that ends well leaves every cell as the starting netlist calls for. */
  lemma {:induction false} RunIsFixed(before: Cells, m: BitMap, rows: seq<Row>)
    requires Mapped(before, m) && CarryRows(before, rows) && Separate(rows) && FixRows(before, m, rows).Some?
    ensures Fixed(before, m, rows, FixRows(before, m, rows).value)
    decreases |rows|
  {
    hide Mapped, Fixed, FixRow;
    if rows == [] {
      NothingFixed(before, m);
    } else {
      var n := |rows| - 1;
      assert rows == rows[..n] + [rows[n]];
      RunIsFixed(before, m, rows[..n]);
      FixedStep(before, m, rows[..n], FixRows(before, m, rows[..n]).value, rows[n]);
    }
  }

  /** The pins a spilled row moves are all bit 0 of their plug. */
  ghost predicate PlugsAreSingle(before: Cells, m: BitMap, r: Row) {
    var a := Decide(before, m, r);
    a.Spill? ==> forall k :: 0 <= k < |Sinks(m, a.out)| && IsPlugPin(before, Sinks(m, a.out)[k]) ==>
      Sinks(m, a.out)[k].idx == 0
  }

  lemma RowWorks(before: Cells, m: BitMap, rows: seq<Row>, after: Cells, r: Row)
    requires Mapped(before, m) && Fixed(before, m, rows, after) && CarryRows(before, rows + [r]) && Separate(rows + [r])
    ensures FixRow(after, m, r).Some? <==> Decide(before, m, r) != Fail && PlugsAreSingle(before, m, r)
  {
    DecideSame(before, m, rows, after, r);
    hide Decide, MovedPlug, Mapped, CarryRows, Separate;
    var a := Decide(before, m, r);
    if a.Spill? {
      var mid := after[a.direct := after[a.direct].(typ := CoLut)];
      var sinks := Sinks(m, a.out);
      MovePlugsWorks(mid, sinks, a.co);
      OthersSame(before, m, rows, after, sinks);
      hide Fixed, MovePlugs;
    }
  }

  /** A run ends well exactly when no row's checks fail on the starting netlist. */
  lemma {:induction false} RunWorks(before: Cells, m: BitMap, rows: seq<Row>)
    requires Mapped(before, m) && CarryRows(before, rows) && Separate(rows)
    ensures FixRows(before, m, rows).Some? <==>
      forall k :: 0 <= k < |rows| ==> Decide(before, m, rows[k]) != Fail && PlugsAreSingle(before, m, rows[k])
    decreases |rows|
  {
    hide Mapped, Fixed, FixRow, Decide, PlugsAreSingle;
    if rows != [] {
      var n := |rows| - 1;
      assert rows == rows[..n] + [rows[n]];
      RunWorks(before, m, rows[..n]);
      assert forall k :: 0 <= k < n ==> rows[..n][k] == rows[k];
      if FixRows(before, m, rows[..n]).Some? {
        RunIsFixed(before, m, rows[..n]);
        RowWorks(before, m, rows[..n], FixRows(before, m, rows[..n]).value, rows[n]);
      }
    }
  }
}
