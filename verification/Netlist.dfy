/** The Yosys netlist that utils/fix_xc7_carry.py rewrites, and the map from net bits to the cell
    ports on them. */
module Netlist {
  import opened Sequences

  datatype Name = Name(text: string)

  /** A net number, or a constant such as "0", "1" or "x". */
  datatype Bit = Net(n: int) | Const(value: char)

  datatype CellType = Carry4Vpr | CoutPlug | CoDirect | CoLut | CoTopPop | OtherCell(kind: string)

  /** Ports by role; the four rows of a CARRY4_VPR are numbered from 0. */
  datatype Port =
    | CIN | COUT | CYINIT | OUT | CO | O | S | DI
    | RowO(row: nat) | RowCO(row: nat) | RowS(row: nat) | RowDI(row: nat)
    | OtherPort(name: string)

  datatype Direction = Input | Output | Inout

  /** CYINIT_AX, CYINIT_C0, CYINIT_C1 and TOP_OF_CHAIN. */
  datatype Params = Params(cyinitAx: bool, cyinitC0: bool, cyinitC1: bool, topOfChain: bool)

  datatype Cell = Cell(typ: CellType, directions: map<Port, Direction>, conns: map<Port, seq<Bit>>, params: Params)

  type Cells = map<Name, Cell>

  datatype Pin = Pin(cell: Name, port: Port, idx: nat)

  /** The ports on one net: its driver, if any, and its sinks. */
  datatype Users = Users(driver: Option<Pin>, sinks: seq<Pin>)

  type BitMap = map<Bit, Users>

  predicate Carries(cells: Cells, p: Pin, b: Bit) {
    p.cell in cells && p.port in cells[p.cell].conns
    && p.idx < |cells[p.cell].conns[p.port]| && cells[p.cell].conns[p.port][p.idx] == b
  }

  predicate Drives(cells: Cells, p: Pin) {
    p.cell in cells && p.port in cells[p.cell].directions && cells[p.cell].directions[p.port] == Output
  }

  /** Two drivers on one net. */
  ghost predicate Clash(cells: Cells, p: Pin, q: Pin, b: Bit) {
    p != q && Carries(cells, p, b) && Carries(cells, q, b) && Drives(cells, p) && Drives(cells, q)
  }

  ghost predicate SingleDriver(cells: Cells) {
    !exists b, p, q :: Clash(cells, p, q, b)
  }

  /** One net's entry lists exactly the given pins on it: output ports as driver, others as sinks. */
  ghost predicate ListsUsers(cells: Cells, users: Users, done: set<Pin>, b: Bit) {
    && (forall p :: users.driver == Some(p) <==> p in done && Carries(cells, p, b) && Drives(cells, p))
    && (forall p :: p in users.sinks <==> p in done && Carries(cells, p, b) && !Drives(cells, p))
    && Distinct(users.sinks)
  }

  ghost predicate ListsBit(cells: Cells, m: BitMap, done: set<Pin>, b: Bit) {
    && (b in m <==> exists p :: p in done && Carries(cells, p, b))
    && (b in m ==> ListsUsers(cells, m[b], done, b))
  }

  ghost predicate Lists(cells: Cells, m: BitMap, done: set<Pin>) {
    forall b :: ListsBit(cells, m, done, b)
  }

  function PortPins(cells: Cells, c: Name, port: Port): set<Pin> {
    if c in cells && port in cells[c].conns then set i | 0 <= i < |cells[c].conns[port]| :: Pin(c, port, i) else {}
  }

  function CellPins(cells: Cells, c: Name): set<Pin> {
    if c in cells then set port, p | port in cells[c].conns && p in PortPins(cells, c, port) :: p else {}
  }

  function AllPins(cells: Cells): set<Pin> {
    set c, p | c in cells && p in CellPins(cells, c) :: p
  }

  lemma AllPinsAre(cells: Cells)
    ensures forall p :: p in AllPins(cells) <==> exists b :: Carries(cells, p, b)
  {
    forall p ensures p in AllPins(cells) <==> exists b :: Carries(cells, p, b) {
      if p in AllPins(cells) {
        assert Carries(cells, p, cells[p.cell].conns[p.port][p.idx]);
      }
      if b :| Carries(cells, p, b) {
        assert p in PortPins(cells, p.cell, p.port);
        assert p in CellPins(cells, p.cell);
      }
    }
  }

  lemma OtherBits(cells: Cells, m: BitMap, done: set<Pin>, p: Pin, b: Bit, users: Users, other: Bit)
    requires Carries(cells, p, b) && other != b
    requires ListsBit(cells, m, done, other)
    ensures ListsBit(cells, m[b := users], done + {p}, other)
  {
  }

  lemma NewUsers(cells: Cells, users: Users, done: set<Pin>, p: Pin, b: Bit)
    requires ListsUsers(cells, users, done, b) && p !in done && Carries(cells, p, b)
    ensures Drives(cells, p) && users.driver == None ==>
      ListsUsers(cells, Users(Some(p), users.sinks), done + {p}, b)
    ensures !Drives(cells, p) ==> ListsUsers(cells, Users(users.driver, users.sinks + [p]), done + {p}, b)
  {
  }

  lemma NoUsers(cells: Cells, m: BitMap, done: set<Pin>, b: Bit)
    requires ListsBit(cells, m, done, b) && b !in m
    ensures ListsUsers(cells, Users(None, []), done, b)
  {
  }

  /** Records one pin; None when the net already has a driver. */
  method AddPin(cells: Cells, m: BitMap, p: Pin, b: Bit, ghost done: set<Pin>) returns (r: Option<BitMap>)
    requires Lists(cells, m, done) && p !in done && Carries(cells, p, b)
    ensures r.None? ==> exists q :: Clash(cells, p, q, b)
    ensures r.Some? ==> Lists(cells, r.value, done + {p})
  {
    assert ListsBit(cells, m, done, b);
    var users := if b in m then m[b] else Users(None, []);
    if b !in m { NoUsers(cells, m, done, b); }
    NewUsers(cells, users, done, p, b);
    var after := users;
    if Drives(cells, p) {
      if users.driver.Some? {
        assert users.driver == Some(users.driver.value);
        assert Clash(cells, p, users.driver.value, b);
        return None;
      }
      after := users.(driver := Some(p));
    } else {
      after := users.(sinks := users.sinks + [p]);
    }
    var next := m[b := after];
    ghost var now := done + {p};
    forall other ensures ListsBit(cells, next, now, other) {
      hide ListsUsers;
      if other != b { OtherBits(cells, m, done, p, b, after, other); } else { assert p in now; }
    }
    r := Some(next);
  }

  /** Records the pins of one cell. */
  method AddCell(cells: Cells, m: BitMap, c: Name, ghost done: set<Pin>) returns (r: Option<BitMap>)
    requires Lists(cells, m, done) && c in cells
    requires forall p :: p in done ==> p.cell != c
    ensures r.None? ==> !SingleDriver(cells)
    ensures r.Some? ==> Lists(cells, r.value, done + CellPins(cells, c))
  {
    hide Lists, Clash;
    var conns := cells[c].conns;
    var left := conns.Keys;
    var cur := m;
    ghost var now := done;
    while left != {}
      invariant left <= conns.Keys
      invariant Lists(cells, cur, now)
      invariant forall p :: p in now <==> p in done || (p in CellPins(cells, c) && p.port !in left)
      decreases left
    {
      var port :| port in left;
      left := left - {port};
      for i := 0 to |conns[port]|
        invariant Lists(cells, cur, now)
        invariant forall p :: p in now <==>
          p in done || (p in CellPins(cells, c) && p.port !in left && (p.port == port ==> p.idx < i))
      {
        var p := Pin(c, port, i);
        PinOfCell(cells, c, port, i);
        var next := AddPin(cells, cur, p, conns[port][i], now);
        if next.None? {
          return None;
        }
        cur := next.value;
        now := now + {p};
      }
    }
    assert now == done + CellPins(cells, c);
    return Some(cur);
  }

  lemma PinOfCell(cells: Cells, c: Name, port: Port, i: nat)
    requires c in cells && port in cells[c].conns && i < |cells[c].conns[port]|
    ensures Pin(c, port, i) in CellPins(cells, c)
    ensures Carries(cells, Pin(c, port, i), cells[c].conns[port][i])
  {
    assert Pin(c, port, i) in PortPins(cells, c, port);
  }

  /** create_bit_to_cell_map: fails exactly when some net has two drivers. */
  method CreateBitToCellMap(cells: Cells) returns (r: Option<BitMap>)
    ensures r.Some? <==> SingleDriver(cells)
    ensures r.Some? ==> Lists(cells, r.value, AllPins(cells))
  {
    var left := cells.Keys;
    var m: BitMap := map[];
    ghost var done: set<Pin> := {};
    while left != {}
      invariant left <= cells.Keys
      invariant Lists(cells, m, done)
      invariant forall p :: p in done <==> p in AllPins(cells) && p.cell !in left
      decreases left
    {
      var c :| c in left;
      left := left - {c};
      var next := AddCell(cells, m, c, done);
      if next.None? {
        return None;
      }
      m := next.value;
      done := done + CellPins(cells, c);
    }
    assert done == AllPins(cells);
    ListsSingle(cells, m);
    r := Some(m);
  }

  lemma ListsSingle(cells: Cells, m: BitMap)
    requires Lists(cells, m, AllPins(cells))
    ensures SingleDriver(cells)
  {
    AllPinsAre(cells);
    forall b, p, q ensures !Clash(cells, p, q, b) {
      assert ListsBit(cells, m, AllPins(cells), b);
      if Carries(cells, p, b) && Carries(cells, q, b) && Drives(cells, p) && Drives(cells, q) {
        assert m[b].driver == Some(p) && m[b].driver == Some(q);
      }
    }
  }

  // ----- what the finished map says -----

  /** The driver and the sinks of a net, straight from the netlist. */
  lemma MapReads(cells: Cells, m: BitMap, b: Bit)
    requires Lists(cells, m, AllPins(cells)) && b in m
    ensures forall p :: m[b].driver == Some(p) <==> Carries(cells, p, b) && Drives(cells, p)
    ensures forall p :: p in m[b].sinks <==> Carries(cells, p, b) && !Drives(cells, p)
    ensures Distinct(m[b].sinks)
  {
    AllPinsAre(cells);
    assert ListsBit(cells, m, AllPins(cells), b);
  }

  lemma MapHas(cells: Cells, m: BitMap, p: Pin, b: Bit)
    requires Lists(cells, m, AllPins(cells)) && Carries(cells, p, b)
    ensures b in m
  {
    AllPinsAre(cells);
    assert ListsBit(cells, m, AllPins(cells), b);
  }
}
