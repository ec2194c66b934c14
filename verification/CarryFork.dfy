/** Two carry cells plugged to the same CO net: the chain search finishes and leaves one of them out.
    The netlist has six cells and one driver for every net: a root whose CO3 feeds one CARRY_CO_DIRECT,
    and two plugs on the net of that cell, each leading to the CIN of a carry cell. Only one of the
    two is remembered for the CO net. */
module CarryFork {
  import opened Sequences
  import opened Netlist
  import opened CarryChains

  const PLAIN := Params(false, false, false, false)

  const START := Name("start")
  const DIRECT := Name("direct")
  const PLUG_A := Name("a plug")
  const PLUG_B := Name("b plug")
  const CELL_A := Name("a")
  const CELL_B := Name("b")

  function Plug(cout: int): Cell {
    Cell(CoutPlug, map[CIN := Input, COUT := Output], map[CIN := [Net(2)], COUT := [Net(cout)]], PLAIN)
  }

  function Fork(): Cells {
    map[
      START := Cell(Carry4Vpr, map[RowCO(3) := Output], map[RowCO(3) := [Net(1)]], PLAIN),
      DIRECT := Cell(CoDirect, map[CO := Input, OUT := Output], map[CO := [Net(1)], OUT := [Net(2)]], PLAIN),
      PLUG_A := Plug(3),
      PLUG_B := Plug(4),
      CELL_A := Cell(Carry4Vpr, map[CIN := Input], map[CIN := [Net(3)]], PLAIN),
      CELL_B := Cell(Carry4Vpr, map[CIN := Input], map[CIN := [Net(4)]], PLAIN)
    ]
  }

  /** What the netlist holds, with its six names apart. */
  lemma ForkCells()
    ensures CELL_A != CELL_B
    ensures forall c :: c in Fork() <==>
      c == START || c == DIRECT || c == PLUG_A || c == PLUG_B || c == CELL_A || c == CELL_B
    ensures Fork()[START] == Cell(Carry4Vpr, map[RowCO(3) := Output], map[RowCO(3) := [Net(1)]], PLAIN)
    ensures Fork()[DIRECT] ==
      Cell(CoDirect, map[CO := Input, OUT := Output], map[CO := [Net(1)], OUT := [Net(2)]], PLAIN)
    ensures Fork()[PLUG_A] == Plug(3) && Fork()[PLUG_B] == Plug(4)
    ensures Fork()[CELL_A] == Cell(Carry4Vpr, map[CIN := Input], map[CIN := [Net(3)]], PLAIN)
    ensures Fork()[CELL_B] == Cell(Carry4Vpr, map[CIN := Input], map[CIN := [Net(4)]], PLAIN)
  {
    assert "start"[0] == 's' && "direct"[0] == 'd' && "a plug"[0] == 'a' && "b plug"[0] == 'b';
    assert "a"[0] == 'a' && "b"[0] == 'b' && |"a"| == 1 && |"b"| == 1 && |"a plug"| == 6 && |"b plug"| == 6;
  }

  /** The driver recorded for a net is the pin that drives it. */
  lemma DriverFound(cells: Cells, m: BitMap, p: Pin, b: Bit)
    requires Lists(cells, m, AllPins(cells)) && Carries(cells, p, b) && Drives(cells, p)
    ensures b in m && m[b].driver == Some(p)
  {
    MapHas(cells, m, p, b);
    MapReads(cells, m, b);
  }

  lemma DriverSeen(cells: Cells, m: BitMap, c: Name, port: Port, x: Bit, d: Name, via: Port)
    requires Lists(cells, m, AllPins(cells))
    requires Conns(cells, c, port) == [x] && Carries(cells, Pin(d, via, 0), x) && Drives(cells, Pin(d, via, 0))
    ensures DriverOf(cells, m, c, port, cells[d].typ, via) == Some(d)
  {
    hide Lists, AllPins;
    DriverFound(cells, m, Pin(d, via, 0), x);
  }

  /** The two plugged cells hang off net 1. */
  lemma FedByFork(m: BitMap, c: Name, plug: Name, cin: int)
    requires Lists(Fork(), m, AllPins(Fork()))
    requires (c == CELL_A && plug == PLUG_A && cin == 3) || (c == CELL_B && plug == PLUG_B && cin == 4)
    ensures FeedOf(Fork(), m, c) == Via(Net(1))
  {
    hide Lists, AllPins, Fork, START, DIRECT, PLUG_A, PLUG_B, CELL_A, CELL_B, DriverOf;
    ForkCells();
    assert Fork()[plug] == Plug(cin);
    assert CIN in Fork()[c].conns && Fork()[c].conns[CIN] == [Net(cin)];
    DriverSeen(Fork(), m, c, CIN, Net(cin), plug, COUT);
    DriverSeen(Fork(), m, plug, CIN, Net(2), DIRECT, OUT);
    assert Conns(Fork(), DIRECT, CO) == [Net(1)];
  }

  lemma ForkCarries()
    ensures Co3Drives(Fork())
    ensures CIN !in Fork()[START].conns && Conns(Fork(), START, RowCO(3)) == [Net(1)]
    ensures forall c :: IsCarry(Fork(), c) <==> c == START || c == CELL_A || c == CELL_B
  {
    hide Fork, START, DIRECT, PLUG_A, PLUG_B, CELL_A, CELL_B;
    ForkCells();
  }

  /** The four driving pins, each with its net. */
  lemma ForkDriver(p: Pin, b: Bit)
    requires Carries(Fork(), p, b) && Drives(Fork(), p)
    ensures (p, b) == (Pin(START, RowCO(3), 0), Net(1)) || (p, b) == (Pin(DIRECT, OUT, 0), Net(2))
      || (p, b) == (Pin(PLUG_A, COUT, 0), Net(3)) || (p, b) == (Pin(PLUG_B, COUT, 0), Net(4))
  {
    hide Fork, START, DIRECT, PLUG_A, PLUG_B, CELL_A, CELL_B;
    ForkCells();
  }

  lemma ForkDrivers()
    ensures SingleDriver(Fork())
  {
    hide Fork, Carries, Drives;
    forall b, p, q ensures !Clash(Fork(), p, q, b) {
      if Clash(Fork(), p, q, b) {
        ForkDriver(p, b);
        ForkDriver(q, b);
      }
    }
  }

  /** The search ends without complaint, and a cell is missing from its chains. */
  lemma ForkLosesACell(m: BitMap, order: seq<Name>)
    requires Lists(Fork(), m, AllPins(Fork())) && forall c :: c in order <==> c in Fork()
    ensures SharedFeed(Fork(), m, CELL_A, CELL_B)
    ensures ChainsFound(Fork(), order, m)
  {
    hide Lists, AllPins, Fork, START, CELL_A, CELL_B, FeedOf, IsCarry, SingleDriver, Co3Drives, Conns, OnWalk, Hanging;
    ForkDrivers();
    ForkCarries();
    ForkNames();
    StartIsRoot(m);
    FedByFork(m, CELL_A, PLUG_A, 3);
    FedByFork(m, CELL_B, PLUG_B, 4);
    HangingRecorded(Fork(), m, order);
    ForkWalks(m, order, Hanging(Fork(), m, order));
  }

  lemma ForkNames()
    ensures CELL_A != CELL_B
  {
    ForkCells();
  }

  lemma StartIsRoot(m: BitMap)
    ensures FeedOf(Fork(), m, START) == Root
  {
    hide Fork, START;
    ForkCarries();
  }

  lemma ForkWalks(m: BitMap, order: seq<Name>, hanging: NonRoots)
    requires Recorded(Fork(), m, order, hanging)
    requires FeedOf(Fork(), m, START) == Root && FeedOf(Fork(), m, CELL_A) == Via(Net(1))
      && FeedOf(Fork(), m, CELL_B) == Via(Net(1))
    ensures forall b :: b in hanging ==> OnWalk(Fork(), m, hanging, hanging[b])
  {
    hide Fork, START, CELL_A, CELL_B, FeedOf, IsCarry, Conns;
    ForkCarries();
    forall b | b in hanging ensures OnWalk(Fork(), m, hanging, hanging[b]) {
      assert b == Net(1);
      var w := [START, hanging[b]];
      assert NextFrom([Net(1)], hanging) == Some(hanging[b]);
      assert IsWalk(Fork(), m, hanging, w);
    }
  }

  /** The cells in some order, each once. */
  function ForkOrder(): (order: seq<Name>)
    ensures Distinct(order) && forall c :: c in order <==> c in Fork()
  {
    assert "start"[0] == 's' && "direct"[0] == 'd' && "a plug"[0] == 'a' && "b plug"[0] == 'b';
    assert "a"[0] == 'a' && "b"[0] == 'b' && |"a"| == 1 && |"b"| == 1 && |"a plug"| == 6 && |"b plug"| == 6;
    [START, DIRECT, PLUG_A, PLUG_B, CELL_A, CELL_B]
  }

  /** Both steps of the search run on the netlist: neither complains, and some carry cell is in no
      chain. */
  method SearchFork() returns (r: Option<seq<seq<Name>>>)
    ensures r.Some? && exists c :: IsCarry(Fork(), c) && !InChains(r.value, c)
  {
    hide Fork, IsCarry, InChains, SharedFeed, ChainsFound, Lists, AllPins, SingleDriver, Co3Drives, IsChain, Apart;
    ForkDrivers();
    ForkCarries();
    var m := CreateBitToCellMap(Fork());
    ForkLosesACell(m.value, ForkOrder());
    r := FindChains(Fork(), ForkOrder(), m.value);
  }
}
