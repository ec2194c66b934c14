/** What splitting inouts keeps: the halves get nets of their own, and two pins share a net afterwards
    exactly when they did before, on the same side of an inout. */
module SplitInoutsProof {
  import opened Sequences
  import opened Netlist
  import opened SplitInouts

  /** Bit i of port k is a net. */
  ghost predicate IsSlot(splits: seq<Split>, k: int, i: int) {
    0 <= k < |splits| && 0 <= i < |splits[k].bits| && splits[k].bits[i].Net?
  }

  /** Inout nets do not repeat, in one port or across ports, and are all in use. */
  ghost predicate Separate(splits: seq<Split>, nets: set<Bit>) {
    && (forall k, i :: IsSlot(splits, k, i) ==> splits[k].bits[i] in nets)
    && forall k, i, l, j :: IsSlot(splits, k, i) && IsSlot(splits, l, j) && splits[k].bits[i] == splits[l].bits[j] ==>
      k == l && i == j
  }

  /** The net given to a slot for one direction. */
  ghost function Half(splits: seq<Split>, k: int, i: int, output: bool): Bit
    requires Sized(splits) && IsSlot(splits, k, i)
  {
    if output then splits[k].outputs[i] else splits[k].inputs[i]
  }

  ghost function Left(splits: seq<Split>, nets: set<Bit>, k: nat): set<Bit>
    requires Sized(splits) && k < |splits|
  {
    NetsAt(splits, nets, k) - Nets(splits[k].bits)
  }

  /** An allocated half is not among the nets left when its port gave up its own, nor among the halves
      allocated before it for the same port. */
  lemma HalfAvoids(splits: seq<Split>, nets: set<Bit>, k: nat, i: nat, output: bool)
    requires AllSplit(splits, nets) && IsSlot(splits, k, i)
    ensures Half(splits, k, i, output).Net? && Half(splits, k, i, output) !in Left(splits, nets, k)
    ensures forall j :: 0 <= j < i && IsSlot(splits, k, j) ==> Half(splits, k, i, output) != Half(splits, k, j, output)
    ensures output ==> forall j :: IsSlot(splits, k, j) ==> Half(splits, k, i, true) != Half(splits, k, j, false)
  {
    var s, left := splits[k], Left(splits, nets, k);
    assert SplitAt(splits, nets, k);
    hide NetsAt, Nets, IsFree;
    var half := if output then s.outputs else s.inputs;
    var base := if output then left + Given(s.bits, s.inputs, |s.bits|) else left;
    assert MayGet(s.bits[i], base + Given(s.bits, half, i), half[i]);
    var lo :| IsFree(base + Given(s.bits, half, i), lo, half[i].n);
    FreeIsNew(base + Given(s.bits, half, i), lo, half[i]);
    forall j | 0 <= j < i && IsSlot(splits, k, j) ensures half[j] in Given(s.bits, half, i) {}
    forall j | output && IsSlot(splits, k, j) ensures s.inputs[j] in base {
      assert s.inputs[j] in Given(s.bits, s.inputs, |s.bits|);
    }
  }

  lemma FreeIsNew(nets: set<Bit>, lo: int, free: Bit)
    requires free.Net? && IsFree(nets, lo, free.n)
    ensures free !in nets
  {
    assert free == Net(free.n);
  }

  /** A net stays in use until its port's turn. */
  lemma {:induction false} StaysInUse(splits: seq<Split>, nets: set<Bit>, k: nat, b: Bit)
    requires AllSplit(splits, nets) && k <= |splits| && b in nets
    requires forall l :: 0 <= l < k ==> b !in Nets(splits[l].bits)
    ensures b in NetsAt(splits, nets, k)
  {
    if k > 0 { StaysInUse(splits, nets, k - 1, b); }
  }

  lemma NetsAre(splits: seq<Split>, k: nat, b: Bit)
    requires k < |splits|
    ensures b in Nets(splits[k].bits) <==> exists i :: IsSlot(splits, k, i) && splits[k].bits[i] == b
  {
    if b in Nets(splits[k].bits) {
      var i :| 0 <= i < |splits[k].bits| && splits[k].bits[i] == b;
      assert IsSlot(splits, k, i);
    }
  }

  /** A net of a later port is in use at an earlier port's turn. */
  lemma LaterInUse(splits: seq<Split>, nets: set<Bit>, k: nat, l: nat, j: nat)
    requires AllSplit(splits, nets) && Separate(splits, nets) && k < l && IsSlot(splits, l, j)
    ensures splits[l].bits[j] in Left(splits, nets, k)
  {
    var b := splits[l].bits[j];
    forall m | 0 <= m <= k ensures b !in Nets(splits[m].bits) { NetsAre(splits, m, b); }
    hide Nets, AllSplit;
    StaysInUse(splits, nets, k, b);
  }

  /** A half is no net of a later port, so it stays in use. */
  lemma {:induction false} HalfStays(splits: seq<Split>, nets: set<Bit>, k: nat, i: nat, output: bool, l: nat)
    requires AllSplit(splits, nets) && Separate(splits, nets) && IsSlot(splits, k, i) && k < l <= |splits|
    ensures Half(splits, k, i, output) in NetsAt(splits, nets, l)
    ensures l < |splits| ==> Half(splits, k, i, output) in Left(splits, nets, l)
    decreases l
  {
    var h := Half(splits, k, i, output);
    HalfAvoids(splits, nets, k, i, output);
    if l == k + 1 {
      assert h in Given(splits[k].bits, if output then splits[k].outputs else splits[k].inputs, |splits[k].bits|);
    } else {
      HalfStays(splits, nets, k, i, output, l - 1);
    }
    if l < |splits| {
      NetsAre(splits, l, h);
      if j :| IsSlot(splits, l, j) && splits[l].bits[j] == h { LaterInUse(splits, nets, k, l, j); }
    }
  }

  /** All halves differ. */
  lemma HalvesDiffer(splits: seq<Split>, nets: set<Bit>, k: nat, i: nat, output: bool, l: nat, j: nat, output': bool)
    requires AllSplit(splits, nets) && Separate(splits, nets) && IsSlot(splits, k, i) && IsSlot(splits, l, j)
    requires Half(splits, k, i, output) == Half(splits, l, j, output')
    ensures k == l && i == j && output == output'
  {
    hide Separate, AllSplit, Left, NetsAt;
    HalfAvoids(splits, nets, k, i, output);
    HalfAvoids(splits, nets, l, j, output');
    if k < l {
      HalfStays(splits, nets, k, i, output, l);
    } else if l < k {
      HalfStays(splits, nets, l, j, output', k);
    }
  }

  /** No half is a net still used by anything but the inouts. */
  lemma HalfUnused(splits: seq<Split>, nets: set<Bit>, k: nat, i: nat, output: bool, b: Bit)
    requires AllSplit(splits, nets) && IsSlot(splits, k, i) && b in nets
    requires forall l :: 0 <= l < |splits| ==> b !in Nets(splits[l].bits)
    ensures Half(splits, k, i, output) != b
  {
    StaysInUse(splits, nets, k, b);
    HalfAvoids(splits, nets, k, i, output);
  }

  // ----- the net map -----

  lemma {:induction false} EnteredAt(m: map<Bit, Bit>, bits: seq<Bit>, half: seq<Bit>, b: Bit)
    requires |bits| == |half|
    ensures b in Entered(m, bits, half) <==> b in m || b in Nets(bits)
    ensures b !in Nets(bits) && b in m ==> Entered(m, bits, half)[b] == m[b]
    ensures b in Nets(bits) ==> exists i :: 0 <= i < |bits| && bits[i] == b && Entered(m, bits, half)[b] == half[i]
  {
    if bits != [] {
      var n := |bits| - 1;
      EnteredAt(m, bits[..n], half[..n], b);
      assert bits == bits[..n] + [bits[n]];
      if bits[n] == b && b.Net? {
        assert Entered(m, bits, half)[b] == half[n];
      } else if b in Nets(bits) {
        assert b in bits[..n];
        var i :| 0 <= i < n && bits[..n][i] == b && Entered(m, bits[..n], half[..n])[b] == half[..n][i];
        assert bits[i] == b;
      }
    }
  }

  /** The map has exactly the inout nets, and each net the halves of its own slot. */
  ghost predicate MapsSlots(splits: seq<Split>, m: NetMap, b: Bit)
    requires Sized(splits)
  {
    && (b in m.inputs <==> b in m.outputs)
    && (b in m.inputs <==> exists k, i :: IsSlot(splits, k, i) && splits[k].bits[i] == b)
    && forall k, i :: IsSlot(splits, k, i) && splits[k].bits[i] == b ==>
      b in m.inputs && b in m.outputs && m.inputs[b] == Half(splits, k, i, false)
        && m.outputs[b] == Half(splits, k, i, true)
  }

  lemma {:induction false} MapHalves(splits: seq<Split>, nets: set<Bit>, b: Bit)
    requires Sized(splits) && Separate(splits, nets)
    ensures MapsSlots(splits, MapOf(splits), b)
  {
    if splits != [] {
      var n := |splits| - 1;
      SeparatePrefix(splits, nets);
      MapHalves(splits[..n], nets, b);
      hide Separate, Nets, MapsSlots;
      LastHalves(splits, nets, MapOf(splits[..n]), b);
    }
  }

  lemma SeparatePrefix(splits: seq<Split>, nets: set<Bit>)
    requires splits != [] && Sized(splits) && Separate(splits, nets)
    ensures Sized(splits[..|splits| - 1]) && Separate(splits[..|splits| - 1], nets)
  {
    var init := splits[..|splits| - 1];
    forall k, i | IsSlot(init, k, i) ensures IsSlot(splits, k, i) && splits[k].bits[i] in nets {}
  }

  lemma LastHalves(splits: seq<Split>, nets: set<Bit>, m: NetMap, b: Bit)
    requires splits != [] && Sized(splits) && Sized(splits[..|splits| - 1]) && Separate(splits, nets)
    requires MapsSlots(splits[..|splits| - 1], m, b)
    ensures var s := splits[|splits| - 1];
      MapsSlots(splits, NetMap(Entered(m.inputs, s.bits, s.inputs), Entered(m.outputs, s.bits, s.outputs)), b)
  {
    var n := |splits| - 1;
    var s, init := splits[n], splits[..n];
    EnteredAt(m.inputs, s.bits, s.inputs, b);
    EnteredAt(m.outputs, s.bits, s.outputs, b);
    NetsAre(splits, n, b);
    hide Entered, Nets;
    forall k, i ensures IsSlot(splits, k, i) <==> IsSlot(init, k, i) || (k == n && IsSlot(splits, n, i)) {}
    if i :| IsSlot(splits, n, i) && s.bits[i] == b {
      assert forall k, j :: IsSlot(splits, k, j) && splits[k].bits[j] == b ==> k == n && j == i;
    } else if k, i :| IsSlot(init, k, i) && init[k].bits[i] == b {
      assert IsSlot(splits, k, i);
      forall l, j | IsSlot(splits, l, j) && splits[l].bits[j] == b ensures l == k && j == i {}
    }
  }

  /** The nets of the inout ports. */
  ghost function Gone(splits: seq<Split>): set<Bit> { set k, b | 0 <= k < |splits| && b in Nets(splits[k].bits) :: b }

  ghost function HalfOf(m: NetMap, b: Bit, output: bool): Bit
    requires b in m.inputs && b in m.outputs
  {
    if output then m.outputs[b] else m.inputs[b]
  }

  /** Every inout net has two halves of its own: all are nets, all differ, and none is used otherwise. */
  ghost predicate GoodMap(m: NetMap, gone: set<Bit>, nets: set<Bit>) {
    && m.inputs.Keys == m.outputs.Keys == gone && OnlyNets(gone)
    && (forall b, o :: b in gone ==> HalfOf(m, b, o).Net? && (HalfOf(m, b, o) in nets ==> HalfOf(m, b, o) in gone))
    && forall a, b, o, u :: a in gone && b in gone && HalfOf(m, a, o) == HalfOf(m, b, u) ==> a == b && o == u
  }

  lemma SlotOf(splits: seq<Split>, b: Bit) returns (k: int, i: int)
    requires b in Gone(splits)
    ensures IsSlot(splits, k, i) && splits[k].bits[i] == b
  {
    k :| 0 <= k < |splits| && b in Nets(splits[k].bits);
    NetsAre(splits, k, b);
    i :| IsSlot(splits, k, i) && splits[k].bits[i] == b;
  }

  lemma HalfIs(splits: seq<Split>, nets: set<Bit>, b: Bit, k: int, i: int, output: bool)
    requires Sized(splits) && Separate(splits, nets) && IsSlot(splits, k, i) && splits[k].bits[i] == b
    ensures b in MapOf(splits).inputs && b in MapOf(splits).outputs
    ensures HalfOf(MapOf(splits), b, output) == Half(splits, k, i, output)
  {
    hide Separate;
    MapHalves(splits, nets, b);
  }

  /** The map the split leaves is such a map. */
  lemma MapIsGood(splits: seq<Split>, nets: set<Bit>)
    requires AllSplit(splits, nets) && Separate(splits, nets)
    ensures GoodMap(MapOf(splits), Gone(splits), nets)
  {
    var m, gone := MapOf(splits), Gone(splits);
    hide Separate, MapOf, Half, Nets, SplitAt, HalfOf;
    forall b ensures (b in m.inputs <==> b in gone) && (b in m.outputs <==> b in gone) {
      MapHalves(splits, nets, b);
      GoneIs(splits, b);
    }
    hide Gone;
    forall b, o | b in gone ensures HalfOf(m, b, o).Net? && (HalfOf(m, b, o) in nets ==> HalfOf(m, b, o) in gone) {
      var k, i := SlotOf(splits, b);
      HalfIs(splits, nets, b, k, i, o);
      HalfAvoids(splits, nets, k, i, o);
      UnlessGone(splits, nets, k, i, o);
    }
    forall a, b, o, u | a in gone && b in gone && HalfOf(m, a, o) == HalfOf(m, b, u) ensures a == b && o == u {
      var k, i := SlotOf(splits, a);
      var l, j := SlotOf(splits, b);
      HalfIs(splits, nets, a, k, i, o);
      HalfIs(splits, nets, b, l, j, u);
      HalvesDiffer(splits, nets, k, i, o, l, j, u);
    }
  }

  lemma GoneIs(splits: seq<Split>, b: Bit)
    ensures b in Gone(splits) <==> exists k, i :: IsSlot(splits, k, i) && splits[k].bits[i] == b
  {
    if k, i :| IsSlot(splits, k, i) && splits[k].bits[i] == b {
      NetsAre(splits, k, b);
    }
    if b in Gone(splits) { var k, i := SlotOf(splits, b); }
  }

  lemma UnlessGone(splits: seq<Split>, nets: set<Bit>, k: int, i: int, output: bool)
    requires AllSplit(splits, nets) && IsSlot(splits, k, i)
    ensures Half(splits, k, i, output) in nets ==> Half(splits, k, i, output) in Gone(splits)
  {
    var h := Half(splits, k, i, output);
    if h in nets && h !in Gone(splits) {
      HalfUnused(splits, nets, k, i, output, h);
    }
  }

  // ----- connectivity -----

  /** A bit of a cell port or of a module port. */
  datatype IoPin = CellPin(cell: string, port: string, idx: nat) | PortPin(name: string, idx: nat)

  ghost function BitOn(ports: Ports, cells: IoCells, p: IoPin): Option<Bit> {
    match p
    case CellPin(c, port, i) =>
      if c in cells && port in cells[c].conns && i < |cells[c].conns[port]| then Some(cells[c].conns[port][i]) else None
    case PortPin(n, i) => if n in ports && i < |ports[n].bits| then Some(ports[n].bits[i]) else None
  }

  ghost predicate IsOutput(cells: IoCells, p: IoPin) {
    p.CellPin? && p.cell in cells && p.port in cells[p.cell].directions && cells[p.cell].directions[p.port] == Output
  }

  /** The pin is on one side of an inout: an input pin of a "$inp" port or an output pin of a "$out" port. */
  ghost predicate OnASide(cells: IoCells, p: IoPin) {
    p.CellPin? && p.cell in cells && p.port in cells[p.cell].directions
    && ((cells[p.cell].directions[p.port] == Input && EndsWith(p.port, "$inp"))
        || (cells[p.cell].directions[p.port] == Output && EndsWith(p.port, "$out")))
  }

  /** Inout nets are reached only through such pins, and through the inout ports themselves. */
  ghost predicate ReachedBySides(ports: Ports, cells: IoCells, gone: set<Bit>) {
    forall p: IoPin :: BitOn(ports, cells, p).Some? && BitOn(ports, cells, p).value in gone ==>
      OnASide(cells, p) || (p.PortPin? && ports[p.name].direction == Inout)
  }

  /** A pin that is still there: of a cell, or of a port that was no inout. */
  ghost predicate Remains(ports: Ports, cells: IoCells, p: IoPin) {
    BitOn(ports, cells, p).Some? && (p.PortPin? ==> ports[p.name].direction != Inout)
  }

  /** The bit on a remaining pin afterwards. */
  ghost function BitAfter(ports: Ports, cells: IoCells, m: NetMap, p: IoPin): Bit
    requires Remains(ports, cells, p) && AllTyped(cells)
  {
    var b := BitOn(ports, cells, p).value;
    if p.CellPin? then assert TypedCell(cells[p.cell]); RemapBit(m, cells[p.cell].directions[p.port], p.port, b) else b
  }

  lemma AfterIs(ports: Ports, cells: IoCells, m: NetMap, gone: set<Bit>, nets: set<Bit>, p: IoPin)
    requires GoodMap(m, gone, nets) && AllTyped(cells) && ReachedBySides(ports, cells, gone) && Remains(ports, cells, p)
    ensures var b := BitOn(ports, cells, p).value;
      BitAfter(ports, cells, m, p) == if b in gone then HalfOf(m, b, IsOutput(cells, p)) else b
  {
    hide EndsWith;
    var b := BitOn(ports, cells, p).value;
    if b in gone { assert OnASide(cells, p); }
  }

  /** Two remaining pins share a net afterwards exactly when they shared a net that is no inout net, or an
      inout net in the same direction. */
  lemma SharedAfter(ports: Ports, cells: IoCells, m: NetMap, gone: set<Bit>, nets: set<Bit>, p: IoPin, q: IoPin)
    requires GoodMap(m, gone, nets) && AllTyped(cells) && ReachedBySides(ports, cells, gone)
    requires Remains(ports, cells, p) && Remains(ports, cells, q)
    requires forall r: IoPin :: BitOn(ports, cells, r).Some? && BitOn(ports, cells, r).value.Net? ==>
      BitOn(ports, cells, r).value in nets
    ensures BitAfter(ports, cells, m, p).Net? && BitAfter(ports, cells, m, p) == BitAfter(ports, cells, m, q) <==>
      BitOn(ports, cells, p).value.Net? && BitOn(ports, cells, p) == BitOn(ports, cells, q)
      && (BitOn(ports, cells, p).value in gone ==> (IsOutput(cells, p) <==> IsOutput(cells, q)))
  {
    AfterIs(ports, cells, m, gone, nets, p);
    AfterIs(ports, cells, m, gone, nets, q);
    hide BitAfter, ReachedBySides, HalfOf, IsOutput;
  }

  /** A bit of a new port is on the net of exactly the remaining pins that were on the inout port's bit, on
      that side. */
  lemma NewPortShares(ports: Ports, cells: IoCells, splits: seq<Split>, nets: set<Bit>, k: nat, i: nat, output: bool,
      p: IoPin)
    requires AllSplit(splits, nets) && Separate(splits, nets) && IsSlot(splits, k, i)
    requires AllTyped(cells) && ReachedBySides(ports, cells, Gone(splits)) && Remains(ports, cells, p)
    requires BitOn(ports, cells, p).value.Net? ==> BitOn(ports, cells, p).value in nets
    ensures BitAfter(ports, cells, MapOf(splits), p) == Half(splits, k, i, output) <==>
      BitOn(ports, cells, p) == Some(splits[k].bits[i]) && (IsOutput(cells, p) <==> output)
  {
    var m, gone := MapOf(splits), Gone(splits);
    var b := splits[k].bits[i];
    MapIsGood(splits, nets);
    HalfIs(splits, nets, b, k, i, output);
    NetsAre(splits, k, b);
    assert b in gone;
    HalfAvoids(splits, nets, k, i, output);
    hide MapOf, Gone, Separate, SplitAt, Half, ReachedBySides;
    AfterIs(ports, cells, m, gone, nets, p);
    hide BitAfter, HalfOf, IsOutput;
  }

  // ----- the names of the new ports -----

  lemma NamesDiffer(a: string, b: string)
    ensures InputName(a) != OutputName(b)
    ensures InputName(a) == InputName(b) ==> a == b
    ensures OutputName(a) == OutputName(b) ==> a == b
  {
    assert InputName(a)[|InputName(a)| - 1] == 'p' && OutputName(b)[|OutputName(b)| - 1] == 't';
    assert InputName(a)[..|a|] == a && InputName(b)[..|b|] == b;
    assert OutputName(a)[..|a|] == a && OutputName(b)[..|b|] == b;
  }

  /** Every split port is represented by its two halves. */
  lemma {:induction false} NewPortsAre(splits: seq<Split>, k: nat)
    requires k < |splits| && forall i, j :: 0 <= i < j < |splits| ==> splits[i].name != splits[j].name
    ensures InputName(splits[k].name) in NewPorts(splits) && OutputName(splits[k].name) in NewPorts(splits)
    ensures NewPorts(splits)[InputName(splits[k].name)] == IoPort(Input, splits[k].inputs)
    ensures NewPorts(splits)[OutputName(splits[k].name)] == IoPort(Output, splits[k].outputs)
  {
    var n := |splits| - 1;
    hide InputName, OutputName;
    NamesDiffer(splits[n].name, splits[n].name);
    NamesDiffer(splits[k].name, splits[n].name);
    NamesDiffer(splits[n].name, splits[k].name);
    if k < n {
      NewPortsAre(splits[..n], k);
    }
  }

  // ----- when it fails -----

  lemma {:induction false} NoSlotsNoChange(splits: seq<Split>, nets: set<Bit>, k: nat)
    requires Sized(splits) && k <= |splits| && forall l, i :: l < k ==> !IsSlot(splits, l, i)
    ensures NetsAt(splits, nets, k) == nets
  {
    if k > 0 {
      NoSlotsNoChange(splits, nets, k - 1);
      var s := splits[k - 1];
      forall i | 0 <= i < |s.bits| ensures !s.bits[i].Net? { assert !IsSlot(splits, k - 1, i); }
      assert Nets(s.bits) == {} && Given(s.bits, s.inputs, |s.bits|) == {} && Given(s.bits, s.outputs, |s.bits|) == {};
    }
  }

  /** A half of an earlier port is no net of a port still to come. */
  lemma EarlierHalf(splits: seq<Split>, all: set<Bit>, own: set<Bit>, k: int, i: int)
    requires AllSplit(splits, all) && Separate(splits, all) && IsSlot(splits, k, i) && own <= all
    requires forall l, j :: IsSlot(splits, l, j) ==> splits[l].bits[j] !in own
    ensures !(NetsAt(splits, all, |splits|) <= own)
  {
    var h := Half(splits, k, i, false);
    HalfStays(splits, all, k, i, false, |splits|);
    HalfAvoids(splits, all, k, i, false);
    if h in own {
      forall l | 0 <= l <= k ensures h !in Nets(splits[l].bits) { NetsAre(splits, l, h); }
      hide Nets, AllSplit, Separate;
      StaysInUse(splits, all, k, h);
    }
  }

  /** A port gets stuck exactly when its nets are all the nets of the design. */
  lemma StuckMeans(ports: Ports, splits: seq<Split>, all: set<Bit>, name: string)
    requires AllSplit(splits, all) && Separate(splits, all) && name in ports && Nets(ports[name].bits) <= all
    requires forall k, i :: IsSlot(splits, k, i) ==> splits[k].bits[i] !in Nets(ports[name].bits)
    ensures Stuck(ports, name, splits, all) <==> Nets(ports[name].bits) == all && all != {}
  {
    var own := Nets(ports[name].bits);
    hide Nets, AllSplit, NetsAt;
    if k, i :| IsSlot(splits, k, i) {
      EarlierHalf(splits, all, own, k, i);
      assert splits[k].bits[i] in all;
    } else {
      NoSlotsNoChange(splits, all, |splits|);
    }
  }

  lemma {:induction false} FirstSlot(splits: seq<Split>, k: nat, i: nat) returns (first: nat)
    requires IsSlot(splits, k, i)
    ensures IsSlot(splits, k, first) && forall j :: 0 <= j < first ==> !IsSlot(splits, k, j)
  {
    first := i;
    if j :| 0 <= j < i && IsSlot(splits, k, j) {
      first := FirstSlot(splits, k, j);
    }
  }

  /** A port whose nets are all the nets is never split. */
  lemma FullPortFails(splits: seq<Split>, all: set<Bit>, k: nat)
    requires AllSplit(splits, all) && Separate(splits, all) && k < |splits|
    ensures !(Nets(splits[k].bits) == all && all != {})
  {
    if Nets(splits[k].bits) == all {
      forall l, i | l < k ensures !IsSlot(splits, l, i) {
        if IsSlot(splits, l, i) { NetsAre(splits, k, splits[l].bits[i]); }
      }
      NoSlotsNoChange(splits, all, k);
      assert Left(splits, all, k) == {};
      forall i: nat ensures !IsSlot(splits, k, i) {
        if IsSlot(splits, k, i) { NoFirstHalf(splits, all, k, i); }
      }
      forall b ensures b !in all { NetsAre(splits, k, b); }
    }
  }

  lemma NoFirstHalf(splits: seq<Split>, all: set<Bit>, k: nat, i: nat)
    requires AllSplit(splits, all) && k < |splits| && IsSlot(splits, k, i)
    ensures Left(splits, all, k) != {}
  {
    var first := FirstSlot(splits, k, i);
    var s := splits[k];
    assert SplitAt(splits, all, k);
    hide NetsAt, Nets, IsFree;
    assert MayGet(s.bits[first], Left(splits, all, k) + Given(s.bits, s.inputs, first), s.inputs[first]);
    NoneGivenBefore(splits, k, first);
    hide Given, Left, AllSplit, SplitAt;
    var lo :| IsFree(Left(splits, all, k) + Given(s.bits, s.inputs, first), lo, s.inputs[first].n);
    FreeNeedsNet(Left(splits, all, k) + Given(s.bits, s.inputs, first), lo, s.inputs[first].n);
  }

  lemma NoneGivenBefore(splits: seq<Split>, k: nat, first: nat)
    requires Sized(splits) && IsSlot(splits, k, first) && forall j :: 0 <= j < first ==> !IsSlot(splits, k, j)
    ensures Given(splits[k].bits, splits[k].inputs, first) == {}
  {
    forall j | 0 <= j < first ensures !splits[k].bits[j].Net? { assert !IsSlot(splits, k, j); }
  }

  lemma FreeNeedsNet(nets: set<Bit>, lo: int, free: int)
    requires IsFree(nets, lo, free)
    ensures nets != {}
  {
    assert Net(lo) in nets;
  }

  // ----- the whole script -----

  /** No net is on two bits of inout ports. */
  ghost predicate InoutsApart(ports: Ports) {
    forall a, b: string, i, j :: a in ports && b in ports && ports[a].direction == Inout && ports[b].direction == Inout
      && 0 <= i < |ports[a].bits| && 0 <= j < |ports[b].bits| && ports[a].bits[i].Net?
        && ports[a].bits[i] == ports[b].bits[j]
      ==> a == b && i == j
  }

  /** The names of the new ports are free. */
  ghost predicate NamesFree(ports: Ports, splits: seq<Split>) {
    forall n :: n in ports && ports[n].direction != Inout ==> n !in NewPorts(splits)
  }

  lemma ApartIsSeparate(ports: Ports, order: seq<string>, splits: seq<Split>, all: set<Bit>)
    requires InoutsApart(ports) && Distinct(order) && Divided(ports, InoutNames(ports, order), splits, all)
    requires PortNets(ports) <= all
    ensures Separate(splits, all)
  {
    var inouts := InoutNames(ports, order);
    InoutNamesAre(ports, order);
    hide AllSplit, InoutNames;
    forall k, i | IsSlot(splits, k, i)
      ensures splits[k].bits[i] in all && inouts[k] in inouts && ports[inouts[k]].direction == Inout
    {
      assert inouts[k] in inouts;
      assert splits[k].bits[i] in PortNets(ports);
    }
    hide PortNets, Elements;
    forall k, i, l, j | IsSlot(splits, k, i) && IsSlot(splits, l, j) && splits[k].bits[i] == splits[l].bits[j]
      ensures k == l && i == j
    {
      assert inouts[k] == inouts[l] && i == j;
    }
  }

  lemma PinInNets(ports: Ports, netnames: Netnames, cells: IoCells, r: IoPin)
    requires BitOn(ports, cells, r).Some? && BitOn(ports, cells, r).value.Net?
    ensures BitOn(ports, cells, r).value in AllNets(ports, netnames, cells)
  {
    var b := BitOn(ports, cells, r).value;
    match r
    case CellPin(c, p, i) => assert b in CellNets(cells);
    case PortPin(n, i) => assert b in PortNets(ports);
  }

  /** Pins that remain share nets afterwards as they did before, taking the two sides of an inout apart. */
  ghost predicate SameConnections(ports: Ports, cells: IoCells, gone: set<Bit>, now: Ports, nowCells: IoCells) {
    forall p, q :: Remains(ports, cells, p) && Remains(ports, cells, q) ==>
      BitOn(now, nowCells, p).Some? && BitOn(now, nowCells, q).Some?
      && (BitOn(now, nowCells, p).value.Net? && BitOn(now, nowCells, p) == BitOn(now, nowCells, q) <==>
          BitOn(ports, cells, p).value.Net? && BitOn(ports, cells, p) == BitOn(ports, cells, q)
          && (BitOn(ports, cells, p).value in gone ==> (IsOutput(cells, p) <==> IsOutput(cells, q))))
  }

  lemma PinAfter(ports: Ports, cells: IoCells, m: NetMap, order: seq<string>, splits: seq<Split>, now: Ports,
      nowCells: IoCells, p: IoPin)
    requires AllTyped(cells) && Remains(ports, cells, p) && NamesFree(ports, splits) && Distinct(order)
    requires now == ports - Elements(InoutNames(ports, order)) + NewPorts(splits)
    requires nowCells.Keys == cells.Keys && forall c :: c in cells ==>
      TypedCell(cells[c]) && nowCells[c] == RemapCell(m, cells[c])
    ensures BitOn(now, nowCells, p) == Some(BitAfter(ports, cells, m, p))
  {
    InoutNamesAre(ports, order);
    hide InoutNames, NewPorts, RemapBit;
  }

  // ----- what is left, port by port and name by name -----

  predicate IsInout(ports: Ports, n: string) { n in ports && ports[n].direction == Inout }

  /** A bit of some inout port that is a net. */
  ghost predicate OnInout(ports: Ports, b: Bit) { b.Net? && exists n :: IsInout(ports, n) && b in ports[n].bits }

  /** The name of a half of some inout port. */
  ghost predicate HalfName(ports: Ports, n: string) {
    exists q :: IsInout(ports, q) && (n == q + "_$inp" || n == q + "_$out")
  }

  /** A port with as many bits, the constants among them in their places. */
  ghost predicate IsHalf(bits: seq<Bit>, now: Ports, name: string, direction: Direction) {
    name in now && now[name].direction == direction && |now[name].bits| == |bits|
    && forall i :: 0 <= i < |bits| ==> if bits[i].Net? then now[name].bits[i].Net? else now[name].bits[i] == bits[i]
  }

  /** Each inout port has become an input and an output; the other ports are as they were. */
  ghost predicate PortsSplit(before: Ports, now: Ports) {
    && (forall n :: IsInout(before, n) ==>
      IsHalf(before[n].bits, now, n + "_$inp", Input) && IsHalf(before[n].bits, now, n + "_$out", Output))
    && (forall n :: n in now <==> (n in before && !IsInout(before, n)) || HalfName(before, n))
    && forall n :: n in before && !IsInout(before, n) && !HalfName(before, n) ==> now[n] == before[n]
  }

  /** Bits of inout ports are crossed out of the net names. Names of inout ports are gone, and so are those that had
      a bit crossed out and have nothing else left; the halves have names with their bits. */
  ghost predicate NamesSplit(before: Netnames, ports: Ports, now: Netnames, portsNow: Ports) {
    && (forall n :: HalfName(ports, n) ==> n in now && n in portsNow && now[n] == portsNow[n].bits)
    && (forall n :: !HalfName(ports, n) ==> (n in now <==>
      n in before && !IsInout(ports, n) && (NoneOnInout(ports, before[n]) || SomeLeft(ports, before[n]))))
    && forall n :: n in now && n in before && !HalfName(ports, n) ==> CrossedOut(ports, before[n], now[n])
  }

  ghost predicate NoneOnInout(ports: Ports, bits: seq<Bit>) {
    forall i :: 0 <= i < |bits| ==> !OnInout(ports, bits[i])
  }

  ghost predicate SomeLeft(ports: Ports, bits: seq<Bit>) {
    exists i :: 0 <= i < |bits| && !OnInout(ports, bits[i]) && bits[i] != Const('x')
  }

  ghost predicate CrossedOut(ports: Ports, bits: seq<Bit>, now: seq<Bit>) {
    |now| == |bits|
    && forall i :: 0 <= i < |bits| ==> now[i] == if OnInout(ports, bits[i]) then Const('x') else bits[i]
  }

  /** A connection changes where an input ending in "$inp", or an output ending in "$out", is on an inout net, and
      nowhere else: to the net that one of the bits of that inout has got on that side. */
  ghost predicate CellsSplit(before: IoCells, ports: Ports, now: IoCells, portsNow: Ports) {
    now.Keys == before.Keys && forall c :: c in before ==> ConnsSplit(before[c], ports, now[c], portsNow)
  }

  ghost predicate ConnsSplit(before: IoCell, ports: Ports, now: IoCell, portsNow: Ports) {
    && now.directions == before.directions && now.conns.Keys == before.conns.Keys
    && forall p :: p in before.conns ==>
      |now.conns[p]| == |before.conns[p]|
      && forall i :: 0 <= i < |before.conns[p]| ==>
        if OnInout(ports, before.conns[p][i]) && TakesASide(before, p) then
          JoinsHalf(ports, portsNow, before.conns[p][i], now.conns[p][i],
            if before.directions[p] == Input then "_$inp" else "_$out")
        else now.conns[p][i] == before.conns[p][i]
  }

  ghost predicate JoinsHalf(ports: Ports, portsNow: Ports, b: Bit, x: Bit, suffix: string) {
    exists n, j :: IsInout(ports, n) && n + suffix in portsNow && 0 <= j < |ports[n].bits|
      && j < |portsNow[n + suffix].bits| && ports[n].bits[j] == b && portsNow[n + suffix].bits[j] == x
  }

  predicate TakesASide(cell: IoCell, p: string) {
    p in cell.directions
    && ((cell.directions[p] == Input && EndsWith(p, "$inp")) || (cell.directions[p] == Output && EndsWith(p, "$out")))
  }

  lemma GoneOnInout(ports: Ports, order: seq<string>, splits: seq<Split>, all: set<Bit>, b: Bit)
    requires Distinct(order) && (forall n :: n in ports ==> n in order)
    requires Divided(ports, InoutNames(ports, order), splits, all) && |splits| == |InoutNames(ports, order)|
    ensures b in Gone(splits) <==> OnInout(ports, b)
  {
    var inouts := InoutNames(ports, order);
    InoutNamesAre(ports, order);
    hide InoutNames, AllSplit;
    if b in Gone(splits) {
      var k :| 0 <= k < |splits| && b in Nets(splits[k].bits);
      assert inouts[k] in inouts;
    }
    if OnInout(ports, b) {
      var n :| IsInout(ports, n) && b in ports[n].bits;
      var k :| 0 <= k < |inouts| && inouts[k] == n;
      assert b in Nets(splits[k].bits);
    }
  }

  lemma {:induction false} MapKeys(splits: seq<Split>)
    requires Sized(splits)
    ensures MapOf(splits).inputs.Keys == Gone(splits) == MapOf(splits).outputs.Keys
  {
    if splits != [] {
      var n := |splits| - 1;
      var s, m := splits[n], MapOf(splits[..n]);
      MapKeys(splits[..n]);
      forall b ensures b in MapOf(splits).inputs <==> b in Gone(splits[..n]) || b in Nets(s.bits) {
        EnteredAt(m.inputs, s.bits, s.inputs, b);
      }
      forall b ensures b in MapOf(splits).outputs <==> b in Gone(splits[..n]) || b in Nets(s.bits) {
        EnteredAt(m.outputs, s.bits, s.outputs, b);
      }
      GoneMore(splits);
    }
  }

  lemma GoneMore(splits: seq<Split>)
    requires splits != []
    ensures Gone(splits) == Gone(splits[..|splits| - 1]) + Nets(splits[|splits| - 1].bits)
  {
    var n := |splits| - 1;
    hide Nets;
    forall b | b in Gone(splits) ensures b in Gone(splits[..n]) + Nets(splits[n].bits) {
      var k :| 0 <= k < |splits| && b in Nets(splits[k].bits);
      if k < n { assert splits[..n][k] == splits[k]; }
    }
    forall b | b in Gone(splits[..n]) ensures b in Gone(splits) {
      var k :| 0 <= k < n && b in Nets(splits[..n][k].bits);
      assert splits[k] == splits[..n][k];
    }
  }

  lemma {:induction false} NewNames(splits: seq<Split>, n: string)
    ensures n in NewPorts(splits) <==> exists k :: 0 <= k < |splits| && IsHalfOf(splits[k], n)
  {
    if splits != [] {
      var last := |splits| - 1;
      NewNames(splits[..last], n);
      if k :| 0 <= k < last && IsHalfOf(splits[..last][k], n) { assert IsHalfOf(splits[k], n); }
      if k :| 0 <= k < |splits| && IsHalfOf(splits[k], n) {
        assert k < last ==> splits[..last][k] == splits[k];
      }
      assert IsHalfOf(splits[last], n) ==> n in NewPorts(splits);
    }
  }

  predicate IsHalfOf(s: Split, n: string) { n == InputName(s.name) || n == OutputName(s.name) }

  /** The new ports are the halves of the inout ports. */
  lemma NewAreHalves(ports: Ports, order: seq<string>, splits: seq<Split>, all: set<Bit>, n: string)
    requires Distinct(order) && (forall n :: n in ports ==> n in order)
    requires Divided(ports, InoutNames(ports, order), splits, all) && |splits| == |InoutNames(ports, order)|
    ensures n in NewPorts(splits) <==> HalfName(ports, n)
  {
    var inouts := InoutNames(ports, order);
    InoutNamesAre(ports, order);
    NewNames(splits, n);
    hide InoutNames, AllSplit, NewPorts;
    if k :| 0 <= k < |splits| && IsHalfOf(splits[k], n) { assert inouts[k] in inouts; }
    if HalfName(ports, n) {
      var q :| IsInout(ports, q) && (n == q + "_$inp" || n == q + "_$out");
      var k :| 0 <= k < |inouts| && inouts[k] == q;
      assert IsHalfOf(splits[k], n);
    }
  }

  lemma AllocatedKeeps(bits: seq<Bit>, half: seq<Bit>, nets: set<Bit>)
    requires Allocated(bits, half, nets) && |half| == |bits|
    ensures forall i :: 0 <= i < |bits| ==> if bits[i].Net? then half[i].Net? else half[i] == bits[i]
  {
    hide IsFree, Given;
    forall i | 0 <= i < |bits| ensures if bits[i].Net? then half[i].Net? else half[i] == bits[i] {
      assert MayGet(bits[i], nets + Given(bits, half, i), half[i]);
    }
  }

  lemma HalvesKeep(splits: seq<Split>, all: set<Bit>, k: nat)
    requires AllSplit(splits, all) && k < |splits|
    ensures var s := splits[k];
      && |s.inputs| == |s.outputs| == |s.bits|
      && forall i :: 0 <= i < |s.bits| ==>
        if s.bits[i].Net? then s.inputs[i].Net? && s.outputs[i].Net?
          else s.inputs[i] == s.bits[i] && s.outputs[i] == s.bits[i]
  {
    var s, left := splits[k], NetsAt(splits, all, k) - Nets(splits[k].bits);
    assert SplitAt(splits, all, k);
    hide Allocated, NetsAt, Nets, Given;
    AllocatedKeeps(s.bits, s.inputs, left);
    AllocatedKeeps(s.bits, s.outputs, left + Given(s.bits, s.inputs, |s.bits|));
  }

  lemma HalvesAreIn(ports: Ports, order: seq<string>, splits: seq<Split>, all: set<Bit>, n: string)
    requires Distinct(order) && (forall n :: n in ports ==> n in order) && IsInout(ports, n)
    requires Divided(ports, InoutNames(ports, order), splits, all) && |splits| == |InoutNames(ports, order)|
    ensures IsHalf(ports[n].bits, NewPorts(splits), n + "_$inp", Input)
    ensures IsHalf(ports[n].bits, NewPorts(splits), n + "_$out", Output)
  {
    var inouts := InoutNames(ports, order);
    InoutNamesAre(ports, order);
    hide InoutNames, NewPorts, AllSplit;
    var k :| 0 <= k < |inouts| && inouts[k] == n;
    NewPortsAre(splits, k);
    HalvesKeep(splits, all, k);
  }

  lemma PortsOutcome(ports: Ports, order: seq<string>, splits: seq<Split>, all: set<Bit>, now: Ports)
    requires Distinct(order) && (forall n :: n in ports ==> n in order)
    requires Divided(ports, InoutNames(ports, order), splits, all) && |splits| == |InoutNames(ports, order)|
    requires now == ports - Elements(InoutNames(ports, order)) + NewPorts(splits)
    ensures PortsSplit(ports, now)
    ensures forall n :: HalfName(ports, n) ==> n in now && n in NewPorts(splits) && now[n] == NewPorts(splits)[n]
  {
    hide InoutNames, NewPorts, AllSplit, HalfName, Divided, IsHalf;
    InoutNamesAre(ports, order);
    forall n ensures n in NewPorts(splits) <==> HalfName(ports, n) { NewAreHalves(ports, order, splits, all, n); }
    forall n | IsInout(ports, n)
      ensures IsHalf(ports[n].bits, now, n + "_$inp", Input) && IsHalf(ports[n].bits, now, n + "_$out", Output)
    {
      HalvesAreIn(ports, order, splits, all, n);
      HalfStaysIn(ports[n].bits, NewPorts(splits), now, n + "_$inp", Input);
      HalfStaysIn(ports[n].bits, NewPorts(splits), now, n + "_$out", Output);
    }
  }

  lemma HalfStaysIn(bits: seq<Bit>, newPorts: Ports, now: Ports, name: string, direction: Direction)
    requires IsHalf(bits, newPorts, name, direction) && forall n :: n in newPorts ==> n in now && now[n] == newPorts[n]
    ensures IsHalf(bits, now, name, direction)
  {
  }

  // ----- net names and cells -----

  lemma CrossedReads(ports: Ports, bits: seq<Bit>, gone: set<Bit>)
    requires forall b :: b in gone <==> OnInout(ports, b)
    ensures CrossedOut(ports, bits, Crossed(bits, gone))
    ensures !Dropped(bits, gone) <==> NoneOnInout(ports, bits) || SomeLeft(ports, bits)
  {
    hide OnInout;
    var crossed := Crossed(bits, gone);
    if SomeLeft(ports, bits) {
      var i :| 0 <= i < |bits| && !OnInout(ports, bits[i]) && bits[i] != Const('x');
      assert crossed[i] in crossed;
    }
    if b :| b in crossed && b != Const('x') {
      var i :| 0 <= i < |crossed| && crossed[i] == b;
      assert SomeLeft(ports, bits);
    }
  }

  lemma NamesOutcome(before: Netnames, ports: Ports, now: Netnames, portsNow: Ports, inouts: set<string>,
      gone: set<Bit>, newPorts: Ports)
    requires now == NetnamesAfter(before, inouts, gone, newPorts)
    requires forall b :: b in gone <==> OnInout(ports, b)
    requires forall n :: n in inouts <==> IsInout(ports, n)
    requires forall n :: n in newPorts <==> HalfName(ports, n)
    requires forall n :: HalfName(ports, n) ==> n in portsNow && n in newPorts && portsNow[n] == newPorts[n]
    ensures NamesSplit(before, ports, now, portsNow)
  {
    hide OnInout, HalfName, IsInout, Dropped, Crossed, CrossedOut, NoneOnInout, SomeLeft;
    forall n | n in before
      ensures CrossedOut(ports, before[n], Crossed(before[n], gone))
      ensures !Dropped(before[n], gone) <==> NoneOnInout(ports, before[n]) || SomeLeft(ports, before[n])
    {
      CrossedReads(ports, before[n], gone);
    }
  }

  /** Where the net map sends a net. */
  ghost predicate Sends(splits: seq<Split>, b: Bit, x: Bit, output: bool) {
    exists k, i :: 0 <= k < |splits| && 0 <= i < |splits[k].bits| && splits[k].bits[i] == b
      && (if output then i < |splits[k].outputs| && splits[k].outputs[i] == x
          else i < |splits[k].inputs| && splits[k].inputs[i] == x)
  }

  lemma SendsOn(splits: seq<Split>, b: Bit, x: Bit, output: bool)
    requires splits != [] && Sends(splits[..|splits| - 1], b, x, output)
    ensures Sends(splits, b, x, output)
  {
    var init := splits[..|splits| - 1];
    var k, i :| 0 <= k < |init| && 0 <= i < |init[k].bits| && init[k].bits[i] == b
      && (if output then i < |init[k].outputs| && init[k].outputs[i] == x
          else i < |init[k].inputs| && init[k].inputs[i] == x);
    assert splits[k] == init[k];
  }

  lemma {:induction false} MapSends(splits: seq<Split>, b: Bit)
    requires Sized(splits)
    ensures b in MapOf(splits).inputs ==> Sends(splits, b, MapOf(splits).inputs[b], false)
    ensures b in MapOf(splits).outputs ==> Sends(splits, b, MapOf(splits).outputs[b], true)
  {
    if splits != [] {
      var n := |splits| - 1;
      var s, m := splits[n], MapOf(splits[..n]);
      MapSends(splits[..n], b);
      EnteredAt(m.inputs, s.bits, s.inputs, b);
      EnteredAt(m.outputs, s.bits, s.outputs, b);
      hide Sends;
      if b in MapOf(splits).inputs && b !in Nets(s.bits) { SendsOn(splits, b, m.inputs[b], false); }
      if b in MapOf(splits).outputs && b !in Nets(s.bits) { SendsOn(splits, b, m.outputs[b], true); }
      if b in Nets(s.bits) { LastSends(splits, b); }
    }
  }

  lemma LastSends(splits: seq<Split>, b: Bit)
    requires Sized(splits) && splits != [] && b in Nets(splits[|splits| - 1].bits)
    ensures b in MapOf(splits).inputs ==> Sends(splits, b, MapOf(splits).inputs[b], false)
    ensures b in MapOf(splits).outputs ==> Sends(splits, b, MapOf(splits).outputs[b], true)
  {
    var n := |splits| - 1;
    var s, m := splits[n], MapOf(splits[..n]);
    EnteredAt(m.inputs, s.bits, s.inputs, b);
    EnteredAt(m.outputs, s.bits, s.outputs, b);
    var i :| 0 <= i < |s.bits| && s.bits[i] == b && Entered(m.inputs, s.bits, s.inputs)[b] == s.inputs[i];
    var j :| 0 <= j < |s.bits| && s.bits[j] == b && Entered(m.outputs, s.bits, s.outputs)[b] == s.outputs[j];
    assert splits[n].bits[i] == b && splits[n].bits[j] == b;
  }

  lemma SendsJoins(ports: Ports, order: seq<string>, splits: seq<Split>, all: set<Bit>, portsNow: Ports, b: Bit, x: Bit,
      output: bool)
    requires Distinct(order) && (forall n :: n in ports ==> n in order)
    requires Divided(ports, InoutNames(ports, order), splits, all) && |splits| == |InoutNames(ports, order)|
    requires portsNow == ports - Elements(InoutNames(ports, order)) + NewPorts(splits)
    requires Sends(splits, b, x, output)
    ensures JoinsHalf(ports, portsNow, b, x, if output then "_$out" else "_$inp")
  {
    var inouts := InoutNames(ports, order);
    InoutNamesAre(ports, order);
    hide InoutNames, NewPorts, AllSplit;
    var k, i :| 0 <= k < |splits| && 0 <= i < |splits[k].bits| && splits[k].bits[i] == b
      && (if output then i < |splits[k].outputs| && splits[k].outputs[i] == x
          else i < |splits[k].inputs| && splits[k].inputs[i] == x);
    assert inouts[k] in inouts && splits[k].name == inouts[k];
    NewPortsAre(splits, k);
    assert IsInout(ports, inouts[k]) && ports[inouts[k]].bits[i] == b;
  }

  /** Each net on an inout is sent to a half, on both sides. */
  ghost predicate MapJoins(m: NetMap, ports: Ports, portsNow: Ports) {
    && (forall b :: b in m.inputs <==> OnInout(ports, b))
    && (forall b :: b in m.outputs <==> OnInout(ports, b))
    && (forall b :: b in m.inputs ==> JoinsHalf(ports, portsNow, b, m.inputs[b], "_$inp"))
    && forall b :: b in m.outputs ==> JoinsHalf(ports, portsNow, b, m.outputs[b], "_$out")
  }

  lemma CellsOutcome(before: IoCells, ports: Ports, now: IoCells, m: NetMap, portsNow: Ports)
    requires AllTyped(before) && now.Keys == before.Keys
    requires forall c :: c in before ==> TypedCell(before[c]) && now[c] == RemapCell(m, before[c])
    requires MapJoins(m, ports, portsNow)
    ensures CellsSplit(before, ports, now, portsNow)
  {
    hide MapJoins, ConnsSplit, AllTyped, TypedCell, RemapCell;
    forall c | c in before ensures ConnsSplit(before[c], ports, now[c], portsNow) {
      CellOutcome(before[c], ports, m, portsNow);
    }
  }

  lemma CellOutcome(cell: IoCell, ports: Ports, m: NetMap, portsNow: Ports)
    requires TypedCell(cell) && MapJoins(m, ports, portsNow)
    ensures ConnsSplit(cell, ports, RemapCell(m, cell), portsNow)
  {
    hide OnInout, EndsWith, JoinsHalf;
  }

  /** find_and_split_inout_ports_and_nets and remap_connections, one after the other. */
  method SplitDesign(design: Module, order: seq<string>) returns (ok: bool, m: NetMap, ghost splits: seq<Split>)
    requires Distinct(order) && (forall n :: n in order <==> n in design.ports) && AllTyped(design.cells)
    modifies design
    ensures Divided(old(design.ports), InoutNames(old(design.ports), order), splits,
      AllNets(old(design.ports), old(design.netnames), old(design.cells)))
    ensures ok ==> |splits| == |InoutNames(old(design.ports), order)| && m == MapOf(splits)
    ensures ok && InoutsApart(old(design.ports)) ==>
      GoodMap(m, Gone(splits), AllNets(old(design.ports), old(design.netnames), old(design.cells)))
    ensures ok && InoutsApart(old(design.ports)) ==>
      (NamesFree(old(design.ports), splits) && ReachedBySides(old(design.ports), old(design.cells), Gone(splits)) ==>
        SameConnections(old(design.ports), old(design.cells), Gone(splits), design.ports, design.cells))
    ensures InoutsApart(old(design.ports)) ==>
      (ok <==> !SomeFullInout(old(design.ports), AllNets(old(design.ports), old(design.netnames), old(design.cells))))
    // Each inout port becomes an input and an output; its nets are crossed out of the net names; connections change
    // only where a side of an inout is meant.
    ensures ok ==> PortsSplit(old(design.ports), design.ports)
    ensures ok ==> NamesSplit(old(design.netnames), old(design.ports), design.netnames, design.ports)
    ensures ok ==> CellsSplit(old(design.cells), old(design.ports), design.cells, design.ports)
  {
    ghost var ports, cells, nets := design.ports, design.cells, AllNets(design.ports, design.netnames, design.cells);
    hide AllNets, Divided, Stuck, MapOf, NewPorts, InoutNames, NetnamesAfter, GoodMap, Gone, ReachedBySides,
      SameConnections, NamesFree, InoutsApart, RemapCell, Elements, SomeFullInout, PortsSplit, NamesSplit, CellsSplit,
      AllTyped;
    ok, m, splits := design.FindAndSplit(order);
    if InoutsApart(ports) {
      AllSplitOf(ports, InoutNames(ports, order), splits, nets);
      NetsIncludePorts(ports, old(design.netnames), cells);
      ApartIsSeparate(ports, order, splits, nets);
      if ok { NoneFull(ports, order, splits, nets); } else { OneFull(ports, order, splits, nets); }
    }
    if !ok {
      return;
    }
    design.RemapConnections(m);
    SplitOutcome(ports, old(design.netnames), cells, order, splits, nets, m, design.ports, design.netnames,
      design.cells);
    if InoutsApart(ports) {
      MapIsGood(splits, nets);
      if NamesFree(ports, splits) && ReachedBySides(ports, cells, Gone(splits)) {
        Connected(ports, old(design.netnames), cells, m, order, splits, design.ports, design.cells);
      }
    }
  }

  lemma SizedOf(ports: Ports, inouts: seq<string>, splits: seq<Split>, all: set<Bit>)
    requires Divided(ports, inouts, splits, all)
    ensures Sized(splits)
  {
  }

  /** What has become of ports, net names and cells. */
  lemma SplitOutcome(ports: Ports, netnames: Netnames, cells: IoCells, order: seq<string>, splits: seq<Split>,
      all: set<Bit>, m: NetMap, portsNow: Ports, netnamesNow: Netnames, cellsNow: IoCells)
    requires Distinct(order) && (forall n :: n in ports ==> n in order) && AllTyped(cells)
    requires Divided(ports, InoutNames(ports, order), splits, all) && |splits| == |InoutNames(ports, order)|
    requires m == MapOf(splits) && portsNow == ports - Elements(InoutNames(ports, order)) + NewPorts(splits)
    requires netnamesNow ==
      NetnamesAfter(netnames, Elements(InoutNames(ports, order)), m.inputs.Keys, NewPorts(splits))
    requires cellsNow.Keys == cells.Keys && forall c :: c in cells ==>
      TypedCell(cells[c]) && cellsNow[c] == RemapCell(m, cells[c])
    ensures PortsSplit(ports, portsNow) && NamesSplit(netnames, ports, netnamesNow, portsNow)
    ensures CellsSplit(cells, ports, cellsNow, portsNow)
  {
    hide InoutNames, NewPorts, AllSplit, HalfName, MapOf, Gone, OnInout, NetnamesAfter, RemapCell, PortsSplit,
      NamesSplit, CellsSplit, AllTyped, TypedCell, JoinsHalf, Sends;
    InoutNamesAre(ports, order);
    SizedOf(ports, InoutNames(ports, order), splits, all);
    MapKeys(splits);
    forall b ensures b in Gone(splits) <==> OnInout(ports, b) { GoneOnInout(ports, order, splits, all, b); }
    forall n ensures n in NewPorts(splits) <==> HalfName(ports, n) { NewAreHalves(ports, order, splits, all, n); }
    PortsOutcome(ports, order, splits, all, portsNow);
    NamesOutcome(netnames, ports, netnamesNow, portsNow, Elements(InoutNames(ports, order)), m.inputs.Keys,
      NewPorts(splits));
    forall b | b in m.inputs ensures JoinsHalf(ports, portsNow, b, m.inputs[b], "_$inp") {
      MapSends(splits, b);
      SendsJoins(ports, order, splits, all, portsNow, b, m.inputs[b], false);
    }
    forall b | b in m.outputs ensures JoinsHalf(ports, portsNow, b, m.outputs[b], "_$out") {
      MapSends(splits, b);
      SendsJoins(ports, order, splits, all, portsNow, b, m.outputs[b], true);
    }
    CellsOutcome(cells, ports, cellsNow, m, portsNow);
  }

  /** Some inout port's nets are all the nets of the design. */
  ghost predicate SomeFullInout(ports: Ports, all: set<Bit>) {
    all != {} && exists n :: n in ports && ports[n].direction == Inout && Nets(ports[n].bits) == all
  }

  lemma NoneFull(ports: Ports, order: seq<string>, splits: seq<Split>, all: set<Bit>)
    requires Divided(ports, InoutNames(ports, order), splits, all) && |splits| == |InoutNames(ports, order)|
    requires Separate(splits, all) && Distinct(order) && forall n :: n in ports ==> n in order
    ensures !SomeFullInout(ports, all)
  {
    InoutNamesAre(ports, order);
    hide InoutNames, Nets, AllSplit, Separate;
    if n :| n in ports && ports[n].direction == Inout && Nets(ports[n].bits) == all {
      var k :| 0 <= k < |splits| && InoutNames(ports, order)[k] == n;
      FullPortFails(splits, all, k);
    }
  }

  lemma OneFull(ports: Ports, order: seq<string>, splits: seq<Split>, all: set<Bit>)
    requires Divided(ports, InoutNames(ports, order), splits, all) && |splits| < |InoutNames(ports, order)|
    requires Separate(splits, all) && Distinct(order) && InoutsApart(ports) && PortNets(ports) <= all
    requires Sized(splits) && Stuck(ports, InoutNames(ports, order)[|splits|], splits, all)
    ensures SomeFullInout(ports, all)
  {
    InoutNamesAre(ports, order);
    var inouts := InoutNames(ports, order);
    var name := inouts[|splits|];
    assert name in inouts && ports[name].direction == Inout;
    forall b | b in Nets(ports[name].bits) ensures b in all { assert b in PortNets(ports); }
    hide InoutNames, Separate, AllSplit, Stuck, PortNets;
    forall k, i | IsSlot(splits, k, i) ensures splits[k].bits[i] !in Nets(ports[name].bits) {
      assert inouts[k] in inouts && inouts[k] != name;
      EarlierBit(ports, inouts[k], name, i);
    }
    StuckMeans(ports, splits, all, name);
  }

  lemma EarlierBit(ports: Ports, a: string, b: string, i: nat)
    requires InoutsApart(ports) && a in ports && b in ports && a != b && ports[a].direction == Inout
      && ports[b].direction == Inout
    requires i < |ports[a].bits| && ports[a].bits[i].Net?
    ensures ports[a].bits[i] !in Nets(ports[b].bits)
  {
    forall j | 0 <= j < |ports[b].bits| ensures ports[b].bits[j] != ports[a].bits[i] {}
  }

  lemma NetsIncludePorts(ports: Ports, netnames: Netnames, cells: IoCells)
    ensures PortNets(ports) <= AllNets(ports, netnames, cells)
  {
  }

  lemma AllSplitOf(ports: Ports, inouts: seq<string>, splits: seq<Split>, all: set<Bit>)
    requires Divided(ports, inouts, splits, all)
    ensures AllSplit(splits, all) && Sized(splits)
  {
  }

  lemma Connected(ports: Ports, netnames: Netnames, cells: IoCells, m: NetMap, order: seq<string>, splits: seq<Split>,
      now: Ports, nowCells: IoCells)
    requires AllTyped(cells) && NamesFree(ports, splits) && Distinct(order)
    requires now == ports - Elements(InoutNames(ports, order)) + NewPorts(splits)
    requires nowCells.Keys == cells.Keys && forall c :: c in cells ==>
      TypedCell(cells[c]) && nowCells[c] == RemapCell(m, cells[c])
    requires GoodMap(m, Gone(splits), AllNets(ports, netnames, cells)) && ReachedBySides(ports, cells, Gone(splits))
    ensures SameConnections(ports, cells, Gone(splits), now, nowCells)
  {
    var nets := AllNets(ports, netnames, cells);
    hide Gone, GoodMap, NewPorts, InoutNames, RemapCell, AllNets, ReachedBySides, NamesFree, BitAfter, TypedCell,
      AllTyped;
    forall r: IoPin | BitOn(ports, cells, r).Some? && BitOn(ports, cells, r).value.Net?
      ensures BitOn(ports, cells, r).value in nets
    {
      PinInNets(ports, netnames, cells, r);
    }
    hide BitOn, IsOutput, Remains;
    forall p, q | Remains(ports, cells, p) && Remains(ports, cells, q)
      ensures BitOn(now, nowCells, p).Some? && BitOn(now, nowCells, q).Some?
        && BitOn(ports, cells, p).Some? && BitOn(ports, cells, q).Some?
        && (BitOn(now, nowCells, p).value.Net? && BitOn(now, nowCells, p) == BitOn(now, nowCells, q) <==>
            BitOn(ports, cells, p).value.Net? && BitOn(ports, cells, p) == BitOn(ports, cells, q)
            && (BitOn(ports, cells, p).value in Gone(splits) ==> (IsOutput(cells, p) <==> IsOutput(cells, q))))
    {
      PinAfter(ports, cells, m, order, splits, now, nowCells, p);
      PinAfter(ports, cells, m, order, splits, now, nowCells, q);
      SharedAfter(ports, cells, m, Gone(splits), nets, p, q);
    }
  }

  /** A design that is one inout port with one net: no net is left to count up from. */
  method SplitLonelyPort() returns (ok: bool, m: NetMap)
    ensures !ok
  {
    var ports: Ports := map["p" := IoPort(Inout, [Net(0)])];
    var design := new Module(ports, map[], map[]);
    ghost var all := AllNets(ports, map[], map[]);
    assert Nets(ports["p"].bits) == {Net(0)};
    assert PortNets(ports) == {Net(0)} by { assert "p" in ports && Net(0) in ports["p"].bits; }
    assert all == {Net(0)};
    assert SomeFullInout(ports, all);
    ghost var splits;
    hide Divided, GoodMap, SomeFullInout, AllNets;
    ok, m, splits := SplitDesign(design, ["p"]);
  }
}
