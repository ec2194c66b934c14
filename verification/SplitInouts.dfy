/** utils/split_inouts.py: splitting inout ports, and their nets, into an input and an output half. */
module SplitInouts {
  import opened Sequences
  import opened Netlist

  datatype IoPort = IoPort(direction: Direction, bits: seq<Bit>)

  datatype IoCell = IoCell(directions: map<string, Direction>, conns: map<string, seq<Bit>>)

  type Ports = map<string, IoPort>
  type Netnames = map<string, seq<Bit>>
  type IoCells = map<string, IoCell>

  // ----- get_nets and get_free_net -----

  /** The nets among the bits, without the constants. */
  function Nets(bits: seq<Bit>): set<Bit> { set b | b in bits && b.Net? }

  ghost predicate OnlyNets(nets: set<Bit>) { forall b :: b in nets ==> b.Net? }

  /** The lowest net has index lo, and lo is the start of a run that ends right below the free index. */
  ghost predicate IsFree(nets: set<Bit>, lo: int, free: int) {
    Net(lo) in nets && (forall k :: Net(k) in nets ==> lo <= k)
    && lo < free && (forall k :: lo <= k < free ==> Net(k) in nets) && Net(free) !in nets
  }

  lemma FreeIsUnique(nets: set<Bit>, lo: int, free: int, lo': int, free': int)
    requires IsFree(nets, lo, free) && IsFree(nets, lo', free')
    ensures free == free'
  {
  }

  lemma OnlyFree(nets: set<Bit>, lo: int, free: int)
    requires IsFree(nets, lo, free)
    ensures forall lo', free' :: IsFree(nets, lo', free') ==> free' == free
  {
    forall lo', free' | IsFree(nets, lo', free') ensures free' == free {
      FreeIsUnique(nets, lo, free, lo', free');
    }
  }

  /** The indices of the nets in increasing order. */
  ghost predicate ListsNets(s: seq<int>, nets: set<Bit>) {
    && |s| == |nets| && (forall i, j :: 0 <= i < j < |s| ==> s[i] < s[j])
    && (forall i :: 0 <= i < |s| ==> Net(s[i]) in nets)
    && forall k :: Net(k) in nets ==> k in s
  }

  method SortedNets(nets: set<Bit>) returns (s: seq<int>)
    requires OnlyNets(nets)
    ensures ListsNets(s, nets)
  {
    var left, list := nets, [];
    while left != {}
      invariant left <= nets && |list| + |left| == |nets|
      invariant forall i :: 0 <= i < |list| ==> Net(list[i]) in nets - left
      invariant forall k :: Net(k) in nets - left ==> exists i :: 0 <= i < |list| && list[i] == k
      invariant Distinct(list)
      decreases left
    {
      var b :| b in left;
      ghost var before := list;
      list := list + [b.n];
      left := left - {b};
      forall k | Net(k) in nets - left ensures exists i :: 0 <= i < |list| && list[i] == k {
        if Net(k) == b {
          assert list[|before|] == k;
        } else {
          var i :| 0 <= i < |before| && before[i] == k;
          assert list[i] == k;
        }
      }
    }
    s := SortBy(list, (x: int) => x);
    SortByProperties(list, (x: int) => x);
    SortedList(list, s, nets);
  }

  lemma SortedList(list: seq<int>, s: seq<int>, nets: set<Bit>)
    requires Distinct(list) && multiset(list) == multiset(s) && SortedBy(s, (x: int) => x) && |list| == |nets|
    requires forall i :: 0 <= i < |list| ==> Net(list[i]) in nets
    requires forall k :: Net(k) in nets ==> exists i :: 0 <= i < |list| && list[i] == k
    ensures ListsNets(s, nets)
  {
    DistinctTransfers(list, s);
    SameMembers(list, s);
    assert |multiset(s)| == |s| && |multiset(list)| == |list|;
    forall i | 0 <= i < |s| ensures Net(s[i]) in nets {
      assert s[i] in s && s[i] in list;
      var k :| 0 <= k < |list| && list[k] == s[i];
    }
    forall k | Net(k) in nets ensures k in s {
      var i :| 0 <= i < |list| && list[i] == k;
      assert list[i] in list;
    }
  }

  /** get_free_net: the first gap above the lowest net; there is none to give without a net. */
  method GetFreeNet(nets: set<Bit>) returns (r: Option<Bit>)
    requires OnlyNets(nets)
    ensures r.None? <==> nets == {}
    ensures r.Some? ==> r.value.Net? && exists lo :: IsFree(nets, lo, r.value.n)
    ensures r.Some? ==> forall lo, free :: IsFree(nets, lo, free) ==> free == r.value.n
  {
    var s := SortedNets(nets);
    if |s| == 0 {
      return None;
    }
    for i := 0 to |nets| - 1
      invariant forall k :: s[0] <= k <= s[i] ==> Net(k) in nets
    {
      if s[i + 1] != s[i] + 1 {
        GapIsFree(nets, s, i);
        OnlyFree(nets, s[0], s[i] + 1);
        return Some(Net(s[i] + 1));
      }
    }
    GapIsFree(nets, s, |s| - 1);
    OnlyFree(nets, s[0], s[|s| - 1] + 1);
    return Some(Net(s[|s| - 1] + 1));
  }

  lemma GapIsFree(nets: set<Bit>, s: seq<int>, i: nat)
    requires ListsNets(s, nets) && i < |s| && (forall k :: s[0] <= k <= s[i] ==> Net(k) in nets)
    requires i + 1 < |s| ==> s[i + 1] != s[i] + 1
    ensures IsFree(nets, s[0], s[i] + 1)
  {
    forall j | 0 <= j < |s| ensures s[j] != s[i] + 1 {}
    forall k | Net(k) in nets ensures s[0] <= k {
      var j :| 0 <= j < |s| && s[j] == k;
    }
  }

  // ----- allocating the halves -----

  /** The nets given to the first c bits. */
  ghost function Given(bits: seq<Bit>, half: seq<Bit>, c: nat): set<Bit>
    requires c <= |bits| && |half| >= c
  {
    set k | 0 <= k < c && bits[k].Net? :: half[k]
  }

  /** Every net bit gets the free net of what is used by then, every constant stays. */
  ghost predicate Allocated(bits: seq<Bit>, half: seq<Bit>, nets: set<Bit>) {
    |half| <= |bits| && forall k :: 0 <= k < |half| ==> MayGet(bits[k], nets + Given(bits, half, k), half[k])
  }

  /** net_map: for each inout net, the net of its input half and that of its output half. */
  datatype NetMap = NetMap(inputs: map<Bit, Bit>, outputs: map<Bit, Bit>)

  /** Later entries win. */
  function Entered(m: map<Bit, Bit>, bits: seq<Bit>, half: seq<Bit>): map<Bit, Bit>
    requires |bits| == |half|
  {
    if bits == [] then m
    else
      var n := |bits| - 1;
      var before := Entered(m, bits[..n], half[..n]);
      if bits[n].Net? then before[bits[n] := half[n]] else before
  }

  /** One half of one port: fails when there is no net left to start from. */
  method AllocateHalf(bits: seq<Bit>, nets: set<Bit>, m: map<Bit, Bit>)
      returns (ok: bool, half: seq<Bit>, nets': set<Bit>, m': map<Bit, Bit>)
    requires OnlyNets(nets)
    ensures ok <==> nets != {} || Nets(bits) == {}
    ensures ok ==> |half| == |bits| && Allocated(bits, half, nets)
    ensures ok ==> nets' == nets + Given(bits, half, |bits|) && m' == Entered(m, bits, half)
    ensures OnlyNets(nets')
  {
    half, nets', m' := [], nets, m;
    NothingGiven(bits, nets, m);
    hide IsFree, Given, Allocated, Entered, Nets;
    for i := 0 to |bits|
      invariant |half| == i && Allocated(bits, half, nets) && OnlyNets(nets')
      invariant nets' == nets + Given(bits, half, i) && m' == Entered(m, bits[..i], half)
      invariant nets == {} ==> nets' == {} && Nets(bits[..i]) == {}
    {
      var x := bits[i];
      if bits[i].Net? {
        var free := GetFreeNet(nets');
        if free.None? {
          NetsOf(bits, i);
          return false, half, nets', m';
        }
        x := free.value;
        nets' := nets' + {x};
        m' := m'[bits[i] := x];
      }
      AllocatedSnoc(bits, half, nets, x);
      EnteredSnoc(m, bits, half, x);
      half := half + [x];
    }
    assert bits[..|bits|] == bits;
    ok := true;
  }

  lemma NetsOf(bits: seq<Bit>, i: nat)
    requires i < |bits| && bits[i].Net?
    ensures Nets(bits) != {}
  {
    assert bits[i] in Nets(bits);
  }

  lemma GivenPrefix(bits: seq<Bit>, half: seq<Bit>, free: Bit)
    requires |half| < |bits|
    ensures forall k :: 0 <= k <= |half| ==> Given(bits, half + [free], k) == Given(bits, half, k)
    ensures Given(bits, half + [free], |half| + 1) ==
      Given(bits, half, |half|) + if bits[|half|].Net? then {free} else {}
  {
    var more := half + [free];
    assert more[|half|] == free;
    forall k | 0 <= k <= |half| ensures Given(bits, more, k) == Given(bits, half, k) {}
  }

  /** What a bit's entry in the half may be. */
  ghost predicate MayGet(b: Bit, used: set<Bit>, x: Bit) {
    if b.Net? then x.Net? && exists lo :: IsFree(used, lo, x.n) else x == b
  }

  lemma AllocatedSnoc(bits: seq<Bit>, half: seq<Bit>, nets: set<Bit>, x: Bit)
    requires |half| < |bits| && Allocated(bits, half, nets) && MayGet(bits[|half|], nets + Given(bits, half, |half|), x)
    ensures Allocated(bits, half + [x], nets)
    ensures Given(bits, half + [x], |half| + 1) == Given(bits, half, |half|) + if bits[|half|].Net? then {x} else {}
  {
    var more := half + [x];
    GivenPrefix(bits, half, x);
    hide MayGet, Given;
    forall k | 0 <= k < |more| ensures MayGet(bits[k], nets + Given(bits, more, k), more[k]) {
      if k < |half| { assert MayGet(bits[k], nets + Given(bits, half, k), half[k]); }
    }
  }

  lemma NothingGiven(bits: seq<Bit>, nets: set<Bit>, m: map<Bit, Bit>)
    ensures Allocated(bits, [], nets) && Given(bits, [], 0) == {} && Entered(m, bits[..0], []) == m
      && Nets(bits[..0]) == {}
  {
  }

  lemma EnteredSnoc(m: map<Bit, Bit>, bits: seq<Bit>, half: seq<Bit>, x: Bit)
    requires |half| < |bits|
    ensures Entered(m, bits[..|half| + 1], half + [x]) ==
      if bits[|half|].Net? then Entered(m, bits[..|half|], half)[bits[|half|] := x]
        else Entered(m, bits[..|half|], half)
    ensures Nets(bits[..|half| + 1]) == Nets(bits[..|half|]) + if bits[|half|].Net? then {bits[|half|]} else {}
  {
    var n := |half|;
    assert bits[..n + 1][..n] == bits[..n] && bits[..n + 1] == bits[..n] + [bits[n]];
    assert (half + [x])[..n] == half;
  }

  // ----- all inout ports, in order -----

  /** An inout port with the bits of its halves. */
  datatype Split = Split(name: string, bits: seq<Bit>, inputs: seq<Bit>, outputs: seq<Bit>)

  function InputName(name: string): string { name + "_$inp" }
  function OutputName(name: string): string { name + "_$out" }

  ghost predicate Sized(splits: seq<Split>) {
    forall k :: 0 <= k < |splits| ==> |splits[k].inputs| == |splits[k].bits| && |splits[k].outputs| == |splits[k].bits|
  }

  /** The nets in use when port k gets its turn. */
  ghost function NetsAt(splits: seq<Split>, nets: set<Bit>, k: nat): set<Bit>
    requires k <= |splits| && Sized(splits)
  {
    if k == 0 then nets
    else
      var s := splits[k - 1];
      NetsAt(splits, nets, k - 1) - Nets(s.bits) + Given(s.bits, s.inputs, |s.bits|)
        + Given(s.bits, s.outputs, |s.bits|)
  }

  /** Port k gives up its own nets first, then its halves are allocated. */
  ghost predicate SplitAt(splits: seq<Split>, nets: set<Bit>, k: nat)
    requires k < |splits| && Sized(splits)
  {
    var s, left := splits[k], NetsAt(splits, nets, k) - Nets(splits[k].bits);
    Allocated(s.bits, s.inputs, left) && Allocated(s.bits, s.outputs, left + Given(s.bits, s.inputs, |s.bits|))
  }

  ghost predicate AllSplit(splits: seq<Split>, nets: set<Bit>) {
    Sized(splits) && forall k :: 0 <= k < |splits| ==> SplitAt(splits, nets, k)
  }

  function MapOf(splits: seq<Split>): NetMap
    requires Sized(splits)
  {
    if splits == [] then NetMap(map[], map[])
    else
      var s, m := splits[|splits| - 1], MapOf(splits[..|splits| - 1]);
      NetMap(Entered(m.inputs, s.bits, s.inputs), Entered(m.outputs, s.bits, s.outputs))
  }

  function NewPorts(splits: seq<Split>): Ports {
    if splits == [] then map[]
    else
      var s := splits[|splits| - 1];
      var before := NewPorts(splits[..|splits| - 1]);
      before[InputName(s.name) := IoPort(Input, s.inputs)][OutputName(s.name) := IoPort(Output, s.outputs)]
  }

  lemma {:induction false} NetsAtPrefix(splits: seq<Split>, s: Split, nets: set<Bit>, k: nat)
    requires k <= |splits| && Sized(splits) && Sized(splits + [s])
    ensures NetsAt(splits + [s], nets, k) == NetsAt(splits, nets, k)
  {
    if k > 0 { NetsAtPrefix(splits, s, nets, k - 1); }
  }

  lemma SplitOneMore(splits: seq<Split>, s: Split, nets: set<Bit>)
    requires AllSplit(splits, nets) && |s.inputs| == |s.bits| && |s.outputs| == |s.bits|
    requires var left := NetsAt(splits, nets, |splits|) - Nets(s.bits);
      Allocated(s.bits, s.inputs, left) && Allocated(s.bits, s.outputs, left + Given(s.bits, s.inputs, |s.bits|))
    ensures AllSplit(splits + [s], nets)
    ensures NetsAt(splits + [s], nets, |splits| + 1) ==
      NetsAt(splits, nets, |splits|) - Nets(s.bits) + Given(s.bits, s.inputs, |s.bits|)
        + Given(s.bits, s.outputs, |s.bits|)
    ensures MapOf(splits + [s]) ==
      NetMap(Entered(MapOf(splits).inputs, s.bits, s.inputs), Entered(MapOf(splits).outputs, s.bits, s.outputs))
    ensures NewPorts(splits + [s]) ==
      NewPorts(splits)[InputName(s.name) := IoPort(Input, s.inputs)][OutputName(s.name) := IoPort(Output, s.outputs)]
  {
    var all := splits + [s];
    hide Allocated, Given, Nets, InputName, OutputName;
    assert all[..|splits|] == splits;
    forall k | 0 <= k < |all| ensures SplitAt(all, nets, k) {
      NetsAtPrefix(splits, s, nets, k);
      if k < |splits| { assert SplitAt(splits, nets, k); }
    }
    NetsAtPrefix(splits, s, nets, |splits|);
  }

  function PortNets(ports: Ports): set<Bit> { set n, b | n in ports && b in ports[n].bits && b.Net? :: b }

  function NameNets(netnames: Netnames): set<Bit> { set n, b | n in netnames && b in netnames[n] && b.Net? :: b }

  function CellNets(cells: IoCells): set<Bit> {
    set c, p, b | c in cells && p in cells[c].conns && b in cells[c].conns[p] && b.Net? :: b
  }

  function AllNets(ports: Ports, netnames: Netnames, cells: IoCells): set<Bit> {
    PortNets(ports) + NameNets(netnames) + CellNets(cells)
  }

  /** The inout ports in port order. */
  function InoutNames(ports: Ports, order: seq<string>): seq<string> {
    if order == [] then []
    else
      var last := order[|order| - 1];
      InoutNames(ports, order[..|order| - 1]) + if last in ports && ports[last].direction == Inout then [last] else []
  }

  lemma {:induction false} InoutNamesAre(ports: Ports, order: seq<string>)
    requires Distinct(order)
    ensures Distinct(InoutNames(ports, order))
    ensures forall n :: n in InoutNames(ports, order) <==> n in order && n in ports && ports[n].direction == Inout
  {
    if order != [] {
      var n := |order| - 1;
      InoutNamesAre(ports, order[..n]);
      assert order == order[..n] + [order[n]];
      assert order[n] !in order[..n];
    }
  }

  // ----- net names -----

  function Crossed(bits: seq<Bit>, gone: set<Bit>): (r: seq<Bit>)
    ensures |r| == |bits|
    ensures forall k :: 0 <= k < |bits| ==> r[k] == if bits[k] in gone then Const('x') else bits[k]
  {
    if bits == [] then []
    else
      var n := |bits| - 1;
      Crossed(bits[..n], gone) + [if bits[n] in gone then Const('x') else bits[n]]
  }

  /** The net name mentions a split net, and nothing is left of it without those. */
  predicate Dropped(bits: seq<Bit>, gone: set<Bit>) {
    (exists k :: 0 <= k < |bits| && bits[k] in gone) && forall b :: b in Crossed(bits, gone) ==> b == Const('x')
  }

  /** A name is kept if it mentions no split net or something else is left of it. */
  ghost predicate HasLeft(bits: seq<Bit>, gone: set<Bit>) {
    (forall b :: b in bits ==> b !in gone) || exists b :: b in bits && b !in gone && b != Const('x')
  }

  lemma DroppedMeans(bits: seq<Bit>, gone: set<Bit>)
    ensures Dropped(bits, gone) <==> !HasLeft(bits, gone)
  {
    var crossed := Crossed(bits, gone);
    if b :| b in crossed && b != Const('x') {
      var k :| 0 <= k < |crossed| && crossed[k] == b;
      assert bits[k] in bits;
    }
    if b :| b in bits && b !in gone && b != Const('x') {
      var k :| 0 <= k < |bits| && bits[k] == b;
      assert crossed[k] in crossed;
    }
    hide Crossed;
  }

  function NetnamesAfter(netnames: Netnames, inouts: set<string>, gone: set<Bit>, newPorts: Ports): Netnames {
    (map n | n in netnames && n !in inouts && !Dropped(netnames[n], gone) :: Crossed(netnames[n], gone))
    + map n | n in newPorts :: newPorts[n].bits
  }

  // ----- cells -----

  predicate EndsWith(s: string, suffix: string) { |s| >= |suffix| && s[|s| - |suffix|..] == suffix }

  /** Only an input ending in "$inp" or an output ending in "$out" is remapped. */
  function RemapBit(m: NetMap, dir: Direction, port: string, b: Bit): Bit {
    if dir == Input && EndsWith(port, "$inp") && b in m.inputs then m.inputs[b]
    else if dir == Output && EndsWith(port, "$out") && b in m.outputs then m.outputs[b]
    else b
  }

  function RemapBits(m: NetMap, dir: Direction, port: string, bits: seq<Bit>): (r: seq<Bit>)
    ensures |r| == |bits|
    ensures forall k :: 0 <= k < |bits| ==> r[k] == RemapBit(m, dir, port, bits[k])
  {
    if bits == [] then []
    else
      var n := |bits| - 1;
      RemapBits(m, dir, port, bits[..n]) + [RemapBit(m, dir, port, bits[n])]
  }

  /** Every connected port has a direction. */
  ghost predicate AllTyped(cells: IoCells) { forall c :: c in cells ==> TypedCell(cells[c]) }

  predicate TypedCell(c: IoCell) { c.conns.Keys <= c.directions.Keys }

  function RemapCell(m: NetMap, c: IoCell): IoCell
    requires TypedCell(c)
  {
    c.(conns := map p | p in c.conns :: RemapBits(m, c.directions[p], p, c.conns[p]))
  }

  class Module {
    var ports: Ports
    var netnames: Netnames
    var cells: IoCells

    constructor (ports: Ports, netnames: Netnames, cells: IoCells)
      ensures this.ports == ports && this.netnames == netnames && this.cells == cells
    {
      this.ports, this.netnames, this.cells := ports, netnames, cells;
    }

    /** One inout port: removed, with its nets, and replaced by two halves. */
    method SplitPort(name: string, nets: set<Bit>, m: NetMap, newPorts: Ports, ghost splits: seq<Split>,
        ghost all: set<Bit>)
        returns (ok: bool, nets': set<Bit>, m': NetMap, newPorts': Ports, ghost splits': seq<Split>)
      requires name in ports && OnlyNets(nets) && AllSplit(splits, all)
      requires nets == NetsAt(splits, all, |splits|) && m == MapOf(splits) && newPorts == NewPorts(splits)
      modifies `ports
      ensures ports == old(ports) - {name}
      ensures ok <==> !(nets <= Nets(old(ports)[name].bits)) || Nets(old(ports)[name].bits) == {}
      ensures ok ==> |splits'| == |splits| + 1 && splits'[..|splits|] == splits
      ensures ok ==> splits'[|splits|].name == name && splits'[|splits|].bits == old(ports)[name].bits
      ensures ok ==> AllSplit(splits', all) && OnlyNets(nets') && nets' == NetsAt(splits', all, |splits'|)
      ensures ok ==> m' == MapOf(splits') && newPorts' == NewPorts(splits')
      ensures !ok ==> splits' == splits
    {
      var bits := ports[name].bits;
      ports := ports - {name};
      var left := nets - Nets(bits);
      NothingLeft(nets, Nets(bits));
      splits', nets', m', newPorts' := splits, left, m, newPorts;
      hide Allocated, Nets, Given, NewPorts, MapOf, Entered, InputName, OutputName, NetsAt;
      var inputs, used, ins;
      ok, inputs, used, ins := AllocateHalf(bits, left, m.inputs);
      if !ok {
        return;
      }
      var outputs, outs;
      ok, outputs, nets', outs := AllocateHalf(bits, used, m.outputs);
      HalvesLeft(bits, inputs, left);
      m' := NetMap(ins, outs);
      newPorts' := newPorts[InputName(name) := IoPort(Input, inputs)][OutputName(name) := IoPort(Output, outputs)];
      SplitOneMore(splits, Split(name, bits, inputs, outputs), all);
      splits' := splits + [Split(name, bits, inputs, outputs)];
    }

    /** All inout ports, in order; the new ports are added at the end. */
    method SplitPorts(order: seq<string>)
        returns (ok: bool, m: NetMap, newPorts: Ports, inouts: seq<string>, ghost splits: seq<Split>)
      requires Distinct(order) && forall n :: n in order <==> n in ports
      modifies `ports
      ensures inouts == InoutNames(old(ports), order)
      ensures Divided(old(ports), inouts, splits, AllNets(old(ports), netnames, cells))
      ensures ok ==> |splits| == |inouts| && m == MapOf(splits) && newPorts == NewPorts(splits)
      ensures ok ==> ports == old(ports) - Elements(inouts) + newPorts
      ensures !ok ==> |splits| < |inouts|
      ensures !ok ==> Stuck(old(ports), inouts[|splits|], splits, AllNets(old(ports), netnames, cells))
    {
      ghost var before := ports;
      inouts := InoutNames(ports, order);
      InoutNamesAre(ports, order);
      var nets := AllNets(ports, netnames, cells);
      ghost var all := nets;
      m, newPorts, splits := NetMap(map[], map[]), map[], [];
      AllNetsAreNets(ports, netnames, cells);
      SoFarNothing(ports, inouts, all);
      hide InoutNames, AllNets, SplitSoFar, Divided, Stuck, MapOf, NewPorts, Elements;
      for k := 0 to |inouts|
        invariant |splits| == k && SplitSoFar(before, inouts, splits, all, nets, m, newPorts, ports)
      {
        assert inouts[k] in inouts;
        ok, nets, m, newPorts, splits := SplitNext(before, inouts, k, nets, m, newPorts, splits, all);
        if !ok {
          return;
        }
      }
      SoFarAll(before, inouts, splits, all, nets, m, newPorts, ports);
      ports := ports + newPorts;
      ok := true;
    }

    /** The next inout port. */
    method SplitNext(ghost before: Ports, inouts: seq<string>, k: nat, nets: set<Bit>, m: NetMap, newPorts: Ports,
        ghost splits: seq<Split>, ghost all: set<Bit>)
        returns (ok: bool, nets': set<Bit>, m': NetMap, newPorts': Ports, ghost splits': seq<Split>)
      requires SplitSoFar(before, inouts, splits, all, nets, m, newPorts, ports)
      requires Distinct(inouts) && k == |splits| < |inouts| && inouts[k] in before
      modifies `ports
      ensures ok ==> |splits'| == |splits| + 1
      ensures ok ==> SplitSoFar(before, inouts, splits', all, nets', m', newPorts', ports)
      ensures !ok ==> splits' == splits && Divided(before, inouts, splits, all)
      ensures !ok ==> Sized(splits) && Stuck(before, inouts[k], splits, all)
    {
      RemoveMore(before, inouts, k);
      hide Allocated, NetsAt, Nets, MapOf, NewPorts, AllSplit, Sized, OnlyNets, Elements;
      ok, nets', m', newPorts', splits' := SplitPort(inouts[k], nets, m, newPorts, splits, all);
      if ok { DividedMore(before, inouts, splits, splits', all); }
    }

    /** Removes the names of inout ports, crosses out split nets and drops names with nothing left. */
    method CleanNetnames(inouts: set<string>, gone: set<Bit>)
      modifies `netnames
      ensures netnames == NetnamesAfter(old(netnames), inouts, gone, map[])
      ensures forall n :: n in netnames <==>
        n in old(netnames) && n !in inouts && HasLeft(old(netnames)[n], gone)
    {
      var before := netnames;
      var left := netnames.Keys;
      hide Crossed, Dropped, Cleaned;
      assert Cleaned(before, netnames, left, inouts, gone) by { NothingCleaned(before, inouts, gone); }
      while left != {}
        invariant left <= before.Keys && Cleaned(before, netnames, left, inouts, gone)
        decreases left
      {
        var n :| n in left;
        CleanOne(before, netnames, left, inouts, gone, n);
        left := left - {n};
        if n in inouts || Dropped(before[n], gone) {
          netnames := netnames - {n};
        } else {
          netnames := netnames[n := Crossed(before[n], gone)];
        }
      }
      AllCleaned(before, netnames, inouts, gone);
      hide HasLeft, NetnamesAfter;
      forall n | n in before ensures Dropped(before[n], gone) <==> !HasLeft(before[n], gone) {
        DroppedMeans(before[n], gone);
      }
    }

    /** find_and_split_inout_ports_and_nets. */
    method FindAndSplit(order: seq<string>) returns (ok: bool, m: NetMap, ghost splits: seq<Split>)
      requires Distinct(order) && forall n :: n in order <==> n in ports
      modifies this
      ensures cells == old(cells)
      ensures Divided(old(ports), InoutNames(old(ports), order), splits, AllNets(old(ports), old(netnames), old(cells)))
      ensures ok ==> |splits| == |InoutNames(old(ports), order)| && m == MapOf(splits)
      ensures ok ==> ports == old(ports) - Elements(InoutNames(old(ports), order)) + NewPorts(splits)
      ensures ok ==>
        netnames == NetnamesAfter(old(netnames), Elements(InoutNames(old(ports), order)), m.inputs.Keys,
          NewPorts(splits))
      ensures !ok ==> |splits| < |InoutNames(old(ports), order)|
      ensures !ok ==> Stuck(old(ports), InoutNames(old(ports), order)[|splits|], splits,
        AllNets(old(ports), old(netnames), old(cells)))
    {
      hide AllNets, NetnamesAfter, NewPorts, MapOf, Divided, Stuck;
      var newPorts, inouts;
      ok, m, newPorts, inouts, splits := SplitPorts(order);
      if !ok {
        return;
      }
      ghost var names := netnames;
      CleanNetnames(Elements(inouts), m.inputs.Keys);
      netnames := netnames + map n | n in newPorts :: newPorts[n].bits;
      AddNetnames(names, Elements(inouts), m.inputs.Keys, newPorts);
    }

    /** remap_connections. */
    method RemapConnections(m: NetMap)
      requires AllTyped(cells)
      modifies `cells
      ensures cells.Keys == old(cells).Keys && forall c :: c in cells ==>
        TypedCell(old(cells)[c]) && cells[c] == RemapCell(m, old(cells)[c])
    {
      var before := cells;
      var left := cells.Keys;
      while left != {}
        invariant left <= before.Keys && cells.Keys == before.Keys
        invariant forall c :: c in before ==>
          TypedCell(before[c]) && cells[c] == if c in left then before[c] else RemapCell(m, before[c])
        decreases left
      {
        var c :| c in left;
        left := left - {c};
        var cell := RemapPorts(m, before[c]);
        cells := cells[c := cell];
      }
    }
  }

  method RemapPorts(m: NetMap, cell: IoCell) returns (r: IoCell)
    requires TypedCell(cell)
    ensures r == RemapCell(m, cell)
  {
    hide RemapBits;
    var left, conns := cell.conns.Keys, cell.conns;
    while left != {}
      invariant left <= cell.conns.Keys && conns.Keys == cell.conns.Keys
      invariant forall p :: p in conns ==>
        p in cell.directions && conns[p] == if p in left then cell.conns[p]
          else RemapBits(m, cell.directions[p], p, cell.conns[p])
      decreases left
    {
      var p :| p in left;
      left := left - {p};
      conns := conns[p := RemapBits(m, cell.directions[p], p, cell.conns[p])];
    }
    r := cell.(conns := conns);
  }

  /** The names outside left have been dealt with. */
  ghost predicate Cleaned(before: Netnames, now: Netnames, left: set<string>, inouts: set<string>, gone: set<Bit>) {
    && (forall n :: n in now <==> n in before && (n in left || (n !in inouts && !Dropped(before[n], gone))))
    && forall n :: n in now && n in before ==> now[n] == if n in left then before[n] else Crossed(before[n], gone)
  }

  lemma NothingCleaned(before: Netnames, inouts: set<string>, gone: set<Bit>)
    ensures Cleaned(before, before, before.Keys, inouts, gone)
  {
  }

  lemma CleanOne(before: Netnames, now: Netnames, left: set<string>, inouts: set<string>, gone: set<Bit>, n: string)
    requires Cleaned(before, now, left, inouts, gone) && n in left && n in before
    ensures n in inouts || Dropped(before[n], gone) ==> Cleaned(before, now - {n}, left - {n}, inouts, gone)
    ensures !(n in inouts || Dropped(before[n], gone)) ==>
      Cleaned(before, now[n := Crossed(before[n], gone)], left - {n}, inouts, gone)
  {
    hide Crossed, Dropped;
  }

  lemma AllCleaned(before: Netnames, now: Netnames, inouts: set<string>, gone: set<Bit>)
    requires Cleaned(before, now, {}, inouts, gone)
    ensures now == NetnamesAfter(before, inouts, gone, map[])
  {
    hide Crossed, Dropped;
  }

  lemma AddNetnames(netnames: Netnames, inouts: set<string>, gone: set<Bit>, newPorts: Ports)
    ensures NetnamesAfter(netnames, inouts, gone, newPorts) ==
      NetnamesAfter(netnames, inouts, gone, map[]) + map n | n in newPorts :: newPorts[n].bits
  {
    hide Dropped, Crossed;
  }

  lemma AllNetsAreNets(ports: Ports, netnames: Netnames, cells: IoCells)
    ensures OnlyNets(AllNets(ports, netnames, cells))
  {
  }

  lemma NothingRemoved(ports: Ports, inouts: seq<string>)
    ensures ports == ports - Elements(inouts[..0])
  {
  }

  /** The ports dealt with so far, and what is left behind. */
  ghost predicate SplitSoFar(before: Ports, inouts: seq<string>, splits: seq<Split>, all: set<Bit>, nets: set<Bit>,
      m: NetMap, newPorts: Ports, now: Ports)
  {
    Divided(before, inouts, splits, all) && OnlyNets(nets) && nets == NetsAt(splits, all, |splits|)
    && m == MapOf(splits) && newPorts == NewPorts(splits) && now == before - Elements(inouts[..|splits|])
  }

  lemma SoFarNothing(ports: Ports, inouts: seq<string>, all: set<Bit>)
    requires OnlyNets(all)
    ensures SplitSoFar(ports, inouts, [], all, all, NetMap(map[], map[]), map[], ports)
  {
    NothingSplit(all);
    NothingRemoved(ports, inouts);
  }

  lemma SoFarAll(before: Ports, inouts: seq<string>, splits: seq<Split>, all: set<Bit>, nets: set<Bit>, m: NetMap,
      newPorts: Ports, now: Ports)
    requires SplitSoFar(before, inouts, splits, all, nets, m, newPorts, now) && |splits| == |inouts|
    ensures Divided(before, inouts, splits, all) && Sized(splits)
    ensures m == MapOf(splits) && newPorts == NewPorts(splits) && now == before - Elements(inouts)
  {
    assert inouts[..|inouts|] == inouts;
  }

  lemma RemoveMore(ports: Ports, inouts: seq<string>, k: nat)
    requires k < |inouts| && Distinct(inouts) && inouts[k] in ports
    ensures var now := ports - Elements(inouts[..k]);
      inouts[k] in now && now[inouts[k]] == ports[inouts[k]] && now - {inouts[k]} == ports - Elements(inouts[..k + 1])
  {
    assert inouts[k] !in inouts[..k];
    assert inouts[..k + 1] == inouts[..k] + [inouts[k]];
    assert Elements(inouts[..k + 1]) == Elements(inouts[..k]) + {inouts[k]};
  }

  /** The first inout ports have been split, in order. */
  ghost predicate Divided(ports: Ports, inouts: seq<string>, splits: seq<Split>, all: set<Bit>) {
    |splits| <= |inouts| && AllSplit(splits, all)
    && forall k :: 0 <= k < |splits| ==>
      splits[k].name == inouts[k] && inouts[k] in ports && splits[k].bits == ports[inouts[k]].bits
  }

  /** The nets in use are all the port's own when its turn comes. */
  ghost predicate Stuck(ports: Ports, name: string, splits: seq<Split>, all: set<Bit>)
    requires Sized(splits)
  {
    name in ports && NetsAt(splits, all, |splits|) <= Nets(ports[name].bits) && Nets(ports[name].bits) != {}
  }

  lemma NothingSplit(all: set<Bit>)
    ensures AllSplit([], all) && NetsAt([], all, 0) == all && MapOf([]) == NetMap(map[], map[]) && NewPorts([]) == map[]
  {
  }

  lemma DividedMore(ports: Ports, inouts: seq<string>, splits: seq<Split>, more: seq<Split>, all: set<Bit>)
    requires Divided(ports, inouts, splits, all) && AllSplit(more, all) && |splits| < |inouts|
    requires |more| == |splits| + 1 && more[..|splits|] == splits && inouts[|splits|] in ports
    requires more[|splits|].name == inouts[|splits|] && more[|splits|].bits == ports[inouts[|splits|]].bits
    ensures Divided(ports, inouts, more, all)
  {
    forall k | 0 <= k < |more|
      ensures more[k].name == inouts[k] && inouts[k] in ports && more[k].bits == ports[inouts[k]].bits
    {
      if k < |splits| { assert more[..|splits|][k] == more[k]; }
    }
  }

  lemma NothingLeft(a: set<Bit>, b: set<Bit>)
    ensures a - b == {} <==> a <= b
  {
    if a - b == {} {
      forall x | x in a ensures x in b { assert x !in a - b; }
    }
  }

  /** Once one half of a port has been allocated there are nets to go on from. */
  lemma HalvesLeft(bits: seq<Bit>, inputs: seq<Bit>, left: set<Bit>)
    requires |inputs| == |bits| && Allocated(bits, inputs, left)
    ensures left + Given(bits, inputs, |bits|) != {} || Nets(bits) == {}
  {
    if b :| b in Nets(bits) {
      var k :| 0 <= k < |bits| && bits[k] == b;
      assert inputs[k] in Given(bits, inputs, |bits|);
    }
  }
}
