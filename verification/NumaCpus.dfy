/**
CPUs in the aggregator: the allocatable ones become devices of the NUMA node
they belong to, the others are reserved.
*/
module NumaCpus {
  import opened Basics
  import opened NumaDevices

  /** A NUMA node of the topology, with the logical processors of each core. */
  datatype TopoNode = TopoNode(id: int, cores: seq<seq<int>>)

  const CPU := "cpu"

  function Procs(n: TopoNode): seq<int> {
    Flat(n.cores)
  }

  /** All logical processors of the topology. */
  function AllProcs(topo: seq<TopoNode>): seq<int> {
    if topo == [] then [] else AllProcs(topo[..|topo| - 1]) + Procs(topo[|topo| - 1])
  }

  // ----- Which node a CPU is on -----

  function CoreMap(topo: seq<TopoNode>): map<int, int> {
    if topo == [] then map[]
    else CoreMap(topo[..|topo| - 1]) + AllTo(Procs(topo[|topo| - 1]), topo[|topo| - 1].id)
  }

  /** MakeLogicalCoreIDToNodeIDMap */
  method MakeCoreMap(topo: seq<TopoNode>) returns (m: map<int, int>)
    ensures m == CoreMap(topo)
  {
    hide AllTo;
    m := map[];
    var i := 0;
    while i < |topo|
      invariant 0 <= i <= |topo|
      invariant m == CoreMap(topo[..i])
    {
      ghost var before := m;
      var n := topo[i];
      var j := 0;
      AllToNone(m, n.id);
      assert n.cores[..0] == [];
      while j < |n.cores|
        invariant 0 <= j <= |n.cores|
        invariant m == before + AllTo(Flat(n.cores[..j]), n.id)
      {
        AllToConcat(before, Flat(n.cores[..j]), n.cores[j], n.id);
        m := MapAll(m, n.cores[j], n.id);
        assert n.cores[..j + 1][..j] == n.cores[..j];
        j := j + 1;
      }
      assert n.cores[..|n.cores|] == n.cores;
      assert topo[..i + 1][..i] == topo[..i];
      i := i + 1;
    }
    assert topo[..|topo|] == topo;
  }

  /** A CPU is mapped to exactly the node that has it, when no processor is listed twice. */
  lemma {:induction false} CoreMapExact(topo: seq<TopoNode>, i: nat, p: int)
    requires NoDuplicates(AllProcs(topo)) && i < |topo|
    requires forall j | 0 <= j < |topo| :: topo[j].id == j
    ensures p in Procs(topo[i]) <==> p in CoreMap(topo) && CoreMap(topo)[p] == i
    decreases topo
  {
    var last := |topo| - 1;
    var init, n := topo[..last], topo[last];
    var a, b := AllProcs(init), Procs(n);
    assert AllProcs(topo) == a + b;
    assert NoDuplicates(a) by {
      forall x, y | 0 <= x < y < |a| ensures a[x] != a[y] { assert (a + b)[x] == a[x] && (a + b)[y] == a[y]; }
    }
    if i < last {
      CoreMapExact(init, i, p);
      if p in Procs(init[i]) && p in b {
        ProcsAmongAll(init, i, p);
        ListedOnce(a, b, p);
      }
    } else if p in CoreMap(init) {
      MappedBelow(init, p);
    }
  }

  lemma ListedOnce(a: seq<int>, b: seq<int>, p: int)
    requires NoDuplicates(a + b) && p in a
    ensures p !in b
  {
    var x :| 0 <= x < |a| && a[x] == p;
    forall y | 0 <= y < |b| ensures b[y] != p {
      assert (a + b)[x] != (a + b)[|a| + y];
    }
  }

  lemma {:induction false} ProcsAmongAll(topo: seq<TopoNode>, i: nat, p: int)
    requires i < |topo| && p in Procs(topo[i])
    ensures p in AllProcs(topo)
    decreases topo
  {
    if i < |topo| - 1 {
      ProcsAmongAll(topo[..|topo| - 1], i, p);
    }
  }

  lemma {:induction false} MappedBelow(topo: seq<TopoNode>, p: int)
    requires forall j | 0 <= j < |topo| :: topo[j].id == j
    requires p in CoreMap(topo)
    ensures 0 <= CoreMap(topo)[p] < |topo|
    decreases topo
  {
    if p !in Procs(topo[|topo| - 1]) {
      MappedBelow(topo[..|topo| - 1], p);
    }
  }

  // ----- Allocatable CPUs as devices -----

  /** The allocatable CPUs of a node, in the order in which they are reported. */
  function CpusOn(core: map<int, int>, cpuIds: seq<int>, node: int): seq<int> {
    if cpuIds == [] then []
    else
      var c := cpuIds[|cpuIds| - 1];
      CpusOn(core, cpuIds[..|cpuIds| - 1], node) + if c in core && core[c] == node then [c] else []
  }

  function Names(fmt: int -> string, cs: seq<int>): (r: seq<string>)
    ensures |r| == |cs| && forall i | 0 <= i < |cs| :: r[i] == fmt(cs[i])
  {
    seq(|cs|, i requires 0 <= i < |cs| => fmt(cs[i]))
  }

  function CpuDevice(fmt: int -> string, core: map<int, int>, cpuIds: seq<int>, node: int): Device {
    Device(CPU, Names(fmt, CpusOn(core, cpuIds, node)), [node])
  }

  function CpuDevices(fmt: int -> string, core: map<int, int>, cpuIds: seq<int>, order: seq<int>): seq<Device> {
    if order == [] then []
    else CpuDevices(fmt, core, cpuIds, order[..|order| - 1]) + [CpuDevice(fmt, core, cpuIds, order[|order| - 1])]
  }

  /** The nodes that have an allocatable CPU. */
  function CpuNodes(core: map<int, int>, cpuIds: seq<int>): set<int> {
    set c | c in cpuIds && c in core :: core[c]
  }

  lemma CpuNodeOf(core: map<int, int>, cpuIds: seq<int>, c: int)
    requires c in cpuIds && c in core
    ensures core[c] in CpuNodes(core, cpuIds)
  {
  }

  /** getContainerDevicesFromAllocatableResources; the order is that of Go's map iteration. */
  method AllocatableDevices(fmt: int -> string, devices: seq<Device>, cpuIds: seq<int>, topo: seq<TopoNode>)
    returns (all: seq<Device>, ghost order: seq<int>)
    ensures NoDuplicates(order) && Elems(order) == CpuNodes(CoreMap(topo), cpuIds)
    ensures all == devices + CpuDevices(fmt, CoreMap(topo), cpuIds, order)
  {
    hide CoreMap;
    hide CpusOn;
    hide CpuNodes;
    hide CpuDevices;
    hide NoDuplicates;
    hide Names;
    var core := MakeCoreMap(topo);
    var cpusPerNuma := GroupCpus(fmt, core, cpuIds);
    all := devices;
    order := [];
    NoCpuDevices(fmt, core, cpuIds);
    assert devices + [] == devices;
    var todo := cpusPerNuma.Keys;
    while todo != {}
      invariant todo <= cpusPerNuma.Keys
      invariant NoDuplicates(order) && Elems(order) == cpusPerNuma.Keys - todo
      invariant all == devices + CpuDevices(fmt, core, cpuIds, order)
      decreases todo
    {
      ghost var some := Any(todo);
      var node :| node in todo;
      assert node !in order by { assert node in order ==> node in Elems(order); }
      CpuDevicesStep(fmt, core, cpuIds, order, node);
      all := all + [Device(CPU, cpusPerNuma[node], [node])];
      assert all == devices + CpuDevices(fmt, core, cpuIds, order + [node]);
      order := order + [node];
      todo := todo - {node};
    }
  }

  lemma NoCpuDevices(fmt: int -> string, core: map<int, int>, cpuIds: seq<int>)
    ensures CpuDevices(fmt, core, cpuIds, []) == [] && NoDuplicates<int>([])
  {
  }

  lemma CpuDevicesStep(fmt: int -> string, core: map<int, int>, cpuIds: seq<int>, order: seq<int>, node: int)
    requires NoDuplicates(order) && node !in order
    ensures CpuDevices(fmt, core, cpuIds, order + [node])
         == CpuDevices(fmt, core, cpuIds, order) + [CpuDevice(fmt, core, cpuIds, node)]
    ensures NoDuplicates(order + [node]) && Elems(order + [node]) == Elems(order) + {node}
  {
    assert (order + [node])[..|order|] == order;
  }

  lemma CpusOnStep(core: map<int, int>, cpuIds: seq<int>, i: nat, node: int)
    requires i < |cpuIds|
    ensures CpusOn(core, cpuIds[..i + 1], node)
         == CpusOn(core, cpuIds[..i], node) + if cpuIds[i] in core && core[cpuIds[i]] == node then [cpuIds[i]] else []
  {
    assert cpuIds[..i + 1][..i] == cpuIds[..i];
  }

  lemma CpuNodesStep(core: map<int, int>, cpuIds: seq<int>, i: nat)
    requires i < |cpuIds|
    ensures CpuNodes(core, cpuIds[..i + 1])
         == CpuNodes(core, cpuIds[..i]) + if cpuIds[i] in core then {core[cpuIds[i]]} else {}
  {
    var more := CpuNodes(core, cpuIds[..i + 1]);
    var c := cpuIds[i];
    assert cpuIds[..i + 1] == cpuIds[..i] + [c];
    if c in core {
      assert c in cpuIds[..i + 1] && core[c] in more;
    }
    forall n | n in CpuNodes(core, cpuIds[..i]) ensures n in more {
      var x :| x in cpuIds[..i] && x in core && core[x] == n;
      assert x in cpuIds[..i + 1];
    }
  }

  method GroupCpus(fmt: int -> string, core: map<int, int>, cpuIds: seq<int>) returns (m: map<int, seq<string>>)
    ensures m.Keys == CpuNodes(core, cpuIds)
    ensures forall n | n in m :: m[n] == Names(fmt, CpusOn(core, cpuIds, n))
  {
    hide CpusOn;
    hide CpuNodes;
    m := map[];
    var i := 0;
    NoCpus(core, cpuIds);
    while i < |cpuIds|
      invariant 0 <= i <= |cpuIds|
      invariant m.Keys == CpuNodes(core, cpuIds[..i])
      invariant forall n | n in m :: m[n] == Names(fmt, CpusOn(core, cpuIds[..i], n))
      invariant forall n | n !in m :: CpusOn(core, cpuIds[..i], n) == []
    {
      var c := cpuIds[i];
      ghost var before := m;
      CpuNodesStep(core, cpuIds, i);
      if c in core {
        var n := core[c];
        m := m[n := (if n in m then m[n] else []) + [fmt(c)]];
      }
      forall n ensures if n in m then m[n] == Names(fmt, CpusOn(core, cpuIds[..i + 1], n))
                       else CpusOn(core, cpuIds[..i + 1], n) == [] {
        CpusOnStep(core, cpuIds, i, n);
      }
      i := i + 1;
    }
    assert cpuIds[..|cpuIds|] == cpuIds;
  }

  lemma NoCpus(core: map<int, int>, cpuIds: seq<int>)
    ensures CpuNodes(core, cpuIds[..0]) == {} && forall n :: CpusOn(core, cpuIds[..0], n) == []
  {
  }

  // ----- Reserved CPUs -----

  /** getCPUs: the IDs of all CPU devices. */
  function CpuIds(devices: seq<Device>): set<string> {
    if devices == [] then {}
    else
      var d := devices[|devices| - 1];
      CpuIds(devices[..|devices| - 1]) + if d.resource == CPU then Elems(d.ids) else {}
  }

  /** A CPU device that lists IDs but no NUMA node. */
  predicate Nowhere(d: Device) {
    d.resource == CPU && d.ids != [] && d.nodes == []
  }

  /** The IDs, each with the first node of the last CPU device that lists it. */
  function CpuFirstNodes(devices: seq<Device>): map<string, int> {
    if devices == [] then map[]
    else
      var before, d := CpuFirstNodes(devices[..|devices| - 1]), devices[|devices| - 1];
      if d.resource == CPU && d.nodes != [] then before + AllTo(d.ids, d.nodes[0]) else before
  }

  lemma AllToKeys<K>(keys: seq<K>, v: int)
    ensures AllTo(keys, v).Keys == Elems(keys)
  {
  }

  lemma {:induction false} CpuFirstKeys(devices: seq<Device>)
    requires forall d | d in devices :: !Nowhere(d)
    ensures CpuFirstNodes(devices).Keys == CpuIds(devices)
  {
    hide AllTo;
    if devices != [] {
      var d := devices[|devices| - 1];
      assert d in devices;
      CpuFirstKeys(devices[..|devices| - 1]);
      if d.nodes != [] {
        AllToKeys(d.ids, d.nodes[0]);
      } else {
        ElemsOfNone(d.ids);
      }
    }
  }

  lemma ElemsOfNone(ids: seq<string>)
    ensures ids == [] ==> Elems(ids) == {}
  {
  }

  /** getCPUs; None is the index panic for a device that lists IDs but no node. */
  method GetCPUs(devices: seq<Device>) returns (cpus: Option<map<string, int>>)
    ensures cpus.None? <==> exists d | d in devices :: Nowhere(d)
    ensures cpus.Some? ==> cpus.value == CpuFirstNodes(devices) && cpus.value.Keys == CpuIds(devices)
  {
    hide AllTo;
    hide CpuIds;
    var m: map<string, int> := map[];
    var i := 0;
    while i < |devices|
      invariant 0 <= i <= |devices|
      invariant m == CpuFirstNodes(devices[..i])
      invariant forall d | d in devices[..i] :: !Nowhere(d)
    {
      var d := devices[i];
      assert d in devices;
      assert devices[..i + 1][..i] == devices[..i] && devices[..i + 1] == devices[..i] + [d];
      if d.resource == CPU {
        if d.nodes != [] {
          m := MapAll(m, d.ids, d.nodes[0]);
        } else if d.ids != [] {
          return None;
        }
      }
      i := i + 1;
    }
    assert devices[..|devices|] == devices;
    CpuFirstKeys(devices);
    return Some(m);
  }

  function NotIn(fmt: int -> string, procs: seq<int>, cpus: set<string>): seq<string> {
    if procs == [] then []
    else
      var p := procs[|procs| - 1];
      NotIn(fmt, procs[..|procs| - 1], cpus) + if fmt(p) in cpus then [] else [fmt(p)]
  }

  lemma {:induction false} NotInConcat(fmt: int -> string, a: seq<int>, b: seq<int>, cpus: set<string>)
    ensures NotIn(fmt, a + b, cpus) == NotIn(fmt, a, cpus) + NotIn(fmt, b, cpus)
    decreases b
  {
    if b == [] {
      assert a + b == a;
    } else {
      assert (a + b)[..|a + b| - 1] == a + b[..|b| - 1];
      NotInConcat(fmt, a, b[..|b| - 1], cpus);
    }
  }

  method ReservedOfCore(fmt: int -> string, core: seq<int>, cpus: map<string, int>) returns (r: seq<string>)
    ensures r == NotIn(fmt, core, cpus.Keys)
  {
    r := [];
    var k := 0;
    while k < |core|
      invariant 0 <= k <= |core|
      invariant r == NotIn(fmt, core[..k], cpus.Keys)
    {
      assert core[..k + 1][..k] == core[..k];
      if fmt(core[k]) !in cpus {
        r := r + [fmt(core[k])];
      }
      k := k + 1;
    }
    assert core[..|core|] == core;
  }

  /** The reserved CPUs of one topology node. */
  method ReservedOf(fmt: int -> string, n: TopoNode, cpus: map<string, int>) returns (r: seq<string>)
    ensures r == NotIn(fmt, Procs(n), cpus.Keys)
  {
    hide NotIn;
    r := [];
    var j := 0;
    NoneReserved(fmt, cpus.Keys);
    assert n.cores[..0] == [];
    while j < |n.cores|
      invariant 0 <= j <= |n.cores|
      invariant r == NotIn(fmt, Flat(n.cores[..j]), cpus.Keys)
    {
      var more := ReservedOfCore(fmt, n.cores[j], cpus);
      NotInConcat(fmt, Flat(n.cores[..j]), n.cores[j], cpus.Keys);
      assert n.cores[..j + 1][..j] == n.cores[..j];
      r := r + more;
      j := j + 1;
    }
    assert n.cores[..|n.cores|] == n.cores;
  }

  type ReservedMap = map<int, seq<string>>

  function ReservedOn(m: ReservedMap, node: int): seq<string> {
    if node in m then m[node] else []
  }

  /** The processors of all topology nodes with an ID. */
  function ProcsOf(topo: seq<TopoNode>, id: int): seq<int> {
    if topo == [] then []
    else
      var n := topo[|topo| - 1];
      ProcsOf(topo[..|topo| - 1], id) + if n.id == id then Procs(n) else []
  }

  /** The list of an ID grows only if there is something to add. */
  function Reserve(m: ReservedMap, id: int, more: seq<string>): ReservedMap {
    if more == [] then m else m[id := ReservedOn(m, id) + more]
  }

  lemma ReserveAt(m: ReservedMap, id: int, more: seq<string>, at: int)
    ensures ReservedOn(Reserve(m, id, more), at) == ReservedOn(m, at) + if at == id then more else []
  {
  }

  lemma ReservedStep(fmt: int -> string, topo: seq<TopoNode>, i: nat, id: int, cpus: set<string>)
    requires i < |topo|
    ensures NotIn(fmt, ProcsOf(topo[..i + 1], id), cpus)
         == NotIn(fmt, ProcsOf(topo[..i], id), cpus) + if topo[i].id == id then NotIn(fmt, Procs(topo[i]), cpus) else []
  {
    hide NotIn;
    hide Procs;
    assert topo[..i + 1][..i] == topo[..i];
    NotInConcat(fmt, ProcsOf(topo[..i], id), if topo[i].id == id then Procs(topo[i]) else [], cpus);
    NoneReserved(fmt, cpus);
  }

  lemma NothingReserved(fmt: int -> string, cpus: set<string>)
    ensures forall id :: ReservedOn(map[], id) == NotIn(fmt, ProcsOf([], id), cpus)
  {
  }

  /** makeReservedCPUMap; None is the panic of getCPUs. */
  method MakeReservedCPUMap(fmt: int -> string, topo: seq<TopoNode>, devices: seq<Device>)
    returns (r: Option<ReservedMap>)
    ensures r.None? <==> exists d | d in devices :: Nowhere(d)
    ensures r.Some? ==> forall id :: ReservedOn(r.value, id) == NotIn(fmt, ProcsOf(topo, id), CpuIds(devices))
  {
    hide NotIn;
    hide Procs;
    hide CpuIds;
    hide ProcsOf;
    hide ReservedOn;
    hide Reserve;
    var cpus := GetCPUs(devices);
    if cpus.None? {
      return None;
    }
    var m: ReservedMap := map[];
    var i := 0;
    NothingReserved(fmt, cpus.value.Keys);
    assert topo[..0] == [];
    while i < |topo|
      invariant 0 <= i <= |topo|
      invariant forall id :: ReservedOn(m, id) == NotIn(fmt, ProcsOf(topo[..i], id), cpus.value.Keys)
    {
      var n := topo[i];
      var more := ReservedOf(fmt, n, cpus.value);
      forall id
        ensures ReservedOn(Reserve(m, n.id, more), id) == NotIn(fmt, ProcsOf(topo[..i + 1], id), cpus.value.Keys)
      {
        ReserveAt(m, n.id, more, id);
        ReservedStep(fmt, topo, i, id, cpus.value.Keys);
      }
      m := Reserve(m, n.id, more);
      i := i + 1;
    }
    assert topo[..|topo|] == topo;
    return Some(m);
  }

  lemma NoneReserved(fmt: int -> string, cpus: set<string>)
    ensures NotIn(fmt, [], cpus) == []
  {
  }

  /** If the IDs are positions, a node has an ID of its own. */
  lemma {:induction false} ProcsAt(topo: seq<TopoNode>, id: int)
    requires forall j | 0 <= j < |topo| :: topo[j].id == j
    ensures ProcsOf(topo, id) == if 0 <= id < |topo| then Procs(topo[id]) else []
    decreases topo
  {
    hide Procs;
    if topo != [] {
      ProcsAt(topo[..|topo| - 1], id);
    }
  }

  // ----- Conservation -----

  ghost predicate Injective(fmt: int -> string) {
    forall a, b :: fmt(a) == fmt(b) ==> a == b
  }

  lemma {:induction false} CpusOnElems(core: map<int, int>, cpuIds: seq<int>, node: int)
    ensures Elems(CpusOn(core, cpuIds, node)) == set c | c in cpuIds && c in core && core[c] == node
    ensures NoDuplicates(cpuIds) ==> NoDuplicates(CpusOn(core, cpuIds, node))
    decreases cpuIds
  {
    if cpuIds != [] {
      var init, c := cpuIds[..|cpuIds| - 1], cpuIds[|cpuIds| - 1];
      CpusOnElems(core, init, node);
      var before := CpusOn(core, init, node);
      var more := if c in core && core[c] == node then [c] else [];
      assert cpuIds == init + [c];
      assert Elems(before + more) == Elems(before) + Elems(more);
      if NoDuplicates(cpuIds) {
        assert NoDuplicates(init);
        assert c !in init;
        assert c !in before by { assert c in before ==> c in Elems(before); }
      }
    }
  }

  lemma TakenStep(init: seq<int>, p: int, taken: set<int>)
    requires p !in init
    ensures |Elems(init + [p]) * taken| == |Elems(init) * taken| + if p in taken then 1 else 0
  {
    assert p !in Elems(init);
    assert Elems(init + [p]) * taken == Elems(init) * taken + if p in taken then {p} else {};
  }

  /** Splitting a list without duplicates by membership keeps the count. */
  lemma {:induction false} SplitCount(fmt: int -> string, procs: seq<int>, cpus: set<string>, taken: set<int>)
    requires NoDuplicates(procs) && forall p | p in procs :: fmt(p) in cpus <==> p in taken
    ensures |NotIn(fmt, procs, cpus)| + |Elems(procs) * taken| == |procs|
    decreases procs
  {
    hide Elems;
    if procs == [] {
      NoneTaken(taken);
    } else {
      var init, p := procs[..|procs| - 1], procs[|procs| - 1];
      assert procs == init + [p] && p in procs;
      SplitCount(fmt, init, cpus, taken);
      TakenStep(init, p, taken);
    }
  }

  lemma NoneTaken(taken: set<int>)
    ensures Elems([]) * taken == {}
  {
  }

  lemma {:induction false} CpuIdsConcat(a: seq<Device>, b: seq<Device>)
    ensures CpuIds(a + b) == CpuIds(a) + CpuIds(b)
    decreases b
  {
    if b == [] {
      assert a + b == a;
    } else {
      assert (a + b)[..|a + b| - 1] == a + b[..|b| - 1];
      CpuIdsConcat(a, b[..|b| - 1]);
    }
  }

  lemma {:induction false} NoCpuIds(devices: seq<Device>)
    requires forall d | d in devices :: d.resource != CPU
    ensures CpuIds(devices) == {}
    ensures forall node :: Sum(DeviceShares(devices), node, CPU) == 0
    decreases devices
  {
    if devices != [] {
      var init, d := devices[..|devices| - 1], devices[|devices| - 1];
      assert d in devices;
      NoCpuIds(init);
      forall node ensures Sum(DeviceShares(devices), node, CPU) == 0 {
        var spread := Spread(d.nodes, d.resource, |d.ids|);
        SumConcat(DeviceShares(init), spread, node, CPU);
        SumUnmentioned(spread, node, CPU);
      }
    }
  }

  lemma NamesHave(fmt: int -> string, cs: seq<int>, c: int)
    requires c in Elems(cs)
    ensures fmt(c) in Elems(Names(fmt, cs))
  {
    var i :| 0 <= i < |cs| && cs[i] == c;
    assert Names(fmt, cs)[i] == fmt(c);
  }

  lemma NamesOnly(fmt: int -> string, cs: seq<int>, x: string) returns (c: int)
    requires x in Elems(Names(fmt, cs))
    ensures c in Elems(cs) && fmt(c) == x
  {
    var ns := Names(fmt, cs);
    var i :| 0 <= i < |ns| && ns[i] == x;
    c := cs[i];
  }

  /** The CPU devices of the listed nodes name exactly the allocatable CPUs on those nodes. */
  lemma {:induction false} CpuDevicesIds(fmt: int -> string, core: map<int, int>, cpuIds: seq<int>, order: seq<int>,
                                         x: string)
    ensures x in CpuIds(CpuDevices(fmt, core, cpuIds, order)) <==>
      exists c :: c in cpuIds && c in core && core[c] in order && fmt(c) == x
    decreases order
  {
    hide CpusOn;
    if order != [] {
      var init, n := order[..|order| - 1], order[|order| - 1];
      CpuDevicesIds(fmt, core, cpuIds, init, x);
      assert order == init + [n];
      var ds := CpuDevices(fmt, core, cpuIds, order);
      assert ds[..|ds| - 1] == CpuDevices(fmt, core, cpuIds, init) && ds[|ds| - 1] == CpuDevice(fmt, core, cpuIds, n);
      CpusOnElems(core, cpuIds, n);
      var on := CpusOn(core, cpuIds, n);
      forall c | c in cpuIds && c in core && core[c] == n && fmt(c) == x ensures x in Elems(Names(fmt, on)) {
        NamesHave(fmt, on, c);
      }
      if x in Elems(Names(fmt, on)) {
        var c := NamesOnly(fmt, on, x);
        assert c in cpuIds && c in core && core[c] in order && fmt(c) == x;
      }
    }
  }

  lemma OneMoreDevice(ds: seq<Device>, n: int, ids: seq<string>, node: int)
    ensures Sum(DeviceShares(ds + [Device(CPU, ids, [n])]), node, CPU)
         == Sum(DeviceShares(ds), node, CPU) + if n == node then |ids| else 0
  {
    var all := ds + [Device(CPU, ids, [n])];
    assert all[..|all| - 1] == ds;
    var spread := Spread([n], CPU, |ids|);
    SumConcat(DeviceShares(ds), spread, node, CPU);
    assert spread[..0] == [];
    assert spread[0] == Share(n, CPU, |ids|);
  }

  /** The shares of CPU on a node count its allocatable CPUs. */
  lemma {:induction false} CpuShares(fmt: int -> string, core: map<int, int>, cpuIds: seq<int>, order: seq<int>,
                                     node: int)
    requires NoDuplicates(order)
    ensures Sum(DeviceShares(CpuDevices(fmt, core, cpuIds, order)), node, CPU)
         == if node in order then |CpusOn(core, cpuIds, node)| else 0
    decreases order
  {
    hide CpusOn;
    hide DeviceShares;
    hide Sum;
    if order == [] {
      NoCpuIds([]);
    } else {
      var init, n := order[..|order| - 1], order[|order| - 1];
      assert order == init + [n];
      CpuShares(fmt, core, cpuIds, init, node);
      OneMoreDevice(CpuDevices(fmt, core, cpuIds, init), n, Names(fmt, CpusOn(core, cpuIds, n)), node);
    }
  }

  /** The setting of one aggregation: the CPUs, and the device list built from them. */
  ghost predicate Setting(fmt: int -> string, topo: seq<TopoNode>, devices: seq<Device>, cpuIds: seq<int>,
                          order: seq<int>, all: seq<Device>)
  {
    && Injective(fmt)
    && (forall j | 0 <= j < |topo| :: topo[j].id == j) && NoDuplicates(AllProcs(topo))
    && NoDuplicates(cpuIds) && (forall d | d in devices :: d.resource != CPU)
    && NoDuplicates(order) && Elems(order) == CpuNodes(CoreMap(topo), cpuIds)
    && all == devices + CpuDevices(fmt, CoreMap(topo), cpuIds, order)
  }

  /** Allocatable and reserved CPUs of a node together are its logical processors. */
  lemma CpusConserved(fmt: int -> string, topo: seq<TopoNode>, devices: seq<Device>, cpuIds: seq<int>,
                      order: seq<int>, all: seq<Device>, node: nat)
    requires Setting(fmt, topo, devices, cpuIds, order, all) && node < |topo|
    ensures Sum(DeviceShares(all), node, CPU) + |NotIn(fmt, Procs(topo[node]), CpuIds(all))| == |Procs(topo[node])|
  {
    hide CoreMap;
    hide CpusOn;
    hide Procs;
    hide DeviceShares;
    hide NotIn;
    var core, procs, mine := CoreMap(topo), Procs(topo[node]), CpuDevices(fmt, CoreMap(topo), cpuIds, order);
    var on := CpusOn(core, cpuIds, node);
    SharesConcat(devices, mine, node);
    NoCpuIds(devices);
    CpuShares(fmt, core, cpuIds, order, node);
    CpusOnElems(core, cpuIds, node);
    ProcsDistinct(topo, node);
    assert on == [] || node in order by {
      if on != [] {
        assert on[0] in Elems(on);
        CpuNodeOf(core, cpuIds, on[0]);
        assert node in Elems(order);
      }
    }
    forall p | p in procs ensures fmt(p) in CpuIds(all) <==> p in Elems(on) {
      TakenExactly(fmt, topo, devices, cpuIds, order, all, node, p);
    }
    SplitCount(fmt, procs, CpuIds(all), Elems(on));
    forall c | c in Elems(on) ensures c in Elems(procs) {
      CoreMapExact(topo, node, c);
    }
    assert Elems(procs) * Elems(on) == Elems(on);
    ElemsCount(on);
  }

  /** A processor of a node is named by a CPU device exactly if it is allocatable. */
  lemma TakenExactly(fmt: int -> string, topo: seq<TopoNode>, devices: seq<Device>, cpuIds: seq<int>,
                     order: seq<int>, all: seq<Device>, node: nat, p: int)
    requires Setting(fmt, topo, devices, cpuIds, order, all) && node < |topo| && p in Procs(topo[node])
    ensures fmt(p) in CpuIds(all) <==> p in Elems(CpusOn(CoreMap(topo), cpuIds, node))
  {
    hide CoreMap;
    hide CpusOn;
    hide Procs;
    hide CpuIds;
    hide CpuDevices;
    var core := CoreMap(topo);
    CoreMapExact(topo, node, p);
    CpusOnElems(core, cpuIds, node);
    CpuIdsConcat(devices, CpuDevices(fmt, core, cpuIds, order));
    NoCpuIds(devices);
    CpuDevicesIds(fmt, core, cpuIds, order, fmt(p));
    if p in cpuIds {
      CpuNodeOf(core, cpuIds, p);
      assert core[p] in Elems(order);
    }
  }

  lemma {:induction false} SharesConcat(a: seq<Device>, b: seq<Device>, node: int)
    ensures Sum(DeviceShares(a + b), node, CPU) == Sum(DeviceShares(a), node, CPU) + Sum(DeviceShares(b), node, CPU)
    decreases b
  {
    if b == [] {
      assert a + b == a;
    } else {
      var d := b[|b| - 1];
      assert (a + b)[..|a + b| - 1] == a + b[..|b| - 1];
      SharesConcat(a, b[..|b| - 1], node);
      var spread := Spread(d.nodes, d.resource, |d.ids|);
      SumConcat(DeviceShares(a + b[..|b| - 1]), spread, node, CPU);
      SumConcat(DeviceShares(b[..|b| - 1]), spread, node, CPU);
    }
  }

  lemma {:induction false} ProcsDistinct(topo: seq<TopoNode>, i: nat)
    requires NoDuplicates(AllProcs(topo)) && i < |topo|
    ensures NoDuplicates(Procs(topo[i]))
    decreases topo
  {
    var init, n := topo[..|topo| - 1], topo[|topo| - 1];
    var a, b := AllProcs(init), Procs(n);
    assert AllProcs(topo) == a + b;
    if i < |topo| - 1 {
      assert NoDuplicates(a) by {
        forall x, y | 0 <= x < y < |a| ensures a[x] != a[y] { assert (a + b)[x] == a[x] && (a + b)[y] == a[y]; }
      }
      ProcsDistinct(init, i);
    } else {
      forall x, y | 0 <= x < y < |b| ensures b[x] != b[y] {
        assert (a + b)[|a| + x] == b[x] && (a + b)[|a| + y] == b[y];
      }
    }
  }
}
