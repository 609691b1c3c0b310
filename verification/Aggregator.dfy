/**
The aggregator itself: rows are built for every NUMA node of the topology and
then decremented in place by what the containers use
(pkg/resourcemonitor/noderesourcesaggregator.go).
*/
module Aggregator {
  import opened Basics
  import opened NumaRows
  import opened NumaDevices
  import opened NumaCpus

  type Capacities = map<int, map<string, int>>
  type Container = seq<ResourceInfo>
  type Pod = seq<Container>

  /** nodeResources: everything that one aggregation is computed from. */
  datatype Data = Data(nodes: nat, where: ResourceMap, allocatable: Allocatables, reserved: ReservedMap,
                       memory: Capacities, excluded: set<string>)

  const MEMORY := "memory"
  const HUGE_PAGES := "hugepages-"

  predicate IsMemory(name: string) {
    name == MEMORY || HUGE_PAGES <= name
  }

  /**
  NewResourcesAggregatorFromData; `order` is the map order in which the CPU
  devices were listed, None the panic for a CPU device without NUMA nodes.
  */
  method NewData(fmt: int -> string, topo: seq<TopoNode>, devices: seq<Device>, cpuIds: seq<int>, blocks: seq<Block>,
                 memory: Capacities, excluded: set<string>)
    returns (d: Option<Data>, ghost order: seq<int>, ghost all: seq<Device>)
    ensures NoDuplicates(order) && Elems(order) == CpuNodes(CoreMap(topo), cpuIds)
    ensures all == devices + CpuDevices(fmt, CoreMap(topo), cpuIds, order)
    ensures d.None? <==> exists x | x in devices :: Nowhere(x)
    ensures d.Some? ==> d.value.memory == memory && d.value.excluded == excluded
    ensures d.Some? ==> Built(d.value, fmt, topo, all, blocks)
  {
    hide CpuNodes;
    hide CoreMap;
    hide CpuDevices;
    hide Tallied;
    hide ReservedOn;
    var devs;
    devs, order := AllocatableDevices(fmt, devices, cpuIds, topo);
    all := devs;
    var where := MakeResourceMap(devs);
    var allocatable := MakeNodeAllocatable(devs, blocks);
    var reserved := MakeReservedCPUMap(fmt, topo, devs);
    CpuDevicesSomewhere(fmt, CoreMap(topo), cpuIds, order);
    assert forall x | x in devices :: x in devs;
    if reserved.None? {
      return None, order, all;
    }
    d := Some(Data(|topo|, where, allocatable, reserved.value, memory, excluded));
  }

  lemma {:induction false} CpuDevicesSomewhere(fmt: int -> string, core: map<int, int>, cpuIds: seq<int>,
                                               order: seq<int>)
    ensures forall d | d in CpuDevices(fmt, core, cpuIds, order) :: !Nowhere(d)
    decreases order
  {
    if order != [] {
      CpuDevicesSomewhere(fmt, core, cpuIds, order[..|order| - 1]);
    }
  }

  /** The tables were derived from this topology and these devices and memory blocks. */
  ghost predicate Built(d: Data, fmt: int -> string, topo: seq<TopoNode>, all: seq<Device>, blocks: seq<Block>) {
    && d.nodes == |topo| && d.where == ResourceMapOf(all)
    && Tallied(d.allocatable, DeviceShares(all) + BlockShares(blocks))
    && (forall id :: ReservedOn(d.reserved, id) == NotIn(fmt, ProcsOf(topo, id), CpuIds(all)))
  }

  // ----- The rows before any use -----

  function Capacity(d: Data, node: int, name: string, amount: nat): int {
    if name == CPU then amount + |ReservedOn(d.reserved, node)|
    else if IsMemory(name) && node in d.memory && name in d.memory[node] then d.memory[node][name]
    else amount
  }

  function FullRow(d: Data, node: int, name: string, amount: nat): Row {
    Row(amount, amount, Capacity(d, node, name, amount))
  }

  function NodeRows(d: Data, node: int): map<string, Row> {
    if node in d.allocatable
    then map r | r in d.allocatable[node] && r !in d.excluded :: FullRow(d, node, r, d.allocatable[node][r])
    else map[CPU := Row(0, 0, |ReservedOn(d.reserved, node)|)]
  }

  function InitialRows(d: Data): Rows {
    map n | 0 <= n < d.nodes :: NodeRows(d, n)
  }

  // ----- What a container uses -----

  /** One device; None is the nil dereference of a row that does not exist. */
  function UseOne(d: Data, rows: Rows, name: string, id: string): Option<Rows> {
    if name !in d.where || id !in d.where[name] || d.where[name][id] !in rows then Some(rows)
    else
      var node := d.where[name][id];
      if name !in rows[node] then None
      else Some(SetAvailable(rows, node, name, rows[node][name].available - 1))
  }

  function UseAll(d: Data, rows: Rows, name: string, ids: seq<string>): Option<Rows> {
    if ids == [] then Some(rows)
    else
      var before := UseAll(d, rows, name, ids[..|ids| - 1]);
      if before.None? then None else UseOne(d, before.value, name, ids[|ids| - 1])
  }

  function UseMemory(parse: string -> Option<int>, rows: Rows, info: ResourceInfo): Rows {
    if |info.data| != 1 || parse(info.data[0]).None? then rows
    else Drain(rows, info.name, info.numaNodeIds, parse(info.data[0]).value).0
  }

  function Use(d: Data, parse: string -> Option<int>, rows: Rows, info: ResourceInfo): Option<Rows> {
    if IsMemory(info.name) then Some(UseMemory(parse, rows, info)) else UseAll(d, rows, info.name, info.data)
  }

  function Process(d: Data, parse: string -> Option<int>, rows: Rows, infos: seq<ResourceInfo>): Option<Rows> {
    if infos == [] then Some(rows)
    else
      var before := Process(d, parse, rows, infos[..|infos| - 1]);
      if before.None? then None else Use(d, parse, before.value, infos[|infos| - 1])
  }

  lemma {:induction false} ProcessConcat(d: Data, parse: string -> Option<int>, rows: Rows, a: seq<ResourceInfo>,
                                         b: seq<ResourceInfo>)
    ensures var mid := Process(d, parse, rows, a);
      Process(d, parse, rows, a + b) == if mid.None? then None else Process(d, parse, mid.value, b)
    decreases b
  {
    if b == [] {
      assert a + b == a;
    } else {
      assert (a + b)[..|a + b| - 1] == a + b[..|b| - 1];
      ProcessConcat(d, parse, rows, a, b[..|b| - 1]);
    }
  }

  // ----- The algorithm -----

  /** The nested table of one aggregation, updated in place. */
  class Zones {
    var rows: Rows

    /** The table as initialised from the allocatable resources. */
    constructor (d: Data)
      ensures rows == InitialRows(d)
    {
      rows := map[];
      new;
      hide NodeRows;
      var n := 0;
      while n < d.nodes
        invariant 0 <= n <= d.nodes
        invariant rows == map k | 0 <= k < n :: NodeRows(d, k)
      {
        var row := InitialRow(d, n);
        rows := rows[n := row];
        n := n + 1;
      }
    }

    /** updateMemoryAvailable */
    method UpdateMemoryAvailable(parse: string -> Option<int>, ri: ResourceInfo)
      modifies this
      ensures rows == UseMemory(parse, old(rows), ri)
    {
      hide SetAvailable;
      if |ri.numaNodeIds| == 0 || |ri.data| != 1 || parse(ri.data[0]).None? {
        return;
      }
      var requested := parse(ri.data[0]).value;
      var i := 0;
      while i < |ri.numaNodeIds|
        invariant 0 <= i <= |ri.numaNodeIds|
        invariant Drain(rows, ri.name, ri.numaNodeIds[i..], requested).0
               == Drain(old(rows), ri.name, ri.numaNodeIds, parse(ri.data[0]).value).0
      {
        if requested == 0 {
          return;
        }
        var node := ri.numaNodeIds[i];
        assert ri.numaNodeIds[i..][0] == node && ri.numaNodeIds[i..][1..] == ri.numaNodeIds[i + 1..];
        i := i + 1;
        if node !in rows {
          continue;
        }
        if ri.name !in rows[node] {
          return;
        }
        var free := rows[node][ri.name].available;
        if free == 0 {
          continue;
        }
        if requested >= free {
          requested := requested - free;
          rows := SetAvailable(rows, node, ri.name, 0);
        } else {
          rows := SetAvailable(rows, node, ri.name, free - requested);
          requested := 0;
        }
      }
    }

    /** updateAvailable; not ok stands for the run-time panic of a missing row. */
    method UpdateAvailable(d: Data, ri: ResourceInfo) returns (ok: bool)
      modifies this
      ensures ok == UseAll(d, old(rows), ri.name, ri.data).Some?
      ensures ok ==> UseAll(d, old(rows), ri.name, ri.data) == Some(rows)
    {
      var i := 0;
      ghost var rows0 := rows;
      while i < |ri.data|
        invariant 0 <= i <= |ri.data|
        invariant UseAll(d, rows0, ri.name, ri.data[..i]) == Some(rows)
      {
        var id := ri.data[i];
        assert ri.data[..i + 1][..i] == ri.data[..i];
        i := i + 1;
        if ri.name !in d.where || id !in d.where[ri.name] {
          continue;
        }
        var node := d.where[ri.name][id];
        if node !in rows {
          continue;
        }
        if ri.name !in rows[node] {
          PanicStays(d, rows0, ri.name, ri.data, i);
          return false;
        }
        rows := SetAvailable(rows, node, ri.name, rows[node][ri.name].available - 1);
      }
      assert ri.data[..|ri.data|] == ri.data;
      return true;
    }

    method UseContainer(d: Data, parse: string -> Option<int>, c: Container) returns (ok: bool)
      modifies this
      ensures ok == Process(d, parse, old(rows), c).Some?
      ensures ok ==> Process(d, parse, old(rows), c) == Some(rows)
    {
      hide UseAll;
      hide UseMemory;
      var i := 0;
      ghost var rows0 := rows;
      while i < |c|
        invariant 0 <= i <= |c|
        invariant Process(d, parse, rows0, c[..i]) == Some(rows)
      {
        assert c[..i + 1][..i] == c[..i];
        if IsMemory(c[i].name) {
          UpdateMemoryAvailable(parse, c[i]);
        } else {
          ok := UpdateAvailable(d, c[i]);
          if !ok {
            ProcessConcat(d, parse, rows0, c[..i + 1], c[i + 1..]);
            assert c == c[..i + 1] + c[i + 1..];
            return;
          }
        }
        i := i + 1;
      }
      assert c[..|c|] == c;
      return true;
    }

    method UsePod(d: Data, parse: string -> Option<int>, pod: Pod) returns (ok: bool)
      modifies this
      ensures ok == Process(d, parse, old(rows), Flat(pod)).Some?
      ensures ok ==> Process(d, parse, old(rows), Flat(pod)) == Some(rows)
    {
      hide Process;
      var i := 0;
      ghost var rows0 := rows;
      ProcessNothing(d, parse, rows);
      assert pod[..0] == [];
      while i < |pod|
        invariant 0 <= i <= |pod|
        invariant Process(d, parse, rows0, Flat(pod[..i])) == Some(rows)
      {
        ProcessConcat(d, parse, rows0, Flat(pod[..i]), pod[i]);
        assert pod[..i + 1][..i] == pod[..i];
        ok := UseContainer(d, parse, pod[i]);
        i := i + 1;
        if !ok {
          FlatSplit(pod, i);
          ProcessConcat(d, parse, rows0, Flat(pod[..i]), Flat(pod[i..]));
          return;
        }
      }
      assert pod[..|pod|] == pod;
      return true;
    }
  }

  /** The resources of one node, in whatever order the map is iterated. */
  method InitialRow(d: Data, node: int) returns (row: map<string, Row>)
    ensures row == NodeRows(d, node)
  {
    if node !in d.allocatable {
      return map[CPU := Row(0, 0, |ReservedOn(d.reserved, node)|)];
    }
    var res := d.allocatable[node];
    row := map[];
    var todo := res.Keys;
    while todo != {}
      invariant todo <= res.Keys
      invariant row == map r | r in res && r !in todo && r !in d.excluded :: FullRow(d, node, r, res[r])
      decreases todo
    {
      var name :| name in todo;
      todo := todo - {name};
      if name in d.excluded {
        continue;
      }
      var amount := res[name];
      if name == CPU {
        row := row[name := Row(amount, amount, amount + |ReservedOn(d.reserved, node)|)];
      } else if IsMemory(name) {
        var capacity: int := amount;
        if node in d.memory && name in d.memory[node] {
          capacity := d.memory[node][name];
        }
        row := row[name := Row(amount, amount, capacity)];
      } else {
        row := row[name := Row(amount, amount, amount)];
      }
    }
  }

  lemma ProcessNothing(d: Data, parse: string -> Option<int>, rows: Rows)
    ensures Process(d, parse, rows, []) == Some(rows)
  {
  }

  lemma {:induction false} FlatSplit<T>(ss: seq<seq<T>>, i: nat)
    requires i <= |ss|
    ensures Flat(ss) == Flat(ss[..i]) + Flat(ss[i..])
    decreases |ss| - i
  {
    if i == |ss| {
      assert ss[..i] == ss;
    } else {
      FlatSplit(ss, i + 1);
      assert ss[..i + 1][..i] == ss[..i];
      FlatFront(ss[i..]);
      assert ss[i..][1..] == ss[i + 1..];
    }
  }

  lemma {:induction false} FlatFront<T>(ss: seq<seq<T>>)
    requires ss != []
    ensures Flat(ss) == ss[0] + Flat(ss[1..])
  {
    var init, last := ss[..|ss| - 1], ss[|ss| - 1];
    if |ss| == 1 {
      assert init == [] && ss[1..] == [] && Flat(ss) == [] + ss[0] == ss[0] + [];
    } else {
      FlatFront(init);
      var rest := ss[1..];
      assert rest[..|rest| - 1] == init[1..] && rest[|rest| - 1] == last;
      assert Flat(rest) == Flat(init[1..]) + last;
      assert Flat(ss) == Flat(init) + last;
    }
  }

  lemma {:induction false} PanicStays(d: Data, rows: Rows, name: string, ids: seq<string>, i: nat)
    requires i <= |ids| && UseAll(d, rows, name, ids[..i]).None?
    ensures UseAll(d, rows, name, ids).None?
    decreases |ids| - i
  {
    if i == |ids| {
      assert ids[..i] == ids;
    } else {
      assert ids[..i + 1][..i] == ids[..i];
      PanicStays(d, rows, name, ids, i + 1);
    }
  }

  /** Aggregate: the table that is reported as zones, or None for the panic of a missing row. */
  method Aggregate(d: Data, parse: string -> Option<int>, pods: seq<Pod>) returns (r: Option<Rows>)
    ensures r == Process(d, parse, InitialRows(d), Flat(Flat(pods)))
  {
    hide Process;
    hide InitialRows;
    var zones := new Zones(d);
    var i := 0;
    assert pods[..0] == [] && Flat<Container>([]) == [] && Flat<ResourceInfo>([]) == [];
    ProcessNothing(d, parse, zones.rows);
    while i < |pods|
      invariant 0 <= i <= |pods|
      invariant Process(d, parse, InitialRows(d), Flat(Flat(pods[..i]))) == Some(zones.rows)
    {
      ghost var done := Flat(pods[..i]);
      FlatSplit(done + pods[i], |done|);
      assert (done + pods[i])[..|done|] == done && (done + pods[i])[|done|..] == pods[i];
      ProcessConcat(d, parse, InitialRows(d), Flat(done), Flat(pods[i]));
      assert pods[..i + 1][..i] == pods[..i];
      var ok := zones.UsePod(d, parse, pods[i]);
      i := i + 1;
      if !ok {
        FlatSplit(pods, i);
        ghost var first, rest := Flat(pods[..i]), Flat(pods[i..]);
        FlatSplit(first + rest, |first|);
        assert (first + rest)[..|first|] == first && (first + rest)[|first|..] == rest;
        ProcessConcat(d, parse, InitialRows(d), Flat(first), Flat(rest));
        return None;
      }
    }
    assert pods[..|pods|] == pods;
    return Some(zones.rows);
  }
}
