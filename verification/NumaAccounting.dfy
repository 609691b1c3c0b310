/**
What the aggregator reports is a true account: devices in use are subtracted
once from the node they are on, and the CPUs of every node add up.
*/
module NumaAccounting {
  import opened Basics
  import opened NumaRows
  import opened NumaDevices
  import opened NumaCpus
  import opened Aggregator

  /** A device of the kubelet's list that a container uses. */
  datatype DeviceUse = DeviceUse(name: string, id: string)

  /** The device is listed, on a node of the topology. */
  predicate Known(d: Data, name: string, id: string) {
    name in d.where && id in d.where[name] && 0 <= d.where[name][id] < d.nodes
  }

  function KnownUses(d: Data, name: string, ids: seq<string>): seq<DeviceUse> {
    if ids == [] then []
    else
      var id := ids[|ids| - 1];
      KnownUses(d, name, ids[..|ids| - 1]) + if Known(d, name, id) then [DeviceUse(name, id)] else []
  }

  /** All uses of known devices, in order and with repetitions. */
  function Uses(d: Data, infos: seq<ResourceInfo>): seq<DeviceUse> {
    if infos == [] then []
    else
      var info := infos[|infos| - 1];
      Uses(d, infos[..|infos| - 1]) + if IsMemory(info.name) then [] else KnownUses(d, info.name, info.data)
  }

  function NodeOf(d: Data, u: DeviceUse): int {
    if Known(d, u.name, u.id) then d.where[u.name][u.id] else -1
  }

  /** How often a resource of a node is used. */
  function Count(d: Data, uses: seq<DeviceUse>, node: int, name: string): nat {
    if uses == [] then 0
    else
      var u := uses[|uses| - 1];
      Count(d, uses[..|uses| - 1], node, name) + if u.name == name && NodeOf(d, u) == node then 1 else 0
  }

  /** The distinct devices in use. */
  function UsedIds(d: Data, uses: seq<DeviceUse>, node: int, name: string): set<string> {
    set u | u in uses && u.name == name && NodeOf(d, u) == node :: u.id
  }

  /** The figures of a row after some uses; memory rows are only promised to keep their totals. */
  predicate RowAfter(d: Data, r0: Row, r: Row, uses: seq<DeviceUse>, node: int, name: string) {
    && r.allocatable == r0.allocatable && r.capacity == r0.capacity
    && (!IsMemory(name) ==> r.available == r0.available - Count(d, uses, node, name))
  }

  ghost predicate Accounted(d: Data, rows: Rows, uses: seq<DeviceUse>) {
    var start := InitialRows(d);
    && rows.Keys == start.Keys && (forall n, m :: Has(rows, n, m) <==> Has(start, n, m))
    && (forall n, m | Has(start, n, m) && Has(rows, n, m) :: RowAfter(d, start[n][m], rows[n][m], uses, n, m))
  }

  /** Every listed device has a row on its node, unless its resource is excluded. */
  ghost predicate RowsForDevices(d: Data) {
    forall name, id | Known(d, name, id) :: Has(InitialRows(d), d.where[name][id], name) <==> name !in d.excluded
  }

  lemma DeviceRows(d: Data, fmt: int -> string, topo: seq<TopoNode>, all: seq<Device>, blocks: seq<Block>)
    requires Built(d, fmt, topo, all, blocks)
    ensures RowsForDevices(d)
  {
    forall name, id | Known(d, name, id)
      ensures Has(InitialRows(d), d.where[name][id], name) <==> name !in d.excluded
    {
      MappedIds(all, name, id);
      var node := d.where[name][id];
      MentionedInTable(d.allocatable, DeviceShares(all), BlockShares(blocks), node, name);
    }
  }

  lemma MentionedInTable(m: Allocatables, a: seq<Share>, b: seq<Share>, node: int, name: string)
    requires Tallied(m, a + b) && Mentions(a, node, name)
    ensures node in m && name in m[node]
  {
    var s :| s in a && s.node == node && s.resource == name;
    assert s in a + b;
  }

  // ----- One step -----

  lemma CountStep(d: Data, uses: seq<DeviceUse>, u: DeviceUse, node: int, name: string)
    ensures Count(d, uses + [u], node, name)
         == Count(d, uses, node, name) + if u.name == name && NodeOf(d, u) == node then 1 else 0
  {
    assert (uses + [u])[..|uses|] == uses;
  }

  lemma UseStep(d: Data, rows: Rows, uses: seq<DeviceUse>, name: string, id: string)
    requires RowsForDevices(d) && Accounted(d, rows, uses) && !IsMemory(name)
    ensures !Known(d, name, id) ==> UseOne(d, rows, name, id) == Some(rows)
    ensures Known(d, name, id) && name in d.excluded ==> UseOne(d, rows, name, id) == None
    ensures Known(d, name, id) && name !in d.excluded ==>
      var r := UseOne(d, rows, name, id);
      r.Some? && Accounted(d, r.value, uses + [DeviceUse(name, id)])
  {
    hide SetAvailable;
    hide NodeRows;
    var start := InitialRows(d);
    assert forall n :: n in start <==> 0 <= n < d.nodes;
    if Known(d, name, id) {
      var node := d.where[name][id];
      assert Has(start, node, name) <==> name !in d.excluded;
      assert Has(rows, node, name) <==> Has(start, node, name);
      if name !in d.excluded {
        DecrementAccounted(d, rows, uses, node, name, id);
      }
    }
  }

  lemma DecrementAccounted(d: Data, rows: Rows, uses: seq<DeviceUse>, node: int, name: string, id: string)
    requires Accounted(d, rows, uses) && !IsMemory(name) && Known(d, name, id) && node == d.where[name][id]
    requires Has(rows, node, name)
    ensures Accounted(d, SetAvailable(rows, node, name, rows[node][name].available - 1), uses + [DeviceUse(name, id)])
  {
    hide SetAvailable;
    hide InitialRows;
    hide Count;
    var u := DeviceUse(name, id);
    var start := InitialRows(d);
    SetFrame(rows, node, name, rows[node][name].available - 1);
    var r := SetAvailable(rows, node, name, rows[node][name].available - 1);
    forall n, m | Has(start, n, m) && Has(r, n, m) ensures RowAfter(d, start[n][m], r[n][m], uses + [u], n, m) {
      CountStep(d, uses, u, n, m);
      assert RowAfter(d, start[n][m], rows[n][m], uses, n, m);
    }
  }

  /** Draining touches nothing but the available figures of the drained resource. */
  lemma {:induction false} DrainTouches(rows: Rows, name: string, ids: seq<int>, r: int)
    ensures var d := Drain(rows, name, ids, r).0;
      && d.Keys == rows.Keys && (forall n, m :: Has(d, n, m) <==> Has(rows, n, m))
      && (forall n, m | Has(rows, n, m) && Has(d, n, m) ::
            d[n][m] == if m == name then rows[n][m].(available := d[n][m].available) else rows[n][m])
    decreases ids
  {
    hide SetAvailable;
    if ids != [] && r != 0 {
      var node, rest := ids[0], ids[1..];
      if node !in rows {
        DrainTouches(rows, name, rest, r);
      } else if name in rows[node] {
        var free := rows[node][name].available;
        if free == 0 {
          DrainTouches(rows, name, rest, r);
        } else if r >= free {
          SetFrame(rows, node, name, 0);
          DrainTouches(SetAvailable(rows, node, name, 0), name, rest, r - free);
        } else {
          SetFrame(rows, node, name, free - r);
          DrainTouches(SetAvailable(rows, node, name, free - r), name, rest, 0);
        }
      }
    }
  }

  lemma MemoryAccounted(d: Data, parse: string -> Option<int>, rows: Rows, uses: seq<DeviceUse>, info: ResourceInfo)
    requires Accounted(d, rows, uses) && IsMemory(info.name)
    ensures Accounted(d, UseMemory(parse, rows, info), uses)
  {
    hide InitialRows;
    hide Drain;
    hide Count;
    hide IsMemory;
    if |info.data| == 1 && parse(info.data[0]).Some? {
      DrainTouches(rows, info.name, info.numaNodeIds, parse(info.data[0]).value);
    }
  }

  predicate Excludes(d: Data, uses: seq<DeviceUse>) {
    exists u | u in uses :: u.name in d.excluded
  }

  lemma ExcludesConcat(d: Data, a: seq<DeviceUse>, b: seq<DeviceUse>)
    ensures Excludes(d, a + b) <==> Excludes(d, a) || Excludes(d, b)
  {
    if Excludes(d, a) {
      var u :| u in a && u.name in d.excluded;
      assert u in a + b;
    } else if Excludes(d, b) {
      var u :| u in b && u.name in d.excluded;
      assert u in a + b;
    }
  }

  lemma {:induction false} UseAllAccounted(d: Data, rows: Rows, uses: seq<DeviceUse>, name: string, ids: seq<string>)
    requires RowsForDevices(d) && Accounted(d, rows, uses) && !IsMemory(name)
    ensures var r := UseAll(d, rows, name, ids);
      && (r.None? <==> Excludes(d, KnownUses(d, name, ids)))
      && (r.Some? ==> Accounted(d, r.value, uses + KnownUses(d, name, ids)))
    decreases ids
  {
    hide RowsForDevices;
    hide Accounted;
    hide UseOne;
    hide Excludes;
    hide IsMemory;
    NothingExcluded(d);
    if ids == [] {
      assert uses + [] == uses;
    } else {
      var init, id := ids[..|ids| - 1], ids[|ids| - 1];
      UseAllAccounted(d, rows, uses, name, init);
      var before := KnownUses(d, name, init);
      OneExcluded(d, DeviceUse(name, id));
      ExcludesConcat(d, before, [DeviceUse(name, id)]);
      if !Excludes(d, before) {
        UseStep(d, UseAll(d, rows, name, init).value, uses + before, name, id);
        assert uses + before + [DeviceUse(name, id)] == uses + (before + [DeviceUse(name, id)]);
        assert before + [] == before;
      }
    }
  }

  lemma NothingExcluded(d: Data)
    ensures !Excludes(d, [])
  {
  }

  lemma OneExcluded(d: Data, u: DeviceUse)
    ensures Excludes(d, [u]) <==> u.name in d.excluded
  {
    assert u in [u];
  }

  /**
  The aggregation dereferences a missing row exactly if some known device of an
  excluded resource is in use; otherwise every device row has lost one for each
  use of a device on that node, and no row has changed its allocatable amount
  or its capacity.
  */
  lemma {:induction false} ProcessAccounts(d: Data, parse: string -> Option<int>, infos: seq<ResourceInfo>)
    requires RowsForDevices(d)
    ensures var r := Process(d, parse, InitialRows(d), infos);
      && (r.None? <==> Excludes(d, Uses(d, infos)))
      && (r.Some? ==> Accounted(d, r.value, Uses(d, infos)))
    decreases infos
  {
    hide RowsForDevices;
    hide Accounted;
    hide UseAll;
    hide UseMemory;
    hide InitialRows;
    hide Excludes;
    hide IsMemory;
    if infos == [] {
      NothingExcluded(d);
      NothingUsed(d);
    } else {
      var init, info := infos[..|infos| - 1], infos[|infos| - 1];
      ProcessAccounts(d, parse, init);
      var before := Uses(d, init);
      if !Excludes(d, before) {
        var rows := Process(d, parse, InitialRows(d), init).value;
        if IsMemory(info.name) {
          MemoryAccounted(d, parse, rows, before, info);
          assert before + [] == before;
        } else {
          UseAllAccounted(d, rows, before, info.name, info.data);
          ExcludesConcat(d, before, KnownUses(d, info.name, info.data));
        }
      } else {
        ExcludesConcat(d, before, Uses(d, infos)[|before|..]);
        assert Uses(d, infos) == before + Uses(d, infos)[|before|..];
      }
    }
  }

  lemma NothingUsed(d: Data)
    ensures Accounted(d, InitialRows(d), [])
  {
    hide NodeRows;
  }

  const GPU := "vendor.com/gpu"

  /** One device on one node, of a resource that is excluded. */
  const GPUS := [Device(GPU, ["gpu0"], [0])]
  const WITHOUT_GPUS :=
    Data(1, map[GPU := map["gpu0" := 0]], map[0 := map[GPU := 1]], map[], map[], {GPU})

  /** The tables are those of a node with one device. */
  lemma OneGpuBuilt(fmt: int -> string)
    ensures Built(WITHOUT_GPUS, fmt, [TopoNode(0, [])], GPUS, [])
  {
    var d, dev, topo := WITHOUT_GPUS, Device(GPU, ["gpu0"], [0]), [TopoNode(0, [])];
    assert GPUS[..0] == [] && topo[..0] == [];
    assert ResourceMapOf(GPUS) == PutDevice(map[], dev);
    assert AllTo(["gpu0"], 0) == map["gpu0" := 0];
    assert RowOf(map[], GPU) == map[] && map[] + AllTo(["gpu0"], 0) == map["gpu0" := 0];
    assert dev.nodes[|dev.nodes| - 1] == 0 && PutDevice(map[], dev) == map[GPU := map["gpu0" := 0]];
    var share := Share(0, GPU, 1);
    assert Spread([0], GPU, 1) == [share];
    assert DeviceShares(GPUS) + BlockShares([]) == [] + [share];
    TalliedNothing();
    AddTallies(map[], [], share);
    assert AddShare(map[], share) == d.allocatable;
    forall id ensures ReservedOn(d.reserved, id) == NotIn(fmt, ProcsOf(topo, id), CpuIds(GPUS)) {
      assert Procs(topo[0]) == [] && ProcsOf(topo, id) == ProcsOf([], id) + [];
    }
  }

  /** A container that uses an excluded device ends the aggregation. */
  lemma ExcludedDeviceEnds(fmt: int -> string, parse: string -> Option<int>)
    ensures Built(WITHOUT_GPUS, fmt, [TopoNode(0, [])], GPUS, [])
    ensures Process(WITHOUT_GPUS, parse, InitialRows(WITHOUT_GPUS), [ResourceInfo(GPU, ["gpu0"], [])]) == None
  {
    hide Built;
    OneGpuBuilt(fmt);
    var d, info := WITHOUT_GPUS, ResourceInfo(GPU, ["gpu0"], []);
    var rows := InitialRows(d);
    assert 0 in rows && GPU !in rows[0];
    assert ["gpu0"][..0] == [] && [info][..0] == [];
    assert !IsMemory(GPU) by { assert GPU[0] == 'v'; }
    assert UseOne(d, rows, GPU, "gpu0") == None;
    assert UseAll(d, rows, GPU, []) == Some(rows);
    assert UseAll(d, rows, GPU, ["gpu0"]) == None;
    assert Process(d, parse, rows, []) == Some(rows);
  }

  // ----- Devices used at most once -----

  lemma UsedIdsStep(d: Data, uses: seq<DeviceUse>, u: DeviceUse, node: int, name: string)
    ensures UsedIds(d, uses + [u], node, name)
         == UsedIds(d, uses, node, name) + if u.name == name && NodeOf(d, u) == node then {u.id} else {}
    ensures u !in uses && u.name == name ==> u.id !in UsedIds(d, uses, node, name)
  {
    hide NodeOf;
    var more := UsedIds(d, uses + [u], node, name);
    assert u in uses + [u];
    forall id | id in UsedIds(d, uses, node, name) ensures id in more {
      assert DeviceUse(name, id) in uses + [u];
    }
  }

  lemma {:induction false} CountIsUsedIds(d: Data, uses: seq<DeviceUse>, node: int, name: string)
    requires NoDuplicates(uses)
    ensures Count(d, uses, node, name) == |UsedIds(d, uses, node, name)|
    decreases uses
  {
    hide NodeOf;
    hide UsedIds;
    if uses == [] {
      NoUsedIds(d, node, name);
    } else {
      var init, u := uses[..|uses| - 1], uses[|uses| - 1];
      assert uses == init + [u];
      CountIsUsedIds(d, init, node, name);
      UsedIdsStep(d, init, u, node, name);
      var ids := UsedIds(d, init, node, name);
      assert ids + {} == ids;
    }
  }

  lemma NoUsedIds(d: Data, node: int, name: string)
    ensures UsedIds(d, [], node, name) == {}
  {
  }

  lemma UsedAreListed(d: Data, all: seq<Device>, uses: seq<DeviceUse>, node: nat, name: string)
    requires d.where == ResourceMapOf(all)
    ensures UsedIds(d, uses, node, name) <= IdsOn(all, name, node)
  {
    hide ResourceMapOf;
    hide IdsOn;
    forall id | id in UsedIds(d, uses, node, name) ensures id in IdsOn(all, name, node) {
      MappedIds(all, name, id);
    }
  }

  lemma {:induction false} SubsetCount<T>(a: set<T>, b: set<T>)
    requires a <= b
    ensures |a| <= |b|
    decreases b
  {
    if a != {} {
      var x := Any(a);
      SubsetCount(a - {x}, b - {x});
    }
  }

  /**
  If no known device is used twice and none of an excluded resource, the
  aggregation completes, and for every device row the available figure is the
  allocatable one less the devices in use on that node, never negative, even
  for devices that are listed on several nodes.
  */
  lemma DevicesAccounted(d: Data, fmt: int -> string, topo: seq<TopoNode>, all: seq<Device>, blocks: seq<Block>,
                         parse: string -> Option<int>, infos: seq<ResourceInfo>)
    requires Built(d, fmt, topo, all, blocks)
    requires NoDuplicates(Uses(d, infos)) && !Excludes(d, Uses(d, infos))
    ensures var r := Process(d, parse, InitialRows(d), infos);
      && r.Some?
      && (forall n, m :: Has(r.value, n, m) <==> Has(InitialRows(d), n, m))
      && (forall n, m | Has(r.value, n, m) && !IsMemory(m) ::
            var row := r.value[n][m];
            && row.available == row.allocatable - |UsedIds(d, Uses(d, infos), n, m)|
            && 0 <= row.available <= row.allocatable)
  {
    hide InitialRows;
    hide Process;
    hide Uses;
    hide Excludes;
    hide Built;
    hide IsMemory;
    BuiltRows(d, fmt, topo, all, blocks);
    ProcessAccounts(d, parse, infos);
    var uses := Uses(d, infos);
    var rows := Process(d, parse, InitialRows(d), infos).value;
    forall n, m | Has(rows, n, m) && !IsMemory(m)
      ensures var row := rows[n][m];
        row.available == row.allocatable - |UsedIds(d, uses, n, m)| && 0 <= row.available <= row.allocatable
    {
      assert RowAfter(d, InitialRows(d)[n][m], rows[n][m], uses, n, m);
      CountIsUsedIds(d, uses, n, m);
      UsedWithin(d, fmt, topo, all, blocks, uses, n, m);
    }
  }

  lemma BuiltRows(d: Data, fmt: int -> string, topo: seq<TopoNode>, all: seq<Device>, blocks: seq<Block>)
    requires Built(d, fmt, topo, all, blocks)
    ensures RowsForDevices(d) && d.where == ResourceMapOf(all)
  {
    DeviceRows(d, fmt, topo, all, blocks);
  }

  /** The devices in use on a node are at most its allocatable amount. */
  lemma UsedWithin(d: Data, fmt: int -> string, topo: seq<TopoNode>, all: seq<Device>, blocks: seq<Block>,
                   uses: seq<DeviceUse>, node: int, name: string)
    requires Built(d, fmt, topo, all, blocks) && Has(InitialRows(d), node, name)
    ensures InitialRows(d)[node][name].available == InitialRows(d)[node][name].allocatable
    ensures |UsedIds(d, uses, node, name)| <= InitialRows(d)[node][name].allocatable
  {
    var shares, more := DeviceShares(all), BlockShares(blocks);
    UsedAreListed(d, all, uses, node, name);
    SubsetCount(UsedIds(d, uses, node, name), IdsOn(all, name, node));
    IdsWithinAllocatable(all, name, node);
    SumConcat(shares, more, node, name);
    SumOfTable(d.allocatable, shares + more, node, name);
  }

  lemma SumOfTable(m: Allocatables, shares: seq<Share>, node: int, name: string)
    requires Tallied(m, shares)
    ensures Sum(shares, node, name) == if node in m && name in m[node] then m[node][name] else 0
  {
    if !(node in m && name in m[node]) {
      SumUnmentioned(shares, node, name);
    }
  }

  // ----- CPUs -----

  /**
  Every cpu row that is reported has the number of logical processors of its
  node as capacity, whether some of them are allocatable or all are reserved,
  and whatever the containers use.
  */
  lemma CpuCapacity(d: Data, fmt: int -> string, topo: seq<TopoNode>, devices: seq<Device>, cpuIds: seq<int>,
                    order: seq<int>, all: seq<Device>, blocks: seq<Block>,
                    parse: string -> Option<int>, infos: seq<ResourceInfo>, node: int)
    requires Built(d, fmt, topo, all, blocks) && Setting(fmt, topo, devices, cpuIds, order, all)
    requires forall b | b in blocks :: b.memoryType != CPU
    requires !Excludes(d, Uses(d, infos))
    ensures var r := Process(d, parse, InitialRows(d), infos);
      && r.Some?
      && (Has(r.value, node, CPU) ==> 0 <= node < |topo| && r.value[node][CPU].capacity == |Procs(topo[node])|)
  {
    hide InitialRows;
    hide Process;
    hide Excludes;
    hide Built;
    hide Setting;
    BuiltRows(d, fmt, topo, all, blocks);
    ProcessAccounts(d, parse, infos);
    var rows := Process(d, parse, InitialRows(d), infos).value;
    if Has(rows, node, CPU) {
      assert RowAfter(d, InitialRows(d)[node][CPU], rows[node][CPU], Uses(d, infos), node, CPU);
      InitialCpu(d, fmt, topo, devices, cpuIds, order, all, blocks, node);
    }
  }

  lemma {:induction false} NoCpuBlocks(blocks: seq<Block>, node: int)
    requires forall b | b in blocks :: b.memoryType != CPU
    ensures Sum(BlockShares(blocks), node, CPU) == 0
    decreases blocks
  {
    if blocks != [] {
      var init, b := blocks[..|blocks| - 1], blocks[|blocks| - 1];
      assert b in blocks;
      NoCpuBlocks(init, node);
      var spread := Spread(b.nodes, b.memoryType, b.size);
      SumConcat(BlockShares(init), spread, node, CPU);
      SumUnmentioned(spread, node, CPU);
    }
  }

  lemma Positions(fmt: int -> string, topo: seq<TopoNode>, devices: seq<Device>, cpuIds: seq<int>,
                  order: seq<int>, all: seq<Device>)
    requires Setting(fmt, topo, devices, cpuIds, order, all)
    ensures forall j | 0 <= j < |topo| :: topo[j].id == j
  {
  }

  lemma InitialCpu(d: Data, fmt: int -> string, topo: seq<TopoNode>, devices: seq<Device>, cpuIds: seq<int>,
                   order: seq<int>, all: seq<Device>, blocks: seq<Block>, node: int)
    requires Built(d, fmt, topo, all, blocks) && Setting(fmt, topo, devices, cpuIds, order, all)
    requires (forall b | b in blocks :: b.memoryType != CPU) && Has(InitialRows(d), node, CPU)
    ensures 0 <= node < |topo| && InitialRows(d)[node][CPU].capacity == |Procs(topo[node])|
  {
    hide Setting;
    hide Sum;
    hide Procs;
    hide NotIn;
    assert 0 <= node < |topo|;
    Positions(fmt, topo, devices, cpuIds, order, all);
    ProcsAt(topo, node);
    CpusConserved(fmt, topo, devices, cpuIds, order, all, node);
    NoCpuBlocks(blocks, node);
    SumConcat(DeviceShares(all), BlockShares(blocks), node, CPU);
    SumOfTable(d.allocatable, DeviceShares(all) + BlockShares(blocks), node, CPU);
  }

  // ----- Memory -----

  ghost predicate MemoryInRange(rows: Rows) {
    forall n, m | Has(rows, n, m) && IsMemory(m) :: 0 <= rows[n][m].available <= rows[n][m].allocatable
  }

  predicate AsksNonNegative(parse: string -> Option<int>, info: ResourceInfo) {
    IsMemory(info.name) && |info.data| == 1 && parse(info.data[0]).Some? ==> parse(info.data[0]).value >= 0
  }

  /** Memory figures stay between nothing and the allocatable amount while no request is negative. */
  lemma {:induction false} MemoryStaysInRange(d: Data, parse: string -> Option<int>, infos: seq<ResourceInfo>)
    requires RowsForDevices(d) && !Excludes(d, Uses(d, infos))
    requires forall info | info in infos :: AsksNonNegative(parse, info)
    ensures var r := Process(d, parse, InitialRows(d), infos);
      r.Some? && MemoryInRange(r.value)
    decreases infos
  {
    hide RowsForDevices;
    hide UseAll;
    hide UseMemory;
    hide Excludes;
    hide IsMemory;
    hide MemoryInRange;
    ProcessAccounts(d, parse, infos);
    if infos == [] {
      InitialInRange(d);
    } else {
      var init, info := infos[..|infos| - 1], infos[|infos| - 1];
      assert info in infos;
      ProcessAccounts(d, parse, init);
      ExcludesConcat(d, Uses(d, init), Uses(d, infos)[|Uses(d, init)|..]);
      assert Uses(d, infos) == Uses(d, init) + Uses(d, infos)[|Uses(d, init)|..];
      MemoryStaysInRange(d, parse, init);
      UseInRange(d, parse, Process(d, parse, InitialRows(d), init).value, info);
    }
  }

  lemma InitialInRange(d: Data)
    ensures MemoryInRange(InitialRows(d))
  {
  }

  lemma UseInRange(d: Data, parse: string -> Option<int>, rows: Rows, info: ResourceInfo)
    requires MemoryInRange(rows) && AsksNonNegative(parse, info)
    ensures var r := Use(d, parse, rows, info);
      r.Some? ==> MemoryInRange(r.value)
  {
    hide Drain;
    hide UseAll;
    if IsMemory(info.name) {
      if |info.data| == 1 && parse(info.data[0]).Some? {
        assert NonNegative(rows, info.name);
        DrainFrame(rows, info.name, info.numaNodeIds, parse(info.data[0]).value);
      }
    } else {
      UseAllInRange(d, rows, info.name, info.data);
    }
  }

  lemma {:induction false} UseAllInRange(d: Data, rows: Rows, name: string, ids: seq<string>)
    requires MemoryInRange(rows) && !IsMemory(name)
    ensures var r := UseAll(d, rows, name, ids);
      r.Some? ==> MemoryInRange(r.value)
    decreases ids
  {
    hide SetAvailable;
    if ids != [] {
      var init, id := ids[..|ids| - 1], ids[|ids| - 1];
      UseAllInRange(d, rows, name, init);
      var before := UseAll(d, rows, name, init);
      if before.Some? && UseOne(d, before.value, name, id).Some? && UseOne(d, before.value, name, id) != before {
        var node := d.where[name][id];
        SetFrame(before.value, node, name, before.value[node][name].available - 1);
      }
    }
  }
}
