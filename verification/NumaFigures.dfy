/**
The figures of the reported rows, read off the kubelet's lists: which rows there
are, how much each has, and which devices count as used.
*/
module NumaFigures {
  import opened Basics
  import opened NumaRows
  import opened NumaDevices
  import opened NumaCpus
  import opened Aggregator
  import opened NumaAccounting

  // ----- Amounts -----

  /** An amount, once for each time that a node is listed. */
  function PerListing(nodes: seq<int>, node: int, amount: nat): nat {
    if nodes == [] then 0
    else PerListing(nodes[..|nodes| - 1], node, amount) + if nodes[|nodes| - 1] == node then amount else 0
  }

  /** The number of devices of a resource on a node. */
  function DeviceAmount(devices: seq<Device>, node: int, resource: string): nat {
    if devices == [] then 0
    else
      var d := devices[|devices| - 1];
      DeviceAmount(devices[..|devices| - 1], node, resource)
      + if d.resource == resource then PerListing(d.nodes, node, |d.ids|) else 0
  }

  /** The size of the memory blocks of a type on a node. */
  function BlockAmount(blocks: seq<Block>, node: int, memoryType: string): nat {
    if blocks == [] then 0
    else
      var b := blocks[|blocks| - 1];
      BlockAmount(blocks[..|blocks| - 1], node, memoryType)
      + if b.memoryType == memoryType then PerListing(b.nodes, node, b.size) else 0
  }

  lemma {:induction false} SpreadAmount(nodes: seq<int>, resource: string, amount: nat, node: int, name: string)
    ensures Sum(Spread(nodes, resource, amount), node, name)
         == if resource == name then PerListing(nodes, node, amount) else 0
    decreases nodes
  {
    var shares, n := Spread(nodes, resource, amount), |nodes| - 1;
    if nodes == [] {
      assert shares == [];
    } else {
      SpreadAmount(nodes[..n], resource, amount, node, name);
      assert shares[..n] == Spread(nodes[..n], resource, amount);
    }
  }

  lemma {:induction false} DeviceSum(devices: seq<Device>, node: int, name: string)
    ensures Sum(DeviceShares(devices), node, name) == DeviceAmount(devices, node, name)
    decreases devices
  {
    hide Spread;
    hide Sum;
    if devices == [] {
      SumNothing(node, name);
    } else {
      var init, d := devices[..|devices| - 1], devices[|devices| - 1];
      SumConcat(DeviceShares(init), Spread(d.nodes, d.resource, |d.ids|), node, name);
      SpreadAmount(d.nodes, d.resource, |d.ids|, node, name);
      DeviceSum(init, node, name);
    }
  }

  lemma {:induction false} BlockSum(blocks: seq<Block>, node: int, name: string)
    ensures Sum(BlockShares(blocks), node, name) == BlockAmount(blocks, node, name)
    decreases blocks
  {
    hide Spread;
    hide Sum;
    if blocks == [] {
      SumNothing(node, name);
    } else {
      var init, b := blocks[..|blocks| - 1], blocks[|blocks| - 1];
      SumConcat(BlockShares(init), Spread(b.nodes, b.memoryType, b.size), node, name);
      SpreadAmount(b.nodes, b.memoryType, b.size, node, name);
      BlockSum(init, node, name);
    }
  }

  lemma SumNothing(node: int, name: string)
    ensures Sum([], node, name) == 0
  {
  }

  // ----- Which rows there are -----

  /** The resource is listed on the node, by a device or a memory block. */
  ghost predicate Lists(devices: seq<Device>, blocks: seq<Block>, node: int, name: string) {
    || (exists d | d in devices :: d.resource == name && node in d.nodes)
    || (exists b | b in blocks :: b.memoryType == name && node in b.nodes)
  }

  lemma SpreadMentions(nodes: seq<int>, resource: string, amount: nat, node: int, name: string)
    ensures Mentions(Spread(nodes, resource, amount), node, name) <==> resource == name && node in nodes
  {
    var shares := Spread(nodes, resource, amount);
    if resource == name && node in nodes {
      var i :| 0 <= i < |nodes| && nodes[i] == node;
      assert shares[i] in shares;
    }
  }

  lemma MentionsConcat(a: seq<Share>, b: seq<Share>, node: int, name: string)
    ensures Mentions(a + b, node, name) <==> Mentions(a, node, name) || Mentions(b, node, name)
  {
    if Mentions(a, node, name) {
      var s :| s in a && s.node == node && s.resource == name;
      assert s in a + b;
    }
    if Mentions(b, node, name) {
      var s :| s in b && s.node == node && s.resource == name;
      assert s in a + b;
    }
  }

  lemma {:induction false} DeviceMentions(devices: seq<Device>, node: int, name: string)
    ensures Mentions(DeviceShares(devices), node, name) <==>
      exists d | d in devices :: d.resource == name && node in d.nodes
    decreases devices
  {
    hide Mentions;
    hide Spread;
    if devices == [] {
      NothingMentioned(node, name);
    } else {
      var init, d := devices[..|devices| - 1], devices[|devices| - 1];
      DeviceMentions(init, node, name);
      MentionsConcat(DeviceShares(init), Spread(d.nodes, d.resource, |d.ids|), node, name);
      SpreadMentions(d.nodes, d.resource, |d.ids|, node, name);
      assert devices == init + [d];
    }
  }

  lemma {:induction false} BlockMentions(blocks: seq<Block>, node: int, name: string)
    ensures Mentions(BlockShares(blocks), node, name) <==>
      exists b | b in blocks :: b.memoryType == name && node in b.nodes
    decreases blocks
  {
    hide Mentions;
    hide Spread;
    if blocks == [] {
      NothingMentioned(node, name);
    } else {
      var init, b := blocks[..|blocks| - 1], blocks[|blocks| - 1];
      BlockMentions(init, node, name);
      MentionsConcat(BlockShares(init), Spread(b.nodes, b.memoryType, b.size), node, name);
      SpreadMentions(b.nodes, b.memoryType, b.size, node, name);
      assert blocks == init + [b];
    }
  }

  lemma NothingMentioned(node: int, name: string)
    ensures !Mentions([], node, name)
  {
  }

  lemma TableLists(d: Data, fmt: int -> string, topo: seq<TopoNode>, all: seq<Device>, blocks: seq<Block>,
                   node: int, name: string)
    requires Built(d, fmt, topo, all, blocks)
    ensures node in d.allocatable && name in d.allocatable[node] <==> Lists(all, blocks, node, name)
    ensures node in d.allocatable && name in d.allocatable[node] ==>
      d.allocatable[node][name] == DeviceAmount(all, node, name) + BlockAmount(blocks, node, name)
    ensures !Lists(all, blocks, node, name) ==> DeviceAmount(all, node, name) + BlockAmount(blocks, node, name) == 0
  {
    hide Sum;
    hide DeviceShares;
    hide BlockShares;
    var a, b := DeviceShares(all), BlockShares(blocks);
    DeviceMentions(all, node, name);
    BlockMentions(blocks, node, name);
    MentionsConcat(a, b, node, name);
    TableMentions(d.allocatable, a + b, node, name);
    SumOfTable(d.allocatable, a + b, node, name);
    SumConcat(a, b, node, name);
    DeviceSum(all, node, name);
    BlockSum(blocks, node, name);
  }

  lemma TableMentions(m: Allocatables, shares: seq<Share>, node: int, name: string)
    requires Tallied(m, shares)
    ensures node in m && name in m[node] <==> Mentions(shares, node, name)
  {
    hide Sum;
  }

  // ----- The rows of an aggregation -----

  /** Nothing at all is allocatable on the node. */
  ghost predicate Bare(all: seq<Device>, blocks: seq<Block>, node: int) {
    forall name :: !Lists(all, blocks, node, name)
  }

  lemma BareNodes(d: Data, fmt: int -> string, topo: seq<TopoNode>, all: seq<Device>, blocks: seq<Block>, node: int)
    requires Built(d, fmt, topo, all, blocks)
    ensures node in d.allocatable <==> !Bare(all, blocks, node)
  {
    hide Lists;
    forall name ensures node in d.allocatable && name in d.allocatable[node] <==> Lists(all, blocks, node, name) {
      TableLists(d, fmt, topo, all, blocks, node, name);
    }
    if node in d.allocatable {
      NonEmptyRow(d.allocatable, DeviceShares(all) + BlockShares(blocks), node);
      var name := Any(d.allocatable[node].Keys);
      assert Lists(all, blocks, node, name);
    }
  }

  lemma NonEmptyRow(m: Allocatables, shares: seq<Share>, node: int)
    requires Tallied(m, shares) && node in m
    ensures m[node].Keys != {}
  {
    assert m[node] != map[];
  }

  /** The capacity of a resource with a given allocatable amount. */
  function CapacityOf(d: Data, node: int, name: string, allocatable: int): int {
    if name == "cpu" then allocatable + |ReservedOn(d.reserved, node)|
    else if (name == "memory" || "hugepages-" <= name) && node in d.memory && name in d.memory[node]
    then d.memory[node][name]
    else allocatable
  }

  /**
  The rows that are reported: for every node of the topology the resources that
  the kubelet lists on it and that are not excluded, or just cpu if it lists
  nothing there. The allocatable amount is what the lists add up to, and the
  capacity adds reserved CPUs, or is the node's memory where that is known.
  */
  lemma RowsExactly(d: Data, fmt: int -> string, topo: seq<TopoNode>, all: seq<Device>, blocks: seq<Block>,
                    parse: string -> Option<int>, infos: seq<ResourceInfo>, node: int, name: string)
    requires Built(d, fmt, topo, all, blocks) && !Excludes(d, Uses(d, infos))
    ensures var r := Process(d, parse, InitialRows(d), infos);
      && r.Some?
      && (Has(r.value, node, name) <==>
            && 0 <= node < |topo|
            && (if Bare(all, blocks, node) then name == "cpu"
                else name !in d.excluded && Lists(all, blocks, node, name)))
      && (Has(r.value, node, name) ==>
            var row := r.value[node][name];
            && row.allocatable == DeviceAmount(all, node, name) + BlockAmount(blocks, node, name)
            && row.capacity == CapacityOf(d, node, name, row.allocatable))
  {
    hide InitialRows;
    hide Process;
    hide Excludes;
    hide Uses;
    hide Built;
    hide Bare;
    hide Lists;
    BuiltRows(d, fmt, topo, all, blocks);
    ProcessAccounts(d, parse, infos);
    InitialExactly(d, fmt, topo, all, blocks, node, name);
    var rows := Process(d, parse, InitialRows(d), infos).value;
    if Has(rows, node, name) {
      assert RowAfter(d, InitialRows(d)[node][name], rows[node][name], Uses(d, infos), node, name);
    }
  }

  lemma InitialExactly(d: Data, fmt: int -> string, topo: seq<TopoNode>, all: seq<Device>, blocks: seq<Block>,
                       node: int, name: string)
    requires Built(d, fmt, topo, all, blocks)
    ensures Has(InitialRows(d), node, name) <==>
      && 0 <= node < |topo|
      && (if Bare(all, blocks, node) then name == "cpu" else name !in d.excluded && Lists(all, blocks, node, name))
    ensures Has(InitialRows(d), node, name) ==>
      var row := InitialRows(d)[node][name];
      && row.allocatable == DeviceAmount(all, node, name) + BlockAmount(blocks, node, name)
      && row.capacity == CapacityOf(d, node, name, row.allocatable)
  {
    hide Lists;
    hide Tallied;
    hide NotIn;
    hide Procs;
    hide DeviceAmount;
    hide BlockAmount;
    TableLists(d, fmt, topo, all, blocks, node, name);
    BareNodes(d, fmt, topo, all, blocks, node);
  }

  // ----- Which devices are used, and where they are -----

  /** Some container uses this device of the resource. */
  ghost predicate UsedBy(infos: seq<ResourceInfo>, name: string, id: string) {
    exists info | info in infos :: info.name == name && id in info.data
  }

  lemma UsedByStep(init: seq<ResourceInfo>, info: ResourceInfo, name: string, id: string)
    ensures UsedBy(init + [info], name, id) <==> UsedBy(init, name, id) || (info.name == name && id in info.data)
  {
    assert info in init + [info];
    if UsedBy(init, name, id) {
      var x :| x in init && x.name == name && id in x.data;
      assert x in init + [info];
    }
  }

  /** The uses that count: of listed devices, by any container, except of memory. */
  lemma {:induction false} UsesExactly(d: Data, infos: seq<ResourceInfo>, name: string, id: string)
    ensures DeviceUse(name, id) in Uses(d, infos) <==>
      name != "memory" && !("hugepages-" <= name) && Known(d, name, id) && UsedBy(infos, name, id)
    decreases infos
  {
    hide Known;
    hide KnownUses;
    hide UsedBy;
    if infos == [] {
      NobodyUses(name, id);
    } else {
      var init, info := infos[..|infos| - 1], infos[|infos| - 1];
      UsesExactly(d, init, name, id);
      KnownUsesExactly(d, info.name, info.data, name, id);
      UsedByStep(init, info, name, id);
      assert infos == init + [info];
    }
  }

  lemma NobodyUses(name: string, id: string)
    ensures !UsedBy([], name, id)
  {
  }

  lemma {:induction false} KnownUsesExactly(d: Data, used: string, ids: seq<string>, name: string, id: string)
    ensures DeviceUse(name, id) in KnownUses(d, used, ids) <==> name == used && id in ids && Known(d, name, id)
    decreases ids
  {
    hide Known;
    if ids != [] {
      var init, last := ids[..|ids| - 1], ids[|ids| - 1];
      KnownUsesExactly(d, used, init, name, id);
      assert ids == init + [last];
    }
  }

  /** The entry puts the device on a node. */
  predicate Places(dev: Device, resource: string, id: string) {
    dev.resource == resource && dev.nodes != [] && id in dev.ids
  }

  /** A device is where the last entry that places it says last. */
  lemma {:induction false} LastEntryWins(devices: seq<Device>, resource: string, id: string, i: nat)
    requires i < |devices| && Places(devices[i], resource, id)
    requires forall j | i < j < |devices| :: !Places(devices[j], resource, id)
    ensures var m := ResourceMapOf(devices);
      resource in m && id in m[resource] && m[resource][id] == devices[i].nodes[|devices[i].nodes| - 1]
    decreases devices
  {
    if i < |devices| - 1 {
      LastEntryWins(devices[..|devices| - 1], resource, id, i);
    }
  }

  lemma {:induction false} NeverPlaced(devices: seq<Device>, resource: string, id: string)
    requires forall j | 0 <= j < |devices| :: !Places(devices[j], resource, id)
    ensures var m := ResourceMapOf(devices);
      !(resource in m && id in m[resource])
    decreases devices
  {
    if devices != [] {
      NeverPlaced(devices[..|devices| - 1], resource, id);
    }
  }

  // ----- CPUs -----

  /** The allocatable amount of cpu on a node is the number of allocatable CPUs among its processors. */
  lemma CpuAllocatable(d: Data, fmt: int -> string, topo: seq<TopoNode>, devices: seq<Device>, cpuIds: seq<int>,
                       order: seq<int>, all: seq<Device>, blocks: seq<Block>,
                       parse: string -> Option<int>, infos: seq<ResourceInfo>, node: nat)
    requires Built(d, fmt, topo, all, blocks) && Setting(fmt, topo, devices, cpuIds, order, all)
    requires (forall b | b in blocks :: b.memoryType != CPU) && !Excludes(d, Uses(d, infos)) && node < |topo|
    ensures var r := Process(d, parse, InitialRows(d), infos);
      r.Some? && (Has(r.value, node, "cpu") ==>
        r.value[node]["cpu"].allocatable == |set c | c in cpuIds && c in Procs(topo[node])|)
  {
    hide Built;
    hide Process;
    hide InitialRows;
    hide Uses;
    hide Excludes;
    hide CoreMap;
    hide Procs;
    hide DeviceShares;
    hide CpusOn;
    hide Sum;
    RowsExactly(d, fmt, topo, all, blocks, parse, infos, node, "cpu");
    DeviceSum(all, node, CPU);
    BlockSum(blocks, node, CPU);
    NoCpuBlocks(blocks, node);
    var core := CoreMap(topo);
    var on := CpusOn(core, cpuIds, node);
    SharesConcat(devices, CpuDevices(fmt, core, cpuIds, order), node);
    NoCpuIds(devices);
    CpuShares(fmt, core, cpuIds, order, node);
    CpusOnElems(core, cpuIds, node);
    ElemsCount(on);
    assert on == [] || node in order by {
      if on != [] {
        assert on[0] in Elems(on);
        CpuNodeOf(core, cpuIds, on[0]);
        assert node in Elems(order);
      }
    }
    forall c ensures c in Procs(topo[node]) <==> c in core && core[c] == node {
      CoreMapExact(topo, node, c);
    }
    assert Elems(on) == set c | c in cpuIds && c in Procs(topo[node]);
  }
}
