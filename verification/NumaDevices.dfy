/**
What the aggregator derives from the kubelet's list of allocatable devices and
memory blocks: how much of each resource a NUMA node has, and on which node a
device is (pkg/resourcemonitor/noderesourcesaggregator.go).
*/
module NumaDevices {
  import opened Basics

  datatype Device = Device(resource: string, ids: seq<string>, nodes: seq<int>)
  datatype Block = Block(memoryType: string, size: nat, nodes: seq<int>)

  type Allocatables = map<int, map<string, nat>>
  type ResourceMap = map<string, map<string, int>>

  // ----- Allocatable amounts -----

  /** One addition to the allocatable amount of a resource on a node. */
  datatype Share = Share(node: int, resource: string, amount: nat)

  function Spread(nodes: seq<int>, resource: string, amount: nat): (r: seq<Share>)
    ensures |r| == |nodes| && forall i | 0 <= i < |r| :: r[i] == Share(nodes[i], resource, amount)
  {
    seq(|nodes|, i requires 0 <= i < |nodes| => Share(nodes[i], resource, amount))
  }

  function DeviceShares(devices: seq<Device>): seq<Share> {
    if devices == [] then []
    else
      var d := devices[|devices| - 1];
      DeviceShares(devices[..|devices| - 1]) + Spread(d.nodes, d.resource, |d.ids|)
  }

  function BlockShares(blocks: seq<Block>): seq<Share> {
    if blocks == [] then []
    else
      var b := blocks[|blocks| - 1];
      BlockShares(blocks[..|blocks| - 1]) + Spread(b.nodes, b.memoryType, b.size)
  }

  function Sum(shares: seq<Share>, node: int, resource: string): nat {
    if shares == [] then 0
    else
      var s := shares[|shares| - 1];
      Sum(shares[..|shares| - 1], node, resource) + if s.node == node && s.resource == resource then s.amount else 0
  }

  ghost predicate Mentions(shares: seq<Share>, node: int, resource: string) {
    exists s | s in shares :: s.node == node && s.resource == resource
  }

  /** The table holds, for exactly the pairs mentioned, the sum of their shares. */
  ghost predicate Tallied(m: Allocatables, shares: seq<Share>) {
    && (forall s | s in shares :: s.node in m && s.resource in m[s.node])
    && (forall n | n in m :: m[n] != map[])
    && (forall n, r | n in m && r in m[n] :: Mentions(shares, n, r) && m[n][r] == Sum(shares, n, r))
  }

  function AddShare(m: Allocatables, s: Share): Allocatables {
    var row := if s.node in m then m[s.node] else map[];
    m[s.node := row[s.resource := (if s.resource in row then row[s.resource] else 0) + s.amount]]
  }

  lemma {:induction false} SumUnmentioned(shares: seq<Share>, node: int, resource: string)
    requires !Mentions(shares, node, resource)
    ensures Sum(shares, node, resource) == 0
    decreases shares
  {
    if shares != [] {
      var init := shares[..|shares| - 1];
      assert shares[|shares| - 1] in shares;
      assert forall s | s in init :: s in shares;
      SumUnmentioned(init, node, resource);
    }
  }

  lemma AddTallies(m: Allocatables, shares: seq<Share>, s: Share)
    requires Tallied(m, shares)
    ensures Tallied(AddShare(m, s), shares + [s])
  {
    var m', all := AddShare(m, s), shares + [s];
    assert all[..|all| - 1] == shares && all[|all| - 1] == s;
    assert s in all;
    if !(s.node in m && s.resource in m[s.node]) {
      SumUnmentioned(shares, s.node, s.resource);
    }
    forall n, r | n in m' && r in m'[n] ensures Mentions(all, n, r) && m'[n][r] == Sum(all, n, r) {
      AddTalliesAt(m, shares, s, n, r);
    }
    forall n | n in m' ensures m'[n] != map[] {
      if n == s.node {
        assert s.resource in m'[n];
      }
    }
  }

  lemma AddTalliesAt(m: Allocatables, shares: seq<Share>, s: Share, n: int, r: string)
    requires forall n, r | n in m && r in m[n] :: Mentions(shares, n, r) && m[n][r] == Sum(shares, n, r)
    requires (s.node in m && s.resource in m[s.node]) || Sum(shares, s.node, s.resource) == 0
    requires n in AddShare(m, s) && r in AddShare(m, s)[n]
    ensures Mentions(shares + [s], n, r) && AddShare(m, s)[n][r] == Sum(shares + [s], n, r)
  {
    var all := shares + [s];
    assert all[..|all| - 1] == shares && all[|all| - 1] == s;
    assert s in all;
    if n != s.node || r != s.resource {
      assert Mentions(shares, n, r);
      var x :| x in shares && x.node == n && x.resource == r;
      assert x in all;
    }
  }

  method AddToNodes(m0: Allocatables, ghost done: seq<Share>, nodes: seq<int>, resource: string, amount: nat)
    returns (m: Allocatables)
    requires Tallied(m0, done)
    ensures Tallied(m, done + Spread(nodes, resource, amount))
  {
    hide Tallied;
    m := m0;
    var i := 0;
    assert done + Spread(nodes, resource, amount)[..0] == done;
    while i < |nodes|
      invariant 0 <= i <= |nodes|
      invariant Tallied(m, done + Spread(nodes, resource, amount)[..i])
    {
      var s := Share(nodes[i], resource, amount);
      AddTallies(m, done + Spread(nodes, resource, amount)[..i], s);
      m := AddShare(m, s);
      assert done + Spread(nodes, resource, amount)[..i] + [s] == done + Spread(nodes, resource, amount)[..i + 1];
      i := i + 1;
    }
    assert Spread(nodes, resource, amount)[..|nodes|] == Spread(nodes, resource, amount);
  }

  lemma TalliedNothing()
    ensures Tallied(map[], [])
  {
  }

  /** makeNodeAllocatable: every pair of node and resource gets the sum of all its shares. */
  method MakeNodeAllocatable(devices: seq<Device>, blocks: seq<Block>) returns (m: Allocatables)
    ensures Tallied(m, DeviceShares(devices) + BlockShares(blocks))
  {
    hide Tallied;
    hide Spread;
    m := map[];
    TalliedNothing();
    var i := 0;
    assert devices[..0] == [] && blocks[..0] == [];
    while i < |devices|
      invariant 0 <= i <= |devices|
      invariant Tallied(m, DeviceShares(devices[..i]))
    {
      m := AddToNodes(m, DeviceShares(devices[..i]), devices[i].nodes, devices[i].resource, |devices[i].ids|);
      assert devices[..i + 1][..i] == devices[..i];
      i := i + 1;
    }
    assert devices[..|devices|] == devices && blocks[..|blocks|] == blocks;
    i := 0;
    assert DeviceShares(devices) + BlockShares(blocks[..0]) == DeviceShares(devices);
    while i < |blocks|
      invariant 0 <= i <= |blocks|
      invariant Tallied(m, DeviceShares(devices) + BlockShares(blocks[..i]))
    {
      ghost var done := DeviceShares(devices) + BlockShares(blocks[..i]);
      var b := blocks[i];
      m := AddToNodes(m, done, b.nodes, b.memoryType, b.size);
      assert blocks[..i + 1][..i] == blocks[..i];
      assert done + Spread(b.nodes, b.memoryType, b.size) == DeviceShares(devices) + BlockShares(blocks[..i + 1]);
      i := i + 1;
    }
  }

  // ----- Where the devices are -----

  function RowOf(m: ResourceMap, resource: string): map<string, int> {
    if resource in m then m[resource] else map[]
  }

  /** A device is known under the last node of the last entry that lists it. */
  function PutDevice(m: ResourceMap, d: Device): ResourceMap {
    var row := RowOf(m, d.resource);
    m[d.resource := if d.nodes == [] then row else row + AllTo(d.ids, d.nodes[|d.nodes| - 1])]
  }

  function ResourceMapOf(devices: seq<Device>): ResourceMap {
    if devices == [] then map[] else PutDevice(ResourceMapOf(devices[..|devices| - 1]), devices[|devices| - 1])
  }

  /** Every listed key mapped to the same number. */
  function AllTo<K>(keys: seq<K>, v: int): map<K, int> {
    map k | k in keys :: v
  }

  lemma AllToConcat<K>(m: map<K, int>, a: seq<K>, b: seq<K>, v: int)
    ensures m + AllTo(a, v) + AllTo(b, v) == m + AllTo(a + b, v)
  {
  }

  lemma AllToNone<K>(m: map<K, int>, v: int)
    ensures m + AllTo([], v) == m
  {
  }

  lemma AllToOne<K>(m: map<K, int>, k: K, v: int)
    ensures m + AllTo([k], v) == m[k := v]
  {
  }

  /** Mapping the same keys twice, the second time counts. */
  lemma AllToAgain<K>(m: map<K, int>, keys: seq<K>, v: int, w: int)
    ensures m + AllTo(keys, v) + AllTo(keys, w) == m + AllTo(keys, w)
  {
  }

  method MapAll<K(==)>(m0: map<K, int>, keys: seq<K>, v: int) returns (m: map<K, int>)
    ensures m == m0 + AllTo(keys, v)
  {
    hide AllTo;
    m := m0;
    var k := 0;
    AllToNone(m0, v);
    assert keys[..0] == [];
    while k < |keys|
      invariant 0 <= k <= |keys|
      invariant m == m0 + AllTo(keys[..k], v)
    {
      AllToConcat(m0, keys[..k], [keys[k]], v);
      AllToOne(m, keys[k], v);
      m := m[keys[k] := v];
      assert keys[..k + 1] == keys[..k] + [keys[k]];
      k := k + 1;
    }
    assert keys[..|keys|] == keys;
  }

  /** The row of a resource, with the devices of one entry put in. */
  method MapDevice(row0: map<string, int>, d: Device) returns (row: map<string, int>)
    ensures row == if d.nodes == [] then row0 else row0 + AllTo(d.ids, d.nodes[|d.nodes| - 1])
  {
    hide AllTo;
    row := row0;
    var j := 0;
    while j < |d.nodes|
      invariant 0 <= j <= |d.nodes|
      invariant row == if j == 0 then row0 else row0 + AllTo(d.ids, d.nodes[j - 1])
    {
      if j > 0 {
        AllToAgain(row0, d.ids, d.nodes[j - 1], d.nodes[j]);
      }
      row := MapAll(row, d.ids, d.nodes[j]);
      j := j + 1;
    }
  }

  /** makeResourceMap */
  method MakeResourceMap(devices: seq<Device>) returns (m: ResourceMap)
    ensures m == ResourceMapOf(devices)
  {
    hide AllTo;
    m := map[];
    var i := 0;
    while i < |devices|
      invariant 0 <= i <= |devices|
      invariant m == ResourceMapOf(devices[..i])
    {
      var d := devices[i];
      var row := MapDevice(if d.resource in m then m[d.resource] else map[], d);
      m := m[d.resource := row];
      assert devices[..i + 1][..i] == devices[..i];
      i := i + 1;
    }
    assert devices[..|devices|] == devices;
  }

  /** The IDs that the list names for a resource on a node. */
  function IdsOn(devices: seq<Device>, resource: string, node: int): set<string> {
    if devices == [] then {}
    else
      var d := devices[|devices| - 1];
      IdsOn(devices[..|devices| - 1], resource, node)
      + if d.resource == resource && node in d.nodes then Elems(d.ids) else {}
  }

  lemma {:induction false} ElemsCount<T>(s: seq<T>)
    ensures |Elems(s)| <= |s|
    ensures NoDuplicates(s) ==> |Elems(s)| == |s|
  {
    if s != [] {
      var init, x := s[..|s| - 1], s[|s| - 1];
      ElemsCount(init);
      assert Elems(s) == Elems(init) + {x};
      if NoDuplicates(s) {
        assert x !in Elems(init);
      }
    }
  }

  lemma {:induction false} SumConcat(a: seq<Share>, b: seq<Share>, node: int, resource: string)
    ensures Sum(a + b, node, resource) == Sum(a, node, resource) + Sum(b, node, resource)
    decreases b
  {
    if b == [] {
      assert a + b == a;
    } else {
      assert (a + b)[..|a + b| - 1] == a + b[..|b| - 1];
      SumConcat(a, b[..|b| - 1], node, resource);
    }
  }

  /** A node that is listed gets at least one full share. */
  lemma {:induction false} SpreadSum(nodes: seq<int>, resource: string, amount: nat, node: int)
    ensures node in nodes ==> Sum(Spread(nodes, resource, amount), node, resource) >= amount
    decreases nodes
  {
    if nodes != [] {
      var init := nodes[..|nodes| - 1];
      SpreadSum(init, resource, amount, node);
      assert Spread(nodes, resource, amount)[..|nodes| - 1] == Spread(init, resource, amount);
      assert nodes == init + [nodes[|nodes| - 1]];
    }
  }

  /** No more IDs on a node than the allocatable amount says, even for devices that span several nodes. */
  lemma {:induction false} IdsWithinAllocatable(devices: seq<Device>, resource: string, node: int)
    ensures |IdsOn(devices, resource, node)| <= Sum(DeviceShares(devices), node, resource)
    decreases devices
  {
    if devices != [] {
      var init, d := devices[..|devices| - 1], devices[|devices| - 1];
      IdsWithinAllocatable(init, resource, node);
      var spread := Spread(d.nodes, d.resource, |d.ids|);
      SumConcat(DeviceShares(init), spread, node, resource);
      if d.resource == resource && node in d.nodes {
        SpreadSum(d.nodes, resource, |d.ids|, node);
        ElemsCount(d.ids);
        UnionCount(IdsOn(init, resource, node), Elems(d.ids));
      } else {
        assert IdsOn(init, resource, node) + {} == IdsOn(init, resource, node);
      }
    }
  }

  lemma {:induction false} UnionCount<T>(a: set<T>, b: set<T>)
    ensures |a + b| <= |a| + |b|
    decreases b
  {
    if b == {} {
      assert a + b == a;
    } else {
      var x := Any(b);
      UnionCount(a, b - {x});
      assert a + b == (a + (b - {x})) + {x};
    }
  }

  /** A known device is among the IDs of the node it is mapped to, and that node has the resource. */
  lemma {:induction false} MappedIds(devices: seq<Device>, resource: string, id: string)
    requires resource in ResourceMapOf(devices) && id in ResourceMapOf(devices)[resource]
    ensures var node := ResourceMapOf(devices)[resource][id];
      id in IdsOn(devices, resource, node) && Mentions(DeviceShares(devices), node, resource)
    decreases devices
  {
    var init, d := devices[..|devices| - 1], devices[|devices| - 1];
    var node := ResourceMapOf(devices)[resource][id];
    var shares, spread := DeviceShares(devices), Spread(d.nodes, d.resource, |d.ids|);
    if d.resource == resource && d.nodes != [] && id in d.ids {
      assert spread[|d.nodes| - 1] in shares;
      assert id in Elems(d.ids);
    } else {
      MappedIds(init, resource, id);
      var x :| x in DeviceShares(init) && x.node == node && x.resource == resource;
      assert x in shares;
    }
  }
}
