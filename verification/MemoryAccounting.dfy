/**
Memory in the aggregator: what one use takes from the rows, and the balance over
all uses of an aggregation.
*/
module MemoryAccounting {
  import opened Basics
  import opened NumaRows
  import opened NumaDevices
  import opened Aggregator
  import opened NumaAccounting

  // ----- One use -----

  /** The request of a use, if it has one that can be read. */
  function Asked(parse: string -> Option<int>, info: ResourceInfo): Option<int> {
    if |info.data| != 1 then None else parse(info.data[0])
  }

  /** A node is reachable if it is listed, has the resource, and no known node before it lacks it. */
  ghost predicate ReachedAt(rows: Rows, name: string, ids: seq<int>, n: int, i: int) {
    0 <= i < |ids| && ids[i] == n && n in rows && forall j | 0 <= j <= i && ids[j] in rows :: name in rows[ids[j]]
  }

  lemma {:induction false} ReachableExactly(rows: Rows, name: string, ids: seq<int>, n: int)
    ensures n in Reachable(rows, name, ids) <==> exists i :: ReachedAt(rows, name, ids, n, i)
  {
    if ids != [] {
      var rest := ids[1..];
      ReachableExactly(rows, name, rest, n);
      forall i | ReachedAt(rows, name, rest, n, i) && (ids[0] in rows ==> name in rows[ids[0]])
        ensures ReachedAt(rows, name, ids, n, i + 1)
      {
        forall j | 0 <= j <= i + 1 && ids[j] in rows ensures name in rows[ids[j]] {
          assert j > 0 ==> ids[j] == rest[j - 1];
        }
      }
      forall i | ReachedAt(rows, name, ids, n, i) && i > 0 ensures ReachedAt(rows, name, rest, n, i - 1) {
        forall j | 0 <= j <= i - 1 && rest[j] in rows ensures name in rows[rest[j]] {
          assert rest[j] == ids[j + 1];
        }
      }
      if ids[0] == n && Has(rows, n, name) {
        assert ReachedAt(rows, name, ids, n, 0);
      }
    }
  }

  /** A node that was drawn on has none before it in the list with anything left. */
  ghost predicate InListOrder(rows: Rows, rows': Rows, name: string, ids: seq<int>) {
    forall i, n | 0 <= i < |ids| && Has(rows, ids[i], name) && (forall j | 0 <= j <= i :: ids[j] != n)
      && Available(rows', n, name) != Available(rows, n, name) :: Available(rows', ids[i], name) == 0
  }

  /**
  One use of memory takes the minimum of what is asked for and of what the
  reachable nodes of its list have, from these nodes in list order, and leaves
  everything else as it was.
  */
  lemma MemoryUseTakes(d: Data, parse: string -> Option<int>, rows: Rows, info: ResourceInfo)
    requires info.name == "memory" || "hugepages-" <= info.name
    requires Asked(parse, info).Some? && Asked(parse, info).value >= 0 && NonNegative(rows, info.name)
    ensures var o := Process(d, parse, rows, [info]);
      var reach := Reachable(rows, info.name, info.numaNodeIds);
      && o.Some? && OnlyDrained(rows, o.value, info.name) && NonNegative(o.value, info.name)
      && Total(o.value, info.name, reach)
         == Total(rows, info.name, reach) - Min(Asked(parse, info).value, Total(rows, info.name, reach))
      && (forall n | n !in reach :: Available(o.value, n, info.name) == Available(rows, n, info.name))
      && InListOrder(rows, o.value, info.name, info.numaNodeIds)
  {
    hide Drain;
    hide OnlyDrained;
    hide Total;
    hide Reachable;
    var name, ids, r := info.name, info.numaNodeIds, Asked(parse, info).value;
    OneUse(d, parse, rows, info);
    DrainFrame(rows, name, ids, r);
    DrainAmount(rows, name, ids, r);
    var rows' := Drain(rows, name, ids, r).0;
    forall i, n | 0 <= i < |ids| && Has(rows, ids[i], name) && (forall j | 0 <= j <= i :: ids[j] != n)
      && Available(rows', n, name) != Available(rows, n, name)
      ensures Available(rows', ids[i], name) == 0
    {
      DrainInOrder(rows, name, ids, r, i, n);
    }
  }

  lemma OneUse(d: Data, parse: string -> Option<int>, rows: Rows, info: ResourceInfo)
    ensures Process(d, parse, rows, [info]) == Use(d, parse, rows, info)
  {
    hide Use;
    assert [info][..0] == [];
    assert Process(d, parse, rows, []) == Some(rows);
  }

  /** A use without a readable request or without nodes changes nothing. */
  lemma MemoryUseIgnored(d: Data, parse: string -> Option<int>, rows: Rows, info: ResourceInfo)
    requires info.name == "memory" || "hugepages-" <= info.name
    requires Asked(parse, info).None? || info.numaNodeIds == []
    ensures Process(d, parse, rows, [info]) == Some(rows)
  {
    OneUse(d, parse, rows, info);
  }

  // ----- The balance -----

  /** What the requests for a resource took, each from what there was when its turn came. */
  ghost function Took(d: Data, parse: string -> Option<int>, infos: seq<ResourceInfo>, name: string): int {
    if infos == [] then 0
    else
      var init, last := infos[..|infos| - 1], infos[|infos| - 1];
      var before := Process(d, parse, InitialRows(d), init);
      Took(d, parse, init, name)
      + if before.None? || last.name != name || Asked(parse, last).None? then 0
        else Min(Asked(parse, last).value, Total(before.value, name, Reachable(before.value, name, last.numaNodeIds)))
  }

  ghost function TotalAllocatable(rows: Rows, name: string, nodes: set<int>): int {
    if nodes == {} then 0
    else
      var n := Any(nodes);
      (if Has(rows, n, name) then rows[n][name].allocatable else 0) + TotalAllocatable(rows, name, nodes - {n})
  }

  lemma {:induction false} FullTotal(rows: Rows, name: string, nodes: set<int>)
    requires forall n | Has(rows, n, name) :: rows[n][name].available == rows[n][name].allocatable
    ensures Total(rows, name, nodes) == TotalAllocatable(rows, name, nodes)
    decreases nodes
  {
    if nodes != {} {
      FullTotal(rows, name, nodes - {Any(nodes)});
    }
  }

  lemma {:induction false} SameAllocatable(rows: Rows, rows': Rows, name: string, nodes: set<int>)
    requires forall n | n in nodes :: Has(rows, n, name) <==> Has(rows', n, name)
    requires forall n | Has(rows, n, name) && Has(rows', n, name) ::
      rows[n][name].allocatable == rows'[n][name].allocatable
    ensures TotalAllocatable(rows, name, nodes) == TotalAllocatable(rows', name, nodes)
    decreases nodes
  {
    if nodes != {} {
      SameAllocatable(rows, rows', name, nodes - {Any(nodes)});
    }
  }

  lemma {:induction false} TotalSplit(rows: Rows, name: string, nodes: set<int>, part: set<int>)
    requires part <= nodes
    ensures Total(rows, name, nodes) == Total(rows, name, part) + Total(rows, name, nodes - part)
    decreases part
  {
    hide Total;
    TotalNone(rows, name);
    if part == {} {
      assert nodes - part == nodes;
    } else {
      var n := Any(part);
      TotalTake(rows, name, nodes, n);
      TotalTake(rows, name, part, n);
      TotalSplit(rows, name, nodes - {n}, part - {n});
      assert nodes - {n} - (part - {n}) == nodes - part;
    }
  }

  lemma {:induction false} ReachableKnown(rows: Rows, name: string, ids: seq<int>)
    ensures Reachable(rows, name, ids) <= rows.Keys
  {
    if ids != [] {
      ReachableKnown(rows, name, ids[1..]);
    }
  }

  /** Only one resource has been touched. */
  ghost predicate OnlyOf(rows: Rows, rows': Rows, name: string) {
    && rows'.Keys == rows.Keys && (forall n, m :: Has(rows', n, m) <==> Has(rows, n, m))
    && (forall n, m | m != name && Has(rows, n, m) && Has(rows', n, m) :: rows'[n][m] == rows[n][m])
  }

  lemma {:induction false} UseAllElsewhere(d: Data, rows: Rows, name: string, ids: seq<string>)
    ensures var r := UseAll(d, rows, name, ids);
      r.Some? ==> OnlyOf(rows, r.value, name)
    decreases ids
  {
    hide SetAvailable;
    if ids != [] {
      var init, id := ids[..|ids| - 1], ids[|ids| - 1];
      UseAllElsewhere(d, rows, name, init);
      var before := UseAll(d, rows, name, init);
      if before.Some? && UseOne(d, before.value, name, id).Some? && UseOne(d, before.value, name, id) != before {
        var node := d.where[name][id];
        SetFrame(before.value, node, name, before.value[node][name].available - 1);
      }
    }
  }

  /** What one more use does to the total of a memory resource over all nodes. */
  lemma UseTotal(d: Data, parse: string -> Option<int>, rows: Rows, info: ResourceInfo, name: string)
    requires IsMemory(name) && NonNegative(rows, name) && AsksNonNegative(parse, info)
    requires Use(d, parse, rows, info).Some?
    ensures var rows' := Use(d, parse, rows, info).value;
      && rows'.Keys == rows.Keys
      && Total(rows', name, rows.Keys) == Total(rows, name, rows.Keys)
         - if info.name != name || Asked(parse, info).None? then 0
           else Min(Asked(parse, info).value, Total(rows, name, Reachable(rows, name, info.numaNodeIds)))
  {
    hide Drain;
    hide UseAll;
    hide Total;
    hide Reachable;
    var rows' := Use(d, parse, rows, info).value;
    if !IsMemory(info.name) {
      UseAllElsewhere(d, rows, info.name, info.data);
      TotalSame(rows, rows', name, rows.Keys);
    } else if Asked(parse, info).Some? {
      var r, ids := Asked(parse, info).value, info.numaNodeIds;
      DrainTouches(rows, info.name, ids, r);
      if info.name != name {
        TotalSame(rows, rows', name, rows.Keys);
      } else {
        var reach := Reachable(rows, name, ids);
        DrainAmount(rows, name, ids, r);
        ReachableKnown(rows, name, ids);
        TotalSplit(rows, name, rows.Keys, reach);
        TotalSplit(rows', name, rows.Keys, reach);
        TotalSame(rows, rows', name, rows.Keys - reach);
      }
    }
  }

  lemma InRangeNonNegative(rows: Rows, name: string)
    requires MemoryInRange(rows) && IsMemory(name)
    ensures NonNegative(rows, name)
  {
  }

  /**
  Over a whole aggregation, what is reported as available of a memory resource
  on all nodes together is its allocatable total less what the requests took.
  */
  lemma {:induction false} MemoryBalance(d: Data, parse: string -> Option<int>, infos: seq<ResourceInfo>, name: string)
    requires name == "memory" || "hugepages-" <= name
    requires RowsForDevices(d) && !Excludes(d, Uses(d, infos)) && forall i | i in infos :: AsksNonNegative(parse, i)
    ensures var r := Process(d, parse, InitialRows(d), infos);
      && r.Some?
      && Total(r.value, name, r.value.Keys)
         == TotalAllocatable(r.value, name, r.value.Keys) - Took(d, parse, infos, name)
  {
    hide RowsForDevices;
    hide Process;
    hide InitialRows;
    hide Excludes;
    hide TotalAllocatable;
    hide Total;
    hide Took;
    BalanceFromStart(d, parse, infos, name);
    ProcessAccounts(d, parse, infos);
    var rows := Process(d, parse, InitialRows(d), infos).value;
    AllocatableStays(d, rows, Uses(d, infos), name);
  }

  lemma AllocatableStays(d: Data, rows: Rows, uses: seq<DeviceUse>, name: string)
    requires Accounted(d, rows, uses)
    ensures rows.Keys == InitialRows(d).Keys
    ensures TotalAllocatable(rows, name, rows.Keys) == TotalAllocatable(InitialRows(d), name, rows.Keys)
    ensures Total(InitialRows(d), name, rows.Keys) == TotalAllocatable(InitialRows(d), name, rows.Keys)
  {
    hide Count;
    SameAllocatable(rows, InitialRows(d), name, rows.Keys);
    InitiallyFull(d, name);
    FullTotal(InitialRows(d), name, rows.Keys);
  }

  lemma InitiallyFull(d: Data, name: string)
    ensures forall n | Has(InitialRows(d), n, name) ::
      InitialRows(d)[n][name].available == InitialRows(d)[n][name].allocatable
  {
  }

  lemma {:induction false} BalanceFromStart(d: Data, parse: string -> Option<int>, infos: seq<ResourceInfo>,
                                            name: string)
    requires IsMemory(name) && RowsForDevices(d) && !Excludes(d, Uses(d, infos))
    requires forall i | i in infos :: AsksNonNegative(parse, i)
    ensures var r, start := Process(d, parse, InitialRows(d), infos), InitialRows(d);
      && r.Some? && r.value.Keys == start.Keys
      && Total(r.value, name, start.Keys) == Total(start, name, start.Keys) - Took(d, parse, infos, name)
    decreases infos
  {
    hide RowsForDevices;
    hide InitialRows;
    hide Use;
    hide Excludes;
    hide Total;
    hide Uses;
    hide IsMemory;
    ProcessAccounts(d, parse, infos);
    if infos != [] {
      var init, info := infos[..|infos| - 1], infos[|infos| - 1];
      assert info in infos;
      UsesOfInit(d, infos);
      BalanceFromStart(d, parse, init, name);
      MemoryStaysInRange(d, parse, init);
      var rows := Process(d, parse, InitialRows(d), init).value;
      InRangeNonNegative(rows, name);
      UseTotal(d, parse, rows, info, name);
    }
  }

  lemma UsesOfInit(d: Data, infos: seq<ResourceInfo>)
    requires infos != [] && !Excludes(d, Uses(d, infos))
    ensures !Excludes(d, Uses(d, infos[..|infos| - 1]))
  {
    hide Excludes;
    var before, all := Uses(d, infos[..|infos| - 1]), Uses(d, infos);
    ExcludesConcat(d, before, all[|before|..]);
    assert all == before + all[|before|..];
  }
}
