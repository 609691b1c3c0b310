/**
The per-NUMA rows of the resource aggregator and the greedy draining of memory
from them (pkg/resourcemonitor/noderesourcesaggregator.go).
*/
module NumaRows {
  import opened Basics

  datatype Row = Row(available: int, allocatable: int, capacity: int)

  /** NUMA node ID to resource name to figures. */
  type Rows = map<int, map<string, Row>>

  /** What a container uses of a resource. */
  datatype ResourceInfo = ResourceInfo(name: string, data: seq<string>, numaNodeIds: seq<int>)

  predicate Has(rows: Rows, node: int, name: string) {
    node in rows && name in rows[node]
  }

  function Available(rows: Rows, node: int, name: string): int {
    if Has(rows, node, name) then rows[node][name].available else 0
  }

  function SetAvailable(rows: Rows, node: int, name: string, v: int): (r: Rows)
    requires Has(rows, node, name)
    ensures Has(r, node, name) && r[node][name].available == v
  {
    rows[node := rows[node][name := rows[node][name].(available := v)]]
  }

  lemma SetFrame(rows: Rows, node: int, name: string, v: int)
    requires Has(rows, node, name)
    ensures var r := SetAvailable(rows, node, name, v);
      && r.Keys == rows.Keys && (forall n, m :: Has(r, n, m) <==> Has(rows, n, m))
      && (forall n, m | Has(rows, n, m) && Has(r, n, m) ::
            r[n][m] == if n == node && m == name then rows[n][m].(available := v) else rows[n][m])
  {
  }

  ghost predicate NonNegative(rows: Rows, name: string) {
    forall n | Has(rows, n, name) :: rows[n][name].available >= 0
  }

  // ----- Draining -----

  /** The rows after a request has been taken from the listed nodes in order, and what is left of it. */
  function Drain(rows: Rows, name: string, ids: seq<int>, r: int): (Rows, int)
    decreases ids
  {
    if ids == [] || r == 0 then (rows, r)
    else
      var node, rest := ids[0], ids[1..];
      if node !in rows then Drain(rows, name, rest, r)
      else if name !in rows[node] then (rows, r)
      else
        var free := rows[node][name].available;
        if free == 0 then Drain(rows, name, rest, r)
        else if r >= free then Drain(SetAvailable(rows, node, name, 0), name, rest, r - free)
        else Drain(SetAvailable(rows, node, name, free - r), name, rest, 0)
  }

  /** One step of the drain at a node that has the resource: it gives what it can. */
  lemma DrainStep(rows: Rows, name: string, ids: seq<int>, r: int)
    requires ids != [] && Has(rows, ids[0], name) && r >= 0 && rows[ids[0]][name].available >= 0
    ensures var free := rows[ids[0]][name].available;
      Drain(rows, name, ids, r)
      == if r >= free then Drain(SetAvailable(rows, ids[0], name, 0), name, ids[1..], r - free)
         else (SetAvailable(rows, ids[0], name, free - r), 0)
  {
    var row := rows[ids[0]][name];
    assert row.(available := row.available) == row;
    assert rows[ids[0]][name := row] == rows[ids[0]];
    assert SetAvailable(rows, ids[0], name, row.available) == rows;
    if r == 0 && row.available == 0 {
      assert Drain(rows, name, ids[1..], 0) == (rows, 0);
    }
  }

  /** The same rows, except that availability of one resource may have gone down. */
  ghost predicate OnlyDrained(rows: Rows, d: Rows, name: string) {
    && d.Keys == rows.Keys && (forall n, m :: Has(d, n, m) <==> Has(rows, n, m))
    && (forall n, m | Has(rows, n, m) && Has(d, n, m) ::
          d[n][m] == if m == name then rows[n][m].(available := d[n][m].available) else rows[n][m])
    && (forall n | Has(rows, n, name) :: d[n][name].available <= rows[n][name].available)
  }

  lemma DrainedTwice(a: Rows, b: Rows, c: Rows, name: string)
    requires OnlyDrained(a, b, name) && OnlyDrained(b, c, name)
    ensures OnlyDrained(a, c, name)
  {
  }

  lemma SetDrained(rows: Rows, node: int, name: string, v: int)
    requires Has(rows, node, name) && NonNegative(rows, name) && 0 <= v <= rows[node][name].available
    ensures var r := SetAvailable(rows, node, name, v);
      OnlyDrained(rows, r, name) && NonNegative(r, name)
  {
    hide SetAvailable;
    SetFrame(rows, node, name, v);
  }

  /** Draining changes only available figures of that resource, and never makes them negative. */
  lemma {:induction false} DrainFrame(rows: Rows, name: string, ids: seq<int>, r: int)
    requires NonNegative(rows, name) && r >= 0
    ensures var (d, left) := Drain(rows, name, ids, r);
      OnlyDrained(rows, d, name) && NonNegative(d, name) && 0 <= left <= r
    decreases ids
  {
    hide SetAvailable;
    if ids != [] && r != 0 {
      if ids[0] !in rows {
        DrainFrame(rows, name, ids[1..], r);
      } else if Has(rows, ids[0], name) {
        DrainStep(rows, name, ids, r);
        var free := rows[ids[0]][name].available;
        if r >= free {
          var empty := SetAvailable(rows, ids[0], name, 0);
          SetDrained(rows, ids[0], name, 0);
          DrainFrame(empty, name, ids[1..], r - free);
          DrainedTwice(rows, empty, Drain(empty, name, ids[1..], r - free).0, name);
        } else {
          SetDrained(rows, ids[0], name, free - r);
        }
      }
    }
  }

  /**
  Two requests on the same node list take the same from every node as one
  request of the summed size, whatever the list contains.
  */
  lemma {:induction false} DrainComposes(rows: Rows, name: string, ids: seq<int>, r1: int, r2: int)
    requires NonNegative(rows, name) && r1 >= 0 && r2 >= 0
    ensures Drain(Drain(rows, name, ids, r1).0, name, ids, r2).0 == Drain(rows, name, ids, r1 + r2).0
    decreases ids
  {
    hide SetAvailable;
    if ids == [] || r1 == 0 || r2 == 0 {
      DrainZero(rows, name, ids);
      DrainZero(Drain(rows, name, ids, r1).0, name, ids);
    } else {
      var node, rest := ids[0], ids[1..];
      DrainFrame(rows, name, ids, r1);
      if node !in rows {
        DrainComposes(rows, name, rest, r1, r2);
      } else if Has(rows, node, name) {
        var free := rows[node][name].available;
        if r1 >= free {
          SetFrame(rows, node, name, 0);
          DrainComposes(SetAvailable(rows, node, name, 0), name, rest, r1 - free, r2);
          ComposeEmptied(rows, name, ids, r1, r2);
        } else {
          ComposePart(rows, name, ids, r1, r2);
        }
      }
    }
  }

  /** The first request empties the first node, so the second passes over it. */
  lemma ComposeEmptied(rows: Rows, name: string, ids: seq<int>, r1: int, r2: int)
    requires NonNegative(rows, name) && ids != [] && Has(rows, ids[0], name)
    requires r1 >= rows[ids[0]][name].available && r2 >= 0
    ensures var free := rows[ids[0]][name].available;
      var empty := SetAvailable(rows, ids[0], name, 0);
      && Drain(Drain(rows, name, ids, r1).0, name, ids, r2)
         == Drain(Drain(empty, name, ids[1..], r1 - free).0, name, ids[1..], r2)
      && Drain(rows, name, ids, r1 + r2) == Drain(empty, name, ids[1..], r1 - free + r2)
  {
    hide SetAvailable;
    hide Drain;
    var node := ids[0];
    var free := rows[node][name].available;
    DrainStep(rows, name, ids, r1);
    DrainStep(rows, name, ids, r1 + r2);
    var empty := SetAvailable(rows, node, name, 0);
    SetFrame(rows, node, name, 0);
    DrainFrame(empty, name, ids[1..], r1 - free);
    var d := Drain(empty, name, ids[1..], r1 - free).0;
    assert Has(d, node, name) && d[node][name].available == 0;
    DrainStep(d, name, ids, r2);
    SetSame(d, node, name);
  }

  /** The first node satisfies the first request alone. */
  lemma ComposePart(rows: Rows, name: string, ids: seq<int>, r1: int, r2: int)
    requires NonNegative(rows, name) && ids != [] && Has(rows, ids[0], name)
    requires 0 <= r1 < rows[ids[0]][name].available && r2 >= 0
    ensures Drain(Drain(rows, name, ids, r1).0, name, ids, r2).0 == Drain(rows, name, ids, r1 + r2).0
  {
    hide SetAvailable;
    hide Drain;
    var node := ids[0];
    var free := rows[node][name].available;
    DrainStep(rows, name, ids, r1);
    DrainStep(rows, name, ids, r1 + r2);
    var part := SetAvailable(rows, node, name, free - r1);
    assert Has(part, node, name);
    DrainStep(part, name, ids, r2);
    SetTwice(rows, node, name, free - r1, 0);
    SetTwice(rows, node, name, free - r1, free - r1 - r2);
  }

  lemma DrainZero(rows: Rows, name: string, ids: seq<int>)
    ensures Drain(rows, name, ids, 0) == (rows, 0)
  {
  }

  lemma SetSame(rows: Rows, node: int, name: string)
    requires Has(rows, node, name)
    ensures SetAvailable(rows, node, name, rows[node][name].available) == rows
  {
    var row := rows[node][name];
    assert row.(available := row.available) == row;
    assert rows[node][name := row] == rows[node];
  }

  lemma SetTwice(rows: Rows, node: int, name: string, a: int, b: int)
    requires Has(rows, node, name)
    ensures SetAvailable(SetAvailable(rows, node, name, a), node, name, b) == SetAvailable(rows, node, name, b)
  {
    var once: Rows := SetAvailable(rows, node, name, a);
    var row: Row := rows[node][name];
    assert once[node][name := row.(available := b)] == rows[node][name := row.(available := b)];
  }

  // ----- How much is drained -----

  /** The nodes a request can draw on: known ones, up to the first that lacks the resource. */
  function Reachable(rows: Rows, name: string, ids: seq<int>): set<int> {
    if ids == [] then {}
    else if ids[0] !in rows then Reachable(rows, name, ids[1..])
    else if name !in rows[ids[0]] then {}
    else {ids[0]} + Reachable(rows, name, ids[1..])
  }

  ghost function Total(rows: Rows, name: string, nodes: set<int>): int {
    if nodes == {} then 0
    else
      var n := Any(nodes);
      Available(rows, n, name) + Total(rows, name, nodes - {n})
  }

  lemma {:induction false} TotalTake(rows: Rows, name: string, nodes: set<int>, k: int)
    requires k in nodes
    ensures Total(rows, name, nodes) == Available(rows, k, name) + Total(rows, name, nodes - {k})
    decreases nodes
  {
    var n := Any(nodes);
    if n != k {
      TotalTake(rows, name, nodes - {n}, k);
      TotalTake(rows, name, nodes - {k}, n);
      assert nodes - {n} - {k} == nodes - {k} - {n};
    }
  }

  lemma TotalNone(rows: Rows, name: string)
    ensures Total(rows, name, {}) == 0
  {
  }

  lemma {:induction false} TotalSame(rows: Rows, rows': Rows, name: string, nodes: set<int>)
    requires forall n | n in nodes :: Available(rows, n, name) == Available(rows', n, name)
    ensures Total(rows, name, nodes) == Total(rows', name, nodes)
    decreases nodes
  {
    if nodes != {} {
      var n := Any(nodes);
      TotalTake(rows, name, nodes, n);
      TotalTake(rows', name, nodes, n);
      TotalSame(rows, rows', name, nodes - {n});
    }
  }

  lemma {:induction false} TotalNonNegative(rows: Rows, name: string, nodes: set<int>)
    requires NonNegative(rows, name)
    ensures Total(rows, name, nodes) >= 0
    decreases nodes
  {
    if nodes != {} {
      var n := Any(nodes);
      TotalTake(rows, name, nodes, n);
      TotalNonNegative(rows, name, nodes - {n});
    }
  }

  lemma {:induction false} ReachableSame(rows: Rows, rows': Rows, name: string, ids: seq<int>)
    requires rows'.Keys == rows.Keys && forall n, m :: Has(rows', n, m) <==> Has(rows, n, m)
    ensures Reachable(rows', name, ids) == Reachable(rows, name, ids)
  {
    if ids != [] {
      ReachableSame(rows, rows', name, ids[1..]);
      assert Has(rows', ids[0], name) <==> Has(rows, ids[0], name);
    }
  }

  function Min(a: int, b: int): int {
    if a <= b then a else b
  }

  /**
  Exactly the minimum of the request and of what the distinct reachable nodes
  have is taken, from those nodes and no others, whatever unknown, repeated or
  exhausted nodes the list contains.
  */
  lemma {:induction false} DrainAmount(rows: Rows, name: string, ids: seq<int>, r: int)
    requires NonNegative(rows, name) && r >= 0
    ensures var (d, left) := Drain(rows, name, ids, r);
      var reach := Reachable(rows, name, ids);
      && r - left == Min(r, Total(rows, name, reach))
      && Total(d, name, reach) == Total(rows, name, reach) - (r - left)
      && (forall n | n !in reach :: Available(d, n, name) == Available(rows, n, name))
    decreases ids
  {
    hide SetAvailable;
    hide Total;
    var reach := Reachable(rows, name, ids);
    TotalNonNegative(rows, name, reach);
    TotalNone(rows, name);
    if ids != [] && r != 0 {
      var node, rest := ids[0], ids[1..];
      if node !in rows {
        DrainAmount(rows, name, rest, r);
      } else if Has(rows, node, name) {
        DrainStep(rows, name, ids, r);
        TotalTake(rows, name, reach, node);
        TotalNonNegative(rows, name, reach - {node});
        var free := rows[node][name].available;
        if r >= free {
          var empty := SetAvailable(rows, node, name, 0);
          SetFrame(rows, node, name, 0);
          DrainFrame(empty, name, rest, r - free);
          DrainAmount(empty, name, rest, r - free);
          ReachableSame(rows, empty, name, rest);
          DrainAmountEmptied(rows, empty, name, node, rest, r - free);
        } else {
          var part := SetAvailable(rows, node, name, free - r);
          SetFrame(rows, node, name, free - r);
          TotalTake(part, name, reach, node);
          TotalSame(rows, part, name, reach - {node});
        }
      }
    }
  }

  /** The first node has been emptied: the totals over all reachable nodes are those over the rest. */
  lemma DrainAmountEmptied(rows: Rows, empty: Rows, name: string, node: int, rest: seq<int>, r: int)
    requires Has(rows, node, name) && empty == SetAvailable(rows, node, name, 0)
    requires NonNegative(empty, name) && r >= 0
    ensures var reach := {node} + Reachable(rows, name, rest);
      var tail := Reachable(empty, name, rest);
      var d := Drain(empty, name, rest, r).0;
      && Total(rows, name, reach - {node}) == Total(empty, name, tail)
      && Total(d, name, reach) == Total(d, name, tail)
  {
    var tail := Reachable(empty, name, rest);
    SetFrame(rows, node, name, 0);
    ReachableSame(rows, empty, name, rest);
    DrainFrame(empty, name, rest, r);
    var d := Drain(empty, name, rest, r).0;
    var reach := {node} + tail;
    TotalSame(rows, empty, name, reach - {node});
    TotalTake(d, name, reach, node);
    assert Available(d, node, name) == 0;
    if node in tail {
      assert reach == tail;
      TotalTake(empty, name, tail, node);
    } else {
      assert reach - {node} == tail;
    }
  }

  /** Nodes are emptied in the order of the list: one that was drawn on leaves none before it with memory. */
  lemma {:induction false} DrainInOrder(rows: Rows, name: string, ids: seq<int>, r: int, i: nat, n: int)
    requires NonNegative(rows, name) && r >= 0
    requires i < |ids| && Has(rows, ids[i], name) && forall j | 0 <= j <= i :: ids[j] != n
    requires Available(Drain(rows, name, ids, r).0, n, name) != Available(rows, n, name)
    ensures Available(Drain(rows, name, ids, r).0, ids[i], name) == 0
    decreases ids
  {
    hide SetAvailable;
    hide OnlyDrained;
    hide NonNegative;
    var node, rest := ids[0], ids[1..];
    assert forall j | 0 <= j < i :: rest[j] == ids[j + 1];
    DrainZero(rows, name, ids);
    if node !in rows {
      DrainInOrder(rows, name, rest, r, i - 1, n);
    } else {
      assert Has(rows, node, name);
      DrainHead(rows, name, ids, r, n);
      var free := rows[node][name].available;
      var empty := SetAvailable(rows, node, name, 0);
      if ids[i] != node {
        SetDrained2(rows, node, name, ids[i], n);
        DrainInOrder(empty, name, rest, r - free, i - 1, n);
      }
    }
  }

  /** If a node other than the first was drawn on, the first one has been emptied. */
  lemma DrainHead(rows: Rows, name: string, ids: seq<int>, r: int, n: int)
    requires NonNegative(rows, name) && r >= 0 && ids != [] && n != ids[0] && Has(rows, ids[0], name)
    requires Available(Drain(rows, name, ids, r).0, n, name) != Available(rows, n, name)
    ensures r >= rows[ids[0]][name].available
    ensures var empty := SetAvailable(rows, ids[0], name, 0);
      && Drain(rows, name, ids, r) == Drain(empty, name, ids[1..], r - rows[ids[0]][name].available)
      && NonNegative(empty, name)
    ensures Available(Drain(rows, name, ids, r).0, ids[0], name) == 0
  {
    hide SetAvailable;
    hide Drain;
    DrainStep(rows, name, ids, r);
    var free := rows[ids[0]][name].available;
    SetFrame(rows, ids[0], name, free - r);
    SetDrained(rows, ids[0], name, 0);
    if r >= free {
      DrainFrame(SetAvailable(rows, ids[0], name, 0), name, ids[1..], r - free);
    }
  }

  lemma SetDrained2(rows: Rows, node: int, name: string, a: int, b: int)
    requires Has(rows, node, name) && a != node && b != node
    ensures var r := SetAvailable(rows, node, name, 0);
      && (Has(r, a, name) <==> Has(rows, a, name))
      && Available(r, b, name) == Available(rows, b, name)
  {
  }
}
