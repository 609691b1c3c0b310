/**
The node object at the API server: a patch list is applied as a whole, in the
order given, or rejected with the object unchanged.
*/
module NodeApi {
  import opened Basics
  import opened Names
  import opened Patches

  datatype Node = Node(labels: Items, annotations: Items, capacity: Items, allocatable: Items)

  function Get(n: Node, sec: Section): Items {
    match sec
    case Labels => n.labels
    case Annotations => n.annotations
    case Capacity => n.capacity
    case Allocatable => n.allocatable
  }

  function Put(n: Node, sec: Section, m: Items): Node {
    match sec
    case Labels => n.(labels := m)
    case Annotations => n.(annotations := m)
    case Capacity => n.(capacity := m)
    case Allocatable => n.(allocatable := m)
  }

  /** An operation on a section, before it is put into JSON form. */
  datatype Change = Change(sec: Section, op: Op)

  function ToJson(c: Change): JsonPatch {
    NewJsonPatch(c.op.verb, c.sec, c.op.key, c.op.value)
  }

  function ApplyChange(n: Node, c: Change): Option<Node> {
    match ApplyOp(Get(n, c.sec), c.op)
    case None => None
    case Some(m) => Some(Put(n, c.sec, m))
  }

  function ApplyChanges(n: Node, cs: seq<Change>): Option<Node>
    decreases cs
  {
    if cs == [] then Some(n)
    else
      match ApplyChange(n, cs[0])
      case None => None
      case Some(n') => ApplyChanges(n', cs[1..])
  }

  function ApplyJson(n: Node, p: JsonPatch): Option<Node> {
    match Resolve(p.path)
    case None => None
    case Some((sec, key)) => ApplyChange(n, Change(sec, Op(p.verb, key, p.value)))
  }

  function ApplyJsonList(n: Node, ps: seq<JsonPatch>): Option<Node>
    decreases ps
  {
    if ps == [] then Some(n)
    else
      match ApplyJson(n, ps[0])
      case None => None
      case Some(n') => ApplyJsonList(n', ps[1..])
  }

  function ToJsonList(cs: seq<Change>): (ps: seq<JsonPatch>)
    ensures |ps| == |cs| && forall i | 0 <= i < |cs| :: ps[i] == ToJson(cs[i])
  {
    seq(|cs|, i requires 0 <= i < |cs| => ToJson(cs[i]))
  }

  /** With validated keys, the JSON list does at the server what the changes say. */
  lemma {:induction false} JsonFaithful(n: Node, cs: seq<Change>)
    requires forall c | c in cs :: TrackableKey(c.op.key)
    ensures ApplyJsonList(n, ToJsonList(cs)) == ApplyChanges(n, cs)
    decreases cs
  {
    hide TrackableKey;
    hide Resolve;
    hide ApplyChange;
    hide PointerJoin;
    if cs != [] {
      assert cs[0] in cs;
      ValidatedPointer(cs[0].sec, cs[0].op.key);
      assert ToJsonList(cs)[1..] == ToJsonList(cs[1..]);
      match ApplyChange(n, cs[0])
      case None =>
      case Some(n') => JsonFaithful(n', cs[1..]);
    }
  }

  /** The operations of a list that fall on one section, in order. */
  function OpsOn(cs: seq<Change>, sec: Section): seq<Op> {
    if cs == [] then []
    else (if cs[0].sec == sec then [cs[0].op] else []) + OpsOn(cs[1..], sec)
  }

  /** A list applies exactly when its operations apply section by section. */
  lemma {:induction false} SectionWise(n: Node, cs: seq<Change>)
    ensures ApplyChanges(n, cs).Some? <==> forall sec :: ApplyOps(Get(n, sec), OpsOn(cs, sec)).Some?
    ensures ApplyChanges(n, cs).Some? ==>
      forall sec :: ApplyOps(Get(n, sec), OpsOn(cs, sec)) == Some(Get(ApplyChanges(n, cs).value, sec))
    decreases cs
  {
    hide ApplyOp;
    if cs != [] {
      var c := cs[0];
      forall sec ensures OpsOn(cs, sec) == if sec == c.sec then [c.op] + OpsOn(cs[1..], sec) else OpsOn(cs[1..], sec) {
      }
      assert ([c.op] + OpsOn(cs[1..], c.sec))[1..] == OpsOn(cs[1..], c.sec);
      match ApplyChange(n, c)
      case None =>
        assert ApplyOps(Get(n, c.sec), OpsOn(cs, c.sec)) == None;
      case Some(n') =>
        forall sec ensures ApplyOps(Get(n, sec), OpsOn(cs, sec)) == ApplyOps(Get(n', sec), OpsOn(cs[1..], sec)) {
        }
        SectionWise(n', cs[1..]);
    }
  }

  function OnSection(sec: Section, ops: seq<Op>): (cs: seq<Change>)
    ensures |cs| == |ops| && forall i | 0 <= i < |ops| :: cs[i] == Change(sec, ops[i])
  {
    seq(|ops|, i requires 0 <= i < |ops| => Change(sec, ops[i]))
  }

  lemma {:induction false} OpsOnSection(sec: Section, ops: seq<Op>, other: Section)
    ensures OpsOn(OnSection(sec, ops), other) == if other == sec then ops else []
    decreases ops
  {
    if ops != [] {
      assert OnSection(sec, ops)[1..] == OnSection(sec, ops[1..]);
      OpsOnSection(sec, ops[1..], other);
      assert [ops[0]] + ops[1..] == ops;
    }
  }

  function OpFor(c: Change, sec: Section): seq<Op> {
    if c.sec == sec then [c.op] else []
  }

  lemma OpsOnCons(c: Change, cs: seq<Change>, sec: Section)
    ensures OpsOn([], sec) == [] && OpsOn([c] + cs, sec) == OpFor(c, sec) + OpsOn(cs, sec)
  {
    assert ([c] + cs)[1..] == cs;
  }

  lemma {:induction false} OpsOnConcat(a: seq<Change>, b: seq<Change>, sec: Section)
    ensures OpsOn(a + b, sec) == OpsOn(a, sec) + OpsOn(b, sec)
    decreases a
  {
    hide OpsOn;
    hide OpFor;
    if a == [] {
      OpsOnCons(Change(sec, Op(Remove, "", "")), [], sec);
      assert a + b == b && OpsOn(b, sec) == [] + OpsOn(b, sec);
    } else {
      assert a + b == [a[0]] + (a[1..] + b) && a == [a[0]] + a[1..];
      OpsOnCons(a[0], a[1..] + b, sec);
      OpsOnCons(a[0], a[1..], sec);
      OpsOnConcat(a[1..], b, sec);
    }
  }

  /**
  The server side of one node. A call may fail for any reason, in which case
  nothing changes; otherwise the patch list decides.
  */
  class ApiServer {
    var node: Node

    constructor (n: Node)
      ensures node == n
    {
      node := n;
    }

    method Patch(patches: seq<JsonPatch>, fails: bool, status: bool) returns (ok: bool)
      modifies this
      ensures ok == (!fails && ApplyJsonList(old(node), patches).Some?)
      ensures node == if ok then Settle(ApplyJsonList(old(node), patches).value, status) else old(node)
    {
      var r := ApplyJsonList(node, patches);
      ok := !fails && r.Some?;
      if ok {
        node := Settle(r.value, status);
      }
    }
  }

  /** After a status patch, a resource added to the capacity shows up as allocatable too. */
  function Settle(n: Node, status: bool): Node {
    if status then n.(allocatable := n.capacity + n.allocatable) else n
  }
}
