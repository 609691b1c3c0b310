/**
How update requests reach the workers: the controller's channels, the update
handler with its rate-limited batches, the work queue of the updater pool and
the workers that drain it. The queue follows the contract of client-go's
workqueue: an item is handed to one worker at a time, and an item added while
it is being processed is queued again afterwards.

A single request for one node is followed through the system. Its token says
where it is; it becomes Lost if the place it was in is emptied without handing
it on.
*/
module Scheduler {
  import opened Basics

  const MAX_REQUEUES := 15

  type NodeName = string

  datatype Worker =
    | Idle
    | Updating(node: NodeName)
    | Failed(node: NodeName)      // the update returned an error
    | Retrying(node: NodeName)    // NumRequeues was below the limit
    | Forgetting(node: NodeName)  // done with the item, one way or the other
    | Finishing(node: NodeName)   // the deferred Done is left

  datatype Handler =
    | Selecting
    | Adding(rest: seq<NodeName>)  // inside the rate limit branch, these still to be added

  datatype Token =
    | NoRequest
    | AtSender | InSlot | InUpdateAll | InUpdateNodes | InBatch | InQueue | InProgress | InBackoff
    | Processed | GivenUp | NotListed
    | Lost

  datatype State = State(
    // nfdController
    sender: Option<NodeName>,      // an event handler blocked on updateOneNodeChan
    slot: bool,                    // updateAllNodesChan, capacity one
    // nfdAPIUpdateHandler
    handler: Handler,
    updateAll: bool,
    updateNodes: set<NodeName>,
    // the work queue
    queue: seq<NodeName>,
    dirty: set<NodeName>,
    processing: set<NodeName>,
    backoff: set<NodeName>,        // added with AddRateLimited, delay not over
    failures: map<NodeName, nat>,
    // the pool
    workers: seq<Worker>,
    token: Token)

  datatype Event =
    | NotifyOne(node: NodeName, tracked: bool)
    | NotifyAll(tracked: bool)
    | ReceiveOne
    | ReceiveAll
    | ListFails
    | ListNodes(nodes: seq<NodeName>)
    | Batch(order: seq<NodeName>)
    | AddNext
    | Reset
    | Take(worker: nat)
    | UpdateOk(worker: nat)
    | UpdateError(worker: nat)
    | Check(worker: nat)
    | Requeue(worker: nat)
    | Forget(worker: nat)
    | Done(worker: nat)
    | DelayOver(node: NodeName)

  function NumRequeues(s: State, n: NodeName): nat {
    if n in s.failures then s.failures[n] else 0
  }

  /** workqueue.Add */
  function QueueAdd(s: State, n: NodeName): State {
    if n in s.dirty then s
    else if n in s.processing then s.(dirty := s.dirty + {n})
    else s.(dirty := s.dirty + {n}, queue := s.queue + [n])
  }

  function SetWorker(s: State, w: nat, k: Worker): State
    requires w < |s.workers|
  {
    s.(workers := s.workers[w := k])
  }

  /** The token moves from one place to the next if it concerns node t. */
  function Move(s: State, from: Token, to: Token, concerned: bool): State {
    if s.token == from && concerned then s.(token := to) else s
  }

  predicate WorkerIn(s: State, w: nat, e: Event) {
    && w < |s.workers|
    && match e
       case Take(_) => s.workers[w].Idle? && s.queue != []
       case UpdateOk(_) => s.workers[w].Updating?
       case UpdateError(_) => s.workers[w].Updating?
       case Check(_) => s.workers[w].Failed?
       case Requeue(_) => s.workers[w].Retrying?
       case Forget(_) => s.workers[w].Forgetting?
       case Done(_) => s.workers[w].Finishing?
       case _ => false
  }

  predicate Enabled(s: State, e: Event) {
    match e
    case NotifyOne(_, _) => s.sender.None?
    case NotifyAll(_) => true
    case ReceiveOne => s.handler.Selecting? && s.sender.Some?
    case ReceiveAll => s.handler.Selecting? && s.slot
    case ListFails => s.handler.Selecting? && s.updateAll
    case ListNodes(_) => s.handler.Selecting? && s.updateAll
    case Batch(order) => s.handler.Selecting? && !s.updateAll && Elems(order) == s.updateNodes
    case AddNext => s.handler.Adding? && s.handler.rest != []
    case Reset => s.handler.Adding? && s.handler.rest == []
    case DelayOver(n) => n in s.backoff
    case _ => WorkerIn(s, e.worker, e)
  }

  // ----- The steps -----

  function ListNodesOf(t: NodeName, s: State, nodes: seq<NodeName>): State {
    var to := if t in nodes then InBatch else NotListed;
    Move(Move(s.(handler := Adding(nodes)), InUpdateAll, to, true), InUpdateNodes, to, true)
  }

  function BatchOf(t: NodeName, s: State, order: seq<NodeName>): State {
    Move(s.(handler := Adding(order)), InUpdateNodes, if t in order then InBatch else Lost, true)
  }

  function AddNextOf(t: NodeName, s: State): State
    requires s.handler.Adding? && s.handler.rest != []
  {
    var n := s.handler.rest[0];
    Move(QueueAdd(s, n).(handler := Adding(s.handler.rest[1..])), InBatch, InQueue, n == t)
  }

  function ResetOf(s: State): State {
    var s' := s.(handler := Selecting, updateAll := false, updateNodes := {});
    if s.token in {InUpdateAll, InUpdateNodes, InBatch} then s'.(token := Lost) else s'
  }

  function DelayOverOf(t: NodeName, s: State, n: NodeName): State {
    Move(QueueAdd(s.(backoff := s.backoff - {n}), n), InBackoff, InQueue, n == t)
  }

  function TakeOf(t: NodeName, s: State, w: nat): State
    requires w < |s.workers| && s.queue != []
  {
    var n := s.queue[0];
    var s' := s.(queue := s.queue[1..], dirty := s.dirty - {n}, processing := s.processing + {n});
    Move(SetWorker(s', w, Updating(n)), InQueue, InProgress, n == t)
  }

  function UpdateOkOf(t: NodeName, s: State, w: nat): State
    requires w < |s.workers| && s.workers[w].Updating?
  {
    var n := s.workers[w].node;
    Move(SetWorker(s, w, Forgetting(n)), InProgress, Processed, n == t)
  }

  function CheckOf(t: NodeName, s: State, w: nat): State
    requires w < |s.workers| && s.workers[w].Failed?
  {
    var n := s.workers[w].node;
    if NumRequeues(s, n) < MAX_REQUEUES then SetWorker(s, w, Retrying(n))
    else Move(SetWorker(s, w, Forgetting(n)), InProgress, GivenUp, n == t)
  }

  function RequeueOf(t: NodeName, s: State, w: nat): State
    requires w < |s.workers| && s.workers[w].Retrying?
  {
    var n := s.workers[w].node;
    var s' := s.(failures := s.failures[n := NumRequeues(s, n) + 1], backoff := s.backoff + {n});
    Move(SetWorker(s', w, Finishing(n)), InProgress, InBackoff, n == t)
  }

  function ForgetOf(s: State, w: nat): State
    requires w < |s.workers| && s.workers[w].Forgetting?
  {
    var n := s.workers[w].node;
    SetWorker(s, w, Finishing(n)).(failures := s.failures - {n})
  }

  function DoneOf(s: State, w: nat): State
    requires w < |s.workers| && s.workers[w].Finishing?
  {
    var n := s.workers[w].node;
    var s' := SetWorker(s, w, Idle).(processing := s.processing - {n});
    if n in s.dirty then s'.(queue := s.queue + [n]) else s'
  }

  function Step(t: NodeName, s: State, e: Event): State
    requires Enabled(s, e)
  {
    match e
    case NotifyOne(n, tracked) =>
      Move(s.(sender := Some(n)), NoRequest, AtSender, tracked && n == t)
    case NotifyAll(tracked) =>
      // a send into the full slot is dropped: the slot already holds a request for all nodes
      Move(s.(slot := true), NoRequest, InSlot, tracked)
    case ReceiveOne =>
      Move(s.(sender := None, updateNodes := s.updateNodes + {s.sender.value}), AtSender, InUpdateNodes, true)
    case ReceiveAll =>
      Move(s.(slot := false, updateAll := true), InSlot, InUpdateAll, true)
    case ListFails =>
      Move(s.(updateAll := true, updateNodes := {}), InUpdateNodes, InUpdateAll, true)
    case ListNodes(nodes) => ListNodesOf(t, s, nodes)
    case Batch(order) => BatchOf(t, s, order)
    case AddNext => AddNextOf(t, s)
    case Reset => ResetOf(s)
    case DelayOver(n) => DelayOverOf(t, s, n)
    case Take(w) => TakeOf(t, s, w)
    case UpdateOk(w) => UpdateOkOf(t, s, w)
    case UpdateError(w) => SetWorker(s, w, Failed(s.workers[w].node))
    case Check(w) => CheckOf(t, s, w)
    case Requeue(w) => RequeueOf(t, s, w)
    case Forget(w) => ForgetOf(s, w)
    case Done(w) => DoneOf(s, w)
  }

  ghost predicate Legal(t: NodeName, s: State, es: seq<Event>)
    decreases es
  {
    es != [] ==> Enabled(s, es[0]) && Legal(t, Step(t, s, es[0]), es[1..])
  }

  ghost function Run(t: NodeName, s: State, es: seq<Event>): State
    requires Legal(t, s, es)
    decreases es
  {
    if es == [] then s else Run(t, Step(t, s, es[0]), es[1..])
  }

  /** The start of a pool with the given parallelism. */
  function Initial(updateAll: bool, parallelism: nat): State {
    State(None, false, Selecting, updateAll, {}, [], {}, {}, {}, map[], seq(parallelism, _ => Idle), NoRequest)
  }

  // ----- The invariant -----

  predicate Busy(k: Worker) {
    !k.Idle?
  }

  /** Each node in processing is held by exactly one worker. */
  ghost predicate Exclusive(s: State) {
    && (forall i | 0 <= i < |s.workers| && Busy(s.workers[i]) :: s.workers[i].node in s.processing)
    && (forall i, j | 0 <= i < j < |s.workers| && Busy(s.workers[i]) && Busy(s.workers[j]) ::
          s.workers[i].node != s.workers[j].node)
    && (forall n | n in s.processing :: Held(s, n))
  }

  ghost predicate Held(s: State, n: NodeName) {
    exists i :: 0 <= i < |s.workers| && Busy(s.workers[i]) && s.workers[i].node == n
  }

  /** The queue holds the dirty nodes that are not in processing, each once. */
  ghost predicate QueueExact(s: State) {
    NoDuplicates(s.queue) && Elems(s.queue) == s.dirty - s.processing
  }

  ghost predicate RequeuesBounded(s: State) {
    && (forall n | n in s.failures :: s.failures[n] <= MAX_REQUEUES)
    && (forall i | 0 <= i < |s.workers| && s.workers[i].Retrying? :: NumRequeues(s, s.workers[i].node) < MAX_REQUEUES)
  }

  /** The request is where its token says. */
  ghost predicate Located(t: NodeName, s: State) {
    match s.token
    case AtSender => s.sender == Some(t)
    case InSlot => s.slot
    case InUpdateAll => s.handler.Selecting? && s.updateAll
    case InUpdateNodes => s.handler.Selecting? && t in s.updateNodes
    case InBatch => s.handler.Adding? && t in s.handler.rest
    case InQueue => t in s.dirty
    case InProgress => exists i :: 0 <= i < |s.workers| && InHand(s.workers[i], t)
    case InBackoff => t in s.backoff
    case Lost => false
    case _ => true
  }

  /** The worker is still to decide about its node. */
  predicate InHand(k: Worker, t: NodeName) {
    (k.Updating? || k.Failed? || k.Retrying?) && k.node == t
  }

  ghost predicate Invariant(t: NodeName, s: State) {
    Exclusive(s) && QueueExact(s) && RequeuesBounded(s) && Located(t, s)
  }

  lemma InitialInvariant(t: NodeName, updateAll: bool, parallelism: nat)
    ensures Invariant(t, Initial(updateAll, parallelism))
  {
  }

  lemma QueueAddKeeps(s: State, n: NodeName)
    requires Exclusive(s) && QueueExact(s) && RequeuesBounded(s)
    ensures var s' := QueueAdd(s, n);
      && Exclusive(s') && QueueExact(s') && RequeuesBounded(s') && n in s'.dirty && s.dirty <= s'.dirty
  {
    if n !in s.dirty && n !in s.processing {
      assert n !in s.queue by { assert n in s.queue ==> n in Elems(s.queue); }
      assert Elems(s.queue + [n]) == Elems(s.queue) + {n};
    }
    assert forall k :: Held(s, k) ==> Held(QueueAdd(s, n), k);
  }

  predicate HandlerEvent(e: Event) {
    || e.NotifyOne? || e.NotifyAll? || e.ReceiveOne? || e.ReceiveAll?
    || e.ListFails? || e.ListNodes? || e.Batch? || e.Reset?
  }

  /** The workers and the queue are the same in both states. */
  predicate SamePool(s: State, s': State) {
    && s'.workers == s.workers && s'.queue == s.queue && s'.dirty == s.dirty
    && s'.processing == s.processing && s'.failures == s.failures && s'.backoff == s.backoff
  }

  lemma SamePoolKeeps(s: State, s': State)
    requires SamePool(s, s') && Exclusive(s) && QueueExact(s) && RequeuesBounded(s)
    ensures Exclusive(s') && QueueExact(s') && RequeuesBounded(s')
  {
    assert forall n :: Held(s, n) ==> Held(s', n);
  }

  lemma HandlerKeeps(t: NodeName, s: State, e: Event)
    requires Invariant(t, s) && Enabled(s, e) && HandlerEvent(e)
    ensures Invariant(t, Step(t, s, e))
  {
    hide Exclusive;
    hide QueueExact;
    hide RequeuesBounded;
    var s' := Step(t, s, e);
    assert SamePool(s, s');
    SamePoolKeeps(s, s');
    if e.Batch? && s.token.InUpdateNodes? {
      assert t in Elems(e.order);
    }
  }

  /** What adding the next node of a batch changes. */
  lemma AddNextEffect(t: NodeName, s: State)
    requires Enabled(s, AddNext)
    ensures var s', rest := Step(t, s, AddNext), s.handler.rest;
      && s' == QueueAdd(s, rest[0]).(handler := Adding(rest[1..]), token := s'.token)
      && s'.token == (if s.token.InBatch? && rest[0] == t then InQueue else s.token)
      && s' == s.(handler := Adding(rest[1..]), token := s'.token, queue := s'.queue, dirty := s'.dirty)
  {
  }

  lemma AddNextKeeps(t: NodeName, s: State)
    requires Invariant(t, s) && Enabled(s, AddNext)
    ensures Invariant(t, Step(t, s, AddNext))
  {
    hide Exclusive;
    hide QueueExact;
    hide RequeuesBounded;
    hide Step;
    hide QueueAdd;
    var rest := s.handler.rest;
    AddNextEffect(t, s);
    QueueAddKeeps(s, rest[0]);
    SamePoolKeeps(QueueAdd(s, rest[0]), Step(t, s, AddNext));
    BehindTheFirst(rest, t);
  }

  lemma BehindTheFirst(rest: seq<NodeName>, t: NodeName)
    requires rest != []
    ensures t in rest && rest[0] != t ==> t in rest[1..]
  {
    if t in rest && rest[0] != t {
      var i :| 0 <= i < |rest| && rest[i] == t;
      assert rest[1..][i - 1] == t;
    }
  }

  lemma DelayOverKeeps(t: NodeName, s: State, n: NodeName)
    requires Invariant(t, s) && Enabled(s, DelayOver(n))
    ensures Invariant(t, Step(t, s, DelayOver(n)))
  {
    hide Exclusive;
    hide QueueExact;
    hide RequeuesBounded;
    var s1 := s.(backoff := s.backoff - {n});
    BackoffIrrelevant(s, s1);
    QueueAddKeeps(s1, n);
    var s' := Step(t, s, DelayOver(n));
    SamePoolKeeps(QueueAdd(s1, n), s');
  }

  lemma BackoffIrrelevant(s: State, s1: State)
    requires s1 == s.(backoff := s1.backoff) && Exclusive(s) && QueueExact(s) && RequeuesBounded(s)
    ensures Exclusive(s1) && QueueExact(s1) && RequeuesBounded(s1)
  {
    assert forall n :: Held(s, n) ==> Held(s1, n);
  }

  /** A busy worker that goes on with the same node leaves the ownership as it was. */
  lemma SameNodeExclusive(s: State, s': State, w: nat)
    requires Exclusive(s) && w < |s.workers| && Busy(s.workers[w])
    requires |s'.workers| == |s.workers| && s'.processing == s.processing
    requires Busy(s'.workers[w]) && s'.workers[w].node == s.workers[w].node
    requires forall i | 0 <= i < |s.workers| && i != w :: s'.workers[i] == s.workers[i]
    ensures Exclusive(s')
  {
    forall n | n in s'.processing ensures Held(s', n) {
      assert Held(s, n);
      var i :| 0 <= i < |s.workers| && Busy(s.workers[i]) && s.workers[i].node == n;
      assert Busy(s'.workers[i]) && s'.workers[i].node == n;
    }
  }

  /** The request stays in hand while another worker, or the same one, goes on. */
  lemma StillInHand(t: NodeName, s: State, s': State, w: nat)
    requires w < |s.workers| && s.token.InProgress? && Located(t, s)
    requires |s'.workers| == |s.workers| && s'.token == s.token
    requires forall i | 0 <= i < |s.workers| && i != w :: s'.workers[i] == s.workers[i]
    requires InHand(s.workers[w], t) ==> InHand(s'.workers[w], t)
    ensures Located(t, s')
  {
    var i :| 0 <= i < |s.workers| && InHand(s.workers[i], t);
    assert InHand(s'.workers[i], t);
  }

  /** Only worker w changed. */
  ghost predicate OnlyWorker(s: State, s': State, w: nat) {
    && w < |s.workers| == |s'.workers|
    && forall i | 0 <= i < |s.workers| && i != w :: s'.workers[i] == s.workers[i]
  }

  lemma RequeuesStayBounded(s: State, s': State, w: nat)
    requires RequeuesBounded(s) && OnlyWorker(s, s', w) && s'.failures == s.failures
    requires s'.workers[w].Retrying? ==> NumRequeues(s, s'.workers[w].node) < MAX_REQUEUES
    ensures RequeuesBounded(s')
  {
  }

  lemma SameQueue(s: State, s': State)
    requires QueueExact(s) && s'.queue == s.queue && s'.dirty == s.dirty && s'.processing == s.processing
    ensures QueueExact(s')
  {
  }

  lemma TakeExclusive(s: State, s': State, w: nat, n: NodeName)
    requires Exclusive(s) && OnlyWorker(s, s', w) && s.workers[w].Idle? && n !in s.processing
    requires s'.workers[w] == Updating(n) && s'.processing == s.processing + {n}
    ensures Exclusive(s')
  {
    forall m | m in s'.processing ensures Held(s', m) {
      if m == n {
        assert Busy(s'.workers[w]) && s'.workers[w].node == m;
      } else {
        assert Held(s, m);
        var i :| 0 <= i < |s.workers| && Busy(s.workers[i]) && s.workers[i].node == m;
        assert Busy(s'.workers[i]) && s'.workers[i].node == m;
      }
    }
  }

  lemma TakeKeeps(t: NodeName, s: State, w: nat)
    requires Invariant(t, s) && Enabled(s, Take(w))
    ensures Invariant(t, Step(t, s, Take(w)))
  {
    hide Exclusive;
    hide RequeuesBounded;
    var n := s.queue[0];
    var s' := Step(t, s, Take(w));
    assert n in Elems(s.queue);
    TakeQueue(s, s', n);
    TakeExclusive(s, s', w, n);
    RequeuesStayBounded(s, s', w);
    if s.token.InProgress? {
      StillInHand(t, s, s', w);
    } else if s'.token.InProgress? {
      assert InHand(s'.workers[w], t);
    }
  }

  lemma TakeQueue(s: State, s': State, n: NodeName)
    requires QueueExact(s) && s.queue != [] && n == s.queue[0]
    requires s'.queue == s.queue[1..] && s'.dirty == s.dirty - {n} && s'.processing == s.processing + {n}
    ensures QueueExact(s')
  {
    var q := s.queue;
    forall i, j | 0 <= i < j < |q[1..]| ensures q[1..][i] != q[1..][j] {
      assert q[1..][i] == q[i + 1] && q[1..][j] == q[j + 1];
    }
    assert n !in q[1..];
    assert q == [n] + q[1..];
    assert Elems(q) == {n} + Elems(q[1..]);
  }

  lemma UpdateKeeps(t: NodeName, s: State, e: Event)
    requires Invariant(t, s) && Enabled(s, e) && (e.UpdateOk? || e.UpdateError?)
    ensures Invariant(t, Step(t, s, e))
  {
    hide Exclusive;
    hide RequeuesBounded;
    hide QueueExact;
    var w := e.worker;
    var s' := Step(t, s, e);
    SameNodeExclusive(s, s', w);
    SameQueue(s, s');
    RequeuesStayBounded(s, s', w);
    if s.token.InProgress? && s'.token.InProgress? {
      StillInHand(t, s, s', w);
    }
  }

  lemma CheckKeeps(t: NodeName, s: State, w: nat)
    requires Invariant(t, s) && Enabled(s, Check(w))
    ensures Invariant(t, Step(t, s, Check(w)))
  {
    hide Exclusive;
    hide RequeuesBounded;
    hide QueueExact;
    var s' := Step(t, s, Check(w));
    SameNodeExclusive(s, s', w);
    SameQueue(s, s');
    RequeuesStayBounded(s, s', w);
    if s.token.InProgress? && s'.token.InProgress? {
      StillInHand(t, s, s', w);
    }
  }

  /** The count of a node changes only at the worker that holds it. */
  lemma CountStaysBounded(s: State, s': State, w: nat, n: NodeName)
    requires Exclusive(s) && RequeuesBounded(s) && OnlyWorker(s, s', w)
    requires Busy(s.workers[w]) && s.workers[w].node == n && s'.workers[w] == Finishing(n)
    requires (s.workers[w].Retrying? && s'.failures == s.failures[n := NumRequeues(s, n) + 1])
          || s'.failures == s.failures - {n}
    ensures RequeuesBounded(s')
  {
    forall i | 0 <= i < |s'.workers| && s'.workers[i].Retrying?
      ensures NumRequeues(s', s'.workers[i].node) < MAX_REQUEUES
    {
      assert i != w && s'.workers[i] == s.workers[i] && Busy(s.workers[i]);
      assert s.workers[i].node != n;
    }
  }

  lemma RequeueKeeps(t: NodeName, s: State, e: Event)
    requires Invariant(t, s) && Enabled(s, e) && (e.Requeue? || e.Forget?)
    ensures Invariant(t, Step(t, s, e))
  {
    hide Exclusive;
    hide RequeuesBounded;
    hide QueueExact;
    var w := e.worker;
    var s' := Step(t, s, e);
    SameNodeExclusive(s, s', w);
    SameQueue(s, s');
    CountStaysBounded(s, s', w, s.workers[w].node);
    if s.token.InProgress? && s'.token.InProgress? {
      StillInHand(t, s, s', w);
    }
  }

  lemma DoneKeeps(t: NodeName, s: State, w: nat)
    requires Invariant(t, s) && Enabled(s, Done(w))
    ensures Invariant(t, Step(t, s, Done(w)))
  {
    hide RequeuesBounded;
    var n := s.workers[w].node;
    var s' := Step(t, s, Done(w));
    RequeuesStayBounded(s, s', w);
    DoneQueue(s, s', n);
    DoneExclusive(s, s', w);
    if s.token.InProgress? {
      StillInHand(t, s, s', w);
    }
  }

  lemma DoneQueue(s: State, s': State, n: NodeName)
    requires QueueExact(s) && n in s.processing
    requires s'.dirty == s.dirty && s'.processing == s.processing - {n}
    requires s'.queue == if n in s.dirty then s.queue + [n] else s.queue
    ensures QueueExact(s')
  {
    assert n !in s.queue by { assert n in s.queue ==> n in Elems(s.queue); }
    assert Elems(s.queue + [n]) == Elems(s.queue) + {n};
  }

  lemma DoneExclusive(s: State, s': State, w: nat)
    requires Exclusive(s) && w < |s.workers| && Busy(s.workers[w])
    requires s'.workers == s.workers[w := Idle] && s'.processing == s.processing - {s.workers[w].node}
    ensures Exclusive(s')
  {
    forall m | m in s'.processing ensures Held(s', m) {
      assert Held(s, m);
      var i :| 0 <= i < |s.workers| && Busy(s.workers[i]) && s.workers[i].node == m;
      assert i != w && s'.workers[i] == s.workers[i];
    }
  }

  lemma StepKeeps(t: NodeName, s: State, e: Event)
    requires Invariant(t, s) && Enabled(s, e)
    ensures Invariant(t, Step(t, s, e))
  {
    hide Invariant;
    hide Step;
    if HandlerEvent(e) {
      HandlerKeeps(t, s, e);
    } else if e.AddNext? {
      AddNextKeeps(t, s);
    } else if e.DelayOver? {
      DelayOverKeeps(t, s, e.node);
    } else if e.Take? {
      TakeKeeps(t, s, e.worker);
    } else if e.UpdateOk? || e.UpdateError? {
      UpdateKeeps(t, s, e);
    } else if e.Check? {
      CheckKeeps(t, s, e.worker);
    } else if e.Requeue? || e.Forget? {
      RequeueKeeps(t, s, e);
    } else {
      DoneKeeps(t, s, e.worker);
    }
  }

  lemma {:induction false} RunKeeps(t: NodeName, s: State, es: seq<Event>)
    requires Invariant(t, s) && Legal(t, s, es)
    ensures Invariant(t, Run(t, s, es))
    decreases es
  {
    hide Invariant;
    hide Step;
    hide Enabled;
    if es != [] {
      StepKeeps(t, s, es[0]);
      RunKeeps(t, Step(t, s, es[0]), es[1..]);
    }
  }

  // ----- What holds in every run -----

  /** In no run is a request lost: until it is resolved it is in the place its token names. */
  lemma NoRequestLost(t: NodeName, updateAll: bool, parallelism: nat, es: seq<Event>)
    requires Legal(t, Initial(updateAll, parallelism), es)
    ensures var s := Run(t, Initial(updateAll, parallelism), es);
      s.token != Lost && Located(t, s)
  {
    InitialInvariant(t, updateAll, parallelism);
    RunKeeps(t, Initial(updateAll, parallelism), es);
  }

  /** No node is processed by two workers at once. */
  lemma OneWorkerPerNode(t: NodeName, updateAll: bool, parallelism: nat, es: seq<Event>, i: nat, j: nat)
    requires Legal(t, Initial(updateAll, parallelism), es)
    requires var s := Run(t, Initial(updateAll, parallelism), es);
      i < j < |s.workers| && Busy(s.workers[i]) && Busy(s.workers[j])
    ensures var s := Run(t, Initial(updateAll, parallelism), es);
      s.workers[i].node != s.workers[j].node
  {
    InitialInvariant(t, updateAll, parallelism);
    RunKeeps(t, Initial(updateAll, parallelism), es);
  }

  /** No node is requeued more than fifteen times between two Forgets. */
  lemma AtMostFifteenRequeues(t: NodeName, updateAll: bool, parallelism: nat, es: seq<Event>, n: NodeName)
    requires Legal(t, Initial(updateAll, parallelism), es)
    ensures NumRequeues(Run(t, Initial(updateAll, parallelism), es), n) <= 15
  {
    InitialInvariant(t, updateAll, parallelism);
    RunKeeps(t, Initial(updateAll, parallelism), es);
  }

  // ----- Every request can still be resolved -----

  predicate Pending(k: Token) {
    k in {AtSender, InSlot, InUpdateAll, InUpdateNodes, InBatch, InQueue, InProgress, InBackoff}
  }

  /** A step of the handler, the queue or a worker in which nothing fails and nothing new arrives. */
  predicate Inward(e: Event) {
    !(e.NotifyOne? || e.NotifyAll? || e.ListFails? || e.UpdateError?)
  }

  function WorkLeft(k: Worker): nat {
    match k
    case Idle => 0
    case Finishing(_) => 1
    case Forgetting(_) => 2
    case Retrying(_) => 2
    case Failed(_) => 3
    case Updating(_) => 4
  }

  function TotalWork(ws: seq<Worker>): nat {
    if ws == [] then 0 else WorkLeft(ws[0]) + TotalWork(ws[1..])
  }

  lemma {:induction false} TotalWorkUpdate(ws: seq<Worker>, w: nat, k: Worker)
    requires w < |ws|
    ensures TotalWork(ws[w := k]) == TotalWork(ws) - WorkLeft(ws[w]) + WorkLeft(k)
    decreases ws
  {
    if w == 0 {
      assert ws[0 := k][1..] == ws[1..];
    } else {
      TotalWorkUpdate(ws[1..], w - 1, k);
      assert ws[w := k][1..] == ws[1..][w - 1 := k];
    }
  }

  function IndexOf(q: seq<NodeName>, t: NodeName): nat {
    if q == [] || q[0] == t then 0 else 1 + IndexOf(q[1..], t)
  }

  lemma {:induction false} IndexOfAppend(q: seq<NodeName>, t: NodeName, n: NodeName)
    requires t in q
    ensures IndexOf(q + [n], t) == IndexOf(q, t)
    decreases q
  {
    if q[0] != t {
      assert t in q[1..];
      IndexOfAppend(q[1..], t, n);
      assert (q + [n])[1..] == q[1..] + [n];
    }
  }

  ghost predicate SomeIdle(s: State) {
    exists i :: 0 <= i < |s.workers| && s.workers[i].Idle?
  }

  /** How far the request still is from being resolved. */
  ghost function Stage(t: NodeName, s: State): nat {
    match s.token
    case AtSender => 8
    case InSlot => 8
    case InUpdateAll => 7
    case InUpdateNodes => 7
    case InBatch => 6
    case InProgress =>
      if exists i :: 0 <= i < |s.workers| && s.workers[i] == Failed(t) then 5
      else if exists i :: 0 <= i < |s.workers| && s.workers[i] == Retrying(t) then 4
      else 1
    case InBackoff => 3
    case InQueue => 2
    case _ => 0
  }

  ghost function BatchLeft(s: State): nat {
    if s.handler.Adding? then 1 + |s.handler.rest| else 0
  }

  /** Within a stage: the batch, the queue position, the work in progress. */
  ghost function Ahead(t: NodeName, s: State): (nat, nat) {
    match s.token
    case AtSender => (BatchLeft(s), 0)
    case InSlot => (BatchLeft(s), 0)
    case InBatch => (BatchLeft(s), 0)
    case InQueue =>
      if t in s.processing then (1 + |s.queue|, TotalWork(s.workers))
      else (IndexOf(s.queue, t), if SomeIdle(s) then 0 else TotalWork(s.workers))
    case _ => (0, 0)
  }

  ghost predicate Closer(t: NodeName, s': State, s: State) {
    || Stage(t, s') < Stage(t, s)
    || (Stage(t, s') == Stage(t, s)
        && (Ahead(t, s').0 < Ahead(t, s).0
            || (Ahead(t, s').0 == Ahead(t, s).0 && Ahead(t, s').1 < Ahead(t, s).1)))
  }

  /** A worker that is busy has a next step, after which it has less work left. */
  function NextOf(s: State, w: nat): Event
    requires w < |s.workers| && Busy(s.workers[w])
  {
    match s.workers[w]
    case Updating(_) => UpdateOk(w)
    case Failed(_) => Check(w)
    case Retrying(_) => Requeue(w)
    case Forgetting(_) => Forget(w)
    case Finishing(_) => Done(w)
  }

  lemma NextOfEnabled(s: State, w: nat)
    requires w < |s.workers| && Busy(s.workers[w])
    ensures Enabled(s, NextOf(s, w)) && Inward(NextOf(s, w))
  {
  }

  lemma WorkerStep(t: NodeName, s: State, w: nat)
    requires w < |s.workers| && Busy(s.workers[w]) && !s.workers[w].Finishing?
    ensures Enabled(s, NextOf(s, w))
    ensures var s' := Step(t, s, NextOf(s, w));
      && TotalWork(s'.workers) < TotalWork(s.workers)
      && s'.queue == s.queue && s'.processing == s.processing
      && (!s.token.InProgress? ==> s'.token == s.token)
  {
    hide TotalWork;
    var k := s.workers[w];
    TotalWorkUpdate(s.workers, w, Forgetting(k.node));
    TotalWorkUpdate(s.workers, w, Retrying(k.node));
    TotalWorkUpdate(s.workers, w, Finishing(k.node));
  }

  lemma WorkerDone(t: NodeName, s: State, w: nat)
    requires w < |s.workers| && s.workers[w].Finishing?
    ensures Enabled(s, NextOf(s, w))
    ensures var s', n := Step(t, s, NextOf(s, w)), s.workers[w].node;
      && TotalWork(s'.workers) < TotalWork(s.workers)
      && s'.workers == s.workers[w := Idle] && s'.processing == s.processing - {n}
      && s'.queue == (if n in s.dirty then s.queue + [n] else s.queue)
      && s'.token == s.token
  {
    hide TotalWork;
    TotalWorkUpdate(s.workers, w, Idle);
  }

  lemma AdvanceQueued(t: NodeName, s: State) returns (e: Event)
    requires Invariant(t, s) && s.workers != [] && s.token.InQueue?
    ensures Enabled(s, e) && Inward(e) && Closer(t, Step(t, s, e), s)
  {
    if t in s.processing {
      assert Held(s, t);
      var w :| 0 <= w < |s.workers| && Busy(s.workers[w]) && s.workers[w].node == t;
      e := NextOf(s, w);
      AdvanceHolder(t, s, w);
    } else {
      assert t in Elems(s.queue);
      if SomeIdle(s) {
        var w :| 0 <= w < |s.workers| && s.workers[w].Idle?;
        e := Take(w);
        AdvanceTake(t, s, w);
      } else {
        assert Busy(s.workers[0]);
        e := NextOf(s, 0);
        AdvanceBusy(t, s);
      }
    }
  }

  /** The node is being processed: its worker gets on with it. */
  lemma AdvanceHolder(t: NodeName, s: State, w: nat)
    requires w < |s.workers| && Busy(s.workers[w]) && s.workers[w].node == t
    requires s.token.InQueue? && t in s.processing && t in s.dirty
    ensures Enabled(s, NextOf(s, w)) && Inward(NextOf(s, w)) && Closer(t, Step(t, s, NextOf(s, w)), s)
  {
    hide Step;
    hide Enabled;
    hide TotalWork;
    NextOfEnabled(s, w);
    if s.workers[w].Finishing? {
      WorkerDone(t, s, w);
      IndexBound(s.queue + [t], t);
    } else {
      WorkerStep(t, s, w);
    }
  }

  /** A free worker takes the head of the queue. */
  lemma AdvanceTake(t: NodeName, s: State, w: nat)
    requires Invariant(t, s) && s.token.InQueue? && t !in s.processing && t in s.queue
    requires w < |s.workers| && s.workers[w].Idle?
    ensures Enabled(s, Take(w)) && Closer(t, Step(t, s, Take(w)), s)
  {
    hide RequeuesBounded;
    var s' := Step(t, s, Take(w));
    if s.queue[0] == t {
      StageAfterTake(t, s, s', w);
    } else {
      assert IndexOf(s.queue, t) == 1 + IndexOf(s'.queue, t);
    }
  }

  /** All workers are busy: the first one gets on. */
  lemma AdvanceBusy(t: NodeName, s: State)
    requires s.token.InQueue? && t !in s.processing && t in s.queue && s.workers != [] && !SomeIdle(s)
    ensures Busy(s.workers[0])
    ensures Enabled(s, NextOf(s, 0)) && Inward(NextOf(s, 0)) && Closer(t, Step(t, s, NextOf(s, 0)), s)
  {
    hide Step;
    hide Enabled;
    hide TotalWork;
    NextOfEnabled(s, 0);
    if s.workers[0].Finishing? {
      WorkerDone(t, s, 0);
      IndexOfAppend(s.queue, t, s.workers[0].node);
      assert s.workers[0 := Idle][0].Idle?;
    } else {
      WorkerStep(t, s, 0);
    }
  }

  lemma {:induction false} IndexBound(q: seq<NodeName>, t: NodeName)
    ensures IndexOf(q, t) <= |q|
    ensures t in q ==> IndexOf(q, t) < |q|
  {
    if q != [] && q[0] != t {
      IndexBound(q[1..], t);
    }
  }

  /** Just taken, the node is in the hands of one worker only, which has not failed. */
  lemma StageAfterTake(t: NodeName, s: State, s': State, w: nat)
    requires Exclusive(s) && t !in s.processing && OnlyWorker(s, s', w) && s'.workers[w] == Updating(t)
    ensures s'.token.InProgress? ==> Stage(t, s') == 1
  {
    forall i | 0 <= i < |s'.workers| ensures s'.workers[i] != Failed(t) && s'.workers[i] != Retrying(t) {
      if i != w && Busy(s.workers[i]) {
        assert s.workers[i].node in s.processing;
      }
    }
  }

  lemma AdvanceInHand(t: NodeName, s: State) returns (e: Event)
    requires Invariant(t, s) && s.token.InProgress?
    ensures Enabled(s, e) && Inward(e) && Closer(t, Step(t, s, e), s)
  {
    var w :| 0 <= w < |s.workers| && InHand(s.workers[w], t);
    forall i | 0 <= i < |s.workers| && i != w ensures s.workers[i] != Failed(t) && s.workers[i] != Retrying(t) {
      assert Busy(s.workers[w]);
      if Busy(s.workers[i]) {
        assert s.workers[i].node != t;
      }
    }
    e := NextOf(s, w);
    AdvanceDecision(t, s, w);
  }

  lemma AdvanceDecision(t: NodeName, s: State, w: nat)
    requires w < |s.workers| && InHand(s.workers[w], t) && s.token.InProgress?
    requires forall i | 0 <= i < |s.workers| && i != w :: s.workers[i] != Failed(t) && s.workers[i] != Retrying(t)
    ensures Enabled(s, NextOf(s, w)) && Inward(NextOf(s, w)) && Closer(t, Step(t, s, NextOf(s, w)), s)
  {
    var s' := Step(t, s, NextOf(s, w));
    if s.workers[w].Failed? {
      assert forall i | 0 <= i < |s'.workers| :: s'.workers[i] != Failed(t);
    }
  }

  /** From every reachable state with a pending request, some step brings it closer to its resolution. */
  lemma Advance(t: NodeName, s: State) returns (e: Event)
    requires Invariant(t, s) && s.workers != [] && Pending(s.token)
    ensures Enabled(s, e) && Inward(e) && Closer(t, Step(t, s, e), s)
  {
    if s.token.InProgress? {
      e := AdvanceInHand(t, s);
    } else if s.token.InQueue? {
      e := AdvanceQueued(t, s);
    } else {
      e := AdvanceOutside(t, s);
    }
  }

  /** The request has not reached the queue yet. */
  lemma AdvanceOutside(t: NodeName, s: State) returns (e: Event)
    requires Located(t, s) && Pending(s.token) && !s.token.InProgress? && !s.token.InQueue?
    ensures Enabled(s, e) && Inward(e) && Closer(t, Step(t, s, e), s)
  {
    match s.token
    case AtSender => e := if s.handler.Selecting? then ReceiveOne else if s.handler.rest != [] then AddNext else Reset;
    case InSlot => e := if s.handler.Selecting? then ReceiveAll else if s.handler.rest != [] then AddNext else Reset;
    case InUpdateAll => e := ListNodes([t]);
    case InUpdateNodes =>
      if s.updateAll {
        e := ListNodes([t]);
      } else {
        var order := Listing(s.updateNodes);
        e := Batch(order);
        assert t in Elems(order);
      }
    case InBatch => e := AddNext;
    case InBackoff => e := DelayOver(t);
  }

  /**
  A pending request can always be brought to an end: if nothing fails any more,
  there is a run of the handler, the queue and the workers after which the
  node has been processed, or the request has been given up or found to name
  a node that is not there.
  */
  lemma CanBeResolved(t: NodeName, s: State) returns (es: seq<Event>)
    requires Invariant(t, s) && s.workers != [] && Pending(s.token)
    ensures Legal(t, s, es) && (forall e | e in es :: Inward(e))
    ensures Run(t, s, es).token in {Processed, GivenUp, NotListed}
    decreases Stage(t, s), Ahead(t, s).0, Ahead(t, s).1
  {
    hide Step;
    hide Enabled;
    hide Stage;
    hide Ahead;
    hide Invariant;
    hide Legal;
    hide Run;
    var e := Advance(t, s);
    var s' := Step(t, s, e);
    StepKeeps(t, s, e);
    SameWorkerCount(t, s, e);
    if Pending(s'.token) {
      var rest := CanBeResolved(t, s');
      es := [e] + rest;
      RunCons(t, s, e, rest);
    } else {
      es := [e];
      StillResolved(t, s, e);
      RunNothing(t, s');
      RunCons(t, s, e, []);
      assert [e] + [] == [e];
    }
  }

  predicate WorkerEvent(e: Event) {
    e.Take? || e.UpdateOk? || e.UpdateError? || e.Check? || e.Requeue? || e.Forget? || e.Done?
  }

  lemma MoveFrame(s: State, from: Token, to: Token, concerned: bool)
    ensures Move(s, from, to, concerned) == s.(token := Move(s, from, to, concerned).token)
  {
  }

  lemma QueueAddFrame(s: State, n: NodeName)
    ensures QueueAdd(s, n) == s.(queue := QueueAdd(s, n).queue, dirty := QueueAdd(s, n).dirty)
  {
  }

  lemma SameWorkers(t: NodeName, s: State, e: Event)
    requires Enabled(s, e) && !WorkerEvent(e)
    ensures Step(t, s, e).workers == s.workers && Step(t, s, e).failures == s.failures
  {
    hide WorkerIn;
    hide Elems;
    hide Move;
    hide QueueAdd;
    forall s0: State, from, to, c ensures Move(s0, from, to, c) == s0.(token := Move(s0, from, to, c).token) {
      MoveFrame(s0, from, to, c);
    }
    forall s0: State, n ensures QueueAdd(s0, n) == s0.(queue := QueueAdd(s0, n).queue, dirty := QueueAdd(s0, n).dirty) {
      QueueAddFrame(s0, n);
    }
  }

  lemma OneWorkerSet(t: NodeName, s: State, e: Event)
    requires Enabled(s, e) && WorkerEvent(e)
    ensures |Step(t, s, e).workers| == |s.workers|
  {
  }

  lemma SameWorkerCount(t: NodeName, s: State, e: Event)
    requires Enabled(s, e)
    ensures |Step(t, s, e).workers| == |s.workers|
  {
    hide Step;
    hide Enabled;
    if WorkerEvent(e) {
      OneWorkerSet(t, s, e);
    } else {
      SameWorkers(t, s, e);
    }
  }

  lemma RunNothing(t: NodeName, s: State)
    ensures Legal(t, s, []) && Run(t, s, []) == s
  {
  }

  lemma RunCons(t: NodeName, s: State, e: Event, es: seq<Event>)
    requires Enabled(s, e) && Legal(t, Step(t, s, e), es)
    ensures Legal(t, s, [e] + es) && Run(t, s, [e] + es) == Run(t, Step(t, s, e), es)
  {
    hide Step;
    hide Enabled;
    assert ([e] + es)[0] == e && ([e] + es)[1..] == es;
  }

  /** A pending request stays pending, is resolved, or would be lost. */
  lemma TokenOfWorker(t: NodeName, s: State, e: Event)
    requires Enabled(s, e) && WorkerEvent(e) && Pending(s.token)
    ensures Step(t, s, e).token != NoRequest
  {
  }

  lemma TokenOfOthers(t: NodeName, s: State, e: Event)
    requires Enabled(s, e) && !WorkerEvent(e) && Pending(s.token)
    ensures Step(t, s, e).token != NoRequest
  {
    hide WorkerIn;
    hide Elems;
  }

  lemma StillResolved(t: NodeName, s: State, e: Event)
    requires Pending(s.token) && Enabled(s, e) && Invariant(t, Step(t, s, e))
    requires !Pending(Step(t, s, e).token)
    ensures Step(t, s, e).token in {Processed, GivenUp, NotListed}
  {
    hide Step;
    hide Enabled;
    hide Exclusive;
    hide QueueExact;
    hide RequeuesBounded;
    if WorkerEvent(e) {
      TokenOfWorker(t, s, e);
    } else {
      TokenOfOthers(t, s, e);
    }
  }

  lemma {:induction false} WorkersStay(t: NodeName, s: State, es: seq<Event>)
    requires Legal(t, s, es)
    ensures |Run(t, s, es).workers| == |s.workers|
    decreases es
  {
    hide Step;
    hide Enabled;
    if es != [] {
      SameWorkerCount(t, s, es[0]);
      WorkersStay(t, Step(t, s, es[0]), es[1..]);
    }
  }

  /** Whatever has happened so far, a request that is pending can still be brought to an end. */
  lemma EveryRunCanResolve(t: NodeName, updateAll: bool, parallelism: nat, es: seq<Event>) returns (more: seq<Event>)
    requires parallelism > 0 && Legal(t, Initial(updateAll, parallelism), es)
    requires Pending(Run(t, Initial(updateAll, parallelism), es).token)
    ensures var s := Run(t, Initial(updateAll, parallelism), es);
      && Legal(t, s, more) && (forall e | e in more :: Inward(e))
      && Run(t, s, more).token in {Processed, GivenUp, NotListed}
  {
    hide Invariant;
    hide Run;
    hide Legal;
    InitialInvariant(t, updateAll, parallelism);
    RunKeeps(t, Initial(updateAll, parallelism), es);
    WorkersStay(t, Initial(updateAll, parallelism), es);
    more := CanBeResolved(t, Run(t, Initial(updateAll, parallelism), es));
  }

  // ----- Giving up -----

  /** A request is given up only by a failed update of its node after fifteen requeues. */
  lemma GivenUpStep(t: NodeName, s: State, e: Event)
    requires Invariant(t, s) && Enabled(s, e) && s.token != GivenUp && Step(t, s, e).token == GivenUp
    ensures e.Check? && s.workers[e.worker] == Failed(t) && NumRequeues(s, t) == 15
  {
    hide Exclusive;
    hide QueueExact;
    hide Located;
    GivenUpBy(t, s, e);
  }

  lemma GivenUpBy(t: NodeName, s: State, e: Event)
    requires Enabled(s, e) && s.token != GivenUp && Step(t, s, e).token == GivenUp
    ensures e.Check? && s.workers[e.worker] == Failed(t) && NumRequeues(s, t) >= 15
  {
    hide Elems;
  }

  /** In every run, whatever gives a request up happens at a node that has been requeued fifteen times. */
  lemma GivenUpAfterFifteen(t: NodeName, updateAll: bool, parallelism: nat, es: seq<Event>, e: Event)
    requires Legal(t, Initial(updateAll, parallelism), es)
    requires var s := Run(t, Initial(updateAll, parallelism), es);
      Enabled(s, e) && s.token != GivenUp && Step(t, s, e).token == GivenUp
    ensures NumRequeues(Run(t, Initial(updateAll, parallelism), es), t) == 15
  {
    hide Invariant;
    hide Step;
    hide Enabled;
    InitialInvariant(t, updateAll, parallelism);
    RunKeeps(t, Initial(updateAll, parallelism), es);
    GivenUpStep(t, Run(t, Initial(updateAll, parallelism), es), e);
  }
}
