/**
The code behind the scheduler's steps: the work queue as an object, one pass of
an updater of the pool, and the rate limit branch of the update handler. Each
method is shown to perform a legal run of the state machine
(pkg/nfd-master/node-updater-pool.go, pkg/nfd-master/nfd-master.go).
*/
module UpdaterPool {
  import opened Basics
  import opened Scheduler

  /** client-go's rate limiting work queue. */
  class WorkQueue {
    var queue: seq<NodeName>
    var dirty: set<NodeName>
    var processing: set<NodeName>
    var backoff: set<NodeName>
    var failures: map<NodeName, nat>

    /** The queue is the one of this state. */
    ghost predicate Is(s: State)
      reads this
    {
      && queue == s.queue && dirty == s.dirty && processing == s.processing
      && backoff == s.backoff && failures == s.failures
    }

    method Add(n: NodeName)
      modifies this
      ensures forall s | old(Is(s)) :: Is(QueueAdd(s, n))
    {
      if n in dirty {
        return;
      }
      dirty := dirty + {n};
      if n !in processing {
        queue := queue + [n];
      }
    }

    /** Get, of a queue that is not empty: it blocks otherwise. */
    method Get() returns (n: NodeName)
      requires queue != []
      modifies this
      ensures n == old(queue[0]) && queue == old(queue[1..])
      ensures dirty == old(dirty) - {n} && processing == old(processing) + {n}
      ensures backoff == old(backoff) && failures == old(failures)
    {
      n := queue[0];
      queue := queue[1..];
      dirty := dirty - {n};
      processing := processing + {n};
    }

    method Done(n: NodeName)
      modifies this
      ensures processing == old(processing) - {n} && queue == old(queue) + if n in old(dirty) then [n] else []
      ensures dirty == old(dirty) && backoff == old(backoff) && failures == old(failures)
    {
      processing := processing - {n};
      if n in dirty {
        queue := queue + [n];
      }
    }

    function Requeues(n: NodeName): nat
      reads this
    {
      if n in failures then failures[n] else 0
    }

    method AddRateLimited(n: NodeName)
      modifies this
      ensures failures == old(failures)[n := old(Requeues(n)) + 1] && backoff == old(backoff) + {n}
      ensures queue == old(queue) && dirty == old(dirty) && processing == old(processing)
    {
      failures := failures[n := Requeues(n) + 1];
      backoff := backoff + {n};
    }

    method Forget(n: NodeName)
      modifies this
      ensures failures == old(failures) - {n} && backoff == old(backoff)
      ensures queue == old(queue) && dirty == old(dirty) && processing == old(processing)
    {
      failures := failures - {n};
    }
  }

  lemma {:induction false} RunSnoc(t: NodeName, s: State, es: seq<Event>, e: Event)
    requires Legal(t, s, es) && Enabled(Run(t, s, es), e)
    ensures Legal(t, s, es + [e]) && Run(t, s, es + [e]) == Step(t, Run(t, s, es), e)
    decreases es
  {
    hide Step;
    hide Enabled;
    if es == [] {
      RunNothing(t, Step(t, s, e));
      RunCons(t, s, e, []);
      assert es + [e] == [e] + [];
    } else {
      RunSnoc(t, Step(t, s, es[0]), es[1..], e);
      RunCons(t, s, es[0], es[1..] + [e]);
      assert es + [e] == [es[0]] + (es[1..] + [e]);
    }
  }

  /** The events of one pass of a worker. */
  function PassEvents(w: nat, err: bool, requeues: nat): seq<Event> {
    if !err then [Take(w), UpdateOk(w), Event.Forget(w), Event.Done(w)]
    else if requeues < MAX_REQUEUES then [Take(w), UpdateError(w), Check(w), Requeue(w), Event.Done(w)]
    else [Take(w), UpdateError(w), Check(w), Event.Forget(w), Event.Done(w)]
  }

  /** Where the run has come to: the state reached by these events, with this queue. */
  ghost predicate Reached(t: NodeName, s0: State, es: seq<Event>, s: State, q: WorkQueue)
    reads q
  {
    Legal(t, s0, es) && Run(t, s0, es) == s && q.Is(s)
  }

  /** processNodeUpdateRequest, with the result of the node update given. */
  method ProcessNodeUpdateRequest(q: WorkQueue, ghost t: NodeName, ghost s0: State, w: nat, err: bool)
    returns (ghost s: State, ghost es: seq<Event>)
    requires q.Is(s0) && q.queue != [] && w < |s0.workers| && s0.workers[w].Idle?
    modifies q
    ensures Reached(t, s0, es, s, q) && s.workers == s0.workers
    ensures es == PassEvents(w, err, NumRequeues(s0, s0.queue[0]))
    ensures var n, before := old(q.queue[0]), old(q.Requeues(q.queue[0]));
      && (err && before < 15 ==> n in q.backoff && q.Requeues(n) == before + 1)
      && (err && before >= 15 ==> q.Requeues(n) == 0 && q.backoff == old(q.backoff))
      && (!err ==> q.Requeues(n) == 0 && q.backoff == old(q.backoff))
  {
    hide Legal;
    hide Run;
    hide Step;
    hide Enabled;
    var node;
    node, s, es := Begin(q, t, s0, w);
    if err {
      s, es := Decide(t, s0, s, es, w, node);
      if q.Requeues(node) < 15 {
        s, es := Retry(q, t, s0, s, es, w, node);
        return;
      }
    } else {
      s, es := Succeed(t, s0, s, es, w, node);
    }
    s, es := Finish(q, t, s0, s, es, w, node);
  }

  method Begin(q: WorkQueue, ghost t: NodeName, ghost s0: State, w: nat)
    returns (node: NodeName, ghost s: State, ghost es: seq<Event>)
    requires q.Is(s0) && q.queue != [] && w < |s0.workers| && s0.workers[w].Idle?
    modifies q
    ensures Reached(t, s0, es, s, q) && node == s0.queue[0] && s.workers == s0.workers[w := Updating(node)]
    ensures es == [Take(w)] && s.failures == s0.failures && s.backoff == s0.backoff
  {
    hide Legal;
    hide Run;
    hide Step;
    RunNothing(t, s0);
    TakeEffect(t, s0, w);
    node := q.Get();
    s, es := Next(t, s0, s0, [], Take(w));
  }

  lemma Succeed(t: NodeName, s0: State, sa: State, ea: seq<Event>, w: nat, node: NodeName)
    returns (s: State, es: seq<Event>)
    requires Legal(t, s0, ea) && Run(t, s0, ea) == sa && w < |sa.workers| && sa.workers[w] == Updating(node)
    ensures Legal(t, s0, es) && Run(t, s0, es) == s && s.workers == sa.workers[w := Forgetting(node)]
    ensures es == ea + [UpdateOk(w)] && SameQueues(sa, s) && SameRetries(sa, s)
  {
    hide Legal;
    hide Run;
    hide Step;
    UpdateEffect(t, sa, w);
    s, es := Next(t, s0, sa, ea, UpdateOk(w));
  }

  lemma Decide(t: NodeName, s0: State, sa: State, ea: seq<Event>, w: nat, node: NodeName)
    returns (s: State, es: seq<Event>)
    requires Legal(t, s0, ea) && Run(t, s0, ea) == sa && w < |sa.workers| && sa.workers[w] == Updating(node)
    ensures Legal(t, s0, es) && Run(t, s0, es) == s
    ensures var k := if NumRequeues(sa, node) < MAX_REQUEUES then Retrying(node) else Forgetting(node);
      s.workers == sa.workers[w := k]
    ensures es == ea + [UpdateError(w), Check(w)] && SameQueues(sa, s) && SameRetries(sa, s)
  {
    hide Legal;
    hide Run;
    hide Step;
    UpdateEffect(t, sa, w);
    s, es := Next(t, s0, sa, ea, UpdateError(w));
    CheckEffect(t, s, w);
    s, es := Next(t, s0, s, es, Check(w));
  }

  /** The way out for an item that is tried again. */
  method Retry(q: WorkQueue, ghost t: NodeName, ghost s0: State, ghost sa: State, ghost ea: seq<Event>, w: nat,
               node: NodeName)
    returns (ghost s: State, ghost es: seq<Event>)
    requires Reached(t, s0, ea, sa, q) && w < |sa.workers| && sa.workers[w] == Retrying(node)
    modifies q
    ensures Reached(t, s0, es, s, q) && s.workers == sa.workers[w := Idle]
    ensures es == ea + [Requeue(w), Event.Done(w)]
    ensures node in q.backoff && q.Requeues(node) == old(q.Requeues(node)) + 1
  {
    hide Legal;
    hide Run;
    hide Step;
    RequeueEffect(t, sa, w);
    q.AddRateLimited(node);
    s, es := Next(t, s0, sa, ea, Requeue(w));
    DoneEffect(t, s, w);
    q.Done(node);
    s, es := Next(t, s0, s, es, Event.Done(w));
  }

  /** The way out for an item that is done with. */
  method Finish(q: WorkQueue, ghost t: NodeName, ghost s0: State, ghost sa: State, ghost ea: seq<Event>, w: nat,
                node: NodeName)
    returns (ghost s: State, ghost es: seq<Event>)
    requires Reached(t, s0, ea, sa, q) && w < |sa.workers| && sa.workers[w] == Forgetting(node)
    modifies q
    ensures Reached(t, s0, es, s, q) && s.workers == sa.workers[w := Idle]
    ensures es == ea + [Event.Forget(w), Event.Done(w)]
    ensures q.Requeues(node) == 0 && q.backoff == old(q.backoff)
  {
    hide Legal;
    hide Run;
    hide Step;
    ForgetEffect(t, sa, w);
    q.Forget(node);
    s, es := Next(t, s0, sa, ea, Event.Forget(w));
    DoneEffect(t, s, w);
    q.Done(node);
    s, es := Next(t, s0, s, es, Event.Done(w));
  }

  ghost predicate SameQueues(s: State, s': State) {
    s'.queue == s.queue && s'.dirty == s.dirty && s'.processing == s.processing
  }

  ghost predicate SameRetries(s: State, s': State) {
    s'.backoff == s.backoff && s'.failures == s.failures
  }

  lemma TakeEffect(t: NodeName, s: State, w: nat)
    requires Enabled(s, Take(w))
    ensures var s', n := Step(t, s, Take(w)), s.queue[0];
      && s'.workers == s.workers[w := Updating(n)] && SameRetries(s, s') && s'.queue == s.queue[1..]
      && s'.dirty == s.dirty - {n} && s'.processing == s.processing + {n}
  {
  }

  lemma UpdateEffect(t: NodeName, s: State, w: nat)
    requires Enabled(s, UpdateOk(w))
    ensures var s', n := Step(t, s, UpdateOk(w)), s.workers[w].node;
      s'.workers == s.workers[w := Forgetting(n)] && SameQueues(s, s') && SameRetries(s, s')
    ensures var s', n := Step(t, s, UpdateError(w)), s.workers[w].node;
      s'.workers == s.workers[w := Failed(n)] && SameQueues(s, s') && SameRetries(s, s')
  {
  }

  lemma CheckEffect(t: NodeName, s: State, w: nat)
    requires Enabled(s, Check(w))
    ensures var s', n := Step(t, s, Check(w)), s.workers[w].node;
      && s'.workers == s.workers[w := if NumRequeues(s, n) < MAX_REQUEUES then Retrying(n) else Forgetting(n)]
      && SameQueues(s, s') && SameRetries(s, s')
  {
  }

  lemma RequeueEffect(t: NodeName, s: State, w: nat)
    requires Enabled(s, Requeue(w))
    ensures var s', n := Step(t, s, Requeue(w)), s.workers[w].node;
      && s'.workers == s.workers[w := Finishing(n)] && SameQueues(s, s')
      && s'.backoff == s.backoff + {n} && s'.failures == s.failures[n := NumRequeues(s, n) + 1]
  {
  }

  lemma ForgetEffect(t: NodeName, s: State, w: nat)
    requires Enabled(s, Event.Forget(w))
    ensures var s', n := Step(t, s, Event.Forget(w)), s.workers[w].node;
      && s'.workers == s.workers[w := Finishing(n)] && SameQueues(s, s')
      && s'.backoff == s.backoff && s'.failures == s.failures - {n}
  {
  }

  lemma DoneEffect(t: NodeName, s: State, w: nat)
    requires Enabled(s, Event.Done(w))
    ensures var s', n := Step(t, s, Event.Done(w)), s.workers[w].node;
      && s'.workers == s.workers[w := Idle] && SameRetries(s, s') && s'.dirty == s.dirty
      && s'.processing == s.processing - {n} && s'.queue == s.queue + if n in s.dirty then [n] else []
  {
  }

  /** One more event of the run. */
  lemma Next(t: NodeName, s0: State, s: State, es: seq<Event>, e: Event) returns (s': State, es': seq<Event>)
    requires Legal(t, s0, es) && Run(t, s0, es) == s && Enabled(s, e)
    ensures es' == es + [e] && s' == Step(t, s, e)
    ensures Legal(t, s0, es') && Run(t, s0, es') == s'
  {
    hide Legal;
    hide Run;
    hide Step;
    s', es' := Step(t, s, e), es + [e];
    RunSnoc(t, s0, es, e);
  }

  /** Adds the nodes one by one. */
  method AddAll(q: WorkQueue, ghost t: NodeName, ghost s0: State, ghost sa: State, ghost ea: seq<Event>,
                nodes: seq<NodeName>)
    returns (ghost s: State, ghost es: seq<Event>)
    requires Reached(t, s0, ea, sa, q) && sa.handler == Adding(nodes)
    modifies q
    ensures Reached(t, s0, es, s, q) && s.handler == Adding([])
    ensures s.updateAll == sa.updateAll
  {
    hide Legal;
    hide Run;
    hide QueueAdd;
    s, es := sa, ea;
    var i := 0;
    while i < |nodes|
      invariant 0 <= i <= |nodes|
      invariant Reached(t, s0, es, s, q) && s.handler == Adding(nodes[i..])
      invariant s.updateAll == sa.updateAll
    {
      assert nodes[i..][0] == nodes[i] && nodes[i..][1..] == nodes[i + 1..];
      AddFrame(s, nodes[i]);
      q.Add(nodes[i]);
      s, es := Next(t, s0, s, es, AddNext);
      i := i + 1;
    }
  }

  lemma AddFrame(s: State, n: NodeName)
    ensures QueueAdd(s, n).handler == s.handler && QueueAdd(s, n).updateAll == s.updateAll
  {
  }

  /** The handler's loop variables are the ones of this state. */
  ghost predicate Pends(s: State, updateAll: bool, updateNodes: set<NodeName>) {
    s.handler.Selecting? && s.updateAll == updateAll && s.updateNodes == updateNodes
  }

  /**
  The rate limit branch of nfdAPIUpdateHandler, with the node listing given
  (None if it fails): what was pending is added to the queue, except that a
  failed listing leaves an update of all nodes pending.
  */
  method RateLimit(q: WorkQueue, ghost t: NodeName, ghost s0: State, updateAll: bool, updateNodes: set<NodeName>,
                   listing: Option<seq<NodeName>>)
    returns (all: bool, nodes: set<NodeName>, ghost s: State, ghost es: seq<Event>)
    requires q.Is(s0) && Pends(s0, updateAll, updateNodes)
    modifies q
    ensures Reached(t, s0, es, s, q) && Pends(s, all, nodes)
    ensures nodes == {} && all == (updateAll && listing.None?)
  {
    hide Legal;
    hide Run;
    s, es := s0, [];
    RunNothing(t, s0);
    all := updateAll && listing.None?;
    nodes := {};
    if all {
      s, es := Next(t, s0, s, es, ListFails);
      return;
    }
    if updateAll {
      s, es := Next(t, s0, s, es, ListNodes(listing.value));
      s, es := AddAll(q, t, s0, s, es, listing.value);
    } else {
      var order := Listed(updateNodes);
      s, es := Next(t, s0, s, es, Batch(order));
      s, es := AddAll(q, t, s0, s, es, order);
    }
    s, es := Next(t, s0, s, es, Reset);
  }

  /** The nodes of a set, in whatever order the map yields them. */
  method Listed(ns: set<NodeName>) returns (order: seq<NodeName>)
    ensures Elems(order) == ns
  {
    order := [];
    var todo := ns;
    while todo != {}
      invariant todo <= ns && Elems(order) == ns - todo
      decreases todo
    {
      ghost var some := Any(todo);
      var n :| n in todo;
      assert Elems(order + [n]) == Elems(order) + {n};
      order := order + [n];
      todo := todo - {n};
    }
  }

  // ----- With other steps in between -----

  /** The events of one worker. */
  predicate Of(w: nat, e: Event) {
    WorkerEvent(e) && e.worker == w
  }

  function OwnEvents(w: nat, es: seq<Event>): seq<Event> {
    if es == [] then [] else (if Of(w, es[0]) then [es[0]] else []) + OwnEvents(w, es[1..])
  }

  function AfterCheck(w: nat, requeues: nat): seq<Event> {
    if requeues < MAX_REQUEUES then [Requeue(w), Event.Done(w)] else [Event.Forget(w), Event.Done(w)]
  }

  /** What a busy worker has still to do in its pass. */
  function Remaining(w: nat, k: Worker, requeues: nat, err: bool): seq<Event> {
    match k
    case Idle => []
    case Updating(_) =>
      if err then [UpdateError(w), Check(w)] + AfterCheck(w, requeues)
      else [UpdateOk(w), Event.Forget(w), Event.Done(w)]
    case Failed(_) => [Check(w)] + AfterCheck(w, requeues)
    case Retrying(_) => [Requeue(w), Event.Done(w)]
    case Forgetting(_) => [Event.Forget(w), Event.Done(w)]
    case Finishing(_) => [Event.Done(w)]
  }

  /** After the take, that is the rest of the pass. */
  lemma PassRemains(w: nat, n: NodeName, requeues: nat, err: bool)
    ensures PassEvents(w, err, requeues) == [Take(w)] + Remaining(w, Updating(n), requeues, err)
  {
  }

  /** One of the two lists begins the other. */
  predicate Agree<T(==)>(a: seq<T>, b: seq<T>) {
    a <= b || b <= a
  }

  /** A step of anybody else leaves a busy worker and the count of its node alone. */
  lemma OthersLeaveWorker(t: NodeName, s: State, e: Event, w: nat)
    requires Invariant(t, s) && Enabled(s, e) && !Of(w, e) && w < |s.workers| && Busy(s.workers[w])
    ensures var s' := Step(t, s, e);
      && w < |s'.workers| && s'.workers[w] == s.workers[w]
      && NumRequeues(s', s.workers[w].node) == NumRequeues(s, s.workers[w].node)
  {
    hide QueueExact;
    hide Located;
    if WorkerEvent(e) {
      OtherWorker(t, s, e, w);
    } else {
      SameWorkers(t, s, e);
    }
  }

  lemma OtherWorker(t: NodeName, s: State, e: Event, w: nat)
    requires Exclusive(s) && Enabled(s, e) && WorkerEvent(e) && e.worker != w && w < |s.workers| && Busy(s.workers[w])
    ensures var s' := Step(t, s, e);
      && w < |s'.workers| && s'.workers[w] == s.workers[w]
      && NumRequeues(s', s.workers[w].node) == NumRequeues(s, s.workers[w].node)
  {
    hide Step;
    var v := e.worker;
    if Busy(s.workers[v]) {
      assert s.workers[v].node != s.workers[w].node;
    }
    WorkerEffect(t, s, e);
  }

  /** What the effects of the worker steps have in common, read off the lemmas about them. */
  lemma WorkerEffect(t: NodeName, s: State, e: Event)
    requires Enabled(s, e) && WorkerEvent(e)
    ensures var s', v := Step(t, s, e), e.worker;
      && |s'.workers| == |s.workers| && s'.workers == s.workers[v := s'.workers[v]]
      && (!e.Requeue? && !e.Forget? ==> s'.failures == s.failures)
      && (e.Requeue? || e.Forget? ==> forall n | n != s.workers[v].node :: NumRequeues(s', n) == NumRequeues(s, n))
  {
    hide Step;
    match e
    case Take(v) => TakeEffect(t, s, v);
    case UpdateOk(v) => UpdateEffect(t, s, v);
    case UpdateError(v) => UpdateEffect(t, s, v);
    case Check(v) => CheckEffect(t, s, v);
    case Requeue(v) => RequeueEffect(t, s, v);
    case Forget(v) => ForgetEffect(t, s, v);
    case Done(v) => DoneEffect(t, s, v);
  }

  /** A step of the worker itself is the next one of its pass. */
  lemma OwnStep(t: NodeName, s: State, e: Event, w: nat, err: bool)
    requires Enabled(s, e) && Of(w, e) && Busy(s.workers[w])
    ensures var s', k := Step(t, s, e), s.workers[w];
      var failed := if e.UpdateError? then true else if e.UpdateOk? then false else err;
      && w < |s'.workers|
      && Remaining(w, k, NumRequeues(s, k.node), failed)
         == [e] + RemainingIn(w, s', err)
  {
    hide Step;
    match e
    case UpdateOk(_) => UpdateEffect(t, s, w);
    case UpdateError(_) => UpdateEffect(t, s, w);
    case Check(_) => CheckEffect(t, s, w);
    case Requeue(_) => RequeueEffect(t, s, w);
    case Forget(_) => ForgetEffect(t, s, w);
    case Done(_) => DoneEffect(t, s, w);
  }

  function RemainingIn(w: nat, s: State, err: bool): seq<Event>
    requires w < |s.workers|
  {
    var k := s.workers[w];
    if Busy(k) then Remaining(w, k, NumRequeues(s, k.node), err) else []
  }

  /**
  Whatever others do in between, the steps of a busy worker are those of its
  pass, in order: as many of them as it has come to, or all and then those of
  later passes.
  */
  lemma {:induction false} PassInterleaved(t: NodeName, s: State, es: seq<Event>, w: nat) returns (err: bool)
    requires Invariant(t, s) && Legal(t, s, es) && w < |s.workers| && Busy(s.workers[w])
    ensures Agree(OwnEvents(w, es), RemainingIn(w, s, err))
    decreases es
  {
    hide Invariant;
    hide Step;
    hide Enabled;
    hide Remaining;
    err := false;
    if es != [] {
      var e := es[0];
      var s' := Step(t, s, e);
      StepKeeps(t, s, e);
      if !Of(w, e) {
        OthersLeaveWorker(t, s, e, w);
        err := PassInterleaved(t, s', es[1..], w);
      } else {
        OwnStep(t, s, e, w, false);
        if Busy(s'.workers[w]) {
          err := PassInterleaved(t, s', es[1..], w);
          OwnStep(t, s, e, w, err);
        }
        err := if e.UpdateError? then true else if e.UpdateOk? then false else err;
      }
    }
  }

  // ----- The same for the handler -----

  predicate OfHandler(e: Event) {
    e.ReceiveOne? || e.ReceiveAll? || e.ListFails? || e.ListNodes? || e.Batch? || e.AddNext? || e.Reset?
  }

  function HandlerEvents(es: seq<Event>): seq<Event> {
    if es == [] then [] else (if OfHandler(es[0]) then [es[0]] else []) + HandlerEvents(es[1..])
  }

  /** The rest of a rate limit branch that still has nodes to add. */
  function Additions(n: nat): seq<Event> {
    if n == 0 then [Reset] else [AddNext] + Additions(n - 1)
  }

  ghost predicate SameHandler(s: State, s': State) {
    s'.handler == s.handler && s'.updateAll == s.updateAll && s'.updateNodes == s.updateNodes
  }

  lemma WorkersLeaveHandler(t: NodeName, s: State, e: Event)
    requires Enabled(s, e) && WorkerEvent(e)
    ensures SameHandler(s, Step(t, s, e))
  {
  }

  lemma SendersLeaveHandler(t: NodeName, s: State, e: Event)
    requires Enabled(s, e) && (e.NotifyOne? || e.NotifyAll? || e.DelayOver?)
    ensures SameHandler(s, Step(t, s, e))
  {
  }

  lemma OthersLeaveHandler(t: NodeName, s: State, e: Event)
    requires Enabled(s, e) && !OfHandler(e)
    ensures SameHandler(s, Step(t, s, e))
  {
    hide Step;
    hide Enabled;
    hide SameHandler;
    if WorkerEvent(e) {
      WorkersLeaveHandler(t, s, e);
    } else {
      SendersLeaveHandler(t, s, e);
    }
  }

  lemma HandlerStep(t: NodeName, s: State, e: Event)
    requires Enabled(s, e) && OfHandler(e) && s.handler.Adding?
    ensures var s', rest := Step(t, s, e), s.handler.rest;
      if rest == [] then e == Reset && Pends(s', false, {})
      else e == AddNext && s'.handler == Adding(rest[1..])
  {
    hide Elems;
  }

  /** Whatever the workers do in between, the handler adds its whole batch and then starts afresh. */
  lemma {:induction false} BatchInterleaved(t: NodeName, s: State, es: seq<Event>)
    requires Legal(t, s, es) && s.handler.Adding?
    ensures Agree(HandlerEvents(es), Additions(|s.handler.rest|))
    decreases es
  {
    hide Step;
    hide Enabled;
    if es != [] {
      var e := es[0];
      var s' := Step(t, s, e);
      if !OfHandler(e) {
        OthersLeaveHandler(t, s, e);
        BatchInterleaved(t, s', es[1..]);
      } else {
        HandlerStep(t, s, e);
        if s.handler.rest != [] {
          BatchInterleaved(t, s', es[1..]);
        }
      }
    }
  }
}
