/** Exclusive ownership: in every interleaving, nodesInProcessing is exactly the set of names
    owned by running handlers, queued items and workers, and each name has one owner. */
module Ownership {
  import Networks
  import opened Protocol

  // ---- sums over threads ----

  function Sum<A, B>(f: A -> multiset<B>, s: seq<A>): multiset<B> {
    if s == [] then multiset{} else f(s[0]) + Sum(f, s[1..])
  }

  lemma {:induction false} SumUpdate<A, B>(f: A -> multiset<B>, s: seq<A>, k: nat, x: A)
    requires k < |s|
    ensures forall b: B :: Sum(f, s[k := x])[b] + f(s[k])[b] == Sum(f, s)[b] + f(x)[b]
    ensures f(s[k]) <= Sum(f, s)
  {
    var t := s[k := x];
    if k == 0 {
      assert t[1..] == s[1..];
    } else {
      SumUpdate(f, s[1..], k - 1, x);
      assert t[1..] == s[1..][k - 1 := x] && s[1..][k - 1] == s[k];
      assert Sum(f, t) == f(s[0]) + Sum(f, t[1..]);
    }
  }

  lemma SumHead<A, B>(f: A -> multiset<B>, s: seq<A>)
    requires s != []
    ensures forall b: B :: Sum(f, s)[b] == f(s[0])[b] + Sum(f, s[1..])[b]
  {
  }

  lemma {:induction false} SumAppend<A, B>(f: A -> multiset<B>, s: seq<A>, x: A)
    ensures forall b: B :: Sum(f, s + [x])[b] == Sum(f, s)[b] + f(x)[b]
  {
    if s == [] {
      assert [x][1..] == [];
    } else {
      SumAppend(f, s[1..], x);
      assert (s + [x])[1..] == s[1..] + [x];
    }
  }

  /** Two different threads contribute separately. */
  lemma {:induction false} SumOfTwo<A, B>(f: A -> multiset<B>, s: seq<A>, k: nat, l: nat)
    requires k < |s| && l < |s| && k != l
    ensures f(s[k]) + f(s[l]) <= Sum(f, s)
  {
    if k == 0 {
      SumUpdate(f, s[1..], l - 1, s[l]);
    } else if l == 0 {
      SumUpdate(f, s[1..], k - 1, s[k]);
    } else {
      SumOfTwo(f, s[1..], k - 1, l - 1);
    }
  }

  // ---- owners ----

  function HandlerNames(h: Handler): multiset<Name> {
    match h
    case Idle => multiset{}
    case Occupying(node, _) => multiset{node}
    case Waiting(node) => multiset{node}
    case Enqueuing(item) => multiset{item.node}
    case Unmarking(node) => multiset{node}
  }

  function ItemNames(item: Item): multiset<Name> { multiset{item.node} }

  function WorkerNames(w: Worker): multiset<Name> {
    match w
    case Free => multiset{}
    case Finishing(node) => multiset{node}
    case _ => multiset{w.item.node}
  }

  /** The names that threads and the queue hold, each as often as it is held. */
  function Owned(s: State): multiset<Name> {
    Sum(HandlerNames, s.handlers) + Sum(ItemNames, s.queue) + Sum(WorkerNames, s.workers)
  }

  /** A marked name has one owner, any other name has none. */
  ghost predicate Exclusive(s: State) {
    forall n: Name :: Owned(s)[n] == if n in s.marks then 1 else 0
  }

  /** As multisets: the marks are the owned names. */
  lemma MarksAreOwned(s: State)
    requires Exclusive(s)
    ensures multiset(s.marks) == Owned(s)
  {
  }

  lemma HandlerMove(s: State, h: nat, x: Handler)
    requires h < |s.handlers|
    ensures forall n: Name :: Sum(HandlerNames, s.handlers[h := x])[n] + HandlerNames(s.handlers[h])[n]
                           == Sum(HandlerNames, s.handlers)[n] + HandlerNames(x)[n]
    ensures HandlerNames(s.handlers[h]) <= Sum(HandlerNames, s.handlers)
  {
    SumUpdate(HandlerNames, s.handlers, h, x);
  }

  lemma WorkerMove(s: State, w: nat, x: Worker)
    requires w < |s.workers|
    ensures forall n: Name :: Sum(WorkerNames, s.workers[w := x])[n] + WorkerNames(s.workers[w])[n]
                           == Sum(WorkerNames, s.workers)[n] + WorkerNames(x)[n]
    ensures WorkerNames(s.workers[w]) <= Sum(WorkerNames, s.workers)
  {
    SumUpdate(WorkerNames, s.workers, w, x);
  }

  /** Every step of every thread, the failure branches included, keeps ownership exclusive. */
  lemma OwnershipPreserved(p: Params, s: State, step: Step)
    requires s.Valid(p) && Enabled(s, step) && Exclusive(s)
    ensures Exclusive(Next(p, s, step))
  {
    if IsHandlerStep(step) {
      HandlerStepKeepsOwners(p, s, step);
    } else if IsWorkerStep(step) {
      WorkerStepKeepsOwners(p, s, step);
    } else {
      OtherStepsKeepThreads(p, s, step);
    }
  }

  lemma OtherStepsKeepThreads(p: Params, s: State, step: Step)
    requires s.Valid(p) && Enabled(s, step) && !IsHandlerStep(step) && !IsWorkerStep(step)
    ensures var s' := Next(p, s, step);
            s'.marks == s.marks && s'.handlers == s.handlers && s'.queue == s.queue && s'.workers == s.workers
  {
  }

  predicate IsHandlerStep(step: Step) {
    || step.HandlerStart? || step.HandlerOccupy? || step.HandlerAllocate?
    || step.HandlerCancel? || step.HandlerEnqueue? || step.HandlerUnmark?
  }

  predicate IsWorkerStep(step: Step) {
    || step.WorkerTake? || step.WorkerGet? || step.WorkerGetError? || step.WorkerDecide?
    || step.WorkerPatch? || step.WorkerGiveUp? || step.WorkerRequeue? || step.WorkerUnmark?
  }

  lemma HandlerStepKeepsOwners(p: Params, s: State, step: Step)
    requires s.Valid(p) && Enabled(s, step) && Exclusive(s) && IsHandlerStep(step)
    ensures Exclusive(Next(p, s, step))
  {
    match step {
      case HandlerStart(node, spec) => HandlerStarts(s, node, spec);
      case HandlerOccupy(h) => HandlerOccupies(p, s, h);
      case HandlerAllocate(h) => HandlerAllocates(p, s, h);
      case HandlerCancel(h) => HandlerContinues(s, Next(p, s, HandlerCancel(h)), h);
      case HandlerEnqueue(h) => HandlerSends(s, Next(p, s, HandlerEnqueue(h)), h);
      case HandlerUnmark(h) => HandlerReturns(s, Next(p, s, HandlerUnmark(h)), h);
    }
  }

  lemma HandlerStarts(s: State, node: Name, spec: Spec)
    requires Exclusive(s)
    ensures Exclusive(Start(s, node, spec))
  {
    if node !in s.marks {
      HandlerAppears(s, Start(s, node, spec), node, if spec == [] then Waiting(node) else Occupying(node, spec));
    }
  }

  lemma HandlerAppears(s: State, s': State, node: Name, x: Handler)
    requires Exclusive(s) && s'.queue == s.queue && s'.workers == s.workers
    requires node !in s.marks && s'.marks == s.marks + {node}
    requires HandlerNames(x) == multiset{node} && s'.handlers == s.handlers + [x]
    ensures Exclusive(s')
  {
    SumAppend(HandlerNames, s.handlers, x);
  }

  lemma HandlerOccupies(p: Params, s: State, h: nat)
    requires Exclusive(s) && h < |s.handlers| && s.handlers[h].Occupying?
    ensures Exclusive(OccupyNode(p, s, h))
  {
    HandlerContinues(s, OccupyNode(p, s, h), h);
  }

  lemma HandlerAllocates(p: Params, s: State, h: nat)
    requires s.Valid(p) && Exclusive(s) && h < |s.handlers| && s.handlers[h].Waiting?
    ensures Exclusive(Allocate(p, s, h))
  {
    HandlerContinues(s, Allocate(p, s, h), h);
  }

  lemma HandlerContinues(s: State, s': State, h: nat)
    requires Exclusive(s) && s'.marks == s.marks && s'.queue == s.queue && s'.workers == s.workers
    requires h < |s.handlers| == |s'.handlers| && s'.handlers == s.handlers[h := s'.handlers[h]]
    requires HandlerNames(s'.handlers[h]) == HandlerNames(s.handlers[h])
    ensures Exclusive(s')
  {
    HandlerMove(s, h, s'.handlers[h]);
  }

  lemma HandlerSends(s: State, s': State, h: nat)
    requires Exclusive(s) && s'.marks == s.marks && s'.workers == s.workers
    requires h < |s.handlers| && s.handlers[h].Enqueuing? && s'.handlers == s.handlers[h := Idle]
    requires s'.queue == s.queue + [s.handlers[h].item]
    ensures Exclusive(s')
  {
    HandlerMove(s, h, Idle);
    SumAppend(ItemNames, s.queue, s.handlers[h].item);
  }

  lemma HandlerReturns(s: State, s': State, h: nat)
    requires Exclusive(s) && s'.queue == s.queue && s'.workers == s.workers
    requires h < |s.handlers| && s.handlers[h].Unmarking? && s'.handlers == s.handlers[h := Idle]
    requires s'.marks == s.marks - {s.handlers[h].node}
    ensures Exclusive(s')
  {
    HandlerMove(s, h, Idle);
  }

  lemma WorkerStepKeepsOwners(p: Params, s: State, step: Step)
    requires s.Valid(p) && Enabled(s, step) && Exclusive(s) && IsWorkerStep(step)
    ensures Exclusive(Next(p, s, step))
  {
    match step {
      case WorkerTake(w) => WorkerReceives(s, Next(p, s, step), w);
      case WorkerGet(w) => WorkerContinues(s, Next(p, s, step), w);
      case WorkerGetError(w) => WorkerContinues(s, Next(p, s, step), w);
      case WorkerDecide(w, prefix) => WorkerDisposes(p, s, w, prefix);
      case WorkerPatch(w, outcome) => WorkerPatches(s, w, outcome);
      case WorkerGiveUp(w) => WorkerContinues(s, GiveUp(p, s, w), w);
      case WorkerRequeue(w) => WorkerSends(s, Next(p, s, step), w);
      case WorkerUnmark(w) => WorkerReturns(s, Next(p, s, step), w);
    }
  }

  lemma WorkerDisposes(p: Params, s: State, w: nat, prefix: Networks.Option<Net>)
    requires Exclusive(s) && w < |s.workers| && s.workers[w].Got?
    requires prefix.Some? ==> prefix.value.family.V6?
    ensures Exclusive(Dispose(p, s, w, prefix))
  {
    var s' := Dispose(p, s, w, prefix);
    match Decide(p, s.workers[w].item, s.workers[w].spec, prefix) {
      case AlreadyAssigned => WorkerContinues(s, s', w);
      case ReleaseReserved => WorkerContinues(s, s', w);
      case NoPrefix => WorkerContinues(s, s', w);
      case Assign(_) => WorkerContinues(s, s', w);
    }
  }

  lemma WorkerPatches(s: State, w: nat, outcome: PatchOutcome)
    requires Exclusive(s) && w < |s.workers| && s.workers[w].Patching? && s.workers[w].attempts > 0
    ensures Exclusive(Patch(s, w, outcome))
  {
    WorkerContinues(s, Patch(s, w, outcome), w);
  }

  lemma WorkerReceives(s: State, s': State, w: nat)
    requires Exclusive(s) && s'.marks == s.marks && s'.handlers == s.handlers
    requires w < |s.workers| && s.workers[w].Free? && s.queue != []
    requires s'.queue == s.queue[1..] && s'.workers == s.workers[w := Took(s.queue[0])]
    ensures Exclusive(s')
  {
    WorkerMove(s, w, Took(s.queue[0]));
    SumHead(ItemNames, s.queue);
  }

  lemma WorkerContinues(s: State, s': State, w: nat)
    requires Exclusive(s) && s'.marks == s.marks && s'.queue == s.queue && s'.handlers == s.handlers
    requires w < |s.workers| == |s'.workers| && s'.workers == s.workers[w := s'.workers[w]]
    requires WorkerNames(s'.workers[w]) == WorkerNames(s.workers[w])
    ensures Exclusive(s')
  {
    WorkerMove(s, w, s'.workers[w]);
  }

  lemma WorkerSends(s: State, s': State, w: nat)
    requires Exclusive(s) && s'.marks == s.marks && s'.handlers == s.handlers
    requires w < |s.workers| && s.workers[w].Requeuing? && s'.workers == s.workers[w := Free]
    requires s'.queue == s.queue + [s.workers[w].item]
    ensures Exclusive(s')
  {
    WorkerMove(s, w, Free);
    SumAppend(ItemNames, s.queue, s.workers[w].item);
  }

  lemma WorkerReturns(s: State, s': State, w: nat)
    requires Exclusive(s) && s'.queue == s.queue && s'.handlers == s.handlers
    requires w < |s.workers| && s.workers[w].Finishing? && s'.workers == s.workers[w := Free]
    requires s'.marks == s.marks - {s.workers[w].node}
    ensures Exclusive(s')
  {
    WorkerMove(s, w, Free);
  }

  /** A worker's step changes its own slot, and only a Get of a node that is there leaves an answer. */
  lemma OneSlotMoves(p: Params, s: State, step: Step)
    requires s.Valid(p) && Enabled(s, step) && IsWorkerStep(step)
    ensures var s' := Next(p, s, step);
            && step.w < |s.workers| == |s'.workers| && s'.workers == s.workers[step.w := s'.workers[step.w]]
            && (s'.workers[step.w].Got? ==> s'.workers[step.w].item.node in s.api)
  {
  }

  lemma OthersKeepWorkers(p: Params, s: State, step: Step)
    requires s.Valid(p) && Enabled(s, step) && !IsWorkerStep(step)
    ensures Next(p, s, step).workers == s.workers
  {
  }

  /** Ownership is exclusive in every state of every run. */
  lemma {:induction false} OwnershipAlways(p: Params, states: seq<State>, steps: seq<Step>, k: nat)
    requires IsRun(p, states, steps) && Exclusive(states[0]) && k < |states|
    ensures Exclusive(states[k])
  {
    if k > 0 {
      OwnershipAlways(p, states, steps, k - 1);
      OwnershipPreserved(p, states[k - 1], steps[k - 1]);
    }
  }

  /** A step takes a mark away only from the thread that takes the step and holds it, and then
      nobody else holds that name. */
  lemma MarksAreRemovedByTheirOwner(p: Params, s: State, step: Step, node: Name)
    requires s.Valid(p) && Enabled(s, step) && Exclusive(s)
    requires node in s.marks && node !in Next(p, s, step).marks
    ensures (step.HandlerUnmark? && s.handlers[step.h] == Unmarking(node))
         || (step.WorkerUnmark? && s.workers[step.w] == Finishing(node))
    ensures node !in Owned(Next(p, s, step))
  {
    OwnershipPreserved(p, s, step);
    assert Owned(Next(p, s, step))[node] == 0;
    if !step.HandlerUnmark? && !step.WorkerUnmark? {
      MarksGrow(p, s, step);
    }
  }

  lemma MarksGrow(p: Params, s: State, step: Step)
    requires s.Valid(p) && Enabled(s, step) && !step.HandlerUnmark? && !step.WorkerUnmark?
    ensures s.marks <= Next(p, s, step).marks
  {
  }

  /** Whatever two different threads or queue entries hold, they hold different names. */
  lemma OneOwner(s: State, k: nat, l: nat)
    requires Exclusive(s)
    ensures k < |s.workers| && l < |s.workers| && k != l ==> WorkerNames(s.workers[k]) !! WorkerNames(s.workers[l])
    ensures k < |s.handlers| && l < |s.handlers| && k != l ==> HandlerNames(s.handlers[k]) !! HandlerNames(s.handlers[l])
    ensures k < |s.queue| && l < |s.queue| && k != l ==> s.queue[k].node != s.queue[l].node
    ensures k < |s.workers| && l < |s.handlers| ==> WorkerNames(s.workers[k]) !! HandlerNames(s.handlers[l])
    ensures k < |s.workers| && l < |s.queue| ==> s.queue[l].node !in WorkerNames(s.workers[k])
    ensures k < |s.handlers| && l < |s.queue| ==> s.queue[l].node !in HandlerNames(s.handlers[k])
  {
    if k < |s.workers| && l < |s.handlers| {
      WorkerMove(s, k, Free);
      HandlerMove(s, l, Idle);
      DisjointParts(s, WorkerNames(s.workers[k]), HandlerNames(s.handlers[l]));
    }
    WorkersAreOne(s, k, l);
    HandlersAreOne(s, k, l);
    QueueIsApart(s, k, l);
  }

  lemma QueueIsApart(s: State, k: nat, l: nat)
    requires Exclusive(s)
    ensures k < |s.queue| && l < |s.queue| && k != l ==> s.queue[k].node != s.queue[l].node
    ensures k < |s.workers| && l < |s.queue| ==> s.queue[l].node !in WorkerNames(s.workers[k])
    ensures k < |s.handlers| && l < |s.queue| ==> s.queue[l].node !in HandlerNames(s.handlers[k])
  {
    if l < |s.queue| {
      SumUpdate(ItemNames, s.queue, l, s.queue[l]);
      assert s.queue[l].node in ItemNames(s.queue[l]);
      if k < |s.queue| && k != l {
        SumOfTwo(ItemNames, s.queue, k, l);
        DisjointParts(s, ItemNames(s.queue[k]), ItemNames(s.queue[l]));
      }
      if k < |s.workers| {
        WorkerMove(s, k, Free);
        DisjointParts(s, WorkerNames(s.workers[k]), ItemNames(s.queue[l]));
      }
      if k < |s.handlers| {
        HandlerMove(s, k, Idle);
        DisjointParts(s, HandlerNames(s.handlers[k]), ItemNames(s.queue[l]));
      }
    }
  }

  lemma HandlersAreOne(s: State, k: nat, l: nat)
    requires Exclusive(s)
    ensures k < |s.handlers| && l < |s.handlers| && k != l ==> HandlerNames(s.handlers[k]) !! HandlerNames(s.handlers[l])
  {
    if k < |s.handlers| && l < |s.handlers| && k != l {
      SumOfTwo(HandlerNames, s.handlers, k, l);
      DisjointParts(s, HandlerNames(s.handlers[k]), HandlerNames(s.handlers[l]));
    }
  }

  lemma WorkersAreOne(s: State, k: nat, l: nat)
    requires Exclusive(s)
    ensures k < |s.workers| && l < |s.workers| && k != l ==> WorkerNames(s.workers[k]) !! WorkerNames(s.workers[l])
  {
    if k < |s.workers| && l < |s.workers| && k != l {
      SumOfTwo(WorkerNames, s.workers, k, l);
      DisjointParts(s, WorkerNames(s.workers[k]), WorkerNames(s.workers[l]));
    }
  }

  lemma DisjointParts(s: State, a: multiset<Name>, b: multiset<Name>)
    requires Exclusive(s) && a + b <= Owned(s)
    ensures a !! b
  {
    forall n | n in a
      ensures n !in b
    {
      assert (a + b)[n] <= Owned(s)[n] <= 1;
    }
  }

  // ---- the work queue ----

  /** Workers that hold an item or a name. */
  function Busy(workers: seq<Worker>): nat {
    if workers == [] then 0 else (if workers[0].Free? then 0 else 1) + Busy(workers[1..])
  }

  lemma {:induction false} CountWorkers(workers: seq<Worker>)
    ensures |Sum(WorkerNames, workers)| == Busy(workers)
  {
    if workers != [] {
      CountWorkers(workers[1..]);
    }
  }

  lemma {:induction false} CountItems(queue: seq<Item>)
    ensures |Sum(ItemNames, queue)| == |queue|
  {
    if queue != [] {
      CountItems(queue[1..]);
    }
  }

  lemma CountMarks(marks: set<Name>)
    ensures |multiset(marks)| == |marks|
  {
  }

  /** Queued items and busy workers together are at most as many as the names in processing. */
  lemma QueueBound(s: State)
    requires Exclusive(s)
    ensures |s.queue| + Busy(s.workers) <= |s.marks|
  {
    CountWorkers(s.workers);
    CountItems(s.queue);
    MarksAreOwned(s);
    CountMarks(s.marks);
  }

  lemma {:induction false} BusyWorker(workers: seq<Worker>, w: nat)
    requires w < |workers| && !workers[w].Free?
    ensures Busy(workers) > 0
  {
    if w > 0 {
      BusyWorker(workers[1..], w - 1);
    }
  }

  /** A worker with a failed item always finds room in the queue while at most
      5000 names are in processing. */
  lemma RequeueNeverBlocks(s: State, w: nat)
    requires Exclusive(s) && |s.marks| <= 5000
    requires w < |s.workers| && s.workers[w].Requeuing?
    ensures |s.queue| < 5000 && Enabled(s, WorkerRequeue(w))
  {
    QueueBound(s);
    BusyWorker(s.workers, w);
  }

  /** The queue takes an item exactly while it holds fewer than 5000. */
  lemma QueueTakesItems(s: State, k: nat)
    ensures k < |s.handlers| && s.handlers[k].Enqueuing? ==> (Enabled(s, HandlerEnqueue(k)) <==> |s.queue| < 5000)
    ensures k < |s.workers| && s.workers[k].Requeuing? ==> (Enabled(s, WorkerRequeue(k)) <==> |s.queue| < 5000)
  {
  }

  // ---- nobody is stuck ----

  predicate StepOfHandler(step: Step, h: nat) {
    IsHandlerStep(step) && !step.HandlerStart? && step.h == h
  }

  predicate StepOfWorker(step: Step, w: nat) {
    IsWorkerStep(step) && step.w == w
  }

  lemma EnqueueNeverBlocks(s: State, h: nat)
    requires Exclusive(s) && |s.marks| <= 5000
    requires h < |s.handlers| && s.handlers[h].Enqueuing?
    ensures |s.queue| < 5000 && Enabled(s, HandlerEnqueue(h))
  {
    HandlersAndQueue(s);
    HandlerCounts(s.handlers, h);
  }

  lemma HandlerCounts(handlers: seq<Handler>, h: nat)
    requires h < |handlers| && handlers[h].Enqueuing?
    ensures |Sum(HandlerNames, handlers)| > 0
  {
    SumUpdate(HandlerNames, handlers, h, handlers[h]);
    assert handlers[h].item.node in Sum(HandlerNames, handlers);
  }

  lemma HandlersAndQueue(s: State)
    requires Exclusive(s)
    ensures |Sum(HandlerNames, s.handlers)| + |s.queue| <= |s.marks|
  {
    CountItems(s.queue);
    MarksAreOwned(s);
    CountMarks(s.marks);
  }

  /** Deadlock freedom: with at most 5000 names in processing, every call that has not returned and
      every worker that holds something can take a step of its own, whatever the API server
      and the network service answer and however the start went. */
  lemma NobodyIsStuck(s: State, k: nat)
    requires Exclusive(s) && |s.marks| <= 5000
    ensures k < |s.handlers| && !s.handlers[k].Idle? ==> exists step :: StepOfHandler(step, k) && Enabled(s, step)
    ensures k < |s.workers| && !s.workers[k].Free? ==> exists step :: StepOfWorker(step, k) && Enabled(s, step)
  {
    if k < |s.handlers| && !s.handlers[k].Idle? {
      var step := HandlerGoesOn(s, k);
    }
    if k < |s.workers| && !s.workers[k].Free? {
      var step := WorkerGoesOn(s, k);
    }
  }

  lemma HandlerGoesOn(s: State, h: nat) returns (step: Step)
    requires Exclusive(s) && |s.marks| <= 5000 && h < |s.handlers| && !s.handlers[h].Idle?
    ensures StepOfHandler(step, h) && Enabled(s, step)
  {
    match s.handlers[h] {
      case Occupying(_, _) => step := HandlerOccupy(h);
      case Waiting(_) => step := HandlerCancel(h);
      case Enqueuing(_) =>
        EnqueueNeverBlocks(s, h);
        step := HandlerEnqueue(h);
      case Unmarking(_) => step := HandlerUnmark(h);
    }
  }

  lemma WorkerGoesOn(s: State, w: nat) returns (step: Step)
    requires Exclusive(s) && |s.marks| <= 5000 && w < |s.workers| && !s.workers[w].Free?
    ensures StepOfWorker(step, w) && Enabled(s, step)
  {
    match s.workers[w] {
      case Took(_) => step := WorkerGetError(w);
      case Got(_, _) => step := WorkerDecide(w, Networks.None);
      case Patching(_, _, attempts, _) => step := if attempts == 0 then WorkerGiveUp(w) else WorkerPatch(w, Rejected);
      case Requeuing(_) =>
        RequeueNeverBlocks(s, w);
        step := WorkerRequeue(w);
      case Finishing(_) => step := WorkerUnmark(w);
    }
  }

  /** The environment is free: nodes come and go, and stale events arrive, at any time. */
  lemma AnythingMayHappen(s: State, node: Name, id: nat)
    ensures node !in s.api ==> Enabled(s, ApiCreate(node))
    ensures node in s.api && id !in s.deletes ==> Enabled(s, ApiDelete(node, id))
    ensures Enabled(s, HandlerStart(node, [])) && (node in s.api ==> Enabled(s, HandlerStart(node, s.api[node])))
    ensures s.gate.Unlisted? ==> Enabled(s, ReconcileError)
  {
  }

  /** Any request may fail, and an attempt on a node that is there may reach it, seen or unseen. */
  lemma AnyAnswerMayCome(s: State, k: nat)
    ensures k < |s.handlers| && s.handlers[k].Waiting? ==> Enabled(s, HandlerCancel(k))
    ensures k < |s.workers| && s.workers[k].Took? ==> Enabled(s, WorkerGetError(k))
    ensures k < |s.workers| && s.workers[k].Patching? && s.workers[k].attempts > 0 ==>
              forall outcome :: Enabled(s, WorkerPatch(k, outcome)) <==> outcome.Rejected? || s.workers[k].item.node in s.api
  {
  }
}
