/** Items whose node is gone: the worker's Get fails, the item goes back to the queue, and so on
    for ever, so the block never comes back although the accounting is exact. */
module Orphans {
  import opened Networks
  import opened Protocol
  import opened Ownership
  import opened Ledger
  import opened Accounting

  /** The node of an item in flight is absent, and no worker holds an older answer of the API
      server that shows CIDRs. */
  ghost predicate Orphaned(s: State, item: Item) {
    && item in Items(s) && item.node !in s.api
    && forall w :: 0 <= w < |s.workers| && s.workers[w].Got? && s.workers[w].item == item ==> s.workers[w].spec == []
  }

  // ---- how an item leaves ----

  /** Worker w releases the item, because the node showed CIDRs, or has patched the node. */
  predicate Disposes(s: State, step: Step, item: Item) {
    match step
    case WorkerDecide(w, _) => w < |s.workers| && s.workers[w].Got? && s.workers[w].item == item && s.workers[w].spec != []
    case WorkerPatch(w, outcome) =>
      && w < |s.workers| && s.workers[w].Patching? && s.workers[w].item == item
      && !outcome.Rejected? && item.node in s.api
    case _ => false
  }

  lemma WorkerKeepsItem(s: State, s': State, w: nat, item: Item)
    requires w < |s.workers| == |s'.workers| && s'.handlers == s.handlers && s'.queue == s.queue
    requires s'.workers == s.workers[w := s'.workers[w]]
    requires WorkerItems(s'.workers[w])[item] >= WorkerItems(s.workers[w])[item]
    ensures Items(s')[item] >= Items(s)[item]
  {
    WorkerItemsMove(s, w, s'.workers[w]);
    SameItems(s.(workers := s'.workers), s');
  }

  lemma DecidingKeepsItem(p: Params, s: State, w: nat, prefix: Option<Net>, item: Item)
    requires w < |s.workers| && s.workers[w].Got? && (prefix.Some? ==> prefix.value.family.V6?)
    requires s.workers[w].item == item ==> s.workers[w].spec == []
    ensures Items(Dispose(p, s, w, prefix))[item] >= Items(s)[item]
  {
    WorkerKeepsItem(s, Dispose(p, s, w, prefix), w, item);
  }

  lemma PatchingKeepsItem(s: State, w: nat, outcome: PatchOutcome, item: Item)
    requires w < |s.workers| && s.workers[w].Patching? && s.workers[w].attempts > 0
    requires !outcome.Rejected? ==> s.workers[w].item != item
    ensures Items(Patch(s, w, outcome))[item] >= Items(s)[item]
  {
    WorkerKeepsItem(s, Patch(s, w, outcome), w, item);
  }

  lemma AllocatingKeepsItem(p: Params, s: State, h: nat, item: Item)
    requires s.Valid(p) && h < |s.handlers| && s.handlers[h].Waiting?
    ensures Items(Allocate(p, s, h))[item] >= Items(s)[item]
  {
    if s.bitmap.Full() {
      HandlerKeepsItems(s, Allocate(p, s, h), h);
    } else {
      ItemAppears(s, Allocate(p, s, h), h, Reserve(p, s.handlers[h].node, s.bitmap.NextFree()));
    }
  }

  lemma HandlerStepKeepsItem(p: Params, s: State, step: Step, item: Item)
    requires s.Valid(p) && Enabled(s, step) && IsHandlerStep(step)
    ensures Items(Next(p, s, step))[item] >= Items(s)[item]
  {
    match step {
      case HandlerStart(node, spec) => StartKeepsItems(s, node, spec);
      case HandlerOccupy(h) => HandlerKeepsItems(s, OccupyNode(p, s, h), h);
      case HandlerAllocate(h) => AllocatingKeepsItem(p, s, h, item);
      case HandlerCancel(h) => HandlerKeepsItems(s, Next(p, s, step), h);
      case HandlerEnqueue(h) => EnqueueKeepsItems(s, Next(p, s, step), h);
      case HandlerUnmark(h) => HandlerKeepsItems(s, Next(p, s, step), h);
    }
  }

  lemma WorkerStepKeepsItem(p: Params, s: State, step: Step, item: Item)
    requires s.Valid(p) && Enabled(s, step) && IsWorkerStep(step) && !Disposes(s, step, item)
    ensures Items(Next(p, s, step))[item] >= Items(s)[item]
  {
    match step {
      case WorkerTake(w) => TakeKeepsItems(s, Next(p, s, step), w);
      case WorkerGet(w) => WorkerKeepsItem(s, Next(p, s, step), w, item);
      case WorkerGetError(w) => WorkerKeepsItem(s, Next(p, s, step), w, item);
      case WorkerDecide(w, prefix) => DecidingKeepsItem(p, s, w, prefix, item);
      case WorkerPatch(w, outcome) => PatchingKeepsItem(s, w, outcome, item);
      case WorkerGiveUp(w) => WorkerKeepsItem(s, GiveUp(p, s, w), w, item);
      case WorkerRequeue(w) => RequeueKeepsItems(s, Next(p, s, step), w);
      case WorkerUnmark(w) => WorkerKeepsItem(s, Next(p, s, step), w, item);
    }
  }

  /** An item leaves the flight in two ways only, and both need an answer of the API server for
      a node that is there, or was when it was asked. */
  lemma ItemStays(p: Params, s: State, step: Step, item: Item)
    requires s.Valid(p) && Enabled(s, step) && item in Items(s) && !Disposes(s, step, item)
    ensures item in Items(Next(p, s, step))
  {
    if IsHandlerStep(step) {
      HandlerStepKeepsItem(p, s, step, item);
    } else if IsWorkerStep(step) {
      WorkerStepKeepsItem(p, s, step, item);
    } else {
      OtherStepsKeepThreads(p, s, step);
      SameItems(s, Next(p, s, step));
    }
  }

  // ---- an orphaned item ----

  lemma StaysAbsent(p: Params, s: State, step: Step, node: Name)
    requires s.Valid(p) && Enabled(s, step) && node !in s.api && step != ApiCreate(node)
    ensures node !in Next(p, s, step).api
  {
    match step {
      case ApiCreate(n) =>
      case ApiDelete(n, id) =>
      case DeleteHandler(id) =>
      case WorkerPatch(w, outcome) => assert node !in Patch(s, w, outcome).api;
      case _ => ApiUnchanged(p, s, step);
    }
  }

  lemma NoNewAnswer(p: Params, s: State, step: Step, w: nat)
    requires s.Valid(p) && Enabled(s, step)
    requires w < |Next(p, s, step).workers| && Next(p, s, step).workers[w].Got?
    ensures var x := Next(p, s, step).workers[w];
            (w < |s.workers| && s.workers[w] == x) || x.item.node in s.api
  {
    if IsWorkerStep(step) {
      OneSlotMoves(p, s, step);
      NoAnswerLeft(s, Next(p, s, step), step.w, w);
    } else {
      OthersKeepWorkers(p, s, step);
    }
  }

  lemma NoAnswerLeft(s: State, s': State, v: nat, w: nat)
    requires v < |s.workers| == |s'.workers| && s'.workers == s.workers[v := s'.workers[v]]
    requires w < |s.workers| && s'.workers[w].Got?
    requires s'.workers[v].Got? ==> s'.workers[v].item.node in s.api
    ensures s.workers[w] == s'.workers[w] || s'.workers[w].item.node in s.api
  {
  }

  lemma StaysOrphaned(p: Params, s: State, step: Step, item: Item)
    requires s.Valid(p) && Enabled(s, step) && Orphaned(s, item) && step != ApiCreate(item.node)
    ensures Orphaned(Next(p, s, step), item)
  {
    var s' := Next(p, s, step);
    ItemStays(p, s, step, item);
    StaysAbsent(p, s, step, item.node);
    forall w | 0 <= w < |s'.workers| && s'.workers[w].Got? && s'.workers[w].item == item
      ensures s'.workers[w].spec == []
    {
      NoNewAnswer(p, s, step, w);
    }
  }

  ghost predicate NeverCreated(steps: seq<Step>, node: Name) {
    forall k :: 0 <= k < |steps| ==> steps[k] != ApiCreate(node)
  }

  lemma {:induction false} OrphanedUpTo(p: Params, states: seq<State>, steps: seq<Step>, k: nat, item: Item)
    requires IsRun(p, states, steps) && k < |states| && Orphaned(states[0], item) && NeverCreated(steps, item.node)
    ensures Orphaned(states[k], item)
  {
    if k > 0 {
      OrphanedUpTo(p, states, steps, k - 1, item);
      StaysOrphaned(p, states[k - 1], steps[k - 1], item);
    }
  }

  lemma {:induction false} SumMember<A, B>(f: A -> multiset<B>, s: seq<A>, b: B) returns (k: nat)
    requires b in Sum(f, s)
    ensures k < |s| && b in f(s[k])
  {
    if b in f(s[0]) {
      k := 0;
    } else {
      k := SumMember(f, s[1..], b);
      k := k + 1;
    }
  }

  lemma HandlerOwnsBlock(p: Params, s: State, item: Item)
    requires Exclusive(s) && HandlersOk(p, s.handlers) && item in Sum(HandlerItems, s.handlers)
    ensures IsBlock(p, item.cidr) && item.node in s.marks
  {
    var h := SumMember(HandlerItems, s.handlers, item);
    HandlerMove(s, h, Idle);
    assert HandlerOk(p, s.handlers[h]);
    IsMarkedName(s, HandlerNames(s.handlers[h]), item.node);
  }

  lemma QueueOwnsBlock(p: Params, s: State, item: Item)
    requires Exclusive(s) && QueueOk(p, s.queue) && item in Sum(QueueItems, s.queue)
    ensures IsBlock(p, item.cidr) && item.node in s.marks
  {
    var k := SumMember(QueueItems, s.queue, item);
    SumUpdate(ItemNames, s.queue, k, s.queue[k]);
    IsMarkedName(s, ItemNames(s.queue[k]), item.node);
  }

  lemma WorkerOwnsBlock(p: Params, s: State, item: Item)
    requires Exclusive(s) && WorkersOk(p, s.api, s.workers) && item in Sum(WorkerItems, s.workers)
    ensures IsBlock(p, item.cidr) && item.node in s.marks
  {
    var w := SumMember(WorkerItems, s.workers, item);
    WorkerMove(s, w, Free);
    assert WorkerOk(p, s.api, s.workers[w]);
    IsMarkedName(s, WorkerNames(s.workers[w]), item.node);
  }

  lemma IsMarkedName(s: State, names: multiset<Name>, node: Name)
    requires Exclusive(s) && names <= Owned(s) && node in names
    ensures node in s.marks
  {
    assert Owned(s)[node] > 0;
  }

  /** An item in flight is a block, and its node is in processing. */
  lemma ItemIsOwnedBlock(p: Params, s: State, item: Item)
    requires Threads(p, s) && item in Items(s)
    ensures IsBlock(p, item.cidr) && item.node in s.marks
  {
    if item in Sum(HandlerItems, s.handlers) {
      HandlerOwnsBlock(p, s, item);
    } else if item in Sum(QueueItems, s.queue) {
      QueueOwnsBlock(p, s, item);
    } else {
      WorkerOwnsBlock(p, s, item);
    }
  }

  lemma ItemIsMarked(p: Params, s: State, item: Item)
    requires Safe(p, BookOf(s)) && item in Items(s)
    ensures p.cfg.BlocksOf(item.cidr) <= s.bitmap.used
  {
    forall i | i in p.cfg.BlocksOf(item.cidr)
      ensures i in s.bitmap.used
    {
      assert i in Held(p, BookOf(s), OwnItem(item));
    }
  }

  /** Over every run without a fault: once its node is gone, and until a node of that name is
      created again, an item stays in flight, its block stays marked and its name in
      processing. */
  lemma OrphanKeepsItsBlock(p: Params, states: seq<State>, steps: seq<Step>, k: nat, item: Item)
    requires IsRun(p, states, steps) && SafeState(p, states[0]) && k < |states| && NoFaultFrom(states, steps, 0)
    requires Orphaned(states[0], item) && NeverCreated(steps, item.node)
    ensures item in Items(states[k]) && item.node in states[k].marks
    ensures p.cfg.BlocksOf(item.cidr) != {} && p.cfg.BlocksOf(item.cidr) <= states[k].bitmap.used
  {
    OrphanedUpTo(p, states, steps, k, item);
    SafeUpTo(p, states, steps, k);
    ItemIsOwnedBlock(p, states[k], item);
    ItemIsMarked(p, states[k], item);
    SpecOfBlock(p, item.cidr, IPNet(V6, 0, 0));
  }
}
