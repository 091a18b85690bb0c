/** Accounting over every run once the gate is open: the used bits are exactly the disjoint
    union of the blocks held by nodes, by reservations in flight and by pending deletions, as
    long as no step loses track of a patch; and precisely those steps break it. */
module Accounting {
  import opened Networks
  import opened Blocks
  import opened Protocol
  import opened Ownership
  import opened Ledger

  // ---- reservations in flight ----

  function HandlerItems(h: Handler): multiset<Item> {
    if h.Enqueuing? then multiset{h.item} else multiset{}
  }

  function QueueItems(item: Item): multiset<Item> { multiset{item} }

  /** A worker holds the reservation of its item until an attempt has reached the node. */
  function WorkerItems(w: Worker): multiset<Item> {
    match w
    case Free => multiset{}
    case Finishing(_) => multiset{}
    case Patching(item, _, _, applied) => if applied then multiset{} else multiset{item}
    case _ => multiset{w.item}
  }

  function Items(s: State): multiset<Item> {
    Sum(HandlerItems, s.handlers) + Sum(QueueItems, s.queue) + Sum(WorkerItems, s.workers)
  }

  function BookOf(s: State): Book { Book(s.api, Items(s), s.deletes, s.bitmap.used) }

  // ---- invariants ----

  ghost predicate Unassigned(api: map<Name, Spec>, node: Name) {
    node in api ==> api[node] == []
  }

  /** The list is the reserved CIDR, in dual-stack with an IPv6 prefix in the configured order. */
  ghost predicate FullList(p: Params, cidr: Net, cidrs: Spec) {
    if !p.dualStack then cidrs == [cidr]
    else exists prefix: Net :: prefix.family.V6? && cidrs == PodCIDRs(p, cidr, prefix)
  }

  ghost predicate WorkerOk(p: Params, api: map<Name, Spec>, w: Worker) {
    match w
    case Free => true
    case Finishing(_) => true
    case Got(item, spec) =>
      IsBlock(p, item.cidr) && spec != [item.cidr] && (spec == [] ==> Unassigned(api, item.node))
    case Patching(item, cidrs, _, applied) =>
      && IsBlock(p, item.cidr) && cidrs != [] && SpecBlocks(p, cidrs) == p.cfg.BlocksOf(item.cidr)
      && FullList(p, item.cidr, cidrs)
      && (item.node in api ==> api[item.node] == [] || (applied && api[item.node] == cidrs))
    case _ => IsBlock(p, w.item.cidr)
  }

  ghost predicate HandlerOk(p: Params, h: Handler) {
    h.Enqueuing? ==> IsBlock(p, h.item.cidr)
  }

  ghost predicate HandlersOk(p: Params, handlers: seq<Handler>) {
    forall k :: 0 <= k < |handlers| ==> HandlerOk(p, handlers[k])
  }

  ghost predicate QueueOk(p: Params, queue: seq<Item>) {
    forall k :: 0 <= k < |queue| ==> IsBlock(p, queue[k].cidr)
  }

  ghost predicate WorkersOk(p: Params, api: map<Name, Spec>, workers: seq<Worker>) {
    forall k :: 0 <= k < |workers| ==> WorkerOk(p, api, workers[k])
  }

  /** What every fault-free run keeps about threads. */
  ghost predicate Threads(p: Params, s: State) {
    && s.Valid(p) && s.gate.Open? && Exclusive(s)
    && HandlersOk(p, s.handlers) && QueueOk(p, s.queue) && WorkersOk(p, s.api, s.workers)
  }

  /** Add handlers still running concern nodes whose deletion has not been handled. */
  ghost predicate AddsAreLive(s: State) {
    forall h: nat :: h < |s.handlers| && s.handlers[h].Occupying? ==>
      Live(s, s.handlers[h].node, s.handlers[h].spec)
  }

  ghost predicate SafeState(p: Params, s: State) {
    Threads(p, s) && Safe(p, BookOf(s))
  }

  ghost predicate ExactState(p: Params, s: State) {
    Threads(p, s) && AddsAreLive(s) && Exact(p, BookOf(s))
  }

  /** The steps that lose track of a patch: giving up after the last attempt, and patching a
      node again that was deleted and created anew after an attempt had reached it unseen. */
  predicate Fault(s: State, step: Step) {
    match step
    case WorkerGiveUp(w) => true
    case WorkerPatch(w, outcome) =>
      && w < |s.workers| && s.workers[w].Patching? && s.workers[w].applied && !outcome.Rejected?
      && s.workers[w].item.node in s.api && s.api[s.workers[w].item.node] == []
    case _ => false
  }

  // ---- how Items moves ----

  lemma HandlerItemsMove(s: State, h: nat, x: Handler)
    requires h < |s.handlers|
    ensures forall i: Item :: Items(s.(handlers := s.handlers[h := x]))[i] + HandlerItems(s.handlers[h])[i]
                           == Items(s)[i] + HandlerItems(x)[i]
    ensures forall i: Item :: HandlerItems(s.handlers[h])[i] <= Items(s)[i]
  {
    SumUpdate(HandlerItems, s.handlers, h, x);
  }

  lemma WorkerItemsMove(s: State, w: nat, x: Worker)
    requires w < |s.workers|
    ensures forall i: Item :: Items(s.(workers := s.workers[w := x]))[i] + WorkerItems(s.workers[w])[i]
                           == Items(s)[i] + WorkerItems(x)[i]
    ensures forall i: Item :: WorkerItems(s.workers[w])[i] <= Items(s)[i]
  {
    SumUpdate(WorkerItems, s.workers, w, x);
  }

  lemma SameItems(s: State, s': State)
    requires forall i: Item :: Items(s')[i] == Items(s)[i]
    ensures Items(s') == Items(s)
  {
  }

  // ---- steps of handlers ----

  ghost predicate Kept(p: Params, s: State, s': State) {
    && Safe(p, BookOf(s'))
    && (NoLeak(p, BookOf(s)) ==> NoLeak(p, BookOf(s')))
  }

  /** A step that moves items but changes no holding and no bit. */
  lemma BookUnchanged(p: Params, s: State, s': State)
    requires s'.api == s.api && s'.deletes == s.deletes && s'.bitmap.used == s.bitmap.used
    requires Items(s') == Items(s) && Safe(p, BookOf(s))
    ensures Kept(p, s, s')
  {
    assert BookOf(s') == BookOf(s);
  }

  lemma HandlerKeepsItems(s: State, s': State, h: nat)
    requires h < |s.handlers| == |s'.handlers| && s'.handlers == s.handlers[h := s'.handlers[h]]
    requires s'.queue == s.queue && s'.workers == s.workers
    requires HandlerItems(s'.handlers[h]) == HandlerItems(s.handlers[h])
    ensures Items(s') == Items(s)
  {
    HandlerItemsMove(s, h, s'.handlers[h]);
    SameItems(s.(handlers := s'.handlers), s');
    SameItems(s, s');
  }

  lemma WorkerKeepsItems(s: State, s': State, w: nat)
    requires w < |s.workers| == |s'.workers| && s'.handlers == s.handlers && s'.queue == s.queue
    requires s'.workers == s.workers[w := s'.workers[w]] && WorkerItems(s'.workers[w]) == WorkerItems(s.workers[w])
    ensures Items(s') == Items(s)
  {
    WorkerItemsMove(s, w, s'.workers[w]);
    SameItems(s.(workers := s'.workers), s');
    SameItems(s, s');
  }

  lemma StartKeepsItems(s: State, node: Name, spec: Spec)
    ensures Items(Start(s, node, spec)) == Items(s)
  {
    var x := if spec == [] then Waiting(node) else Occupying(node, spec);
    SumAppend(HandlerItems, s.handlers, x);
    SameItems(s, Start(s, node, spec));
  }

  lemma EnqueueKeepsItems(s: State, s': State, h: nat)
    requires h < |s.handlers| && s.handlers[h].Enqueuing? && s'.handlers == s.handlers[h := Idle]
    requires s'.workers == s.workers && s'.queue == s.queue + [s.handlers[h].item]
    ensures Items(s') == Items(s)
  {
    SumUpdate(HandlerItems, s.handlers, h, Idle);
    SumAppend(QueueItems, s.queue, s.handlers[h].item);
    SameItems(s, s');
  }

  lemma TakeKeepsItems(s: State, s': State, w: nat)
    requires w < |s.workers| && s.workers[w].Free? && s.queue != []
    requires s'.handlers == s.handlers && s'.queue == s.queue[1..]
    requires s'.workers == s.workers[w := Took(s.queue[0])]
    ensures Items(s') == Items(s)
  {
    SumUpdate(WorkerItems, s.workers, w, Took(s.queue[0]));
    SameItems(s, s');
  }

  lemma RequeueKeepsItems(s: State, s': State, w: nat)
    requires w < |s.workers| && s.workers[w].Requeuing? && s'.workers == s.workers[w := Free]
    requires s'.handlers == s.handlers && s'.queue == s.queue + [s.workers[w].item]
    ensures Items(s') == Items(s)
  {
    SumUpdate(WorkerItems, s.workers, w, Free);
    SumAppend(QueueItems, s.queue, s.workers[w].item);
    SameItems(s, s');
  }

  lemma HandlerMoves(p: Params, s: State, s': State, h: nat)
    requires Safe(p, BookOf(s)) && h < |s.handlers| == |s'.handlers|
    requires s' == s.(handlers := s.handlers[h := s'.handlers[h]], marks := s'.marks)
    requires HandlerItems(s'.handlers[h]) == HandlerItems(s.handlers[h])
    ensures Kept(p, s, s')
  {
    HandlerKeepsItems(s, s', h);
    BookUnchanged(p, s, s');
  }

  lemma Starts(p: Params, s: State, node: Name, spec: Spec)
    requires Safe(p, BookOf(s))
    ensures Kept(p, s, Start(s, node, spec))
  {
    StartKeepsItems(s, node, spec);
    BookUnchanged(p, s, Start(s, node, spec));
  }

  lemma Enqueues(p: Params, s: State, h: nat)
    requires s.Valid(p) && Enabled(s, HandlerEnqueue(h)) && Safe(p, BookOf(s))
    ensures Kept(p, s, Next(p, s, HandlerEnqueue(h)))
  {
    EnqueueKeepsItems(s, Next(p, s, HandlerEnqueue(h)), h);
    BookUnchanged(p, s, Next(p, s, HandlerEnqueue(h)));
  }

  lemma Occupies(p: Params, s: State, h: nat)
    requires s.Valid(p) && Enabled(s, HandlerOccupy(h)) && Safe(p, BookOf(s))
    ensures Safe(p, BookOf(OccupyNode(p, s, h)))
    ensures NoLeak(p, BookOf(s)) && AddsAreLive(s) ==> NoLeak(p, BookOf(OccupyNode(p, s, h)))
  {
    var s' := OccupyNode(p, s, h);
    var node, spec := s.handlers[h].node, s.handlers[h].spec;
    HandlerItemsMove(s, h, Unmarking(node));
    SameItems(s, s');
    Marked(p, BookOf(s), SpecBlocks(p, spec));
    OccupiedBits(p, s, spec);
    if AddsAreLive(s) {
      LiveIsHeld(p, s, node, spec);
    }
  }

  lemma OccupiedBits(p: Params, s: State, spec: Spec)
    requires s.Valid(p)
    ensures s.bitmap.Occupy(SpecBlocks(p, spec)).used == s.bitmap.used + SpecBlocks(p, spec)
  {
  }

  lemma LiveIsHeld(p: Params, s: State, node: Name, spec: Spec)
    requires Live(s, node, spec)
    ensures exists o :: SpecBlocks(p, spec) == Held(p, BookOf(s), o)
  {
    if node in s.api && s.api[node] == spec {
      assert SpecBlocks(p, spec) == Held(p, BookOf(s), OwnNode(node));
    } else {
      var id :| id in s.deletes && s.deletes[id] == NodeSpec(node, spec);
      assert SpecBlocks(p, spec) == Held(p, BookOf(s), OwnDelete(id));
    }
  }

  lemma Allocates(p: Params, s: State, h: nat)
    requires s.Valid(p) && Enabled(s, HandlerAllocate(h)) && Safe(p, BookOf(s))
    ensures Kept(p, s, Allocate(p, s, h))
  {
    if s.bitmap.Full() {
      HandlerMoves(p, s, Allocate(p, s, h), h);
    } else {
      var i := s.bitmap.NextFree();
      var item := Reserve(p, s.handlers[h].node, i);
      BlocksOfBlock(p.cfg, i);
      ItemAppears(s, Allocate(p, s, h), h, item);
      Reserved(p, BookOf(s), item, i);
      assert BookOf(Allocate(p, s, h)) == BookOf(s).(items := Items(s) + multiset{item}, used := s.bitmap.used + {i});
    }
  }

  lemma ItemAppears(s: State, s': State, h: nat, item: Item)
    requires h < |s.handlers| && s.handlers[h].Waiting? && s'.handlers == s.handlers[h := Enqueuing(item)]
    requires s'.queue == s.queue && s'.workers == s.workers
    ensures Items(s') == Items(s) + multiset{item}
  {
    HandlerItemsMove(s, h, Enqueuing(item));
    SameItems(s.(handlers := s'.handlers), s');
  }

  // ---- steps of workers ----

  lemma WorkerMoves(p: Params, s: State, s': State, w: nat)
    requires Safe(p, BookOf(s)) && w < |s.workers| == |s'.workers|
    requires s' == s.(workers := s.workers[w := s'.workers[w]], marks := s'.marks)
    requires WorkerItems(s'.workers[w]) == WorkerItems(s.workers[w])
    ensures Kept(p, s, s')
  {
    WorkerKeepsItems(s, s', w);
    BookUnchanged(p, s, s');
  }

  lemma Takes(p: Params, s: State, w: nat)
    requires s.Valid(p) && Enabled(s, WorkerTake(w)) && Safe(p, BookOf(s))
    ensures Kept(p, s, Next(p, s, WorkerTake(w)))
  {
    TakeKeepsItems(s, Next(p, s, WorkerTake(w)), w);
    BookUnchanged(p, s, Next(p, s, WorkerTake(w)));
  }

  lemma Requeues(p: Params, s: State, w: nat)
    requires s.Valid(p) && Enabled(s, WorkerRequeue(w)) && Safe(p, BookOf(s))
    ensures Kept(p, s, Next(p, s, WorkerRequeue(w)))
  {
    RequeueKeepsItems(s, Next(p, s, WorkerRequeue(w)), w);
    BookUnchanged(p, s, Next(p, s, WorkerRequeue(w)));
  }

  /** The reservation of a worker leaves the flight. */
  lemma ItemLeaves(p: Params, s: State, s': State, w: nat, item: Item)
    requires Safe(p, BookOf(s)) && w < |s.workers| == |s'.workers|
    requires s'.handlers == s.handlers && s'.queue == s.queue && s'.workers == s.workers[w := s'.workers[w]]
    requires WorkerItems(s.workers[w]) == multiset{item} && WorkerItems(s'.workers[w]) == multiset{}
    ensures item in Items(s) && item !in Items(s')
    ensures forall i: Item :: i != item ==> Items(s')[i] == Items(s)[i]
    ensures forall i: Item :: Items(s')[i] <= Items(s)[i]
  {
    WorkerItemsMove(s, w, s'.workers[w]);
    SameItems(s.(workers := s'.workers), s');
    assert BookOf(s).items[item] <= 1;
  }

  lemma Disposes(p: Params, s: State, w: nat, prefix: Option<Net>)
    requires w < |s.workers| && s.workers[w].Got? && (prefix.Some? ==> prefix.value.family.V6?)
    requires WorkerOk(p, s.api, s.workers[w]) && Safe(p, BookOf(s))
    ensures Kept(p, s, Dispose(p, s, w, prefix))
  {
    var decision := Decide(p, s.workers[w].item, s.workers[w].spec, prefix);
    if decision.ReleaseReserved? {
      ReturnsBlock(p, s, Dispose(p, s, w, prefix), w, s.workers[w].item);
    } else {
      KeepsReservation(p, s, w, prefix);
    }
  }

  lemma KeepsReservation(p: Params, s: State, w: nat, prefix: Option<Net>)
    requires w < |s.workers| && s.workers[w].Got? && (prefix.Some? ==> prefix.value.family.V6?)
    requires Decide(p, s.workers[w].item, s.workers[w].spec, prefix) != ReleaseReserved
    requires WorkerOk(p, s.api, s.workers[w]) && Safe(p, BookOf(s))
    ensures Kept(p, s, Dispose(p, s, w, prefix))
  {
    WorkerMoves(p, s, Dispose(p, s, w, prefix), w);
  }

  lemma ReturnsBlock(p: Params, s: State, s': State, w: nat, item: Item)
    requires Safe(p, BookOf(s)) && w < |s.workers| && WorkerItems(s.workers[w]) == multiset{item}
    requires s' == s.(bitmap := s.bitmap.Release(p.cfg.BlocksOf(item.cidr)),
                      workers := s.workers[w := Finishing(item.node)])
    ensures Kept(p, s, s')
  {
    ItemLeaves(p, s, s', w, item);
    ItemIsGivenBack(p, BookOf(s), BookOf(s'), item);
  }

  lemma ItemIsGivenBack(p: Params, b: Book, b': Book, item: Item)
    requires Safe(p, b) && item in b.items && item !in b'.items
    requires b'.api == b.api && b'.deletes == b.deletes && b'.used == b.used - p.cfg.BlocksOf(item.cidr)
    requires forall i: Item :: i != item ==> b'.items[i] == b.items[i]
    requires forall i: Item :: b'.items[i] <= b.items[i]
    ensures Safe(p, b') && (NoLeak(p, b) ==> NoLeak(p, b'))
  {
    GivenBack(p, b, b', OwnItem(item));
  }

  lemma Patches(p: Params, s: State, w: nat, outcome: PatchOutcome)
    requires w < |s.workers| && s.workers[w].Patching? && s.workers[w].attempts > 0
    requires !outcome.Rejected? ==> s.workers[w].item.node in s.api
    requires !Fault(s, WorkerPatch(w, outcome))
    requires WorkerOk(p, s.api, s.workers[w]) && Safe(p, BookOf(s))
    ensures Kept(p, s, Patch(s, w, outcome))
  {
    if outcome.Rejected? {
      Rejects(p, s, w);
    } else if s.workers[w].applied {
      PatchesAgain(p, s, Patch(s, w, outcome), w);
    } else {
      PassesBlock(p, s, Patch(s, w, outcome), w);
    }
  }

  lemma Rejects(p: Params, s: State, w: nat)
    requires w < |s.workers| && s.workers[w].Patching? && s.workers[w].attempts > 0
    requires Safe(p, BookOf(s))
    ensures Kept(p, s, Patch(s, w, Rejected))
  {
    WorkerMoves(p, s, Patch(s, w, Rejected), w);
  }

  lemma PatchesAgain(p: Params, s: State, s': State, w: nat)
    requires Safe(p, BookOf(s)) && w < |s.workers| == |s'.workers|
    requires s.workers[w].Patching? && s.workers[w].item.node in s.api
    requires s.api[s.workers[w].item.node] == s.workers[w].cidrs
    requires s' == s.(api := s.api[s.workers[w].item.node := s.workers[w].cidrs],
                      workers := s.workers[w := s'.workers[w]])
    requires WorkerItems(s'.workers[w]) == WorkerItems(s.workers[w])
    ensures Kept(p, s, s')
  {
    assert s'.api == s.api;
    WorkerMoves(p, s, s', w);
  }

  lemma PassesBlock(p: Params, s: State, s': State, w: nat)
    requires Safe(p, BookOf(s)) && w < |s.workers| == |s'.workers|
    requires s.workers[w].Patching? && s.workers[w].item.node in s.api
    requires s.api[s.workers[w].item.node] == []
    requires SpecBlocks(p, s.workers[w].cidrs) == p.cfg.BlocksOf(s.workers[w].item.cidr)
    requires s' == s.(api := s.api[s.workers[w].item.node := s.workers[w].cidrs],
                      workers := s.workers[w := s'.workers[w]])
    requires WorkerItems(s.workers[w]) == multiset{s.workers[w].item} && WorkerItems(s'.workers[w]) == multiset{}
    ensures Kept(p, s, s')
  {
    var item := s.workers[w].item;
    ItemLeaves(p, s, s', w, item);
    NothingHeld(p);
    Passed(p, BookOf(s), BookOf(s'), OwnItem(item), OwnNode(item.node));
  }

  // ---- steps of the API server and the delete handler ----

  lemma Creates(p: Params, s: State, node: Name)
    requires s.Valid(p) && Enabled(s, ApiCreate(node)) && Safe(p, BookOf(s))
    ensures Kept(p, s, Next(p, s, ApiCreate(node)))
  {
    var s' := Next(p, s, ApiCreate(node));
    SameItems(s, s');
    NothingHeld(p);
    Ledger.Untouched(p, BookOf(s), BookOf(s'));
  }

  lemma Deletes(p: Params, s: State, node: Name, id: nat)
    requires s.Valid(p) && Enabled(s, ApiDelete(node, id)) && Safe(p, BookOf(s))
    ensures Kept(p, s, Next(p, s, ApiDelete(node, id)))
  {
    var s' := Next(p, s, ApiDelete(node, id));
    SameItems(s, s');
    Passed(p, BookOf(s), BookOf(s'), OwnNode(node), OwnDelete(id));
  }

  lemma HandlesDelete(p: Params, s: State, id: nat)
    requires s.Valid(p) && Enabled(s, DeleteHandler(id)) && Safe(p, BookOf(s))
    ensures Kept(p, s, HandleDelete(p, s, id))
  {
    var s' := HandleDelete(p, s, id);
    SameItems(s, s');
    GivenBack(p, BookOf(s), BookOf(s'), OwnDelete(id));
  }

  // ---- every step keeps the book ----

  lemma HandlerStepKeepsBook(p: Params, s: State, step: Step)
    requires Enabled(s, step) && SafeState(p, s) && IsHandlerStep(step)
    ensures Safe(p, BookOf(Next(p, s, step)))
    ensures NoLeak(p, BookOf(s)) && AddsAreLive(s) ==> NoLeak(p, BookOf(Next(p, s, step)))
  {
    match step {
      case HandlerStart(node, spec) => Starts(p, s, node, spec);
      case HandlerOccupy(h) => Occupies(p, s, h);
      case HandlerAllocate(h) => Allocates(p, s, h);
      case HandlerCancel(h) => HandlerMoves(p, s, Next(p, s, HandlerCancel(h)), h);
      case HandlerEnqueue(h) => Enqueues(p, s, h);
      case HandlerUnmark(h) => HandlerMoves(p, s, Next(p, s, HandlerUnmark(h)), h);
    }
  }

  lemma Gets(p: Params, s: State, w: nat)
    requires s.Valid(p) && Enabled(s, WorkerGet(w)) && Safe(p, BookOf(s))
    ensures Kept(p, s, Next(p, s, WorkerGet(w)))
  {
    WorkerMoves(p, s, Next(p, s, WorkerGet(w)), w);
  }

  lemma Fails(p: Params, s: State, w: nat)
    requires s.Valid(p) && Enabled(s, WorkerGetError(w)) && Safe(p, BookOf(s))
    ensures Kept(p, s, Next(p, s, WorkerGetError(w)))
  {
    WorkerMoves(p, s, Next(p, s, WorkerGetError(w)), w);
  }

  lemma WorkerStepKeepsBook(p: Params, s: State, step: Step)
    requires Enabled(s, step) && SafeState(p, s) && IsWorkerStep(step) && !Fault(s, step)
    ensures Kept(p, s, Next(p, s, step))
  {
    match step {
      case WorkerTake(w) => Takes(p, s, w);
      case WorkerGet(w) => Gets(p, s, w);
      case WorkerGetError(w) => Fails(p, s, w);
      case WorkerDecide(w, prefix) => Disposes(p, s, w, prefix);
      case WorkerPatch(w, outcome) => Patches(p, s, w, outcome);
      case WorkerRequeue(w) => Requeues(p, s, w);
      case WorkerUnmark(w) => WorkerMoves(p, s, Next(p, s, WorkerUnmark(w)), w);
    }
  }

  lemma OtherStepKeepsBook(p: Params, s: State, step: Step)
    requires Enabled(s, step) && SafeState(p, s) && !IsHandlerStep(step) && !IsWorkerStep(step)
    ensures Kept(p, s, Next(p, s, step))
  {
    match step {
      case DeleteHandler(id) => HandlesDelete(p, s, id);
      case ApiCreate(node) => Creates(p, s, node);
      case ApiDelete(node, id) => Deletes(p, s, node, id);
      case _ => assert false;
    }
  }

  // ---- every step keeps what is known of the threads ----

  lemma OneWorkerChanges(p: Params, api: map<Name, Spec>, workers: seq<Worker>, w: nat, x: Worker)
    requires w < |workers| && WorkersOk(p, api, workers) && WorkerOk(p, api, x)
    ensures WorkersOk(p, api, workers[w := x])
  {
  }

  lemma HandlersStayOk(p: Params, s: State, step: Step)
    requires s.Valid(p) && Enabled(s, step) && HandlersOk(p, s.handlers)
    ensures HandlersOk(p, Next(p, s, step).handlers)
  {
    if step.HandlerAllocate? {
      if !s.bitmap.Full() {
        assert IsBlock(p, Reserve(p, s.handlers[step.h].node, s.bitmap.NextFree()).cidr);
      }
    } else {
      NoNewReservation(p, s, step);
    }
  }

  lemma NoNewReservation(p: Params, s: State, step: Step)
    requires s.Valid(p) && Enabled(s, step) && !step.HandlerAllocate?
    ensures var handlers := Next(p, s, step).handlers;
            forall k :: 0 <= k < |handlers| && handlers[k].Enqueuing? ==> k < |s.handlers| && s.handlers[k] == handlers[k]
  {
  }

  lemma QueueStaysOk(p: Params, s: State, step: Step)
    requires s.Valid(p) && Enabled(s, step)
    requires HandlersOk(p, s.handlers) && QueueOk(p, s.queue) && WorkersOk(p, s.api, s.workers)
    ensures QueueOk(p, Next(p, s, step).queue)
  {
    if step.HandlerEnqueue? {
      assert HandlerOk(p, s.handlers[step.h]);
    } else if step.WorkerRequeue? {
      assert WorkerOk(p, s.api, s.workers[step.w]);
    } else {
      QueueShrinks(p, s, step);
    }
  }

  lemma QueueShrinks(p: Params, s: State, step: Step)
    requires s.Valid(p) && Enabled(s, step) && !step.HandlerEnqueue? && !step.WorkerRequeue?
    ensures Next(p, s, step).queue == if step.WorkerTake? then s.queue[1..] else s.queue
  {
  }

  /** Other workers do not notice a patch: they hold other names. */
  lemma OthersKeepWorking(p: Params, s: State, w: nat, cidrs: Spec, x: Worker)
    requires Exclusive(s) && WorkersOk(p, s.api, s.workers)
    requires w < |s.workers| && s.workers[w].Patching?
    requires WorkerOk(p, s.api[s.workers[w].item.node := cidrs], x)
    ensures WorkersOk(p, s.api[s.workers[w].item.node := cidrs], s.workers[w := x])
  {
    var api := s.api[s.workers[w].item.node := cidrs];
    forall k | 0 <= k < |s.workers| && k != w
      ensures WorkerOk(p, api, s.workers[k])
    {
      OneOwner(s, k, w);
      assert WorkerOk(p, s.api, s.workers[k]);
      assert s.workers[w].item.node in WorkerNames(s.workers[w]);
    }
  }

  lemma PatchKeepsWorkers(p: Params, s: State, w: nat, outcome: PatchOutcome)
    requires w < |s.workers| && s.workers[w].Patching? && s.workers[w].attempts > 0
    requires Exclusive(s) && WorkersOk(p, s.api, s.workers)
    ensures WorkersOk(p, Patch(s, w, outcome).api, Patch(s, w, outcome).workers)
  {
    var Patching(item, cidrs, attempts, applied) := s.workers[w];
    assert WorkerOk(p, s.api, s.workers[w]);
    match outcome {
      case Acked => OthersKeepWorking(p, s, w, cidrs, Finishing(item.node));
      case LostAck => OthersKeepWorking(p, s, w, cidrs, Patching(item, cidrs, attempts - 1, true));
      case Rejected => OneWorkerChanges(p, s.api, s.workers, w, Patching(item, cidrs, attempts - 1, applied));
    }
  }

  /** On a safe book the answer to a Get never shows the block that is still only reserved. */
  lemma GetIsNotAssigned(p: Params, s: State, w: nat)
    requires Safe(p, BookOf(s)) && WorkersOk(p, s.api, s.workers)
    requires w < |s.workers| && s.workers[w].Took? && s.workers[w].item.node in s.api
    ensures s.api[s.workers[w].item.node] != [s.workers[w].item.cidr]
  {
    var item := s.workers[w].item;
    WorkerItemsMove(s, w, Free);
    assert WorkerOk(p, s.api, s.workers[w]);
    assert WorkerItems(s.workers[w])[item] == 1;
    SpecOfBlock(p, item.cidr, IPNet(V6, 0, 0));
    var i :| i in p.cfg.BlocksOf(item.cidr);
    assert i in Held(p, BookOf(s), OwnItem(item));
    assert s.api[item.node] == [item.cidr] ==> i in Held(p, BookOf(s), OwnNode(item.node));
  }

  lemma DisposeKeepsWorkers(p: Params, s: State, w: nat, prefix: Option<Net>)
    requires w < |s.workers| && s.workers[w].Got? && (prefix.Some? ==> prefix.value.family.V6?)
    requires WorkersOk(p, s.api, s.workers)
    ensures WorkersOk(p, s.api, Dispose(p, s, w, prefix).workers)
  {
    var item := s.workers[w].item;
    assert WorkerOk(p, s.api, s.workers[w]);
    SpecOfBlock(p, item.cidr, if prefix.Some? then prefix.value else IPNet(V6, 0, 0));
    SpecOfBlock(p, item.cidr, IPNet(V6, 0, 0));
    OneWorkerChanges(p, s.api, s.workers, w, Dispose(p, s, w, prefix).workers[w]);
  }

  lemma PlainStepKeepsWorkers(p: Params, s: State, step: Step)
    requires s.Valid(p) && Enabled(s, step) && IsWorkerStep(step)
    requires !step.WorkerGet? && !step.WorkerDecide? && !step.WorkerPatch?
    requires QueueOk(p, s.queue) && WorkersOk(p, s.api, s.workers)
    ensures WorkersOk(p, Next(p, s, step).api, Next(p, s, step).workers)
  {
    match step {
      case WorkerTake(w) => OneWorkerChanges(p, s.api, s.workers, w, Took(s.queue[0]));
      case WorkerGetError(w) => ItemKeepsBlock(p, s, w);
      case WorkerGiveUp(w) => ItemKeepsBlock(p, s, w);
      case WorkerRequeue(w) => OneWorkerChanges(p, s.api, s.workers, w, Free);
      case WorkerUnmark(w) => OneWorkerChanges(p, s.api, s.workers, w, Free);
    }
  }

  lemma GetKeepsWorkers(p: Params, s: State, w: nat)
    requires w < |s.workers| && s.workers[w].Took? && s.workers[w].item.node in s.api
    requires Safe(p, BookOf(s)) && WorkersOk(p, s.api, s.workers)
    ensures WorkersOk(p, s.api, s.workers[w := Got(s.workers[w].item, s.api[s.workers[w].item.node])])
  {
    GetIsNotAssigned(p, s, w);
    assert WorkerOk(p, s.api, s.workers[w]);
    OneWorkerChanges(p, s.api, s.workers, w, Got(s.workers[w].item, s.api[s.workers[w].item.node]));
  }

  lemma ItemKeepsBlock(p: Params, s: State, w: nat)
    requires w < |s.workers| && (s.workers[w].Took? || s.workers[w].Patching?)
    requires WorkersOk(p, s.api, s.workers)
    ensures WorkersOk(p, s.api, s.workers[w := Requeuing(s.workers[w].item)])
  {
    assert WorkerOk(p, s.api, s.workers[w]);
    OneWorkerChanges(p, s.api, s.workers, w, Requeuing(s.workers[w].item));
  }

  /** Creating and deleting nodes leaves an unassigned node unassigned. */
  lemma ApiKeepsWorkers(p: Params, api: map<Name, Spec>, workers: seq<Worker>, node: Name)
    requires WorkersOk(p, api, workers)
    ensures WorkersOk(p, api - {node}, workers)
    ensures node !in api ==> WorkersOk(p, api[node := []], workers)
  {
    forall k | 0 <= k < |workers|
      ensures WorkerOk(p, api - {node}, workers[k])
      ensures node !in api ==> WorkerOk(p, api[node := []], workers[k])
    {
      assert WorkerOk(p, api, workers[k]);
    }
  }

  lemma WorkersStayOk(p: Params, s: State, step: Step)
    requires Enabled(s, step) && SafeState(p, s)
    ensures WorkersOk(p, Next(p, s, step).api, Next(p, s, step).workers)
  {
    if step.WorkerPatch? {
      PatchKeepsWorkers(p, s, step.w, step.outcome);
    } else if step.WorkerDecide? {
      DisposeKeepsWorkers(p, s, step.w, step.prefix);
    } else if step.WorkerGet? {
      GetKeepsWorkers(p, s, step.w);
    } else if IsWorkerStep(step) {
      PlainStepKeepsWorkers(p, s, step);
    } else if step.ApiCreate? || step.ApiDelete? {
      ApiKeepsWorkers(p, s.api, s.workers, step.node);
    } else {
      OthersKeepApi(p, s, step);
    }
  }

  lemma OthersKeepApi(p: Params, s: State, step: Step)
    requires s.Valid(p) && Enabled(s, step) && !IsWorkerStep(step) && !step.ApiCreate? && !step.ApiDelete?
    ensures Next(p, s, step).api == s.api && Next(p, s, step).workers == s.workers
  {
  }

  /** Add handlers still running stay live: a delete event waits for them. */
  lemma AddsStayLive(p: Params, s: State, step: Step)
    requires s.Valid(p) && Enabled(s, step) && Exclusive(s) && AddsAreLive(s)
    ensures AddsAreLive(Next(p, s, step))
  {
    var s' := Next(p, s, step);
    forall h: nat | h < |s'.handlers| && s'.handlers[h].Occupying?
      ensures Live(s', s'.handlers[h].node, s'.handlers[h].spec)
    {
      OccupyingBefore(p, s, step, h);
      if step.WorkerPatch? {
        OneOwner(s, step.w, h);
      }
      StaysLiveUnless(p, s, step, s'.handlers[h].node, s'.handlers[h].spec);
    }
  }

  /** What is live stays live unless its own deletion is handled or its node is patched. */
  lemma StaysLiveUnless(p: Params, s: State, step: Step, node: Name, spec: Spec)
    requires s.Valid(p) && Enabled(s, step) && Live(s, node, spec)
    requires step.DeleteHandler? ==> s.deletes[step.id] != NodeSpec(node, spec)
    requires step.WorkerPatch? ==> s.workers[step.w].item.node != node
    ensures Live(Next(p, s, step), node, spec)
  {
    match step {
      case ApiDelete(n, id) => LiveAfterDelete(p, s, n, id, node, spec);
      case DeleteHandler(id) => LiveCarriesOver(s, HandleDelete(p, s, id), node, spec);
      case WorkerPatch(w, outcome) => LiveAfterPatch(s, w, outcome, node, spec);
      case ApiCreate(n) => LiveCarriesOver(s, Next(p, s, ApiCreate(n)), node, spec);
      case _ => LiveUnlessApi(p, s, step, node, spec);
    }
  }

  lemma OccupyingBefore(p: Params, s: State, step: Step, h: nat)
    requires s.Valid(p) && Enabled(s, step) && AddsAreLive(s)
    requires h < |Next(p, s, step).handlers| && Next(p, s, step).handlers[h].Occupying?
    ensures Live(s, Next(p, s, step).handlers[h].node, Next(p, s, step).handlers[h].spec)
    ensures !step.HandlerStart? ==> h < |s.handlers| && s.handlers[h] == Next(p, s, step).handlers[h]
  {
    SlotBefore(p, s, step, h);
  }

  lemma SlotBefore(p: Params, s: State, step: Step, h: nat)
    requires s.Valid(p) && Enabled(s, step)
    requires h < |Next(p, s, step).handlers| && Next(p, s, step).handlers[h].Occupying?
    ensures var x := Next(p, s, step).handlers[h];
            || (h < |s.handlers| && s.handlers[h] == x)
            || (step.HandlerStart? && x == Occupying(step.node, step.spec) && x.spec != [])
  {
  }

  lemma LiveCarriesOver(s: State, s': State, node: Name, spec: Spec)
    requires Live(s, node, spec)
    requires node in s.api && s.api[node] == spec ==> Live(s', node, spec)
    requires forall d :: d in s.deletes && s.deletes[d] == NodeSpec(node, spec) ==>
               d in s'.deletes && s'.deletes[d] == s.deletes[d]
    ensures Live(s', node, spec)
  {
  }

  lemma LiveAfterDelete(p: Params, s: State, n: Name, id: nat, node: Name, spec: Spec)
    requires s.Valid(p) && Enabled(s, ApiDelete(n, id)) && Live(s, node, spec)
    ensures Live(Next(p, s, ApiDelete(n, id)), node, spec)
  {
    var s' := Next(p, s, ApiDelete(n, id));
    assert id in s'.deletes && s'.deletes[id] == NodeSpec(n, s.api[n]);
    LiveCarriesOver(s, s', node, spec);
  }

  lemma LiveAfterPatch(s: State, w: nat, outcome: PatchOutcome, node: Name, spec: Spec)
    requires w < |s.workers| && s.workers[w].Patching? && s.workers[w].attempts > 0
    requires s.workers[w].item.node != node && Live(s, node, spec)
    ensures Live(Patch(s, w, outcome), node, spec)
  {
    LiveCarriesOver(s, Patch(s, w, outcome), node, spec);
  }

  lemma LiveUnlessApi(p: Params, s: State, step: Step, node: Name, spec: Spec)
    requires s.Valid(p) && Enabled(s, step) && Live(s, node, spec)
    requires !step.ApiDelete? && !step.ApiCreate? && !step.DeleteHandler? && !step.WorkerPatch?
    ensures Live(Next(p, s, step), node, spec)
  {
    ApiUnchanged(p, s, step);
    LiveCarriesOver(s, Next(p, s, step), node, spec);
  }

  lemma ApiUnchanged(p: Params, s: State, step: Step)
    requires s.Valid(p) && Enabled(s, step)
    requires !step.ApiDelete? && !step.ApiCreate? && !step.DeleteHandler? && !step.WorkerPatch?
    ensures Next(p, s, step).api == s.api && Next(p, s, step).deletes == s.deletes
  {
  }

  // ---- the theorems ----

  lemma GateStaysOpen(p: Params, s: State, step: Step)
    requires s.Valid(p) && Enabled(s, step) && s.gate.Open?
    ensures Next(p, s, step).gate.Open?
  {
  }

  lemma ThreadsKept(p: Params, s: State, step: Step)
    requires Enabled(s, step) && SafeState(p, s)
    ensures Threads(p, Next(p, s, step))
  {
    GateStaysOpen(p, s, step);
    OwnershipPreserved(p, s, step);
    HandlersStayOk(p, s, step);
    QueueStaysOk(p, s, step);
    WorkersStayOk(p, s, step);
  }

  lemma BookKept(p: Params, s: State, step: Step)
    requires Enabled(s, step) && SafeState(p, s) && !Fault(s, step)
    ensures Safe(p, BookOf(Next(p, s, step)))
    ensures NoLeak(p, BookOf(s)) && AddsAreLive(s) ==> NoLeak(p, BookOf(Next(p, s, step)))
  {
    if IsHandlerStep(step) {
      HandlerStepKeepsBook(p, s, step);
    } else if IsWorkerStep(step) {
      WorkerStepKeepsBook(p, s, step);
    } else {
      OtherStepKeepsBook(p, s, step);
    }
  }

  /** Safety alone, without exactness: no step but a fault lets two holders share a block or
      frees a block that is held. */
  lemma SafetyPreserved(p: Params, s: State, step: Step)
    requires Enabled(s, step) && SafeState(p, s) && !Fault(s, step)
    ensures SafeState(p, Next(p, s, step))
  {
    ThreadsKept(p, s, step);
    BookKept(p, s, step);
  }

  lemma ExactnessPreserved(p: Params, s: State, step: Step)
    requires Enabled(s, step) && ExactState(p, s) && !Fault(s, step)
    ensures ExactState(p, Next(p, s, step))
  {
    ThreadsKept(p, s, step);
    BookKept(p, s, step);
    AddsStayLive(p, s, step);
  }

  lemma RequeuingHolds(s: State, w: nat)
    requires w < |s.workers| && s.workers[w].Requeuing?
    ensures s.workers[w].item in Items(s)
  {
    WorkerItemsMove(s, w, Free);
    assert WorkerItems(s.workers[w])[s.workers[w].item] == 1;
  }

  /** Giving up frees the block that the requeued item goes on to claim. */
  lemma GivingUpBreaks(p: Params, s: State, w: nat)
    requires w < |s.workers| && s.workers[w].Patching? && IsBlock(p, s.workers[w].item.cidr)
    ensures !Covered(p, BookOf(GiveUp(p, s, w)))
  {
    var s', item := GiveUp(p, s, w), s.workers[w].item;
    SpecOfBlock(p, item.cidr, IPNet(V6, 0, 0));
    var i :| i in p.cfg.BlocksOf(item.cidr);
    RequeuingHolds(s', w);
    assert i in Held(p, BookOf(s'), OwnItem(item)) && i !in s'.bitmap.used;
  }

  lemma TakenTwice(p: Params, b: Book, b': Book, node: Name, spec: Spec, i: nat)
    requires NoLeak(p, b) && node in b.api && b.api[node] == []
    requires b' == b.(api := b.api[node := spec]) && i in SpecBlocks(p, spec)
    ensures !Safe(p, b')
  {
    NothingHeld(p);
    assert i in Held(p, b', OwnNode(node));
    if i in b.used {
      var o :| i in Held(p, b, o);
      assert i in Held(p, b', o);
    }
  }

  /** A second patch of a node created anew gives it a block that is free or held elsewhere. */
  lemma RepatchBreaks(p: Params, s: State, w: nat, outcome: PatchOutcome)
    requires w < |s.workers| && s.workers[w].Patching? && s.workers[w].attempts > 0
    requires s.workers[w].applied && !outcome.Rejected?
    requires s.workers[w].item.node in s.api && s.api[s.workers[w].item.node] == []
    requires WorkerOk(p, s.api, s.workers[w]) && NoLeak(p, BookOf(s))
    ensures !Safe(p, BookOf(Patch(s, w, outcome)))
  {
    RepatchTakesBlock(p, s, Patch(s, w, outcome), w);
  }

  lemma RepatchTakesBlock(p: Params, s: State, s': State, w: nat)
    requires w < |s.workers| && s.workers[w].Patching? && s.workers[w].applied
    requires IsBlock(p, s.workers[w].item.cidr) && SpecBlocks(p, s.workers[w].cidrs) == p.cfg.BlocksOf(s.workers[w].item.cidr)
    requires s.workers[w].item.node in s.api && s.api[s.workers[w].item.node] == [] && NoLeak(p, BookOf(s))
    requires |s'.workers| == |s.workers| && WorkerItems(s'.workers[w]) == multiset{}
    requires s' == s.(api := s.api[s.workers[w].item.node := s.workers[w].cidrs],
                      workers := s.workers[w := s'.workers[w]])
    ensures !Safe(p, BookOf(s'))
  {
    var item := s.workers[w].item;
    SpecOfBlock(p, item.cidr, IPNet(V6, 0, 0));
    var i :| i in p.cfg.BlocksOf(item.cidr);
    WorkerKeepsItems(s, s', w);
    TakenTwice(p, BookOf(s), BookOf(s'), item.node, s.workers[w].cidrs, i);
  }

  /** Per step, exactly: from an exact state a step leads to an exact state if and only if it
      is none of the two faults. */
  lemma StepIsExactIff(p: Params, s: State, step: Step)
    requires Enabled(s, step) && ExactState(p, s)
    ensures ExactState(p, Next(p, s, step)) <==> !Fault(s, step)
  {
    if !Fault(s, step) {
      ExactnessPreserved(p, s, step);
    } else {
      if step.WorkerGiveUp? {
        assert WorkerOk(p, s.api, s.workers[step.w]);
        GivingUpBreaks(p, s, step.w);
      } else {
        assert WorkerOk(p, s.api, s.workers[step.w]);
        RepatchBreaks(p, s, step.w, step.outcome);
      }
    }
  }

  /** The steps from u on contain no fault. */
  ghost predicate NoFaultFrom(states: seq<State>, steps: seq<Step>, u: nat)
    requires |steps| < |states|
  {
    forall k :: u <= k < |steps| ==> !Fault(states[k], steps[k])
  }

  /** Over every run: the accounting is exact in all states if and only if no step is a fault. */
  lemma RunIsExactIff(p: Params, states: seq<State>, steps: seq<Step>)
    requires IsRun(p, states, steps) && ExactState(p, states[0])
    ensures (forall k :: 0 <= k < |states| ==> ExactState(p, states[k]))
       <==> NoFaultFrom(states, steps, 0)
  {
    if NoFaultFrom(states, steps, 0) {
      forall k | 0 <= k < |states|
        ensures ExactState(p, states[k])
      {
        ExactUpTo(p, states, steps, k);
      }
    }
    if forall k :: 0 <= k < |states| ==> ExactState(p, states[k]) {
      forall k | 0 <= k < |steps|
        ensures !Fault(states[k], steps[k])
      {
        assert ExactState(p, states[k]) && ExactState(p, states[k + 1]);
        StepIsExactIff(p, states[k], steps[k]);
      }
    }
  }

  lemma {:induction false} ExactUpTo(p: Params, states: seq<State>, steps: seq<Step>, k: nat)
    requires IsRun(p, states, steps) && ExactState(p, states[0]) && k < |states|
    requires NoFaultFrom(states, steps, 0)
    ensures ExactState(p, states[k])
  {
    if k > 0 {
      ExactUpTo(p, states, steps, k - 1);
      StepIsExactIff(p, states[k - 1], steps[k - 1]);
    }
  }

  /** Safety over every run without faults, leaks or not. */
  lemma {:induction false} SafeUpTo(p: Params, states: seq<State>, steps: seq<Step>, k: nat)
    requires IsRun(p, states, steps) && SafeState(p, states[0]) && k < |states|
    requires NoFaultFrom(states, steps, 0)
    ensures SafeState(p, states[k])
  {
    if k > 0 {
      SafeUpTo(p, states, steps, k - 1);
      SafetyPreserved(p, states[k - 1], steps[k - 1]);
    }
  }

  lemma HasMeansHeld(p: Params, s: State, a: Name, x: Net, address: nat)
    requires a in s.api && V4Entries(s.api[a]) == [x] && x.family.V4?
    requires p.cfg.cluster.Has(address) && x.Has(address)
    ensures IndexOf(p.cfg, address) in Held(p, BookOf(s), OwnNode(a))
  {
    BlocksTile(p.cfg, address);
    BlockIsValid(p.cfg, IndexOf(p.cfg, address));
    assert p.cfg.Block(IndexOf(p.cfg, address)).Has(address);
    assert Intersects(p.cfg.cluster, x);
  }

  /** In a safe state no two nodes share an address of the cluster range. */
  lemma NodesShareNoAddress(p: Params, s: State, a: Name, b: Name, x: Net, y: Net, address: nat)
    requires SafeState(p, s) && a in s.api && b in s.api && a != b
    requires V4Entries(s.api[a]) == [x] && V4Entries(s.api[b]) == [y]
    requires p.cfg.cluster.Has(address) && x.family.V4? && y.family.V4?
    ensures !(x.Has(address) && y.Has(address))
  {
    if x.Has(address) {
      HasMeansHeld(p, s, a, x, address);
      if y.Has(address) {
        HasMeansHeld(p, s, b, y, address);
      }
    }
  }

  /** AllocateNext reports that no CIDR remains exactly when nodes, reservations in flight and
      pending deletions hold every block of the cluster. */
  lemma NoneRemainingIffAllHeld(p: Params, s: State, h: nat)
    requires ExactState(p, s) && Enabled(s, HandlerAllocate(h))
    ensures Next(p, s, HandlerAllocate(h)).handlers[h] == Unmarking(s.handlers[h].node)
       <==> forall i: nat :: i < p.cfg.Max() ==> IsHeld(p, BookOf(s), i)
  {
    assert Next(p, s, HandlerAllocate(h)).handlers[h] == Unmarking(s.handlers[h].node) <==> s.bitmap.Full();
    forall i: nat | i < p.cfg.Max()
      ensures i in s.bitmap.used <==> IsHeld(p, BookOf(s), i)
    {
      assert i in s.bitmap.used <==> i in BookOf(s).used;
    }
  }
}
