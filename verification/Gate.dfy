/** From the start of the controller to the opening of the gate: no allocation happens before,
    what is marked used when it opens, and exactly when the accounting starts out right. */
module Gate {
  import opened Blocks
  import NextFit
  import opened Protocol
  import opened Ownership
  import opened Ledger
  import opened Accounting

  /** Nothing has been allocated: no reservation exists and the candidate pointer is unmoved. */
  ghost predicate Quiet(s: State) {
    && s.queue == [] && s.bitmap.next == 0
    && (forall k :: 0 <= k < |s.workers| ==> s.workers[k].Free?)
    && (forall k :: 0 <= k < |s.handlers| ==> !s.handlers[k].Enqueuing?)
  }

  /** The controller has just been started, over any nodes and unhandled deletions. */
  ghost predicate Launched(p: Params, s: State) {
    && s.gate.Unlisted? && s.bitmap == NextFit.Fresh(p.cfg.Max())
    && s.marks == {} && s.handlers == [] && s.queue == []
    && (forall k :: 0 <= k < |s.workers| ==> s.workers[k].Free?)
  }

  /** The same over nodes and deletions whose CIDRs touch pairwise disjoint blocks. */
  ghost predicate Started(p: Params, s: State) {
    Launched(p, s) && Disjoint(p, BookOf(s))
  }

  /** What holds in every state before the gate opens. */
  ghost predicate Shut(p: Params, s: State) {
    s.Valid(p) && !s.gate.Open? && Exclusive(s) && Quiet(s) && AddsAreLive(s)
  }

  ghost predicate Closed(p: Params, s: State) {
    Shut(p, s) && Disjoint(p, BookOf(s))
  }

  lemma {:induction false} NoHandlerItems(handlers: seq<Handler>)
    requires forall k :: 0 <= k < |handlers| ==> !handlers[k].Enqueuing?
    ensures Sum(HandlerItems, handlers) == multiset{}
  {
    if handlers != [] {
      NoHandlerItems(handlers[1..]);
    }
  }

  lemma {:induction false} NoWorkerItems(workers: seq<Worker>)
    requires forall k :: 0 <= k < |workers| ==> workers[k].Free?
    ensures Sum(WorkerItems, workers) == multiset{} && Sum(WorkerNames, workers) == multiset{}
  {
    if workers != [] {
      NoWorkerItems(workers[1..]);
    }
  }

  lemma QuietHasNoItems(s: State)
    requires Quiet(s)
    ensures Items(s) == multiset{}
  {
    NoHandlerItems(s.handlers);
    NoWorkerItems(s.workers);
  }

  lemma LaunchIsShut(p: Params, s: State)
    requires Launched(p, s)
    ensures Shut(p, s) && NoLeak(p, BookOf(s))
  {
    NoWorkerItems(s.workers);
    FreshIsValid(p.cfg);
  }

  lemma StartIsClosed(p: Params, s: State)
    requires Started(p, s)
    ensures Closed(p, s) && NoLeak(p, BookOf(s))
  {
    LaunchIsShut(p, s);
  }

  lemma FreshIsValid(cfg: Config)
    requires cfg.Valid()
    ensures NextFit.Fresh(cfg.Max()).Valid()
  {
  }

  // ---- one step before the gate opens ----

  /** The steps that can happen before the gate opens and without opening it. */
  predicate IsEarly(step: Step) {
    || step.HandlerStart? || step.HandlerOccupy? || step.HandlerCancel? || step.HandlerUnmark?
    || step.DeleteHandler? || step.ReconcileList? || step.ReconcileError? || step.ReconcileNode?
    || step.ApiCreate? || step.ApiDelete?
  }

  /** In particular no AllocateNext. */
  lemma OnlyEarlySteps(p: Params, s: State, step: Step)
    requires Shut(p, s) && Enabled(s, step)
    ensures IsEarly(step) || step.OpenGate?
  {
    assert forall k :: 0 <= k < |s.workers| ==> s.workers[k].Free?;
    assert forall k :: 0 <= k < |s.handlers| ==> !s.handlers[k].Enqueuing?;
  }

  lemma StaysQuiet(p: Params, s: State, step: Step)
    requires s.Valid(p) && Quiet(s) && Enabled(s, step) && IsEarly(step)
    ensures Quiet(Next(p, s, step))
    ensures !s.gate.Open? ==> !Next(p, s, step).gate.Open?
  {
  }

  lemma HoldingsShrink(p: Params, b: Book, b': Book)
    requires Disjoint(p, b) && forall o :: Held(p, b', o) <= Held(p, b, o)
    requires forall item :: b'.items[item] <= b.items[item]
    ensures Disjoint(p, b')
  {
  }

  lemma HoldingsPass(p: Params, b: Book, node: Name, id: nat)
    requires Disjoint(p, b) && node in b.api && id !in b.deletes
    ensures Disjoint(p, b.(api := b.api - {node}, deletes := b.deletes[id := NodeSpec(node, b.api[node])]))
  {
    var b' := b.(api := b.api - {node}, deletes := b.deletes[id := NodeSpec(node, b.api[node])]);
    var from, to := OwnNode(node), OwnDelete(id);
    assert forall o :: Held(p, b', o) == if o == from then {} else if o == to then Held(p, b, from) else Held(p, b, o);
  }

  lemma EarlyKeepsItems(p: Params, s: State, step: Step)
    requires s.Valid(p) && Quiet(s) && Enabled(s, step) && IsEarly(step)
    ensures Items(s) == multiset{} && Items(Next(p, s, step)) == multiset{}
  {
    StaysQuiet(p, s, step);
    QuietHasNoItems(s);
    QuietHasNoItems(Next(p, s, step));
  }

  /** No step before the gate gives a block a second holder. */
  lemma StaysDisjoint(p: Params, s: State, step: Step)
    requires Closed(p, s) && Enabled(s, step) && IsEarly(step)
    ensures Disjoint(p, BookOf(Next(p, s, step)))
  {
    var s' := Next(p, s, step);
    EarlyKeepsItems(p, s, step);
    match step {
      case ApiDelete(node, id) => PassesToDelete(p, s, node, id);
      case ApiCreate(node) =>
        NothingHeld(p);
        HoldingsShrink(p, BookOf(s), BookOf(s'));
      case DeleteHandler(id) => HoldingsShrink(p, BookOf(s), BookOf(s'));
      case _ => SameHolders(p, s, step);
    }
  }

  lemma PassesToDelete(p: Params, s: State, node: Name, id: nat)
    requires s.Valid(p) && Enabled(s, ApiDelete(node, id)) && Disjoint(p, BookOf(s))
    ensures Disjoint(p, BookOf(Next(p, s, ApiDelete(node, id))))
  {
    var s' := Next(p, s, ApiDelete(node, id));
    SameItems(s, s');
    HoldingsPass(p, BookOf(s), node, id);
    assert BookOf(s') == BookOf(s).(api := s.api - {node}, deletes := s.deletes[id := NodeSpec(node, s.api[node])]);
  }

  lemma SameHolders(p: Params, s: State, step: Step)
    requires s.Valid(p) && Enabled(s, step) && IsEarly(step)
    requires Disjoint(p, BookOf(s)) && Items(Next(p, s, step)) == Items(s)
    requires !step.ApiCreate? && !step.ApiDelete? && !step.DeleteHandler?
    ensures Disjoint(p, BookOf(Next(p, s, step)))
  {
    ApiUnchanged(p, s, step);
    SameHoldings(p, BookOf(s), BookOf(Next(p, s, step)));
  }

  lemma SameHoldings(p: Params, b: Book, b': Book)
    requires b'.api == b.api && b'.items == b.items && b'.deletes == b.deletes
    requires Disjoint(p, b)
    ensures Disjoint(p, b')
  {
    assert b' == b.(used := b'.used);
    HoldingsShrink(p, b, b');
  }

  lemma ShutIsKept(p: Params, s: State, step: Step)
    requires Shut(p, s) && Enabled(s, step) && !step.OpenGate?
    ensures Shut(p, Next(p, s, step)) && IsEarly(step)
  {
    OnlyEarlySteps(p, s, step);
    StaysQuiet(p, s, step);
    OwnershipPreserved(p, s, step);
    AddsStayLive(p, s, step);
  }

  lemma ClosedIsKept(p: Params, s: State, step: Step)
    requires Closed(p, s) && Enabled(s, step) && !step.OpenGate?
    ensures Closed(p, Next(p, s, step)) && IsEarly(step)
  {
    ShutIsKept(p, s, step);
    StaysDisjoint(p, s, step);
  }

  predicate StillShut(steps: seq<Step>, k: nat)
    requires k <= |steps|
  {
    forall l :: 0 <= l < k ==> !steps[l].OpenGate?
  }

  /** As long as the gate has not opened no allocation has happened, in any interleaving and
      whatever blocks the nodes hold. */
  lemma {:induction false} ShutUpTo(p: Params, states: seq<State>, steps: seq<Step>, k: nat)
    requires IsRun(p, states, steps) && Shut(p, states[0]) && k < |states|
    requires StillShut(steps, k)
    ensures Shut(p, states[k])
  {
    if k > 0 {
      ShutUpTo(p, states, steps, k - 1);
      ShutIsKept(p, states[k - 1], steps[k - 1]);
    }
  }

  /** Nor has a block been given a second holder. */
  lemma {:induction false} ClosedUpTo(p: Params, states: seq<State>, steps: seq<Step>, k: nat)
    requires IsRun(p, states, steps) && Closed(p, states[0]) && k < |states|
    requires StillShut(steps, k)
    ensures Closed(p, states[k])
  {
    if k > 0 {
      ClosedUpTo(p, states, steps, k - 1);
      ClosedIsKept(p, states[k - 1], steps[k - 1]);
    }
  }

  // ---- what is marked when the gate opens ----

  /** The blocks of a node are marked used, or the reconcile loop still has the node ahead. */
  ghost predicate Guarded(p: Params, s: State, node: Name, spec: Spec) {
    || SpecBlocks(p, spec) <= s.bitmap.used
    || (s.gate.Listed? && NodeSpec(node, spec) in s.gate.todo)
  }

  /** Handling a deletion does not unmark what anybody else holds. */
  lemma DeleteSparesOthers(p: Params, s: State, id: nat, o: Owner)
    requires s.Valid(p) && id in s.deletes && Disjoint(p, BookOf(s)) && o != OwnDelete(id)
    requires Held(p, BookOf(s), o) <= s.bitmap.used
    ensures Held(p, BookOf(s), o) <= HandleDelete(p, s, id).bitmap.used
  {
    forall i | i in Held(p, BookOf(s), o)
      ensures i !in SpecBlocks(p, s.deletes[id].spec)
    {
      assert i in SpecBlocks(p, s.deletes[id].spec) ==> i in Held(p, BookOf(s), OwnDelete(id));
    }
  }

  lemma OtherLiveOwner(p: Params, s: State, id: nat, node: Name, spec: Spec) returns (o: Owner)
    requires id in s.deletes && Live(s, node, spec) && s.deletes[id] != NodeSpec(node, spec)
    ensures o != OwnDelete(id) && Held(p, BookOf(s), o) == SpecBlocks(p, spec)
  {
    if node in s.api && s.api[node] == spec {
      o := OwnNode(node);
    } else {
      var d :| d in s.deletes && s.deletes[d] == NodeSpec(node, spec);
      o := OwnDelete(d);
    }
  }

  lemma ReconcileGuards(p: Params, s: State, node: Name, spec: Spec)
    requires s.gate.Listed? && s.gate.todo != [] && Guarded(p, s, node, spec)
    requires s.Valid(p) && !Reconcile(p, s).gate.Aborted?
    ensures Guarded(p, Reconcile(p, s), node, spec)
  {
    OccupiedBits(p, s, s.gate.todo[0].spec);
    if NodeSpec(node, spec) in s.gate.todo && NodeSpec(node, spec) != s.gate.todo[0] {
      assert NodeSpec(node, spec) in s.gate.todo[1..];
    }
  }

  /** A step other than handling the node's own deletion keeps its blocks guarded. */
  lemma StaysGuarded(p: Params, s: State, step: Step, node: Name, spec: Spec)
    requires Closed(p, s) && Enabled(s, step) && IsEarly(step) && s.gate.Listed?
    requires Live(s, node, spec) && Guarded(p, s, node, spec)
    requires step.DeleteHandler? ==> s.deletes[step.id] != NodeSpec(node, spec)
    requires !Next(p, s, step).gate.Aborted?
    ensures Guarded(p, Next(p, s, step), node, spec)
  {
    match step {
      case ReconcileNode => ReconcileGuards(p, s, node, spec);
      case DeleteHandler(id) =>
        if SpecBlocks(p, spec) <= s.bitmap.used {
          var o := OtherLiveOwner(p, s, id, node, spec);
          DeleteSparesOthers(p, s, id, o);
        }
      case HandlerOccupy(h) => OccupiedBits(p, s, s.handlers[h].spec);
      case _ => SameBits(p, s, step);
    }
  }

  lemma SameBits(p: Params, s: State, step: Step)
    requires s.Valid(p) && Enabled(s, step) && IsEarly(step)
    requires !step.ReconcileNode? && !step.DeleteHandler? && !step.HandlerOccupy?
    ensures Next(p, s, step).bitmap == s.bitmap
    ensures s.gate.Listed? ==> Next(p, s, step).gate == s.gate
  {
  }

  lemma GateMoves(p: Params, s: State, step: Step)
    requires s.Valid(p) && Enabled(s, step) && IsEarly(step)
    ensures s.gate.Aborted? ==> Next(p, s, step).gate.Aborted?
    ensures s.gate.Listed? ==> Next(p, s, step).gate.Listed? || Next(p, s, step).gate.Aborted?
  {
  }

  lemma TodoBefore(p: Params, s: State, step: Step, e: NodeSpec)
    requires s.Valid(p) && Enabled(s, step) && IsEarly(step) && !step.ReconcileList?
    requires Next(p, s, step).gate.Listed? && e in Next(p, s, step).gate.todo
    ensures s.gate.Listed? && e in s.gate.todo
  {
  }

  /** After the list was taken a listed node stays guarded, unless reconciling fails for good. */
  ghost predicate Awaited(p: Params, s: State, node: Name, spec: Spec) {
    s.gate.Aborted? || (s.gate.Listed? && Live(s, node, spec) && Guarded(p, s, node, spec))
  }

  lemma StaysAwaited(p: Params, s: State, step: Step, node: Name, spec: Spec)
    requires Closed(p, s) && Enabled(s, step) && !step.OpenGate?
    requires Awaited(p, s, node, spec)
    requires step.DeleteHandler? ==> s.deletes[step.id] != NodeSpec(node, spec)
    ensures Awaited(p, Next(p, s, step), node, spec)
  {
    OnlyEarlySteps(p, s, step);
    GateMoves(p, s, step);
    if !Next(p, s, step).gate.Aborted? {
      StaysGuarded(p, s, step, node, spec);
      StaysLiveUnless(p, s, step, node, spec);
    }
  }

  /** Between steps t and k no delete event of this node with these CIDRs was handled. */
  ghost predicate NotHandled(p: Params, states: seq<State>, steps: seq<Step>, t: nat, k: nat, e: NodeSpec)
    requires IsRun(p, states, steps) && k < |states|
  {
    forall l :: t < l < k && steps[l].DeleteHandler? ==> states[l].deletes[steps[l].id] != e
  }

  lemma AwaitedNext(p: Params, states: seq<State>, steps: seq<Step>, t: nat, k: nat, e: NodeSpec)
    requires IsRun(p, states, steps) && t < k < |steps|
    requires Closed(p, states[k]) && Awaited(p, states[k], e.node, e.spec)
    requires !steps[k].OpenGate? && NotHandled(p, states, steps, t, k + 1, e)
    ensures Awaited(p, states[k + 1], e.node, e.spec)
  {
    StaysAwaited(p, states[k], steps[k], e.node, e.spec);
  }

  lemma {:induction false} ListedNodesAreAwaited(p: Params, states: seq<State>, steps: seq<Step>, t: nat, k: nat, e: NodeSpec)
    requires IsRun(p, states, steps) && Closed(p, states[0]) && t < k < |states|
    requires StillShut(steps, k) && NotHandled(p, states, steps, t, k, e)
    requires steps[t].ReconcileList? && e in steps[t].list
    ensures Awaited(p, states[k], e.node, e.spec)
  {
    if k == t + 1 {
      ListingAwaits(p, states[t], steps[t].list, e);
    } else {
      ListedNodesAreAwaited(p, states, steps, t, k - 1, e);
      ClosedUpTo(p, states, steps, k - 1);
      AwaitedNext(p, states, steps, t, k - 1, e);
    }
  }

  lemma ListingAwaits(p: Params, s: State, list: seq<NodeSpec>, e: NodeSpec)
    requires s.Valid(p) && Enabled(s, ReconcileList(list)) && e in list
    ensures Awaited(p, Next(p, s, ReconcileList(list)), e.node, e.spec)
  {
    assert NodeSpec(e.node, e.spec) == e;
  }

  /** Reconcile gate: when the gate opens, every block of every listed node whose own deletion has
      not been handled since is marked used, and nothing has been allocated yet, in every
      interleaving of handlers and reconcile loop. */
  lemma GateCoversListedNodes(p: Params, states: seq<State>, steps: seq<Step>, t: nat, u: nat, e: NodeSpec)
    requires IsRun(p, states, steps) && Closed(p, states[0]) && t < u < |steps|
    requires steps[u].OpenGate? && StillShut(steps, u) && NotHandled(p, states, steps, t, u, e)
    requires steps[t].ReconcileList? && e in steps[t].list
    ensures SpecBlocks(p, e.spec) <= states[u + 1].bitmap.used
    ensures states[u + 1].bitmap.next == 0 && Items(states[u + 1]) == multiset{}
  {
    assert Enabled(states[u], steps[u]);
    ListedNodesAreAwaited(p, states, steps, t, u, e);
    ClosedUpTo(p, states, steps, u);
    QuietHasNoItems(states[u]);
    assert states[u + 1] == Next(p, states[u], steps[u]);
    SameItems(states[u], states[u + 1]);
  }

  // ---- the gate opens on a safe state ----

  ghost predicate NodesGuarded(p: Params, s: State) {
    forall node :: node in s.api ==> Guarded(p, s, node, s.api[node])
  }

  lemma NodesStayGuarded(p: Params, s: State, step: Step)
    requires Closed(p, s) && Enabled(s, step) && IsEarly(step) && s.gate.Listed? && NodesGuarded(p, s)
    requires !Next(p, s, step).gate.Aborted?
    ensures NodesGuarded(p, Next(p, s, step))
  {
    var s' := Next(p, s, step);
    forall node | node in s'.api
      ensures Guarded(p, s', node, s'.api[node])
    {
      if step == ApiCreate(node) {
        NothingHeld(p);
      } else {
        ApiBefore(p, s, step, node);
        OwnerStaysGuarded(p, s, step, OwnNode(node), node, s.api[node]);
      }
    }
  }

  lemma ApiBefore(p: Params, s: State, step: Step, node: Name)
    requires s.Valid(p) && Enabled(s, step) && IsEarly(step) && step != ApiCreate(node)
    requires node in Next(p, s, step).api
    ensures node in s.api && s.api[node] == Next(p, s, step).api[node]
  {
  }

  /** Blocks that somebody holds stay guarded while the holder is not the handled deletion. */
  lemma OwnerStaysGuarded(p: Params, s: State, step: Step, o: Owner, node: Name, spec: Spec)
    requires Closed(p, s) && Enabled(s, step) && IsEarly(step) && s.gate.Listed?
    requires Held(p, BookOf(s), o) == SpecBlocks(p, spec) && Guarded(p, s, node, spec)
    requires step.DeleteHandler? ==> o != OwnDelete(step.id)
    requires !Next(p, s, step).gate.Aborted?
    ensures Guarded(p, Next(p, s, step), node, spec)
  {
    match step {
      case ReconcileNode => ReconcileGuards(p, s, node, spec);
      case DeleteHandler(id) =>
        if SpecBlocks(p, spec) <= s.bitmap.used {
          DeleteSparesOthers(p, s, id, o);
        }
      case HandlerOccupy(h) => OccupiedBits(p, s, s.handlers[h].spec);
      case _ => SameBits(p, s, step);
    }
  }

  /** So do the blocks of a deletion still pending, and of one just created. */
  lemma DeletionStaysGuarded(p: Params, s: State, step: Step, id: nat)
    requires Closed(p, s) && Enabled(s, step) && IsEarly(step) && s.gate.Listed? && NodesGuarded(p, s)
    requires DeletionGuarded(p, s, id) || (step.ApiDelete? && step.id == id)
    requires !Next(p, s, step).gate.Aborted?
    ensures DeletionGuarded(p, Next(p, s, step), id)
  {
    if id in Next(p, s, step).deletes {
      if step.ApiDelete? && step.id == id {
        OwnerStaysGuarded(p, s, step, OwnNode(step.node), step.node, s.api[step.node]);
      } else {
        DeletesBefore(p, s, step, id);
        OwnerStaysGuarded(p, s, step, OwnDelete(id), s.deletes[id].node, s.deletes[id].spec);
      }
    }
  }

  ghost predicate DeletionGuarded(p: Params, s: State, id: nat) {
    id in s.deletes ==> Guarded(p, s, s.deletes[id].node, s.deletes[id].spec)
  }

  lemma DeletesBefore(p: Params, s: State, step: Step, id: nat)
    requires s.Valid(p) && Enabled(s, step) && IsEarly(step) && !(step.ApiDelete? && step.id == id)
    requires id in Next(p, s, step).deletes
    ensures id in s.deletes && s.deletes[id] == Next(p, s, step).deletes[id]
    ensures !(step.DeleteHandler? && step.id == id)
  {
  }

  /** What holds from the moment the list is taken. */
  ghost predicate Ready(p: Params, s: State) {
    s.gate.Aborted? || (s.gate.Listed? && NodesGuarded(p, s))
  }

  lemma StaysReady(p: Params, s: State, step: Step)
    requires Closed(p, s) && Enabled(s, step) && !step.OpenGate? && Ready(p, s)
    ensures Ready(p, Next(p, s, step))
  {
    OnlyEarlySteps(p, s, step);
    GateMoves(p, s, step);
    if !Next(p, s, step).gate.Aborted? {
      NodesStayGuarded(p, s, step);
    }
  }

  lemma ListingMakesReady(p: Params, s: State, list: seq<NodeSpec>)
    requires s.Valid(p) && Enabled(s, ReconcileList(list))
    ensures Ready(p, Next(p, s, ReconcileList(list)))
  {
  }

  lemma {:induction false} ReadyUpTo(p: Params, states: seq<State>, steps: seq<Step>, t: nat, k: nat)
    requires IsRun(p, states, steps) && Closed(p, states[0]) && t < k < |states|
    requires StillShut(steps, k) && steps[t].ReconcileList?
    ensures Ready(p, states[k])
  {
    if k == t + 1 {
      ListingMakesReady(p, states[t], steps[t].list);
    } else {
      ReadyUpTo(p, states, steps, t, k - 1);
      ClosedUpTo(p, states, steps, k - 1);
      StaysReady(p, states[k - 1], steps[k - 1]);
    }
  }

  /** Opening leads to a safe state exactly when the deletions still pending are marked too. */
  lemma OpeningIsSafeIff(p: Params, s: State)
    requires Closed(p, s) && Enabled(s, OpenGate) && NodesGuarded(p, s)
    ensures SafeState(p, Next(p, s, OpenGate))
       <==> forall id :: id in s.deletes ==> SpecBlocks(p, s.deletes[id].spec) <= s.bitmap.used
  {
    var s' := Next(p, s, OpenGate);
    var b' := BookOf(s');
    OpeningKeepsThreads(p, s);
    assert Items(s') == Items(s) == multiset{} by {
      QuietHasNoItems(s);
      SameItems(s, s');
    }
    if Safe(p, b') {
      forall id | id in s.deletes
        ensures SpecBlocks(p, s.deletes[id].spec) <= s.bitmap.used
      {
        assert Held(p, b', OwnDelete(id)) == SpecBlocks(p, s.deletes[id].spec);
      }
    }
    if forall id :: id in s.deletes ==> SpecBlocks(p, s.deletes[id].spec) <= s.bitmap.used {
      forall o, i | i in Held(p, b', o)
        ensures i in b'.used
      {
        if o.OwnNode? {
          assert Guarded(p, s, o.node, s.api[o.node]);
        }
      }
    }
  }

  lemma OpeningKeepsThreads(p: Params, s: State)
    requires Closed(p, s) && Enabled(s, OpenGate)
    ensures Threads(p, Next(p, s, OpenGate)) && AddsAreLive(Next(p, s, OpenGate))
  {
    var s' := Next(p, s, OpenGate);
    OwnershipPreserved(p, s, OpenGate);
    forall k | 0 <= k < |s'.workers|
      ensures WorkerOk(p, s'.api, s'.workers[k])
    {
      assert s.workers[k].Free?;
    }
    forall h: nat | h < |s'.handlers| && s'.handlers[h].Occupying?
      ensures Live(s', s'.handlers[h].node, s'.handlers[h].spec)
    {
      LiveCarriesOver(s, s', s.handlers[h].node, s.handlers[h].spec);
    }
  }

  // ---- a start that fails ----

  lemma AbortsForGood(p: Params, s: State, step: Step)
    requires s.Valid(p) && Enabled(s, step) && (s.gate.Aborted? || step.ReconcileError?)
    ensures Next(p, s, step).gate.Aborted? && !step.OpenGate?
  {
  }

  /** After a failed List call, or a CIDR out of range, the gate never opens and nothing is
      ever allocated or taken from the queue. */
  lemma {:induction false} NeverOpens(p: Params, states: seq<State>, steps: seq<Step>, l: nat, k: nat)
    requires IsRun(p, states, steps) && l < |steps| && (states[l].gate.Aborted? || steps[l].ReconcileError?)
    requires l < k < |states|
    ensures states[k].gate.Aborted?
    ensures k < |steps| ==> !steps[k].OpenGate? && !steps[k].HandlerAllocate? && !steps[k].WorkerTake?
  {
    if k > l + 1 {
      NeverOpens(p, states, steps, l, k - 1);
    }
    AbortsForGood(p, states[k - 1], steps[k - 1]);
  }

  /** No run that contains a failed List call opens the gate, before or after it. */
  lemma FailedListNeverOpens(p: Params, states: seq<State>, steps: seq<Step>, l: nat, k: nat)
    requires IsRun(p, states, steps) && Started(p, states[0]) && l < |steps| && steps[l].ReconcileError?
    requires k < |states|
    ensures !states[k].gate.Open?
  {
    StartIsClosed(p, states[0]);
    if k > l {
      NeverOpens(p, states, steps, l, k);
    } else if states[k].gate.Open? {
      OpenNeverFails(p, states, steps, k, l);
    }
  }

  lemma {:induction false} OpenNeverFails(p: Params, states: seq<State>, steps: seq<Step>, k: nat, l: nat)
    requires IsRun(p, states, steps) && k <= l < |steps| && states[k].gate.Open?
    ensures states[l].gate.Open? && !steps[l].ReconcileError?
    decreases l
  {
    if k < l {
      OpenNeverFails(p, states, steps, k, l - 1);
      GateStaysOpen(p, states[l - 1], steps[l - 1]);
    }
  }
}
