/** Whether the gate opens on exact books: the reconcile loop works on a list that may be
    overtaken by deletions, and precisely then a block leaks. From there on to whole runs, and to
    what a restart rebuilds whatever blocks the nodes hold. */
module Restart {
  import opened Protocol
  import opened Ledger
  import opened Accounting
  import opened Gate
  import opened Opening

  /** The delete handler runs for a node that the reconcile loop still has ahead. */
  ghost predicate Overtakes(p: Params, s: State, step: Step) {
    && step.DeleteHandler? && step.id in s.deletes && s.gate.Listed?
    && s.deletes[step.id] in s.gate.todo
    && SpecBlocks(p, s.deletes[step.id].spec) != {}
  }

  /** The nodes the loop still has ahead are there, or their deletions are not handled yet. */
  ghost predicate TodoLive(p: Params, s: State) {
    s.gate.Listed? ==>
      forall e :: e in s.gate.todo ==> SpecBlocks(p, e.spec) == {} || Live(s, e.node, e.spec)
  }

  /** Every used block is held, and the loop will mark no other. */
  ghost predicate Tight(p: Params, s: State) {
    NoLeak(p, BookOf(s)) && TodoLive(p, s)
  }

  // ---- no leak without overtaking ----

  lemma MarkingHeldBlocks(p: Params, s: State, s': State, node: Name, spec: Spec)
    requires s.Valid(p) && NoLeak(p, BookOf(s))
    requires BookOf(s') == BookOf(s).(used := s.bitmap.used + SpecBlocks(p, spec))
    requires SpecBlocks(p, spec) == {} || Live(s, node, spec)
    ensures NoLeak(p, BookOf(s'))
  {
    if Live(s, node, spec) {
      LiveIsHeld(p, s, node, spec);
    }
    NothingLeaksInMarking(p, BookOf(s), SpecBlocks(p, spec));
  }

  lemma NothingLeaksInMarking(p: Params, b: Book, blocks: set<nat>)
    requires NoLeak(p, b) && (blocks == {} || exists o :: blocks == Held(p, b, o))
    ensures NoLeak(p, b.(used := b.used + blocks))
  {
    var b' := b.(used := b.used + blocks);
    forall i | i in b'.used
      ensures exists o :: i in Held(p, b', o)
    {
      if i in b.used {
        var o :| i in Held(p, b, o);
        assert i in Held(p, b', o);
      } else {
        var o :| blocks == Held(p, b, o);
        assert i in Held(p, b', o);
      }
    }
  }

  lemma ReconcilingHeldBlocks(p: Params, s: State)
    requires Closed(p, s) && Enabled(s, ReconcileNode) && Tight(p, s)
    ensures NoLeak(p, BookOf(Reconcile(p, s)))
  {
    var s', e := Reconcile(p, s), s.gate.todo[0];
    SameItems(s, s');
    assert e in s.gate.todo;
    OccupiedBits(p, s, e.spec);
    if !OutOfRange(p, e.spec) {
      MarkingHeldBlocks(p, s, s', e.node, e.spec);
    }
  }

  lemma AddingHeldBlocks(p: Params, s: State, h: nat)
    requires Closed(p, s) && Enabled(s, HandlerOccupy(h)) && Tight(p, s)
    ensures NoLeak(p, BookOf(OccupyNode(p, s, h)))
  {
    var s' := OccupyNode(p, s, h);
    HandlerItemsMove(s, h, Unmarking(s.handlers[h].node));
    SameItems(s, s');
    OccupiedBits(p, s, s.handlers[h].spec);
    MarkingHeldBlocks(p, s, s', s.handlers[h].node, s.handlers[h].spec);
  }

  lemma HandlingHeldBlocks(p: Params, s: State, id: nat)
    requires Closed(p, s) && Enabled(s, DeleteHandler(id)) && NoLeak(p, BookOf(s))
    ensures NoLeak(p, BookOf(HandleDelete(p, s, id)))
  {
    var s' := HandleDelete(p, s, id);
    var b, b' := BookOf(s), BookOf(s');
    SameItems(s, s');
    forall i | i in b'.used
      ensures exists o :: i in Held(p, b', o)
    {
      var o :| i in Held(p, b, o);
      assert i in Held(p, b', o);
    }
  }

  lemma DeletingHeldBlocks(p: Params, s: State, node: Name, id: nat)
    requires s.Valid(p) && Enabled(s, ApiDelete(node, id)) && NoLeak(p, BookOf(s))
    ensures NoLeak(p, BookOf(Next(p, s, ApiDelete(node, id))))
  {
    var s' := Next(p, s, ApiDelete(node, id));
    SameItems(s, s');
    assert BookOf(s') == BookOf(s).(api := s.api - {node}, deletes := s.deletes[id := NodeSpec(node, s.api[node])]);
    NothingLeaksInPassing(p, BookOf(s), node, id);
  }

  lemma NothingLeaksInPassing(p: Params, b: Book, node: Name, id: nat)
    requires NoLeak(p, b) && node in b.api && id !in b.deletes
    ensures NoLeak(p, b.(api := b.api - {node}, deletes := b.deletes[id := NodeSpec(node, b.api[node])]))
  {
    var b' := b.(api := b.api - {node}, deletes := b.deletes[id := NodeSpec(node, b.api[node])]);
    forall i | i in b'.used
      ensures exists o :: i in Held(p, b', o)
    {
      var o :| i in Held(p, b, o);
      assert i in Held(p, b', if o == OwnNode(node) then OwnDelete(id) else o);
    }
  }

  lemma CreatingHoldsNothing(p: Params, s: State, node: Name)
    requires s.Valid(p) && Enabled(s, ApiCreate(node)) && NoLeak(p, BookOf(s))
    ensures NoLeak(p, BookOf(Next(p, s, ApiCreate(node))))
  {
    var s' := Next(p, s, ApiCreate(node));
    SameItems(s, s');
    assert BookOf(s') == BookOf(s).(api := s.api[node := []]);
    NothingLeaksWithNewNodes(p, BookOf(s), node);
  }

  lemma NothingLeaksWithNewNodes(p: Params, b: Book, node: Name)
    requires NoLeak(p, b) && node !in b.api
    ensures NoLeak(p, b.(api := b.api[node := []]))
  {
    var b' := b.(api := b.api[node := []]);
    forall i | i in b'.used
      ensures exists o :: i in Held(p, b', o)
    {
      var o :| i in Held(p, b, o);
      assert i in Held(p, b', o);
    }
  }

  lemma PlainStepsDoNotLeak(p: Params, s: State, step: Step)
    requires Closed(p, s) && Enabled(s, step) && IsEarly(step) && NoLeak(p, BookOf(s))
    requires !step.HandlerOccupy? && !step.ReconcileNode?
    requires !step.DeleteHandler? && !step.ApiDelete? && !step.ApiCreate?
    ensures NoLeak(p, BookOf(Next(p, s, step)))
  {
    SameBits(p, s, step);
    ApiUnchanged(p, s, step);
    EarlyKeepsItems(p, s, step);
    assert BookOf(Next(p, s, step)) == BookOf(s);
  }

  lemma StaysLeakFree(p: Params, s: State, step: Step)
    requires Closed(p, s) && Enabled(s, step) && IsEarly(step) && Tight(p, s)
    ensures NoLeak(p, BookOf(Next(p, s, step)))
  {
    match step {
      case HandlerOccupy(h) => AddingHeldBlocks(p, s, h);
      case ReconcileNode => ReconcilingHeldBlocks(p, s);
      case DeleteHandler(id) => HandlingHeldBlocks(p, s, id);
      case ApiDelete(node, id) => DeletingHeldBlocks(p, s, node, id);
      case ApiCreate(node) => CreatingHoldsNothing(p, s, node);
      case _ => PlainStepsDoNotLeak(p, s, step);
    }
  }

  lemma TodoStaysLive(p: Params, s: State, step: Step)
    requires Closed(p, s) && Enabled(s, step) && IsEarly(step) && TodoLive(p, s) && !Overtakes(p, s, step)
    ensures TodoLive(p, Next(p, s, step))
  {
    var s' := Next(p, s, step);
    if s'.gate.Listed? {
      forall e | e in s'.gate.todo
        ensures SpecBlocks(p, e.spec) == {} || Live(s', e.node, e.spec)
      {
        if step.ReconcileList? {
          assert NodeSpec(e.node, e.spec) == e;
        } else {
          TodoBefore(p, s, step, e);
          if SpecBlocks(p, e.spec) != {} {
            StaysLiveUnless(p, s, step, e.node, e.spec);
          }
        }
      }
    }
  }

  lemma StaysTight(p: Params, s: State, step: Step)
    requires Closed(p, s) && Enabled(s, step) && !step.OpenGate? && Tight(p, s) && !Overtakes(p, s, step)
    ensures Tight(p, Next(p, s, step))
  {
    OnlyEarlySteps(p, s, step);
    StaysLeakFree(p, s, step);
    TodoStaysLive(p, s, step);
  }

  lemma {:induction false} TightUpTo(p: Params, states: seq<State>, steps: seq<Step>, k: nat)
    requires IsRun(p, states, steps) && Started(p, states[0]) && k < |states| && StillShut(steps, k)
    requires forall l :: 0 <= l < k ==> !Overtakes(p, states[l], steps[l])
    ensures Tight(p, states[k])
  {
    StartIsClosed(p, states[0]);
    if k > 0 {
      TightUpTo(p, states, steps, k - 1);
      ClosedUpTo(p, states, steps, k - 1);
      StaysTight(p, states[k - 1], steps[k - 1]);
    }
  }

  // ---- a leak by overtaking ----

  ghost predicate Unheld(p: Params, s: State, i: nat) {
    forall o :: i !in Held(p, BookOf(s), o)
  }

  /** Block i is nobody's, and it is marked used or the reconcile loop is going to mark it. */
  ghost predicate Lost(p: Params, s: State, i: nat) {
    && Unheld(p, s, i)
    && (i in s.bitmap.used || (s.gate.Listed? && exists e :: e in s.gate.todo && i in SpecBlocks(p, e.spec)))
  }

  lemma OvertakingLoses(p: Params, s: State, step: Step, i: nat)
    requires Closed(p, s) && Enabled(s, step) && Overtakes(p, s, step)
    requires i in SpecBlocks(p, s.deletes[step.id].spec)
    ensures Lost(p, Next(p, s, step), i)
  {
    var s', e := HandleDelete(p, s, step.id), s.deletes[step.id];
    SameItems(s, s');
    assert i in Held(p, BookOf(s), OwnDelete(step.id));
    forall o
      ensures i !in Held(p, BookOf(s'), o)
    {
      assert i in Held(p, BookOf(s'), o) ==> i in Held(p, BookOf(s), o);
    }
    assert e in s'.gate.todo && i in SpecBlocks(p, e.spec);
  }

  /** Before the gate nobody acquires a block. */
  lemma StaysUnheld(p: Params, s: State, step: Step, i: nat)
    requires Closed(p, s) && Enabled(s, step) && IsEarly(step) && Unheld(p, s, i)
    ensures Unheld(p, Next(p, s, step), i)
  {
    var s' := Next(p, s, step);
    EarlyKeepsItems(p, s, step);
    forall o
      ensures i !in Held(p, BookOf(s'), o)
    {
      if i in Held(p, BookOf(s'), o) {
        HolderBefore(p, s, step, o, i);
      }
    }
  }

  lemma HolderBefore(p: Params, s: State, step: Step, o: Owner, i: nat)
    requires s.Valid(p) && Enabled(s, step) && IsEarly(step)
    requires Items(Next(p, s, step)) == multiset{}
    requires i in Held(p, BookOf(Next(p, s, step)), o)
    ensures exists o' :: i in Held(p, BookOf(s), o')
  {
    match o {
      case OwnItem(_) => assert false;
      case OwnNode(node) =>
        if step == ApiCreate(node) {
          NothingHeld(p);
        } else {
          ApiBefore(p, s, step, node);
          assert i in Held(p, BookOf(s), OwnNode(node));
        }
      case OwnDelete(id) =>
        if step.ApiDelete? && step.id == id {
          assert i in Held(p, BookOf(s), OwnNode(step.node));
        } else {
          DeletesBefore(p, s, step, id);
          assert i in Held(p, BookOf(s), OwnDelete(id));
        }
    }
  }

  lemma StaysLost(p: Params, s: State, step: Step, i: nat)
    requires Closed(p, s) && Enabled(s, step) && IsEarly(step) && Lost(p, s, i) && s.gate.Listed?
    requires !Next(p, s, step).gate.Aborted?
    ensures Lost(p, Next(p, s, step), i)
  {
    StaysUnheld(p, s, step, i);
    match step {
      case ReconcileNode => ReconcileMarksLost(p, s, i);
      case DeleteHandler(id) => assert i !in Held(p, BookOf(s), OwnDelete(id));
      case HandlerOccupy(h) => OccupiedBits(p, s, s.handlers[h].spec);
      case _ => SameBits(p, s, step);
    }
  }

  lemma ReconcileMarksLost(p: Params, s: State, i: nat)
    requires s.Valid(p) && Enabled(s, ReconcileNode) && !Reconcile(p, s).gate.Aborted?
    requires i in s.bitmap.used || exists e :: e in s.gate.todo && i in SpecBlocks(p, e.spec)
    ensures i in Reconcile(p, s).bitmap.used
         || exists e :: e in Reconcile(p, s).gate.todo && i in SpecBlocks(p, e.spec)
  {
    OccupiedBits(p, s, s.gate.todo[0].spec);
    if i !in s.bitmap.used {
      var e :| e in s.gate.todo && i in SpecBlocks(p, e.spec);
      if e != s.gate.todo[0] {
        assert e in s.gate.todo[1..];
      }
    }
  }

  lemma StaysLostAt(p: Params, states: seq<State>, steps: seq<Step>, k: nat, i: nat)
    requires IsRun(p, states, steps) && k < |steps| && !steps[k].OpenGate? && Closed(p, states[k])
    requires states[k].gate.Aborted? || (states[k].gate.Listed? && Lost(p, states[k], i))
    ensures states[k + 1].gate.Aborted? || (states[k + 1].gate.Listed? && Lost(p, states[k + 1], i))
  {
    OnlyEarlySteps(p, states[k], steps[k]);
    GateMoves(p, states[k], steps[k]);
    if !states[k + 1].gate.Aborted? {
      StaysLost(p, states[k], steps[k], i);
    }
  }

  /** Once lost, a block stays lost until the gate opens, if it ever does. */
  lemma {:induction false} LostUpTo(p: Params, states: seq<State>, steps: seq<Step>, t: nat, k: nat, i: nat)
    requires IsRun(p, states, steps) && Closed(p, states[0]) && t <= k < |states| && StillShut(steps, k)
    requires states[t].gate.Listed? && Lost(p, states[t], i)
    ensures states[k].gate.Aborted? || (states[k].gate.Listed? && Lost(p, states[k], i))
  {
    if t < k {
      LostUpTo(p, states, steps, t, k - 1, i);
      ClosedUpTo(p, states, steps, k - 1);
      StaysLostAt(p, states, steps, k - 1, i);
    }
  }

  // ---- the theorems ----

  lemma OpeningKeepsBook(p: Params, s: State)
    requires s.Valid(p) && Enabled(s, OpenGate)
    ensures BookOf(Next(p, s, OpenGate)) == BookOf(s)
  {
    SameItems(s, Next(p, s, OpenGate));
  }

  ghost predicate NoneOvertaken(p: Params, states: seq<State>, steps: seq<Step>, u: nat)
    requires u <= |steps| < |states|
  {
    forall l :: 0 <= l < u ==> !Overtakes(p, states[l], steps[l])
  }

  /** From the start of the controller: the gate opens on exact books if and only if no delete
      handler overtook the reconcile loop and every deletion then pending was foreseen. */
  lemma RunOpensExactlyIff(p: Params, states: seq<State>, steps: seq<Step>, t: nat, u: nat)
    requires Opens(p, states, steps, t, u)
    ensures ExactState(p, states[u + 1])
       <==> NoneOvertaken(p, states, steps, u) && AllForeseen(p, states, steps, t, u)
  {
    RunOpensSafelyIff(p, states, steps, t, u);
    StartIsClosed(p, states[0]);
    ClosedUpTo(p, states, steps, u);
    OpeningKeepsBook(p, states[u]);
    if NoneOvertaken(p, states, steps, u) {
      TightUpTo(p, states, steps, u);
      OpeningKeepsThreads(p, states[u]);
    } else {
      var l :| 0 <= l < u && Overtakes(p, states[l], steps[l]);
      OvertakenRunLeaks(p, states, steps, l, u);
    }
  }

  /** A whole life of the controller: the accounting is exact in every state after the opening
      if and only if no deletion overtook the reconcile loop, every deletion pending at the
      opening was foreseen, and no step since has been a fault. */
  lemma ExactFromOpeningIff(p: Params, states: seq<State>, steps: seq<Step>, t: nat, u: nat)
    requires Opens(p, states, steps, t, u)
    ensures (forall k :: u < k < |states| ==> ExactState(p, states[k]))
       <==> && NoneOvertaken(p, states, steps, u) && AllForeseen(p, states, steps, t, u)
            && NoFaultFrom(states, steps, u + 1)
  {
    RunOpensExactlyIff(p, states, steps, t, u);
    if ExactState(p, states[u + 1]) {
      ExactOnwardIff(p, states, steps, u + 1);
    }
  }

  lemma ExactOnwardIff(p: Params, states: seq<State>, steps: seq<Step>, v: nat)
    requires IsRun(p, states, steps) && v < |states| && ExactState(p, states[v])
    ensures (forall k :: v <= k < |states| ==> ExactState(p, states[k])) <==> NoFaultFrom(states, steps, v)
  {
    var rest, moves := states[v..], steps[v..];
    SuffixIsRun(p, states, steps, v);
    RunIsExactIff(p, rest, moves);
    assert forall k :: v <= k < |states| ==> rest[k - v] == states[k];
    assert forall k :: v <= k < |steps| ==> moves[k - v] == steps[k];
  }

  lemma SuffixIsRun(p: Params, states: seq<State>, steps: seq<Step>, v: nat)
    requires IsRun(p, states, steps) && v < |states|
    ensures IsRun(p, states[v..], steps[v..])
  {
    var rest, moves := states[v..], steps[v..];
    forall k | 0 <= k < |moves|
      ensures Enabled(rest[k], moves[k]) && rest[k + 1] == Next(p, rest[k], moves[k])
    {
      assert rest[k] == states[v + k] && moves[k] == steps[v + k] && rest[k + 1] == states[v + k + 1];
    }
  }

  lemma OvertakenRunLeaks(p: Params, states: seq<State>, steps: seq<Step>, l: nat, u: nat)
    requires IsRun(p, states, steps) && Closed(p, states[0]) && l < u < |steps| && StillShut(steps, u)
    requires Overtakes(p, states[l], steps[l]) && steps[u].OpenGate?
    ensures !NoLeak(p, BookOf(states[u]))
  {
    var i :| i in SpecBlocks(p, states[l].deletes[steps[l].id].spec);
    ClosedUpTo(p, states, steps, l);
    OvertakingLoses(p, states[l], steps[l], i);
    LostUpTo(p, states, steps, l + 1, u, i);
    assert Enabled(states[u], steps[u]);
    assert i in BookOf(states[u]).used;
  }

  // ---- restart ----

  /** Only nodes without CIDRs have been added. */
  ghost predicate OnlyGrown(api: map<Name, Spec>, s: State) {
    && s.deletes == map[]
    && (forall node :: node in api ==> node in s.api && s.api[node] == api[node])
    && (forall node :: node in s.api && node !in api ==> s.api[node] == [])
  }

  /** The blocks that the CIDRs of the nodes touch. */
  ghost function NodeBlocks(p: Params, api: map<Name, Spec>): (blocks: set<nat>)
    ensures forall i :: i in blocks <==> exists node :: node in api && i in SpecBlocks(p, api[node])
  {
    set node, i | node in api && i in SpecBlocks(p, api[node]) :: i
  }

  /** Nothing but blocks of nodes is marked, the loop works on nodes that exist, and once it has
      started every node is marked or still ahead. */
  ghost predicate Rebuilding(p: Params, api: map<Name, Spec>, s: State) {
    && OnlyGrown(api, s) && s.bitmap.used <= NodeBlocks(p, api)
    && (s.gate.Listed? ==>
          && NodesGuarded(p, s)
          && forall e :: e in s.gate.todo ==> e.node in s.api && s.api[e.node] == e.spec)
  }

  lemma NodeHoldsItsBlocks(p: Params, api: map<Name, Spec>, s: State, node: Name)
    requires OnlyGrown(api, s) && node in s.api
    ensures SpecBlocks(p, s.api[node]) <= NodeBlocks(p, api)
  {
    NothingHeld(p);
  }

  lemma OccupyingRebuilds(p: Params, api: map<Name, Spec>, s: State, h: nat)
    requires Shut(p, s) && Enabled(s, HandlerOccupy(h)) && Rebuilding(p, api, s)
    ensures Rebuilding(p, api, OccupyNode(p, s, h))
  {
    OccupiedBits(p, s, s.handlers[h].spec);
    assert Live(s, s.handlers[h].node, s.handlers[h].spec);
    NodeHoldsItsBlocks(p, api, s, s.handlers[h].node);
    var s' := OccupyNode(p, s, h);
    assert s'.bitmap.used == s.bitmap.used + SpecBlocks(p, s.handlers[h].spec);
    if s'.gate.Listed? {
      forall node | node in s'.api
        ensures Guarded(p, s', node, s'.api[node])
      {
        assert Guarded(p, s, node, s.api[node]);
      }
    }
  }

  lemma ReconcilingRebuilds(p: Params, api: map<Name, Spec>, s: State)
    requires Shut(p, s) && Enabled(s, ReconcileNode) && Rebuilding(p, api, s)
    ensures Rebuilding(p, api, Reconcile(p, s))
  {
    var e := s.gate.todo[0];
    OccupiedBits(p, s, e.spec);
    assert e in s.gate.todo;
    NodeHoldsItsBlocks(p, api, s, e.node);
    ReconcilingGuards(p, s);
  }

  lemma ReconcilingGuards(p: Params, s: State)
    requires s.Valid(p) && Enabled(s, ReconcileNode) && NodesGuarded(p, s)
    ensures !Reconcile(p, s).gate.Aborted? ==> NodesGuarded(p, Reconcile(p, s))
  {
    if !Reconcile(p, s).gate.Aborted? {
      forall node | node in s.api
        ensures Guarded(p, Reconcile(p, s), node, s.api[node])
      {
        ReconcileGuards(p, s, node, s.api[node]);
      }
    }
  }

  lemma CreatingRebuilds(p: Params, api: map<Name, Spec>, s: State, node: Name)
    requires Shut(p, s) && Enabled(s, ApiCreate(node)) && Rebuilding(p, api, s)
    ensures Rebuilding(p, api, Next(p, s, ApiCreate(node)))
  {
    NothingHeld(p);
    var s' := Next(p, s, ApiCreate(node));
    if s'.gate.Listed? {
      forall n | n in s'.api
        ensures Guarded(p, s', n, s'.api[n])
      {
        assert n == node || Guarded(p, s, n, s.api[n]);
      }
    }
  }

  lemma OthersRebuild(p: Params, api: map<Name, Spec>, s: State, step: Step)
    requires Shut(p, s) && Enabled(s, step) && IsEarly(step) && Rebuilding(p, api, s)
    requires !step.HandlerOccupy? && !step.ReconcileNode? && !step.ApiCreate? && !step.ApiDelete?
    ensures Rebuilding(p, api, Next(p, s, step))
  {
    assert !step.DeleteHandler?;
    ApiUnchanged(p, s, step);
    SameBits(p, s, step);
    if step.ReconcileList? {
      ListingMakesReady(p, s, step.list);
    } else {
      StaysUnlisted(p, s, step);
    }
  }

  lemma StaysUnlisted(p: Params, s: State, step: Step)
    requires s.Valid(p) && Enabled(s, step) && IsEarly(step) && !step.ReconcileList? && !step.ReconcileNode?
    ensures Next(p, s, step).gate == s.gate || Next(p, s, step).gate.Aborted?
  {
  }

  lemma StaysRebuilding(p: Params, api: map<Name, Spec>, s: State, step: Step)
    requires Shut(p, s) && Enabled(s, step) && IsEarly(step) && !step.ApiDelete? && Rebuilding(p, api, s)
    ensures Rebuilding(p, api, Next(p, s, step))
  {
    match step {
      case HandlerOccupy(h) => OccupyingRebuilds(p, api, s, h);
      case ReconcileNode => ReconcilingRebuilds(p, api, s);
      case ApiCreate(node) => CreatingRebuilds(p, api, s, node);
      case _ => OthersRebuild(p, api, s, step);
    }
  }

  predicate NoneDeleted(steps: seq<Step>, u: nat)
    requires u <= |steps|
  {
    forall l :: 0 <= l < u ==> !steps[l].ApiDelete?
  }

  lemma {:induction false} RebuildingUpTo(p: Params, states: seq<State>, steps: seq<Step>, k: nat)
    requires IsRun(p, states, steps) && Launched(p, states[0]) && k < |states| && StillShut(steps, k)
    requires states[0].deletes == map[] && NoneDeleted(steps, k)
    ensures Rebuilding(p, states[0].api, states[k])
  {
    if k > 0 {
      RebuildingUpTo(p, states, steps, k - 1);
      LaunchIsShut(p, states[0]);
      ShutUpTo(p, states, steps, k - 1);
      OnlyEarlySteps(p, states[k - 1], steps[k - 1]);
      StaysRebuilding(p, states[0].api, states[k - 1], steps[k - 1]);
    }
  }

  /** Restart rebuilds the bitmap: without deletions on the way the used bits at the opening are
      exactly the union of the blocks that the nodes' IPv4 CIDRs touch. The nodes may hold any
      CIDRs, also the same ones; the order of the list, how often Add handlers occupy, and where
      IPv6 entries stand make no difference. */
  lemma RestartRebuildsBitmap(p: Params, states: seq<State>, steps: seq<Step>, u: nat)
    requires IsRun(p, states, steps) && Launched(p, states[0]) && u < |steps|
    requires states[0].deletes == map[] && NoneDeleted(steps, u)
    requires steps[u].OpenGate? && StillShut(steps, u)
    ensures states[u + 1].bitmap.used == NodeBlocks(p, states[0].api)
    ensures states[u + 1].bitmap.next == 0
  {
    RebuildingUpTo(p, states, steps, u);
    LaunchIsShut(p, states[0]);
    ShutUpTo(p, states, steps, u);
    assert Enabled(states[u], steps[u]) && states[u + 1] == Next(p, states[u], steps[u]);
    AllMarked(p, states[0].api, states[u]);
  }

  lemma AllMarked(p: Params, api: map<Name, Spec>, s: State)
    requires Rebuilding(p, api, s) && s.gate == Listed([])
    ensures s.bitmap.used == NodeBlocks(p, api)
  {
    forall i | i in NodeBlocks(p, api)
      ensures i in s.bitmap.used
    {
      var node :| node in api && i in SpecBlocks(p, api[node]);
      assert Guarded(p, s, node, s.api[node]);
    }
  }
}
