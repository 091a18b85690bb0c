/** The uninterrupted calls of the controller object are runs of the protocol: what its methods
    are proved to do is what the steps of one thread do, one after the other. */
module Refinement {
  import opened Networks
  import NextFit
  import opened Protocol
  import opened CidrAllocators

  function CoreOf(s: State): Core { Core(s.bitmap, s.marks, s.queue) }

  /** Everything but the shared core, the handlers and the workers. */
  predicate SameRest(s: State, s': State) {
    s'.api == s.api && s'.deletes == s.deletes && s'.gate == s.gate
  }

  /** The slot a call leaves behind. */
  function SlotOf(node: Name, ending: Ending): Handler {
    match ending
    case Returned(_) => Idle
    case BlockedAtGate => Waiting(node)
    case BlockedOnQueue(item) => Enqueuing(item)
  }

  lemma AppendedSlot(handlers: seq<Handler>, x: Handler, y: Handler)
    ensures (handlers + [x])[|handlers| := y] == handlers + [y]
  {
  }

  /** A call of AllocateOrOccupyCIDR, up to its end or to where it blocks. */
  lemma CallIsRun(p: Params, s: State, node: Name, spec: Spec, cancelled: bool) returns (s': State)
    requires s.Valid(p) && (spec == [] || Live(s, node, spec))
    ensures var (core, ending) := CallResult(p, CoreOf(s), node, spec, s.gate.Open?, cancelled);
            && Reaches(p, s, s') && CoreOf(s') == core
            && s'.handlers == (if node in s.marks then s.handlers else s.handlers + [SlotOf(node, ending)])
            && s'.workers == s.workers && SameRest(s, s')
            && (node in s.marks ==> s' == s && ending == Returned(false))
  {
    if node in s.marks {
      s' := s;
      Stay(p, s);
    } else {
      s' := NewCallIsRun(p, s, node, spec, cancelled);
    }
  }

  lemma NewCallIsRun(p: Params, s: State, node: Name, spec: Spec, cancelled: bool) returns (s': State)
    requires s.Valid(p) && node !in s.marks && (spec == [] || Live(s, node, spec))
    ensures var (core, ending) := CallResult(p, CoreOf(s), node, spec, s.gate.Open?, cancelled);
            && Reaches(p, s, s') && CoreOf(s') == core
            && s'.handlers == s.handlers + [SlotOf(node, ending)]
            && s'.workers == s.workers && SameRest(s, s')
  {
    var m := Start(s, node, spec);
    Stay(p, s);
    Then(p, s, s, HandlerStart(node, spec), m);
    var h := |s.handlers|;
    if spec != [] {
      s' := OccupyIsRun(p, s, m, h);
      AppendedSlot(s.handlers, Occupying(node, spec), Idle);
    } else if cancelled {
      s' := CancelIsRun(p, s, m, h);
      AppendedSlot(s.handlers, Waiting(node), Idle);
    } else if !s.gate.Open? {
      s' := m;
    } else {
      s' := GateIsRun(p, s, m, h);
      AppendedSlot(s.handlers, Waiting(node), SlotOf(node, GateResult(p, CoreOf(m), node).1));
    }
    assert s.marks + {node} - {node} == s.marks;
  }

  lemma UnmarkIsRun(p: Params, s: State, m: State, h: nat) returns (s': State)
    requires Reaches(p, s, m) && m.Valid(p) && h < |m.handlers| && m.handlers[h].Unmarking?
    ensures Reaches(p, s, s')
    ensures s' == m.(marks := m.marks - {m.handlers[h].node}, handlers := m.handlers[h := Idle])
  {
    s' := Next(p, m, HandlerUnmark(h));
    Then(p, s, m, HandlerUnmark(h), s');
  }

  lemma OccupyIsRun(p: Params, s: State, m: State, h: nat) returns (s': State)
    requires Reaches(p, s, m) && m.Valid(p) && h < |m.handlers| && m.handlers[h].Occupying?
    ensures Reaches(p, s, s')
    ensures s' == m.(bitmap := m.bitmap.Occupy(SpecBlocks(p, m.handlers[h].spec)),
                     marks := m.marks - {m.handlers[h].node}, handlers := m.handlers[h := Idle])
  {
    var m1 := OccupyNode(p, m, h);
    Then(p, s, m, HandlerOccupy(h), m1);
    s' := UnmarkIsRun(p, s, m1, h);
    assert m1.handlers[h := Idle] == m.handlers[h := Idle];
  }

  lemma CancelIsRun(p: Params, s: State, m: State, h: nat) returns (s': State)
    requires Reaches(p, s, m) && m.Valid(p) && h < |m.handlers| && m.handlers[h].Waiting?
    ensures Reaches(p, s, s')
    ensures s' == m.(marks := m.marks - {m.handlers[h].node}, handlers := m.handlers[h := Idle])
  {
    var m1 := Next(p, m, HandlerCancel(h));
    Then(p, s, m, HandlerCancel(h), m1);
    s' := UnmarkIsRun(p, s, m1, h);
    assert m1.handlers[h := Idle] == m.handlers[h := Idle];
  }

  lemma GateIsRun(p: Params, s: State, m: State, h: nat) returns (s': State)
    requires Reaches(p, s, m) && m.Valid(p) && m.gate.Open? && h < |m.handlers| && m.handlers[h].Waiting?
    ensures Reaches(p, s, s')
    ensures CoreOf(s') == GateResult(p, CoreOf(m), m.handlers[h].node).0
    ensures s'.handlers == m.handlers[h := SlotOf(m.handlers[h].node, GateResult(p, CoreOf(m), m.handlers[h].node).1)]
    ensures s'.workers == m.workers && SameRest(m, s')
  {
    var m1 := Allocate(p, m, h);
    Then(p, s, m, HandlerAllocate(h), m1);
    if m.bitmap.Full() {
      s' := UnmarkIsRun(p, s, m1, h);
      assert m1.handlers[h := Idle] == m.handlers[h := Idle];
    } else if |m.queue| < CIDR_UPDATE_QUEUE_SIZE {
      s' := Next(p, m1, HandlerEnqueue(h));
      Then(p, s, m1, HandlerEnqueue(h), s');
      assert m1.handlers[h := Idle] == m.handlers[h := Idle];
    } else {
      s' := m1;
    }
  }

  // ---- workers ----

  lemma SetTwice(workers: seq<Worker>, w: nat, x: Worker)
    requires w < |workers|
    ensures forall y: Worker {:trigger workers[w := y]} :: workers[w := x][w := y] == workers[w := y]
  {
  }

  lemma FinishIsRun(p: Params, s: State, m: State, w: nat) returns (s': State)
    requires Reaches(p, s, m) && m.Valid(p) && w < |m.workers| && m.workers[w].Finishing?
    ensures Reaches(p, s, s')
    ensures s' == m.(marks := m.marks - {m.workers[w].node}, workers := m.workers[w := Free])
  {
    s' := Next(p, m, WorkerUnmark(w));
    Then(p, s, m, WorkerUnmark(w), s');
  }

  /** The retry loop: the first acknowledged attempt ends it, and no acknowledgement at all is
      the terminal failure, whether or not an attempt reached the node unseen. */
  lemma {:induction false} AttemptsAreRun(p: Params, s: State, m: State, w: nat, outcomes: seq<PatchOutcome>) returns (s': State)
    requires Reaches(p, s, m) && m.Valid(p) && w < |m.workers| && m.workers[w].Patching?
    requires m.workers[w].attempts == |outcomes| && m.workers[w].item.node in m.api
    ensures Reaches(p, s, s') && s'.handlers == m.handlers && s'.queue == m.queue
    ensures s'.deletes == m.deletes && s'.gate == m.gate
    ensures s'.api == if Acked in outcomes || LostAck in outcomes
                      then m.api[m.workers[w].item.node := m.workers[w].cidrs] else m.api
    ensures Acked in outcomes ==>
              && s'.bitmap == m.bitmap && s'.marks == m.marks - {m.workers[w].item.node}
              && s'.workers == m.workers[w := Free]
    ensures Acked !in outcomes ==>
              && s'.bitmap == m.bitmap.Release(p.cfg.BlocksOf(m.workers[w].item.cidr)) && s'.marks == m.marks
              && s'.workers == m.workers[w := Requeuing(m.workers[w].item)]
    decreases |outcomes|
  {
    if outcomes == [] {
      s' := GiveUp(p, m, w);
      Then(p, s, m, WorkerGiveUp(w), s');
    } else {
      assert outcomes == [outcomes[0]] + outcomes[1..];
      var m1 := AttemptIsRun(p, s, m, w, outcomes[0]);
      SetTwice(m.workers, w, m1.workers[w]);
      if outcomes[0] == Acked {
        s' := FinishIsRun(p, s, m1, w);
      } else {
        s' := AttemptsAreRun(p, s, m1, w, outcomes[1..]);
      }
    }
  }

  lemma AttemptIsRun(p: Params, s: State, m: State, w: nat, outcome: PatchOutcome) returns (m': State)
    requires Reaches(p, s, m) && m.Valid(p) && w < |m.workers| && m.workers[w].Patching?
    requires m.workers[w].attempts > 0 && m.workers[w].item.node in m.api
    ensures Reaches(p, s, m') && |m'.workers| == |m.workers|
    ensures var item, cidrs := m.workers[w].item, m.workers[w].cidrs;
            && m' == m.(api := m'.api, workers := m.workers[w := m'.workers[w]])
            && m'.api == (if outcome.Rejected? then m.api else m.api[item.node := cidrs])
            && (outcome.Acked? ==> m'.workers[w] == Finishing(item.node))
            && (!outcome.Acked? ==>
                  && m'.workers[w].Patching? && m'.workers[w].item == item && m'.workers[w].cidrs == cidrs
                  && m'.workers[w].attempts == m.workers[w].attempts - 1)
  {
    m' := Patch(m, w, outcome);
    Then(p, s, m, WorkerPatch(w, outcome), m');
  }

  /** A call of updateCIDRsAllocation by worker w. */
  lemma UpdateIsRun(p: Params, s: State, w: nat, got: Option<Spec>, prefix: Option<Net>, outcomes: seq<PatchOutcome>) returns (s': State)
    requires s.Valid(p) && w < |s.workers| && s.workers[w].Took? && |outcomes| == CIDR_UPDATE_RETRIES
    requires prefix.Some? ==> prefix.value.family.V6?
    requires got.Some? ==> s.workers[w].item.node in s.api && got.value == s.api[s.workers[w].item.node]
    ensures var item := s.workers[w].item;
            var update := UpdateResult(p, CoreOf(s), item, got, prefix, outcomes);
            && Reaches(p, s, s') && CoreOf(s') == update.core && s'.handlers == s.handlers
            && s'.workers == s.workers[w := if update.err then Requeuing(item) else Free]
            && s'.api == (if update.written.Some? then s.api[item.node := update.written.value] else s.api)
            && s'.deletes == s.deletes && s'.gate == s.gate
  {
    Stay(p, s);
    if got.None? {
      s' := Next(p, s, WorkerGetError(w));
      Then(p, s, s, WorkerGetError(w), s');
    } else {
      var m := Next(p, s, WorkerGet(w));
      Then(p, s, s, WorkerGet(w), m);
      s' := DecisionIsRun(p, s, m, w, prefix, outcomes);
      SetTwice(s.workers, w, m.workers[w]);
    }
  }

  lemma DecisionIsRun(p: Params, s: State, m: State, w: nat, prefix: Option<Net>, outcomes: seq<PatchOutcome>) returns (s': State)
    requires Reaches(p, s, m) && m.Valid(p) && w < |m.workers| && m.workers[w].Got? && |outcomes| == CIDR_UPDATE_RETRIES
    requires prefix.Some? ==> prefix.value.family.V6?
    requires m.workers[w].item.node in m.api
    ensures var item := m.workers[w].item;
            var update := UpdateResult(p, CoreOf(m), item, Some(m.workers[w].spec), prefix, outcomes);
            && Reaches(p, s, s') && CoreOf(s') == update.core && s'.handlers == m.handlers
            && s'.workers == m.workers[w := if update.err then Requeuing(item) else Free]
            && s'.api == (if update.written.Some? then m.api[item.node := update.written.value] else m.api)
            && s'.deletes == m.deletes && s'.gate == m.gate
  {
    var m1 := Dispose(p, m, w, prefix);
    Then(p, s, m, WorkerDecide(w, prefix), m1);
    SetTwice(m.workers, w, m1.workers[w]);
    match Decide(p, m.workers[w].item, m.workers[w].spec, prefix) {
      case AlreadyAssigned => s' := FinishIsRun(p, s, m1, w);
      case ReleaseReserved => s' := FinishIsRun(p, s, m1, w);
      case NoPrefix => s' := m1;
      case Assign(_) => s' := AttemptsAreRun(p, s, m1, w, outcomes);
    }
  }

  /** One turn of the worker loop. There is room to requeue the item that the turn took. */
  lemma TurnIsRun(p: Params, s: State, w: nat, got: Option<Spec>, prefix: Option<Net>, outcomes: seq<PatchOutcome>) returns (s': State)
    requires s.Valid(p) && s.gate.Open? && s.queue != [] && |s.queue| <= CIDR_UPDATE_QUEUE_SIZE
    requires w < |s.workers| && s.workers[w].Free? && |outcomes| == CIDR_UPDATE_RETRIES
    requires prefix.Some? ==> prefix.value.family.V6?
    requires got.Some? ==> s.queue[0].node in s.api && got.value == s.api[s.queue[0].node]
    ensures Reaches(p, s, s')
    ensures var item, taken := s.queue[0], CoreOf(s).(queue := s.queue[1..]);
            var update := UpdateResult(p, taken, item, got, prefix, outcomes);
            && CoreOf(s') == (if update.err then update.core.(queue := s.queue[1..] + [item]) else update.core)
            && s'.api == (if update.written.Some? then s.api[item.node := update.written.value] else s.api)
            && s'.handlers == s.handlers && s'.workers == s.workers && s'.deletes == s.deletes && s'.gate == s.gate
  {
    var m1 := TakeAndUpdateIsRun(p, s, w, got, prefix, outcomes);
    s' := RequeueIsRun(p, s, m1, w);
    SlotIsFree(s.workers, w, Requeuing(s.queue[0]));
  }

  /** The turn up to where a failed item is requeued. */
  lemma TakeAndUpdateIsRun(p: Params, s: State, w: nat, got: Option<Spec>, prefix: Option<Net>, outcomes: seq<PatchOutcome>)
    returns (m: State)
    requires s.Valid(p) && s.gate.Open? && s.queue != []
    requires w < |s.workers| && s.workers[w].Free? && |outcomes| == CIDR_UPDATE_RETRIES
    requires prefix.Some? ==> prefix.value.family.V6?
    requires got.Some? ==> s.queue[0].node in s.api && got.value == s.api[s.queue[0].node]
    ensures Reaches(p, s, m) && m.Valid(p)
    ensures var item := s.queue[0];
            var update := UpdateResult(p, CoreOf(s).(queue := s.queue[1..]), item, got, prefix, outcomes);
            && CoreOf(m) == update.core && m.queue == s.queue[1..] && m.handlers == s.handlers
            && m.workers == s.workers[w := if update.err then Requeuing(item) else Free]
            && m.api == (if update.written.Some? then s.api[item.node := update.written.value] else s.api)
            && m.deletes == s.deletes && m.gate == s.gate
  {
    var m0 := Next(p, s, WorkerTake(w));
    Stay(p, s);
    Then(p, s, s, WorkerTake(w), m0);
    SetTwice(s.workers, w, m0.workers[w]);
    m := UpdateIsRun(p, m0, w, got, prefix, outcomes);
    ReachesOn(p, s, m0, m);
    ReachedIsValid(p, s, m);
  }

  lemma ReachedIsValid(p: Params, s: State, m: State)
    requires Reaches(p, s, m)
    ensures m.Valid(p)
  {
  }

  lemma SlotIsFree(workers: seq<Worker>, w: nat, x: Worker)
    requires w < |workers| && workers[w] == Free
    ensures workers[w := Free] == workers && workers[w := x][w := Free] == workers
  {
  }

  lemma RequeueIsRun(p: Params, s: State, m: State, w: nat) returns (s': State)
    requires Reaches(p, s, m) && m.Valid(p) && w < |m.workers| && |m.queue| < CIDR_UPDATE_QUEUE_SIZE
    ensures Reaches(p, s, s')
    ensures s' == if m.workers[w].Requeuing?
                  then m.(queue := m.queue + [m.workers[w].item], workers := m.workers[w := Free])
                  else m
  {
    s' := m;
    if m.workers[w].Requeuing? {
      s' := Next(p, m, WorkerRequeue(w));
      Then(p, s, m, WorkerRequeue(w), s');
    }
  }

  // ---- the reconcile loop ----

  /** The reconcile loop from the list on: it comes to the end, with the blocks of all listed
      nodes marked, and opens the gate, or it stops for good at the first CIDR out of range. */
  lemma {:induction false} ReconcileIsRun(p: Params, s: State, m: State) returns (s': State, k: nat)
    requires Reaches(p, s, m) && m.Valid(p) && m.gate.Listed?
    ensures Reaches(p, s, s') && k <= |m.gate.todo|
    ensures var list := m.gate.todo;
            && s' == m.(gate := if k == |list| then Open else Aborted, bitmap := m.bitmap.Occupy(ListBlocks(p, list[..k])))
            && AllInRange(p, list[..k]) && (k < |list| ==> OutOfRange(p, list[k].spec))
    decreases |m.gate.todo|
  {
    var list := m.gate.todo;
    OccupyNothing(m.bitmap);
    assert ListBlocks(p, list[..0]) == {};
    if list == [] {
      s', k := m.(gate := Open), 0;
      Then(p, s, m, OpenGate, s');
    } else {
      var m1 := Reconcile(p, m);
      Then(p, s, m, ReconcileNode, m1);
      if OutOfRange(p, list[0].spec) {
        s', k := m1, 0;
      } else {
        var l;
        s', l := ReconcileIsRun(p, s, m1);
        k := l + 1;
        assert list[..k][1..] == list[1..][..l];
        ListBlocksFirst(p, list[..k], m.bitmap);
      }
    }
  }

  lemma ListBlocksFirst(p: Params, list: seq<NodeSpec>, b: NextFit.Bitmap)
    requires list != []
    ensures b.Occupy(SpecBlocks(p, list[0].spec)).Occupy(ListBlocks(p, list[1..])) == b.Occupy(ListBlocks(p, list))
    ensures !OutOfRange(p, list[0].spec) ==> (AllInRange(p, list[1..]) <==> AllInRange(p, list))
  {
    assert list == [list[0]] + list[1..];
    assert ListBlocks(p, list) == SpecBlocks(p, list[0].spec) + ListBlocks(p, list[1..]);
    assert b.Occupy(SpecBlocks(p, list[0].spec)).Occupy(ListBlocks(p, list[1..])).used == b.Occupy(ListBlocks(p, list)).used;
  }

  /** Start: the List call and the loop. */
  lemma StartIsRun(p: Params, s: State, list: Option<seq<NodeSpec>>) returns (s': State, k: nat)
    requires s.Valid(p) && s.gate.Unlisted? && (list.Some? ==> IsListing(s.api, list.value))
    ensures Reaches(p, s, s')
    ensures list.None? ==> s' == s.(gate := Aborted)
    ensures list.Some? ==>
              && k <= |list.value| && (k < |list.value| ==> OutOfRange(p, list.value[k].spec))
              && (forall e :: e in list.value[..k] ==> !OutOfRange(p, e.spec))
              && s' == s.(gate := if k == |list.value| then Open else Aborted,
                          bitmap := s.bitmap.Occupy(ListBlocks(p, list.value[..k])))
  {
    Stay(p, s);
    if list.None? {
      s', k := s.(gate := Aborted), 0;
      Then(p, s, s, ReconcileError, s');
    } else {
      var m := s.(gate := Listed(list.value));
      Then(p, s, s, ReconcileList(list.value), m);
      s', k := ReconcileIsRun(p, s, m);
    }
  }

  // ---- deletions ----

  /** ReleaseCIDR for a pending delete event. */
  lemma DeletionIsRun(p: Params, s: State, id: nat) returns (s': State)
    requires s.Valid(p) && id in s.deletes && NoAddHandler(s, s.deletes[id].node)
    ensures Reaches(p, s, s')
    ensures s' == s.(bitmap := s.bitmap.Release(SpecBlocks(p, s.deletes[id].spec)), deletes := s.deletes - {id})
  {
    s' := HandleDelete(p, s, id);
    Stay(p, s);
    Then(p, s, s, DeleteHandler(id), s');
  }
}
