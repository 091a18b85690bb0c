/** Deletions that are still pending when the gate opens: which events have led to their blocks
    being marked, and so exactly when the gate opens on a safe state. */
module Opening {
  import opened Protocol
  import opened Ledger
  import opened Accounting
  import opened Gate

  // ---- the events ----

  /** Deletion id was created between steps t and u. */
  predicate DeletedSince(steps: seq<Step>, t: nat, u: nat, id: nat)
    requires u <= |steps|
  {
    exists l :: t < l < u && steps[l].ApiDelete? && steps[l].id == id
  }

  /** An Add handler occupies the CIDRs of this very node. */
  predicate OccupiesFor(s: State, step: Step, e: NodeSpec) {
    step.HandlerOccupy? && step.h < |s.handlers| && s.handlers[step.h] == Occupying(e.node, e.spec)
  }

  predicate OccupiedBefore(states: seq<State>, steps: seq<Step>, u: nat, e: NodeSpec)
    requires u <= |steps| < |states|
  {
    exists l :: 0 <= l < u && OccupiesFor(states[l], steps[l], e)
  }

  /** The deletion concerns no block, or was created after the List call t, or an Add handler had
      occupied the CIDRs of the node. */
  ghost predicate Foreseen(p: Params, states: seq<State>, steps: seq<Step>, t: nat, u: nat, id: nat)
    requires u <= |steps| < |states| && id in states[u].deletes
  {
    var e := states[u].deletes[id];
    SpecBlocks(p, e.spec) == {} || DeletedSince(steps, t, u, id) || OccupiedBefore(states, steps, u, e)
  }

  ghost predicate AllForeseen(p: Params, states: seq<State>, steps: seq<Step>, t: nat, u: nat)
    requires u <= |steps| < |states|
  {
    forall id :: id in states[u].deletes ==> Foreseen(p, states, steps, t, u, id)
  }

  // ---- who was live before ----

  /** Before the gate opens nobody acquires a block: what is live with one was live before. */
  lemma LiveBefore(p: Params, s: State, step: Step, e: NodeSpec, i: nat)
    requires s.Valid(p) && Enabled(s, step) && IsEarly(step)
    requires i in SpecBlocks(p, e.spec) && Live(Next(p, s, step), e.node, e.spec)
    ensures Live(s, e.node, e.spec)
  {
    var s' := Next(p, s, step);
    if e.node in s'.api && s'.api[e.node] == e.spec {
      if step == ApiCreate(e.node) {
        NothingHeld(p);
      } else {
        ApiBefore(p, s, step, e.node);
      }
    } else {
      var id :| id in s'.deletes && s'.deletes[id] == NodeSpec(e.node, e.spec);
      if !(step.ApiDelete? && step.id == id) {
        DeletesBefore(p, s, step, id);
      }
    }
  }

  lemma {:induction false} LiveAllAlong(p: Params, states: seq<State>, steps: seq<Step>, k: nat, u: nat, e: NodeSpec, i: nat)
    requires IsRun(p, states, steps) && Closed(p, states[0]) && k <= u < |states| && StillShut(steps, u)
    requires i in SpecBlocks(p, e.spec) && Live(states[u], e.node, e.spec)
    ensures Live(states[k], e.node, e.spec)
    decreases u
  {
    if k < u {
      ClosedUpTo(p, states, steps, u - 1);
      LiveOneBefore(p, states, steps, u - 1, e, i);
      LiveAllAlong(p, states, steps, k, u - 1, e, i);
    }
  }

  lemma LiveOneBefore(p: Params, states: seq<State>, steps: seq<Step>, k: nat, e: NodeSpec, i: nat)
    requires IsRun(p, states, steps) && k < |steps| && Closed(p, states[k]) && !steps[k].OpenGate?
    requires i in SpecBlocks(p, e.spec) && Live(states[k + 1], e.node, e.spec)
    ensures Live(states[k], e.node, e.spec)
  {
    ClosedIsKept(p, states[k], steps[k]);
    LiveBefore(p, states[k], steps[k], e, i);
  }

  lemma LiveOwner(p: Params, s: State, e: NodeSpec) returns (o: Owner)
    requires Live(s, e.node, e.spec)
    ensures Held(p, BookOf(s), o) == SpecBlocks(p, e.spec)
    ensures o == OwnNode(e.node) || (o.OwnDelete? && o.id in s.deletes && s.deletes[o.id] == e)
    ensures o.OwnNode? ==> e.node in s.api && s.api[e.node] == e.spec
  {
    if e.node in s.api && s.api[e.node] == e.spec {
      o := OwnNode(e.node);
    } else {
      var id :| id in s.deletes && s.deletes[id] == NodeSpec(e.node, e.spec);
      o := OwnDelete(id);
    }
  }

  /** Two that are live with the same block are the same. */
  lemma LiveIsUnique(p: Params, s: State, x: NodeSpec, y: NodeSpec, i: nat)
    requires Disjoint(p, BookOf(s)) && Live(s, x.node, x.spec) && Live(s, y.node, y.spec)
    requires i in SpecBlocks(p, x.spec) && i in SpecBlocks(p, y.spec)
    ensures x == y
  {
    var ox := LiveOwner(p, s, x);
    var oy := LiveOwner(p, s, y);
    assert i in Held(p, BookOf(s), ox) && i in Held(p, BookOf(s), oy);
  }

  // ---- a marked block stays marked while it is held ----

  lemma MarkedStays(p: Params, s: State, step: Step, e: NodeSpec, i: nat)
    requires Closed(p, s) && Enabled(s, step) && IsEarly(step) && i in s.bitmap.used
    requires i in SpecBlocks(p, e.spec) && Live(Next(p, s, step), e.node, e.spec)
    ensures i in Next(p, s, step).bitmap.used
  {
    match step {
      case DeleteHandler(id) => HandlingSpares(p, s, id, e, i);
      case ReconcileNode => OccupiedBits(p, s, s.gate.todo[0].spec);
      case HandlerOccupy(h) => OccupiedBits(p, s, s.handlers[h].spec);
      case _ => SameBits(p, s, step);
    }
  }

  lemma HandlingSpares(p: Params, s: State, id: nat, e: NodeSpec, i: nat)
    requires Closed(p, s) && Enabled(s, DeleteHandler(id)) && i in s.bitmap.used
    requires i in SpecBlocks(p, e.spec) && Live(HandleDelete(p, s, id), e.node, e.spec)
    ensures i in HandleDelete(p, s, id).bitmap.used
  {
    var o := LiveOwner(p, HandleDelete(p, s, id), e);
    assert i in Held(p, BookOf(s), o) && o != OwnDelete(id);
    assert i in SpecBlocks(p, s.deletes[id].spec) ==> i in Held(p, BookOf(s), OwnDelete(id));
  }

  lemma {:induction false} MarkedUpTo(p: Params, states: seq<State>, steps: seq<Step>, l: nat, u: nat, e: NodeSpec, i: nat)
    requires IsRun(p, states, steps) && Closed(p, states[0]) && l <= u < |states| && StillShut(steps, u)
    requires i in SpecBlocks(p, e.spec) && Live(states[u], e.node, e.spec) && i in states[l].bitmap.used
    ensures i in states[u].bitmap.used
    decreases u
  {
    if l < u {
      LiveAllAlong(p, states, steps, u - 1, u, e, i);
      MarkedUpTo(p, states, steps, l, u - 1, e, i);
      ClosedUpTo(p, states, steps, u - 1);
      ClosedIsKept(p, states[u - 1], steps[u - 1]);
      MarkedStays(p, states[u - 1], steps[u - 1], e, i);
    }
  }

  // ---- what marks a block ----

  lemma {:induction false} FirstMark(states: seq<State>, u: nat, i: nat) returns (k: nat)
    requires u < |states| && i !in states[0].bitmap.used && i in states[u].bitmap.used
    ensures k < u && i !in states[k].bitmap.used && i in states[k + 1].bitmap.used
  {
    if i in states[u - 1].bitmap.used {
      k := FirstMark(states, u - 1, i);
    } else {
      k := u - 1;
    }
  }

  lemma MarkingStep(p: Params, s: State, step: Step, i: nat)
    requires s.Valid(p) && Enabled(s, step) && IsEarly(step)
    requires i !in s.bitmap.used && i in Next(p, s, step).bitmap.used
    ensures step.HandlerOccupy? || step.ReconcileNode?
    ensures step.HandlerOccupy? ==> i in SpecBlocks(p, s.handlers[step.h].spec)
    ensures step.ReconcileNode? ==> i in SpecBlocks(p, s.gate.todo[0].spec)
  {
    if !step.HandlerOccupy? && !step.ReconcileNode? && !step.DeleteHandler? {
      SameBits(p, s, step);
    }
  }

  // ---- the list ----

  /** There is one List call: the gate never goes back. */
  lemma {:induction false} GateStaysListed(p: Params, states: seq<State>, steps: seq<Step>, k: nat, u: nat)
    requires IsRun(p, states, steps) && Closed(p, states[0]) && k <= u < |states| && StillShut(steps, u)
    requires !states[k].gate.Unlisted?
    ensures !states[u].gate.Unlisted?
    decreases u
  {
    if k < u {
      GateStaysListed(p, states, steps, k, u - 1);
      ClosedUpTo(p, states, steps, u - 1);
      OnlyEarlySteps(p, states[u - 1], steps[u - 1]);
      GateMoves(p, states[u - 1], steps[u - 1]);
    }
  }

  lemma ListCall(p: Params, states: seq<State>, steps: seq<Step>, t: nat)
    requires IsRun(p, states, steps) && t < |steps| && steps[t].ReconcileList?
    ensures states[t].gate.Unlisted? && states[t + 1].gate == Listed(steps[t].list)
    ensures forall x :: x in steps[t].list ==> x.node in states[t].api && states[t].api[x.node] == x.spec
  {
  }

  lemma TodoShrinks(p: Params, states: seq<State>, steps: seq<Step>, k: nat, x: NodeSpec)
    requires IsRun(p, states, steps) && k < |steps| && !steps[k].OpenGate?
    requires Closed(p, states[k]) && !states[k].gate.Unlisted?
    requires states[k + 1].gate.Listed? && x in states[k + 1].gate.todo
    ensures states[k].gate.Listed? && x in states[k].gate.todo
  {
    OnlyEarlySteps(p, states[k], steps[k]);
    TodoBefore(p, states[k], steps[k], x);
  }

  lemma {:induction false} TodoShrinksTo(p: Params, states: seq<State>, steps: seq<Step>, l: nat, k: nat, x: NodeSpec)
    requires IsRun(p, states, steps) && Closed(p, states[0]) && l <= k < |states| && StillShut(steps, k)
    requires !states[l].gate.Unlisted? && states[k].gate.Listed? && x in states[k].gate.todo
    ensures states[l].gate.Listed? && x in states[l].gate.todo
    decreases k
  {
    if l < k {
      GateStaysListed(p, states, steps, l, k - 1);
      ClosedUpTo(p, states, steps, k - 1);
      TodoShrinks(p, states, steps, k - 1, x);
      TodoShrinksTo(p, states, steps, l, k - 1, x);
    }
  }

  /** What the loop has ahead stood in the list, and belonged to a node when it was taken. */
  lemma TodoWasListed(p: Params, states: seq<State>, steps: seq<Step>, t: nat, k: nat, x: NodeSpec)
    requires IsRun(p, states, steps) && Closed(p, states[0]) && t < |steps| && k < |states|
    requires StillShut(steps, k) && StillShut(steps, t) && steps[t].ReconcileList?
    requires states[k].gate.Listed? && x in states[k].gate.todo
    ensures x.node in states[t].api && states[t].api[x.node] == x.spec
  {
    ListCall(p, states, steps, t);
    if k <= t {
      GateStaysListed(p, states, steps, k, t);
    } else {
      TodoShrinksTo(p, states, steps, t + 1, k, x);
    }
  }

  // ---- pending deletions ----

  predicate Pending(s: State, id: nat, e: NodeSpec) {
    id in s.deletes && s.deletes[id] == e
  }

  predicate NotCreated(steps: seq<Step>, t: nat, u: nat, id: nat)
    requires u <= |steps|
  {
    forall l :: t <= l < u ==> !(steps[l].ApiDelete? && steps[l].id == id)
  }

  /** A deletion that was not created since step t was pending then. */
  lemma {:induction false} WasPending(p: Params, states: seq<State>, steps: seq<Step>, t: nat, u: nat, id: nat, e: NodeSpec)
    requires IsRun(p, states, steps) && Closed(p, states[0]) && t <= u <= |steps| && StillShut(steps, u)
    requires NotCreated(steps, t, u, id) && Pending(states[u], id, e)
    ensures Pending(states[t], id, e)
    decreases u
  {
    if t < u {
      WasPendingBefore(p, states, steps, u - 1, id, e);
      WasPending(p, states, steps, t, u - 1, id, e);
    }
  }

  lemma WasPendingBefore(p: Params, states: seq<State>, steps: seq<Step>, k: nat, id: nat, e: NodeSpec)
    requires IsRun(p, states, steps) && k < |steps| && Closed(p, states[0]) && StillShut(steps, k + 1)
    requires NotCreated(steps, k, k + 1, id) && Pending(states[k + 1], id, e)
    ensures Pending(states[k], id, e)
  {
    ClosedUpTo(p, states, steps, k);
    OnlyEarlySteps(p, states[k], steps[k]);
    DeletesBefore(p, states[k], steps[k], id);
  }

  /** A deletion created after the List call stays guarded. */
  lemma {:induction false} RecentIsGuarded(p: Params, states: seq<State>, steps: seq<Step>, t: nat, l: nat, k: nat, id: nat)
    requires IsRun(p, states, steps) && Closed(p, states[0]) && t < l < k < |states| && StillShut(steps, k)
    requires steps[t].ReconcileList? && steps[l].ApiDelete? && steps[l].id == id
    ensures states[k].gate.Aborted? || DeletionGuarded(p, states[k], id)
    decreases k
  {
    if l < k - 1 {
      RecentIsGuarded(p, states, steps, t, l, k - 1, id);
    }
    RecentAt(p, states, steps, t, k - 1, id);
  }

  lemma RecentAt(p: Params, states: seq<State>, steps: seq<Step>, t: nat, k: nat, id: nat)
    requires IsRun(p, states, steps) && Closed(p, states[0]) && t < k < |steps| && StillShut(steps, k + 1)
    requires steps[t].ReconcileList?
    requires states[k].gate.Aborted? || DeletionGuarded(p, states[k], id) || (steps[k].ApiDelete? && steps[k].id == id)
    ensures states[k + 1].gate.Aborted? || DeletionGuarded(p, states[k + 1], id)
  {
    ReadyUpTo(p, states, steps, t, k);
    ClosedUpTo(p, states, steps, k);
    RecentStaysGuarded(p, states[k], steps[k], id);
  }

  lemma RecentStaysGuarded(p: Params, s: State, step: Step, id: nat)
    requires Closed(p, s) && Enabled(s, step) && !step.OpenGate? && Ready(p, s)
    requires s.gate.Aborted? || DeletionGuarded(p, s, id) || (step.ApiDelete? && step.id == id)
    ensures Next(p, s, step).gate.Aborted? || DeletionGuarded(p, Next(p, s, step), id)
  {
    OnlyEarlySteps(p, s, step);
    GateMoves(p, s, step);
    if !Next(p, s, step).gate.Aborted? {
      DeletionStaysGuarded(p, s, step, id);
    }
  }

  /** The setting of the theorems: a run from the start through List call t to opening u. */
  ghost predicate Opens(p: Params, states: seq<State>, steps: seq<Step>, t: nat, u: nat) {
    && IsRun(p, states, steps) && Started(p, states[0]) && t < u < |steps|
    && steps[t].ReconcileList? && steps[u].OpenGate? && StillShut(steps, u)
  }

  lemma ForeseenIsMarked(p: Params, states: seq<State>, steps: seq<Step>, t: nat, u: nat, id: nat)
    requires Opens(p, states, steps, t, u) && id in states[u].deletes && Foreseen(p, states, steps, t, u, id)
    ensures SpecBlocks(p, states[u].deletes[id].spec) <= states[u].bitmap.used
  {
    var e := states[u].deletes[id];
    StartIsClosed(p, states[0]);
    if DeletedSince(steps, t, u, id) {
      var l :| t < l < u && steps[l].ApiDelete? && steps[l].id == id;
      RecentIsGuarded(p, states, steps, t, l, u, id);
      assert Enabled(states[u], steps[u]);
    } else if OccupiedBefore(states, steps, u, e) {
      var l :| 0 <= l < u && OccupiesFor(states[l], steps[l], e);
      OccupyingMarks(p, states, steps, l);
      forall i | i in SpecBlocks(p, e.spec)
        ensures i in states[u].bitmap.used
      {
        MarkedUpTo(p, states, steps, l + 1, u, e, i);
      }
    }
  }

  lemma OccupyingMarks(p: Params, states: seq<State>, steps: seq<Step>, l: nat)
    requires IsRun(p, states, steps) && l < |steps| && steps[l].HandlerOccupy?
    ensures SpecBlocks(p, states[l].handlers[steps[l].h].spec) <= states[l + 1].bitmap.used
  {
    OccupiedBits(p, states[l], states[l].handlers[steps[l].h].spec);
  }

  lemma MarkedIsForeseen(p: Params, states: seq<State>, steps: seq<Step>, t: nat, u: nat, id: nat, i: nat)
    requires Opens(p, states, steps, t, u) && id in states[u].deletes
    requires i in SpecBlocks(p, states[u].deletes[id].spec) && i in states[u].bitmap.used
    ensures Foreseen(p, states, steps, t, u, id)
  {
    var e := states[u].deletes[id];
    StartIsClosed(p, states[0]);
    var k := FirstMark(states, u, i);
    ClosedUpTo(p, states, steps, k);
    OnlyEarlySteps(p, states[k], steps[k]);
    MarkingStep(p, states[k], steps[k], i);
    LiveAllAlong(p, states, steps, k, u, e, i);
    if steps[k].HandlerOccupy? {
      OccupierIsLive(p, states[k], steps[k], e, i);
    } else {
      LoopMarksOnlyNodes(p, states, steps, t, u, k, id, i);
    }
  }

  lemma OccupierIsLive(p: Params, s: State, step: Step, e: NodeSpec, i: nat)
    requires Closed(p, s) && Enabled(s, step) && step.HandlerOccupy? && Live(s, e.node, e.spec)
    requires i in SpecBlocks(p, e.spec) && i in SpecBlocks(p, s.handlers[step.h].spec)
    ensures OccupiesFor(s, step, e)
  {
    LiveIsUnique(p, s, NodeSpec(s.handlers[step.h].node, s.handlers[step.h].spec), e, i);
  }

  /** What the loop has marked was a node's at the List call, not a deletion's. */
  lemma LoopMarksOnlyNodes(p: Params, states: seq<State>, steps: seq<Step>, t: nat, u: nat, k: nat, id: nat, i: nat)
    requires Opens(p, states, steps, t, u) && id in states[u].deletes && k < u
    requires steps[k].ReconcileNode? && states[k].gate.Listed? && states[k].gate.todo != []
    requires i in SpecBlocks(p, states[u].deletes[id].spec) && i in SpecBlocks(p, states[k].gate.todo[0].spec)
    ensures DeletedSince(steps, t, u, id)
  {
    var x := states[k].gate.todo[0];
    StartIsClosed(p, states[0]);
    TodoWasListed(p, states, steps, t, k, x);
    ClosedUpTo(p, states, steps, t);
    if !DeletedSince(steps, t, u, id) {
      WasPending(p, states, steps, t, u, id, states[u].deletes[id]);
      NotBoth(p, states[t], id, x.node, i);
    }
  }

  lemma NotBoth(p: Params, s: State, id: nat, node: Name, i: nat)
    requires Disjoint(p, BookOf(s)) && id in s.deletes && node in s.api
    ensures i !in SpecBlocks(p, s.deletes[id].spec) || i !in SpecBlocks(p, s.api[node])
  {
    assert i in SpecBlocks(p, s.deletes[id].spec) ==> i in Held(p, BookOf(s), OwnDelete(id));
    assert i in SpecBlocks(p, s.api[node]) ==> i in Held(p, BookOf(s), OwnNode(node));
  }

  // ---- the theorems ----

  /** When the gate opens, the blocks of a pending deletion are marked if and only if the
      deletion concerns none, was created after the List call, or an Add handler had occupied
      the CIDRs of the node. */
  lemma PendingIsMarkedIff(p: Params, states: seq<State>, steps: seq<Step>, t: nat, u: nat, id: nat)
    requires Opens(p, states, steps, t, u) && id in states[u].deletes
    ensures SpecBlocks(p, states[u].deletes[id].spec) <= states[u].bitmap.used
       <==> Foreseen(p, states, steps, t, u, id)
  {
    if Foreseen(p, states, steps, t, u, id) {
      ForeseenIsMarked(p, states, steps, t, u, id);
    } else {
      var i :| i in SpecBlocks(p, states[u].deletes[id].spec);
      if i in states[u].bitmap.used {
        MarkedIsForeseen(p, states, steps, t, u, id, i);
      }
    }
  }

  /** From the start of the controller: in every interleaving the gate opens on a safe state if
      and only if every deletion then pending was foreseen. */
  lemma RunOpensSafelyIff(p: Params, states: seq<State>, steps: seq<Step>, t: nat, u: nat)
    requires Opens(p, states, steps, t, u)
    ensures SafeState(p, states[u + 1]) <==> AllForeseen(p, states, steps, t, u)
    ensures states[t].deletes == map[] ==> SafeState(p, states[u + 1])
  {
    StartIsClosed(p, states[0]);
    ClosedUpTo(p, states, steps, u);
    ReadyUpTo(p, states, steps, t, u);
    assert Enabled(states[u], steps[u]) && states[u + 1] == Next(p, states[u], steps[u]);
    OpeningIsSafeIff(p, states[u]);
    forall id | id in states[u].deletes
      ensures SpecBlocks(p, states[u].deletes[id].spec) <= states[u].bitmap.used <==> Foreseen(p, states, steps, t, u, id)
      ensures states[t].deletes == map[] ==> Foreseen(p, states, steps, t, u, id)
    {
      PendingIsMarkedIff(p, states, steps, t, u, id);
      if !DeletedSince(steps, t, u, id) {
        WasPending(p, states, steps, t, u, id, states[u].deletes[id]);
      }
    }
  }
}
