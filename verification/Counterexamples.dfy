/** Concrete runs, in ipv4 mode with a single block, that break the accounting, one for each
    condition of the theorems: a terminal patch failure, a patch of a node created anew, a
    deletion still pending at the opening, and a deletion that overtakes the reconcile loop. */
module Counterexamples {
  import opened Networks
  import opened Blocks
  import NextFit
  import opened Protocol
  import opened Ownership
  import opened Ledger
  import opened Accounting
  import opened Gate

  // ---- runs without a fault ----

  ghost predicate Faultless(p: Params, s: State, s': State) {
    exists states: seq<State>, steps: seq<Step> ::
      IsRun(p, states, steps) && states[0] == s && states[|steps|] == s' && NoFaultFrom(states, steps, 0)
  }

  lemma OneStep(p: Params, s: State, step: Step, s': State)
    requires s.Valid(p) && Enabled(s, step) && s' == Next(p, s, step) && !Fault(s, step)
    ensures Faultless(p, s, s')
  {
    assert IsRun(p, [s, s'], [step]) && NoFaultFrom([s, s'], [step], 0);
  }

  lemma OneStepMore(p: Params, s: State, m: State, step: Step, s': State)
    requires Faultless(p, s, m) && m.Valid(p) && Enabled(m, step) && s' == Next(p, m, step) && !Fault(m, step)
    ensures Faultless(p, s, s')
  {
    var states, steps :| IsRun(p, states, steps) && states[0] == s && states[|steps|] == m && NoFaultFrom(states, steps, 0);
    RunGrows(p, states, steps, step);
    NoFaultGrows(states, steps, s', step);
    var states', steps' := states + [s'], steps + [step];
    assert IsRun(p, states', steps') && states'[0] == s && states'[|steps'|] == s' && NoFaultFrom(states', steps', 0);
  }

  lemma NoFaultGrows(states: seq<State>, steps: seq<Step>, s: State, step: Step)
    requires |states| == |steps| + 1 && NoFaultFrom(states, steps, 0) && !Fault(states[|steps|], step)
    ensures NoFaultFrom(states + [s], steps + [step], 0)
  {
    var states', steps' := states + [s], steps + [step];
    forall k | 0 <= k < |steps'|
      ensures !Fault(states'[k], steps'[k])
    {
      assert states'[k] == states[k] && (k < |steps| ==> steps'[k] == steps[k]);
    }
  }

  lemma {:induction false} ManyStepsMore(p: Params, s: State, m: State, states: seq<State>, steps: seq<Step>, k: nat)
    requires Faultless(p, s, m) && IsRun(p, states, steps) && states[0] == m && NoFaultFrom(states, steps, 0)
    requires k < |states|
    ensures Faultless(p, s, states[k])
  {
    if k > 0 {
      ManyStepsMore(p, s, m, states, steps, k - 1);
      StepAt(p, states, steps, k - 1);
      OneStepMore(p, s, states[k - 1], steps[k - 1], states[k]);
    }
  }

  lemma StepAt(p: Params, states: seq<State>, steps: seq<Step>, k: nat)
    requires IsRun(p, states, steps) && NoFaultFrom(states, steps, 0) && k < |steps|
    ensures states[k].Valid(p) && Enabled(states[k], steps[k]) && states[k + 1] == Next(p, states[k], steps[k])
    ensures !Fault(states[k], steps[k])
  {
  }

  lemma AndThen(p: Params, s: State, m: State, s': State)
    requires Faultless(p, s, m) && Faultless(p, m, s')
    ensures Faultless(p, s, s')
  {
    var states, steps :| IsRun(p, states, steps) && states[0] == m && states[|steps|] == s' && NoFaultFrom(states, steps, 0);
    ManyStepsMore(p, s, m, states, steps, |steps|);
  }

  lemma FaultlessReaches(p: Params, s: State, m: State, s': State)
    requires Reaches(p, s, m) && Faultless(p, m, s')
    ensures Reaches(p, s, s')
  {
    assert Reaches(p, m, s');
    ReachesOn(p, s, m, s');
  }

  // ---- the only block ----

  predicate OneBlock(p: Params) {
    !p.dualStack && p.cfg.Max() == 1
  }

  const NONE_USED: NextFit.Bitmap := NextFit.Bitmap(1, {}, 0)
  const ALL_USED: NextFit.Bitmap := NextFit.Bitmap(1, {0}, 0)

  function TheBlock(p: Params): (cidr: Net)
    requires OneBlock(p)
  {
    BlockIsValid(p.cfg, 0);
    p.cfg.Block(0)
  }

  function TheSpec(p: Params): Spec
    requires OneBlock(p)
  {
    V4EntriesOfFew(TheBlock(p), TheBlock(p));
    [TheBlock(p)]
  }

  function TheItem(p: Params, node: Name): Item
    requires OneBlock(p)
  {
    Item(node, TheBlock(p))
  }

  function Attempt(p: Params, node: Name, attempts: nat, applied: bool): Worker
    requires OneBlock(p)
  {
    Patching(TheItem(p, node), TheSpec(p), attempts, applied)
  }

  lemma TheSpecHoldsTheBlock(p: Params)
    requires OneBlock(p)
    ensures !OutOfRange(p, TheSpec(p)) && SpecBlocks(p, TheSpec(p)) == p.cfg.BlocksOf(TheBlock(p)) == {0}
  {
    BlocksOfBlock(p.cfg, 0);
    V4EntriesOfFew(TheBlock(p), TheBlock(p));
  }

  lemma FirstBlock()
    ensures NONE_USED.Allocate() == (ALL_USED, Some(0))
  {
    assert NONE_USED.IsFree(0);
    assert NONE_USED.NextFree() == 0;
    assert {} + {0} == {0};
  }

  lemma BothHold(p: Params, s: State, a: Name, b: Name)
    requires OneBlock(p) && a != b && a in s.api && b in s.api && s.api[a] == s.api[b] == [TheBlock(p)]
    ensures !Disjoint(p, BookOf(s))
  {
    TheSpecHoldsTheBlock(p);
    assert 0 in Held(p, BookOf(s), OwnNode(a)) && 0 in Held(p, BookOf(s), OwnNode(b));
    assert OwnNode(a) != OwnNode(b);
  }

  // ---- a node is served ----

  /** A handler reserves the free block for a node. */
  lemma Reserves(p: Params, m: State, node: Name) returns (s: State)
    requires OneBlock(p) && m.gate.Open? && m.bitmap == NONE_USED && m.queue == [] && node !in m.marks
    ensures Faultless(p, m, s)
    ensures s == m.(bitmap := ALL_USED, marks := m.marks + {node}, queue := [TheItem(p, node)], handlers := m.handlers + [Idle])
  {
    var h := |m.handlers|;
    var m1 := m.(marks := m.marks + {node}, handlers := m.handlers + [Waiting(node)]);
    var m2 := m1.(bitmap := ALL_USED, handlers := m.handlers + [Enqueuing(TheItem(p, node))]);
    OneStep(p, m, HandlerStart(node, []), m1);
    FirstBlock();
    assert m1.handlers[h := Enqueuing(TheItem(p, node))] == m2.handlers;
    OneStep(p, m1, HandlerAllocate(h), m2);
    AndThen(p, m, m1, m2);
    s := Sent(p, m2, node, h);
    assert m2.handlers[h := Idle] == m.handlers + [Idle];
    AndThen(p, m, m2, s);
  }

  lemma Sent(p: Params, m: State, node: Name, h: nat) returns (s: State)
    requires OneBlock(p) && m.Valid(p) && m.queue == [] && h < |m.handlers| && m.handlers[h] == Enqueuing(TheItem(p, node))
    ensures Faultless(p, m, s) && s == m.(queue := [TheItem(p, node)], handlers := m.handlers[h := Idle])
  {
    s := m.(queue := [TheItem(p, node)], handlers := m.handlers[h := Idle]);
    assert m.queue + [TheItem(p, node)] == [TheItem(p, node)];
    OneStep(p, m, HandlerEnqueue(h), s);
  }

  /** A free worker takes the only item, reads a node without CIDRs, and comes to its first patch. */
  lemma ComesToPatch(p: Params, m: State, node: Name, w: nat) returns (s: State)
    requires OneBlock(p) && m.Valid(p) && m.gate.Open? && m.queue == [TheItem(p, node)]
    requires w < |m.workers| && m.workers[w].Free? && node in m.api && m.api[node] == []
    ensures Faultless(p, m, s) && s == m.(queue := [], workers := m.workers[w := Attempt(p, node, 3, false)])
  {
    var m1 := m.(queue := [], workers := m.workers[w := Took(TheItem(p, node))]);
    var m2 := m1.(workers := m.workers[w := Got(TheItem(p, node), [])]);
    s := m1.(workers := m.workers[w := Attempt(p, node, 3, false)]);
    assert m.queue[1..] == [];
    OneStep(p, m, WorkerTake(w), m1);
    assert m1.workers[w := Got(TheItem(p, node), [])] == m2.workers;
    OneStep(p, m1, WorkerGet(w), m2);
    AndThen(p, m, m1, m2);
    Decided(p, m2, s, node, w);
    AndThen(p, m, m2, s);
  }

  lemma Decided(p: Params, m: State, s: State, node: Name, w: nat)
    requires OneBlock(p) && m.Valid(p) && w < |m.workers| && m.workers[w] == Got(TheItem(p, node), [])
    requires |s.workers| == |m.workers| && s == m.(workers := s.workers) && s.workers == m.workers[w := Attempt(p, node, 3, false)]
    ensures Faultless(p, m, s)
  {
    OneStep(p, m, WorkerDecide(w, None), s);
  }

  /** From the reservation to the first patch. */
  lemma Serves(p: Params, m: State, node: Name, w: nat) returns (s: State)
    requires OneBlock(p) && m.gate.Open? && m.bitmap == NONE_USED && m.queue == [] && node !in m.marks
    requires w < |m.workers| && m.workers[w].Free? && node in m.api && m.api[node] == []
    ensures Faultless(p, m, s)
    ensures s == m.(bitmap := ALL_USED, marks := m.marks + {node}, handlers := m.handlers + [Idle],
                    workers := m.workers[w := Attempt(p, node, 3, false)])
  {
    var m1 := Reserves(p, m, node);
    s := ComesToPatch(p, m1, node, w);
    AndThen(p, m, m1, s);
  }

  lemma Acknowledged(p: Params, m: State, node: Name, w: nat) returns (s: State)
    requires OneBlock(p) && m.Valid(p) && w < |m.workers| && m.workers[w] == Attempt(p, node, 3, false) && node in m.api
    ensures Faultless(p, m, s)
    ensures s == m.(api := m.api[node := TheSpec(p)], workers := m.workers[w := Finishing(node)])
  {
    s := m.(api := m.api[node := TheSpec(p)], workers := m.workers[w := Finishing(node)]);
    OneStep(p, m, WorkerPatch(w, Acked), s);
  }

  /** From the reservation to the acknowledged patch. */
  lemma Assigns(p: Params, m: State, node: Name, w: nat) returns (s: State)
    requires OneBlock(p) && m.gate.Open? && m.bitmap == NONE_USED && m.queue == [] && node !in m.marks
    requires w < |m.workers| && m.workers[w].Free? && node in m.api && m.api[node] == []
    ensures Faultless(p, m, s)
    ensures s == m.(api := m.api[node := TheSpec(p)], bitmap := ALL_USED, marks := m.marks + {node},
                    handlers := m.handlers + [Idle], workers := m.workers[w := Finishing(node)])
  {
    var m1 := Serves(p, m, node, w);
    s := Acknowledged(p, m1, node, w);
    AndThen(p, m, m1, s);
    assert m1.workers[w := Finishing(node)] == m.workers[w := Finishing(node)];
  }

  // ---- from exact books ----

  /** Two nodes without CIDRs, an empty bitmap and idle threads. */
  function Begin(): State {
    State(map["a" := [], "b" := []], map[], NONE_USED, {}, [], [], [Free, Free], Open)
  }

  lemma BeginIsExact(p: Params)
    requires OneBlock(p)
    ensures Begin().Valid(p) && ExactState(p, Begin())
  {
    var s := Begin();
    assert [Free, Free][1..] == [Free] && [Free][1..] == [];
    assert Owned(s) == multiset{} && Items(s) == multiset{};
    assert forall o :: Held(p, BookOf(s), o) == {};
  }

  /** Node "a" is about to be patched with the block for the first time. */
  function FirstPatch(p: Params): State
    requires OneBlock(p)
  {
    Begin().(bitmap := ALL_USED, marks := {"a"}, handlers := [Idle], workers := [Attempt(p, "a", 3, false), Free])
  }

  lemma ReachesFirstPatch(p: Params)
    requires OneBlock(p)
    ensures Faultless(p, Begin(), FirstPatch(p))
  {
    var s := Serves(p, Begin(), "a", 0);
    assert {} + {"a"} == {"a"} && [] + [Idle] == [Idle];
    assert [Free, Free][0 := Attempt(p, "a", 3, false)] == [Attempt(p, "a", 3, false), Free];
  }

  /** Node "b" has the block while worker 0 still has some business with node "a". */
  function SecondServed(p: Params, held: Worker): State
    requires OneBlock(p)
  {
    Begin().(api := map["a" := [], "b" := TheSpec(p)], bitmap := ALL_USED, marks := {"a", "b"},
             handlers := [Idle, Idle], workers := [held, Finishing("b")])
  }

  lemma SecondIsServed(p: Params, held: Worker)
    requires OneBlock(p)
    ensures Faultless(p, FirstPatch(p).(bitmap := NONE_USED, workers := [held, Free]), SecondServed(p, held))
  {
    var m := FirstPatch(p).(bitmap := NONE_USED, workers := [held, Free]);
    var s := Assigns(p, m, "b", 1);
    assert {"a"} + {"b"} == {"a", "b"} && [Idle] + [Idle] == [Idle, Idle];
    assert m.api["b" := TheSpec(p)] == map["a" := [], "b" := TheSpec(p)];
    assert [held, Free][1 := Finishing("b")] == [held, Finishing("b")];
  }

  // ---- giving up ----

  /** Worker 0 has so many attempts left to patch node "a". */
  function Trying(p: Params, attempts: nat): State
    requires OneBlock(p)
  {
    FirstPatch(p).(workers := [Attempt(p, "a", attempts, false), Free])
  }

  lemma IsRejected(p: Params, attempts: nat)
    requires OneBlock(p) && attempts > 0
    ensures Faultless(p, Trying(p, attempts), Trying(p, attempts - 1))
  {
    var m, m' := Trying(p, attempts), Trying(p, attempts - 1);
    assert m.workers[0 := m'.workers[0]] == m'.workers;
    OneStep(p, m, WorkerPatch(0, Rejected), m');
  }

  lemma {:induction false} AllAreRejected(p: Params, attempts: nat)
    requires OneBlock(p) && attempts > 0
    ensures Faultless(p, Trying(p, attempts), Trying(p, 0))
  {
    IsRejected(p, attempts);
    if attempts > 1 {
      AllAreRejected(p, attempts - 1);
      AndThen(p, Trying(p, attempts), Trying(p, attempts - 1), Trying(p, 0));
    }
  }

  /** Worker 0 has given up, and goes on holding the item while the block is free. */
  function GivenUp(p: Params): State
    requires OneBlock(p)
  {
    FirstPatch(p).(bitmap := NONE_USED, workers := [Requeuing(TheItem(p, "a")), Free])
  }

  lemma FreesTheBlock(p: Params, s: State)
    requires OneBlock(p) && Reaches(p, s, Trying(p, 0))
    ensures Reaches(p, s, GivenUp(p))
  {
    var m := Trying(p, 0);
    BlocksOfBlock(p.cfg, 0);
    assert m.workers[0 := Requeuing(TheItem(p, "a"))] == GivenUp(p).workers;
    assert m.bitmap.used - {0} == {};
    Then(p, s, m, WorkerGiveUp(0), GivenUp(p));
  }

  lemma GivesUp(p: Params, s: State)
    requires OneBlock(p) && Reaches(p, s, FirstPatch(p))
    ensures Reaches(p, s, GivenUp(p))
  {
    AllAreRejected(p, 3);
    assert Trying(p, 3) == FirstPatch(p);
    FaultlessReaches(p, s, FirstPatch(p), Trying(p, 0));
    FreesTheBlock(p, s);
  }

  /** The requeued item of node "a" is processed again. */
  lemma FirstIsServed(p: Params, m: State) returns (s: State)
    requires OneBlock(p) && m == SecondServed(p, Requeuing(TheItem(p, "a")))
    ensures Faultless(p, m, s) && s.api == map["a" := TheSpec(p), "b" := TheSpec(p)]
  {
    var m1 := m.(queue := [TheItem(p, "a")], workers := [Free, Finishing("b")]);
    assert m.workers[0 := Free] == m1.workers && m.queue + [TheItem(p, "a")] == m1.queue;
    OneStep(p, m, WorkerRequeue(0), m1);
    var m2 := ComesToPatch(p, m1, "a", 0);
    AndThen(p, m, m1, m2);
    s := Acknowledged(p, m2, "a", 0);
    AndThen(p, m, m2, s);
  }

  /** After a terminal patch failure two nodes can end up with the same block. */
  lemma TwoNodesShareABlock(p: Params) returns (s: State)
    requires OneBlock(p)
    ensures ExactState(p, Begin()) && Reaches(p, Begin(), s)
    ensures "a" in s.api && "b" in s.api && s.api["a"] == s.api["b"] == [TheBlock(p)]
    ensures !Disjoint(p, BookOf(s))
  {
    var held := Requeuing(TheItem(p, "a"));
    BeginIsExact(p);
    ReachesFirstPatch(p);
    GivesUp(p, Begin());
    SecondIsServed(p, held);
    FaultlessReaches(p, Begin(), GivenUp(p), SecondServed(p, held));
    s := FirstIsServed(p, SecondServed(p, held));
    FaultlessReaches(p, Begin(), SecondServed(p, held), s);
    BothHold(p, s, "a", "b");
  }

  // ---- patching a node created anew ----

  /** Node "a" has been patched unseen, deleted, its deletion handled, and created anew. */
  lemma IsCreatedAnew(p: Params)
    requires OneBlock(p)
    ensures Faultless(p, FirstPatch(p), FirstPatch(p).(bitmap := NONE_USED, workers := [Attempt(p, "a", 2, true), Free]))
  {
    var m := FirstPatch(p);
    var m1 := m.(api := map["a" := TheSpec(p), "b" := []], workers := [Attempt(p, "a", 2, true), Free]);
    var m2 := m1.(api := map["b" := []], deletes := map[0 := NodeSpec("a", TheSpec(p))]);
    assert m.api["a" := TheSpec(p)] == m1.api && m.workers[0 := Attempt(p, "a", 2, true)] == m1.workers;
    OneStep(p, m, WorkerPatch(0, LostAck), m1);
    assert m1.api - {"a"} == m2.api && m1.deletes[0 := NodeSpec("a", TheSpec(p))] == m2.deletes;
    OneStep(p, m1, ApiDelete("a", 0), m2);
    AndThen(p, m, m1, m2);
    IsForgotten(p, m2);
    AndThen(p, m, m2, m1.(api := m.api, bitmap := NONE_USED));
  }

  lemma IsForgotten(p: Params, m: State)
    requires OneBlock(p) && m.Valid(p) && m.bitmap == ALL_USED && m.handlers == [Idle]
    requires m.api == map["b" := []] && m.deletes == map[0 := NodeSpec("a", TheSpec(p))]
    ensures Faultless(p, m, m.(api := map["a" := [], "b" := []], bitmap := NONE_USED, deletes := map[]))
  {
    var m1 := m.(bitmap := NONE_USED, deletes := map[]);
    TheSpecHoldsTheBlock(p);
    assert m.deletes - {0} == map[] && m.bitmap.used - {0} == {};
    OneStep(p, m, DeleteHandler(0), m1);
    assert m1.api["a" := []] == map["a" := [], "b" := []];
    OneStep(p, m1, ApiCreate("a"), m1.(api := map["a" := [], "b" := []]));
    AndThen(p, m, m1, m1.(api := map["a" := [], "b" := []]));
  }

  /** A run without any fault comes to the second fault, which gives two nodes the same block:
      no worker gives up, and the last step alone breaks the books. */
  lemma PatchedAnewSharesABlock(p: Params) returns (m: State, s: State)
    requires OneBlock(p)
    ensures ExactState(p, Begin()) && Faultless(p, Begin(), m) && ExactState(p, m)
    ensures Enabled(m, WorkerPatch(0, Acked)) && Fault(m, WorkerPatch(0, Acked))
    ensures m.Valid(p) && s == Next(p, m, WorkerPatch(0, Acked))
    ensures "a" in s.api && "b" in s.api && s.api["a"] == s.api["b"] == [TheBlock(p)]
    ensures !Disjoint(p, BookOf(s))
  {
    var m1 := FirstPatch(p).(bitmap := NONE_USED, workers := [Attempt(p, "a", 2, true), Free]);
    m := SecondServed(p, Attempt(p, "a", 2, true));
    BeginIsExact(p);
    ReachesFirstPatch(p);
    IsCreatedAnew(p);
    AndThen(p, Begin(), FirstPatch(p), m1);
    SecondIsServed(p, Attempt(p, "a", 2, true));
    AndThen(p, Begin(), m1, m);
    FaultlessIsExact(p, Begin(), m);
    s := Next(p, m, WorkerPatch(0, Acked));
    BothHold(p, s, "a", "b");
  }

  lemma FaultlessIsExact(p: Params, s: State, s': State)
    requires ExactState(p, s) && Faultless(p, s, s')
    ensures ExactState(p, s')
  {
    var states, steps :| IsRun(p, states, steps) && states[0] == s && states[|steps|] == s' && NoFaultFrom(states, steps, 0);
    ExactUpTo(p, states, steps, |steps|);
  }

  // ---- a deletion that comes late ----

  /** The controller has just been started; the deletion of "a", which held the block, has not
      been handled, and two nodes have no CIDRs. */
  function StartedLate(p: Params): State
    requires OneBlock(p)
  {
    State(map["b" := [], "c" := []], map[0 := NodeSpec("a", TheSpec(p))], NONE_USED, {}, [], [], [Free, Free], Unlisted)
  }

  lemma StartedLateIsStarted(p: Params)
    requires OneBlock(p)
    ensures StartedLate(p).Valid(p) && Started(p, StartedLate(p))
  {
    var s := StartedLate(p);
    NoWorkerItems(s.workers);
    assert BookOf(s).items == multiset{};
    assert forall o :: o != OwnDelete(0) ==> Held(p, BookOf(s), o) == {};
  }

  /** A node without CIDRs is reconciled. */
  lemma PassesOver(p: Params, m: State)
    requires OneBlock(p) && m.Valid(p) && m.gate.Listed? && m.gate.todo != [] && m.gate.todo[0].spec == []
    requires m.bitmap == NONE_USED
    ensures Faultless(p, m, m.(gate := Listed(m.gate.todo[1..])))
  {
    NothingHeld(p);
    assert m.bitmap.Occupy({}).used == {};
    OneStep(p, m, ReconcileNode, m.(gate := Listed(m.gate.todo[1..])));
  }

  lemma OpensLate(p: Params)
    requires OneBlock(p)
    ensures Faultless(p, StartedLate(p), StartedLate(p).(gate := Open))
  {
    var s, list := StartedLate(p), [NodeSpec("b", []), NodeSpec("c", [])];
    assert list[0] == NodeSpec("b", []) && list[1] == NodeSpec("c", []);
    var m := s.(gate := Listed(list));
    OneStep(p, s, ReconcileList(list), m);
    PassesOver(p, m);
    var m1 := m.(gate := Listed([NodeSpec("c", [])]));
    assert list[1..] == [NodeSpec("c", [])] && m1.gate.todo[1..] == [];
    AndThen(p, s, m, m1);
    PassesOver(p, m1);
    var m2 := m.(gate := Listed([]));
    AndThen(p, s, m1, m2);
    OneStep(p, m2, OpenGate, s.(gate := Open));
    AndThen(p, s, m2, s.(gate := Open));
  }

  lemma LateDeletionIsUncovered(p: Params, s: State)
    requires OneBlock(p) && s == StartedLate(p).(gate := Open)
    ensures !SafeState(p, s)
  {
    TheSpecHoldsTheBlock(p);
    assert 0 in Held(p, BookOf(s), OwnDelete(0)) && 0 !in s.bitmap.used;
  }

  /** A deletion that is pending at the List call and is handled after the opening: the gate
      opens on an unsafe state, "b" is given the block, the late deletion frees it, and "c" is
      given the same block. No step is a fault. */
  lemma LateDeletionSharesABlock(p: Params) returns (m: State, s: State)
    requires OneBlock(p)
    ensures Started(p, StartedLate(p)) && Faultless(p, StartedLate(p), m) && m.gate.Open? && !SafeState(p, m)
    ensures Faultless(p, m, s)
    ensures "b" in s.api && "c" in s.api && s.api["b"] == s.api["c"] == [TheBlock(p)]
    ensures !Disjoint(p, BookOf(s))
  {
    StartedLateIsStarted(p);
    OpensLate(p);
    m := StartedLate(p).(gate := Open);
    LateDeletionIsUncovered(p, m);
    var m1 := Assigns(p, m, "b", 0);
    var m2 := HandledLate(p, m1);
    AndThen(p, m, m1, m2);
    s := Assigns(p, m2, "c", 1);
    AndThen(p, m, m2, s);
    BothHold(p, s, "b", "c");
  }

  lemma HandledLate(p: Params, m: State) returns (s: State)
    requires OneBlock(p) && m.Valid(p) && m.bitmap == ALL_USED && m.handlers == [Idle]
    requires m.deletes == map[0 := NodeSpec("a", TheSpec(p))]
    ensures Faultless(p, m, s) && s == m.(bitmap := NONE_USED, deletes := map[])
  {
    s := m.(bitmap := NONE_USED, deletes := map[]);
    TheSpecHoldsTheBlock(p);
    assert m.deletes - {0} == map[] && m.bitmap.used - {0} == {};
    OneStep(p, m, DeleteHandler(0), s);
  }

  // ---- a deletion that overtakes the reconcile loop ----

  /** The controller has just been started; "a" holds the only block. */
  function Restarted(p: Params): State
    requires OneBlock(p)
  {
    State(map["a" := TheSpec(p)], map[], NONE_USED, {}, [], [], [], Unlisted)
  }

  lemma RestartedIsStarted(p: Params)
    requires OneBlock(p)
    ensures Restarted(p).Valid(p) && Started(p, Restarted(p))
  {
    var b := BookOf(Restarted(p));
    assert b.items == multiset{};
    assert forall o :: o != OwnNode("a") ==> Held(p, b, o) == {};
  }

  /** "a" is deleted, and its delete event handled, after the nodes were listed and before the
      reconcile loop comes to it. */
  lemma DeletedAfterListing(p: Params)
    requires OneBlock(p)
    ensures Faultless(p, Restarted(p), Restarted(p).(api := map[], gate := Listed([NodeSpec("a", TheSpec(p))])))
  {
    var s, e := Restarted(p), NodeSpec("a", TheSpec(p));
    var m1 := s.(gate := Listed([e]));
    var m2 := m1.(api := map[], deletes := map[0 := e]);
    var m3 := m1.(api := map[]);
    TheSpecHoldsTheBlock(p);
    OneStep(p, s, ReconcileList([e]), m1);
    assert m1.api - {"a"} == map[] && m1.deletes[0 := e] == m2.deletes;
    OneStep(p, m1, ApiDelete("a", 0), m2);
    AndThen(p, s, m1, m2);
    assert m2.deletes - {0} == map[] && m2.bitmap.used - {0} == {};
    OneStep(p, m2, DeleteHandler(0), m3);
    AndThen(p, s, m2, m3);
  }

  /** A deletion that overtakes the reconcile loop leaves the gate open with every block marked
      used, no node, and no deletion left to handle. */
  lemma BlockLeaksAtRestart(p: Params) returns (s: State)
    requires OneBlock(p)
    ensures Started(p, Restarted(p)) && Faultless(p, Restarted(p), s)
    ensures s.gate.Open? && s.bitmap.Full() && s.api == map[] && s.deletes == map[] && Items(s) == multiset{}
  {
    RestartedIsStarted(p);
    DeletedAfterListing(p);
    TheSpecHoldsTheBlock(p);
    var m := Restarted(p).(api := map[], gate := Listed([NodeSpec("a", TheSpec(p))]));
    s := MarksAndOpens(p, m);
    AndThen(p, Restarted(p), m, s);
  }

  lemma MarksAndOpens(p: Params, m: State) returns (s: State)
    requires OneBlock(p) && m.bitmap == NONE_USED && m.gate == Listed([NodeSpec("a", TheSpec(p))])
    ensures Faultless(p, m, s) && s == m.(bitmap := ALL_USED, gate := Open)
  {
    var m1 := m.(bitmap := ALL_USED, gate := Listed([]));
    TheSpecHoldsTheBlock(p);
    assert m.gate.todo[1..] == [] && m.bitmap.Occupy({0}).used == {0};
    OneStep(p, m, ReconcileNode, m1);
    s := m1.(gate := Open);
    OneStep(p, m1, OpenGate, s);
    AndThen(p, m, m1, s);
  }
}
