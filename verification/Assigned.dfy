/** What is written to a node: in every run the reserved CIDR and, in dual-stack, the prefix that
    the worker fetched for it, the primary family first. */
module Assigned {
  import opened Networks
  import opened Blocks
  import opened Protocol
  import opened Ownership
  import opened Accounting

  /** From an exact state: a patch that reaches the node gives it the reserved CIDR, in
      dual-stack together with an IPv6 prefix. */
  lemma PatchWritesFullList(p: Params, s: State, w: nat, outcome: PatchOutcome)
    requires ExactState(p, s) && Enabled(s, WorkerPatch(w, outcome)) && !outcome.Rejected?
    ensures s.workers[w].item.node in Next(p, s, WorkerPatch(w, outcome)).api
    ensures var item, written := s.workers[w].item, Next(p, s, WorkerPatch(w, outcome)).api[s.workers[w].item.node];
            && (!p.dualStack ==> multiset(written) == multiset{item.cidr})
            && (p.dualStack ==> exists prefix: Net :: prefix.family.V6? && multiset(written) == multiset{item.cidr, prefix})
            && written != [] && written[0].family == (if p.dualStack && p.primaryIPv6 then V6 else V4)
  {
    var item := s.workers[w].item;
    assert WorkerOk(p, s.api, s.workers[w]);
    if p.dualStack {
      var prefix: Net :| prefix.family.V6? && s.workers[w].cidrs == PodCIDRs(p, item.cidr, prefix);
      PodCIDRsMeans(p, item.cidr, prefix);
    } else {
      PodCIDRsMeans(p, item.cidr, item.cidr);
    }
  }

  // ---- over runs ----

  predicate IsDecision(step: Step, w: nat) {
    step.WorkerDecide? && step.w == w
  }

  /** While worker w patches, it is this item with this list. */
  ghost predicate PatchesOnly(s: State, w: nat, item: Item, cidrs: Spec) {
    w < |s.workers| && (s.workers[w].Patching? ==> s.workers[w].item == item && s.workers[w].cidrs == cidrs)
  }

  lemma KeepsItsList(p: Params, s: State, step: Step, w: nat, item: Item, cidrs: Spec)
    requires s.Valid(p) && Enabled(s, step) && PatchesOnly(s, w, item, cidrs) && !IsDecision(step, w)
    ensures PatchesOnly(Next(p, s, step), w, item, cidrs)
  {
    if IsWorkerStep(step) {
      WorkerKeepsItsList(p, s, step, w, item, cidrs);
    } else {
      OthersKeepWorkers(p, s, step);
    }
  }

  lemma WorkerKeepsItsList(p: Params, s: State, step: Step, w: nat, item: Item, cidrs: Spec)
    requires s.Valid(p) && Enabled(s, step) && IsWorkerStep(step)
    requires PatchesOnly(s, w, item, cidrs) && !IsDecision(step, w)
    ensures PatchesOnly(Next(p, s, step), w, item, cidrs)
  {
    OneSlotMoves(p, s, step);
    if step.w == w && step.WorkerPatch? {
      assert PatchesOnly(Patch(s, w, step.outcome), w, item, cidrs);
    }
  }

  lemma {:induction false} PatchesOnlyUpTo(p: Params, states: seq<State>, steps: seq<Step>, l: nat, k: nat, w: nat, item: Item, cidrs: Spec)
    requires IsRun(p, states, steps) && l <= k < |states| && PatchesOnly(states[l], w, item, cidrs)
    requires forall j :: l <= j < k ==> !IsDecision(steps[j], w)
    ensures PatchesOnly(states[k], w, item, cidrs)
    decreases k
  {
    if l < k {
      PatchesOnlyUpTo(p, states, steps, l, k - 1, w, item, cidrs);
      KeepsItsList(p, states[k - 1], steps[k - 1], w, item, cidrs);
    }
  }

  lemma DecisionFixesList(p: Params, s: State, w: nat, prefix: Option<Net>)
    requires s.Valid(p) && Enabled(s, WorkerDecide(w, prefix)) && s.workers[w].item.cidr.family.V4?
    ensures var item, x := s.workers[w].item, Next(p, s, WorkerDecide(w, prefix)).workers[w];
            x.Patching? ==>
              && x.item == item && s.workers[w].spec == [] && (p.dualStack ==> prefix.Some?)
              && x.cidrs == PodCIDRs(p, item.cidr, if prefix.Some? then prefix.value else item.cidr)
  {
  }

  /** Over every run: what reaches the node is the CIDR reserved for it and, in dual-stack, the
      prefix that was fetched for it after its last Get, the primary family first. */
  lemma FetchedPrefixIsWritten(p: Params, states: seq<State>, steps: seq<Step>, l: nat, k: nat, w: nat, prefix: Option<Net>)
    requires IsRun(p, states, steps) && l < k < |steps| && steps[l] == WorkerDecide(w, prefix)
    requires forall j :: l < j < k ==> !IsDecision(steps[j], w)
    requires steps[k].WorkerPatch? && steps[k].w == w && !steps[k].outcome.Rejected?
    requires states[l].workers[w].item.cidr.family.V4? && states[l + 1].workers[w].Patching?
    ensures var item := states[l].workers[w].item;
            && item.node in states[k + 1].api
            && var written := states[k + 1].api[item.node];
               && (!p.dualStack ==> multiset(written) == multiset{item.cidr})
               && (p.dualStack ==> prefix.Some? && multiset(written) == multiset{item.cidr, prefix.value})
               && written != [] && written[0].family == if p.dualStack && p.primaryIPv6 then V6 else V4
  {
    var item := states[l].workers[w].item;
    var cidrs := states[l + 1].workers[w].cidrs;
    assert Enabled(states[l], steps[l]) && states[l + 1] == Next(p, states[l], steps[l]);
    DecisionFixesList(p, states[l], w, prefix);
    PatchesOnlyUpTo(p, states, steps, l + 1, k, w, item, cidrs);
    PatchWrites(p, states, steps, k, w, item, cidrs);
    PodCIDRsMeans(p, item.cidr, if prefix.Some? then prefix.value else item.cidr);
  }

  lemma PatchWrites(p: Params, states: seq<State>, steps: seq<Step>, k: nat, w: nat, item: Item, cidrs: Spec)
    requires IsRun(p, states, steps) && k < |steps| && PatchesOnly(states[k], w, item, cidrs)
    requires steps[k].WorkerPatch? && steps[k].w == w && !steps[k].outcome.Rejected?
    ensures item.node in states[k + 1].api && states[k + 1].api[item.node] == cidrs
  {
    assert Enabled(states[k], steps[k]) && states[k + 1] == Next(p, states[k], steps[k]);
  }
}
