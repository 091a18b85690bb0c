/** The node assignment protocol as a state machine. Informer handlers, the reconcile loop, the
    workers and the API server interleave freely; each step is one atomic action of one of them.
    There is one IPv4 cluster CIDR; the mode is ipv4 or dual-stack. */
module Protocol {
  import opened Networks
  import opened Blocks
  import opened NextFit

  const CIDR_UPDATE_RETRIES: nat := 3
  const CIDR_UPDATE_QUEUE_SIZE: nat := 5000

  type Name = string

  /** A parsed CIDR. */
  type Net = n: IPNet | n.Valid() witness IPNet(V4, 0, 0)

  /** `node.Spec.PodCIDRs`: the API server admits at most one CIDR per family. */
  type Spec = s: seq<Net> | |V4Entries(s)| <= 1

  datatype Settings = Settings(cfg: Config, dualStack: bool, primaryIPv6: bool) {
    predicate Valid() {
      cfg.Valid() && cfg.cluster.family.V4? && cfg.Lookupable()
    }
  }

  type Params = p: Settings | p.Valid() witness Settings(Config(IPNet(V4, 0, 0), 0), false, false)

  /** NodeReservedCIDRs. */
  datatype Item = Item(node: Name, cidr: Net)

  // ---- what the controller does with a list of pod CIDRs ----

  /** The IPv4 entries: the occupy and release loops skip the others. */
  function V4Entries(s: seq<Net>): seq<Net> {
    if s == [] then []
    else (if s[0].family.V4? then [s[0]] else []) + V4Entries(s[1..])
  }

  /** The blocks that occupying or releasing the CIDRs of a node concerns. */
  ghost function SpecBlocks(p: Params, s: seq<Net>): set<nat> {
    var v4 := V4Entries(s);
    if v4 != [] && p.cfg.Accepts(v4[0]) then p.cfg.BlocksOf(v4[0]) else {}
  }

  /** occupyCIDRsWithoutRemoval returns an error: an IPv4 CIDR outside the cluster range. */
  ghost predicate OutOfRange(p: Params, s: seq<Net>) {
    var v4 := V4Entries(s);
    v4 != [] && !p.cfg.Accepts(v4[0])
  }

  /** The list a node is patched with, in the order of the primary family. */
  function PodCIDRs(p: Params, cidr: Net, prefix: Net): Spec
    requires p.dualStack ==> prefix.family.V6?
  {
    V4EntriesOfFew(cidr, prefix);
    if !p.dualStack then [cidr] else if p.primaryIPv6 then [prefix, cidr] else [cidr, prefix]
  }

  lemma V4EntriesOfFew(a: Net, b: Net)
    ensures V4Entries([a]) == if a.family.V4? then [a] else []
    ensures V4Entries([a, b]) == V4Entries([a]) + V4Entries([b])
  {
    assert [a][1..] == [] && [a, b][1..] == [b];
  }

  /** What a node is patched with: the reserved CIDR alone in mode ipv4; in dual-stack the
      fetched prefix too, and the primary family first. */
  lemma PodCIDRsMeans(p: Params, cidr: Net, prefix: Net)
    requires cidr.family.V4? && (p.dualStack ==> prefix.family.V6?)
    ensures !p.dualStack ==> multiset(PodCIDRs(p, cidr, prefix)) == multiset{cidr}
    ensures p.dualStack ==> multiset(PodCIDRs(p, cidr, prefix)) == multiset{cidr, prefix}
    ensures PodCIDRs(p, cidr, prefix) != []
    ensures PodCIDRs(p, cidr, prefix)[0].family == if p.dualStack && p.primaryIPv6 then V6 else V4
  {
  }

  // ---- the lists by their entries ----

  /** Entry k is the first IPv4 CIDR of the list. */
  predicate FirstIPv4(s: seq<Net>, k: nat) {
    k < |s| && s[k].family.V4? && forall j :: 0 <= j < k ==> s[j].family.V6?
  }

  lemma {:induction false} V4EntriesHead(s: seq<Net>)
    ensures forall k: nat :: FirstIPv4(s, k) ==> V4Entries(s) != [] && V4Entries(s)[0] == s[k]
    ensures V4Entries(s) != [] ==> exists k: nat :: FirstIPv4(s, k)
  {
    if s != [] {
      V4EntriesHead(s[1..]);
      if s[0].family.V4? {
        assert FirstIPv4(s, 0);
      } else {
        HeadMovesOn(s);
      }
    }
  }

  lemma HeadMovesOn(s: seq<Net>)
    requires s != [] && s[0].family.V6?
    ensures forall k: nat :: FirstIPv4(s, k) ==> k > 0 && FirstIPv4(s[1..], k - 1)
    ensures forall k: nat :: FirstIPv4(s[1..], k) ==> FirstIPv4(s, k + 1)
  {
    forall k: nat | FirstIPv4(s[1..], k)
      ensures FirstIPv4(s, k + 1)
    {
      assert forall j :: 0 < j < k + 1 ==> s[j] == s[1..][j - 1];
    }
  }

  lemma {:induction false} V4EntriesMember(s: seq<Net>, x: Net)
    ensures x in V4Entries(s) <==> x in s && x.family.V4?
  {
    if s != [] {
      V4EntriesMember(s[1..], x);
      assert x in s <==> x == s[0] || x in s[1..];
    }
  }

  lemma {:induction false} V4EntriesCount(s: seq<Net>)
    ensures |V4Entries(s)| > 1 <==> exists j, k :: 0 <= j < k < |s| && s[j].family.V4? && s[k].family.V4?
    ensures |V4Entries(s)| > 0 <==> exists k :: 0 <= k < |s| && s[k].family.V4?
  {
    if s != [] {
      var t := s[1..];
      V4EntriesCount(t);
      assert forall k :: 0 <= k < |t| ==> t[k] == s[k + 1];
      assert forall k :: 0 < k < |s| ==> s[k] == t[k - 1];
    }
  }

  /** Occupying or releasing a list concerns the blocks that share an address with its first
      IPv4 CIDR; for the list of a node that is any IPv4 CIDR it has. */
  lemma SpecBlocksMeans(p: Params, s: seq<Net>, i: nat)
    ensures i in SpecBlocks(p, s) <==>
              i < p.cfg.Max() && exists k: nat, address: nat :: FirstIPv4(s, k) && p.cfg.Block(i).Has(address) && s[k].Has(address)
  {
    V4EntriesHead(s);
    if V4Entries(s) != [] {
      var k: nat :| FirstIPv4(s, k);
      BlocksOfMeans(p.cfg, s[k], i);
      BlocksOfEmpty(p.cfg, s[k]);
      NotLookupableIff(p.cfg);
    }
  }

  /** The list is refused when its first IPv4 CIDR shares no address with the cluster. */
  lemma OutOfRangeMeans(p: Params, s: seq<Net>)
    ensures OutOfRange(p, s) <==>
              exists k: nat :: FirstIPv4(s, k) && !exists address: nat :: p.cfg.cluster.Has(address) && s[k].Has(address)
  {
    V4EntriesHead(s);
    if V4Entries(s) != [] {
      var k: nat :| FirstIPv4(s, k);
      AcceptsMeans(p.cfg, s[k]);
      NotLookupableIff(p.cfg);
    }
  }

  lemma NodeSpecMeans(p: Params, s: Spec, i: nat)
    ensures i in SpecBlocks(p, s) <==>
              i < p.cfg.Max() && exists x, address: nat :: x in s && x.family.V4? && p.cfg.Block(i).Has(address) && x.Has(address)
    ensures OutOfRange(p, s) <==>
              exists x :: x in s && x.family.V4? && !exists address: nat :: p.cfg.cluster.Has(address) && x.Has(address)
  {
    SpecBlocksMeans(p, s, i);
    OutOfRangeMeans(p, s);
    V4EntriesHead(s);
    forall x | x in s && x.family.V4?
      ensures exists k: nat :: FirstIPv4(s, k) && s[k] == x
    {
      V4EntriesMember(s, x);
    }
  }

  datatype Decision = AlreadyAssigned | ReleaseReserved | NoPrefix | Assign(cidrs: Spec)

  /** What updateCIDRsAllocation does once it has read the node: the reserved list has one
      entry, so only a one-element list can match it. */
  function Decide(p: Params, item: Item, spec: seq<Net>, prefix: Option<Net>): Decision
    requires prefix.Some? ==> prefix.value.family.V6?
  {
    if |spec| == 1 && spec[0] == item.cidr then AlreadyAssigned
    else if spec != [] then ReleaseReserved
    else if !p.dualStack then Assign(PodCIDRs(p, item.cidr, item.cidr))
    else if prefix.None? then NoPrefix
    else Assign(PodCIDRs(p, item.cidr, prefix.value))
  }

  // ---- states ----

  /** A running AllocateOrOccupyCIDR call, by what it does next. Idle slots have returned. */
  datatype Handler =
    | Idle
    | Occupying(node: Name, spec: Spec)
    | Waiting(node: Name)
    | Enqueuing(item: Item)
    | Unmarking(node: Name)

  /** A worker, by what it does next. `applied` says that an attempt reached the API server
      although the worker saw an error. */
  datatype Worker =
    | Free
    | Took(item: Item)
    | Got(item: Item, spec: Spec)
    | Patching(item: Item, cidrs: Spec, attempts: nat, applied: bool)
    | Requeuing(item: Item)
    | Finishing(node: Name)

  datatype NodeSpec = NodeSpec(node: Name, spec: Spec)

  datatype Gate = Unlisted | Listed(todo: seq<NodeSpec>) | Open | Aborted

  datatype State = State(
    api: map<Name, Spec>,
    deletes: map<nat, NodeSpec>,  // delete events not yet handled, with the last spec of the node
    bitmap: Bitmap,
    marks: set<Name>,             // nodesInProcessing
    queue: seq<Item>,             // nodeCIDRUpdateChannel
    handlers: seq<Handler>,
    workers: seq<Worker>,
    gate: Gate)
  {
    predicate Valid(p: Params) {
      bitmap.Valid() && bitmap.size == p.cfg.Max()
    }
  }

  // ---- steps ----

  datatype PatchOutcome = Acked | LostAck | Rejected

  datatype Step =
    | HandlerStart(node: Name, spec: Spec)
    | HandlerOccupy(h: nat)
    | HandlerAllocate(h: nat)
    | HandlerCancel(h: nat)
    | HandlerEnqueue(h: nat)
    | HandlerUnmark(h: nat)
    | DeleteHandler(id: nat)
    | ReconcileList(list: seq<NodeSpec>)
    | ReconcileError
    | ReconcileNode
    | OpenGate
    | WorkerTake(w: nat)
    | WorkerGet(w: nat)
    | WorkerGetError(w: nat)
    | WorkerDecide(w: nat, prefix: Option<Net>)
    | WorkerPatch(w: nat, outcome: PatchOutcome)
    | WorkerGiveUp(w: nat)
    | WorkerRequeue(w: nat)
    | WorkerUnmark(w: nat)
    | ApiCreate(node: Name)
    | ApiDelete(node: Name, id: nat)

  /** The node carries these CIDRs, or its deletion with them has not been handled yet. */
  ghost predicate Live(s: State, node: Name, spec: Spec) {
    || (node in s.api && s.api[node] == spec)
    || exists id :: id in s.deletes && s.deletes[id] == NodeSpec(node, spec)
  }

  /** A list of all nodes in any order. */
  predicate IsListing(api: map<Name, Spec>, list: seq<NodeSpec>) {
    && (forall k :: 0 <= k < |list| ==> list[k].node in api && api[list[k].node] == list[k].spec)
    && (forall node :: node in api ==> NodeSpec(node, api[node]) in list)
  }

  ghost predicate Enabled(s: State, step: Step) {
    match step
    // an Add event carries the CIDRs of a node not yet seen deleted; stale events without
    // CIDRs may come at any time
    case HandlerStart(node, spec) => spec == [] || Live(s, node, spec)
    case HandlerOccupy(h) => h < |s.handlers| && s.handlers[h].Occupying?
    case HandlerAllocate(h) => h < |s.handlers| && s.handlers[h].Waiting? && s.gate.Open?
    case HandlerCancel(h) => h < |s.handlers| && s.handlers[h].Waiting?
    case HandlerEnqueue(h) =>
      h < |s.handlers| && s.handlers[h].Enqueuing? && |s.queue| < CIDR_UPDATE_QUEUE_SIZE
    case HandlerUnmark(h) => h < |s.handlers| && s.handlers[h].Unmarking?
    case DeleteHandler(id) => id in s.deletes && NoAddHandler(s, s.deletes[id].node)
    case ReconcileList(list) => s.gate.Unlisted? && IsListing(s.api, list)
    case ReconcileError => s.gate.Unlisted?
    case ReconcileNode => s.gate.Listed? && s.gate.todo != []
    case OpenGate => s.gate == Listed([])
    case WorkerTake(w) => w < |s.workers| && s.workers[w].Free? && s.gate.Open? && s.queue != []
    case WorkerGet(w) => w < |s.workers| && s.workers[w].Took? && s.workers[w].item.node in s.api
    case WorkerGetError(w) => w < |s.workers| && s.workers[w].Took?
    case WorkerDecide(w, prefix) =>
      w < |s.workers| && s.workers[w].Got? && (prefix.Some? ==> prefix.value.family.V6?)
    case WorkerPatch(w, outcome) =>
      && w < |s.workers| && s.workers[w].Patching? && s.workers[w].attempts > 0
      && (!outcome.Rejected? ==> s.workers[w].item.node in s.api)
    case WorkerGiveUp(w) => w < |s.workers| && s.workers[w].Patching? && s.workers[w].attempts == 0
    case WorkerRequeue(w) =>
      w < |s.workers| && s.workers[w].Requeuing? && |s.queue| < CIDR_UPDATE_QUEUE_SIZE
    case WorkerUnmark(w) => w < |s.workers| && s.workers[w].Finishing?
    case ApiCreate(node) => node !in s.api
    case ApiDelete(node, id) => node in s.api && id !in s.deletes
  }

  /** Events of one node are delivered in order: before a delete event is handled, the Add
      handlers of the node have returned. */
  ghost predicate NoAddHandler(s: State, node: Name) {
    forall h: nat :: h < |s.handlers| && s.handlers[h].Occupying? ==> s.handlers[h].node != node
  }

  ghost function Next(p: Params, s: State, step: Step): (s': State)
    requires s.Valid(p) && Enabled(s, step)
    ensures s'.Valid(p)
  {
    match step
    case HandlerStart(node, spec) => Start(s, node, spec)
    case HandlerOccupy(h) => OccupyNode(p, s, h)
    case HandlerAllocate(h) => Allocate(p, s, h)
    case HandlerCancel(h) => s.(handlers := s.handlers[h := Unmarking(s.handlers[h].node)])
    case HandlerEnqueue(h) =>
      s.(queue := s.queue + [s.handlers[h].item], handlers := s.handlers[h := Idle])
    case HandlerUnmark(h) =>
      s.(marks := s.marks - {s.handlers[h].node}, handlers := s.handlers[h := Idle])
    case DeleteHandler(id) => HandleDelete(p, s, id)
    case ReconcileList(list) => s.(gate := Listed(list))
    case ReconcileError => s.(gate := Aborted)
    case ReconcileNode => Reconcile(p, s)
    case OpenGate => s.(gate := Open)
    case WorkerTake(w) => s.(queue := s.queue[1..], workers := s.workers[w := Took(s.queue[0])])
    case WorkerGet(w) =>
      s.(workers := s.workers[w := Got(s.workers[w].item, s.api[s.workers[w].item.node])])
    case WorkerGetError(w) => s.(workers := s.workers[w := Requeuing(s.workers[w].item)])
    case WorkerDecide(w, prefix) => Dispose(p, s, w, prefix)
    case WorkerPatch(w, outcome) => Patch(s, w, outcome)
    case WorkerGiveUp(w) => GiveUp(p, s, w)
    case WorkerRequeue(w) => s.(queue := s.queue + [s.workers[w].item], workers := s.workers[w := Free])
    case WorkerUnmark(w) => s.(marks := s.marks - {s.workers[w].node}, workers := s.workers[w := Free])
    case ApiCreate(node) => s.(api := s.api[node := []])
    case ApiDelete(node, id) =>
      s.(api := s.api - {node}, deletes := s.deletes[id := NodeSpec(node, s.api[node])])
  }

  /** insertNodeToProcessing, and then the two branches of AllocateOrOccupyCIDR. */
  function Start(s: State, node: Name, spec: Spec): State {
    if node in s.marks then s
    else s.(marks := s.marks + {node},
            handlers := s.handlers + [if spec == [] then Waiting(node) else Occupying(node, spec)])
  }

  /** occupyCIDRs up to its deferred removal; the mark goes whether or not Occupy succeeded. */
  ghost function OccupyNode(p: Params, s: State, h: nat): State
    requires h < |s.handlers| && s.handlers[h].Occupying?
  {
    s.(bitmap := s.bitmap.Occupy(SpecBlocks(p, s.handlers[h].spec)),
       handlers := s.handlers[h := Unmarking(s.handlers[h].node)])
  }

  ghost function Allocate(p: Params, s: State, h: nat): State
    requires s.Valid(p) && h < |s.handlers| && s.handlers[h].Waiting?
  {
    var (bitmap, i) := s.bitmap.Allocate();
    if i.None? then s.(handlers := s.handlers[h := Unmarking(s.handlers[h].node)])
    else s.(bitmap := bitmap, handlers := s.handlers[h := Enqueuing(Reserve(p, s.handlers[h].node, i.value))])
  }

  /** ReleaseCIDR. */
  ghost function HandleDelete(p: Params, s: State, id: nat): State
    requires id in s.deletes
  {
    s.(bitmap := s.bitmap.Release(SpecBlocks(p, s.deletes[id].spec)), deletes := s.deletes - {id})
  }

  /** One turn of the reconcile loop; an error leaves the gate shut for good. */
  ghost function Reconcile(p: Params, s: State): State
    requires s.gate.Listed? && s.gate.todo != []
  {
    var spec := s.gate.todo[0].spec;
    if OutOfRange(p, spec) then s.(gate := Aborted)
    else s.(bitmap := s.bitmap.Occupy(SpecBlocks(p, spec)), gate := Listed(s.gate.todo[1..]))
  }

  /** updateCIDRsAllocation between the answer to its Get and its first Patch. */
  ghost function Dispose(p: Params, s: State, w: nat, prefix: Option<Net>): State
    requires w < |s.workers| && s.workers[w].Got? && (prefix.Some? ==> prefix.value.family.V6?)
  {
    var item := s.workers[w].item;
    match Decide(p, item, s.workers[w].spec, prefix)
    case AlreadyAssigned => s.(workers := s.workers[w := Finishing(item.node)])
    case ReleaseReserved =>
      s.(bitmap := s.bitmap.Release(p.cfg.BlocksOf(item.cidr)), workers := s.workers[w := Finishing(item.node)])
    case NoPrefix => s.(workers := s.workers[w := Requeuing(item)])
    case Assign(cidrs) => s.(workers := s.workers[w := Patching(item, cidrs, CIDR_UPDATE_RETRIES, false)])
  }

  /** One attempt of the retry loop. */
  function Patch(s: State, w: nat, outcome: PatchOutcome): State
    requires w < |s.workers| && s.workers[w].Patching? && s.workers[w].attempts > 0
  {
    var Patching(item, cidrs, attempts, applied) := s.workers[w];
    match outcome
    case Acked => s.(api := s.api[item.node := cidrs], workers := s.workers[w := Finishing(item.node)])
    case LostAck =>
      s.(api := s.api[item.node := cidrs], workers := s.workers[w := Patching(item, cidrs, attempts - 1, true)])
    case Rejected => s.(workers := s.workers[w := Patching(item, cidrs, attempts - 1, applied)])
  }

  /** The terminal patch failure: the error was flattened to text on the way, so it is never
      recognised as a timeout; the block is released and the item goes back to the queue. */
  ghost function GiveUp(p: Params, s: State, w: nat): State
    requires w < |s.workers| && s.workers[w].Patching?
  {
    var item := s.workers[w].item;
    s.(bitmap := s.bitmap.Release(p.cfg.BlocksOf(item.cidr)), workers := s.workers[w := Requeuing(item)])
  }

  /** The reservation of block i for a node. */
  function Reserve(p: Params, node: Name, i: nat): Item
    requires i < p.cfg.Max()
  {
    BlockIsValid(p.cfg, i);
    Item(node, p.cfg.Block(i))
  }

  // ---- runs ----

  /** states[k] is the state before steps[k]. */
  ghost predicate IsRun(p: Params, states: seq<State>, steps: seq<Step>) {
    && |states| == |steps| + 1
    && (forall k :: 0 <= k < |states| ==> states[k].Valid(p))
    && (forall k :: 0 <= k < |steps| ==>
          Enabled(states[k], steps[k]) && states[k + 1] == Next(p, states[k], steps[k]))
  }

  // ---- reachability ----

  ghost predicate Reaches(p: Params, s: State, s': State) {
    exists states: seq<State>, steps: seq<Step> ::
      IsRun(p, states, steps) && states[0] == s && states[|steps|] == s'
  }

  lemma Stay(p: Params, s: State)
    requires s.Valid(p)
    ensures Reaches(p, s, s)
  {
    assert IsRun(p, [s], []);
  }

  lemma RunGrows(p: Params, states: seq<State>, steps: seq<Step>, step: Step)
    requires IsRun(p, states, steps) && Enabled(states[|steps|], step)
    ensures IsRun(p, states + [Next(p, states[|steps|], step)], steps + [step])
  {
    var states', steps' := states + [Next(p, states[|steps|], step)], steps + [step];
    forall k | 0 <= k < |steps'|
      ensures Enabled(states'[k], steps'[k]) && states'[k + 1] == Next(p, states'[k], steps'[k])
    {
      assert states'[k] == states[k];
      if k < |steps| {
        assert steps'[k] == steps[k] && states'[k + 1] == states[k + 1];
      }
    }
  }

  /** A reachable state is left by a step. */
  lemma Then(p: Params, s: State, m: State, step: Step, m': State)
    requires Reaches(p, s, m) && m.Valid(p) && Enabled(m, step) && m' == Next(p, m, step)
    ensures Reaches(p, s, m')
  {
    var states, steps :| IsRun(p, states, steps) && states[0] == s && states[|steps|] == m;
    RunGrows(p, states, steps, step);
    var states', steps' := states + [m'], steps + [step];
    assert IsRun(p, states', steps') && states'[0] == s && states'[|steps'|] == m';
  }

  /** Runs can be put one after the other. */
  lemma {:induction false} Onward(p: Params, s: State, m: State, states: seq<State>, steps: seq<Step>, k: nat)
    requires Reaches(p, s, m) && IsRun(p, states, steps) && states[0] == m && k < |states|
    ensures Reaches(p, s, states[k])
  {
    if k > 0 {
      Onward(p, s, m, states, steps, k - 1);
      assert Enabled(states[k - 1], steps[k - 1]);
      Then(p, s, states[k - 1], steps[k - 1], states[k]);
    }
  }

  lemma ReachesOn(p: Params, s: State, m: State, m': State)
    requires Reaches(p, s, m) && Reaches(p, m, m')
    ensures Reaches(p, s, m')
  {
    var states, steps :| IsRun(p, states, steps) && states[0] == m && states[|steps|] == m';
    Onward(p, s, m, states, steps, |steps|);
  }
}
