/** The controller object. Its methods are what one goroutine does between two points where it
    can block; answers of the API server and of the network service are parameters. */
module CidrAllocators {
  import opened Networks
  import opened Blocks
  import opened NextFit
  import opened CidrSets
  import opened Protocol

  /** The part of the controller that its goroutines share. */
  datatype Core = Core(bitmap: Bitmap, marks: set<Name>, queue: seq<Item>)

  /** How a loop over the pod CIDRs of a node ends; a second IPv4 entry indexes past the only
      CIDR set. */
  datatype Outcome = Done | OutOfRangeError | IndexPanic

  /** How a call of AllocateOrOccupyCIDR ends, or where it blocks. */
  datatype Ending = Returned(err: bool) | BlockedAtGate | BlockedOnQueue(item: Item)

  ghost function LoopOutcome(p: Params, podCIDRs: seq<Net>): Outcome {
    if OutOfRange(p, podCIDRs) then OutOfRangeError
    else if |V4Entries(podCIDRs)| > 1 then IndexPanic
    else Done
  }

  /** AllocateOrOccupyCIDR as one uninterrupted call. `cancelled` is the select between the
      gate and the end of the start context. */
  ghost function CallResult(p: Params, c: Core, node: Name, spec: Spec, ready: bool, cancelled: bool): (Core, Ending)
    requires c.bitmap.Valid() && c.bitmap.size == p.cfg.Max()
  {
    if node in c.marks then (c, Returned(false))
    else if spec != [] then (c.(bitmap := c.bitmap.Occupy(SpecBlocks(p, spec))), Returned(OutOfRange(p, spec)))
    else if cancelled then (c, Returned(true))
    else if !ready then (c.(marks := c.marks + {node}), BlockedAtGate)
    else GateResult(p, c.(marks := c.marks + {node}), node)
  }

  /** The rest of the call once the gate is open; the node is marked. */
  ghost function GateResult(p: Params, c: Core, node: Name): (Core, Ending)
    requires c.bitmap.Valid() && c.bitmap.size == p.cfg.Max()
  {
    if c.bitmap.Full() then (c.(marks := c.marks - {node}), Returned(true))
    else
      var item := Reserve(p, node, c.bitmap.NextFree());
      var taken := c.(bitmap := c.bitmap.Allocate().0);
      if |c.queue| < CIDR_UPDATE_QUEUE_SIZE then (taken.(queue := c.queue + [item]), Returned(false))
      else (taken, BlockedOnQueue(item))
  }

  /** `written` is what the node has in the API server afterwards, if an attempt reached it. */
  datatype Update = Update(core: Core, err: bool, written: Option<Spec>)

  /** updateCIDRsAllocation as one uninterrupted call, given the answer to Get, the fetched
      prefix, and what becomes of each patch attempt as long as none is acknowledged. */
  ghost function UpdateResult(p: Params, c: Core, item: Item, got: Option<Spec>, prefix: Option<Net>,
                              outcomes: seq<PatchOutcome>): Update
    requires prefix.Some? ==> prefix.value.family.V6?
  {
    var unmarked := c.(marks := c.marks - {item.node});
    if got.None? then Update(c, true, None)
    else
      match Decide(p, item, got.value, prefix)
      case AlreadyAssigned => Update(unmarked, false, None)
      case ReleaseReserved =>
        Update(unmarked.(bitmap := c.bitmap.Release(p.cfg.BlocksOf(item.cidr))), false, None)
      case NoPrefix => Update(c, true, None)
      case Assign(cidrs) =>
        if Acked in outcomes then Update(unmarked, false, Some(cidrs))
        else Update(c.(bitmap := c.bitmap.Release(p.cfg.BlocksOf(item.cidr))), true,
                    if LostAck in outcomes then Some(cidrs) else None)
  }

  /** A CIDR that Release rejects touches no block. */
  lemma RejectedTouchesNothing(p: Params, cidr: Net)
    requires cidr.family.V4? && !p.cfg.Accepts(cidr)
    ensures p.cfg.BlocksOf(cidr) == {}
  {
    BlocksOfEmpty(p.cfg, cidr);
  }

  lemma OccupyNothing(m: Bitmap)
    ensures m.Occupy({}) == m && m.Release({}) == m
  {
    assert m.used + {} == m.used;
  }

  /** The branches of updateCIDRsAllocation, in its order, are the cases of the decision. */
  lemma DecisionByCases(p: Params, item: Item, spec: seq<Net>, prefix: Option<Net>)
    requires prefix.Some? ==> prefix.value.family.V6?
    ensures Decide(p, item, spec, prefix) ==
              if spec == [item.cidr] then AlreadyAssigned
              else if spec != [] then ReleaseReserved
              else if p.dualStack && prefix.None? then NoPrefix
              else Assign(PodCIDRs(p, item.cidr, if prefix.Some? then prefix.value else item.cidr))
  {
  }

  /** What the call comes to in each of those branches. */
  lemma UpdateByCases(p: Params, c: Core, item: Item, spec: Spec, prefix: Option<Net>, outcomes: seq<PatchOutcome>)
    requires prefix.Some? ==> prefix.value.family.V6?
    ensures var update := UpdateResult(p, c, item, Some(spec), prefix, outcomes);
            var unmarked, released := c.marks - {item.node}, c.bitmap.Release(p.cfg.BlocksOf(item.cidr));
            && (spec == [item.cidr] ==> update == Update(c.(marks := unmarked), false, None))
            && (spec != [item.cidr] && spec != [] ==> update == Update(c.(marks := unmarked, bitmap := released), false, None))
            && (spec == [] && p.dualStack && prefix.None? ==> update == Update(c, true, None))
            && (spec == [] && !(p.dualStack && prefix.None?) ==>
                  var cidrs := PodCIDRs(p, item.cidr, if prefix.Some? then prefix.value else item.cidr);
                  update == if Acked in outcomes then Update(c.(marks := unmarked), false, Some(cidrs))
                            else Update(c.(bitmap := released), true, if LostAck in outcomes then Some(cidrs) else None))
  {
    DecisionByCases(p, item, spec, prefix);
  }

  // ---- the bits after a list was occupied or released, by addresses ----

  lemma OccupiedByList(p: Params, m: Bitmap, s: seq<Net>)
    requires m.size == p.cfg.Max()
    ensures forall i: nat :: i < p.cfg.Max() ==>
              (i in m.Occupy(SpecBlocks(p, s)).used <==>
                 || i in m.used
                 || exists k: nat, address: nat :: FirstIPv4(s, k) && p.cfg.Block(i).Has(address) && s[k].Has(address))
  {
    forall i: nat | i < p.cfg.Max()
      ensures i in SpecBlocks(p, s)
         <==> exists k: nat, address: nat :: FirstIPv4(s, k) && p.cfg.Block(i).Has(address) && s[k].Has(address)
    {
      SpecBlocksMeans(p, s, i);
    }
  }

  lemma ReleasedByList(p: Params, m: Bitmap, s: seq<Net>)
    ensures forall i: nat :: i < p.cfg.Max() ==>
              (i in m.Release(SpecBlocks(p, s)).used <==>
                 && i in m.used
                 && !exists k: nat, address: nat :: FirstIPv4(s, k) && p.cfg.Block(i).Has(address) && s[k].Has(address))
  {
    forall i: nat | i < p.cfg.Max()
      ensures i in SpecBlocks(p, s)
         <==> exists k: nat, address: nat :: FirstIPv4(s, k) && p.cfg.Block(i).Has(address) && s[k].Has(address)
    {
      SpecBlocksMeans(p, s, i);
    }
  }

  lemma OccupiedByNode(p: Params, m: Bitmap, s: Spec)
    requires m.size == p.cfg.Max()
    ensures forall i: nat :: i < p.cfg.Max() ==>
              (i in m.Occupy(SpecBlocks(p, s)).used <==>
                 || i in m.used
                 || exists x, address: nat :: x in s && x.family.V4? && p.cfg.Block(i).Has(address) && x.Has(address))
    ensures OutOfRange(p, s) <==>
              exists x :: x in s && x.family.V4? && !exists address: nat :: p.cfg.cluster.Has(address) && x.Has(address)
  {
    NodeSpecMeans(p, s, 0);
    forall i: nat | i < p.cfg.Max()
      ensures i in SpecBlocks(p, s)
         <==> exists x, address: nat :: x in s && x.family.V4? && p.cfg.Block(i).Has(address) && x.Has(address)
    {
      NodeSpecMeans(p, s, i);
    }
  }

  lemma ReleasedByItem(p: Params, m: Bitmap, cidr: Net)
    requires cidr.family.V4?
    ensures forall i: nat :: i < p.cfg.Max() ==>
              (i in m.Release(p.cfg.BlocksOf(cidr)).used <==>
                 && i in m.used
                 && !exists address: nat :: p.cfg.Block(i).Has(address) && cidr.Has(address))
  {
    forall i: nat | i < p.cfg.Max()
      ensures i in p.cfg.BlocksOf(cidr) <==> exists address: nat :: p.cfg.Block(i).Has(address) && cidr.Has(address)
    {
      BlocksOfMeans(p.cfg, cidr, i);
    }
  }

  /** How a loop ends, by the entries of the list. */
  lemma LoopOutcomeMeans(p: Params, s: seq<Net>)
    ensures LoopOutcome(p, s) == OutOfRangeError <==>
              exists k: nat :: FirstIPv4(s, k) && !exists address: nat :: p.cfg.cluster.Has(address) && s[k].Has(address)
    ensures LoopOutcome(p, s) == IndexPanic <==>
              && LoopOutcome(p, s) != OutOfRangeError
              && exists j, k :: 0 <= j < k < |s| && s[j].family.V4? && s[k].family.V4?
  {
    OutOfRangeMeans(p, s);
    V4EntriesCount(s);
  }

  /** The blocks that the listed nodes hold. */
  ghost function ListBlocks(p: Params, list: seq<NodeSpec>): (blocks: set<nat>)
    ensures forall i :: i in blocks <==> exists e :: e in list && i in SpecBlocks(p, e.spec)
  {
    set e, i | e in list && i in SpecBlocks(p, e.spec) :: i
  }

  ghost predicate AllInRange(p: Params, list: seq<NodeSpec>) {
    forall e :: e in list ==> !OutOfRange(p, e.spec)
  }

  lemma ListBlocksNext(p: Params, list: seq<NodeSpec>, k: nat, m: Bitmap)
    requires k < |list|
    ensures var marked := m.Occupy(ListBlocks(p, list[..k]));
            && marked.Occupy(SpecBlocks(p, list[k].spec)) == m.Occupy(ListBlocks(p, list[..k + 1]))
            && (AllInRange(p, list[..k]) && !OutOfRange(p, list[k].spec) ==> AllInRange(p, list[..k + 1]))
            && (list[k].spec == [] || OutOfRange(p, list[k].spec) ==> marked.Occupy(SpecBlocks(p, list[k].spec)) == marked)
  {
    assert list[..k + 1] == list[..k] + [list[k]];
    assert ListBlocks(p, list[..k + 1]) == ListBlocks(p, list[..k]) + SpecBlocks(p, list[k].spec);
    assert m.Occupy(ListBlocks(p, list[..k])).Occupy(SpecBlocks(p, list[k].spec)).used
        == m.Occupy(ListBlocks(p, list[..k + 1])).used;
    OccupyNothing(m.Occupy(ListBlocks(p, list[..k])));
  }

  /** After k entries of the loop, idx of them IPv4: at most one, and that one accepted. */
  ghost predicate Progress(p: Params, s: seq<Net>, k: nat, idx: nat)
    requires k <= |s|
  {
    && idx <= 1 && |V4Entries(s)| == idx + |V4Entries(s[k..])|
    && (idx == 0 ==> V4Entries(s[k..]) == V4Entries(s))
    && (idx == 1 ==> !OutOfRange(p, s))
  }

  lemma NextEntry(p: Params, s: seq<Net>, k: nat, idx: nat)
    requires k < |s| && Progress(p, s, k, idx)
    ensures s[k].family.V6? ==> Progress(p, s, k + 1, idx)
    ensures s[k].family.V4? && idx == 1 ==> LoopOutcome(p, s) == IndexPanic
    ensures s[k].family.V4? && idx == 0 ==> OutOfRange(p, s) == !p.cfg.Accepts(s[k])
    ensures s[k].family.V4? && idx == 0 ==> SpecBlocks(p, s) == if p.cfg.Accepts(s[k]) then p.cfg.BlocksOf(s[k]) else {}
    ensures s[k].family.V4? && idx == 0 && p.cfg.Accepts(s[k]) ==> Progress(p, s, k + 1, 1)
  {
    assert s[k..][1..] == s[k + 1..];
  }

  class CidrAllocator {
    const p: Params
    const cidrSet: CidrSet  // cidrSets, which has one entry
    var nodesInProcessing: set<Name>
    var queue: seq<Item>
    var reconcileReady: bool

    ghost predicate Valid()
      reads this, cidrSet, cidrSet.used
    {
      cidrSet.Valid() && cidrSet.cfg == p.cfg
    }

    ghost function View(): Core
      reads this, cidrSet, cidrSet.used
    {
      Core(cidrSet.View(), nodesInProcessing, queue)
    }

    constructor (p: Params)
      ensures Valid() && fresh(cidrSet) && fresh(cidrSet.used)
      ensures this.p == p && View() == Core(Fresh(p.cfg.Max()), {}, []) && !reconcileReady
    {
      this.p := p;
      cidrSet := new CidrSet(p.cfg);
      nodesInProcessing, queue, reconcileReady := {}, [], false;
    }

    /** False, and no change, exactly when the name is in processing already. */
    method InsertNodeToProcessing(node: Name) returns (inserted: bool)
      modifies this`nodesInProcessing
      ensures inserted <==> node !in old(nodesInProcessing)
      ensures nodesInProcessing == old(nodesInProcessing) + {node}
    {
      if node in nodesInProcessing {
        return false;
      }
      nodesInProcessing := nodesInProcessing + {node};
      return true;
    }

    method RemoveNodeFromProcessing(node: Name)
      modifies this`nodesInProcessing
      ensures nodesInProcessing == old(nodesInProcessing) - {node}
    {
      nodesInProcessing := nodesInProcessing - {node};
    }

    /** Marks the blocks that the first IPv4 CIDR touches, wherever IPv6 entries stand. */
    method OccupyCIDRsWithoutRemoval(podCIDRs: seq<Net>) returns (outcome: Outcome)
      requires Valid()
      modifies cidrSet, cidrSet.used
      ensures Valid() && cidrSet.View() == old(cidrSet.View()).Occupy(SpecBlocks(p, podCIDRs))
      ensures outcome == LoopOutcome(p, podCIDRs)
      // the same by entries and addresses
      ensures outcome == OutOfRangeError <==>
                exists k: nat :: FirstIPv4(podCIDRs, k) && !exists address: nat :: p.cfg.cluster.Has(address) && podCIDRs[k].Has(address)
      ensures outcome == IndexPanic <==>
                && outcome != OutOfRangeError
                && exists j, k :: 0 <= j < k < |podCIDRs| && podCIDRs[j].family.V4? && podCIDRs[k].family.V4?
      ensures forall i: nat :: i < p.cfg.Max() ==>
                (i in cidrSet.UsedSet() <==>
                   || i in old(cidrSet.UsedSet())
                   || exists k: nat, address: nat :: FirstIPv4(podCIDRs, k) && p.cfg.Block(i).Has(address) && podCIDRs[k].Has(address))
    {
      LoopOutcomeMeans(p, podCIDRs);
      OccupiedByList(p, cidrSet.View(), podCIDRs);
      ghost var before, blocks := cidrSet.View(), SpecBlocks(p, podCIDRs);
      OccupyNothing(before);
      var idx, k := 0, 0;
      while k < |podCIDRs|
        invariant k <= |podCIDRs| && Progress(p, podCIDRs, k, idx)
        invariant Valid() && cidrSet.View() == if idx == 0 then before else before.Occupy(blocks)
      {
        NextEntry(p, podCIDRs, k, idx);
        if podCIDRs[k].family.V6? {
          k := k + 1;
          continue;
        }
        if idx >= 1 {
          return IndexPanic;
        }
        var ok := cidrSet.Occupy(podCIDRs[k]);
        if !ok {
          return OutOfRangeError;
        }
        idx, k := idx + 1, k + 1;
      }
      return Done;
    }

    /** Clears the blocks that the first IPv4 CIDR touches, wherever IPv6 entries stand. */
    method ReleaseCIDR(podCIDRs: seq<Net>) returns (outcome: Outcome)
      requires Valid()
      modifies cidrSet, cidrSet.used
      ensures Valid() && cidrSet.View() == old(cidrSet.View()).Release(SpecBlocks(p, podCIDRs))
      ensures outcome == LoopOutcome(p, podCIDRs)
      // the same by entries and addresses
      ensures outcome == OutOfRangeError <==>
                exists k: nat :: FirstIPv4(podCIDRs, k) && !exists address: nat :: p.cfg.cluster.Has(address) && podCIDRs[k].Has(address)
      ensures outcome == IndexPanic <==>
                && outcome != OutOfRangeError
                && exists j, k :: 0 <= j < k < |podCIDRs| && podCIDRs[j].family.V4? && podCIDRs[k].family.V4?
      ensures forall i: nat :: i < p.cfg.Max() ==>
                (i in cidrSet.UsedSet() <==>
                   && i in old(cidrSet.UsedSet())
                   && !exists k: nat, address: nat :: FirstIPv4(podCIDRs, k) && p.cfg.Block(i).Has(address) && podCIDRs[k].Has(address))
    {
      LoopOutcomeMeans(p, podCIDRs);
      ReleasedByList(p, cidrSet.View(), podCIDRs);
      ghost var before, blocks := cidrSet.View(), SpecBlocks(p, podCIDRs);
      OccupyNothing(before);
      var idx, k := 0, 0;
      while k < |podCIDRs|
        invariant k <= |podCIDRs| && Progress(p, podCIDRs, k, idx)
        invariant Valid() && cidrSet.View() == if idx == 0 then before else before.Release(blocks)
      {
        NextEntry(p, podCIDRs, k, idx);
        if podCIDRs[k].family.V6? {
          k := k + 1;
          continue;
        }
        if idx >= 1 {
          return IndexPanic;
        }
        var ok := cidrSet.Release(podCIDRs[k]);
        if !ok {
          return OutOfRangeError;
        }
        idx, k := idx + 1, k + 1;
      }
      return Done;
    }
  
    /** occupyCIDRs: the deferred removal happens however the loop ends. */
    method OccupyCIDRs(node: Name, podCIDRs: seq<Net>) returns (outcome: Outcome)
      requires Valid()
      modifies this`nodesInProcessing, cidrSet, cidrSet.used
      ensures Valid() && cidrSet.View() == old(cidrSet.View()).Occupy(SpecBlocks(p, podCIDRs))
      ensures outcome == LoopOutcome(p, podCIDRs)
      ensures nodesInProcessing == old(nodesInProcessing) - {node}
    {
      outcome := OccupyCIDRsWithoutRemoval(podCIDRs);
      RemoveNodeFromProcessing(node);
    }

    /** Marks the blocks of all listed nodes; stops at the first CIDR out of range. */
    method ReconcileState(list: seq<NodeSpec>) returns (ok: bool)
      requires Valid()
      modifies cidrSet, cidrSet.used
      ensures Valid()
      ensures ok <==> forall e :: e in list ==> !OutOfRange(p, e.spec)
      ensures ok ==> cidrSet.View() == old(cidrSet.View()).Occupy(ListBlocks(p, list))
      ensures !ok ==> exists k ::
                && 0 <= k < |list| && OutOfRange(p, list[k].spec) && (forall e :: e in list[..k] ==> !OutOfRange(p, e.spec))
                && cidrSet.View() == old(cidrSet.View()).Occupy(ListBlocks(p, list[..k]))
    {
      ghost var before := cidrSet.View();
      OccupyNothing(before);
      assert ListBlocks(p, list[..0]) == {};
      for k := 0 to |list|
        invariant Valid()
        invariant AllInRange(p, list[..k])
        invariant cidrSet.View() == before.Occupy(ListBlocks(p, list[..k]))
      {
        ListBlocksNext(p, list, k, before);
        if list[k].spec == [] {
          continue;
        }
        var outcome := OccupyCIDRsWithoutRemoval(list[k].spec);
        if outcome != Done {
          return false;
        }
      }
      assert list[..|list|] == list;
      return true;
    }

    /** Start up to the point where it launches the workers; None is a failed List call. */
    method Start(list: Option<seq<NodeSpec>>) returns (ok: bool)
      requires Valid()
      modifies this`reconcileReady, cidrSet, cidrSet.used
      ensures Valid()
      ensures reconcileReady == (old(reconcileReady) || ok)
      ensures ok <==> list.Some? && forall e :: e in list.value ==> !OutOfRange(p, e.spec)
      ensures ok ==> cidrSet.View() == old(cidrSet.View()).Occupy(ListBlocks(p, list.value))
      ensures list.None? ==> cidrSet.View() == old(cidrSet.View())
      ensures list.Some? && !ok ==> exists k ::
                && 0 <= k < |list.value| && OutOfRange(p, list.value[k].spec)
                && (forall e :: e in list.value[..k] ==> !OutOfRange(p, e.spec))
                && cidrSet.View() == old(cidrSet.View()).Occupy(ListBlocks(p, list.value[..k]))
    {
      if list.None? {
        return false;
      }
      ok := ReconcileState(list.value);
      if ok {
        reconcileReady := true;
      }
    }

    /** Besides the result as a function of the old state, what each branch does to the fields. */
    method AllocateOrOccupyCIDR(node: Name, podCIDRs: Spec, cancelled: bool) returns (ending: Ending)
      requires Valid()
      modifies this`nodesInProcessing, this`queue, cidrSet, cidrSet.used
      ensures Valid() && old(View()).bitmap.Valid()
      ensures (View(), ending) == CallResult(p, old(View()), node, podCIDRs, reconcileReady, cancelled)
      // a name in processing: nothing happens; in any case nobody else's name is removed
      ensures node in old(nodesInProcessing) ==>
                && ending == Returned(false) && nodesInProcessing == old(nodesInProcessing) && queue == old(queue)
                && cidrSet.UsedSet() == old(cidrSet.UsedSet()) && cidrSet.nextCandidate == old(cidrSet.nextCandidate)
      ensures old(nodesInProcessing) <= nodesInProcessing <= old(nodesInProcessing) + {node}
      // a node with CIDRs: they are occupied, and one outside the cluster is an error
      ensures node !in old(nodesInProcessing) && podCIDRs != [] ==>
                && nodesInProcessing == old(nodesInProcessing) && queue == old(queue)
                && cidrSet.nextCandidate == old(cidrSet.nextCandidate) && ending.Returned?
                && (ending.err <==>
                      exists x :: x in podCIDRs && x.family.V4? && !exists address: nat :: p.cfg.cluster.Has(address) && x.Has(address))
      ensures node !in old(nodesInProcessing) && podCIDRs != [] ==>
                forall i: nat :: i < p.cfg.Max() ==>
                  (i in cidrSet.UsedSet() <==>
                     || i in old(cidrSet.UsedSet())
                     || exists x, address: nat :: x in podCIDRs && x.family.V4? && p.cfg.Block(i).Has(address) && x.Has(address))
      // a node without CIDRs: the name is given back when the start is cancelled or no block is left
      ensures node !in old(nodesInProcessing) && podCIDRs == [] ==>
                && nodesInProcessing == old(nodesInProcessing) + (if ending == Returned(true) then {} else {node})
                && (ending == Returned(true) <==>
                      cancelled || (reconcileReady && forall i: nat :: i < p.cfg.Max() ==> i in old(cidrSet.UsedSet())))
                && (ending == BlockedAtGate <==> !cancelled && !reconcileReady)
                && (ending == Returned(true) || ending == BlockedAtGate ==>
                      queue == old(queue) && cidrSet.UsedSet() == old(cidrSet.UsedSet()) && cidrSet.nextCandidate == old(cidrSet.nextCandidate))
    {
      var inserted := InsertNodeToProcessing(node);
      if !inserted {
        cidrSet.ViewIsValid();
        assert nodesInProcessing == old(nodesInProcessing);
        return Returned(false);
      }
      assert nodesInProcessing - {node} == old(nodesInProcessing);
      if podCIDRs != [] {
        var err := OccupyNodeCIDRs(node, podCIDRs);
        return Returned(err);
      }
      ending := AllocateCIDR(node, cancelled);
    }

    /** The branch of a node that has CIDRs. */
    method OccupyNodeCIDRs(node: Name, podCIDRs: Spec) returns (err: bool)
      requires Valid()
      modifies this`nodesInProcessing, cidrSet, cidrSet.used
      ensures Valid() && old(View()).bitmap.Valid() && nodesInProcessing == old(nodesInProcessing) - {node}
      ensures cidrSet.View() == old(cidrSet.View()).Occupy(SpecBlocks(p, podCIDRs)) && err == OutOfRange(p, podCIDRs)
      ensures err <==>
                exists x :: x in podCIDRs && x.family.V4? && !exists address: nat :: p.cfg.cluster.Has(address) && x.Has(address)
      ensures forall i: nat :: i < p.cfg.Max() ==>
                (i in cidrSet.UsedSet() <==>
                   || i in old(cidrSet.UsedSet())
                   || exists x, address: nat :: x in podCIDRs && x.family.V4? && p.cfg.Block(i).Has(address) && x.Has(address))
    {
      cidrSet.ViewIsValid();
      OccupiedByNode(p, cidrSet.View(), podCIDRs);
      var outcome := OccupyCIDRs(node, podCIDRs);
      err := outcome != Done;
    }

    /** The branch of a node without CIDRs, whose name has just been inserted. */
    method AllocateCIDR(node: Name, cancelled: bool) returns (ending: Ending)
      requires Valid()
      modifies this`nodesInProcessing, this`queue, cidrSet, cidrSet.used
      ensures Valid() && old(View()).bitmap.Valid()
      ensures (View(), ending) ==
                if cancelled then (old(View()).(marks := old(nodesInProcessing) - {node}), Returned(true))
                else if !reconcileReady then (old(View()), BlockedAtGate)
                else GateResult(p, old(View()), node)
      ensures ending == Returned(true) <==>
                cancelled || (reconcileReady && forall i: nat :: i < p.cfg.Max() ==> i in old(cidrSet.UsedSet()))
      ensures ending == BlockedAtGate <==> !cancelled && !reconcileReady
      ensures nodesInProcessing == old(nodesInProcessing) - (if ending == Returned(true) then {node} else {})
      ensures ending == Returned(true) || ending == BlockedAtGate ==>
                queue == old(queue) && cidrSet.UsedSet() == old(cidrSet.UsedSet()) && cidrSet.nextCandidate == old(cidrSet.nextCandidate)
    {
      cidrSet.ViewIsValid();
      if cancelled {
        RemoveNodeFromProcessing(node);
        return Returned(true);
      }
      if !reconcileReady {
        return BlockedAtGate;
      }
      ending := AllocateAfterGate(node);
    }

    method AllocateAfterGate(node: Name) returns (ending: Ending)
      requires Valid()
      modifies this`nodesInProcessing, this`queue, cidrSet, cidrSet.used
      ensures Valid() && old(View()).bitmap.Valid()
      ensures (View(), ending) == GateResult(p, old(View()), node)
      // the same over the fields: an error if and only if no block is left, and then the name is
      // given back
      ensures ending == Returned(true) <==> forall i: nat :: i < p.cfg.Max() ==> i in old(cidrSet.UsedSet())
      ensures ending == Returned(true) ==>
                && nodesInProcessing == old(nodesInProcessing) - {node} && queue == old(queue)
                && cidrSet.UsedSet() == old(cidrSet.UsedSet()) && cidrSet.nextCandidate == old(cidrSet.nextCandidate)
      // else one free block is marked, and it is queued for the node or held until there is room
      ensures ending != Returned(true) ==>
                && nodesInProcessing == old(nodesInProcessing)
                && (ending == Returned(false) <==> |old(queue)| < 5000)
                && (ending == Returned(false) ==> |queue| > 0 && queue[..|queue| - 1] == old(queue))
                && (ending != Returned(false) ==> ending.BlockedOnQueue? && queue == old(queue))
                && var item := if ending.BlockedOnQueue? then ending.item else queue[|queue| - 1];
                   && item.node == node
                   && exists i: nat ::
                        && i < p.cfg.Max() && i !in old(cidrSet.UsedSet()) && cidrSet.UsedSet() == old(cidrSet.UsedSet()) + {i}
                        && item.cidr == p.cfg.Block(i)
    {
      cidrSet.ViewIsValid();
      var podCIDR := cidrSet.AllocateNext();
      if podCIDR.None? {
        RemoveNodeFromProcessing(node);
        return Returned(true);
      }
      var reserved := Item(node, podCIDR.value);
      if |queue| >= CIDR_UPDATE_QUEUE_SIZE {
        return BlockedOnQueue(reserved);
      }
      queue := queue + [reserved];
      return Returned(false);
    }

    /** Whether the node carries the proposed list already. */
    method MatchesProposed(podCIDRs: seq<Net>, proposed: seq<Net>) returns (matches: bool)
      ensures matches <==> podCIDRs == proposed
    {
      if |podCIDRs| != |proposed| {
        return false;
      }
      for idx := 0 to |proposed|
        invariant podCIDRs[..idx] == proposed[..idx]
      {
        if podCIDRs[idx] != proposed[idx] {
          return false;
        }
      }
      return true;
    }

    method UpdateCIDRsAllocation(item: Item, got: Option<Spec>, prefix: Option<Net>, outcomes: seq<PatchOutcome>)
      returns (err: bool, written: Option<Spec>)
      requires Valid() && item.cidr.family.V4? && |outcomes| == CIDR_UPDATE_RETRIES
      requires prefix.Some? ==> prefix.value.family.V6?
      modifies this`nodesInProcessing, cidrSet, cidrSet.used
      ensures Valid()
      ensures Update(View(), err, written) == UpdateResult(p, old(View()), item, got, prefix, outcomes)
      // the same over the fields: when it fails, and that only a failed call keeps the name
      ensures !err <==> got.Some? && (got.value != [] || ((p.dualStack ==> prefix.Some?) && Acked in outcomes))
      ensures nodesInProcessing == if err then old(nodesInProcessing) else old(nodesInProcessing) - {item.node}
      // the reservation is released when the node has other CIDRs, or when no patch is acknowledged
      ensures cidrSet.nextCandidate == old(cidrSet.nextCandidate)
      ensures var released := got.Some? && got.value != [item.cidr]
                              && (got.value != [] || ((p.dualStack ==> prefix.Some?) && Acked !in outcomes));
              forall i: nat :: i < p.cfg.Max() ==>
                (i in cidrSet.UsedSet() <==>
                   && i in old(cidrSet.UsedSet())
                   && !(released && exists address: nat :: p.cfg.Block(i).Has(address) && item.cidr.Has(address)))
      // what the node gets: the reserved CIDR and in dual-stack the fetched prefix, primary family first
      ensures written.Some? <==>
                got.Some? && got.value == [] && (p.dualStack ==> prefix.Some?) && (Acked in outcomes || LostAck in outcomes)
      ensures written.Some? && !p.dualStack ==> multiset(written.value) == multiset{item.cidr}
      ensures written.Some? && p.dualStack ==> prefix.Some? && multiset(written.value) == multiset{item.cidr, prefix.value}
      ensures written.Some? ==>
                written.value != [] && written.value[0].family == if p.dualStack && p.primaryIPv6 then V6 else V4
    {
      if got.None? {
        return true, None;
      }
      var podCIDRs := got.value;
      var matched := MatchesProposed(podCIDRs, [item.cidr]);
      UpdateByCases(p, View(), item, podCIDRs, prefix, outcomes);
      if matched {
        RemoveNodeFromProcessing(item.node);
        return false, None;
      }
      if podCIDRs != [] {
        ReleaseReservation(item.cidr);
        RemoveNodeFromProcessing(item.node);
        return false, None;
      }
      err, written := AssignCIDRs(item, prefix, outcomes);
    }

    /** The rest of the call for a node without CIDRs. */
    method AssignCIDRs(item: Item, prefix: Option<Net>, outcomes: seq<PatchOutcome>) returns (err: bool, written: Option<Spec>)
      requires Valid() && item.cidr.family.V4? && |outcomes| == CIDR_UPDATE_RETRIES
      requires prefix.Some? ==> prefix.value.family.V6?
      modifies this`nodesInProcessing, cidrSet, cidrSet.used
      ensures Valid()
      ensures Update(View(), err, written) == UpdateResult(p, old(View()), item, Some([]), prefix, outcomes)
      ensures err <==> (p.dualStack && prefix.None?) || Acked !in outcomes
      ensures nodesInProcessing == if err then old(nodesInProcessing) else old(nodesInProcessing) - {item.node}
      ensures var released := (p.dualStack ==> prefix.Some?) && Acked !in outcomes;
              forall i: nat :: i < p.cfg.Max() ==>
                (i in cidrSet.UsedSet() <==>
                   && i in old(cidrSet.UsedSet())
                   && !(released && exists address: nat :: p.cfg.Block(i).Has(address) && item.cidr.Has(address)))
      ensures written.Some? <==> (p.dualStack ==> prefix.Some?) && (Acked in outcomes || LostAck in outcomes)
      ensures written.Some? && !p.dualStack ==> multiset(written.value) == multiset{item.cidr}
      ensures written.Some? && p.dualStack ==> prefix.Some? && multiset(written.value) == multiset{item.cidr, prefix.value}
      ensures written.Some? ==>
                written.value != [] && written.value[0].family == if p.dualStack && p.primaryIPv6 then V6 else V4
    {
      UpdateByCases(p, View(), item, [], prefix, outcomes);
      if p.dualStack && prefix.None? {
        return true, None;
      }
      var cidrs := FullCIDRs(item.cidr, prefix);
      err, written := PatchPodCIDRs(item, cidrs, outcomes);
    }

    /** The reserved CIDR, in dual-stack with the prefix appended, in the order of the patch. */
    method FullCIDRs(cidr: Net, prefix: Option<Net>) returns (cidrs: Spec)
      requires cidr.family.V4? && (prefix.Some? ==> prefix.value.family.V6?) && (p.dualStack ==> prefix.Some?)
      ensures cidrs == PodCIDRs(p, cidr, if prefix.Some? then prefix.value else cidr)
      ensures multiset(cidrs) == if p.dualStack then multiset{cidr, prefix.value} else multiset{cidr}
      ensures cidrs != [] && cidrs[0].family == if p.dualStack && p.primaryIPv6 then V6 else V4
    {
      var list: seq<Net> := [cidr];
      if p.dualStack {
        list := list + [prefix.value];
      }
      list := PrimaryFirst(list);
      PodCIDRsMeans(p, cidr, if prefix.Some? then prefix.value else cidr);
      assert list == PodCIDRs(p, cidr, if prefix.Some? then prefix.value else cidr);
      cidrs := list;
    }

    /** The stable sort of the patched list by family: in dual-stack a list of two is turned round
        when only its second entry is of the primary family. */
    method PrimaryFirst(cidrs: seq<Net>) returns (ordered: seq<Net>)
      ensures multiset(ordered) == multiset(cidrs)
      ensures ordered == cidrs || (|cidrs| == 2 && ordered == [cidrs[1], cidrs[0]])
      ensures !p.dualStack || |cidrs| != 2 || cidrs[0].family == cidrs[1].family ==> ordered == cidrs
      ensures p.dualStack && |cidrs| == 2 && cidrs[0].family != cidrs[1].family ==>
                ordered[0].family == if p.primaryIPv6 then V6 else V4
    {
      ordered := cidrs;
      if p.dualStack && |cidrs| == 2 {
        assert cidrs == [cidrs[0], cidrs[1]];
        var primary := if p.primaryIPv6 then V6 else V4;
        if cidrs[0].family != primary && cidrs[1].family == primary {
          ordered := [cidrs[1], cidrs[0]];
        }
      }
    }

    /** The retry loop and what follows it. */
    method PatchPodCIDRs(item: Item, cidrs: Spec, outcomes: seq<PatchOutcome>) returns (err: bool, written: Option<Spec>)
      requires Valid() && item.cidr.family.V4? && |outcomes| == CIDR_UPDATE_RETRIES
      modifies this`nodesInProcessing, cidrSet, cidrSet.used
      ensures Valid()
      ensures err <==> Acked !in outcomes
      ensures written == if Acked in outcomes || LostAck in outcomes then Some(cidrs) else None
      ensures View() == if err then old(View()).(bitmap := old(cidrSet.View()).Release(p.cfg.BlocksOf(item.cidr)))
                        else old(View()).(marks := old(nodesInProcessing) - {item.node})
      ensures forall i: nat :: i < p.cfg.Max() ==>
                (i in cidrSet.UsedSet() <==>
                   && i in old(cidrSet.UsedSet())
                   && !(err && exists address: nat :: p.cfg.Block(i).Has(address) && item.cidr.Has(address)))
    {
      written := None;
      for i := 0 to CIDR_UPDATE_RETRIES
        invariant Acked !in outcomes[..i]
        invariant written == if LostAck in outcomes[..i] then Some(cidrs) else None
        invariant Valid() && View() == old(View())
      {
        assert outcomes[..i + 1] == outcomes[..i] + [outcomes[i]];
        if outcomes[i] != Rejected {
          written := Some(cidrs);
        }
        if outcomes[i] == Acked {
          RemoveNodeFromProcessing(item.node);
          return false, written;
        }
      }
      assert outcomes[..CIDR_UPDATE_RETRIES] == outcomes;
      ReleaseReservation(item.cidr);
      return true, written;
    }

    /** Releases a reserved block; an error is only logged. */
    method ReleaseReservation(cidr: Net)
      requires Valid() && cidr.family.V4?
      modifies cidrSet, cidrSet.used
      ensures Valid() && View() == old(View()).(bitmap := old(cidrSet.View()).Release(p.cfg.BlocksOf(cidr)))
      ensures forall i: nat :: i < p.cfg.Max() ==>
                (i in cidrSet.UsedSet() <==>
                   && i in old(cidrSet.UsedSet())
                   && !exists address: nat :: p.cfg.Block(i).Has(address) && cidr.Has(address))
    {
      ReleasedByItem(p, cidrSet.View(), cidr);
      var ok := cidrSet.Release(cidr);
      if !ok {
        RejectedTouchesNothing(p, cidr);
        OccupyNothing(cidrSet.View());
      }
    }

    /** One turn of the worker loop: a failed item goes to the end of the queue. */
    method WorkerTurn(got: Option<Spec>, prefix: Option<Net>, outcomes: seq<PatchOutcome>) returns (written: Option<Spec>)
      requires Valid() && queue != [] && queue[0].cidr.family.V4? && |outcomes| == CIDR_UPDATE_RETRIES
      requires prefix.Some? ==> prefix.value.family.V6?
      modifies this`nodesInProcessing, this`queue, cidrSet, cidrSet.used
      ensures Valid()
      ensures var item, taken := old(queue)[0], old(View()).(queue := old(queue)[1..]);
              var update := UpdateResult(p, taken, item, got, prefix, outcomes);
              && written == update.written
              && View() == if update.err then update.core.(queue := old(queue)[1..] + [item]) else update.core
      // the item is requeued, and its name stays in processing, exactly when the update failed
      ensures var item := old(queue)[0];
              var done := got.Some? && (got.value != [] || ((p.dualStack ==> prefix.Some?) && Acked in outcomes));
              && queue == old(queue)[1..] + (if done then [] else [item])
              && nodesInProcessing == old(nodesInProcessing) - (if done then {item.node} else {})
    {
      var workItem := queue[0];
      queue := queue[1..];
      var err: bool;
      err, written := UpdateCIDRsAllocation(workItem, got, prefix, outcomes);
      if err {
        queue := queue + [workItem];
      }
    }
  }
}
