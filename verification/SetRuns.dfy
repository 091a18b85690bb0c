/** Address-level theorems about every sequence of AllocateNext, Occupy and Release calls. */
module SetRuns {
  import opened Networks
  import opened Blocks
  import opened CidrIndex
  import NextFit

  datatype Call = AllocateNext | Occupy(cidr: IPNet) | Release(cidr: IPNet)

  predicate Allowed(cfg: Config, call: Call) {
    call.AllocateNext? || (call.cidr.Valid() && call.cidr.family == cfg.cluster.family)
  }

  /** The effect of a call on the bitmap; a CIDR that is not accepted has none. */
  ghost function OpOf(cfg: Config, call: Call): NextFit.Op
    requires cfg.Valid() && Allowed(cfg, call)
  {
    match call
    case AllocateNext => NextFit.Op.AllocateNext
    case Occupy(cidr) => NextFit.Op.Occupy(if cfg.Accepts(cidr) then cfg.BlocksOf(cidr) else {})
    case Release(cidr) => NextFit.Op.Release(if cfg.Accepts(cidr) then cfg.BlocksOf(cidr) else {})
  }

  /** What Occupy and Release do to block i, by addresses: it is concerned exactly when it shares
      an address with the CIDR. The one configuration that is not lookupable takes nothing but
      the whole of IPv4. */
  lemma CallsByAddress(cfg: Config, m: NextFit.Bitmap, cidr: IPNet, i: nat)
    requires cfg.Valid() && m.Valid() && m.size == cfg.Max() && i < cfg.Max()
    requires cidr.Valid() && cidr.family == cfg.cluster.family
    requires cfg == Config(IPNet(V4, 0, 0), 32) ==> cidr.maskSize == 0
    ensures var occupied := NextFit.Apply(m, OpOf(cfg, Occupy(cidr)));
            i in occupied.used <==> i in m.used || exists address: nat :: cfg.Block(i).Has(address) && cidr.Has(address)
    ensures var released := NextFit.Apply(m, OpOf(cfg, Release(cidr)));
            i in released.used <==> i in m.used && !exists address: nat :: cfg.Block(i).Has(address) && cidr.Has(address)
  {
    AcceptsMeans(cfg, cidr);
    BlocksOfMeans(cfg, cidr, i);
    BlocksOfEmpty(cfg, cidr);
    IntersectsIsOverlap(cfg.cluster, cidr);
  }

  lemma RefusedCalls(cfg: Config, m: NextFit.Bitmap, cidr: IPNet)
    requires cfg == Config(IPNet(V4, 0, 0), 32) && cfg.Valid() && m.Valid() && m.size == cfg.Max()
    requires cidr.Valid() && cidr.family.V4? && cidr.maskSize > 0
    ensures NextFit.Apply(m, OpOf(cfg, Occupy(cidr))) == m == NextFit.Apply(m, OpOf(cfg, Release(cidr)))
  {
    AcceptsMeans(cfg, cidr);
    assert m.Occupy({}).used == m.used;
  }

  /** states[k] is the state before calls[k]. */
  ghost predicate IsRun(cfg: Config, states: seq<NextFit.Bitmap>, calls: seq<Call>)
    requires cfg.Valid()
  {
    && |states| == |calls| + 1
    && (forall k :: 0 <= k < |states| ==> states[k].Valid() && states[k].size == cfg.Max())
    && (forall k :: 0 <= k < |calls| ==> Allowed(cfg, calls[k]))
    && (forall k :: 0 <= k < |calls| ==> states[k + 1] == NextFit.Apply(states[k], OpOf(cfg, calls[k])))
  }

  /** The CIDR that call k takes: the block it returns, or the CIDR it occupies. */
  ghost function Taken(cfg: Config, states: seq<NextFit.Bitmap>, calls: seq<Call>, k: nat): Option<IPNet>
    requires cfg.Valid() && IsRun(cfg, states, calls) && k < |calls|
  {
    match calls[k]
    case AllocateNext =>
      var i := states[k].Allocate().1;
      if i.Some? then Some(cfg.Block(i.value)) else None
    case Occupy(cidr) => if cfg.Accepts(cidr) then Some(cidr) else None
    case Release(_) => None
  }

  /** No Release strictly between calls u and t touches a block of the CIDR. */
  ghost predicate Untouched(cfg: Config, calls: seq<Call>, u: nat, t: nat, cidr: IPNet)
    requires cfg.Valid() && t <= |calls| && cidr.Valid()
  {
    forall v :: u < v < t && calls[v].Release? && Allowed(cfg, calls[v]) ==> cfg.BlocksOf(calls[v].cidr) !! cfg.BlocksOf(cidr)
  }

  lemma TakenIsUsed(cfg: Config, states: seq<NextFit.Bitmap>, calls: seq<Call>, u: nat)
    requires cfg.Valid() && IsRun(cfg, states, calls) && u < |calls|
    requires Taken(cfg, states, calls, u).Some?
    ensures Taken(cfg, states, calls, u).value.Valid()
    ensures cfg.BlocksOf(Taken(cfg, states, calls, u).value) <= states[u + 1].used
  {
    if calls[u].AllocateNext? {
      BlocksOfBlock(cfg, states[u].Allocate().1.value);
    }
  }

  /** The blocks of a taken CIDR stay used until a Release touches one of them. */
  lemma {:induction false} TakenStaysUsed(cfg: Config, states: seq<NextFit.Bitmap>, calls: seq<Call>, u: nat, t: nat, cidr: IPNet)
    requires cfg.Valid() && IsRun(cfg, states, calls) && u < t <= |calls|
    requires Taken(cfg, states, calls, u) == Some(cidr) && cidr.Valid()
    requires Untouched(cfg, calls, u, t, cidr)
    ensures cfg.BlocksOf(cidr) <= states[t].used
    decreases t
  {
    if t == u + 1 {
      TakenIsUsed(cfg, states, calls, u);
    } else {
      TakenStaysUsed(cfg, states, calls, u, t - 1, cidr);
      assert states[t] == NextFit.Apply(states[t - 1], OpOf(cfg, calls[t - 1]));
    }
  }

  /** Address-level safety: a block returned by AllocateNext lies inside the cluster range and
      shares no address with a CIDR of any width that was allocated or occupied before, unless
      a Release has touched a block of that CIDR since. */
  lemma AddressSafety(cfg: Config, states: seq<NextFit.Bitmap>, calls: seq<Call>, u: nat, t: nat, earlier: IPNet, block: IPNet)
    requires cfg.Valid() && IsRun(cfg, states, calls) && u < t < |calls|
    requires calls[t].AllocateNext? && Taken(cfg, states, calls, t) == Some(block)
    requires Taken(cfg, states, calls, u) == Some(earlier) && earlier.Valid()
    requires Untouched(cfg, calls, u, t, earlier)
    ensures block.Valid() && block.maskSize == cfg.nodeMaskSize
    ensures forall address: nat :: block.Has(address) ==> cfg.cluster.Has(address) && !earlier.Has(address)
  {
    var i := states[t].Allocate().1.value;
    TakenStaysUsed(cfg, states, calls, u, t, earlier);
    BlockIsValid(cfg, i);
    assert i !in cfg.BlocksOf(earlier);
    assert Allowed(cfg, calls[u]) && earlier.family == cfg.cluster.family;
    forall address: nat | block.Has(address)
      ensures cfg.cluster.Has(address) && !earlier.Has(address)
    {
      BlocksTile(cfg, address);
    }
  }

  /** A block is accepted exactly when the set is lookupable. */
  lemma BlockIsAccepted(cfg: Config, i: nat)
    requires cfg.Valid() && i < cfg.Max()
    ensures cfg.Block(i).Valid() && (cfg.Accepts(cfg.Block(i)) <==> cfg.Lookupable())
  {
    BlocksOfBlock(cfg, i);
  }

  /** Releasing a block that AllocateNext returned undoes the allocation of that one bit, and
      nothing else is marked or cleared; a set that is not lookupable refuses its own block. */
  lemma ReleaseUndoesAllocate(cfg: Config, m: NextFit.Bitmap)
    requires cfg.Valid() && m.Valid() && m.size == cfg.Max() && !m.Full()
    ensures var block, after := cfg.Block(m.NextFree()), m.Allocate().0;
            && Allowed(cfg, Release(block)) && after.used == m.used + {m.NextFree()}
            && (cfg.Accepts(block) <==> cfg.Lookupable())
            && (cfg.Lookupable() ==> NextFit.Apply(after, OpOf(cfg, Release(block))) == after.(used := m.used))
            && (!cfg.Lookupable() ==> NextFit.Apply(after, OpOf(cfg, Release(block))) == after)
  {
    BlocksOfBlock(cfg, m.NextFree());
    BlockIsAccepted(cfg, m.NextFree());
  }

  /** Lookup and construction of a block are inverse to each other in a lookupable set; in any
      other set every lookup of the cluster fails. */
  lemma IndexRoundTrip(cfg: Config, i: nat, address: nat)
    requires cfg.Valid() && i < cfg.Max()
    ensures Lookup(cfg, cfg.Block(i).ip) == if cfg.Lookupable() then Some(i) else None
    ensures cfg.cluster.Has(address) && cfg.Lookupable() ==>
              && Lookup(cfg, address).Some? && Lookup(cfg, address).value < cfg.Max()
              && cfg.Block(Lookup(cfg, address).value).Has(address)
    ensures cfg.cluster.Has(address) && !cfg.Lookupable() ==> Lookup(cfg, address).None?
  {
    BlockIsValid(cfg, i);
    assert cfg.Block(i).Has(cfg.Block(i).ip);
    BlocksTile(cfg, cfg.Block(i).ip);
    LookupFindsIndex(cfg, cfg.Block(i).ip);
    BlocksTile(cfg, address);
    if cfg.cluster.Has(address) {
      LookupFindsIndex(cfg, address);
    }
  }
}
