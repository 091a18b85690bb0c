/** The blocks a CidrSet divides its cluster CIDR into, as plain arithmetic, and the word-level
    computations of the allocator proved against that arithmetic. */
module Blocks {
  import opened Words
  import opened Networks

  // ---- the blocks as arithmetic ----

  const CLUSTER_SUBNET_MAX_DIFF := 16

  /** The immutable part of a CidrSet. */
  datatype Config = Config(cluster: IPNet, nodeMaskSize: nat) {
    predicate Valid() {
      && cluster.Valid()
      && cluster.maskSize <= nodeMaskSize <= Width()
      && (cluster.family.V6? ==> nodeMaskSize - cluster.maskSize <= CLUSTER_SUBNET_MAX_DIFF)
    }

    function Width(): nat { cluster.family.Width() }

    function Max(): nat
      requires Valid()
    {
      Pow2(nodeMaskSize - cluster.maskSize)
    }

    /** Addresses per block. */
    function BlockSize(): nat
      requires Valid()
    {
      Pow2(Width() - nodeMaskSize)
    }

    /** The i-th block: block addresses are spaced evenly from the cluster address on. */
    function Block(i: nat): IPNet
      requires Valid()
    {
      IPNet(cluster.family, cluster.ip + i * BlockSize(), nodeMaskSize)
    }

    /** False only for an IPv4 /0 cluster cut into /32 blocks, where the 32-bit copy of the
        block count that index lookups compare with is zero. */
    predicate Lookupable()
      requires Valid()
    {
      cluster.family.V4? ==> nodeMaskSize - cluster.maskSize < 32
    }

    /** When Occupy and Release accept a CIDR. */
    ghost predicate Accepts(net: IPNet)
      requires Valid() && net.Valid()
    {
      Intersects(cluster, net) && (Lookupable() || net.maskSize <= cluster.maskSize)
    }

    /** The indices of the blocks that share an address with a CIDR. */
    ghost function BlocksOf(net: IPNet): set<nat>
      requires Valid() && net.Valid()
    {
      set i: nat | i < Max() && Block(i).Valid() && Intersects(Block(i), net)
    }
  }

  /** Index lookups fail for one configuration only: all of IPv4 cut into single addresses. */
  lemma NotLookupableIff(cfg: Config)
    requires cfg.Valid()
    ensures !cfg.Lookupable() <==> cfg == Config(IPNet(V4, 0, 0), 32)
  {
    Pow2Succ(0);
    if !cfg.Lookupable() {
      DivUnique(cfg.cluster.ip, Pow2(32), 0, cfg.cluster.ip);
    }
  }

  /** What the acceptance of a CIDR means: it shares an address with the cluster, except that
      the one configuration accepts nothing but the whole of IPv4. */
  lemma AcceptsMeans(cfg: Config, net: IPNet)
    requires cfg.Valid() && net.Valid() && net.family == cfg.cluster.family
    ensures cfg != Config(IPNet(V4, 0, 0), 32) ==>
              (cfg.Accepts(net) <==> exists address: nat :: cfg.cluster.Has(address) && net.Has(address))
    ensures cfg == Config(IPNet(V4, 0, 0), 32) ==> (cfg.Accepts(net) <==> net.maskSize == 0)
  {
    NotLookupableIff(cfg);
    IntersectsIsOverlap(cfg.cluster, net);
  }

  lemma BlocksOfMeans(cfg: Config, net: IPNet, i: nat)
    requires cfg.Valid() && net.Valid() && net.family == cfg.cluster.family
    ensures i in cfg.BlocksOf(net) <==> i < cfg.Max() && exists address: nat :: cfg.Block(i).Has(address) && net.Has(address)
  {
    if i < cfg.Max() {
      BlockIsValid(cfg, i);
      IntersectsIsOverlap(cfg.Block(i), net);
    }
  }

  lemma ClusterNumbers(cfg: Config)
    requires cfg.Valid()
    ensures cfg.cluster.Size() == cfg.Max() * cfg.BlockSize()
    ensures cfg.cluster.ip == cfg.cluster.ip / cfg.BlockSize() * cfg.BlockSize()
    ensures cfg.cluster.ip / cfg.BlockSize() == cfg.cluster.ip / cfg.cluster.Size() * cfg.Max()
  {
    Pow2Add(cfg.nodeMaskSize - cfg.cluster.maskSize, cfg.Width() - cfg.nodeMaskSize);
    AlignedNumbers(cfg.cluster.ip, cfg.BlockSize(), cfg.Max(), cfg.cluster.Size());
  }

  lemma AlignedNumbers(c: nat, b: nat, max: nat, size: nat)
    requires b > 0 && max > 0 && size == max * b && c % size == 0
    ensures c == c / b * b && c / b == c / size * max
  {
    DivDiv(c, b, max);
    DigitsZero(c / b % max, c % b, b);
    DivMod(c, b);
    DivMod(c / b, max);
  }

  /** An address is in the cluster when its block number agrees above the index bits. */
  lemma HasByBlockNumber(cfg: Config, address: nat)
    requires cfg.Valid()
    ensures cfg.cluster.Has(address)
       <==> BlockNumber(cfg, address) / cfg.Max() == cfg.cluster.ip / cfg.cluster.Size()
  {
    ClusterNumbers(cfg);
    DivDiv(address, cfg.BlockSize(), cfg.Max());
  }

  lemma BlockIsValid(cfg: Config, i: nat)
    requires cfg.Valid() && i < cfg.Max()
    ensures cfg.Block(i).Valid()
    ensures cfg.Block(i).ip + cfg.BlockSize() <= cfg.cluster.ip + cfg.cluster.Size()
    ensures cfg.cluster.ip + cfg.cluster.Size() <= Pow2(cfg.Width())
    ensures cfg.Block(i).ip / cfg.BlockSize() == cfg.cluster.ip / cfg.BlockSize() + i
  {
    ClusterNumbers(cfg);
    BlockStart(cfg.cluster.ip, cfg.BlockSize(), cfg.cluster.ip / cfg.BlockSize(), i, cfg.Max());
    RangeFits(cfg.cluster);
  }

  lemma BlockStart(c: nat, b: nat, n: nat, i: nat, max: nat)
    requires b > 0 && i < max && c == n * b
    ensures i * b >= 0 && c + i * b + b <= c + max * b
    ensures (c + i * b) / b == n + i && (c + i * b) % b == 0
  {
    MulMono(i + 1, max, b);
    MulSucc(i, b);
    MulDistrib(n, i, b);
    DivUnique(c + i * b, b, n + i, 0);
  }

  lemma RangeFits(n: IPNet)
    requires n.Valid()
    ensures n.ip + n.Size() <= Pow2(n.family.Width())
  {
    var q := n.ip / n.Size();
    Pow2Add(n.maskSize, n.family.Width() - n.maskSize);
    DivMod(n.ip, n.Size());
    DivLess(n.ip, n.Size(), Pow2(n.maskSize));
    MulMono(q + 1, Pow2(n.maskSize), n.Size());
    MulSucc(q, n.Size());
  }

  lemma BlockHas(cfg: Config, i: nat, address: nat)
    requires cfg.Valid() && i < cfg.Max()
    ensures cfg.Block(i).Has(address)
       <==> address / cfg.BlockSize() == cfg.cluster.ip / cfg.BlockSize() + i
  {
    var block, number := cfg.Block(i), cfg.cluster.ip / cfg.BlockSize() + i;
    assert block.Valid() && block.ip / cfg.BlockSize() == number by {
      BlockIsValid(cfg, i);
    }
    HasByNumber(block, address, cfg.BlockSize(), number);
  }

  lemma HasByNumber(n: IPNet, address: nat, size: nat, number: nat)
    requires n.Valid() && n.Size() == size && n.ip / size == number
    ensures n.Has(address) <==> address / size == number
  {
  }

  /** The index of the block an address of the cluster lies in. */
  function IndexOf(cfg: Config, address: nat): (i: int)
    requires cfg.Valid()
  {
    BlockNumber(cfg, address) - BlockNumber(cfg, cfg.cluster.ip)
  }

  /** The number of a block counted from address zero. */
  function BlockNumber(cfg: Config, address: nat): nat
    requires cfg.Valid()
  {
    Shr(address, cfg.Width() - cfg.nodeMaskSize)
  }

  /** Inside the cluster the index is the low bits of the block number. */
  lemma IndexIsLowBits(cfg: Config, address: nat)
    requires cfg.Valid()
    ensures cfg.cluster.Has(address) <==> 0 <= IndexOf(cfg, address) < cfg.Max()
    ensures cfg.cluster.Has(address) ==>
              IndexOf(cfg, address) == Low(BlockNumber(cfg, address), cfg.nodeMaskSize - cfg.cluster.maskSize)
  {
    ClusterNumbers(cfg);
    HasByBlockNumber(cfg, address);
    OffsetIsRemainder(BlockNumber(cfg, address), cfg.Max(), cfg.cluster.ip / cfg.cluster.Size(), BlockNumber(cfg, cfg.cluster.ip));
  }

  lemma OffsetIsRemainder(n: nat, max: nat, k: nat, first: nat)
    requires max > 0 && first == k * max
    ensures n / max == k <==> 0 <= n - first < max
    ensures n / max == k ==> n - first == n % max
  {
    DivMod(n, max);
    if 0 <= n - first < max {
      DivUnique(n, max, k, n - first);
    }
  }

  /** The blocks tile the cluster range: an address is in the cluster exactly when it is in
      some block, that block is the one with index IndexOf, and no other block has it. */
  lemma BlocksTile(cfg: Config, address: nat)
    requires cfg.Valid()
    ensures cfg.cluster.Has(address) <==> exists i: nat :: i < cfg.Max() && cfg.Block(i).Has(address)
    ensures cfg.cluster.Has(address) <==> 0 <= IndexOf(cfg, address) < cfg.Max()
    ensures forall i: nat :: i < cfg.Max() ==>
              (cfg.Block(i).Has(address) <==> i == IndexOf(cfg, address))
  {
    var max := cfg.Max();
    IndexIsLowBits(cfg, address);
    forall i: nat | i < max
      ensures cfg.Block(i).Has(address) <==> i == IndexOf(cfg, address)
    {
      BlockHas(cfg, i, address);
    }
    if cfg.cluster.Has(address) {
      assert cfg.Block(IndexOf(cfg, address)).Has(address);
    }
  }

  /** Distinct blocks share no address. */
  lemma BlocksDisjoint(cfg: Config, i: nat, j: nat)
    requires cfg.Valid() && i < cfg.Max() && j < cfg.Max() && i != j
    ensures cfg.Block(i).Valid() && cfg.Block(j).Valid()
    ensures !Intersects(cfg.Block(i), cfg.Block(j))
  {
    BlockIsValid(cfg, i);
    BlockIsValid(cfg, j);
    if Intersects(cfg.Block(i), cfg.Block(j)) {
      var address: nat :| cfg.Block(i).Has(address) && cfg.Block(j).Has(address);
      BlocksTile(cfg, address);
    }
  }

  /** Round trip: the CIDR of a block touches that block and no other. */
  lemma BlocksOfBlock(cfg: Config, i: nat)
    requires cfg.Valid() && i < cfg.Max()
    ensures cfg.Block(i).Valid() && Intersects(cfg.cluster, cfg.Block(i))
    ensures cfg.BlocksOf(cfg.Block(i)) == {i}
  {
    BlockIsValid(cfg, i);
    assert cfg.Block(i).Has(cfg.Block(i).ip);
    BlocksTile(cfg, cfg.Block(i).ip);
    assert Intersects(cfg.Block(i), cfg.Block(i));
    forall j: nat | j in cfg.BlocksOf(cfg.Block(i))
      ensures j == i
    {
      if j != i {
        BlocksDisjoint(cfg, j, i);
      }
    }
  }

  /** A CIDR touches a block exactly when it intersects the cluster. */
  lemma BlocksOfEmpty(cfg: Config, net: IPNet)
    requires cfg.Valid() && net.Valid() && net.family == cfg.cluster.family
    ensures Intersects(cfg.cluster, net) <==> cfg.BlocksOf(net) != {}
  {
    if Intersects(cfg.cluster, net) {
      var address: nat :| cfg.cluster.Has(address) && net.Has(address);
      BlocksTile(cfg, address);
      var i: nat := IndexOf(cfg, address);
      BlockIsValid(cfg, i);
      assert cfg.Block(i).Has(address);
      assert i in cfg.BlocksOf(net);
    }
    if cfg.BlocksOf(net) != {} {
      var i: nat :| i in cfg.BlocksOf(net);
      var address: nat :| cfg.Block(i).Has(address) && net.Has(address);
      BlocksTile(cfg, address);
    }
  }

  /** A CIDR at least as wide as the cluster and meeting it touches every block. */
  lemma WideTouchesAll(cfg: Config, net: IPNet, i: nat)
    requires cfg.Valid() && net.Valid() && net.maskSize <= cfg.cluster.maskSize
    requires Intersects(cfg.cluster, net) && i < cfg.Max()
    ensures cfg.Block(i).Valid() && Intersects(cfg.Block(i), net)
  {
    BlockIsValid(cfg, i);
    BlocksTile(cfg, cfg.Block(i).ip);
    assert cfg.Block(i).Has(cfg.Block(i).ip);
    Laminar(net, cfg.cluster);
    HasIsInterval(net, cfg.Block(i).ip);
    HasIsInterval(cfg.cluster, cfg.Block(i).ip);
  }

  /** The blocks between the block of the first and the block of the last address of a CIDR
      are exactly the blocks it touches. */
  lemma RangeIsExact(cfg: Config, net: IPNet, i: nat)
    requires cfg.Valid() && net.Valid() && net.family == cfg.cluster.family && i < cfg.Max()
    ensures cfg.Block(i).Valid()
    ensures Intersects(cfg.Block(i), net)
       <==> IndexOf(cfg, net.ip) <= i <= IndexOf(cfg, net.ip + (net.Size() - 1))
  {
    BlockIsValid(cfg, i);
    if Intersects(cfg.Block(i), net) {
      MeetingIsBetween(cfg, net, i);
    }
    if IndexOf(cfg, net.ip) <= i <= IndexOf(cfg, net.ip + (net.Size() - 1)) {
      BetweenMeets(cfg, net, i);
    }
  }

  lemma MeetingIsBetween(cfg: Config, net: IPNet, i: nat)
    requires cfg.Valid() && net.Valid() && net.family == cfg.cluster.family && i < cfg.Max()
    requires cfg.Block(i).Valid() && Intersects(cfg.Block(i), net)
    ensures IndexOf(cfg, net.ip) <= i <= IndexOf(cfg, net.ip + (net.Size() - 1))
  {
    var address: nat :| cfg.Block(i).Has(address) && net.Has(address);
    BlockHas(cfg, i, address);
    HasIsInterval(net, address);
    DivMono(net.ip, address, cfg.BlockSize());
    DivMono(address, net.ip + (net.Size() - 1), cfg.BlockSize());
  }

  lemma BetweenMeets(cfg: Config, net: IPNet, i: nat)
    requires cfg.Valid() && net.Valid() && net.family == cfg.cluster.family && i < cfg.Max()
    requires cfg.Block(i).Valid() && IndexOf(cfg, net.ip) <= i <= IndexOf(cfg, net.ip + (net.Size() - 1))
    ensures Intersects(cfg.Block(i), net)
  {
    var block, last := cfg.Block(i), net.ip + (net.Size() - 1);
    var address := if block.ip < net.ip then net.ip else block.ip;
    BlockStartsBefore(cfg, i, last);
    HasIsInterval(net, address);
    BlockHas(cfg, i, block.ip);
    BlockHas(cfg, i, address);
    DivMono(block.ip, address, cfg.BlockSize());
    assert block.Has(address) && net.Has(address);
  }

  lemma BlockStartsBefore(cfg: Config, i: nat, last: nat)
    requires cfg.Valid() && i < cfg.Max() && i <= IndexOf(cfg, last)
    ensures cfg.Block(i).ip <= last
  {
    var b := cfg.BlockSize();
    var n := cfg.cluster.ip / b;
    ClusterNumbers(cfg);
    MulDistrib(n, i, b);
    DivMod(last, b);
    MulMono(n + i, last / b, b);
  }
}
