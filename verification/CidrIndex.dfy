/** The index computations of a CidrSet on 32-bit, 64-bit and 128-bit words. They read only
    immutable fields, so they take the configuration instead of the set. */
module CidrIndex {
  import opened Words
  import opened Networks
  import opened Blocks

  // ---- from an index to a block ----

  /** ORing a shifted index into an aligned word is adding the offset of the block. */
  lemma OrShiftedIndex(ip: nat, i: nat, clusterBits: nat, nodeBits: nat, width: nat)
    requires clusterBits <= nodeBits <= width
    requires ip < Pow2(width) && ip % Pow2(width - clusterBits) == 0
    requires i < Pow2(nodeBits - clusterBits)
    ensures Shl(i, width - nodeBits, width) == i * Pow2(width - nodeBits)
    ensures Or(ip, Shl(i, width - nodeBits, width)) == ip + i * Pow2(width - nodeBits)
  {
    var offset := i * Pow2(width - nodeBits);
    OffsetFits(i, nodeBits - clusterBits, width - nodeBits);
    Pow2Mono(width - clusterBits, width);
    ShlIsMul(i, width - nodeBits, width);
    DivMod(ip, Pow2(width - clusterBits));
    OrDisjointIsAdd(ip / Pow2(width - clusterBits), offset, width - clusterBits);
  }

  lemma OffsetFits(i: nat, m: nat, n: nat)
    requires i < Pow2(m)
    ensures i * Pow2(n) < Pow2(m + n)
  {
    Pow2Add(m, n);
    DigitsBound(i, 0, Pow2(m), Pow2(n));
  }

  /** An index that straddles bit 64: its upper bits go to the left word, the rest to the right. */
  lemma StraddlingIndex(left: nat, i: nat, clusterBits: nat, nodeBits: nat)
    requires clusterBits < 64 < nodeBits <= 128
    requires left < Pow2(64) && left % Pow2(64 - clusterBits) == 0
    requires i < Pow2(nodeBits - clusterBits)
    ensures Or(left, Shr(i, nodeBits - 64)) == left + i / Pow2(nodeBits - 64)
    ensures Or(0, Shl(i, 128 - nodeBits, 64)) == i % Pow2(nodeBits - 64) * Pow2(128 - nodeBits)
    ensures Join64(left + i / Pow2(nodeBits - 64), i % Pow2(nodeBits - 64) * Pow2(128 - nodeBits))
         == Join64(left, 0) + i * Pow2(128 - nodeBits)
  {
    var d, e := Pow2(nodeBits - 64), Pow2(128 - nodeBits);
    OrUpperBits(left, i, 64 - clusterBits, nodeBits - 64);
    ShlTruncates(i, 128 - nodeBits, 64);
    BitwiseWithZero(OrOp, Shl(i, 128 - nodeBits, 64));
    DivMod(i, d);
    Pow2Add(nodeBits - 64, 128 - nodeBits);
    JoinStraddle(left, i / d, i % d, d, e);
  }

  lemma OrUpperBits(left: nat, i: nat, free: nat, n: nat)
    requires left % Pow2(free) == 0 && i < Pow2(free + n)
    ensures Or(left, Shr(i, n)) == left + i / Pow2(n)
  {
    Pow2Add(free, n);
    DivLess(i, Pow2(n), Pow2(free));
    DivMod(left, Pow2(free));
    OrDisjointIsAdd(left / Pow2(free), i / Pow2(n), free);
  }

  lemma JoinStraddle(left: nat, q: nat, r: nat, d: nat, e: nat)
    requires d * e == Pow2(64)
    ensures Join64(left + q, r * e) == Join64(left, 0) + (q * d + r) * e
  {
    MulDistrib(left, q, Pow2(64));
    MulDistrib(q * d, r, e);
    MulAssoc(q, d, e);
  }

  /** Block `index` of the cluster. The words give the arithmetic address in both families. */
  method IndexToCIDRBlock(cfg: Config, index: nat) returns (block: IPNet)
    requires cfg.Valid() && index < cfg.Max()
    ensures block == cfg.Block(index)
    ensures block.Valid()
  {
    var ip: nat;
    match cfg.cluster.family {
      case V4 => ip := IndexToIPv4(cfg, index);
      case V6 => ip := IndexToIPv6(cfg, index);
    }
    BlockIsValid(cfg, index);
    block := IPNet(cfg.cluster.family, ip, cfg.nodeMaskSize);
  }

  method IndexToIPv4(cfg: Config, index: nat) returns (ip: nat)
    requires cfg.Valid() && cfg.cluster.family.V4? && index < cfg.Max()
    ensures ip == cfg.cluster.ip + index * Pow2(32 - cfg.nodeMaskSize)
  {
    Pow2Mono(cfg.nodeMaskSize - cfg.cluster.maskSize, 32);
    DivUnique(index, Pow2(32), 0, index);
    OrShiftedIndex(cfg.cluster.ip, index, cfg.cluster.maskSize, cfg.nodeMaskSize, 32);
    var j := Shl(index % Pow2(32), 32 - cfg.nodeMaskSize, 32);
    ip := Or(cfg.cluster.ip, j);
  }

  /** The two 64-bit words give 128-bit arithmetic in each of the cases left word only,
      straddling bit 64, and right word only. */
  method IndexToIPv6(cfg: Config, index: nat) returns (ip: nat)
    requires cfg.Valid() && cfg.cluster.family.V6? && index < cfg.Max()
    ensures ip == cfg.cluster.ip + index * Pow2(128 - cfg.nodeMaskSize)
  {
    var leftClusterIP := Left64(cfg.cluster.ip);
    var rightClusterIP := Right64(cfg.cluster.ip);
    if cfg.nodeMaskSize <= 64 {
      LeftOnly(cfg, index);
      leftClusterIP := Or(leftClusterIP, Shl(index, 64 - cfg.nodeMaskSize, 64));
    } else {
      if cfg.cluster.maskSize < 64 {
        Straddles(cfg, index);
        var btl := cfg.nodeMaskSize - 64;
        var indexMaxBit := BitLen(index);
        if indexMaxBit > btl {
          leftClusterIP := Or(leftClusterIP, Shr(index, btl));
        } else {
          ShrOfShortWord(index, btl);
        }
      } else {
        RightOnly(cfg, index);
      }
      rightClusterIP := Or(rightClusterIP, Shl(index, 128 - cfg.nodeMaskSize, 64));
    }
    ip := Join64(leftClusterIP, rightClusterIP);
  }

  lemma LeftOnly(cfg: Config, index: nat)
    requires cfg.Valid() && cfg.cluster.family.V6? && index < cfg.Max() && cfg.nodeMaskSize <= 64
    ensures Join64(Or(Left64(cfg.cluster.ip), Shl(index, 64 - cfg.nodeMaskSize, 64)), Right64(cfg.cluster.ip))
         == cfg.cluster.ip + index * Pow2(128 - cfg.nodeMaskSize)
  {
    var left, right := Left64(cfg.cluster.ip), Right64(cfg.cluster.ip);
    AlignedHalves(cfg.cluster.ip, cfg.cluster.maskSize);
    OrShiftedIndex(left, index, cfg.cluster.maskSize, cfg.nodeMaskSize, 64);
    LeftOffset(left, right, index, cfg.nodeMaskSize);
  }

  lemma Straddles(cfg: Config, index: nat)
    requires cfg.Valid() && cfg.cluster.family.V6? && index < cfg.Max()
    requires cfg.cluster.maskSize < 64 < cfg.nodeMaskSize
    ensures var ip, n := cfg.cluster.ip, cfg.nodeMaskSize;
              Join64(Or(Left64(ip), Shr(index, n - 64)), Or(Right64(ip), Shl(index, 128 - n, 64)))
              == ip + index * Pow2(128 - n)
    ensures Or(Left64(cfg.cluster.ip), 0) == Left64(cfg.cluster.ip)
  {
    AlignedHalves(cfg.cluster.ip, cfg.cluster.maskSize);
    StraddlingIndex(Left64(cfg.cluster.ip), index, cfg.cluster.maskSize, cfg.nodeMaskSize);
    BitwiseWithZero(OrOp, Left64(cfg.cluster.ip));
  }

  lemma RightOnly(cfg: Config, index: nat)
    requires cfg.Valid() && cfg.cluster.family.V6? && index < cfg.Max() && 64 <= cfg.cluster.maskSize
    ensures Join64(Left64(cfg.cluster.ip), Or(Right64(cfg.cluster.ip), Shl(index, 128 - cfg.nodeMaskSize, 64)))
         == cfg.cluster.ip + index * Pow2(128 - cfg.nodeMaskSize)
  {
    AlignedHalves(cfg.cluster.ip, cfg.cluster.maskSize);
    OrShiftedIndex(Right64(cfg.cluster.ip), index, cfg.cluster.maskSize - 64, cfg.nodeMaskSize - 64, 64);
  }

  lemma LeftOffset(left: nat, right: nat, i: nat, nodeBits: nat)
    requires nodeBits <= 64
    ensures Join64(left + i * Pow2(64 - nodeBits), right) == Join64(left, right) + i * Pow2(128 - nodeBits)
  {
    Pow2Add(64 - nodeBits, 64);
    MulDistrib(left, i * Pow2(64 - nodeBits), Pow2(64));
    MulAssoc(i, Pow2(64 - nodeBits), Pow2(64));
  }

  // ---- from an address to an index ----

  /** What the lookup can tell of the number of the block an address lies in: all of it for
      IPv4, the low 64 bits for IPv6. */
  function SeenBlockNumber(cfg: Config, address: nat): nat
    requires cfg.Valid()
  {
    if cfg.cluster.family.V4? then BlockNumber(cfg, address) else Low(BlockNumber(cfg, address), 64)
  }

  /** The lookup sees no difference between the address and the cluster above the index bits. */
  predicate SamePrefixSeen(cfg: Config, address: nat)
    requires cfg.Valid()
  {
    var m := cfg.nodeMaskSize - cfg.cluster.maskSize;
    Shr(SeenBlockNumber(cfg, address), m) == Shr(SeenBlockNumber(cfg, cfg.cluster.ip), m)
  }

  /** Truncation to 64 bits keeps the index bits of the cluster's own block number zero. */
  lemma SeenClusterNumber(cfg: Config)
    requires cfg.Valid()
    ensures SeenBlockNumber(cfg, cfg.cluster.ip)
         == Shr(SeenBlockNumber(cfg, cfg.cluster.ip), cfg.nodeMaskSize - cfg.cluster.maskSize) * cfg.Max()
  {
    var u, m := BlockNumber(cfg, cfg.cluster.ip), cfg.nodeMaskSize - cfg.cluster.maskSize;
    ClusterNumbers(cfg);
    DivUnique(u, Pow2(m), cfg.cluster.ip / cfg.cluster.Size(), 0);
    if cfg.cluster.family.V6? {
      TruncatedDigits(u, m, 64);
      DivMod(Low(u, 64), Pow2(m));
    }
  }

  lemma TruncatedDigits(v: nat, m: nat, w: nat)
    requires m <= w
    ensures Low(Low(v, w), m) == Low(v, m)
    ensures Shr(Low(v, w), m) == Low(Shr(v, m), w - m)
  {
    var d, e := Pow2(m), Pow2(w - m);
    Pow2Add(w - m, m);
    DivDiv(v, d, e);
    DivUnique(Low(v, w), d, Low(Shr(v, m), w - m), Low(v, m));
  }

  /** The answer of an index lookup. */
  function Lookup(cfg: Config, address: nat): Option<nat>
    requires cfg.Valid()
  {
    if cfg.Lookupable() && SamePrefixSeen(cfg, address)
    then Some(Low(BlockNumber(cfg, address), cfg.nodeMaskSize - cfg.cluster.maskSize))
    else None
  }

  /** In the cluster the lookup finds the index, unless the set is not lookupable. */
  lemma LookupFindsIndex(cfg: Config, address: nat)
    requires cfg.Valid() && cfg.cluster.Has(address)
    ensures 0 <= IndexOf(cfg, address) < cfg.Max()
    ensures Lookup(cfg, address) == if cfg.Lookupable() then Some(IndexOf(cfg, address)) else None
  {
    LookupInCluster(cfg, address);
    IndexIsLowBits(cfg, address);
  }

  /** For IPv4 the lookup finds the addresses of the cluster and no other. */
  lemma LookupIsExactForIPv4(cfg: Config, address: nat)
    requires cfg.Valid() && cfg.cluster.family.V4?
    ensures Lookup(cfg, address).Some? <==> cfg.cluster.Has(address) && cfg != Config(IPNet(V4, 0, 0), 32)
  {
    NotLookupableIff(cfg);
    HasByBlockNumber(cfg, address);
    HasByBlockNumber(cfg, cfg.cluster.ip);
  }

  /** The index of the block of an address. Inside the cluster it is found, unless the set is
      not lookupable. Outside, IPv4 reports an error, while IPv6 compares only the low 64 bits
      of the block numbers. */
  method GetIndexForIP(cfg: Config, ip: nat) returns (index: Option<nat>)
    requires cfg.Valid() && ip < Pow2(cfg.Width())
    ensures cfg.cluster.Has(ip) ==> (index.Some? <==> cfg.Lookupable())
    ensures cfg.cluster.Has(ip) && index.Some? ==> index.value == IndexOf(cfg, ip)
    ensures index == Lookup(cfg, ip)
    ensures cfg.cluster.family.V4? ==> (index.Some? <==> cfg.cluster.Has(ip) && cfg != Config(IPNet(V4, 0, 0), 32))
    ensures cfg.cluster.family.V6? ==>
              (index.Some? <==> ip / cfg.BlockSize() % Pow2(64) / cfg.Max() == cfg.cluster.ip / cfg.BlockSize() % Pow2(64) / cfg.Max())
  {
    if cfg.cluster.family.V4? {
      LookupIsExactForIPv4(cfg, ip);
    }
    var maxCIDRs := cfg.Max();
    var cidrIndex: nat;
    LookupIsPrefixTest(cfg, ip);
    LookupInCluster(cfg, ip);
    IndexIsLowBits(cfg, ip);
    BlockCountFits(cfg);
    match cfg.cluster.family {
      case V4 =>
        cidrIndex := Shr(Xor(cfg.cluster.ip, ip), 32 - cfg.nodeMaskSize);
        if cidrIndex >= Low(maxCIDRs, 32) {
          return None;
        }
      case V6 =>
        var bigIP := Xor(cfg.cluster.ip, ip);
        bigIP := Shr(bigIP, 128 - cfg.nodeMaskSize);
        cidrIndex := Low(bigIP, 64);
        if cidrIndex >= Low(maxCIDRs, 64) {
          return None;
        }
    }
    return Some(cidrIndex);
  }

  /** Without the containment guard an IPv6 address outside the cluster can be taken for one
      inside: the lookup for the cluster ::/128 does not tell its address from 2^64. */
  lemma UnguardedLookupAliases(cfg: Config, address: nat)
    requires cfg == Config(IPNet(V6, 0, 128), 128) && address == Pow2(64)
    ensures cfg.Valid() && address < Pow2(128)
    ensures !cfg.cluster.Has(address) && SamePrefixSeen(cfg, address)
  {
    Pow2Succ(0);
    Pow2StrictMono(64, 128);
    DivUnique(0, 1, 0, 0);
    DivUnique(address, 1, address, 0);
    DivUnique(address, Pow2(64), 1, 0);
    DivUnique(0, Pow2(64), 0, 0);
  }

  /** The XOR of the cluster address and another, shifted to block numbers and cut to a word. */
  function SeenXor(cfg: Config, ip: nat): nat
    requires cfg.Valid()
  {
    var shifted := Shr(Xor(cfg.cluster.ip, ip), cfg.Width() - cfg.nodeMaskSize);
    if cfg.cluster.family.V4? then shifted else Low(shifted, 64)
  }

  /** The XOR-and-shift value, truncated for IPv6, is below the block count exactly when the
      lookup sees the cluster prefix, and then it is made of the index bits. */
  lemma LookupIsPrefixTest(cfg: Config, ip: nat)
    requires cfg.Valid()
    ensures SeenXor(cfg, ip) < cfg.Max() <==> SamePrefixSeen(cfg, ip)
    ensures SeenXor(cfg, ip) < cfg.Max() ==>
              SeenXor(cfg, ip) == Low(BlockNumber(cfg, ip), cfg.nodeMaskSize - cfg.cluster.maskSize)
  {
    var u, v := SeenBlockNumber(cfg, cfg.cluster.ip), SeenBlockNumber(cfg, ip);
    var m := cfg.nodeMaskSize - cfg.cluster.maskSize;
    SeenClusterNumber(cfg);
    XorWithPrefix(Shr(u, m), v, m);
    ShiftedXorIsSeen(cfg, ip);
    if cfg.cluster.family.V6? {
      TruncatedDigits(BlockNumber(cfg, ip), m, 64);
    }
  }

  lemma ShiftedXorIsSeen(cfg: Config, ip: nat)
    requires cfg.Valid()
    ensures SeenXor(cfg, ip) == Xor(SeenBlockNumber(cfg, cfg.cluster.ip), SeenBlockNumber(cfg, ip))
  {
    var h := cfg.Width() - cfg.nodeMaskSize;
    BitwiseDivMod(XorOp, cfg.cluster.ip, ip, h);
    BitwiseDivMod(XorOp, Shr(cfg.cluster.ip, h), Shr(ip, h), 64);
  }

  /** The 32-bit and 64-bit copies of the block count. */
  lemma BlockCountFits(cfg: Config)
    requires cfg.Valid()
    ensures cfg.cluster.family.V4? ==> Low(cfg.Max(), 32) == if cfg.Lookupable() then cfg.Max() else 0
    ensures cfg.cluster.family.V6? ==> Low(cfg.Max(), 64) == cfg.Max()
  {
    var m, w := cfg.nodeMaskSize - cfg.cluster.maskSize, if cfg.cluster.family.V4? then 32 else 64;
    if m < w {
      Pow2StrictMono(m, w);
      DivUnique(cfg.Max(), Pow2(w), 0, cfg.Max());
    } else {
      DivUnique(cfg.Max(), Pow2(w), 1, 0);
    }
  }

  lemma LookupInCluster(cfg: Config, ip: nat)
    requires cfg.Valid()
    ensures cfg.cluster.Has(ip) ==> SamePrefixSeen(cfg, ip)
  {
    var m := cfg.nodeMaskSize - cfg.cluster.maskSize;
    HasByBlockNumber(cfg, ip);
    HasByBlockNumber(cfg, cfg.cluster.ip);
    if cfg.cluster.family.V6? {
      TruncatedDigits(BlockNumber(cfg, ip), m, 64);
      TruncatedDigits(BlockNumber(cfg, cfg.cluster.ip), m, 64);
    }
  }

  // ---- from a CIDR to a range of indices ----

  /** The containment guard is an intersection test. */
  lemma GuardIsIntersects(cfg: Config, cidr: IPNet)
    requires cfg.Valid() && cidr.Valid() && cidr.family == cfg.cluster.family
    ensures Intersects(cfg.cluster, cidr)
       <==> || Contains(cfg.cluster, ApplyMask(cidr.ip, cfg.cluster.maskSize, cfg.Width()))
            || Contains(cidr, ApplyMask(cfg.cluster.ip, cidr.maskSize, cfg.Width()))
  {
    var cluster, w := cfg.cluster, cfg.Width();
    ApplyMaskClears(cidr.ip, cluster.maskSize, w);
    ContainsIsHas(cluster, ApplyMask(cidr.ip, cluster.maskSize, w));
    ApplyMaskClears(cluster.ip, cidr.maskSize, w);
    ContainsIsHas(cidr, ApplyMask(cluster.ip, cidr.maskSize, w));
    assert cluster.Has(cluster.ip) && cidr.Has(cidr.ip);
    if cluster.maskSize <= cidr.maskSize {
      Laminar(cluster, cidr);
    } else {
      Laminar(cidr, cluster);
    }
  }

  /** The last address of a CIDR, ORed together from one 32-bit or two 64-bit words. */
  method LastAddress(cidr: IPNet) returns (last: nat)
    requires cidr.Valid()
    ensures last == cidr.ip + (cidr.Size() - 1)
  {
    match cidr.family {
      case V4 =>
        OrNotMaskIsLast(cidr.ip, cidr.maskSize, 32);
        last := Or(cidr.ip, Not(MaskWord(cidr.maskSize, 32), 32));
      case V6 =>
        last := LastIPv6Address(cidr.ip, cidr.maskSize);
    }
  }

  method LastIPv6Address(ip: nat, maskSize: nat) returns (last: nat)
    requires maskSize <= 128 && ip < Pow2(128) && ip % Pow2(128 - maskSize) == 0
    ensures last == ip + (Pow2(128 - maskSize) - 1)
  {
    HalfMasks(ip, maskSize);
    var mask := MaskWord(maskSize, 128);
    var left := Or(Left64(ip), Not(Left64(mask), 64));
    var right := Or(Right64(ip), Not(Right64(mask), 64));
    LastHalves(ip, maskSize);
    last := Join64(left, right);
  }

  lemma HalfMasks(ip: nat, m: nat)
    requires m <= 128 && ip < Pow2(128) && ip % Pow2(128 - m) == 0
    ensures var mask := MaskWord(m, 128);
            && Left64(mask) < Pow2(64) && Right64(mask) < Pow2(64)
            && Or(Left64(ip), Not(Left64(mask), 64)) == Left64(ip) + (LeftHostSize(m) - 1)
            && Or(Right64(ip), Not(Right64(mask), 64)) == Right64(ip) + (RightHostSize(m) - 1)
  {
    LeftHalfMask(ip, m);
    RightHalfMask(ip, m);
  }

  lemma LeftHalfMask(ip: nat, m: nat)
    requires m <= 128 && ip < Pow2(128) && ip % Pow2(128 - m) == 0
    ensures Left64(MaskWord(m, 128)) < Pow2(64)
    ensures Or(Left64(ip), Not(Left64(MaskWord(m, 128)), 64)) == Left64(ip) + (LeftHostSize(m) - 1)
  {
    MaskHalves(m);
    AlignedHalves(ip, m);
    if m <= 64 {
      LastInWord(Left64(ip), Left64(MaskWord(m, 128)), m);
    } else {
      Pow2Succ(0);
      DivUnique(Left64(ip), 1, Left64(ip), 0);
      LastInWord(Left64(ip), Left64(MaskWord(m, 128)), 64);
    }
  }

  lemma RightHalfMask(ip: nat, m: nat)
    requires m <= 128 && ip < Pow2(128) && ip % Pow2(128 - m) == 0
    ensures Right64(MaskWord(m, 128)) < Pow2(64)
    ensures Or(Right64(ip), Not(Right64(MaskWord(m, 128)), 64)) == Right64(ip) + (RightHostSize(m) - 1)
  {
    MaskHalves(m);
    AlignedHalves(ip, m);
    if m <= 64 {
      DivUnique(0, Pow2(64), 0, 0);
      LastInWord(Right64(ip), Right64(MaskWord(m, 128)), 0);
    } else {
      LastInWord(Right64(ip), Right64(MaskWord(m, 128)), m - 64);
    }
  }

  lemma LastInWord(word: nat, mask: nat, ones: nat)
    requires ones <= 64 && mask == MaskWord(ones, 64)
    requires word < Pow2(64) && word % Pow2(64 - ones) == 0
    ensures mask < Pow2(64) && Or(word, Not(mask, 64)) == word + (Pow2(64 - ones) - 1)
  {
    OrNotMaskIsLast(word, ones, 64);
  }

  /** The part of a host range of 128 - m bits in the left and in the right word. */
  function LeftHostSize(m: nat): nat { if m <= 64 then Pow2(64 - m) else 1 }

  function RightHostSize(m: nat): nat
    requires m <= 128
  {
    if m <= 64 then Pow2(64) else Pow2(128 - m)
  }

  lemma LastHalves(ip: nat, m: nat)
    requires m <= 128 && ip < Pow2(128) && ip % Pow2(128 - m) == 0
    ensures Join64(Left64(ip) + (LeftHostSize(m) - 1), Right64(ip) + (RightHostSize(m) - 1))
         == ip + (Pow2(128 - m) - 1)
  {
    AlignedHalves(ip, m);
    if m <= 64 {
      Pow2Add(64 - m, 64);
      MulDistrib(Left64(ip), Pow2(64 - m) - 1, Pow2(64));
      MulDistrib(Pow2(64 - m), -1, Pow2(64));
    }
  }

  /** The guard makes the lookup alias-free: for an address of the cluster the shifted XOR, before
      any truncation to a machine word, is already the index and below the block count. */
  lemma GuardedLookupIsExact(cfg: Config, address: nat)
    requires cfg.Valid() && cfg.cluster.Has(address)
    ensures Shr(Xor(cfg.cluster.ip, address), cfg.Width() - cfg.nodeMaskSize) == IndexOf(cfg, address)
    ensures 0 <= IndexOf(cfg, address) < cfg.Max()
  {
    BitwiseDivMod(XorOp, cfg.cluster.ip, address, cfg.Width() - cfg.nodeMaskSize);
    XorOfNumbers(cfg, address);
    IndexIsLowBits(cfg, address);
  }

  lemma XorOfNumbers(cfg: Config, address: nat)
    requires cfg.Valid() && cfg.cluster.Has(address)
    ensures Xor(BlockNumber(cfg, cfg.cluster.ip), BlockNumber(cfg, address))
         == Low(BlockNumber(cfg, address), cfg.nodeMaskSize - cfg.cluster.maskSize)
  {
    var k := cfg.cluster.ip / cfg.cluster.Size();
    ClusterNumbers(cfg);
    HasByBlockNumber(cfg, address);
    XorUnderPrefix(BlockNumber(cfg, cfg.cluster.ip), k, BlockNumber(cfg, address), cfg.nodeMaskSize - cfg.cluster.maskSize);
  }

  lemma XorUnderPrefix(u: nat, hi: nat, v: nat, m: nat)
    requires u == hi * Pow2(m) && v / Pow2(m) == hi
    ensures Xor(u, v) == Low(v, m)
  {
    XorWithPrefix(hi, v, m);
  }

  /** Clearing the bits below the block size changes neither the block nor the membership. */
  lemma NodeMaskKeepsBlock(cfg: Config, address: nat)
    requires cfg.Valid() && address < Pow2(cfg.Width())
    ensures ApplyMask(address, cfg.nodeMaskSize, cfg.Width()) < Pow2(cfg.Width())
    ensures IndexOf(cfg, ApplyMask(address, cfg.nodeMaskSize, cfg.Width())) == IndexOf(cfg, address)
    ensures cfg.cluster.Has(ApplyMask(address, cfg.nodeMaskSize, cfg.Width())) == cfg.cluster.Has(address)
  {
    ApplyMaskClears(address, cfg.nodeMaskSize, cfg.Width());
    HasByBlockNumber(cfg, address);
    HasByBlockNumber(cfg, ApplyMask(address, cfg.nodeMaskSize, cfg.Width()));
  }

  /** A CIDR narrower than the cluster and meeting it starts and ends inside it. */
  lemma NarrowEndsInside(cfg: Config, cidr: IPNet)
    requires cfg.Valid() && cidr.Valid() && cidr.family == cfg.cluster.family
    requires cfg.cluster.maskSize < cidr.maskSize && Intersects(cfg.cluster, cidr)
    ensures cfg.cluster.Has(cidr.ip) && cfg.cluster.Has(cidr.ip + (cidr.Size() - 1))
    ensures cidr.ip + (cidr.Size() - 1) < Pow2(cfg.Width())
    ensures IndexOf(cfg, cidr.ip) <= IndexOf(cfg, cidr.ip + (cidr.Size() - 1))
  {
    var last := cidr.ip + (cidr.Size() - 1);
    Laminar(cfg.cluster, cidr);
    HasIsInterval(cfg.cluster, last);
    RangeFits(cidr);
    DivMono(cidr.ip, last, cfg.BlockSize());
  }

  /** The indices of the blocks a CIDR touches. It succeeds exactly when the CIDR is accepted,
      and then a block is in the range exactly when it shares an address with the CIDR. */
  method GetBeginningAndEndIndices(cfg: Config, cidr: IPNet) returns (range: Option<(nat, nat)>)
    requires cfg.Valid() && cidr.Valid() && cidr.family == cfg.cluster.family
    ensures range.Some? <==> cfg.Accepts(cidr)
    ensures cfg != Config(IPNet(V4, 0, 0), 32) ==>
              (range.Some? <==> exists address: nat :: cfg.cluster.Has(address) && cidr.Has(address))
    ensures cfg == Config(IPNet(V4, 0, 0), 32) ==> (range.Some? <==> cidr.maskSize == 0)
    ensures range.Some? ==> range.value.0 <= range.value.1 < cfg.Max()
    ensures range.Some? ==> forall i: nat :: range.value.0 <= i <= range.value.1 <==> i in cfg.BlocksOf(cidr)
  {
    var begin, end := 0, cfg.Max() - 1;
    AcceptsMeans(cfg, cidr);
    GuardIsIntersects(cfg, cidr);
    if && !Contains(cfg.cluster, ApplyMask(cidr.ip, cfg.cluster.maskSize, cfg.Width()))
       && !Contains(cidr, ApplyMask(cfg.cluster.ip, cidr.maskSize, cfg.Width()))
    {
      return None;
    }
    if cfg.cluster.maskSize < cidr.maskSize {
      ghost var lastAddress := cidr.ip + (cidr.Size() - 1);
      NarrowEndsInside(cfg, cidr);
      NodeMaskKeepsBlock(cfg, cidr.ip);
      NodeMaskKeepsBlock(cfg, lastAddress);
      var index := GetIndexForIP(cfg, ApplyMask(cidr.ip, cfg.nodeMaskSize, cfg.Width()));
      if index.None? {
        return None;
      }
      begin := index.value;
      var last := LastAddress(cidr);
      index := GetIndexForIP(cfg, ApplyMask(last, cfg.nodeMaskSize, cfg.Width()));
      if index.None? {
        return None;
      }
      end := index.value;
      IndexIsLowBits(cfg, lastAddress);
      NarrowRange(cfg, cidr);
    } else {
      WideRange(cfg, cidr);
    }
    return Some((begin, end));
  }

  lemma NarrowRange(cfg: Config, cidr: IPNet)
    requires cfg.Valid() && cidr.Valid() && cidr.family == cfg.cluster.family
    requires cfg.cluster.maskSize < cidr.maskSize && Intersects(cfg.cluster, cidr)
    ensures forall i: nat :: i in cfg.BlocksOf(cidr)
              <==> IndexOf(cfg, cidr.ip) <= i <= IndexOf(cfg, cidr.ip + (cidr.Size() - 1))
  {
    var last := cidr.ip + (cidr.Size() - 1);
    NarrowEndsInside(cfg, cidr);
    IndexIsLowBits(cfg, last);
    forall i: nat
      ensures i in cfg.BlocksOf(cidr) <==> IndexOf(cfg, cidr.ip) <= i <= IndexOf(cfg, last)
    {
      if i < cfg.Max() {
        RangeIsExact(cfg, cidr, i);
      }
    }
  }

  lemma WideRange(cfg: Config, cidr: IPNet)
    requires cfg.Valid() && cidr.Valid() && cidr.maskSize <= cfg.cluster.maskSize
    requires Intersects(cfg.cluster, cidr)
    ensures forall i: nat :: i in cfg.BlocksOf(cidr) <==> i < cfg.Max()
  {
    forall i: nat | i < cfg.Max()
      ensures i in cfg.BlocksOf(cidr)
    {
      WideTouchesAll(cfg, cidr, i);
    }
  }
}
