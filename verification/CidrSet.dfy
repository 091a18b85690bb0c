/** The block allocator. Its state is read as a NextFit.Bitmap; every method is proved against
    the operations on bitmaps and the arithmetic blocks. */
module CidrSets {
  import Words
  import opened Networks
  import opened Blocks
  import opened CidrIndex
  import opened NextFit

  class CidrSet {
    const cfg: Config
    const maxCIDRs: nat
    var allocatedCIDRs: nat
    var nextCandidate: nat
    const used: array<bool>

    // the metrics: counters of set and cleared bits, and the tries of each allocation
    var allocations: nat
    var releases: nat
    var tries: seq<nat>

    ghost function UsedSet(): set<nat>
      reads used
    {
      set i: nat | i < used.Length && used[i]
    }

    ghost function View(): Bitmap
      reads this, used
    {
      Bitmap(maxCIDRs, UsedSet(), nextCandidate)
    }

    /** The count is the number of set bits and the difference of the two counters. */
    ghost predicate Valid()
      reads this, used
    {
      && cfg.Valid()
      && maxCIDRs == cfg.Max() == used.Length
      && nextCandidate < maxCIDRs
      && allocatedCIDRs == |UsedSet()|
      && allocations == releases + allocatedCIDRs
    }

    constructor (cfg: Config)
      requires cfg.Valid()
      ensures Valid() && fresh(used)
      ensures this.cfg == cfg && View() == Fresh(cfg.Max())
      ensures UsedSet() == {} && nextCandidate == 0 && allocatedCIDRs == 0
      ensures allocations == releases == 0 && tries == []
    {
      this.cfg := cfg;
      maxCIDRs := cfg.Max();
      used := new bool[cfg.Max()](_ => false);
      allocatedCIDRs, nextCandidate := 0, 0;
      allocations, releases, tries := 0, 0, [];
    }

    /** NewCIDRSet; the caller must not pass a node mask shorter than the cluster mask. */
    static method New(clusterCIDR: IPNet, subNetMaskSize: nat) returns (s: CidrSet?)
      requires clusterCIDR.Valid()
      requires clusterCIDR.maskSize <= subNetMaskSize <= clusterCIDR.family.Width()
      ensures s == null <==> clusterCIDR.family.V6? && subNetMaskSize > clusterCIDR.maskSize + 16
      ensures s != null ==> fresh(s) && fresh(s.used) && s.Valid()
      ensures s != null ==> s.cfg == Config(clusterCIDR, subNetMaskSize) && s.View() == Fresh(s.cfg.Max())
      ensures s != null ==> s.UsedSet() == {} && s.nextCandidate == 0
      ensures s != null && clusterCIDR.family.V6? ==> s.maxCIDRs <= 65536
      ensures s != null && subNetMaskSize == clusterCIDR.maskSize + 16 ==> s.maxCIDRs == 65536
    {
      if clusterCIDR.family.V6? && subNetMaskSize - clusterCIDR.maskSize > CLUSTER_SUBNET_MAX_DIFF {
        return null;
      }
      SixteenBits(subNetMaskSize - clusterCIDR.maskSize);
      s := new CidrSet(Config(clusterCIDR, subNetMaskSize));
    }

    lemma ViewIsValid()
      requires Valid()
      ensures View().Valid()
      ensures allocatedCIDRs <= maxCIDRs
      ensures allocatedCIDRs == maxCIDRs <==> View().Full()
    {
      FullIsCount(View());
    }

    method SetBit(i: nat)
      requires Valid() && i < maxCIDRs && !used[i]
      modifies this`allocatedCIDRs, this`allocations, used
      ensures Valid() && UsedSet() == old(UsedSet()) + {i}
      ensures allocations == old(allocations) + 1
      ensures forall j :: 0 <= j < used.Length && j != i ==> used[j] == old(used[j])
    {
      used[i] := true;
      allocatedCIDRs := allocatedCIDRs + 1;
      allocations := allocations + 1;
      assert UsedSet() == old(UsedSet()) + {i};
    }

    method ClearBit(i: nat)
      requires Valid() && i < maxCIDRs && used[i]
      modifies this`allocatedCIDRs, this`releases, used
      ensures Valid() && UsedSet() == old(UsedSet()) - {i}
      ensures releases == old(releases) + 1
      ensures forall j :: 0 <= j < used.Length && j != i ==> used[j] == old(used[j])
    {
      ghost var before := UsedSet();
      assert i in before;
      used[i] := false;
      assert UsedSet() == before - {i};
      RemoveCount(before, i);
      allocatedCIDRs := allocatedCIDRs - 1;
      releases := releases + 1;
    }

    /** The circular scan of AllocateNext: it ends at the first free block, never by exhausting
        the loop, after as many tries as the circular distance. */
    method Scan() returns (candidate: nat, i: nat)
      requires Valid() && allocatedCIDRs != maxCIDRs
      ensures View().Valid() && View().IsNextFree(candidate)
      ensures i == Dist(maxCIDRs, nextCandidate, candidate)
    {
      ViewIsValid();
      candidate, i := nextCandidate, 0;
      while i < maxCIDRs
        invariant i <= maxCIDRs && candidate < maxCIDRs
        invariant candidate == if nextCandidate + i < maxCIDRs then nextCandidate + i else nextCandidate + i - maxCIDRs
        invariant forall j: nat :: j < maxCIDRs && Dist(maxCIDRs, nextCandidate, j) < i ==> used[j]
      {
        if !used[candidate] {
          break;
        }
        SuccIsMod(maxCIDRs, candidate);
        candidate := (candidate + 1) % maxCIDRs;
        i := i + 1;
      }
      if i == maxCIDRs {
        assert false;
      }
    }

    /** Returns the first free block in circular order from the candidate pointer, or None
        exactly when every block is used; the tries recorded are the circular distance. */
    method AllocateNext() returns (block: Option<IPNet>)
      requires Valid()
      modifies this`allocatedCIDRs, this`nextCandidate, this`allocations, this`tries, used
      ensures Valid() && old(View()).Valid()
      ensures View() == old(View()).Allocate().0
      ensures block.None? <==> old(View()).Full()
      ensures block.Some? ==> block.value.Valid() && block.value == cfg.Block(old(View()).NextFree())
      ensures releases == old(releases)
      ensures allocations == old(allocations) + (if block.Some? then 1 else 0)
      ensures block.None? ==> tries == old(tries)
      ensures block.Some? ==>
                tries == old(tries) + [Dist(maxCIDRs, old(nextCandidate), old(View()).NextFree())]
      // the same over the fields
      ensures block.None? <==> forall i: nat :: i < maxCIDRs ==> i in old(UsedSet())
      ensures block.None? ==> UsedSet() == old(UsedSet()) && nextCandidate == old(nextCandidate)
      ensures block.Some? ==>
                && |tries| > 0 && tries[|tries| - 1] < maxCIDRs
                && var from, t := old(nextCandidate), tries[|tries| - 1];
                   var i := if from + t < maxCIDRs then from + t else from + t - maxCIDRs;
                   && block.value == cfg.Block(i) && i !in old(UsedSet()) && UsedSet() == old(UsedSet()) + {i}
                   && nextCandidate == (if i + 1 == maxCIDRs then 0 else i + 1)
                   && (from <= i ==> forall j: nat :: from <= j < i ==> j in old(UsedSet()))
                   && (i < from ==> forall j: nat :: from <= j < maxCIDRs || j < i ==> j in old(UsedSet()))
    {
      ViewIsValid();
      if allocatedCIDRs == maxCIDRs {
        return None;
      }
      var candidate, i := Scan();
      NextFreeIsUnique(View(), candidate);
      PassedOverAreUsed(View(), candidate);
      SuccIsMod(maxCIDRs, candidate);
      nextCandidate := (candidate + 1) % maxCIDRs;
      SetBit(candidate);
      tries := tries + [i];
      var net := IndexToCIDRBlock(cfg, candidate);
      block := Some(net);
    }

    /** Marks exactly the blocks a CIDR touches as used; a CIDR that is not accepted is an
        error and changes nothing. Bits already set are not counted again. */
    method Occupy(cidr: IPNet) returns (ok: bool)
      requires Valid() && cidr.Valid() && cidr.family == cfg.cluster.family
      modifies this`allocatedCIDRs, this`allocations, used
      ensures Valid()
      ensures ok <==> cfg.Accepts(cidr)
      ensures View() == if ok then old(View()).Occupy(cfg.BlocksOf(cidr)) else old(View())
      ensures cfg != Config(IPNet(V4, 0, 0), 32) ==>
                (ok <==> exists address: nat :: cfg.cluster.Has(address) && cidr.Has(address))
      ensures cfg == Config(IPNet(V4, 0, 0), 32) ==> (ok <==> cidr.maskSize == 0)
      ensures forall i: nat :: i < maxCIDRs ==>
                (i in UsedSet() <==> i in old(UsedSet()) || (ok && exists address: nat :: cfg.Block(i).Has(address) && cidr.Has(address)))
      ensures releases == old(releases)
      ensures allocations == old(allocations) + if ok then |cfg.BlocksOf(cidr) - old(UsedSet())| else 0
    {
      var range := GetBeginningAndEndIndices(cfg, cidr);
      if range.None? {
        return false;
      }
      SetTouched(range.value.0, range.value.1, cfg.BlocksOf(cidr));
      OccupyInRange(old(View()), cfg.BlocksOf(cidr));
      TouchedMeans(cfg, cidr, old(UsedSet()));
      return true;
    }

    method SetTouched(begin: nat, end: nat, ghost touched: set<nat>)
      requires Valid() && begin <= end < maxCIDRs
      requires forall i: nat :: begin <= i <= end <==> i in touched
      modifies this`allocatedCIDRs, this`allocations, used
      ensures Valid() && UsedSet() == old(UsedSet()) + touched
      ensures allocations == old(allocations) + |touched - old(UsedSet())|
    {
      IntervalIs(begin, end, touched);
      UnionCount(UsedSet(), touched);
      SetRange(begin, end);
    }

    method SetRange(begin: nat, end: nat)
      requires Valid() && begin <= end < maxCIDRs
      modifies this`allocatedCIDRs, this`allocations, used
      ensures Valid() && UsedSet() == old(UsedSet()) + Interval(begin, end)
    {
      ghost var before := UsedSet();
      var i := begin;
      while i <= end
        invariant begin <= i <= end + 1
        invariant Valid() && UsedSet() == before + Interval(begin, i - 1)
      {
        IntervalNext(begin, i);
        SetIfClear(i);
        i := i + 1;
      }
    }

    method SetIfClear(i: nat)
      requires Valid() && i < maxCIDRs
      modifies this`allocatedCIDRs, this`allocations, used
      ensures Valid() && UsedSet() == old(UsedSet()) + {i}
    {
      if !used[i] {
        SetBit(i);
      } else {
        assert i in UsedSet();
      }
    }

    /** Clears exactly the blocks a CIDR touches; a CIDR that is not accepted is an error and
        changes nothing. Bits already clear are not counted again. */
    method Release(cidr: IPNet) returns (ok: bool)
      requires Valid() && cidr.Valid() && cidr.family == cfg.cluster.family
      modifies this`allocatedCIDRs, this`releases, used
      ensures Valid()
      ensures ok <==> cfg.Accepts(cidr)
      ensures View() == if ok then old(View()).Release(cfg.BlocksOf(cidr)) else old(View())
      ensures cfg != Config(IPNet(V4, 0, 0), 32) ==>
                (ok <==> exists address: nat :: cfg.cluster.Has(address) && cidr.Has(address))
      ensures cfg == Config(IPNet(V4, 0, 0), 32) ==> (ok <==> cidr.maskSize == 0)
      ensures forall i: nat :: i < maxCIDRs ==>
                (i in UsedSet() <==> i in old(UsedSet()) && !(ok && exists address: nat :: cfg.Block(i).Has(address) && cidr.Has(address)))
      ensures allocations == old(allocations)
      ensures releases == old(releases) + if ok then |cfg.BlocksOf(cidr) * old(UsedSet())| else 0
    {
      var range := GetBeginningAndEndIndices(cfg, cidr);
      if range.None? {
        return false;
      }
      ClearTouched(range.value.0, range.value.1, cfg.BlocksOf(cidr));
      TouchedMeans(cfg, cidr, old(UsedSet()));
      return true;
    }

    method ClearTouched(begin: nat, end: nat, ghost touched: set<nat>)
      requires Valid() && begin <= end < maxCIDRs
      requires forall i: nat :: begin <= i <= end <==> i in touched
      modifies this`allocatedCIDRs, this`releases, used
      ensures Valid() && UsedSet() == old(UsedSet()) - touched
      ensures releases == old(releases) + |touched * old(UsedSet())|
    {
      IntervalIs(begin, end, touched);
      SplitCount(UsedSet(), touched);
      ClearRange(begin, end);
    }

    method ClearRange(begin: nat, end: nat)
      requires Valid() && begin <= end < maxCIDRs
      modifies this`allocatedCIDRs, this`releases, used
      ensures Valid() && UsedSet() == old(UsedSet()) - Interval(begin, end)
    {
      ghost var before := UsedSet();
      var i := begin;
      while i <= end
        invariant begin <= i <= end + 1
        invariant Valid() && UsedSet() == before - Interval(begin, i - 1)
      {
        IntervalNext(begin, i);
        RemoveOneMore(before, Interval(begin, i - 1), i);
        ClearIfSet(i);
        i := i + 1;
      }
    }

    method ClearIfSet(i: nat)
      requires Valid() && i < maxCIDRs
      modifies this`allocatedCIDRs, this`releases, used
      ensures Valid() && UsedSet() == old(UsedSet()) - {i}
    {
      if used[i] {
        ClearBit(i);
      } else {
        assert i !in UsedSet();
      }
    }
  }

  /** On the way from the candidate pointer to the first free position all positions are used. */
  lemma PassedOverAreUsed(m: Bitmap, i: nat)
    requires m.Valid() && m.IsNextFree(i)
    ensures m.next <= i ==> forall j: nat :: m.next <= j < i ==> j in m.used
    ensures i < m.next ==> forall j: nat :: m.next <= j < m.size || j < i ==> j in m.used
  {
    forall j: nat | if m.next <= i then m.next <= j < i else m.next <= j < m.size || j < i
      ensures j in m.used
    {
      assert Dist(m.size, m.next, j) < Dist(m.size, m.next, i);
      assert !m.IsFree(j);
    }
  }

  /** Which bits are set after a CIDR was occupied or released, by addresses. */
  lemma TouchedMeans(cfg: Config, cidr: IPNet, before: set<nat>)
    requires cfg.Valid() && cidr.Valid() && cidr.family == cfg.cluster.family
    ensures forall i: nat :: i < cfg.Max() ==>
              (i in before + cfg.BlocksOf(cidr)
              <==> i in before || exists address: nat :: cfg.Block(i).Has(address) && cidr.Has(address))
    ensures forall i: nat :: i < cfg.Max() ==>
              (i in before - cfg.BlocksOf(cidr)
              <==> i in before && !exists address: nat :: cfg.Block(i).Has(address) && cidr.Has(address))
  {
    forall i: nat | i < cfg.Max()
      ensures i in cfg.BlocksOf(cidr) <==> exists address: nat :: cfg.Block(i).Has(address) && cidr.Has(address)
    {
      BlocksOfMeans(cfg, cidr, i);
    }
  }

  lemma SixteenBits(m: nat)
    ensures Words.Pow2(16) == 65536
    ensures m <= 16 ==> Words.Pow2(m) <= 65536
  {
    Words.Pow2Add(8, 8);
    Words.Pow2Add(4, 4);
    Words.Pow2Add(2, 2);
    Words.Pow2Succ(0);
    Words.Pow2Succ(1);
    if m <= 16 {
      Words.Pow2Mono(m, 16);
    }
  }

  lemma SuccIsMod(size: nat, i: nat)
    requires i < size
    ensures (i + 1) % size == Succ(size, i)
  {
    if i + 1 < size {
      Words.DivUnique(i + 1, size, 0, i + 1);
    } else {
      Words.DivUnique(i + 1, size, 1, 0);
    }
  }

  /** The positions from begin to end, both included. */
  ghost function Interval(begin: nat, end: int): (s: set<nat>)
    requires end >= -1
    ensures forall i: nat :: i in s <==> begin <= i <= end
  {
    var below := Positions(end + 1);
    set i | i in below && begin <= i
  }

  lemma IntervalIs(begin: nat, end: nat, s: set<nat>)
    requires forall i: nat :: begin <= i <= end <==> i in s
    ensures Interval(begin, end) == s
  {
  }

  lemma OccupyInRange(m: Bitmap, touched: set<nat>)
    requires forall i :: i in touched ==> i < m.size
    ensures m.Occupy(touched) == m.(used := m.used + touched)
  {
    assert (set i | i in touched && i < m.size) == touched;
  }

  lemma UnionCount(s: set<nat>, t: set<nat>)
    ensures |s + t| == |s| + |t - s|
  {
    assert s + t == s + (t - s);
  }

  lemma IntervalNext(begin: nat, i: nat)
    requires begin <= i
    ensures Interval(begin, i) == Interval(begin, i - 1) + {i}
  {
  }

  lemma RemoveOneMore(s: set<nat>, t: set<nat>, i: nat)
    ensures s - t - {i} == s - (t + {i})
  {
  }

  lemma RemoveCount(s: set<nat>, i: nat)
    requires i in s
    ensures |s - {i}| == |s| - 1
  {
  }

  lemma SplitCount(s: set<nat>, t: set<nat>)
    ensures |s - t| == |s| - |t * s|
  {
    assert s == (s - t) + (t * s);
  }
}
