/** CIDR values: an address family, a network address aligned to its mask, and a mask size.
    Membership is by prefix; the interval form and the intersection test follow from it. */
module Networks {
  import opened Words

  datatype Option<+T> = None | Some(value: T)

  /** The family an address has after `To4`: V4 when `To4` is not nil, V6 otherwise. */
  datatype Family = V4 | V6 {
    function Width(): nat { if V4? then 32 else 128 }
  }

  datatype IPNet = IPNet(family: Family, ip: nat, maskSize: nat) {
    /** What `net.ParseCIDR` returns: the host bits of the address are zero. */
    predicate Valid() {
      && maskSize <= family.Width()
      && ip < Pow2(family.Width())
      && ip % Size() == 0
    }

    /** The number of addresses. */
    function Size(): nat
      requires maskSize <= family.Width()
    {
      Pow2(family.Width() - maskSize)
    }

    /** Membership: the address agrees with the network address on the leading mask bits. */
    predicate Has(address: nat)
      requires maskSize <= family.Width()
    {
      address / Size() == ip / Size()
    }
  }

  /** Two networks share an address. */
  ghost predicate Intersects(x: IPNet, y: IPNet)
    requires x.Valid() && y.Valid()
  {
    x.family == y.family && exists address: nat :: x.Has(address) && y.Has(address)
  }

  // ---- net.IPMask, net.IP.Mask and net.IPNet.Contains ----

  /** `net.CIDRMask(ones, width)` as a word: `ones` one bits and then zeros. */
  function MaskWord(ones: nat, width: nat): nat
    requires ones <= width
  {
    MulNat(Pow2(ones) - 1, Pow2(width - ones));
    (Pow2(ones) - 1) * Pow2(width - ones)
  }

  /** `net.IP.Mask`. */
  function ApplyMask(ip: nat, ones: nat, width: nat): nat
    requires ones <= width
  {
    And(ip, MaskWord(ones, width))
  }

  /** `net.IPNet.Contains` for an address of the same family. */
  predicate Contains(n: IPNet, address: nat)
    requires n.maskSize <= n.family.Width()
  {
    var mask := MaskWord(n.maskSize, n.family.Width());
    And(n.ip, mask) == And(address, mask)
  }

  // ---- `binary.BigEndian` on the two halves of a 16-byte address ----

  function Left64(ip: nat): nat { Shr(ip, 64) }

  function Right64(ip: nat): nat { Low(ip, 64) }

  function Join64(left: nat, right: nat): nat { left * Pow2(64) + right }

  // ---- lemmas ----

  lemma ApplyMaskClears(ip: nat, ones: nat, width: nat)
    requires ones <= width && ip < Pow2(width)
    ensures ApplyMask(ip, ones, width) == ip / Pow2(width - ones) * Pow2(width - ones)
    ensures ApplyMask(ip, ones, width) / Pow2(width - ones) == ip / Pow2(width - ones)
    ensures ApplyMask(ip, ones, width) < Pow2(width)
  {
    var h := Pow2(width - ones);
    var q, r := ip / h, ip % h;
    DivMod(ip, h);
    Pow2Add(ones, width - ones);
    DivLess(ip, h, Pow2(ones));
    AndMaskClears(ip, q, r, ones, width - ones);
    DivUnique(q * h, h, q, 0);
  }

  lemma ContainsIsHas(n: IPNet, address: nat)
    requires n.Valid() && address < Pow2(n.family.Width())
    ensures Contains(n, address) == n.Has(address)
  {
    var w := n.family.Width();
    ApplyMaskClears(n.ip, n.maskSize, w);
    ApplyMaskClears(address, n.maskSize, w);
  }

  /** An aligned network is the interval of its size that starts at its address. */
  lemma HasIsInterval(n: IPNet, address: nat)
    requires n.Valid()
    ensures n.Has(address) <==> n.ip <= address < n.ip + n.Size()
  {
    var h := n.Size();
    DivMod(n.ip, h);
    DivMod(address, h);
    if n.ip <= address < n.ip + h {
      DivUnique(address, h, n.ip / h, address - n.ip);
    }
  }

  /** Two networks of a family share an address exactly when their intervals overlap. */
  lemma IntersectsIsOverlap(x: IPNet, y: IPNet)
    requires x.Valid() && y.Valid() && x.family == y.family
    ensures Intersects(x, y) <==> exists address: nat :: x.Has(address) && y.Has(address)
    ensures Intersects(x, y) <==> x.ip < y.ip + y.Size() && y.ip < x.ip + x.Size()
  {
    if Intersects(x, y) {
      var address: nat :| x.Has(address) && y.Has(address);
      HasIsInterval(x, address);
      HasIsInterval(y, address);
    }
    if x.ip < y.ip + y.Size() && y.ip < x.ip + x.Size() {
      var address := if x.ip < y.ip then y.ip else x.ip;
      HasIsInterval(x, address);
      HasIsInterval(y, address);
    }
  }

  /** Sizes of a wide network and of a narrow one of the same family. */
  lemma SizesDivide(x: IPNet, y: IPNet)
    requires x.Valid() && y.Valid() && x.family == y.family && x.maskSize <= y.maskSize
    ensures x.Size() == Pow2(y.maskSize - x.maskSize) * y.Size()
  {
    Pow2Add(y.maskSize - x.maskSize, y.family.Width() - y.maskSize);
  }

  /** CIDRs are laminar: a narrower one is inside a wider one or disjoint from it. */
  lemma Laminar(x: IPNet, y: IPNet)
    requires x.Valid() && y.Valid() && x.family == y.family && x.maskSize <= y.maskSize
    ensures Intersects(x, y) <==> x.Has(y.ip)
    ensures Intersects(x, y) <==> x.ip <= y.ip && y.ip + y.Size() <= x.ip + x.Size()
  {
    var k := Pow2(y.maskSize - x.maskSize);
    SizesDivide(x, y);
    if Intersects(x, y) {
      var address: nat :| x.Has(address) && y.Has(address);
      DivDiv(address, y.Size(), k);
      DivDiv(y.ip, y.Size(), k);
      assert x.Has(y.ip);
      DivDiv(y.ip + (y.Size() - 1), y.Size(), k);
      HasIsInterval(y, y.ip + (y.Size() - 1));
      HasIsInterval(x, y.ip + (y.Size() - 1));
    } else if x.Has(y.ip) {
      assert y.Has(y.ip);
    }
    HasIsInterval(x, y.ip);
  }

  lemma NotMask(ones: nat, width: nat)
    requires ones <= width
    ensures MaskWord(ones, width) < Pow2(width)
    ensures Not(MaskWord(ones, width), width) == Pow2(width - ones) - 1
  {
    Pow2Add(ones, width - ones);
    MulDistrib(Pow2(ones) - 1, 1, Pow2(width - ones));
  }

  /** OR with the inverted mask gives the last address of an aligned network. */
  lemma OrNotMaskIsLast(ip: nat, ones: nat, width: nat)
    requires ones <= width && ip < Pow2(width) && ip % Pow2(width - ones) == 0
    ensures MaskWord(ones, width) < Pow2(width)
    ensures Or(ip, Not(MaskWord(ones, width), width)) == ip + (Pow2(width - ones) - 1)
  {
    NotMask(ones, width);
    DivMod(ip, Pow2(width - ones));
    OrDisjointIsAdd(ip / Pow2(width - ones), Pow2(width - ones) - 1, width - ones);
  }

  /** The two halves of a 128-bit mask are 64-bit masks. */
  lemma MaskHalves(ones: nat)
    requires ones <= 128
    ensures Left64(MaskWord(ones, 128)) == MaskWord(if ones <= 64 then ones else 64, 64)
    ensures Right64(MaskWord(ones, 128)) == MaskWord(if ones <= 64 then 0 else ones - 64, 64)
  {
    if ones <= 64 {
      Pow2Add(64 - ones, 64);
      MulAssoc(Pow2(ones) - 1, Pow2(64 - ones), Pow2(64));
      DivUnique(MaskWord(ones, 128), Pow2(64), MaskWord(ones, 64), 0);
    } else {
      NotMask(ones - 64, 64);
      Pow2Add(64, ones - 64);
      Pow2Add(ones - 64, 128 - ones);
      MaskAboveHalf(Pow2(64), Pow2(ones - 64), Pow2(128 - ones));
      DivUnique(MaskWord(ones, 128), Pow2(64), Pow2(64) - 1, MaskWord(ones - 64, 64));
      assert MaskWord(64, 64) == Pow2(64) - 1;
    }
  }

  lemma MaskAboveHalf(w: nat, p: nat, q: nat)
    requires w == p * q && p > 0 && w > 0
    ensures (w * p - 1) * q == (w - 1) * w + (p - 1) * q
  {
    MulAssoc(w, p, q);
    MulDistrib(w * p, -1, q);
    MulDistrib(p, -1, q);
    MulDistrib(w, -1, w);
  }

  /** The 64-bit words of an address aligned to `ones` leading bits are aligned in turn. */
  lemma AlignedHalves(ip: nat, ones: nat)
    requires ones <= 128 && ip < Pow2(128) && ip % Pow2(128 - ones) == 0
    ensures ip == Join64(Left64(ip), Right64(ip))
    ensures Left64(ip) < Pow2(64) && Right64(ip) < Pow2(64)
    ensures ones <= 64 ==> Left64(ip) % Pow2(64 - ones) == 0 && Right64(ip) == 0
    ensures ones >= 64 ==> Right64(ip) % Pow2(128 - ones) == 0
  {
    DivMod(ip, Pow2(64));
    Pow2Add(64, 64);
    DivLess(ip, Pow2(64), Pow2(64));
    if ones <= 64 {
      var d := Pow2(64 - ones);
      Pow2Add(64 - ones, 64);
      DivDiv(ip, Pow2(64), d);
      DigitsZero(ip / Pow2(64) % d, ip % Pow2(64), Pow2(64));
    }
    if ones >= 64 {
      var d, e := Pow2(128 - ones), Pow2(ones - 64);
      Pow2Add(ones - 64, 128 - ones);
      DivDiv(ip, d, e);
      DivUnique(Right64(ip), d, ip / d % e, 0);
    }
  }

  lemma DigitsZero(t: nat, r: nat, d: nat)
    requires t * d + r == 0 && d > 0
    ensures t == 0 && r == 0
  {
    if t > 0 {
      MulMono(1, t, d);
    }
  }
}
