/** Machine words as natural numbers: powers of two, bitwise operations, shifts that
    truncate, and the bridges from bit operations to arithmetic that the CIDR index
    computations rest on. */
module Words {

  /** Two to the power n. The definition accumulates the product, so that proofs see
      Pow2(n) == 2 * Pow2(n - 1) only where they ask for it with Pow2Succ. */
  function Pow2(n: nat): (r: nat)
    ensures r > 0
  {
    Doubled(1, n)
  }

  function Doubled(x: nat, n: nat): (r: nat)
    ensures x > 0 ==> r > 0
    decreases n
  {
    if n == 0 then x else Doubled(2 * x, n - 1)
  }

  lemma {:induction false} DoubledTwice(x: nat, n: nat)
    ensures Doubled(2 * x, n) == 2 * Doubled(x, n)
    decreases n
  {
    if n > 0 {
      DoubledTwice(2 * x, n - 1);
    }
  }

  lemma Pow2Succ(n: nat)
    ensures Pow2(n + 1) == 2 * Pow2(n)
    ensures Pow2(0) == 1
  {
    DoubledTwice(1, n);
  }

  datatype BitOp = AndOp | OrOp | XorOp {
    predicate Eval(x: bool, y: bool) {
      match this
      case AndOp => x && y
      case OrOp => x || y
      case XorOp => x != y
    }
  }

  /** A bitwise operation on unbounded words, one bit at a time. */
  function Bitwise(op: BitOp, a: nat, b: nat): nat
    decreases a + b
  {
    if a == 0 && b == 0 then 0
    else 2 * Bitwise(op, a / 2, b / 2) + LastBit(op, a, b)
  }

  function LastBit(op: BitOp, a: nat, b: nat): nat {
    if op.Eval(a % 2 == 1, b % 2 == 1) then 1 else 0
  }

  function And(a: nat, b: nat): nat { Bitwise(AndOp, a, b) }

  function Or(a: nat, b: nat): nat { Bitwise(OrOp, a, b) }

  function Xor(a: nat, b: nat): nat { Bitwise(XorOp, a, b) }

  /** A left shift in a register of `width` bits: bits that leave the register are lost. */
  function Shl(x: nat, n: nat, width: nat): nat { (x * Pow2(n)) % Pow2(width) }

  function Shr(x: nat, n: nat): nat { x / Pow2(n) }

  /** The low n bits. */
  function Low(x: nat, n: nat): (r: nat)
    ensures r < Pow2(n)
  {
    x % Pow2(n)
  }

  /** The complement in a register of `width` bits. */
  function Not(x: nat, width: nat): nat
    requires x < Pow2(width)
  {
    Pow2(width) - 1 - x
  }

  /** The number of bits needed to write x, which is 64 less the leading zeros of a 64-bit x. */
  function BitLen(x: nat): nat {
    if x == 0 then 0 else 1 + BitLen(x / 2)
  }

  // ---- powers of two ----

  lemma {:induction false} Pow2Add(a: nat, b: nat)
    ensures Pow2(a + b) == Pow2(a) * Pow2(b)
  {
    if a == 0 {
      Pow2Succ(0);
    } else {
      Pow2Add(a - 1, b);
      Pow2Succ(a - 1);
      Pow2Succ(a - 1 + b);
      MulAssoc(2, Pow2(a - 1), Pow2(b));
    }
  }

  lemma Pow2Mono(a: nat, b: nat)
    requires a <= b
    ensures Pow2(a) <= Pow2(b)
  {
    Pow2Add(a, b - a);
    MulAtLeast(Pow2(a), Pow2(b - a));
  }

  lemma Pow2StrictMono(a: nat, b: nat)
    requires a < b
    ensures Pow2(a) < Pow2(b)
  {
    Pow2Mono(a, b - 1);
    Pow2Succ(b - 1);
  }

  lemma MulAtLeast(x: nat, y: nat)
    requires y > 0
    ensures x <= x * y
  {
  }

  // ---- multiplication and division facts ----

  lemma MulMono(x: nat, y: nat, d: nat)
    requires x <= y
    ensures x * d <= y * d
  {
  }

  lemma MulNat(x: nat, y: nat)
    ensures x * y >= 0
  {
  }

  lemma MulSucc(x: int, d: int)
    ensures (x + 1) * d == x * d + d
  {
  }

  lemma MulAssoc(x: int, y: int, z: int)
    ensures x * y * z == x * (y * z)
  {
  }

  lemma MulDistrib(x: int, y: int, z: int)
    ensures (x + y) * z == x * z + y * z
  {
  }

  /** A number is split into a quotient and a remainder in one way only. */
  lemma QuotientUnique(q: nat, r: nat, p: nat, t: nat, d: nat)
    requires r < d && t < d && q * d + r == p * d + t
    ensures q == p && r == t
  {
    if q < p {
      MulMono(q + 1, p, d);
      MulSucc(q, d);
    } else if p < q {
      MulMono(p + 1, q, d);
      MulSucc(p, d);
    }
  }

  lemma DivUnique(x: nat, d: nat, q: nat, r: nat)
    requires r < d && x == q * d + r
    ensures x / d == q && x % d == r
  {
    DivMod(x, d);
    QuotientUnique(x / d, x % d, q, r, d);
  }

  lemma DivMod(x: nat, d: nat)
    requires d > 0
    ensures x == x / d * d + x % d
  {
  }

  lemma DivLess(x: nat, d: nat, m: nat)
    requires d > 0 && x < m * d
    ensures x / d < m
  {
    DivMod(x, d);
    if m <= x / d {
      MulMono(m, x / d, d);
    }
  }

  lemma DivMono(x: nat, y: nat, d: nat)
    requires d > 0 && x <= y
    ensures x / d <= y / d
  {
    DivMod(x, d);
    DivMod(y, d);
    if y / d < x / d {
      MulMono(y / d + 1, x / d, d);
      MulSucc(y / d, d);
    }
  }

  /** (t, r) are digits of t * d + r, which stays below e * d. */
  lemma DigitsBound(t: nat, r: nat, e: nat, d: nat)
    requires t < e && r < d
    ensures t * d + r < e * d
  {
    MulMono(t + 1, e, d);
    MulSucc(t, d);
  }

  /** Dividing by d and then by e is dividing by e * d. */
  lemma DivDiv(x: nat, d: nat, e: nat)
    requires d > 0 && e > 0
    ensures e * d > 0
    ensures x / (e * d) == x / d / e
    ensures x % (e * d) == x / d % e * d + x % d
  {
    var q, r := x / d, x % d;
    var p, t := q / e, q % e;
    DivMod(x, d);
    DivMod(q, e);
    DigitsBound(t, r, e, d);
    MulDistrib(p * e, t, d);
    MulAssoc(p, e, d);
    DivUnique(x, e * d, p, t * d + r);
  }

  lemma ModScales(x: nat, d: nat, e: nat)
    requires d > 0 && e > 0
    ensures d * e > 0
    ensures x * e % (d * e) == x % d * e
  {
    var q, r := x / d, x % d;
    DigitsBound(r, 0, d, e);
    assert x * e == q * (d * e) + r * e by {
      DivMod(x, d);
      MulDistrib(q * d, r, e);
      MulAssoc(q, d, e);
    }
    DivUnique(x * e, d * e, q, r * e);
  }

  // ---- what the bitwise operations mean ----

  predicate BitAt(x: nat, k: nat) {
    x / Pow2(k) % 2 == 1
  }

  /** The reference meaning: bit k of the result is the operation on bits k of the operands. */
  lemma {:induction false} BitwiseIsPointwise(op: BitOp, a: nat, b: nat, k: nat)
    ensures BitAt(Bitwise(op, a, b), k) == op.Eval(BitAt(a, k), BitAt(b, k))
  {
    BitwiseHalves(op, a, b);
    if k == 0 {
      LowestBit(a);
      LowestBit(b);
      LowestBit(Bitwise(op, a, b));
    } else {
      BitwiseIsPointwise(op, a / 2, b / 2, k - 1);
      HalveBit(a, k);
      HalveBit(b, k);
      HalveBit(Bitwise(op, a, b), k);
    }
  }

  lemma BitwiseHalves(op: BitOp, a: nat, b: nat)
    ensures Bitwise(op, a, b) == 2 * Bitwise(op, a / 2, b / 2) + LastBit(op, a, b)
    ensures Bitwise(op, a, b) / 2 == Bitwise(op, a / 2, b / 2)
    ensures Bitwise(op, a, b) % 2 == LastBit(op, a, b)
  {
  }

  lemma LowestBit(x: nat)
    ensures BitAt(x, 0) <==> x % 2 == 1
  {
    Pow2Succ(0);
  }

  lemma HalveBit(x: nat, k: nat)
    requires k > 0
    ensures BitAt(x, k) == BitAt(x / 2, k - 1)
  {
    DivDiv(x, 2, Pow2(k - 1));
    Pow2Succ(k - 1);
  }

  lemma {:induction false} BitwiseBound(op: BitOp, a: nat, b: nat, k: nat)
    requires a < Pow2(k) && b < Pow2(k)
    ensures Bitwise(op, a, b) < Pow2(k)
  {
    Pow2Succ(if k == 0 then 0 else k - 1);
    if k == 0 {
    } else {
      BitwiseBound(op, a / 2, b / 2, k - 1);
    }
  }

  /** A bitwise operation works separately on the bits above and below position k. */
  lemma {:induction false} BitwiseSplit(op: BitOp, a: nat, a1: nat, a0: nat, b: nat, b1: nat, b0: nat, k: nat)
    requires a0 < Pow2(k) && b0 < Pow2(k)
    requires a == a1 * Pow2(k) + a0 && b == b1 * Pow2(k) + b0
    ensures Bitwise(op, a, b) == Bitwise(op, a1, b1) * Pow2(k) + Bitwise(op, a0, b0)
  {
    if k == 0 {
      Pow2Succ(0);
      TimesOne(a1, Pow2(k));
      TimesOne(b1, Pow2(k));
      TimesOne(Bitwise(op, a1, b1), Pow2(k));
    } else {
      var q := Pow2(k - 1);
      Pow2Succ(k - 1);
      HalveDigits(a, a1, a0, q);
      HalveDigits(b, b1, b0, q);
      BitwiseSplit(op, a / 2, a1, a0 / 2, b / 2, b1, b0 / 2, k - 1);
      BitwiseHalves(op, a, b);
      BitwiseHalves(op, a0, b0);
      DoubleDigits(Bitwise(op, a / 2, b / 2), Bitwise(op, a1, b1), Bitwise(op, a0 / 2, b0 / 2), q, LastBit(op, a, b));
    }
  }

  lemma TimesOne(x: nat, d: nat)
    requires d == 1
    ensures x * d == x
  {
  }

  lemma DoubleDigits(x: nat, hi: nat, lo: nat, q: nat, bit: nat)
    requires x == hi * q + lo
    ensures 2 * x + bit == hi * (2 * q) + (2 * lo + bit)
  {
    Double(hi, q);
  }

  lemma HalveDigits(x: nat, hi: nat, lo: nat, q: nat)
    requires x == hi * (2 * q) + lo
    ensures hi * q >= 0 && x / 2 == hi * q + lo / 2 && x % 2 == lo % 2
  {
    Double(hi, q);
  }

  /** The same, read off the result: shifting and truncating commute with the operation. */
  lemma BitwiseDivMod(op: BitOp, a: nat, b: nat, k: nat)
    ensures Shr(Bitwise(op, a, b), k) == Bitwise(op, Shr(a, k), Shr(b, k))
    ensures Low(Bitwise(op, a, b), k) == Bitwise(op, Low(a, k), Low(b, k))
  {
    var d := Pow2(k);
    var a1, a0, b1, b0 := Shr(a, k), Low(a, k), Shr(b, k), Low(b, k);
    DivMod(a, d);
    DivMod(b, d);
    BitwiseSplit(op, a, a1, a0, b, b1, b0, k);
    BitwiseBound(op, a0, b0, k);
    DivUnique(Bitwise(op, a, b), d, Bitwise(op, a1, b1), Bitwise(op, a0, b0));
  }

  lemma Double(x: nat, q: nat)
    ensures x * (2 * q) == 2 * (x * q)
  {
  }

  lemma {:induction false} BitwiseWithZero(op: BitOp, a: nat)
    ensures Bitwise(op, a, 0) == (if op.AndOp? then 0 else a)
    ensures Bitwise(op, 0, a) == (if op.AndOp? then 0 else a)
  {
    if a != 0 {
      BitwiseWithZero(op, a / 2);
    }
  }

  lemma {:induction false} XorZero(a: nat, b: nat)
    ensures Xor(a, b) == 0 <==> a == b
    decreases a + b
  {
    if a + b > 0 {
      XorZero(a / 2, b / 2);
    }
  }

  lemma {:induction false} AndOnes(a: nat, m: nat)
    requires a < Pow2(m)
    ensures And(a, Pow2(m) - 1) == a
  {
    Pow2Succ(if m == 0 then 0 else m - 1);
    if m == 0 {
    } else {
      AndOnes(a / 2, m - 1);
      assert (Pow2(m) - 1) / 2 == Pow2(m - 1) - 1 && (Pow2(m) - 1) % 2 == 1;
    }
  }

  // ---- bridges to arithmetic ----

  /** OR of words with no bit in common is addition. */
  lemma OrDisjointIsAdd(hi: nat, lo: nat, k: nat)
    requires lo < Pow2(k)
    ensures Or(hi * Pow2(k), lo) == hi * Pow2(k) + lo
  {
    BitwiseSplit(OrOp, hi * Pow2(k), hi, 0, lo, 0, lo, k);
    BitwiseWithZero(OrOp, hi);
    BitwiseWithZero(OrOp, lo);
  }

  /** XOR with a word whose low k bits are zero: below 2^k exactly when the upper bits agree,
      and then it is the low bits of the other word. */
  lemma XorWithPrefix(hi: nat, v: nat, k: nat)
    ensures Xor(hi * Pow2(k), v) < Pow2(k) <==> Shr(v, k) == hi
    ensures Shr(v, k) == hi ==> Xor(hi * Pow2(k), v) == Low(v, k)
  {
    var a, q, r := hi * Pow2(k), Shr(v, k), Low(v, k);
    DivMod(v, Pow2(k));
    BitwiseSplit(XorOp, a, hi, 0, v, q, r, k);
    BitwiseWithZero(XorOp, r);
    XorZero(hi, q);
    LeadingDigitZero(Xor(hi, q), r, Pow2(k));
  }

  lemma LeadingDigitZero(t: nat, r: nat, d: nat)
    requires r < d
    ensures t * d + r < d <==> t == 0
    ensures t == 0 ==> t * d + r == r
  {
    if t > 0 {
      MulMono(1, t, d);
    }
  }

  /** AND with `ones` leading ones followed by k zeros clears the lower k bits. */
  lemma AndMaskClears(ip: nat, hi: nat, lo: nat, ones: nat, k: nat)
    requires hi < Pow2(ones) && lo < Pow2(k) && ip == hi * Pow2(k) + lo
    ensures var field := Pow2(ones) - 1;
            field * Pow2(k) >= 0 && And(ip, field * Pow2(k)) == hi * Pow2(k)
  {
    var field: nat := Pow2(ones) - 1;
    MulNat(field, Pow2(k));
    var mask: nat := field * Pow2(k);
    BitwiseSplit(AndOp, ip, hi, lo, mask, field, 0, k);
    AndOnes(hi, ones);
    BitwiseWithZero(AndOp, lo);
  }

  /** A left shift that loses no bit is a multiplication. */
  lemma ShlIsMul(x: nat, n: nat, width: nat)
    requires x * Pow2(n) < Pow2(width)
    ensures Shl(x, n, width) == x * Pow2(n)
  {
    DivUnique(x * Pow2(n), Pow2(width), 0, x * Pow2(n));
  }

  /** A left shift keeps exactly the low width - n bits of x. */
  lemma ShlTruncates(x: nat, n: nat, width: nat)
    requires n <= width
    ensures Shl(x, n, width) == x % Pow2(width - n) * Pow2(n)
  {
    Pow2Add(width - n, n);
    ModScales(x, Pow2(width - n), Pow2(n));
  }

  lemma {:induction false} BitLenBound(x: nat)
    ensures x < Pow2(BitLen(x))
    ensures x > 0 ==> Pow2(BitLen(x) - 1) <= x
  {
    Pow2Succ(0);
    if x > 0 {
      BitLenBound(x / 2);
      Pow2Succ(BitLen(x / 2));
      if x / 2 > 0 {
        Pow2Succ(BitLen(x / 2) - 1);
      }
    }
  }

  /** A word of at most n bits is shifted out completely. */
  lemma ShrOfShortWord(x: nat, n: nat)
    requires BitLen(x) <= n
    ensures Shr(x, n) == 0
  {
    BitLenBound(x);
    Pow2Mono(BitLen(x), n);
    DivUnique(x, Pow2(n), 0, x);
  }
}
