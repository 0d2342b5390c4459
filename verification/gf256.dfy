/**
  The field GF(2^8) used for secret sharing: carry-less multiplication reduced by
  x^8 + x^4 + x^3 + x + 1 (section 4.2 of FIPS 197), and its laws.

  Facts about single bits are lemmas of their own; everything above them is
  algebra, in which the bit-level definitions stay hidden.
 */
module Gf256 {
  import opened Bytes

  /** Multiplication by x: shift, and subtract the modulus when x^8 appears. */
  function Xtime(a: byte): byte {
    XtimeBits(a as bv8) as byte
  }

  function XtimeBits(a: bv8): bv8 {
    (a << 1) ^ ((0 - (a >> 7)) & 0x1B)
  }

  /** The coefficient of x^i in b, for i < 8. */
  predicate Bit(b: byte, i: nat)
    requires i < 8
  {
    (b as bv8 >> i) & 1 == 1
  }

  /** The sum of x^j * a over the set bits i <= i + j < 8 of b. */
  function MulBits(a: byte, b: byte, i: nat): byte
    requires i <= 8
    decreases 8 - i
  {
    if i == 8 then 0
    else Xor(if Bit(b, i) then a else 0, MulBits(Xtime(a), b, i + 1))
  }

  /** Carry-less multiplication modulo 0x11B. */
  function Mul(a: byte, b: byte): byte {
    MulBits(a, b, 0)
  }

  // ------------------------------------------------------------ bit facts ----

  lemma XtimeXorBits(a: bv8, b: bv8)
    ensures XtimeBits(a ^ b) == XtimeBits(a) ^ XtimeBits(b)
  {}

  lemma XtimeXor(a: byte, b: byte)
    ensures Xtime(Xor(a, b)) == Xor(Xtime(a), Xtime(b))
  {
    BitsByte(a as bv8 ^ b as bv8);
    BitsByte(XtimeBits(a as bv8));
    BitsByte(XtimeBits(b as bv8));
    XtimeXorBits(a as bv8, b as bv8);
  }

  // ----------------------------------------------------------- field laws ----

  lemma {:induction false} MulBitsXor(a: byte, c: byte, b: byte, i: nat)
    requires i <= 8
    ensures MulBits(Xor(a, c), b, i) == Xor(MulBits(a, b, i), MulBits(c, b, i))
    decreases 8 - i
  {
    hide Xor, Xtime, Bit;
    XorUnit(0);
    if i < 8 {
      XtimeXor(a, c);
      MulBitsXor(Xtime(a), Xtime(c), b, i + 1);
      XorSwap(if Bit(b, i) then a else 0, if Bit(b, i) then c else 0,
              MulBits(Xtime(a), b, i + 1), MulBits(Xtime(c), b, i + 1));
    }
  }

  lemma XtimeZero()
    ensures Xtime(0) == 0
  {}

  lemma {:induction false} MulBitsXtime(a: byte, b: byte, i: nat)
    requires i <= 8
    ensures MulBits(Xtime(a), b, i) == Xtime(MulBits(a, b, i))
    decreases 8 - i
  {
    hide Xor, Xtime, Bit;
    XtimeZero();
    if i < 8 {
      MulBitsXtime(Xtime(a), b, i + 1);
      XtimeXor(if Bit(b, i) then a else 0, MulBits(Xtime(a), b, i + 1));
    }
  }

  lemma {:induction false} MulBitsZero(b: byte, i: nat)
    requires i <= 8
    ensures MulBits(0, b, i) == 0
    decreases 8 - i
  {
    hide Xor, Xtime, Bit;
    if i < 8 {
      XtimeZero();
      MulBitsZero(b, i + 1);
      XorUnit(0);
    }
  }

  /** Multiplication distributes over addition, which is exclusive or. */
  lemma MulXorLeft(a: byte, c: byte, b: byte)
    ensures Mul(Xor(a, c), b) == Xor(Mul(a, b), Mul(c, b))
  {
    hide Xor, Xtime, Bit;
    MulBitsXor(a, c, b, 0);
  }

  lemma {:induction false} MulBitsSlide(u: byte, b: byte, a: byte, i: nat)
    requires i <= 8
    ensures Mul(MulBits(u, b, i), a) == MulBits(Mul(u, a), b, i)
    decreases 8 - i
  {
    hide Xor, Xtime, Bit, Mul;
    MulZeroLeft(a);
    if i < 8 {
      MulXorLeft(if Bit(b, i) then u else 0, MulBits(Xtime(u), b, i + 1), a);
      MulBitsSlide(Xtime(u), b, a, i + 1);
      MulXtime(u, a);
    }
  }

  lemma MulXtime(u: byte, a: byte)
    ensures Mul(Xtime(u), a) == Xtime(Mul(u, a))
  {
    hide Xor, Xtime, Bit;
    MulBitsXtime(u, a, 0);
  }

  lemma MulZeroLeft(a: byte)
    ensures Mul(0, a) == 0
  {
    MulBitsZero(a, 0);
  }

  /** The bits of v from position i up. */
  function HighBits(v: bv8, i: nat): bv8
    requires i <= 8
  {
    (v >> i) << i
  }

  /** x^i for i < 8. */
  function MonomialBits(i: nat): bv8
    requires i < 8
  {
    1 << i
  }

  function Monomial(i: nat): byte
    requires i < 8
  {
    MonomialBits(i) as byte
  }

  lemma MonomialStep(i: nat)
    requires i < 7
    ensures Xtime(Monomial(i)) == Monomial(i + 1)
  {}

  lemma HighBitsStep(b: byte, i: nat)
    requires i < 8
    ensures HighBits(b as bv8, i) == (if Bit(b, i) then MonomialBits(i) else 0) ^ HighBits(b as bv8, i + 1)
  {
    HighBitsSplit(b as bv8, i);
  }

  lemma HighBitsSplit(v: bv8, i: nat)
    requires i < 8
    ensures HighBits(v, i) == (if (v >> i) & 1 == 1 then MonomialBits(i) else 0) ^ HighBits(v, i + 1)
  {}

  lemma HighBitsEnd(v: bv8)
    ensures HighBits(v, 8) == 0
  {}

  lemma HighBitsXor(b: byte, i: nat)
    requires i < 8
    ensures Xor(if Bit(b, i) then Monomial(i) else 0, HighBits(b as bv8, i + 1) as byte)
         == HighBits(b as bv8, i) as byte
  {
    hide HighBits, Xor, Bit, MonomialBits;
    HighBitsStep(b, i);
    var high := HighBits(b as bv8, i + 1);
    if Bit(b, i) {
      XorOfBits(MonomialBits(i), high);
    } else {
      XorUnit(high as byte);
    }
  }

  lemma {:induction false} MulBitsMonomial(b: byte, i: nat)
    requires i < 8
    ensures MulBits(Monomial(i), b, i) == HighBits(b as bv8, i) as byte
    decreases 8 - i
  {
    hide Xtime, Monomial, HighBits, Xor, Bit;
    HighBitsXor(b, i);
    if i < 7 {
      MonomialStep(i);
      MulBitsMonomial(b, i + 1);
    } else {
      HighBitsEnd(b as bv8);
    }
  }

  lemma MulOneLeft(b: byte)
    ensures Mul(1, b) == b
  {
    MulBitsMonomial(b, 0);
    ByteBits(b);
  }

  lemma MulComm(a: byte, b: byte)
    ensures Mul(a, b) == Mul(b, a)
  {
    hide Xor, Xtime, Bit;
    MulBitsSlide(1, b, a, 0);
    MulOneLeft(a);
    MulOneLeft(b);
  }

  lemma MulAssoc(a: byte, b: byte, c: byte)
    ensures Mul(Mul(a, b), c) == Mul(a, Mul(b, c))
  {
    hide Xor, Xtime, Bit;
    MulComm(a, b);
    MulBitsSlide(b, a, c, 0);
    MulComm(a, Mul(b, c));
  }

  lemma MulXorRight(a: byte, b: byte, c: byte)
    ensures Mul(a, Xor(b, c)) == Xor(Mul(a, b), Mul(a, c))
  {
    hide Xor, Mul;
    MulComm(a, Xor(b, c));
    MulComm(a, b);
    MulComm(a, c);
    MulXorLeft(b, c, a);
  }

  lemma MulUnits(a: byte)
    ensures Mul(a, 1) == a && Mul(1, a) == a && Mul(a, 0) == 0 && Mul(0, a) == 0
  {
    hide Mul;
    MulOneLeft(a);
    MulComm(a, 1);
    MulZeroLeft(a);
    MulComm(a, 0);
  }

  // ------------------------------------------------ powers of the generator ----

  /** Multiplication by the generator x + 1. */
  function Next(a: byte): byte {
    Xor(a, Xtime(a))
  }

  lemma NextIsMul(a: byte)
    ensures Next(a) == Mul(3, a)
  {
    assert Xtime(1) == 2 && Xor(1, 2) == 3;
    hide Xor, Xtime, Mul;
    MulXorLeft(1, 2, a);
    MulUnits(a);
    MulXtime(1, a);
  }

  function Pow(n: nat): byte {
    if n == 0 then 1 else Next(Pow(n - 1))
  }

  lemma {:induction false} PowAdd(m: nat, n: nat)
    ensures Pow(m + n) == Mul(Pow(m), Pow(n))
  {
    hide Mul, Next;
    if m == 0 {
      MulUnits(Pow(n));
    } else {
      PowAdd(m - 1, n);
      NextIsMul(Pow(m - 1));
      NextIsMul(Pow(m + n - 1));
      MulAssoc(3, Pow(m - 1), Pow(n));
    }
  }

  // The order of the generator is exactly 255. It divides 255 because the 255th
  // power is 1, and no maximal proper divisor of 255 (85, 51, 15) is a multiple
  // of it. The powers needed are computed on bit vectors, sixteen steps at a time.

  function Next1(v: bv8): bv8 { v ^ XtimeBits(v) }
  function Next2(v: bv8): bv8 { Next1(Next1(v)) }
  function Next4(v: bv8): bv8 { Next2(Next2(v)) }
  function Next8(v: bv8): bv8 { Next4(Next4(v)) }
  function Next16(v: bv8): bv8 { Next8(Next8(v)) }
  function Next80(v: bv8): bv8 { Next16(Next16(Next16(Next16(Next16(v))))) }

  lemma NextByBits(v: bv8)
    ensures Next(v as byte) == Next1(v) as byte
  {
    BitsByte(v);
    BitsByte(XtimeBits(v));
  }

  lemma PowNext1(n: nat, v: bv8)
    requires Pow(n) == v as byte
    ensures Pow(n + 1) == Next1(v) as byte
  {
    hide Next, Next1;
    NextByBits(v);
  }

  lemma PowNext4(n: nat, v: bv8)
    requires Pow(n) == v as byte
    ensures Pow(n + 2) == Next2(v) as byte && Pow(n + 4) == Next4(v) as byte
  {
    hide Pow, Next1;
    PowNext1(n, v);
    PowNext1(n + 1, Next1(v));
    PowNext1(n + 2, Next2(v));
    PowNext1(n + 3, Next1(Next2(v)));
  }

  lemma PowNext16(n: nat, v: bv8)
    requires Pow(n) == v as byte
    ensures Pow(n + 8) == Next8(v) as byte && Pow(n + 16) == Next16(v) as byte
  {
    hide Pow, Next2, Next4;
    PowNext4(n, v);
    PowNext4(n + 4, Next4(v));
    PowNext4(n + 8, Next8(v));
    PowNext4(n + 12, Next4(Next8(v)));
  }

  lemma PowNext85(n: nat, v: bv8)
    requires Pow(n) == v as byte
    ensures Pow(n + 85) == Next80(Next1(Next4(v))) as byte
  {
    hide Pow, Next1, Next2, Next4, Next8, Next16;
    PowNext4(n, v);
    PowNext1(n + 4, Next4(v));
    var w := Next1(Next4(v));
    PowNext16(n + 5, w);
    PowNext16(n + 21, Next16(w));
    PowNext16(n + 37, Next16(Next16(w)));
    PowNext16(n + 53, Next16(Next16(Next16(w))));
    PowNext16(n + 69, Next16(Next16(Next16(Next16(w)))));
  }

  lemma Next85OfOne()
    ensures Next80(Next1(Next4(1))) == 189
  {}

  lemma Next85Of189()
    ensures Next80(Next1(Next4(189))) == 188
  {}

  lemma Next85Of188()
    ensures Next80(Next1(Next4(188))) == 1
  {}

  lemma PowZero()
    ensures Pow(0) == 1
  {}

  lemma PowerOf85()
    ensures Pow(85) == 189
  {
    hide Pow, Next1, Next2, Next4, Next8, Next16, Next80;
    PowZero();
    PowNext85(0, 1);
    Next85OfOne();
  }

  lemma PowerOf170()
    ensures Pow(170) == 188
  {
    hide Pow, Next1, Next2, Next4, Next8, Next16, Next80;
    PowerOf85();
    PowNext85(85, 189);
    Next85Of189();
  }

  lemma PowerOf255()
    ensures Pow(255) == 1
  {
    hide Pow, Next1, Next2, Next4, Next8, Next16, Next80;
    PowerOf170();
    PowNext85(170, 188);
    Next85Of188();
  }

  lemma PowerOf15()
    ensures Pow(3) == 15 && Pow(15) == 53
  {
    hide Pow;
    PowZero();
    PowNext1(0, 1);
    PowNext4(1, 3);
    PowNext4(3, 15);
    PowNext16(7, Next4(15));
    assert Next8(Next4(15)) == 53;
  }

  lemma PowerOf51()
    ensures Pow(51) == 12
  {
    PowerOf15();
    hide Pow;
    PowNext16(3, 15);
    PowNext16(19, Next16(15));
    PowNext16(35, Next16(Next16(15)));
    assert Next16(Next16(Next16(15))) == 12;
  }

  lemma MulCancel(u: byte, a: byte, b: byte)
    requires Mul(u, a) == 1
    ensures Mul(a, Mul(u, b)) == b
  {
    hide Mul;
    MulAssoc(a, u, b);
    MulComm(a, u);
    MulUnits(b);
  }

  /** Two exponents at which the generator is 1 have a common divisor with that property. */
  lemma {:induction false} PowGcd(a: nat, b: nat) returns (d: nat, p: nat, q: nat)
    requires a > 0 && b > 0 && Pow(a) == 1 && Pow(b) == 1
    ensures d > 0 && a == d * p && b == d * q && Pow(d) == 1
    decreases a + b
  {
    hide Mul, Pow;
    if a == b {
      d, p, q := a, 1, 1;
    } else if a < b {
      PowAdd(a, b - a);
      MulUnits(Pow(b - a));
      d, p, q := PowGcd(a, b - a);
      q := p + q;
    } else {
      PowAdd(b, a - b);
      MulUnits(Pow(a - b));
      d, p, q := PowGcd(a - b, b);
      p := p + q;
    }
  }

  lemma {:induction false} PowMultiple(d: nat, k: nat, n: nat)
    requires Pow(d) == 1 && n == d * k
    ensures Pow(n) == 1
    decreases k
  {
    hide Mul, Pow;
    if k == 0 {
      PowZero();
    } else {
      assert n == d + d * (k - 1);
      PowMultiple(d, k - 1, n - d);
      PowAdd(d, n - d);
      MulUnits(1);
    }
  }

  /** A proper divisor of 255 = 3 * 5 * 17 divides 85, 51 or 15. */
  lemma ProperDivisorsOf255(d: nat, q: nat)
    requires d * q == 255 && 0 < d < 255
    ensures exists k: nat :: d * k == 85 || d * k == 51 || d * k == 15
  {
    assert q > 1;
    assert q % 3 == 0 || q % 5 == 0 || q % 17 == 0 by { PrimeFactorsOf255(d, q); }
    if q % 3 == 0 {
      assert d * (q / 3) == 85;
    } else if q % 5 == 0 {
      assert d * (q / 5) == 51;
    } else {
      assert d * (q / 17) == 15;
    }
  }

  lemma PrimeFactorsOf255(d: nat, q: nat)
    requires d * q == 255 && q > 1
    ensures q % 3 == 0 || q % 5 == 0 || q % 17 == 0
  {
    if d <= 15 {
      assert d == 1 || d == 3 || d == 5 || d == 15;
    } else {
      assert q <= 15;
      assert q == 3 || q == 5 || q == 15;
    }
  }

  lemma PowerNotOne(m: nat)
    requires 0 < m < 255
    ensures Pow(m) != 1
  {
    hide Pow;
    if Pow(m) == 1 {
      PowerOf255();
      var d, p, q := PowGcd(m, 255);
      assert d <= m;
      ProperDivisorsOf255(d, q);
      var k: nat :| d * k == 85 || d * k == 51 || d * k == 15;
      PowMultiple(d, k, d * k);
      PowerOf85();
      PowerOf51();
      PowerOf15();
    }
  }

  lemma PowNonZero(n: nat)
    ensures Pow(n) != 0
  {
    hide Mul, Pow;
    PowerOf255();
    if n <= 255 {
      PowAdd(n, 255 - n);
      MulUnits(Pow(255 - n));
    } else {
      PowNonZero(n - 255);
      PowAdd(255, n - 255);
      MulUnits(Pow(n - 255));
    }
  }

  lemma PowDistinct(i: nat, j: nat)
    requires i < j < 255
    ensures Pow(i) != Pow(j)
  {
    hide Mul, Pow;
    PowerNotOne(j - i);
    if Pow(i) == Pow(j) {
      PowDifference(i, j);
    }
  }

  lemma PowDifference(i: nat, j: nat)
    requires i <= j && i <= 255 && Pow(i) == Pow(j)
    ensures Pow(j - i) == 1
  {
    hide Mul, Pow;
    PowAdd(i, j - i);
    PowAdd(i, 255 - i);
    PowerOf255();
    MulUnits(Pow(i));
    MulComm(Pow(i), Pow(255 - i));
    MulCancel(Pow(i), Pow(255 - i), Pow(j - i));
    MulCancel(Pow(i), Pow(255 - i), 1);
  }

  // ------------------------------------------------------------ logarithms ----

  /** A sequence has as many elements as entries exactly when no entry repeats. */
  lemma {:induction false} DistinctCount<T>(s: seq<T>)
    ensures |set x | x in s| <= |s|
    ensures |set x | x in s| == |s| <==> forall i, j :: 0 <= i < j < |s| ==> s[i] != s[j]
  {
    if |s| > 0 {
      var front, last := s[..|s| - 1], s[|s| - 1];
      DistinctCount(front);
      assert (set x | x in s) == (set x | x in front) + {last};
      assert forall i :: 0 <= i < |front| ==> s[i] == front[i];
    }
  }

  function Range(n: nat): (r: set<int>)
    ensures forall i :: i in r <==> 0 <= i < n
    ensures |r| == n
  {
    if n == 0 then {} else Range(n - 1) + {n - 1}
  }

  /** n distinct numbers below n are all the numbers below n. */
  lemma Pigeonhole(s: seq<int>, y: int)
    requires forall i, j :: 0 <= i < j < |s| ==> s[i] != s[j]
    requires forall i :: 0 <= i < |s| ==> 0 <= s[i] < |s|
    requires 0 <= y < |s|
    ensures y in s
  {
    var used := set x | x in s;
    var all := Range(|s|);
    DistinctCount(s);
    if y !in used {
      SubsetCount(used + {y}, all);
    }
  }

  lemma SubsetCount(a: set<int>, b: set<int>)
    requires a <= b
    ensures |a| <= |b|
  {
    assert b == a + (b - a);
  }

  lemma LogExists(b: byte)
    requires b != 0
    ensures exists i :: 0 <= i < 255 && Pow(i) == b
  {
    hide Pow;
    var powers := seq(255, i requires 0 <= i < 255 => Pow(i) as int - 1);
    forall i, j | 0 <= i < j < 255
      ensures powers[i] != powers[j]
    {
      PowDistinct(i, j);
    }
    forall i | 0 <= i < 255
      ensures 0 <= powers[i] < 255
    {
      PowNonZero(i);
    }
    Pigeonhole(powers, b as int - 1);
    var i :| 0 <= i < 255 && powers[i] == b as int - 1;
    assert Pow(i) == b;
  }

  /** The discrete logarithm to the base 3. */
  ghost function Log(b: byte): (i: nat)
    requires b != 0
    ensures i < 255 && Pow(i) == b
  {
    LogExists(b);
    var i :| 0 <= i < 255 && Pow(i) == b;
    i
  }

  // -------------------------------------------------------------- division ----

  lemma InverseExists(b: byte)
    requires b != 0
    ensures Mul(b, Pow(255 - Log(b))) == 1
  {
    hide Mul, Pow;
    PowAdd(Log(b), 255 - Log(b));
    PowerOf255();
  }

  /** The quotient of a by a non-zero b: the only q with q * b == a. */
  ghost function Div(a: byte, b: byte): (q: byte)
    requires b != 0
    ensures Mul(q, b) == a
  {
    hide Mul, Pow;
    var u := Pow(255 - Log(b));
    InverseExists(b);
    MulAssoc(a, u, b);
    MulComm(u, b);
    MulUnits(a);
    Mul(a, u)
  }

  lemma DivUnique(a: byte, b: byte, q: byte)
    requires b != 0 && Mul(q, b) == a
    ensures q == Div(a, b)
  {
    hide Mul, Pow;
    var u := Pow(255 - Log(b));
    InverseExists(b);
    MulAssoc(q, b, u);
    MulUnits(q);
  }

  lemma MulNonZero(a: byte, b: byte)
    ensures Mul(a, b) == 0 <==> a == 0 || b == 0
  {
    hide Mul, Pow, Div;
    MulUnits(a);
    MulUnits(b);
    if a != 0 && b != 0 && Mul(a, b) == 0 {
      DivUnique(0, b, a);
      DivUnique(0, b, 0);
    }
  }
}
