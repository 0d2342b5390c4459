/**
  Field arithmetic by logarithm tables, as the secret-sharing module computes it,
  and its agreement with carry-less multiplication.
 */
module GfTables {
  import opened Bytes
  import opened Gf256
  import opened Wrappers

  datatype ArithmeticError = ZeroDivision

  /** The two tables, frozen once they have been filled. */
  datatype Tables = Tables(exp: seq<byte>, log: seq<nat>) {

    ghost predicate Valid() {
      && |exp| == 512 && |log| == 256
      && (forall i :: 0 <= i < 255 ==> exp[i] == Pow(i))
      && (forall i :: 255 <= i < 512 ==> exp[i] == exp[i - 255])
      && (forall i :: 0 <= i < 255 ==> log[Pow(i)] == i)
    }
  }

  /** The loop's register update: wide enough to hold the bit that is shifted out. */
  function Advance(x: bv16): bv16 {
    var y := x ^ (x << 1);
    if y & 0x100 != 0 then y ^ 0x11B else y
  }

  lemma AdvanceStep(x: bv16, i: nat)
    requires x < 0x100 && x as byte == Pow(i)
    ensures Advance(x) < 0x100 && Advance(x) as byte == Pow(i + 1)
  {
    hide Advance, Next, Next1;
    AdvanceInRange(x);
    LowByte(x);
    LowByte(Advance(x));
    AdvanceBits(x);
    NextByBits(x as bv8);
  }

  /** A register below 0x100 and its low eight bits are the same byte. */
  lemma LowByte(x: bv16)
    requires x < 0x100
    ensures x as byte == (x as bv8) as byte
  {}

  lemma AdvanceBits(x: bv16)
    requires x < 0x100 && Advance(x) < 0x100
    ensures Advance(x) as bv8 == Next1(x as bv8)
  {}

  lemma AdvanceInRange(x: bv16)
    requires x < 0x100
    ensures Advance(x) < 0x100
  {}

  lemma PowFresh(i: nat)
    requires i < 255
    ensures forall j :: 0 <= j < i ==> Pow(j) != Pow(i)
  {
    hide Pow;
    forall j | 0 <= j < i
      ensures Pow(j) != Pow(i)
    {
      PowDistinct(j, i);
    }
  }

  method BuildTables() returns (t: Tables)
    ensures t.Valid()
  {
    hide Pow, Next, Advance;
    var exp := new byte[512](_ => 0);
    var log := new nat[256](_ => 0);
    var x: bv16 := 1;
    PowZero();
    for i := 0 to 255
      invariant x < 0x100 && x as byte == Pow(i)
      invariant forall j :: 0 <= j < i ==> exp[j] == Pow(j)
      invariant forall j :: 0 <= j < i ==> log[Pow(j)] == j
    {
      exp[i] := x as byte;
      log[x as int] := i;
      PowFresh(i);
      AdvanceStep(x, i);
      x := Advance(x);
    }
    ghost var powers, logs := exp[..255], log[..];
    assert forall j :: 0 <= j < 255 ==> powers[j] == Pow(j);
    for i := 255 to 512
      invariant exp[..255] == powers && log[..] == logs
      invariant forall j :: 255 <= j < i ==> exp[j] == exp[j - 255]
    {
      exp[i] := exp[i - 255];
    }
    t := Tables(exp[..], log[..]);
    assert forall j :: 0 <= j < 255 ==> t.exp[j] == powers[j];
  }

  /** Both halves of the exponential table hold powers of the generator. */
  lemma ExpEntry(t: Tables, i: nat)
    requires t.Valid() && i < 510
    ensures t.exp[i] == Pow(i)
  {
    hide Pow, Mul;
    if i >= 255 {
      PowAdd(255, i - 255);
      PowerOf255();
      MulUnits(Pow(i - 255));
    }
  }

  /** Table multiplication is carry-less multiplication modulo 0x11B. */
  function GfMul(t: Tables, a: byte, b: byte): (r: byte)
    requires t.Valid()
    ensures r == Mul(a, b)
  {
    hide Pow, Mul;
    MulUnits(a);
    MulUnits(b);
    if a == 0 || b == 0 then 0
    else
      LogEntry(t, a);
      LogEntry(t, b);
      ExpEntry(t, t.log[a] + t.log[b]);
      PowAdd(t.log[a], t.log[b]);
      t.exp[t.log[a] + t.log[b]]
  }

  lemma LogEntry(t: Tables, a: byte)
    requires t.Valid() && a != 0
    ensures t.log[a] < 255 && Pow(t.log[a]) == a
  {
    hide Pow;
    assert Pow(Log(a)) == a;
  }

  /** The exponent of a quotient: Python's % takes the sign of the modulus. */
  function LogQuotient(m: nat, n: nat): (i: nat)
    requires m < 255 && n < 255
    ensures i < 255
  {
    (m - n) % 255
  }

  lemma LogQuotientCorrect(m: nat, n: nat)
    requires m < 255 && n < 255
    ensures Mul(Pow(LogQuotient(m, n)), Pow(n)) == Pow(m)
  {
    hide Pow, Mul;
    if m >= n {
      PowAdd(m - n, n);
    } else {
      PowAdd(m + 255 - n, n);
      PowAdd(255, m);
      PowerOf255();
      MulUnits(Pow(m));
    }
  }

  lemma QuotientEntry(t: Tables, a: byte, b: byte)
    requires t.Valid() && a != 0 && b != 0
    ensures t.log[a] < 255 && t.log[b] < 255
    ensures t.exp[LogQuotient(t.log[a], t.log[b])] == Div(a, b)
  {
    hide Pow, Mul, Div, LogQuotient;
    LogEntry(t, a);
    LogEntry(t, b);
    LogQuotientCorrect(t.log[a], t.log[b]);
    var i := LogQuotient(t.log[a], t.log[b]);
    ExpEntry(t, i);
    DivUnique(a, b, Pow(i));
  }

  lemma DivZero(b: byte)
    requires b != 0
    ensures Div(0, b) == 0
  {
    hide Mul, Div;
    MulUnits(b);
    DivUnique(0, b, 0);
  }

  /** Table division raises exactly on a zero divisor, and otherwise undoes multiplication. */
  function GfDiv(t: Tables, a: byte, b: byte): (r: Result<byte, ArithmeticError>)
    requires t.Valid()
    ensures r.Err? <==> b == 0
    ensures r.Ok? ==> r.value == Div(a, b)
  {
    hide Pow, Mul, Div, LogQuotient;
    if b == 0 then Err(ZeroDivision)
    else if a == 0 then DivZero(b); Ok(0)
    else QuotientEntry(t, a, b); Ok(t.exp[LogQuotient(t.log[a], t.log[b])])
  }

  // ------------------------------------------------------------ field laws ----

  /** On the 255 non-zero bytes the two tables undo each other. */
  lemma TablesAreInverse(t: Tables, i: nat, b: byte)
    requires t.Valid() && i < 255 && b != 0
    ensures t.exp[i] != 0 && t.log[t.exp[i]] == i
    ensures t.log[b] < 255 && t.exp[t.log[b]] == b
  {
    hide Pow;
    PowNonZero(i);
    LogEntry(t, b);
  }

  /** Table multiplication is that of a field whose addition is exclusive or. */
  lemma TableLaws(t: Tables, a: byte, b: byte, c: byte)
    requires t.Valid()
    ensures GfMul(t, a, b) == GfMul(t, b, a)
    ensures GfMul(t, GfMul(t, a, b), c) == GfMul(t, a, GfMul(t, b, c))
    ensures GfMul(t, a, Xor(b, c)) == Xor(GfMul(t, a, b), GfMul(t, a, c))
    ensures GfMul(t, a, 1) == a
  {
    hide Mul, Xor, GfMul;
    MulComm(a, b);
    MulAssoc(a, b, c);
    MulXorRight(a, b, c);
    MulUnits(a);
  }

  /** And table division inverts it on both sides. */
  lemma DivisionInverts(t: Tables, a: byte, b: byte)
    requires t.Valid() && b != 0
    ensures GfDiv(t, a, b).Ok? && GfMul(t, GfDiv(t, a, b).value, b) == a
    ensures GfDiv(t, GfMul(t, a, b), b) == Ok(a)
  {
    hide Mul, Div, GfMul, GfDiv;
    DivUnique(Mul(a, b), b, a);
  }
}
