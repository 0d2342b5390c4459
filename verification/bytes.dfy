/**
  Bytes as the integers 0..255, with exclusive or.
 */
module Bytes {

  newtype byte = x: int | 0 <= x < 256

  type bytes = seq<byte>

  function Xor(a: byte, b: byte): byte {
    (a as bv8 ^ b as bv8) as byte
  }

  lemma BitsByte(v: bv8)
    ensures (v as byte) as bv8 == v && (v as int) as bv8 == v
  {}

  lemma BitsSuccessor(v: bv8)
    requires v as int < 255
    ensures (v + 1) as int == v as int + 1
  {}

  /** Every integer below 256 is the value of some eight bits. */
  lemma {:induction false} BitsOf(b: nat) returns (v: bv8)
    requires b < 256
    ensures v as int == b
  {
    if b == 0 {
      v := 0;
    } else {
      v := BitsOf(b - 1);
      BitsSuccessor(v);
      v := v + 1;
    }
  }

  lemma ByteBits(b: byte)
    ensures (b as bv8) as byte == b
  {
    var v := BitsOf(b as int);
    BitsByte(v);
  }

  lemma XorBits(a: byte, b: byte, v: bv8, w: bv8)
    requires a as bv8 == v && b as bv8 == w
    ensures Xor(a, b) == (v ^ w) as byte
  {}

  lemma XorOfBits(v: bv8, w: bv8)
    ensures Xor(v as byte, w as byte) == (v ^ w) as byte
  {
    hide Xor;
    BitsByte(v);
    BitsByte(w);
    XorBits(v as byte, w as byte, v, w);
  }

  lemma XorAssoc(a: byte, b: byte, c: byte)
    ensures Xor(Xor(a, b), c) == Xor(a, Xor(b, c))
  {
    BitsByte(a as bv8 ^ b as bv8);
    BitsByte(b as bv8 ^ c as bv8);
  }

  lemma XorComm(a: byte, b: byte)
    ensures Xor(a, b) == Xor(b, a)
  {}

  lemma XorUnit(a: byte)
    ensures Xor(a, 0) == a && Xor(0, a) == a && Xor(a, a) == 0
  {
    ByteBits(a);
  }

  lemma XorZero(a: byte, b: byte)
    ensures Xor(a, b) == 0 <==> a == b
  {
    if Xor(a, b) == 0 {
      hide Xor;
      XorAssoc(a, b, b);
      XorUnit(a);
      XorUnit(b);
    } else {
      XorUnit(a);
    }
  }

  lemma XorSwap(a: byte, b: byte, c: byte, d: byte)
    ensures Xor(Xor(a, b), Xor(c, d)) == Xor(Xor(a, c), Xor(b, d))
  {
    hide Xor;
    XorAssoc(a, b, Xor(c, d));
    XorAssoc(b, c, d);
    XorComm(b, c);
    XorAssoc(c, b, d);
    XorAssoc(a, c, Xor(b, d));
  }
}
