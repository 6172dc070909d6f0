/** Sixteen-bit words under exclusive or, and one bit of the CRC
    (src/dev/xmodem_dw_uart.c). */
module Bits {

  type byte = bv8

  function Xor(a: bv16, b: bv16): bv16 { a ^ b }
  function Up(a: bv16): bv16 { a << 1 }
  predicate Top(a: bv16) { a & 0x8000 != 0 }
  function Poly(t: bool): bv16 { if t then 0x1021 else 0 }

  /** One bit shifted out, the polynomial 0x1021 subtracted when it was set. */
  function Shift(crc: bv16): bv16 { Xor(Up(crc), Poly(Top(crc))) }

  /** A byte in the upper half of a word. */
  function High(b: byte): bv16 { (b as bv16) << 8 }

  /** The loop body of crc16_ccitt. */
  method ShiftOut(crc: bv16) returns (r: bv16)
    ensures r == Shift(crc)
  {
    if crc & 0x8000 != 0 {
      r := (crc << 1) ^ 0x1021;
    } else {
      r := crc << 1;
    }
  }

  lemma XorAssociates(a: bv16, b: bv16, c: bv16)
    ensures Xor(Xor(a, b), c) == Xor(a, Xor(b, c))
  {
  }

  lemma XorCommutes(a: bv16, b: bv16)
    ensures Xor(a, b) == Xor(b, a)
  {
  }

  lemma XorSelf(a: bv16)
    ensures Xor(a, a) == 0
  {
  }

  lemma XorSwap(a: bv16, b: bv16, x: bv16, y: bv16)
    ensures Xor(Xor(a, x), Xor(b, y)) == Xor(Xor(a, b), Xor(x, y))
  {
    hide Xor;
    XorAssociates(a, x, Xor(b, y));
    XorAssociates(x, b, y);
    XorCommutes(x, b);
    XorAssociates(b, x, y);
    XorAssociates(a, b, Xor(x, y));
  }

  lemma UpLinear(a: bv16, b: bv16)
    ensures Up(Xor(a, b)) == Xor(Up(a), Up(b))
  {
  }

  lemma TopLinear(a: bv16, b: bv16)
    ensures Top(Xor(a, b)) == (Top(a) != Top(b))
  {
  }

  lemma PolyLinear(s: bool, t: bool)
    ensures Poly(s != t) == Xor(Poly(s), Poly(t))
  {
  }

  lemma ShiftLinear(a: bv16, b: bv16)
    ensures Shift(Xor(a, b)) == Xor(Shift(a), Shift(b))
  {
    hide Xor, Up, Top, Poly;
    UpLinear(a, b);
    TopLinear(a, b);
    PolyLinear(Top(a), Top(b));
    XorSwap(Up(a), Up(b), Poly(Top(a)), Poly(Top(b)));
  }

  lemma ShiftInvertible(a: bv16)
    ensures Shift(a) == 0 <==> a == 0
  {
  }

  lemma XorNone(a: bv16)
    ensures Xor(a, 0) == a && Xor(0, a) == a
  {
  }

  lemma XorZero(a: bv16, b: bv16)
    ensures Xor(a, b) == 0 <==> a == b
  {
    hide Xor;
    XorSelf(b);
    XorNone(a);
    XorNone(b);
    XorAssociates(a, b, b);
  }

  /** Eight shifts of a word below 256 only move it up: no bit reaches the polynomial. */
  lemma LowMovesUp(x: byte)
    ensures Shift(Shift(Shift(Shift(Shift(Shift(Shift(Shift(x as bv16)))))))) == High(x)
  {
  }

  lemma HighDiffers(x: byte, y: byte)
    ensures High(x) == High(y) ==> x == y
  {
  }

  /** Two words in halves are equal only if both halves are. */
  lemma HalvesDiffer(x: byte, y: byte, x': byte, y': byte)
    ensures Xor(Xor(High(x), High(x')), Xor(y as bv16, y' as bv16)) == 0 ==> x == x' && y == y'
  {
  }
}
