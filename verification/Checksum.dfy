/** CRC-16, polynomial 0x1021, initial value 0 (src/dev/xmodem_dw_uart.c, crc16_ccitt):
    linear over exclusive or, invertible bit by bit, and so never the same for two blocks
    that differ within two adjacent bytes. */
module Checksum {
  import opened Bits

  function Shifts(crc: bv16, n: nat): bv16
    decreases n
  {
    if n == 0 then crc else Shifts(Shift(crc), n - 1)
  }

  function Absorb(crc: bv16, b: byte): bv16 { Shifts(Xor(crc, High(b)), 8) }

  /** The checksum of a block, from a starting value. */
  function Crc(start: bv16, buf: seq<byte>): bv16 {
    if buf == [] then start else Absorb(Crc(start, buf[..|buf| - 1]), buf[|buf| - 1])
  }

  /** crc16_ccitt */
  method Crc16(buf: seq<byte>) returns (crc: bv16)
    ensures crc == Crc(0, buf)
  {
    hide Shift, Xor, High;
    crc := 0;
    for k := 0 to |buf|
      invariant crc == Crc(0, buf[..k])
    {
      assert buf[..k + 1][..k] == buf[..k];
      crc := Xor(crc, High(buf[k]));
      for i := 0 to 8
        invariant Shifts(crc, 8 - i) == Crc(0, buf[..k + 1])
      {
        crc := ShiftOut(crc);
      }
    }
    assert buf[..|buf|] == buf;
  }

  // ---------------------------------------------------------------- linear and invertible

  lemma {:induction false} ShiftsLinear(a: bv16, b: bv16, n: nat)
    ensures Shifts(Xor(a, b), n) == Xor(Shifts(a, n), Shifts(b, n))
    decreases n
  {
    hide Shift, Xor;
    if n > 0 {
      ShiftLinear(a, b);
      ShiftsLinear(Shift(a), Shift(b), n - 1);
    }
  }

  lemma {:induction false} ShiftsInvertible(a: bv16, n: nat)
    ensures Shifts(a, n) == 0 <==> a == 0
    decreases n
  {
    hide Shift;
    if n > 0 {
      ShiftsInvertible(Shift(a), n - 1);
      ShiftInvertible(a);
    }
  }

  /** The checksum is linear: that of a combination is the combination of the checksums. */
  lemma {:induction false} CrcLinear(a: bv16, b: bv16, s: seq<byte>, t: seq<byte>, st: seq<byte>)
    requires |s| == |t| == |st| && forall i :: 0 <= i < |s| ==> High(st[i]) == Xor(High(s[i]), High(t[i]))
    ensures Crc(Xor(a, b), st) == Xor(Crc(a, s), Crc(b, t))
  {
    hide Shift, Xor, High;
    if s != [] {
      var n := |s| - 1;
      CrcLinear(a, b, s[..n], t[..n], st[..n]);
      AbsorbDiff(Crc(a, s[..n]), Crc(b, t[..n]), s[n], t[n]);
    }
  }

  /** The difference of two checksums after one more byte each. */
  lemma AbsorbDiff(a: bv16, b: bv16, x: byte, y: byte)
    ensures Xor(Absorb(a, x), Absorb(b, y)) == Shifts(Xor(Xor(a, b), Xor(High(x), High(y))), 8)
  {
    hide Shift, Xor, High;
    ShiftsLinear(Xor(a, High(x)), Xor(b, High(y)), 8);
    XorSwap(a, b, High(x), High(y));
  }

  // ---------------------------------------------------------------- two adjacent bytes

  /** Equal further bytes keep different checksums different. */
  lemma {:induction false} StayApart(a: bv16, b: bv16, buf: seq<byte>)
    requires a != b
    ensures Crc(a, buf) != Crc(b, buf)
  {
    hide Shift, Xor, High, Shifts;
    if buf != [] {
      var n := |buf| - 1;
      var (c, d) := (Crc(a, buf[..n]), Crc(b, buf[..n]));
      StayApart(a, b, buf[..n]);
      AbsorbDiff(c, d, buf[n], buf[n]);
      XorZero(High(buf[n]), High(buf[n]));
      XorNone(Xor(c, d));
      XorZero(c, d);
      ShiftsInvertible(Xor(c, d), 8);
      XorZero(Absorb(c, buf[n]), Absorb(d, buf[n]));
    }
  }

  lemma LowShifts(x: byte)
    ensures Shifts(x as bv16, 8) == High(x)
  {
    hide Shift, High;
    LowMovesUp(x);
    var w := x as bv16;
    assert Shifts(w, 8) == Shifts(Shift(Shift(w)), 6) == Shifts(Shift(Shift(Shift(Shift(w)))), 4);
  }

  /** Two bytes in a row, from one starting value: the combined word shifted sixteen times. */
  lemma TwoBytes(c: bv16, x: byte, y: byte, x': byte, y': byte)
    requires x != x' || y != y'
    ensures Absorb(Absorb(c, x), y) != Absorb(Absorb(c, x'), y')
  {
    hide Shift, Xor, High, Shifts, Absorb;
    var (hi, lo) := (Xor(High(x), High(x')), Xor(y as bv16, y' as bv16));
    AbsorbDiff(c, c, x, x');
    XorZero(c, c);
    XorNone(hi);
    AbsorbDiff(Absorb(c, x), Absorb(c, x'), y, y');
    LowShifts(y);
    LowShifts(y');
    ShiftsLinear(y as bv16, y' as bv16, 8);
    ShiftsLinear(hi, lo, 8);
    ShiftsInvertible(Xor(hi, lo), 8);
    ShiftsInvertible(Shifts(Xor(hi, lo), 8), 8);
    HalvesDiffer(x, y, x', y');
    XorZero(Absorb(Absorb(c, x), y), Absorb(Absorb(c, x'), y'));
  }

  lemma {:induction false} CrcConcat(start: bv16, s: seq<byte>, t: seq<byte>)
    ensures Crc(start, s + t) == Crc(Crc(start, s), t)
  {
    hide Shift, Xor, High, Absorb;
    if t == [] {
      assert s + t == s;
    } else {
      var n := |t| - 1;
      assert (s + t)[..|s| + n] == s + t[..n];
      CrcConcat(start, s, t[..n]);
    }
  }

  /** Blocks of any length that differ only within two adjacent bytes never share a CRC. */
  lemma TwoByteErrorsDetected(before: seq<byte>, x: byte, y: byte, x': byte, y': byte, after: seq<byte>)
    requires x != x' || y != y'
    ensures Crc(0, before + [x, y] + after) != Crc(0, before + [x', y'] + after)
  {
    hide Absorb;
    var c := Crc(0, before);
    TwoBytes(c, x, y, x', y');
    AfterTwo(c, x, y);
    AfterTwo(c, x', y');
    CrcConcat(0, before + [x, y], after);
    CrcConcat(0, before + [x', y'], after);
    CrcConcat(0, before, [x, y]);
    CrcConcat(0, before, [x', y']);
    StayApart(Absorb(Absorb(c, x), y), Absorb(Absorb(c, x'), y'), after);
  }

  lemma AfterTwo(c: bv16, x: byte, y: byte)
    ensures Crc(c, [x, y]) == Absorb(Absorb(c, x), y)
  {
    hide Absorb;
    assert [x, y][..1] == [x] && [x][..0] == [];
    assert Crc(c, [x]) == Absorb(c, x);
  }

  lemma OneByte(c: bv16, x: byte, y: byte)
    requires x != y
    ensures Absorb(c, x) != Absorb(c, y)
  {
    hide Shift, Xor, High, Shifts, Absorb;
    AbsorbDiff(c, c, x, y);
    XorZero(c, c);
    XorZero(High(x), High(y));
    XorNone(Xor(High(x), High(y)));
    ShiftsInvertible(Xor(High(x), High(y)), 8);
    HighDiffers(x, y);
    XorZero(Absorb(c, x), Absorb(c, y));
  }

  /** Blocks of one length, one byte included, that differ somewhere but only at places i and
      i + 1 never share a CRC. */
  lemma NearbyErrorsDetected(s: seq<byte>, t: seq<byte>, i: nat)
    requires |s| == |t| && s != t && i < |s| && forall j :: 0 <= j < |s| && j != i && j != i + 1 ==> s[j] == t[j]
    ensures Crc(0, s) != Crc(0, t)
  {
    hide Crc;
    if i + 1 < |s| {
      assert s == s[..i] + [s[i], s[i + 1]] + s[i + 2..] && t == s[..i] + [t[i], t[i + 1]] + s[i + 2..];
      TwoByteErrorsDetected(s[..i], s[i], s[i + 1], t[i], t[i + 1], s[i + 2..]);
    } else {
      assert s == s[..i] + [s[i]] && t == s[..i] + [t[i]];
      LastByte(s[..i], s[i], t[i]);
    }
  }

  lemma LastByte(before: seq<byte>, x: byte, y: byte)
    requires x != y
    ensures Crc(0, before + [x]) != Crc(0, before + [y])
  {
    hide Absorb;
    assert (before + [x])[..|before|] == before && (before + [y])[..|before|] == before;
    OneByte(Crc(0, before), x, y);
  }
}
