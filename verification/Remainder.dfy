/** Which checksum crc16_ccitt is (src/dev/xmodem_dw_uart.c): the remainder of the block,
    times x^16, by x^16 + x^12 + x^5 + 1, over polynomials whose coefficients are bits. */
module Remainder {
  import opened Bits
  import opened Checksum

  /** Coefficients, highest power first; addition is exclusive or. */
  type Polynomial = seq<bool>

  function Add(a: Polynomial, b: Polynomial): (r: Polynomial)
    requires |a| == |b|
    ensures |r| == |a|
  {
    seq(|a|, i requires 0 <= i < |a| => a[i] != b[i])
  }

  function Zeros(n: nat): (r: Polynomial)
    ensures |r| == n
  {
    seq(n, _ => false)
  }

  /** Long multiplication without carries: one coefficient of q more moves the product up by
      one power and adds g where the coefficient is set. */
  function Product(q: Polynomial, g: Polynomial): (r: Polynomial)
    requires |g| > 0
    ensures |r| == |q| + |g| - 1
    decreases |q|
  {
    if q == [] then Zeros(|g| - 1)
    else
      var n := |q| - 1;
      Add(Product(q[..n], g) + [false], Zeros(n) + if q[n] then g else Zeros(|g|))
  }

  /** x^16 + x^12 + x^5 + 1 */
  const GENERATOR: Polynomial := seq(17, i => 16 - i == 16 || 16 - i == 12 || 16 - i == 5 || 16 - i == 0)

  /** The word with bit i alone, counted from the top. */
  function Mask(i: nat): bv16
    requires i < 16
  {
    if i < 8 then
      if i < 4 then if i == 0 then 0x8000 else if i == 1 then 0x4000 else if i == 2 then 0x2000 else 0x1000
      else if i == 4 then 0x800 else if i == 5 then 0x400 else if i == 6 then 0x200 else 0x100
    else if i < 12 then if i == 8 then 0x80 else if i == 9 then 0x40 else if i == 10 then 0x20 else 0x10
    else if i == 12 then 0x8 else if i == 13 then 0x4 else if i == 14 then 0x2 else 0x1
  }

  predicate On(w: bv16, mask: bv16) { w & mask != 0 }

  function WordBits(w: bv16): (r: Polynomial)
    ensures |r| == 16
  {
    seq(16, i requires 0 <= i < 16 => On(w, Mask(i)))
  }

  function ByteBits(b: byte): (r: Polynomial)
    ensures |r| == 8
  {
    [b & 0x80 != 0, b & 0x40 != 0, b & 0x20 != 0, b & 0x10 != 0, b & 0x8 != 0, b & 0x4 != 0, b & 0x2 != 0, b & 0x1 != 0]
  }

  /** The bits of a block as they go over the wire. */
  function BlockBits(block: seq<byte>): (r: Polynomial)
    ensures |r| == 8 * |block|
  {
    if block == [] then [] else BlockBits(block[..|block| - 1]) + ByteBits(block[|block| - 1])
  }

  // ---------------------------------------------------------------- one bit of long division

  /** The next word: shifted up, the low part of the generator added for a set quotient bit. */
  function Next(w: bv16, t: bool): bv16 { Xor(Up(w), Poly(t)) }

  lemma NextBits(w: bv16, bit: bool)
    ensures
      var t := Top(w) != bit;
      Add(WordBits(w) + [false], if t then GENERATOR else Zeros(17)) == [bit] + WordBits(Next(w, t))
  {
    var t := Top(w) != bit;
    NextWord(w, t);
    GeneratorBits();
    AddGenerator(WordBits(w), WordBits(Next(w, t)), t, bit);
  }

  lemma GeneratorBits()
    ensures |GENERATOR| == 17 && forall i :: 0 <= i < 17 ==> GENERATOR[i] == (i == 0 || i == 4 || i == 11 || i == 16)
  {
  }

  /** One step of long division on the coefficients. */
  ghost predicate Divided(a: Polynomial, v: Polynomial, t: bool)
    requires |a| == |v| == 16
  {
    v[15] == t && forall i :: 0 <= i < 15 ==> v[i] == (a[i + 1] != (t && (i == 3 || i == 10)))
  }

  lemma AddGenerator(a: Polynomial, v: Polynomial, t: bool, bit: bool)
    requires |a| == |v| == 16 && Divided(a, v, t) && t == (a[0] != bit)
    requires forall i :: 0 <= i < 17 ==> GENERATOR[i] == (i == 0 || i == 4 || i == 11 || i == 16)
    ensures Add(a + [false], if t then GENERATOR else Zeros(17)) == [bit] + v
  {
    var (sum, goal) := (Add(a + [false], if t then GENERATOR else Zeros(17)), [bit] + v);
    forall i | 0 <= i < 17 ensures sum[i] == goal[i] {
      assert sum[i] == ((a + [false])[i] != (t && GENERATOR[i]));
      if 0 < i < 16 { assert goal[i] == v[i - 1] == (a[i] != (t && (i == 4 || i == 11))); }
    }
  }

  lemma NextWord(w: bv16, t: bool)
    ensures Divided(WordBits(w), WordBits(Next(w, t)), t) && WordBits(w)[0] == Top(w)
  {
    TopBit(w);
    var (a, v) := (WordBits(w), WordBits(Next(w, t)));
    forall i | 0 <= i < 15 ensures v[i] == (a[i + 1] != (t && (i == 3 || i == 10))) { BitNext(w, t, i); }
    LastBit(w, t);
  }

  lemma TopBit(w: bv16)
    ensures On(w, 0x8000) == Top(w)
  {
  }

  lemma LastBit(w: bv16, t: bool)
    ensures On(Next(w, t), 1) == t
  {
  }

  lemma BitNext(w: bv16, t: bool, i: nat)
    requires i < 15
    ensures On(Next(w, t), Mask(i)) == (On(w, Mask(i + 1)) != (t && (i == 3 || i == 10)))
  {
    MaskHalves(i);
    hide Mask, On, Next;
    MaskNext(w, t, Mask(i));
  }

  lemma MaskHalves(i: nat)
    requires i < 15
    ensures Mask(i) > 1 && Mask(i) & (Mask(i) - 1) == 0 && Mask(i) >> 1 == Mask(i + 1)
    ensures On(0x1021, Mask(i)) == (i == 3 || i == 10)
  {
  }

  /** A single bit of the next word is its lower neighbour, changed where the generator has
      a coefficient. */
  lemma MaskNext(w: bv16, t: bool, m: bv16)
    requires m > 1 && m & (m - 1) == 0
    ensures On(Next(w, t), m) == (On(w, m >> 1) != (t && On(0x1021, m)))
  {
  }

  /** If q times the generator spells a message and a word, one more message bit gives one
      more quotient bit and the next word. */
  lemma OneBit(q: Polynomial, m: Polynomial, w: bv16, bit: bool)
    requires |q| == |m| && Product(q, GENERATOR) == m + WordBits(w)
    ensures Product(q + [Top(w) != bit], GENERATOR) == m + [bit] + WordBits(Next(w, Top(w) != bit))
  {
    var t := Top(w) != bit;
    NextBits(w, bit);
    hide WordBits, Next, Top, Product, Add;
    Carried(q, m, WordBits(w), WordBits(Next(w, t)), t, bit, GENERATOR);
  }

  lemma Carried(q: Polynomial, m: Polynomial, a: Polynomial, v: Polynomial, t: bool, bit: bool, g: Polynomial)
    requires |g| == 17 && |q| == |m| && |a| == |v| == 16 && Product(q, g) == m + a
    requires Add(a + [false], if t then g else Zeros(17)) == [bit] + v
    ensures Product(q + [t], g) == m + [bit] + v
  {
    OneMore(q, t, g);
    hide Product, Add;
    TailSum(m, a + [false], if t then g else Zeros(17));
    assert m + a + [false] == m + (a + [false]);
    assert m + ([bit] + v) == m + [bit] + v;
  }

  lemma OneMore(q: Polynomial, t: bool, g: Polynomial)
    requires |g| > 0
    ensures Product(q + [t], g) == Add(Product(q, g) + [false], Zeros(|q|) + if t then g else Zeros(|g|))
  {
    assert (q + [t])[..|q|] == q;
  }

  lemma TailSum(m: Polynomial, a: Polynomial, b: Polynomial)
    requires |a| == |b|
    ensures Add(m + a, Zeros(|m|) + b) == m + Add(a, b)
  {
  }

  // ---------------------------------------------------------------- bytes and blocks

  /** Bits of a byte still to come, in the upper half of the word, after j shifts. */
  function Pending(b: byte, j: nat): bv16
    decreases j
  {
    if j == 0 then High(b) else Up(Pending(b, j - 1))
  }

  lemma PendingTops(b: byte)
    ensures forall j :: 0 <= j < 8 ==> Top(Pending(b, j)) == ByteBits(b)[j]
    ensures Pending(b, 8) == 0
  {
    PendingWords(b);
    hide Pending;
    PendingHigh(b);
    PendingLow(b);
  }

  lemma PendingWords(b: byte)
    ensures Pending(b, 0) == High(b) && Pending(b, 1) == High(b) << 1 && Pending(b, 2) == High(b) << 2
    ensures Pending(b, 3) == High(b) << 3 && Pending(b, 4) == High(b) << 4 && Pending(b, 5) == High(b) << 5
    ensures Pending(b, 6) == High(b) << 6 && Pending(b, 7) == High(b) << 7 && Pending(b, 8) == 0
  {
    hide High;
    HighGone(b);
    UpTwice(High(b));
  }

  lemma UpTwice(w: bv16)
    ensures Up(w) == w << 1 && Up(w << 1) == w << 2 && Up(w << 2) == w << 3 && Up(w << 3) == w << 4
    ensures Up(w << 4) == w << 5 && Up(w << 5) == w << 6 && Up(w << 6) == w << 7 && Up(w << 7) == w << 8
  {
  }

  lemma HighGone(b: byte)
    ensures High(b) << 8 == 0
  {
  }

  lemma PendingHigh(b: byte)
    ensures Top(High(b)) == (b & 0x80 != 0) && Top(High(b) << 1) == (b & 0x40 != 0)
    ensures Top(High(b) << 2) == (b & 0x20 != 0) && Top(High(b) << 3) == (b & 0x10 != 0)
  {
  }

  lemma PendingLow(b: byte)
    ensures Top(High(b) << 4) == (b & 0x8 != 0) && Top(High(b) << 5) == (b & 0x4 != 0)
    ensures Top(High(b) << 6) == (b & 0x2 != 0) && Top(High(b) << 7) == (b & 0x1 != 0)
  {
  }

  /** A register that holds w and pending bits p moves to the next word and the next
      pending bits, whichever bit leaves it. */
  lemma ShiftIsNext(w: bv16, p: bv16)
    ensures Shift(Xor(w, p)) == Xor(Next(w, Top(w) != Top(p)), Up(p))
  {
    hide Xor, Up, Top, Poly;
    UpLinear(w, p);
    TopLinear(w, p);
    var t := Top(w) != Top(p);
    XorAssociates(Up(w), Up(p), Poly(t));
    XorCommutes(Up(p), Poly(t));
    XorAssociates(Up(w), Poly(t), Up(p));
  }

  /** The first j bits of a further byte. */
  lemma {:induction false} SomeBits(q: Polynomial, m: Polynomial, c: bv16, b: byte, j: nat) returns (q': Polynomial, w: bv16)
    requires j <= 8 && |q| == |m| && Product(q, GENERATOR) == m + WordBits(c)
    ensures |q'| == |m| + j && Product(q', GENERATOR) == m + ByteBits(b)[..j] + WordBits(w)
    ensures Shifts(Xor(c, High(b)), 8) == Shifts(Xor(w, Pending(b, j)), 8 - j)
    decreases j
  {
    hide WordBits, ByteBits, Xor, Shift, High;
    if j == 0 {
      q', w := q, c;
      assert m + ByteBits(b)[..0] == m;
    } else {
      var v;
      q', v := SomeBits(q, m, c, b, j - 1);
      PendingTops(b);
      var bit := ByteBits(b)[j - 1];
      ShiftIsNext(v, Pending(b, j - 1));
      hide Pending, Next;
      assert ByteBits(b)[..j] == ByteBits(b)[..j - 1] + [bit];
      assert m + ByteBits(b)[..j - 1] + [bit] == m + ByteBits(b)[..j];
      OneBit(q', m + ByteBits(b)[..j - 1], v, bit);
      q', w := q' + [Top(v) != bit], Next(v, Top(v) != bit);
    }
  }
  /** A further byte of the block. */
  lemma OneByte(q: Polynomial, m: Polynomial, c: bv16, b: byte) returns (q': Polynomial)
    requires |q| == |m| && Product(q, GENERATOR) == m + WordBits(c)
    ensures |q'| == |m| + 8 && Product(q', GENERATOR) == m + ByteBits(b) + WordBits(Absorb(c, b))
  {
    hide WordBits, ByteBits, Xor, Shift, High;
    var w;
    q', w := SomeBits(q, m, c, b, 8);
    PendingTops(b);
    XorNone(w);
    assert ByteBits(b)[..8] == ByteBits(b);
  }

  /** The block's bits, followed by its checksum, are a multiple of the generator. */
  lemma {:induction false} ChecksumDivides(block: seq<byte>) returns (q: Polynomial)
    ensures |q| == 8 * |block| && Product(q, GENERATOR) == BlockBits(block) + WordBits(Crc(0, block))
  {
    hide ByteBits, Absorb;
    if block == [] {
      q := [];
      NothingLeft();
    } else {
      var n := |block| - 1;
      q := ChecksumDivides(block[..n]);
      hide WordBits;
      q := OneByte(q, BlockBits(block[..n]), Crc(0, block[..n]), block[n]);
    }
  }

  lemma NothingLeft()
    ensures WordBits(0) == Zeros(16)
  {
  }

  // ---------------------------------------------------------------- the remainder is unique

  /** One more term of the quotient leaves the product's first coefficients alone and decides
      the next. */
  lemma LeadingTerms(q: Polynomial, t: bool, g: Polynomial)
    requires |g| > 0 && g[0]
    ensures
      var (n, p, r) := (|q|, Product(q, g), Product(q + [t], g));
      r[..n] == p[..n] && r[n] == ((p + [false])[n] != t)
  {
    hide Product;
    OneMore(q, t, g);
    LeadingSum(Product(q, g), g, |q|, t);
  }

  lemma LeadingSum(p: Polynomial, g: Polynomial, n: nat, t: bool)
    requires |g| > 0 && g[0] && |p| == n + |g| - 1
    ensures
      var sum := Add(p + [false], Zeros(n) + if t then g else Zeros(|g|));
      sum[..n] == p[..n] && sum[n] == ((p + [false])[n] != t)
  {
    var (a, b) := (p + [false], Zeros(n) + if t then g else Zeros(|g|));
    assert forall i :: 0 <= i < n ==> a[i] == p[i] && !b[i];
    assert b[n] == t;
  }

  /** With a leading coefficient the product's first coefficients determine the quotient. */
  lemma {:induction false} QuotientUnique(q: Polynomial, q': Polynomial, g: Polynomial)
    requires |q| == |q'| && |g| > 0 && g[0] && Product(q, g)[..|q|] == Product(q', g)[..|q|]
    ensures q == q'
    decreases |q|
  {
    hide Product;
    if q != [] {
      var n := |q| - 1;
      var (b, b', t, t') := (q[..n], q'[..n], q[n], q'[n]);
      assert q == b + [t] && q' == b' + [t'];
      LeadingTerms(b, t, g);
      LeadingTerms(b', t', g);
      PrefixesAgree(Product(q, g), Product(q', g), n);
      QuotientUnique(b, b', g);
    }
  }

  lemma PrefixesAgree(a: Polynomial, a': Polynomial, n: nat)
    requires n < |a| == |a'| && a[..n + 1] == a'[..n + 1]
    ensures a[..n] == a'[..n] && a[n] == a'[n]
  {
    assert a[n] == a[..n + 1][n] && a'[n] == a'[..n + 1][n];
    assert a[..n] == a[..n + 1][..n] && a'[..n] == a'[..n + 1][..n];
  }

  /** crc16_ccitt is the remainder of the block, times x^16, by the generator: sixteen bits
      behind the block make a multiple of the generator exactly when they are its checksum. */
  lemma ChecksumIsRemainder(block: seq<byte>, r: Polynomial)
    requires |r| == 16
    ensures (exists q: Polynomial :: |q| == 8 * |block| && Product(q, GENERATOR) == BlockBits(block) + r) <==> r == WordBits(Crc(0, block))
  {
    hide Product, WordBits, Crc, BlockBits;
    var (m, c) := (BlockBits(block), WordBits(Crc(0, block)));
    var q := ChecksumDivides(block);
    forall q': Polynomial | |q'| == 8 * |block| && Product(q', GENERATOR) == m + r ensures r == c {
      assert (m + r)[..|m|] == m == (m + c)[..|m|];
      QuotientUnique(q', q, GENERATOR);
      assert (m + r)[|m|..] == r && (m + c)[|m|..] == c;
    }
  }
}
