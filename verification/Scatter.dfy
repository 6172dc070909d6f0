/** Filling a buffer element by element at computed places, and four-index row-major
    numbering of the elements. */
module Scatter {
  import opened Layout

  /** buf[pos(0)] := val(0), then buf[pos(1)] := val(1), ... n writes in all. */
  function WriteAll(buf: seq<int>, n: nat, pos: int -> int, val: int -> int): (r: seq<int>)
    ensures |r| == |buf|
  {
    if n == 0 then buf
    else
      var b := WriteAll(buf, n - 1, pos, val);
      if 0 <= pos(n - 1) < |b| then b[pos(n - 1) := val(n - 1)] else b
  }

  /** With distinct places nothing is overwritten. */
  lemma {:induction false} WrittenAt(buf: seq<int>, n: nat, pos: int -> int, val: int -> int, k: nat)
    requires k < n && 0 <= pos(k) < |buf|
    requires forall i, j :: 0 <= i < n && 0 <= j < n && pos(i) == pos(j) ==> i == j
    ensures WriteAll(buf, n, pos, val)[pos(k)] == val(k)
  {
    if k < n - 1 {
      assert pos(n - 1) != pos(k);
      WrittenAt(buf, n - 1, pos, val, k);
    }
  }

  lemma {:induction false} NotWritten(buf: seq<int>, n: nat, pos: int -> int, val: int -> int, p: nat)
    requires p < |buf| && forall i :: 0 <= i < n ==> pos(i) != p
    ensures WriteAll(buf, n, pos, val)[p] == buf[p]
  {
    if n > 0 { NotWritten(buf, n - 1, pos, val, p); }
  }

  function At(s: seq<int>, i: int): int { if 0 <= i < |s| then s[i] else 0 }

  lemma ZeroElsewhere(size: nat, n: nat, pos: int -> int, val: int -> int, p: int)
    requires forall i :: 0 <= i < n ==> pos(i) != p
    ensures At(WriteAll(Zeros(size), n, pos, val), p) == 0
  {
    if 0 <= p < size { NotWritten(Zeros(size), n, pos, val, p); }
  }

  lemma HeldWhereWritten(size: nat, n: nat, pos: int -> int, val: int -> int, k: nat)
    requires k < n && 0 <= pos(k) < size
    requires forall i, j :: 0 <= i < n && 0 <= j < n && pos(i) == pos(j) ==> i == j
    ensures At(WriteAll(Zeros(size), n, pos, val), pos(k)) == val(k)
  {
    WrittenAt(Zeros(size), n, pos, val, k);
  }

  /** A single 1, at place p. */
  function OneHot(size: nat, p: int): (r: seq<int>)
    ensures |r| == size
    ensures forall i :: 0 <= i < size ==> r[i] == if i == p then 1 else 0
  {
    seq(size, i requires 0 <= i < size => if i == p then 1 else 0)
  }

  lemma OneHotAt(size: nat, p: int, i: int)
    ensures At(OneHot(size, p), i) == if 0 <= i < size && i == p then 1 else 0
  {
  }

  function Zeros(n: nat): seq<int> { seq(n, _ => 0) }

  /** Row-major number of element (a, b, c, d) when b < nb, c < nc, d < nd. */
  function Encode(nb: nat, nc: nat, nd: nat, a: int, b: int, c: int, d: int): int {
    ((a * nb + b) * nc + c) * nd + d
  }

  /** How many elements there are. */
  function Count(na: nat, nb: nat, nc: nat, nd: nat): nat {
    MulLe(0, na, nb, nb);
    MulLe(0, na * nb, nc, nc);
    MulLe(0, na * nb * nc, nd, nd);
    na * nb * nc * nd
  }

  datatype Index = Index(a: int, b: int, c: int, d: int)

  function Decode(nb: nat, nc: nat, nd: nat, s: int): Index
    requires nb > 0 && nc > 0 && nd > 0
  {
    Index(s / nd / nc / nb, s / nd / nc % nb, s / nd % nc, s % nd)
  }

  lemma QuotRem(m: nat, q: int, r: int)
    requires 0 <= r < m
    ensures (q * m + r) / m == q && (q * m + r) % m == r
  {
    DivMod(q * m + r, m);
    Digits(m, q, r, (q * m + r) / m, (q * m + r) % m);
  }

  lemma DecodeEncode(na: nat, nb: nat, nc: nat, nd: nat, a: int, b: int, c: int, d: int)
    requires 0 <= a < na && 0 <= b < nb && 0 <= c < nc && 0 <= d < nd
    ensures Decode(nb, nc, nd, Encode(nb, nc, nd, a, b, c, d)) == Index(a, b, c, d)
    ensures 0 <= Encode(nb, nc, nd, a, b, c, d) < Count(na, nb, nc, nd)
  {
    QuotRem(nd, (a * nb + b) * nc + c, d);
    QuotRem(nc, a * nb + b, c);
    QuotRem(nb, a, b);
    DigitsBound(nb, na, a, b);
    DigitsBound(nc, na * nb, a * nb + b, c);
    DigitsBound(nd, na * nb * nc, (a * nb + b) * nc + c, d);
  }

  lemma EncodeDecode(na: nat, nb: nat, nc: nat, nd: nat, s: int)
    requires nb > 0 && nc > 0 && nd > 0 && 0 <= s < Count(na, nb, nc, nd)
    ensures
      var i := Decode(nb, nc, nd, s);
      0 <= i.a < na && 0 <= i.b < nb && 0 <= i.c < nc && 0 <= i.d < nd && Encode(nb, nc, nd, i.a, i.b, i.c, i.d) == s
  {
    DivMod(s, nd);
    DivMod(s / nd, nc);
    DivMod(s / nd / nc, nb);
    QuotBelow(s, nd, na * nb * nc);
    QuotBelow(s / nd, nc, na * nb);
    QuotBelow(s / nd / nc, nb, na);
  }

  lemma QuotBelow(s: int, m: nat, n: nat)
    requires m > 0 && 0 <= s < n * m
    ensures 0 <= s / m < n
  {
    DivMod(s, m);
    Step(n, s / m + 1, m);
  }
}
