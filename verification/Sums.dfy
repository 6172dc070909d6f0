/** Finite integer sums, the arithmetic all the operators share. */
module Sums {

  function Sum(n: nat, f: int -> int): int {
    if n == 0 then 0 else Sum(n - 1, f) + f(n - 1)
  }

  lemma {:induction false} SumCong(n: nat, f: int -> int, g: int -> int)
    requires forall i :: 0 <= i < n ==> f(i) == g(i)
    ensures Sum(n, f) == Sum(n, g)
  {
    if n > 0 { SumCong(n - 1, f, g); }
  }

  lemma {:induction false} SumZero(n: nat, f: int -> int)
    requires forall i :: 0 <= i < n ==> f(i) == 0
    ensures Sum(n, f) == 0
  {
    if n > 0 { SumZero(n - 1, f); }
  }

  lemma {:induction false} SumPlus(n: nat, f: int -> int, g: int -> int, h: int -> int)
    requires forall i :: 0 <= i < n ==> h(i) == f(i) + g(i)
    ensures Sum(n, h) == Sum(n, f) + Sum(n, g)
  {
    if n > 0 { SumPlus(n - 1, f, g, h); }
  }

  /** At most one summand is nonzero. */
  lemma {:induction false} SumOne(n: nat, f: int -> int, k: int)
    requires forall i :: 0 <= i < n && i != k ==> f(i) == 0
    ensures Sum(n, f) == if 0 <= k < n then f(k) else 0
  {
    if n > 0 {
      if k == n - 1 { SumZero(n - 1, f); } else { SumOne(n - 1, f, k); }
    }
  }

  /** Summands past the first n vanish. */
  lemma {:induction false} SumPrefix(n: nat, m: nat, f: int -> int)
    requires n <= m && forall i :: n <= i < m ==> f(i) == 0
    ensures Sum(m, f) == Sum(n, f)
  {
    if n < m { SumPrefix(n, m - 1, f); }
  }

  /** The sum read from `from` on: n summands starting there. */
  lemma {:induction false} SumSplit(from: nat, n: nat, f: int -> int, g: int -> int)
    requires forall i :: 0 <= i < n ==> g(i) == f(from + i)
    ensures Sum(from + n, f) == Sum(from, f) + Sum(n, g)
  {
    if n > 0 { SumSplit(from, n - 1, f, g); }
  }

  lemma SumNone(f: int -> int)
    ensures Sum(0, f) == 0
  {
  }

  lemma SumLast(n: nat, f: int -> int)
    requires n > 0
    ensures Sum(n, f) == Sum(n - 1, f) + f(n - 1)
  {
  }

  lemma {:induction false} SumReverse(n: nat, f: int -> int, g: int -> int)
    requires forall i :: 0 <= i < n ==> g(i) == f(n - 1 - i)
    ensures Sum(n, f) == Sum(n, g)
  {
    hide Sum;
    if n == 0 {
      SumNone(f);
      SumNone(g);
    } else {
      var tail := i => f(i + 1);
      forall i | 0 <= i < n - 1 ensures g(i) == tail(n - 2 - i) { assert g(i) == f(n - 1 - i); }
      SumReverse(n - 1, tail, g);
      SumSplit(1, n - 1, f, tail);
      SumNone(f);
      SumLast(1, f);
      SumLast(n, g);
    }
  }

  function Rows(m: nat, f: (int, int) -> int): int -> int { i => Sum(m, j => f(i, j)) }
  function Columns(n: nat, f: (int, int) -> int): int -> int { j => Sum(n, i => f(i, j)) }

  /** Order of summation does not matter. */
  lemma {:induction false} SumSwap(n: nat, m: nat, f: (int, int) -> int)
    ensures Sum(n, Rows(m, f)) == Sum(m, Columns(n, f))
  {
    if n == 0 {
      SumZero(m, Columns(0, f));
    } else {
      SumSwap(n - 1, m, f);
      var row := j => f(n - 1, j);
      assert Rows(m, f)(n - 1) == Sum(m, row);
      forall j | 0 <= j < m ensures Columns(n, f)(j) == Columns(n - 1, f)(j) + row(j) {
        SumCong(n - 1, i => f(i, j), i => f(i, j));
      }
      SumPlus(m, Columns(n - 1, f), row, Columns(n, f));
    }
  }

  lemma {:induction false} SumBound(n: nat, f: int -> int, b: int)
    requires b >= 0 && forall i :: 0 <= i < n ==> -b <= f(i) <= b
    ensures -b * n <= Sum(n, f) <= b * n
  {
    if n > 0 {
      SumBound(n - 1, f, b);
      assert b * n == b * (n - 1) + b && -b * n == -b * (n - 1) - b;
    }
  }
}
