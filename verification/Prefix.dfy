/** Decoding without a cache, for any deterministic layers: what a position holds before
    each layer is recomputed from the tokens up to it. */
module Prefix {

  /** `embed` starts a position from its token, `kv` makes the key and value a layer keeps
      of it, `out` is the layer itself, reading the keys and values of positions 0 .. p. */
  datatype Machine<!R, !K> = Machine(embed: nat -> R, kv: (nat, R, nat) -> K, out: (nat, R, nat, seq<K>) -> R)

  /** The state of position p before layer l, every earlier key and value recomputed. */
  function Residual<R, K>(m: Machine<R, K>, toks: seq<nat>, p: nat, l: nat): R
    requires p < |toks|
    decreases l, 0
  {
    if l == 0 then m.embed(toks[p])
    else m.out(l - 1, Residual(m, toks, p, l - 1), p, KvsTo(m, toks, p + 1, l - 1))
  }

  /** Key and value of position q at layer l. */
  function KvAt<R, K>(m: Machine<R, K>, toks: seq<nat>, q: nat, l: nat): K
    requires q < |toks|
    decreases l, 1
  {
    m.kv(l, Residual(m, toks, q, l), q)
  }

  /** Keys and values of positions 0 .. n at layer l. */
  function KvsTo<R, K>(m: Machine<R, K>, toks: seq<nat>, n: nat, l: nat): (kvs: seq<K>)
    requires n <= |toks|
    ensures |kvs| == n
    decreases l, 2, n
  {
    if n == 0 then [] else KvsTo(m, toks, n - 1, l) + [KvAt(m, toks, n - 1, l)]
  }

  lemma {:induction false} KvsToAt<R, K>(m: Machine<R, K>, toks: seq<nat>, n: nat, l: nat, q: nat)
    requires q < n <= |toks|
    ensures KvsTo(m, toks, n, l)[q] == KvAt(m, toks, q, l)
  {
    if q < n - 1 { KvsToAt(m, toks, n - 1, l, q); }
  }

  /** Later tokens change nothing. */
  lemma {:induction false} ResidualCausal<R, K>(m: Machine<R, K>, a: seq<nat>, b: seq<nat>, p: nat, l: nat)
    requires p < |a| && p < |b| && forall i :: 0 <= i <= p ==> a[i] == b[i]
    ensures Residual(m, a, p, l) == Residual(m, b, p, l)
    decreases l, 0
  {
    if l > 0 {
      ResidualCausal(m, a, b, p, l - 1);
      KvsCausal(m, a, b, p + 1, l - 1);
    }
  }

  lemma {:induction false} KvsCausal<R, K>(m: Machine<R, K>, a: seq<nat>, b: seq<nat>, n: nat, l: nat)
    requires n <= |a| && n <= |b| && forall i :: 0 <= i < n ==> a[i] == b[i]
    ensures KvsTo(m, a, n, l) == KvsTo(m, b, n, l)
    decreases l, 2, n
  {
    if n > 0 {
      KvsCausal(m, a, b, n - 1, l);
      ResidualCausal(m, a, b, n - 1, l);
    }
  }
}
