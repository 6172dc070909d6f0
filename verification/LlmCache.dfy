/** The key-value cache: flat arrays in which row (layer, position) starts at
    layer * kv_stride + pos * kv_dim (src/llm/llm_forward.c, llm_model.c). */
module LlmCache {
  import opened Layout
  import opened Quant
  import opened Prefix
  import opened LlmSpec

  /** Rows lie one behind the other. */
  lemma RowsApart(w: nat, a: int, b: int)
    requires 0 <= a && 0 <= b && a != b
    ensures a * w + w <= b * w || b * w + w <= a * w
  {
    if w > 0 {
      Step(a, b, w);
      Step(b, a, w);
    }
  }

  ghost predicate TableFor(net: Net, t: seq<seq<KV>>) {
    |t| == |net.layers| && forall l :: 0 <= l < |t| ==> |t[l]| == net.maxSeq
  }

  /** The table with one row replaced. */
  ghost function Put(net: Net, t: seq<seq<KV>>, l: nat, p: nat, kv: KV): (t': seq<seq<KV>>)
    requires TableFor(net, t) && l < |net.layers| && p < net.maxSeq
    ensures TableFor(net, t')
  {
    t[l := t[l][p := kv]]
  }

  /** Layer l of the table starts with the keys and values of the first n tokens. */
  ghost predicate Holds(net: Net, t: seq<seq<KV>>, toks: seq<nat>, l: nat, n: nat)
    requires TableFor(net, t) && l < |net.layers| && n <= |toks| <= net.maxSeq
  {
    t[l][..n] == KvsTo(MachineOf(net), toks, n, l)
  }

  ghost predicate HoldAll(net: Net, t: seq<seq<KV>>, toks: seq<nat>, from: nat, to: nat, n: nat) {
    TableFor(net, t) && to <= |net.layers| && n <= |toks| <= net.maxSeq && forall l: nat :: from <= l < to ==> Holds(net, t, toks, l, n)
  }

  /** A further token changes nothing of what is cached. */
  lemma Longer(net: Net, t: seq<seq<KV>>, toks: seq<nat>, x: nat)
    requires |toks| < net.maxSeq && HoldAll(net, t, toks, 0, |net.layers|, |toks|)
    ensures HoldAll(net, t, toks + [x], 0, |net.layers|, |toks|)
  {
    var n := |toks|;
    forall l: nat | l < |net.layers| ensures Holds(net, t, toks + [x], l, n) {
      assert Holds(net, t, toks, l, n);
      KvsCausal(MachineOf(net), toks, toks + [x], n, l);
    }
  }

  lemma NoneHeld(net: Net, t: seq<seq<KV>>)
    requires TableFor(net, t)
    ensures HoldAll(net, t, [], 0, |net.layers|, 0)
  {
    var n := 0;
    forall l: nat | l < |net.layers| ensures Holds(net, t, [], l, n) {
      assert t[l][..n] == [];
    }
  }

  /** Caching the next row of layer l. */
  lemma PutRow(net: Net, t: seq<seq<KV>>, toks: seq<nat>, l: nat, pos: nat, kv: KV)
    requires TableFor(net, t) && l < |net.layers| && pos < |toks| <= net.maxSeq && Holds(net, t, toks, l, pos)
    requires KvsTo(MachineOf(net), toks, pos + 1, l) == KvsTo(MachineOf(net), toks, pos, l) + [kv]
    ensures Put(net, t, l, pos, kv)[l][..pos + 1] == KvsTo(MachineOf(net), toks, pos + 1, l)
  {
    assert Put(net, t, l, pos, kv)[l][..pos + 1] == t[l][..pos] + [kv];
  }

  lemma PutElsewhere(net: Net, t: seq<seq<KV>>, toks: seq<nat>, l: nat, pos: nat, kv: KV, from: nat, to: nat, n: nat)
    requires l < |net.layers| && pos < net.maxSeq && HoldAll(net, t, toks, from, to, n) && (to <= l || l < from)
    ensures HoldAll(net, Put(net, t, l, pos, kv), toks, from, to, n)
  {
    forall j: nat | from <= j < to ensures Holds(net, Put(net, t, l, pos, kv), toks, j, n) {
      assert Holds(net, t, toks, j, n);
    }
  }

  lemma PutHolds(net: Net, t: seq<seq<KV>>, toks: seq<nat>, l: nat, pos: nat, kv: KV)
    requires l < |net.layers| && pos < |toks|
    requires HoldAll(net, t, toks, 0, l, pos + 1) && HoldAll(net, t, toks, l, |net.layers|, pos)
    requires KvsTo(MachineOf(net), toks, pos + 1, l) == KvsTo(MachineOf(net), toks, pos, l) + [kv]
    ensures HoldAll(net, Put(net, t, l, pos, kv), toks, 0, l + 1, pos + 1)
    ensures HoldAll(net, Put(net, t, l, pos, kv), toks, l + 1, |net.layers|, pos)
    ensures Put(net, t, l, pos, kv)[l][..pos + 1] == KvsTo(MachineOf(net), toks, pos + 1, l)
  {
    hide KvsTo;
    assert Holds(net, t, toks, l, pos);
    PutRow(net, t, toks, l, pos, kv);
    PutElsewhere(net, t, toks, l, pos, kv, 0, l, pos + 1);
    PutElsewhere(net, t, toks, l, pos, kv, l + 1, |net.layers|, pos);
    assert Holds(net, Put(net, t, l, pos, kv), toks, l, pos + 1);
  }

  class KvCache {
    const net: Net
    const k: array<int8>
    const v: array<int8>
    const kScale: array<uint32>
    const vScale: array<uint32>

    ghost predicate Valid() {
      && k.Length == v.Length == |net.layers| * net.maxSeq * net.KvDim()
      && kScale.Length == vScale.Length == |net.layers| * net.maxSeq
      && k != v && kScale != vScale
    }

    constructor (net: Net)
      ensures this.net == net && Valid() && fresh(k) && fresh(v) && fresh(kScale) && fresh(vScale)
    {
      var slots := |net.layers| * net.maxSeq;
      this.net := net;
      k := new int8[slots * net.KvDim()](i => 0);
      v := new int8[slots * net.KvDim()](i => 0);
      kScale := new uint32[slots];
      vScale := new uint32[slots];
    }

    /** layer * max_seq + pos */
    function Slot(l: nat, p: nat): (s: nat)
      requires l < |net.layers| && p < net.maxSeq
      ensures s < |net.layers| * net.maxSeq
    {
      DigitsBound(net.maxSeq, |net.layers|, l, p);
      l * net.maxSeq + p
    }

    /** layer * kv_stride + pos * kv_dim */
    function Base(l: nat, p: nat): (b: nat)
      requires Valid() && l < |net.layers| && p < net.maxSeq
      ensures b == Slot(l, p) * net.KvDim() && b + net.KvDim() <= k.Length
    {
      BaseIsSlot(l, p);
      l * (net.maxSeq * net.KvDim()) + p * net.KvDim()
    }

    lemma BaseIsSlot(l: nat, p: nat)
      requires Valid() && l < |net.layers| && p < net.maxSeq
      ensures
        var b := l * (net.maxSeq * net.KvDim()) + p * net.KvDim();
        b == Slot(l, p) * net.KvDim() && 0 <= b && b + net.KvDim() <= k.Length
    {
      HeadInside(Slot(l, p), |net.layers| * net.maxSeq, net.KvDim());
      assert l * (net.maxSeq * net.KvDim()) == l * net.maxSeq * net.KvDim();
      assert Slot(l, p) * net.KvDim() >= 0;
    }

    /** What the cache holds for position p of layer l. */
    function Row(l: nat, p: nat): (kv: KV)
      requires Valid() && l < |net.layers| && p < net.maxSeq
      reads k, v, kScale, vScale
      ensures |kv.k.v| == net.KvDim() && |kv.v.v| == net.KvDim()
    {
      var (b, s) := (Base(l, p), Slot(l, p));
      KV(Scaled(k[b..b + net.KvDim()], kScale[s]), Scaled(v[b..b + net.KvDim()], vScale[s]))
    }

    /** The first n rows of layer l, as attention reads them. */
    function Rows(l: nat, n: nat): (kvs: seq<KV>)
      requires Valid() && l < |net.layers| && n <= net.maxSeq
      reads k, v, kScale, vScale
      ensures |kvs| == n && forall p :: 0 <= p < n ==> kvs[p] == Row(l, p)
    {
      if n == 0 then [] else Rows(l, n - 1) + [Row(l, n - 1)]
    }

    /** All rows of the first n layers. */
    ghost function TableTo(n: nat): (t: seq<seq<KV>>)
      requires Valid() && n <= |net.layers|
      reads k, v, kScale, vScale
      ensures |t| == n && forall l :: 0 <= l < n ==> t[l] == Rows(l, net.maxSeq)
    {
      if n == 0 then [] else TableTo(n - 1) + [Rows(n - 1, net.maxSeq)]
    }

    /** The whole cache as a value: layer, then position. */
    ghost function Table(): (t: seq<seq<KV>>)
      requires Valid()
      reads k, v, kScale, vScale
      ensures TableFor(net, t)
    {
      TableTo(|net.layers|)
    }

    lemma RowsOfTable(l: nat, n: nat)
      requires Valid() && l < |net.layers| && n <= net.maxSeq
      ensures Table()[l][..n] == Rows(l, n)
    {
    }

    lemma TableRows()
      requires Valid()
      ensures forall l: nat, p: nat :: l < |net.layers| && p < net.maxSeq ==> Row(l, p) == Table()[l][p]
    {
    }

    /** A table that agrees with every row is the cache's. */
    lemma TableIs(t: seq<seq<KV>>)
      requires Valid() && TableFor(net, t)
      requires forall l: nat, p: nat :: l < |net.layers| && p < net.maxSeq ==> Row(l, p) == t[l][p]
      ensures Table() == t
    {
      forall l | 0 <= l < |net.layers| ensures Table()[l] == t[l] {
        assert forall p: nat :: p < net.maxSeq ==> Row(l, p) == t[l][p];
      }
    }

    lemma PlacesApart(l: nat, p: nat, l': nat, p': nat)
      requires Valid() && l < |net.layers| && p < net.maxSeq && l' < |net.layers| && p' < net.maxSeq && (l != l' || p != p')
      ensures Slot(l, p) != Slot(l', p')
      ensures Base(l, p) + net.KvDim() <= Base(l', p') || Base(l', p') + net.KvDim() <= Base(l, p)
    {
      if Slot(l, p) == Slot(l', p') { Digits(net.maxSeq, l, p, l', p'); }
      RowsApart(net.KvDim(), Slot(l, p), Slot(l', p'));
    }

    /** Writing position p of layer l changes that row and no other. */
    method Store(l: nat, p: nat, kBuf: array<int8>, kS: uint32, vBuf: array<int8>, vS: uint32)
      requires Valid() && l < |net.layers| && p < net.maxSeq && kBuf.Length == vBuf.Length == net.KvDim()
      requires kBuf !in {k, v} && vBuf !in {k, v}
      modifies k, v, kScale, vScale
      ensures Row(l, p) == KV(Scaled(kBuf[..], kS), Scaled(vBuf[..], vS))
      ensures forall l': nat, p': nat :: l' < |net.layers| && p' < net.maxSeq && (l' != l || p' != p) ==> Row(l', p') == old(Row(l', p'))
    {
      var base := Base(l, p);
      Copy(k, base, kBuf);
      Copy(v, base, vBuf);
      kScale[Slot(l, p)] := kS;
      vScale[Slot(l, p)] := vS;
      forall l': nat, p': nat | l' < |net.layers| && p' < net.maxSeq && (l' != l || p' != p)
        ensures Row(l', p') == old(Row(l', p'))
      {
        PlacesApart(l, p, l', p');
      }
    }

    /** The same, on the cache as a value. */
    method Append(l: nat, p: nat, kBuf: array<int8>, kS: uint32, vBuf: array<int8>, vS: uint32)
      requires Valid() && l < |net.layers| && p < net.maxSeq && kBuf.Length == vBuf.Length == net.KvDim()
      requires kBuf !in {k, v} && vBuf !in {k, v}
      modifies k, v, kScale, vScale
      ensures Table() == Put(net, old(Table()), l, p, KV(Scaled(kBuf[..], kS), Scaled(vBuf[..], vS)))
    {
      ghost var t := Table();
      ghost var kv := KV(Scaled(kBuf[..], kS), Scaled(vBuf[..], vS));
      TableRows();
      hide Row, Rows, Table;
      Store(l, p, kBuf, kS, vBuf, vS);
      TableIs(Put(net, t, l, p, kv));
    }

    /** memcpy */
    static method Copy(dst: array<int8>, at: nat, src: array<int8>)
      requires at + src.Length <= dst.Length && src != dst
      modifies dst
      ensures dst[at..at + src.Length] == src[..]
      ensures forall a, b :: 0 <= a <= b <= at || at + src.Length <= a <= b <= dst.Length ==> dst[a..b] == old(dst[a..b])
    {
      ghost var was := dst[..];
      forall i | 0 <= i < src.Length {
        dst[at + i] := src[i];
      }
      forall a, b | 0 <= a <= b <= at || at + src.Length <= a <= b <= dst.Length ensures dst[a..b] == was[a..b] {
        assert forall j :: a <= j < b ==> dst[j] == was[j];
      }
    }
  }
}
