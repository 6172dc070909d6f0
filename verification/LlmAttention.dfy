/** Rotation and attention on the buffers (src/llm/llm_forward.c). */
module LlmAttention {
  import opened Layout
  import opened Scatter
  import opened Quant
  import opened Attention
  import opened LlmSpec
  import opened LlmOps
  import opened LlmCache

  // ---------------------------------------------------------------- rotation in place

  ghost predicate Table(net: Net, cos: seq<int8>, sin: seq<int8>) { |cos| == net.Half() && |sin| == net.Half() }

  /** Heads before hh are rotated, and pairs 0 .. i of head hh. */
  predicate Done(dqkv: nat, half: nat, j: nat, hh: nat, i: nat)
    requires dqkv > 0
  {
    j / dqkv < hh || (j / dqkv == hh && (j % dqkv < i || half <= j % dqkv < half + i))
  }

  ghost predicate Rotating(net: Net, was: seq<int8>, now: seq<int8>, cos: seq<int8>, sin: seq<int8>, hh: nat, i: nat)
    requires Table(net, cos, sin) && |was| % net.dqkv == 0
  {
    && |now| == |was|
    && forall j :: 0 <= j < |was| ==>
         now[j] == if Done(net.dqkv, net.Half(), j, hh, i) then RopeAt(was, net.dqkv, net.Half(), cos, sin, j) else was[j]
  }

  lemma PairPlaces(d: nat, heads: nat, hh: nat, i: nat)
    requires hh < heads && i < d / 2
    ensures
      var (j, k) := (hh * d + i, hh * d + i + d / 2);
      0 <= j < k < heads * d && j / d == hh && j % d == i && k / d == hh && k % d == i + d / 2
  {
    HeadInside(hh, heads, d);
    QuotRem(d, hh, i);
    QuotRem(d, hh, i + d / 2);
  }

  lemma RotatePair(net: Net, was: seq<int8>, now: seq<int8>, cos: seq<int8>, sin: seq<int8>, heads: nat, hh: nat, i: nat)
    requires Table(net, cos, sin) && |was| == heads * net.dqkv && |was| % net.dqkv == 0
    requires Rotating(net, was, now, cos, sin, hh, i) && hh < heads && i < net.Half()
    ensures
      var (j, k) := (hh * net.dqkv + i, hh * net.dqkv + i + net.Half());
      && 0 <= j < k < |now|
      && Rotating(net, was, now[j := Rotated(now[j], cos[i], -(now[k] as int), sin[i])][k := Rotated(now[k], cos[i], now[j], sin[i])],
                  cos, sin, hh, i + 1)
  {
    var d := net.dqkv;
    PairPlaces(d, heads, hh, i);
    var (j, k) := (hh * d + i, hh * d + i + net.Half());
    forall x | 0 <= x < |was| && x / d == hh && x % d == i ensures x == j { DivMod(x, d); }
    forall x | 0 <= x < |was| && x / d == hh && x % d == i + net.Half() ensures x == k { DivMod(x, d); }
  }

  lemma HeadRotated(net: Net, was: seq<int8>, now: seq<int8>, cos: seq<int8>, sin: seq<int8>, hh: nat)
    requires Table(net, cos, sin) && |was| % net.dqkv == 0 && Rotating(net, was, now, cos, sin, hh, net.Half())
    ensures Rotating(net, was, now, cos, sin, hh + 1, 0)
  {
    forall j | 0 <= j < |was|
      ensures now[j] == if Done(net.dqkv, net.Half(), j, hh + 1, 0) then RopeAt(was, net.dqkv, net.Half(), cos, sin, j) else was[j]
    {
      DivMod(j, net.dqkv);
    }
  }

  lemma NoneRotated(net: Net, was: seq<int8>, cos: seq<int8>, sin: seq<int8>)
    requires Table(net, cos, sin) && |was| % net.dqkv == 0
    ensures Rotating(net, was, was, cos, sin, 0, 0)
  {
    forall j | 0 <= j < |was| ensures !Done(net.dqkv, net.Half(), j, 0, 0) { DivMod(j, net.dqkv); }
  }

  lemma AllRotated(net: Net, was: seq<int8>, now: seq<int8>, cos: seq<int8>, sin: seq<int8>, heads: nat)
    requires Table(net, cos, sin) && |was| == heads * net.dqkv && |was| % net.dqkv == 0
    requires Rotating(net, was, now, cos, sin, heads, 0)
    ensures now == Rope(was, net.dqkv, net.Half(), cos, sin)
  {
    forall j | 0 <= j < |was| ensures Done(net.dqkv, net.Half(), j, heads, 0) { QuotBelow(j, net.dqkv, heads); }
  }

  /** rope */
  method RopeInPlace(net: Net, data: array<int8>, heads: nat, cos: seq<int8>, sin: seq<int8>)
    requires Table(net, cos, sin) && data.Length == heads * net.dqkv && data.Length % net.dqkv == 0
    modifies data
    ensures data[..] == Rope(old(data[..]), net.dqkv, net.Half(), cos, sin)
  {
    ghost var was := data[..];
    NoneRotated(net, was, cos, sin);
    for hh := 0 to heads
      invariant Rotating(net, was, data[..], cos, sin, hh, 0)
    {
      RopeHead(net, data, heads, hh, cos, sin, was);
      HeadRotated(net, was, data[..], cos, sin, hh);
    }
    AllRotated(net, was, data[..], cos, sin, heads);
  }

  method RopeHead(net: Net, data: array<int8>, heads: nat, hh: nat, cos: seq<int8>, sin: seq<int8>, ghost was: seq<int8>)
    requires Table(net, cos, sin) && data.Length == |was| == heads * net.dqkv && |was| % net.dqkv == 0 && hh < heads
    requires Rotating(net, was, data[..], cos, sin, hh, 0)
    modifies data
    ensures Rotating(net, was, data[..], cos, sin, hh, net.Half())
  {
    for i := 0 to net.Half()
      invariant Rotating(net, was, data[..], cos, sin, hh, i)
    {
      RotatePair(net, was, data[..], cos, sin, heads, hh, i);
      var j, k := hh * net.dqkv + i, hh * net.dqkv + i + net.Half();
      ghost var now := data[..];
      var a, b := data[j], data[k];
      data[j] := Rotated(a, cos[i], -(b as int), sin[i]);
      data[k] := Rotated(b, cos[i], a, sin[i]);
      assert data[..] == now[j := Rotated(now[j], cos[i], -(now[k] as int), sin[i])][k := Rotated(now[k], cos[i], now[j], sin[i])];
    }
  }

  // ---------------------------------------------------------------- one head's softmax

  /** What the attention loops read: the first rows of layer l where the cache keeps them,
      and the query buffer. */
  ghost predicate Reading(cache: KvCache, l: nat, kvs: seq<KV>, qBuf: array<int8>, q: Scaled)
    reads cache, cache.k, cache.v, cache.kScale, cache.vScale, qBuf
  {
    && cache.Valid() && l < |cache.net.layers| && |kvs| <= cache.net.maxSeq && kvs == cache.Rows(l, |kvs|)
    && Cached(cache.net, kvs) && qBuf.Length == cache.net.hidden && q.v == qBuf[..]
  }

  method DotSlices(a: array<int8>, i: nat, b: array<int8>, j: nat, n: nat) returns (dot: int)
    requires i + n <= a.Length && j + n <= b.Length
    ensures dot == Dot(a[i..i + n], b[j..j + n])
  {
    dot := 0;
    ghost var x, y := a[i..i + n], b[j..j + n];
    for d := 0 to n
      invariant dot == Dot(x[..d], y[..d])
    {
      assert x[..d + 1][..d] == x[..d] && y[..d + 1][..d] == y[..d];
      dot := dot + Times(a[i + d], b[j + d]);
    }
    assert x[..n] == x && y[..n] == y;
  }

  /** raw[p] for every position. */
  method ScoreHead(cache: KvCache, l: nat, qBuf: array<int8>, qS: uint32, h: nat, raw: array<int>, ghost kvs: seq<KV>, n: nat)
    requires Reading(cache, l, kvs, qBuf, Scaled(qBuf[..], qS)) && n == |kvs| && h < cache.net.nQ && n <= raw.Length
    modifies raw
    ensures raw[..n] == Scores(cache.net, Scaled(qBuf[..], qS), kvs, h)
  {
    ghost var spec := Scores(cache.net, Scaled(qBuf[..], qS), kvs, h);
    for p := 0 to n
      invariant raw[..p] == spec[..p]
    {
      raw[p] := ScoreOne(cache, l, qBuf, qS, h, p, kvs);
      assert spec[..p + 1] == spec[..p] + [spec[p]];
    }
  }

  method ScoreOne(cache: KvCache, l: nat, qBuf: array<int8>, qS: uint32, h: nat, p: nat, ghost kvs: seq<KV>) returns (s: int)
    requires Reading(cache, l, kvs, qBuf, Scaled(qBuf[..], qS)) && h < cache.net.nQ && p < |kvs|
    ensures s == Scores(cache.net, Scaled(qBuf[..], qS), kvs, h)[p]
  {
    HeadInside(h, cache.net.nQ, cache.net.dqkv);
    HeadInside(Group(cache.net, h), cache.net.nKv, cache.net.dqkv);
    hide Score;
    s := ScoreRow(cache, l, p, qBuf, qS, h * cache.net.dqkv, Group(cache.net, h) * cache.net.dqkv);
    assert kvs[p] == cache.Row(l, p);
  }

  /** One key where it lies in the cache against one head of the query. */
  method ScoreRow(cache: KvCache, l: nat, p: nat, qBuf: array<int8>, qS: uint32, from: nat, key: nat) returns (s: int)
    requires cache.Valid() && l < |cache.net.layers| && p < cache.net.maxSeq
    requires from + cache.net.dqkv <= qBuf.Length && key + cache.net.dqkv <= cache.net.KvDim()
    ensures s == Score(Slice(qBuf[..], from, cache.net.dqkv), qS, Slice(cache.Row(l, p).k.v, key, cache.net.dqkv), cache.Row(l, p).k.s)
  {
    var d, at := cache.net.dqkv, cache.Base(l, p) + key;
    var dot := DotSlices(qBuf, from, cache.k, at, d);
    assert cache.k[at..at + d] == Slice(cache.Row(l, p).k.v, key, d);
    s := I64(I64(dot * qS) * cache.kScale[cache.Slot(l, p)]);
  }

  method LargestScore(raw: array<int>, n: nat) returns (rawMax: int)
    requires 0 < n <= raw.Length
    ensures rawMax == MaxOf(raw[..n])
  {
    rawMax := raw[0];
    for p := 1 to n
      invariant rawMax == MaxOf(raw[..p])
    {
      assert raw[..p + 1][..p] == raw[..p];
      if raw[p] > rawMax {
        rawMax := raw[p];
      }
    }
  }

  /** Table lookups and their sum. */
  method Exponentials(raw: array<int>, n: nat, rawMax: int, denom: nat, probs: array<nat>) returns (psum: nat)
    requires 0 < n <= raw.Length && n <= probs.Length && 0 < denom < INT64 && rawMax == MaxOf(raw[..n])
    modifies probs
    ensures probs[..n] == Exps(raw[..n], denom) && psum == Total(Exps(raw[..n], denom))
  {
    hide ExpLut, MaxOf;
    ghost var e := Exps(raw[..n], denom);
    psum := 0;
    for p := 0 to n
      invariant probs[..p] == e[..p] && psum == Total(e[..p])
    {
      assert raw[p] == raw[..n][p];
      var d := Trunc(I64(I64(I64(rawMax - raw[p]) * 32) + denom / 2), denom);
      if d < 0 {
        d := 0;
      }
      if d > 255 {
        d := 255;
      }
      assert d == Distance(raw[p], rawMax, denom);
      assert e[..p + 1][..p] == e[..p];
      probs[p] := ExpLut(d);
      psum := psum + probs[p];
    }
    assert e[..n] == e;
  }

  /** The softmax loops.  The guard psum == 0 is dead: the largest score alone gives 1024. */
  method SoftMax(raw: array<int>, n: nat, denom: nat, probs: array<nat>)
    requires 0 < n <= raw.Length && n <= probs.Length && 0 < denom < INT64
    modifies probs
    ensures probs[..n] == Weights(raw[..n], denom)
  {
    var rawMax := LargestScore(raw, n);
    var psum := Exponentials(raw, n, rawMax, denom, probs);
    BestGets1024(raw[..n], denom);
    Shares(probs, n, psum, Exps(raw[..n], denom));
  }

  method Shares(probs: array<nat>, n: nat, psum: nat, ghost e: seq<nat>)
    requires n <= probs.Length && |e| == n && psum > 0 && probs[..n] == e
    modifies probs
    ensures forall p :: 0 <= p < n ==> probs[p] == Share(e[p], psum)
  {
    for p := 0 to n
      invariant forall j :: 0 <= j < p ==> probs[j] == Share(e[j], psum)
      invariant forall j :: p <= j < n ==> probs[j] == e[j]
    {
      probs[p] := probs[p] * 65535 / psum;
    }
  }

  lemma MixedNext(w: seq<nat>, v: seq<int>, p: nat)
    requires p < |w| == |v|
    ensures Mixed(w[..p + 1], v[..p + 1]) == Mixed(w[..p], v[..p]) + w[p] * v[p]
  {
    assert w[..p + 1][..p] == w[..p] && v[..p + 1][..p] == v[..p];
  }

  lemma MixedNone()
    ensures Mixed([], []) == 0
  {
  }

  /** One output lane: the weighted values, divided by 65535. */
  method MixLane(cache: KvCache, l: nat, qBuf: array<int8>, h: nat, lane: nat, probs: array<nat>, ghost q: Scaled, ghost kvs: seq<KV>, n: nat)
    returns (r: int)
    requires Reading(cache, l, kvs, qBuf, q) && n == |kvs| && h < cache.net.nQ && lane < cache.net.dqkv && n <= probs.Length
    ensures r == Attend(probs[..n], Values(cache.net, kvs, h, lane))
  {
    hide ValueAt, Group, Mixed;
    MixedNone();
    var acc := 0;
    ghost var values := Values(cache.net, kvs, h, lane);
    assert probs[..0] == [] && values[..0] == [];
    for p := 0 to n
      invariant acc == Mixed(probs[..p], values[..p])
    {
      MixedNext(probs[..n], values, p);
      assert probs[..n][..p] == probs[..p] && probs[..n][..p + 1] == probs[..p + 1];
      var vreal := ReadValue(cache, l, h, lane, p);
      acc := acc + probs[p] * vreal;
    }
    assert values[..n] == values;
    r := Trunc(acc, 65535);
  }

  method ReadValue(cache: KvCache, l: nat, h: nat, lane: nat, p: nat) returns (vreal: int)
    requires cache.Valid() && l < |cache.net.layers| && p < cache.net.maxSeq && h < cache.net.nQ && lane < cache.net.dqkv
    ensures vreal == ValueAt(cache.net, cache.Row(l, p), h, lane)
  {
    HeadInside(Group(cache.net, h), cache.net.nKv, cache.net.dqkv);
    vreal := Times(cache.v[cache.Base(l, p) + Group(cache.net, h) * cache.net.dqkv + lane], cache.vScale[cache.Slot(l, p)]);
  }

  /** spec holds the lanes of head h from base on. */
  ghost predicate HeadOf(net: Net, q: Scaled, kvs: seq<KV>, h: nat, base: nat, spec: seq<int>)
    requires |q.v| == net.hidden && Cached(net, kvs) && h < net.nQ
  {
    base + net.dqkv <= |spec| && forall lane: nat :: lane < net.dqkv ==> spec[base + lane] == AttentionAt(net, q, kvs, h, lane)
  }

  lemma ElemAt(net: Net, q: Scaled, kvs: seq<KV>, j: nat, h: nat, lane: nat)
    requires |q.v| == net.hidden && Cached(net, kvs) && h < net.nQ && lane < net.dqkv && j < net.hidden
    requires j / net.dqkv == h && j % net.dqkv == lane
    ensures AttentionReal(net, q, kvs)[j] == AttentionAt(net, q, kvs, h, lane)
  {
    assert AttentionReal(net, q, kvs)[j] == AttentionElem(net, q, kvs, j);
  }

  lemma LanePlace(net: Net, h: nat, lane: nat)
    requires h < net.nQ && lane < net.dqkv
    ensures
      var j := h * net.dqkv + lane;
      0 <= j < net.hidden && j / net.dqkv == h && j % net.dqkv == lane
  {
    HeadInside(h, net.nQ, net.dqkv);
    QuotRem(net.dqkv, h, lane);
  }

  ghost predicate HeadIs(net: Net, q: Scaled, kvs: seq<KV>, h: nat, spec: seq<int>)
    requires |q.v| == net.hidden && Cached(net, kvs) && h < net.nQ
  {
    HeadInside(h, net.nQ, net.dqkv);
    HeadOf(net, q, kvs, h, h * net.dqkv, spec)
  }

  lemma HeadPlaced(net: Net, q: Scaled, kvs: seq<KV>, h: nat)
    requires |q.v| == net.hidden && Cached(net, kvs) && h < net.nQ
    ensures HeadIs(net, q, kvs, h, AttentionReal(net, q, kvs))
  {
    HeadInside(h, net.nQ, net.dqkv);
    forall lane: nat | lane < net.dqkv
      ensures AttentionReal(net, q, kvs)[h * net.dqkv + lane] == AttentionAt(net, q, kvs, h, lane)
    {
      LanePlace(net, h, lane);
      ElemAt(net, q, kvs, h * net.dqkv + lane, h, lane);
    }
  }

  lemma HeadFrom(net: Net, q: Scaled, kvs: seq<KV>, h: nat, base: nat, spec: seq<int>)
    requires |q.v| == net.hidden && Cached(net, kvs) && h < net.nQ && HeadIs(net, q, kvs, h, spec) && base == h * net.dqkv
    ensures HeadOf(net, q, kvs, h, base, spec)
  {
  }

  lemma NextHead(h: nat, d: nat)
    ensures (h + 1) * d == h * d + d
  {
  }

  /** All heads of one position. */
  method AttendAll(cache: KvCache, l: nat, qBuf: array<int8>, qS: uint32, attnReal: array<int>, ghost kvs: seq<KV>, n: nat)
    requires Reading(cache, l, kvs, qBuf, Scaled(qBuf[..], qS)) && n == |kvs| && attnReal.Length == cache.net.hidden
    modifies attnReal
    ensures attnReal[..] == AttentionReal(cache.net, Scaled(qBuf[..], qS), kvs)
  {
    ghost var (net, q) := (cache.net, Scaled(qBuf[..], qS));
    forall h: nat | h < net.nQ ensures HeadIs(net, q, kvs, h, AttentionReal(net, q, kvs)) { HeadPlaced(net, q, kvs, h); }
    AttendHeads(cache, l, qBuf, qS, attnReal, kvs, n, AttentionReal(net, q, kvs));
  }

  method AttendHeads(cache: KvCache, l: nat, qBuf: array<int8>, qS: uint32, attnReal: array<int>, ghost kvs: seq<KV>, n: nat, ghost spec: seq<int>)
    requires Reading(cache, l, kvs, qBuf, Scaled(qBuf[..], qS)) && n == |kvs| && attnReal.Length == |spec| == cache.net.hidden
    requires forall h: nat :: h < cache.net.nQ ==> HeadIs(cache.net, Scaled(qBuf[..], qS), kvs, h, spec)
    modifies attnReal
    ensures attnReal[..] == spec
  {
    hide HeadIs, HeadOf, AttentionAt;
    var net := cache.net;
    var raw, probs := new int[n], new nat[n];
    var root := Isqrt(net.dqkv);
    Pow2Of20();
    HeadSmall(net);
    var base: nat := 0;
    for h := 0 to net.nQ
      invariant base == h * net.dqkv && base <= net.hidden && attnReal[..base] == spec[..base]
    {
      HeadInside(h, net.nQ, net.dqkv);
      NextHead(h, net.dqkv);
      HeadFrom(net, Scaled(qBuf[..], qS), kvs, h, base, spec);
      AttendHead(cache, l, qBuf, qS, h, base, root, raw, probs, attnReal, kvs, n, spec);
      base := base + net.dqkv;
    }
    assert attnReal[..net.hidden] == attnReal[..] && spec[..net.hidden] == spec;
  }

  /** One head: scores, softmax, every lane. */
  method AttendHead(cache: KvCache, l: nat, qBuf: array<int8>, qS: uint32, h: nat, base: nat, root: nat, raw: array<int>, probs: array<nat>,
                    attnReal: array<int>, ghost kvs: seq<KV>, n: nat, ghost spec: seq<int>)
    requires Reading(cache, l, kvs, qBuf, Scaled(qBuf[..], qS)) && n == |kvs| && h < cache.net.nQ && attnReal.Length == |spec|
    requires HeadOf(cache.net, Scaled(qBuf[..], qS), kvs, h, base, spec) && attnReal[..base] == spec[..base]
    requires root == Root(cache.net.dqkv) && 0 < root <= 64 && raw.Length == probs.Length == n && raw != attnReal
    modifies raw, probs, attnReal
    ensures attnReal[..base + cache.net.dqkv] == spec[..base + cache.net.dqkv]
  {
    hide Scores, Weights, AttentionAt;
    ScoreHead(cache, l, qBuf, qS, h, raw, kvs, n);
    SoftMax(raw, n, 0x100_0000_0000 * root, probs);
    MixHead(cache, l, qBuf, h, base, probs, attnReal, Scaled(qBuf[..], qS), kvs, n, spec);
  }

  /** The lanes of one head, whose weights are in probs. */
  method MixHead(cache: KvCache, l: nat, qBuf: array<int8>, h: nat, base: nat, probs: array<nat>, attnReal: array<int>,
                 ghost q: Scaled, ghost kvs: seq<KV>, n: nat, ghost spec: seq<int>)
    requires Reading(cache, l, kvs, qBuf, q) && n == |kvs| && h < cache.net.nQ && attnReal.Length == |spec| && probs.Length == n
    requires HeadOf(cache.net, q, kvs, h, base, spec) && attnReal[..base] == spec[..base]
    requires probs[..n] == Weights(Scores(cache.net, q, kvs, h), Denominator(cache.net))
    modifies attnReal
    ensures attnReal[..base + cache.net.dqkv] == spec[..base + cache.net.dqkv]
  {
    hide Scores, Weights, Denominator, Attend, Values;
    ghost var weights := probs[..n];
    for d := 0 to cache.net.dqkv
      invariant probs[..n] == weights && attnReal[..base + d] == spec[..base + d]
    {
      var out := MixLane(cache, l, qBuf, h, d, probs, q, kvs, n);
      assert out == AttentionAt(cache.net, q, kvs, h, d) == spec[base + d];
      Extend(attnReal, base + d, out, spec);
    }
  }
}
