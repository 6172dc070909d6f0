/** The language model's forward pass as a function of the tokens seen so far: no cache,
    no buffers, every key and value recomputed (src/llm/llm_forward.c, llm_matmul.c). */
module LlmSpec {
  import opened Layout
  import opened Scatter
  import opened Quant
  import opened Attention
  import opened Prefix
  import opened Generation
  import Sigmoid

  /** int8 values with one scale: real value v * s / 2^20. */
  datatype Scaled = Scaled(v: seq<int8>, s: uint32)

  /** A weight matrix [rows][cols], row-major. */
  datatype Weight = Weight(data: seq<int8>, rows: nat, cols: nat, scale: uint32) {
    predicate Shaped(r: nat, c: nat) { rows == r && cols == c && |data| == r * c }
  }

  datatype Layer = Layer(rmsAtt: Weight, wq: Weight, wk: Weight, wv: Weight, wo: Weight,
                         rmsFfn: Weight, wGate: Weight, wUp: Weight, wDown: Weight)

  const SCRATCH: nat := 4096    // elements of rq, xr, attn_real, act_real and acc
  const SEQ_SCRATCH: nat := 512 // elements of raw and probs

  datatype RawNet = RawNet(hidden: nat, nQ: nat, nKv: nat, dqkv: nat, inter: nat, vocab: nat, maxSeq: nat,
                           embedding: Weight, layers: seq<Layer>, rmsOut: Weight, lmHead: Weight,
                           cos: seq<int8>, sin: seq<int8>)
  {
    function KvDim(): nat { nKv * dqkv }
    function Half(): nat { dqkv / 2 }

    predicate ValidLayer(y: Layer) {
      && y.rmsAtt.Shaped(1, hidden) && y.rmsFfn.Shaped(1, hidden)
      && y.wq.Shaped(hidden, hidden) && y.wk.Shaped(KvDim(), hidden) && y.wv.Shaped(KvDim(), hidden) && y.wo.Shaped(hidden, hidden)
      && y.wGate.Shaped(inter, hidden) && y.wUp.Shaped(inter, hidden) && y.wDown.Shaped(hidden, inter)
    }

    predicate Valid() {
      && 0 < hidden == nQ * dqkv <= SCRATCH && 0 < nKv && 0 < dqkv && nQ % nKv == 0
      && 0 < inter <= SCRATCH && 0 < vocab <= SCRATCH && 0 < maxSeq <= SEQ_SCRATCH
      && embedding.Shaped(vocab, hidden) && rmsOut.Shaped(1, hidden) && lmHead.Shaped(vocab, hidden)
      && |cos| == maxSeq * Half() && |sin| == maxSeq * Half()
      && forall i :: 0 <= i < |layers| ==> ValidLayer(layers[i])
    }
  }

  const TINY := RawNet(1, 1, 1, 1, 1, 1, 1, Weight([0], 1, 1, 1), [], Weight([0], 1, 1, 1), Weight([0], 1, 1, 1), [], [])

  /** A network whose tensors have the sizes its configuration promises, and whose
      configuration stays within the static scratch arrays of the forward pass. */
  type Net = n: RawNet | n.Valid() witness TINY

  // ---------------------------------------------------------------- operators

  function Slice(v: seq<int8>, from: nat, n: nat): (r: seq<int8>)
    requires from + n <= |v|
    ensures |r| == n
  {
    v[from..from + n]
  }

  /** llm_gather_int8 */
  function Embed(net: Net, token: nat): Scaled
    requires token < net.vocab
  {
    DigitsBound(net.hidden, net.vocab, token, 0);
    MulLe(token + 1, net.vocab, net.hidden, net.hidden);
    Scaled(Slice(net.embedding.data, token * net.hidden, net.hidden), net.embedding.scale)
  }

  function Times(a: int, b: int): int { a * b }

  function SumSquares(x: seq<int8>): nat {
    if x == [] then 0 else SumSquares(x[..|x| - 1]) + Times(x[|x| - 1], x[|x| - 1])
  }

  /** Integer root mean square, at least 1. */
  ghost function Rms(x: seq<int8>): (r: nat)
    requires |x| > 0
    ensures r >= 1
  {
    var ms := SumSquares(x) / |x|;
    RootOfSmall(if ms == 0 then 1 else ms);
    Root(if ms == 0 then 1 else ms)
  }

  ghost function Normed(x: seq<int8>, w: Weight): (r: seq<int>)
    requires 0 < |x| <= |w.data|
    ensures |r| == |x|
  {
    seq(|x|, i requires 0 <= i < |x| => Trunc(Times(x[i], w.data[i]) * w.scale, Rms(x)))
  }

  /** An exact array brought back to int8 with its scale. */
  function Rescaled(v: seq<int>): (r: Scaled)
    ensures |r.v| == |v|
  {
    Scaled(RequantAll(v, MaxAbs(v)), OutScale(MaxAbs(v)))
  }

  ghost function RmsNorm(x: seq<int8>, w: Weight): Scaled
    requires 0 < |x| <= |w.data|
  {
    Rescaled(Normed(x, w))
  }

  function Dot(a: seq<int8>, b: seq<int8>): int
    requires |a| == |b|
  {
    if a == [] then 0 else Dot(a[..|a| - 1], b[..|b| - 1]) + Times(a[|a| - 1], b[|b| - 1])
  }

  function WeightRow(w: Weight, n: nat): (r: seq<int8>)
    requires w.Shaped(w.rows, w.cols) && n < w.rows
    ensures |r| == w.cols
  {
    MulLe(n + 1, w.rows, w.cols, w.cols);
    Slice(w.data, n * w.cols, w.cols)
  }

  /** The raw 32-bit accumulators. */
  function Accumulate(x: seq<int8>, w: Weight): (r: seq<int>)
    requires w.Shaped(w.rows, w.cols) && |x| == w.cols
    ensures |r| == w.rows
  {
    seq(w.rows, n requires 0 <= n < w.rows => Dot(x, WeightRow(w, n)))
  }

  /** The output scale of llm_npu_matmul: 64-bit product, at least 1, returned in 32 bits. */
  function MatScale(maxabs: nat, wScale: uint32, inScale: uint32): uint32 {
    var s := maxabs * wScale * inScale % 0x1_0000_0000_0000_0000 / (127 * 0x10_0000);
    (if s < 1 then 1 else s) % TWO32
  }

  function MatVec(x: seq<int8>, inScale: uint32, w: Weight): (r: Scaled)
    requires w.Shaped(w.rows, w.cols) && |x| == w.cols
    ensures |r.v| == w.rows
  {
    var acc := Accumulate(x, w);
    Scaled(RequantAll(acc, MaxAbs(acc)), MatScale(MaxAbs(acc), w.scale, inScale))
  }

  /** One rotated element: >> 7 floors. */
  function Rotated(a: int, c: int, b: int, s: int): int8 { Clamp((a * c + b * s) / 128) }

  lemma HeadsFit(n: nat, d: nat, j: nat)
    requires d > 0 && n % d == 0 && j < n
    ensures j - j % d >= 0 && j - j % d + d <= n
  {
    DivMod(n, d);
    DivMod(j, d);
    Step(j / d, n / d, d);
    Step(n / d, j / d + 1, d);
    assert n == n / d * d;
    assert j - j % d == j / d * d >= 0;
  }

  /** Element j after rotation: each half of a head against the other. */
  function RopeAt(v: seq<int8>, dqkv: nat, half: nat, cos: seq<int8>, sin: seq<int8>, j: nat): int8
    requires 0 < dqkv && half == dqkv / 2 && |cos| == half && |sin| == half && |v| % dqkv == 0 && j < |v|
  {
    HeadsFit(|v|, dqkv, j);
    var i := j % dqkv;
    if i < half then Rotated(v[j], cos[i], -(v[j + half] as int), sin[i])
    else if i < 2 * half then Rotated(v[j], cos[i - half], v[j - half], sin[i - half])
    else v[j]
  }

  function Rope(v: seq<int8>, dqkv: nat, half: nat, cos: seq<int8>, sin: seq<int8>): (r: seq<int8>)
    requires 0 < dqkv && half == dqkv / 2 && |cos| == half && |sin| == half && |v| % dqkv == 0
    ensures |r| == |v|
  {
    seq(|v|, j requires 0 <= j < |v| => RopeAt(v, dqkv, half, cos, sin, j))
  }

  /** With the table values of an angle of 0, cosine 127 and sine 0, an element keeps its
      value exactly when it lies between -127 and 0. */
  lemma RotatedSameIff(a: int8, b: int8)
    ensures Rotated(a, 127, b, 0) == a <==> -127 <= a <= 0
    ensures Rotated(100, 127, b, 0) == 99
  {
    assert b * 0 == 0;
  }

  /** So rotation by 0 is the identity exactly on vectors of such elements, the odd last lane
      of a head aside. */
  lemma RopeIdentityIff(v: seq<int8>, dqkv: nat, half: nat, cos: seq<int8>, sin: seq<int8>)
    requires 0 < dqkv && half == dqkv / 2 && |cos| == half && |sin| == half && |v| % dqkv == 0
    requires forall i :: 0 <= i < half ==> cos[i] == 127 && sin[i] == 0
    ensures Rope(v, dqkv, half, cos, sin) == v <==> forall j :: 0 <= j < |v| && j % dqkv < 2 * half ==> -127 <= v[j] <= 0
  {
    hide Rotated;
    forall j | 0 <= j < |v| && j % dqkv < 2 * half
      ensures Rope(v, dqkv, half, cos, sin)[j] == v[j] <==> -127 <= v[j] <= 0
    {
      HeadsFit(|v|, dqkv, j);
      if j % dqkv < half { RotatedOpposite(v[j], v[j + half]); } else { RotatedSameIff(v[j], v[j - half]); }
    }
  }

  lemma RotatedOpposite(a: int8, b: int8)
    ensures Rotated(a, 127, -(b as int), 0) == a <==> -127 <= a <= 0
  {
    assert -(b as int) * 0 == 0;
  }

  // ---------------------------------------------------------------- attention

  datatype KV = KV(k: Scaled, v: Scaled)

  /** Raw score of one cached key: dot product with both scales (Q40), in 64 bits. */
  function Score(q: seq<int8>, qS: uint32, k: seq<int8>, kS: uint32): int
    requires |q| == |k|
  {
    I64(I64(Dot(q, k) * qS) * kS)
  }

  /** The score before anything wraps. */
  function ExactScore(q: seq<int8>, qS: uint32, k: seq<int8>, kS: uint32): int
    requires |q| == |k|
  {
    Dot(q, k) * qS * kS
  }

  lemma TimesBound(a: int8, b: int8)
    ensures Abs(Times(a, b)) <= 16384
  {
    MulLe(Abs(a), 128, Abs(b), 128);
    assert Abs(Times(a, b)) == Abs(a) * Abs(b);
  }

  /** The 32-bit dot product never wraps within the scratch sizes: 16384 * 4096 = 2^26. */
  lemma {:induction false} DotBound(a: seq<int8>, b: seq<int8>)
    requires |a| == |b|
    ensures Abs(Dot(a, b)) <= 16384 * |a|
  {
    if a != [] {
      DotBound(a[..|a| - 1], b[..|a| - 1]);
      TimesBound(a[|a| - 1], b[|a| - 1]);
    }
  }

  lemma AbsTimes(a: int, b: nat, m: nat, n: nat)
    requires Abs(a) <= m && b <= n
    ensures Abs(a * b) <= m * n
  {
    MulLe(Abs(a), m, b, n);
    assert Abs(a * b) == Abs(a) * b;
  }

  /** A score is the exact product exactly when that fits 64 bits. */
  lemma ScoreExactIff(q: seq<int8>, qS: uint32, k: seq<int8>, kS: uint32)
    requires |q| == |k| <= SCRATCH
    ensures Score(q, qS, k, kS) == ExactScore(q, qS, k, kS) <==> Fits64(ExactScore(q, qS, k, kS))
  {
    DotBound(q, k);
    AbsTimes(Dot(q, k), qS, 16384 * 4096, TWO32);
    I64ExactIff(Dot(q, k) * qS);
    I64ExactIff(Dot(q, k) * qS * kS);
  }

  ghost predicate Cached(net: Net, kvs: seq<KV>) {
    |kvs| > 0 && forall p :: 0 <= p < |kvs| ==> |kvs[p].k.v| == net.KvDim() && |kvs[p].v.v| == net.KvDim()
  }

  /** The raw scores before anything wraps. */
  ghost function ExactScores(net: Net, q: Scaled, kvs: seq<KV>, h: nat): (r: seq<int>)
    requires |q.v| == net.hidden && Cached(net, kvs) && h < net.nQ
    ensures |r| == |kvs|
  {
    HeadInside(h, net.nQ, net.dqkv);
    HeadInside(Group(net, h), net.nKv, net.dqkv);
    seq(|kvs|, p requires 0 <= p < |kvs| =>
      ExactScore(Slice(q.v, h * net.dqkv, net.dqkv), q.s, Slice(kvs[p].k.v, Group(net, h) * net.dqkv, net.dqkv), kvs[p].k.s))
  }

  /** First element of head h among heads of size d. */
  lemma HeadInside(h: nat, heads: nat, d: nat)
    requires h < heads
    ensures 0 <= h * d && h * d + d <= heads * d
  {
    MulLe(h + 1, heads, d, d);
    assert (h + 1) * d == h * d + d;
  }

  /** The key-value head that query head h reads. */
  function Group(net: Net, h: nat): (g: nat)
    requires h < net.nQ
    ensures g < net.nKv
  {
    DivMod(net.nQ, net.nKv);
    var n := net.nQ / net.nKv;
    assert n * net.nKv == net.nQ && n > 0;
    assert net.nKv * n == net.nQ;
    QuotBelow(h, n, net.nKv);
    h / n
  }

  ghost function Scores(net: Net, q: Scaled, kvs: seq<KV>, h: nat): (r: seq<int>)
    requires |q.v| == net.hidden && Cached(net, kvs) && h < net.nQ
    ensures |r| == |kvs|
  {
    HeadInside(h, net.nQ, net.dqkv);
    HeadInside(Group(net, h), net.nKv, net.dqkv);
    seq(|kvs|, p requires 0 <= p < |kvs| =>
      Score(Slice(q.v, h * net.dqkv, net.dqkv), q.s, Slice(kvs[p].k.v, Group(net, h) * net.dqkv, net.dqkv), kvs[p].k.s))
  }

  lemma HeadSmall(net: Net)
    ensures net.dqkv <= SCRATCH && 0 < Root(net.dqkv) <= 64
  {
    MulLe(1, net.nQ, net.dqkv, net.dqkv);
    RootOfSmall(net.dqkv);
    if Root(net.dqkv) > 64 { MulLe(65, Root(net.dqkv), 65, Root(net.dqkv)); }
  }

  /** 2^40 * floor(sqrt(dqkv)), at least 2^40. */
  ghost function Denominator(net: Net): (d: nat)
    ensures 0 < d <= 0x4000_0000_0000
  {
    HeadSmall(net);
    0x100_0000_0000 * Root(net.dqkv)
  }

  /** Lane `lane` of the cached value that query head h reads, with its scale. */
  function ValueAt(net: Net, kv: KV, h: nat, lane: nat): int
    requires |kv.v.v| == net.KvDim() && h < net.nQ && lane < net.dqkv
  {
    HeadInside(Group(net, h), net.nKv, net.dqkv);
    Times(kv.v.v[Group(net, h) * net.dqkv + lane], kv.v.s)
  }

  ghost function Values(net: Net, kvs: seq<KV>, h: nat, lane: nat): (r: seq<int>)
    requires Cached(net, kvs) && h < net.nQ && lane < net.dqkv
    ensures |r| == |kvs|
  {
    seq(|kvs|, p requires 0 <= p < |kvs| => ValueAt(net, kvs[p], h, lane))
  }

  ghost function AttentionAt(net: Net, q: Scaled, kvs: seq<KV>, h: nat, lane: nat): int
    requires |q.v| == net.hidden && Cached(net, kvs) && h < net.nQ && lane < net.dqkv
  {
    Attend(Weights(Scores(net, q, kvs, h), Denominator(net)), Values(net, kvs, h, lane))
  }

  /** Output element j: lane j % dqkv of head j / dqkv. */
  ghost function AttentionElem(net: Net, q: Scaled, kvs: seq<KV>, j: nat): int
    requires |q.v| == net.hidden && Cached(net, kvs) && j < net.hidden
  {
    QuotBelow(j, net.dqkv, net.nQ);
    DivMod(j, net.dqkv);
    AttentionAt(net, q, kvs, j / net.dqkv, j % net.dqkv)
  }

  ghost function AttentionReal(net: Net, q: Scaled, kvs: seq<KV>): (r: seq<int>)
    requires |q.v| == net.hidden && Cached(net, kvs)
    ensures |r| == net.hidden
  {
    seq(net.hidden, j requires 0 <= j < net.hidden => AttentionElem(net, q, kvs, j))
  }

  /** Whatever the scores, the mixing loop of any head and lane stays within 64 bits and its
      output within 128 times 2^32. */
  lemma MixFits64(net: Net, q: Scaled, kvs: seq<KV>, h: nat, lane: nat)
    requires |q.v| == net.hidden && Cached(net, kvs) && h < net.nQ && lane < net.dqkv
    ensures Abs(AttentionAt(net, q, kvs, h, lane)) <= 128 * TWO32
    ensures
      var (w, v) := (Weights(Scores(net, q, kvs, h), Denominator(net)), Values(net, kvs, h, lane));
      forall n :: 0 <= n <= |kvs| ==> Fits64(Mixed(w[..n], v[..n]))
  {
    hide Scores, Weights, Attend, Denominator, Mixed;
    var v := Values(net, kvs, h, lane);
    forall p | 0 <= p < |v| ensures Abs(v[p]) <= 128 * TWO32 { ValueBound(net, kvs[p], h, lane); }
    AttendBound(Scores(net, q, kvs, h), Denominator(net), v, 128 * TWO32);
  }

  lemma ValueBound(net: Net, kv: KV, h: nat, lane: nat)
    requires |kv.v.v| == net.KvDim() && h < net.nQ && lane < net.dqkv
    ensures Abs(ValueAt(net, kv, h, lane)) <= 128 * TWO32
  {
    HeadInside(Group(net, h), net.nKv, net.dqkv);
    AbsTimes(kv.v.v[Group(net, h) * net.dqkv + lane], kv.v.s, 128, TWO32);
  }

  // ---------------------------------------------------------------- when scores are exact

  /** A bound to check before the call: no score and no step of the softmax leaves 64 bits,
      for keys of scale at most sMax. */
  predicate ScoresWithin(net: Net, qS: uint32, sMax: uint32) { 16384 * net.dqkv * qS * sMax < 0x100_0000_0000_0000 }

  lemma ScoreWithin(net: Net, q: seq<int8>, qS: uint32, k: seq<int8>, kS: uint32, sMax: uint32)
    requires |q| == |k| == net.dqkv && kS <= sMax && ScoresWithin(net, qS, sMax)
    ensures Score(q, qS, k, kS) == ExactScore(q, qS, k, kS)
    ensures Abs(Score(q, qS, k, kS)) < 0x100_0000_0000_0000
  {
    HeadSmall(net);
    DotBound(q, k);
    AbsTimes(Dot(q, k), qS, 16384 * net.dqkv, qS);
    AbsTimes(Dot(q, k) * qS, kS, 16384 * net.dqkv * qS, sMax);
    ScoreExactIff(q, qS, k, kS);
  }

  /** Within that bound a higher exact score never gets a smaller weight. */
  lemma ScoresKeepOrder(net: Net, q: Scaled, kvs: seq<KV>, h: nat, sMax: uint32, p: nat, p': nat)
    requires |q.v| == net.hidden && Cached(net, kvs) && h < net.nQ && p < |kvs| && p' < |kvs|
    requires ScoresWithin(net, q.s, sMax) && forall i :: 0 <= i < |kvs| ==> kvs[i].k.s <= sMax
    ensures forall i :: 0 <= i < |kvs| ==> Scores(net, q, kvs, h)[i] == ExactScores(net, q, kvs, h)[i]
    ensures Spread(Scores(net, q, kvs, h)) * 32 + Denominator(net) / 2 < INT64
    ensures ExactScores(net, q, kvs, h)[p] <= ExactScores(net, q, kvs, h)[p'] ==>
      Weights(Scores(net, q, kvs, h), Denominator(net))[p] <= Weights(Scores(net, q, kvs, h), Denominator(net))[p']
  {
    hide Score, ExactScore, ScoresWithin, Weights, Denominator;
    var raw := Scores(net, q, kvs, h);
    HeadInside(h, net.nQ, net.dqkv);
    HeadInside(Group(net, h), net.nKv, net.dqkv);
    forall i | 0 <= i < |kvs|
      ensures raw[i] == ExactScores(net, q, kvs, h)[i] && Abs(raw[i]) < 0x100_0000_0000_0000
    {
      ScoreWithin(net, Slice(q.v, h * net.dqkv, net.dqkv), q.s, Slice(kvs[i].k.v, Group(net, h) * net.dqkv, net.dqkv), kvs[i].k.s, sMax);
    }
    assert MaxOf(raw) in raw && MinOf(raw) in raw;
    if raw[p] <= raw[p'] { WeightsMonotone(raw, Denominator(net), p, p'); }
  }

  /** With one query lane 1 of scale 2^30 and three cached keys, 0, -1 of scale 2^15 and -1
      of scale 2^29: the last score, 2^59 below the best, takes half the weight, and the
      second, 2^45 below it, none. */
  lemma FarScoreWins()
    ensures
      var raw := [Score([1], 0x4000_0000, [0], 1), Score([1], 0x4000_0000, [-1], 0x8000), Score([1], 0x4000_0000, [-1], 0x2000_0000)];
      && raw == [0, -0x2000_0000_0000, -0x800_0000_0000_0000]
      && Weights(raw, 0x100_0000_0000) == [32767, 0, 32767]
  {
    hide Steps, Score, Weights;
    FarScores();
    FarSteps();
    ThreeWeights(0, -0x2000_0000_0000, -0x800_0000_0000_0000, 0x100_0000_0000);
  }

  lemma FarScores()
    ensures Score([1], 0x4000_0000, [0], 1) == 0
    ensures Score([1], 0x4000_0000, [-1], 0x8000) == -0x2000_0000_0000
    ensures Score([1], 0x4000_0000, [-1], 0x2000_0000) == -0x800_0000_0000_0000
  {
    OneLane(0);
    OneLane(-1);
    hide Dot;
  }

  lemma FarSteps()
    ensures Steps(-0x2000_0000_0000, 0, 0x100_0000_0000) >= 255
    ensures Steps(-0x800_0000_0000_0000, 0, 0x100_0000_0000) <= 0
  {
    StepsExact(-0x2000_0000_0000, 0, 0x100_0000_0000);
    I64ExactIff(0x800_0000_0000_0000);
    I64ExactIff(0x80_0000_0000);
    WholeTurn();
    hide I64;
  }

  lemma WholeTurn()
    ensures I64(0x800_0000_0000_0000 * 32) == 0
  {
  }

  lemma OneLane(k: int8)
    ensures Dot([1], [k]) == k
  {
    assert [1][..0] == [] && [k][..0] == [];
    assert Dot([1], [k]) == Dot([], []) + Times(1, k);
  }

  /** A score 2^58 below the best makes the number of steps negative: the guard acts. */
  lemma GuardActs()
    ensures Steps(-0x400_0000_0000_0000, 0, 0x100_0000_0000) < 0
  {
  }

  // ---------------------------------------------------------------- the feed-forward part

  /** silu(g) in Q20: sigmoid from the table at g clamped to a byte, the shift flooring, the
      division by 255 truncating. */
  function Silu(g: int8, gS: uint32): int {
    var gReal := Times(g, gS);
    var idx := Clamp(gReal * 32 / 0x10_0000) as int;
    var sig := Sigmoid.SigmoidLut(if idx < 0 then idx + 256 else idx) + 128;
    Trunc(gReal * sig, 255)
  }

  /** silu(g) * u in Q20: the product in 64 bits, then a flooring shift. */
  function Activated(g: int8, gS: uint32, u: int8, uS: uint32): int {
    I64(Times(Silu(g, gS), Times(u, uS))) / 0x10_0000
  }

  lemma SiluBound(g: int8, gS: uint32)
    ensures Abs(Silu(g, gS)) <= 128 * gS
  {
    var gReal := Times(g, gS);
    var idx := Clamp(gReal * 32 / 0x10_0000) as int;
    var sig := Sigmoid.SigmoidLut(if idx < 0 then idx + 256 else idx) + 128;
    AbsTimes(g, gS, 128, gS);
    AbsTimes(gReal, sig, 128 * gS, 255);
    TruncBound(gReal * sig, 128 * gS);
  }

  lemma TruncBound(a: int, m: nat)
    requires Abs(a) <= m * 255
    ensures Abs(Trunc(a, 255)) <= m
  {
    QuotientMono(Abs(a), m * 255, 255);
    assert m * 255 / 255 == m;
  }

  /** The activation is the exact product, shifted, exactly when the product fits 64 bits;
      scales of product below 2^49 are enough.  Either way what follows fits. */
  lemma ActivatedExactIff(g: int8, gS: uint32, u: int8, uS: uint32)
    ensures
      var exact := Silu(g, gS) * (u * uS);
      && (Activated(g, gS, u, uS) == exact / 0x10_0000 <==> Fits64(exact))
      && (gS * uS < 0x2_0000_0000_0000 ==> Fits64(exact))
    ensures -0x800_0000_0000 <= Activated(g, gS, u, uS) < 0x800_0000_0000
  {
    var exact := Silu(g, gS) * (u * uS);
    SiluBound(g, gS);
    AbsTimes(u, uS, 128, uS);
    ProductBound128(Silu(g, gS), u * uS, gS, uS);
    hide Silu;
    WrapShows(exact);
  }

  lemma ProductBound128(a: int, b: int, s: nat, t: nat)
    requires Abs(a) <= 128 * s && Abs(b) <= 128 * t
    ensures Abs(a * b) <= 16384 * (s * t)
  {
    MulLe(Abs(a), 128 * s, Abs(b), 128 * t);
    assert Abs(a * b) == Abs(a) * Abs(b);
    assert 128 * s * (128 * t) == 16384 * (s * t);
  }

  lemma WrapShows(x: int)
    ensures I64(x) / 0x10_0000 == x / 0x10_0000 <==> Fits64(x)
    ensures -0x800_0000_0000 <= I64(x) / 0x10_0000 < 0x800_0000_0000
  {
  }

  /** Gate and up at 127 with scales 2^31: the activation is not the product. */
  lemma ActivationWraps()
    ensures Activated(127, 0x8000_0000, 127, 0x8000_0000) != Silu(127, 0x8000_0000) * (127 * 0x8000_0000) / 0x10_0000
  {
    assert Silu(127, 0x8000_0000) == 127 * 0x8000_0000 * 250 / 255;
    hide Silu, Activated;
    ActivatedExactIff(127, 0x8000_0000, 127, 0x8000_0000);
  }

  function SwiGlu(g: Scaled, u: Scaled): (r: seq<int>)
    requires |g.v| == |u.v|
    ensures |r| == |g.v|
  {
    seq(|g.v|, i requires 0 <= i < |g.v| => Activated(g.v[i], g.s, u.v[i], u.s))
  }

  // ---------------------------------------------------------------- one layer

  /** Row pos of a rotation table. */
  function TableRow(net: Net, table: seq<int8>, pos: nat): (r: seq<int8>)
    requires pos < net.maxSeq && |table| == net.maxSeq * net.Half()
    ensures |r| == net.Half()
  {
    HeadInside(pos, net.maxSeq, net.Half());
    Slice(table, pos * net.Half(), net.Half())
  }

  function Roped(net: Net, x: Scaled, pos: nat): (r: Scaled)
    requires pos < net.maxSeq && |x.v| % net.dqkv == 0
    ensures |r.v| == |x.v|
  {
    Scaled(Rope(x.v, net.dqkv, net.Half(), TableRow(net, net.cos, pos), TableRow(net, net.sin, pos)), x.s)
  }

  lemma HeadsDivide(heads: nat, d: nat)
    requires d > 0
    ensures heads * d % d == 0
  {
    QuotRem(d, heads, 0);
  }

  /** Key and value of one position, computed from its residual. */
  ghost function KvOf(net: Net, l: nat, r: Scaled, pos: nat): (kv: KV)
    requires l < |net.layers| && |r.v| == net.hidden && pos < net.maxSeq
    ensures |kv.k.v| == net.KvDim() && |kv.v.v| == net.KvDim()
  {
    HeadsDivide(net.nKv, net.dqkv);
    var n := RmsNorm(r.v, net.layers[l].rmsAtt);
    KV(Roped(net, MatVec(n.v, n.s, net.layers[l].wk), pos), MatVec(n.v, n.s, net.layers[l].wv))
  }

  ghost function QueryOf(net: Net, l: nat, r: Scaled, pos: nat): (q: Scaled)
    requires l < |net.layers| && |r.v| == net.hidden && pos < net.maxSeq
    ensures |q.v| == net.hidden
  {
    HeadsDivide(net.nQ, net.dqkv);
    var n := RmsNorm(r.v, net.layers[l].rmsAtt);
    Roped(net, MatVec(n.v, n.s, net.layers[l].wq), pos)
  }

  /** The residual after attention over the given keys and values. */
  ghost function Attended(net: Net, l: nat, r: Scaled, pos: nat, kvs: seq<KV>): (r': Scaled)
    requires l < |net.layers| && |r.v| == net.hidden && pos < net.maxSeq && Cached(net, kvs)
    ensures |r'.v| == net.hidden
  {
    var a := Rescaled(AttentionReal(net, QueryOf(net, l, r, pos), kvs));
    var o := MatVec(a.v, a.s, net.layers[l].wo);
    Rescaled(ScaledSum(r.v, r.s, o.v, o.s))
  }

  /** The residual after the feed-forward part. */
  ghost function FedForward(net: Net, l: nat, r: Scaled): (r': Scaled)
    requires l < |net.layers| && |r.v| == net.hidden
    ensures |r'.v| == net.hidden
  {
    var n := RmsNorm(r.v, net.layers[l].rmsFfn);
    var act := Rescaled(SwiGlu(MatVec(n.v, n.s, net.layers[l].wGate), MatVec(n.v, n.s, net.layers[l].wUp)));
    var d := MatVec(act.v, act.s, net.layers[l].wDown);
    Rescaled(ScaledSum(r.v, r.s, d.v, d.s))
  }

  ghost function LayerOut(net: Net, l: nat, r: Scaled, pos: nat, kvs: seq<KV>): (r': Scaled)
    requires l < |net.layers| && |r.v| == net.hidden && pos < net.maxSeq && Cached(net, kvs)
    ensures |r'.v| == net.hidden
  {
    FedForward(net, l, Attended(net, l, r, pos, kvs))
  }

  // ---------------------------------------------------------------- the whole network

  ghost predicate ValidTokens(net: Net, toks: seq<nat>) {
    0 < |toks| <= net.maxSeq && forall i :: 0 <= i < |toks| ==> toks[i] < net.vocab
  }

  ghost function EmbedAny(net: Net): nat -> Scaled { (t: nat) => if t < net.vocab then Embed(net, t) else Scaled([], 0) }

  ghost function KvAny(net: Net): (nat, Scaled, nat) -> KV {
    (l: nat, r: Scaled, pos: nat) => if l < |net.layers| && |r.v| == net.hidden && pos < net.maxSeq then KvOf(net, l, r, pos) else KV(r, r)
  }

  ghost function OutAny(net: Net): (nat, Scaled, nat, seq<KV>) -> Scaled {
    (l: nat, r: Scaled, pos: nat, kvs: seq<KV>) =>
      if l < |net.layers| && |r.v| == net.hidden && pos < net.maxSeq && Cached(net, kvs) then LayerOut(net, l, r, pos, kvs) else r
  }

  /** The network as a cache-free machine. */
  ghost function MachineOf(net: Net): Machine<Scaled, KV> { Machine(EmbedAny(net), KvAny(net), OutAny(net)) }

  /** The raw logits that residual r of the last position gives. */
  ghost function LogitsOf(net: Net, r: Scaled): (v: seq<int>)
    requires |r.v| == net.hidden
    ensures |v| == net.vocab
  {
    Accumulate(RmsNorm(r.v, net.rmsOut).v, net.lmHead)
  }

  /** The raw logits after the last token, recomputed from all the tokens. */
  ghost function Logits(net: Net, toks: seq<nat>): (v: seq<int>)
    requires ValidTokens(net, toks)
    ensures |v| == net.vocab
  {
    ResidualSized(net, toks, |toks| - 1, |net.layers|);
    LogitsOf(net, Residual(MachineOf(net), toks, |toks| - 1, |net.layers|))
  }

  lemma {:induction false} ResidualSized(net: Net, toks: seq<nat>, p: nat, l: nat)
    requires ValidTokens(net, toks) && p < |toks| && l <= |net.layers|
    ensures |Residual(MachineOf(net), toks, p, l).v| == net.hidden
    decreases l
  {
    hide EmbedAny, KvAny, OutAny, KvsTo, Embed;
    if l == 0 {
      EmbedSized(net, toks[p]);
    } else {
      ResidualSized(net, toks, p, l - 1);
      OutSized(net, l - 1, Residual(MachineOf(net), toks, p, l - 1), p, KvsTo(MachineOf(net), toks, p + 1, l - 1));
    }
  }

  lemma EmbedSized(net: Net, t: nat)
    requires t < net.vocab
    ensures EmbedAny(net)(t) == Embed(net, t) && |Embed(net, t).v| == net.hidden
  {
  }

  lemma OutSized(net: Net, l: nat, r: Scaled, pos: nat, kvs: seq<KV>)
    requires |r.v| == net.hidden
    ensures |OutAny(net)(l, r, pos, kvs).v| == net.hidden
  {
  }

  lemma {:induction false} KvsSized(net: Net, toks: seq<nat>, n: nat, l: nat)
    requires ValidTokens(net, toks) && 0 < n <= |toks| && l < |net.layers|
    ensures Cached(net, KvsTo(MachineOf(net), toks, n, l))
  {
    var kvs := KvsTo(MachineOf(net), toks, n, l);
    forall q | 0 <= q < n ensures |kvs[q].k.v| == net.KvDim() && |kvs[q].v.v| == net.KvDim() {
      KvsToAt(MachineOf(net), toks, n, l, q);
      ResidualSized(net, toks, q, l);
      KvSized(net, l, Residual(MachineOf(net), toks, q, l), q);
    }
  }

  lemma KvSized(net: Net, l: nat, r: Scaled, pos: nat)
    requires l < |net.layers| && |r.v| == net.hidden && pos < net.maxSeq
    ensures KvAny(net)(l, r, pos) == KvOf(net, l, r, pos)
    ensures |KvAny(net)(l, r, pos).k.v| == net.KvDim() && |KvAny(net)(l, r, pos).v.v| == net.KvDim()
  {
  }

  /** One layer of the machine, in the network's own terms. */
  lemma LayerIs(net: Net, toks: seq<nat>, pos: nat, l: nat)
    requires ValidTokens(net, toks) && pos < |toks| && l < |net.layers|
    ensures |Residual(MachineOf(net), toks, pos, l).v| == net.hidden
    ensures
      var (r, kvs) := (Residual(MachineOf(net), toks, pos, l), KvsTo(MachineOf(net), toks, pos + 1, l));
      && kvs == KvsTo(MachineOf(net), toks, pos, l) + [KvOf(net, l, r, pos)]
      && Cached(net, kvs) && Residual(MachineOf(net), toks, pos, l + 1) == LayerOut(net, l, r, pos, kvs)
  {
    hide EmbedAny, KvAny, OutAny, KvOf, LayerOut, Cached, Residual, KvsTo;
    var m := MachineOf(net);
    var r := Residual(m, toks, pos, l);
    ResidualSized(net, toks, pos, l);
    KvSized(net, l, r, pos);
    KvsSized(net, toks, pos + 1, l);
    OutIs(net, l, r, pos, KvsTo(m, toks, pos + 1, l));
    MachineStep(m, toks, pos, l);
  }

  lemma MachineStep<R, K>(m: Machine<R, K>, toks: seq<nat>, pos: nat, l: nat)
    requires pos < |toks|
    ensures
      var (r, kvs) := (Residual(m, toks, pos, l), KvsTo(m, toks, pos + 1, l));
      kvs == KvsTo(m, toks, pos, l) + [m.kv(l, r, pos)] && Residual(m, toks, pos, l + 1) == m.out(l, r, pos, kvs)
  {
  }

  lemma OutIs(net: Net, l: nat, r: Scaled, pos: nat, kvs: seq<KV>)
    requires l < |net.layers| && |r.v| == net.hidden && pos < net.maxSeq && Cached(net, kvs)
    ensures OutAny(net)(l, r, pos, kvs) == LayerOut(net, l, r, pos, kvs)
  {
  }

  // ---------------------------------------------------------------- sampling

  const CAP: nat := 16   // entries of recent[]

  /** The repetition penalty on one logit, as the code computes it. */
  function Penalised(v: int): int { if v > 0 then v / 2 else v + Trunc(-v, 2) }

  /** It never raises a logit exactly from -1 up, and lowers it exactly above 0: -2 becomes
      -1. */
  lemma PenaltyLowersIff(v: int)
    ensures Penalised(v) <= v <==> v >= -1
    ensures Penalised(v) < v <==> v > 0
    ensures Penalised(-2) == -1
  {
  }

  function Penalise(logits: seq<int>, recent: seq<nat>): (r: seq<int>)
    ensures |r| == |logits|
  {
    if recent == [] then logits
    else
      var l := Penalise(logits, recent[..|recent| - 1]);
      var t := recent[|recent| - 1];
      if t < |l| then l[t := Penalised(l[t])] else l
  }

  /** The first index of the largest logit. */
  function ArgMax(v: seq<int>): (r: nat)
    requires |v| > 0
    ensures r < |v| && (forall i :: 0 <= i < |v| ==> v[i] <= v[r]) && forall i :: 0 <= i < r ==> v[i] < v[r]
  {
    if |v| == 1 then 0
    else
      var n := |v| - 1;
      var r := ArgMax(v[..n]);
      assert forall i :: 0 <= i < n ==> v[..n][i] == v[i];
      if v[n] > v[r] then n else r
  }

  function Remember(recent: seq<nat>, t: nat): (r: seq<nat>)
    ensures |recent| <= CAP ==> |r| <= CAP
  {
    if |recent| < CAP then recent + [t] else recent[1..] + [t]
  }

  /** The token chosen after `toks` with the given history. */
  ghost function Next(net: Net, toks: seq<nat>, recent: seq<nat>): (t: nat)
    requires ValidTokens(net, toks)
    ensures t < net.vocab
  {
    ArgMax(Penalise(Logits(net, toks), recent))
  }

  /** The network as a chooser. */
  ghost function ChooserOf(net: Net): Chooser {
    (toks: seq<nat>, recent: seq<nat>) =>
      if ValidTokens(net, toks) then Choice(Next(net, toks, recent), Remember(recent, Next(net, toks, recent))) else Choice(0, recent)
  }

  ghost predicate Usable(net: Net, toks: seq<nat>) {
    |toks| <= net.maxSeq && forall i :: 0 <= i < |toks| ==> toks[i] < net.vocab
  }
}
