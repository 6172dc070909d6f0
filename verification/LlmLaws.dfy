/** What the parts of the network mean, each said of the layer's own tensors: which one
    gates, which is gated, which attends and which is attended to (src/llm/llm_forward.c). */
module LlmLaws {
  import opened Layout
  import opened Scatter
  import opened Quant
  import opened Attention
  import opened LlmSpec
  import Sigmoid

  // ---------------------------------------------------------------- the gate

  /** What is left of a gate of real value x: not negative, at least half and at most all of
      it; negative, at most half. */
  predicate Halved(x: int, s: int) { if x >= 0 then x - 1 <= 2 * s <= 2 * x else x <= 2 * s <= 0 }

  /** The sigmoid is at least a half from 0 on and below it before. */
  lemma SigmoidSides(i: nat)
    requires i < 256
    ensures i < 128 ==> Sigmoid.SigmoidLut(i) >= 0
    ensures i >= 128 ==> Sigmoid.SigmoidLut(i) <= -2
  {
    hide Sigmoid.Rows0, Sigmoid.Rows4, Sigmoid.Rows8, Sigmoid.Rows12;
    DivMod(i, 16);
  }

  lemma HalvedByTable(x: int, sig: int)
    requires 0 <= sig <= 255 && (x >= 0 ==> sig >= 128) && (x < 0 ==> sig <= 126)
    ensures Halved(x, Trunc(x * sig, 255))
  {
    if x >= 0 {
      MulLe(x, x, 128, sig);
      MulLe(x, x, sig, 255);
      DivMod(x * sig, 255);
    } else {
      var y := -x;
      MulLe(y, y, sig, 126);
      MulLe(0, y, 0, sig);
      assert x * sig == -(y * sig);
      DivMod(y * sig, 255);
    }
  }

  lemma SiluHalves(g: int8, gS: uint32)
    ensures Halved(Times(g, gS), Silu(g, gS))
  {
    var x := Times(g, gS);
    var idx := Clamp(x * 32 / 0x10_0000) as int;
    SigmoidSides(if idx < 0 then idx + 256 else idx);
    hide Sigmoid.SigmoidLut, Halved;
    HalvedByTable(x, Sigmoid.SigmoidLut(if idx < 0 then idx + 256 else idx) + 128);
  }

  /** The gated values: up products times what is left of the gate products. */
  function Gated(left: seq<int>, u: Scaled): (r: seq<int>)
    requires |left| == |u.v|
    ensures |r| == |left|
  {
    seq(|left|, i requires 0 <= i < |left| => I64(Times(left[i], Times(u.v[i], u.s))) / 0x10_0000)
  }

  /** The feed-forward part adds the down projection of the wUp product, each element times
      what its wGate product leaves: at least half of a gate that is not negative, at most
      half of one that is. */
  lemma FeedForwardGates(net: Net, l: nat, r: Scaled) returns (left: seq<int>)
    requires l < |net.layers| && |r.v| == net.hidden
    ensures
      var y := net.layers[l];
      var n := RmsNorm(r.v, y.rmsFfn);
      var (g, u) := (MatVec(n.v, n.s, y.wGate), MatVec(n.v, n.s, y.wUp));
      && |left| == net.inter && (forall i :: 0 <= i < net.inter ==> Halved(Times(g.v[i], g.s), left[i]))
      && var act := Rescaled(Gated(left, u));
         var d := MatVec(act.v, act.s, y.wDown);
         FedForward(net, l, r) == Rescaled(ScaledSum(r.v, r.s, d.v, d.s))
  {
    var y := net.layers[l];
    var n := RmsNorm(r.v, y.rmsFfn);
    hide MatVec, RmsNorm, Rescaled, ScaledSum, Halved, SwiGlu, Gated, Times;
    left := Lefts(MatVec(n.v, n.s, y.wGate), MatVec(n.v, n.s, y.wUp));
  }

  lemma Lefts(g: Scaled, u: Scaled) returns (left: seq<int>)
    requires |g.v| == |u.v|
    ensures |left| == |g.v| && (forall i :: 0 <= i < |left| ==> Halved(Times(g.v[i], g.s), left[i])) && SwiGlu(g, u) == Gated(left, u)
  {
    hide Silu, Halved;
    left := seq(|g.v|, i requires 0 <= i < |g.v| => Silu(g.v[i], g.s));
    forall i | 0 <= i < |left| ensures Halved(Times(g.v[i], g.s), left[i]) { SiluHalves(g.v[i], g.s); }
    assert Gated(left, u) == SwiGlu(g, u);
  }
  // ---------------------------------------------------------------- what each tensor is for

  ghost predicate Blank(w: Weight) { forall i :: 0 <= i < |w.data| ==> w.data[i] == 0 }
  ghost predicate Zero(v: seq<int8>) { forall i :: 0 <= i < |v| ==> v[i] == 0 }

  /** The real values of a residual. */
  function Reals(r: Scaled): (v: seq<int>)
    ensures |v| == |r.v|
  {
    seq(|r.v|, i requires 0 <= i < |r.v| => r.v[i] * r.s)
  }

  lemma {:induction false} DotZero(a: seq<int8>, b: seq<int8>)
    requires |a| == |b| && (Zero(a) || Zero(b))
    ensures Dot(a, b) == 0
  {
    if a != [] { DotZero(a[..|a| - 1], b[..|b| - 1]); }
  }

  lemma RequantZero(mx: int)
    requires mx > 0
    ensures Requant(0, mx) == 0
  {
    RequantNearest(0, mx);
    hide Requant;
    var q := Requant(0, mx) as int;
    Step(0, q, 2 * mx);
    Step(q, 0, 2 * mx);
  }

  lemma ProductZero(x: seq<int8>, s: uint32, w: Weight)
    requires w.Shaped(w.rows, w.cols) && |x| == w.cols && (Zero(x) || Blank(w))
    ensures Zero(MatVec(x, s, w).v)
  {
    hide MatScale, Requant, Dot, WeightRow, Blank;
    var acc := Accumulate(x, w);
    forall n: nat | n < w.rows ensures acc[n] == 0 {
      if Blank(w) { RowZero(w, n); }
      DotZero(x, WeightRow(w, n));
    }
    RequantZero(MaxAbs(acc));
  }

  lemma RowZero(w: Weight, n: nat)
    requires w.Shaped(w.rows, w.cols) && n < w.rows && Blank(w)
    ensures Zero(WeightRow(w, n))
  {
    MulLe(n + 1, w.rows, w.cols, w.cols);
  }

  lemma RescaledZero(v: seq<int>)
    requires forall i :: 0 <= i < |v| ==> v[i] == 0
    ensures Zero(Rescaled(v).v)
  {
    hide Requant;
    RequantZero(MaxAbs(v));
  }

  lemma NormZero(x: seq<int8>, w: Weight)
    requires 0 < |x| <= |w.data| && Blank(w)
    ensures Zero(RmsNorm(x, w).v)
  {
    hide Rescaled, Rms;
    RescaledZero(Normed(x, w));
  }

  lemma GateZero(g: Scaled, u: Scaled)
    requires |g.v| == |u.v| && (Zero(g.v) || Zero(u.v))
    ensures forall i :: 0 <= i < |g.v| ==> SwiGlu(g, u)[i] == 0
  {
    hide Activated;
    forall i | 0 <= i < |g.v| ensures SwiGlu(g, u)[i] == 0 { ActivatedZero(g.v[i], g.s, u.v[i], u.s); }
  }

  lemma ActivatedZero(g: int8, gS: uint32, u: int8, uS: uint32)
    requires g == 0 || u == 0
    ensures Activated(g, gS, u, uS) == 0
  {
    SiluHalves(g, gS);
    hide Silu;
    NoProduct(Silu(g, gS), Times(u, uS));
  }

  lemma NoProduct(a: int, b: int)
    requires a == 0 || b == 0
    ensures I64(Times(a, b)) / 0x10_0000 == 0
  {
  }

  /** The residual add adds real values. */
  lemma AddsReals(a: Scaled, b: Scaled, i: nat)
    requires |a.v| <= |b.v| && i < |a.v|
    ensures ScaledSum(a.v, a.s, b.v, b.s)[i] == Reals(a)[i] + Reals(b)[i]
  {
  }

  lemma NothingAdded(r: Scaled, o: Scaled)
    requires |r.v| <= |o.v| && Zero(o.v)
    ensures ScaledSum(r.v, r.s, o.v, o.s) == Reals(r)
  {
  }

  /** With any of its four tensors blank the feed-forward part only rescales the residual. */
  lemma FeedBlank(net: Net, l: nat, r: Scaled)
    requires l < |net.layers| && |r.v| == net.hidden
    requires
      var y := net.layers[l];
      Blank(y.rmsFfn) || Blank(y.wGate) || Blank(y.wUp) || Blank(y.wDown)
    ensures FedForward(net, l, r) == Rescaled(Reals(r))
  {
    var y := net.layers[l];
    var n := RmsNorm(r.v, y.rmsFfn);
    hide MatVec, RmsNorm, Rescaled, ScaledSum, SwiGlu, Zero, Blank, Reals;
    if Blank(y.rmsFfn) { NormZero(r.v, y.rmsFfn); }
    if Zero(n.v) || Blank(y.wGate) { ProductZero(n.v, n.s, y.wGate); }
    if Zero(n.v) || Blank(y.wUp) { ProductZero(n.v, n.s, y.wUp); }
    var (g, u) := (MatVec(n.v, n.s, y.wGate), MatVec(n.v, n.s, y.wUp));
    if Zero(g.v) || Zero(u.v) {
      GateZero(g, u);
      RescaledZero(SwiGlu(g, u));
    }
    var act := Rescaled(SwiGlu(g, u));
    ProductZero(act.v, act.s, y.wDown);
    NothingAdded(r, MatVec(act.v, act.s, y.wDown));
  }

  lemma {:induction false} MixedZero(w: seq<nat>, v: seq<int>)
    requires |w| == |v| && forall i :: 0 <= i < |v| ==> v[i] == 0
    ensures Mixed(w, v) == 0
  {
    if w != [] { MixedZero(w[..|w| - 1], v[..|v| - 1]); }
  }

  lemma AttentionZero(net: Net, q: Scaled, kvs: seq<KV>)
    requires |q.v| == net.hidden && Cached(net, kvs) && forall p :: 0 <= p < |kvs| ==> Zero(kvs[p].v.v)
    ensures forall j :: 0 <= j < net.hidden ==> AttentionReal(net, q, kvs)[j] == 0
  {
    hide Weights, Scores, Denominator, Mixed;
    forall j | 0 <= j < net.hidden ensures AttentionReal(net, q, kvs)[j] == 0 {
      QuotBelow(j, net.dqkv, net.nQ);
      DivMod(j, net.dqkv);
      ValuesZero(net, q, kvs, j / net.dqkv, j % net.dqkv);
    }
  }

  lemma ValuesZero(net: Net, q: Scaled, kvs: seq<KV>, h: nat, lane: nat)
    requires |q.v| == net.hidden && Cached(net, kvs) && h < net.nQ && lane < net.dqkv && forall p :: 0 <= p < |kvs| ==> Zero(kvs[p].v.v)
    ensures AttentionAt(net, q, kvs, h, lane) == 0
  {
    hide Weights, Scores, Denominator, Mixed;
    HeadInside(Group(net, h), net.nKv, net.dqkv);
    hide Group;
    MixedZero(Weights(Scores(net, q, kvs, h), Denominator(net)), Values(net, kvs, h, lane));
  }

  /** With a blank output projection, or nothing but zeros for cached values, attention only
      rescales the residual. */
  lemma AttendBlank(net: Net, l: nat, r: Scaled, pos: nat, kvs: seq<KV>)
    requires l < |net.layers| && |r.v| == net.hidden && pos < net.maxSeq && Cached(net, kvs)
    requires Blank(net.layers[l].wo) || forall p :: 0 <= p < |kvs| ==> Zero(kvs[p].v.v)
    ensures Attended(net, l, r, pos, kvs) == Rescaled(Reals(r))
  {
    hide MatVec, Rescaled, ScaledSum, AttentionReal, QueryOf, Zero, Blank, Reals;
    var v := AttentionReal(net, QueryOf(net, l, r, pos), kvs);
    if !Blank(net.layers[l].wo) {
      AttentionZero(net, QueryOf(net, l, r, pos), kvs);
      RescaledZero(v);
    }
    var a := Rescaled(v);
    ProductZero(a.v, a.s, net.layers[l].wo);
    NothingAdded(r, MatVec(a.v, a.s, net.layers[l].wo));
  }

  lemma RopedZero(net: Net, x: Scaled, pos: nat)
    requires pos < net.maxSeq && |x.v| % net.dqkv == 0 && Zero(x.v)
    ensures Zero(Roped(net, x, pos).v)
  {
    hide TableRow, Rotated;
    forall j | 0 <= j < |x.v| ensures Roped(net, x, pos).v[j] == 0 {
      HeadsFit(|x.v|, net.dqkv, j);
      forall c: int, s: int ensures Rotated(0, c, 0, s) == 0 { NothingTurned(c, s); }
    }
  }

  lemma NothingTurned(c: int, s: int)
    ensures Rotated(0, c, 0, s) == 0
  {
  }

  /** Queries come from wq, keys from wk, values from wv, and all from the normed residual. */
  lemma ProjectionsBlank(net: Net, l: nat, r: Scaled, pos: nat)
    requires l < |net.layers| && |r.v| == net.hidden && pos < net.maxSeq
    ensures
      var y := net.layers[l];
      && (Blank(y.rmsAtt) || Blank(y.wq) ==> Zero(QueryOf(net, l, r, pos).v))
      && (Blank(y.rmsAtt) || Blank(y.wk) ==> Zero(KvOf(net, l, r, pos).k.v))
      && (Blank(y.rmsAtt) || Blank(y.wv) ==> Zero(KvOf(net, l, r, pos).v.v))
  {
    var y := net.layers[l];
    hide MatVec, RmsNorm, Roped, Zero, Blank;
    var n := RmsNorm(r.v, y.rmsAtt);
    HeadsDivide(net.nQ, net.dqkv);
    HeadsDivide(net.nKv, net.dqkv);
    if Blank(y.rmsAtt) { NormZero(r.v, y.rmsAtt); }
    if Zero(n.v) || Blank(y.wq) {
      ProductZero(n.v, n.s, y.wq);
      RopedZero(net, MatVec(n.v, n.s, y.wq), pos);
    }
    if Zero(n.v) || Blank(y.wk) {
      ProductZero(n.v, n.s, y.wk);
      RopedZero(net, MatVec(n.v, n.s, y.wk), pos);
    }
    if Zero(n.v) || Blank(y.wv) { ProductZero(n.v, n.s, y.wv); }
  }

  /** A layer whose feed-forward part is blank is its attention, one whose attention is blank
      its feed-forward part; attention comes first. */
  lemma LayerHalves(net: Net, l: nat, r: Scaled, pos: nat, kvs: seq<KV>)
    requires l < |net.layers| && |r.v| == net.hidden && pos < net.maxSeq && Cached(net, kvs)
    ensures
      var y := net.layers[l];
      && (Blank(y.rmsFfn) || Blank(y.wGate) || Blank(y.wUp) || Blank(y.wDown) ==>
            LayerOut(net, l, r, pos, kvs) == Rescaled(Reals(Attended(net, l, r, pos, kvs))))
      && (Blank(y.wo) ==> LayerOut(net, l, r, pos, kvs) == FedForward(net, l, Rescaled(Reals(r))))
  {
    var y := net.layers[l];
    hide Attended, FedForward, Blank, Rescaled, Reals;
    if Blank(y.rmsFfn) || Blank(y.wGate) || Blank(y.wUp) || Blank(y.wDown) { FeedBlank(net, l, Attended(net, l, r, pos, kvs)); }
    if Blank(y.wo) { AttendBlank(net, l, r, pos, kvs); }
  }

  // ---------------------------------------------------------------- who attends to what

  /** Equal scores share the weight. */
  lemma EqualShares(raw: seq<int>, denom: nat, p: nat)
    requires p < |raw| && 0 < denom < INT64 && forall i :: 0 <= i < |raw| ==> raw[i] == raw[0]
    ensures Weights(raw, denom)[p] == 65535 / |raw|
  {
    hide ExpLut, Distance, Total;
    BestIsZero(raw[0], denom);
    assert MaxOf(raw) == raw[0];
    var e := Exps(raw, denom);
    BestGets1024(raw, denom);
    EqualTotal(e, 1024);
    OfMany(|raw|);
  }

  lemma {:induction false} EqualTotal(e: seq<nat>, c: nat)
    requires forall i :: 0 <= i < |e| ==> e[i] == c
    ensures Total(e) == c * |e|
  {
    if e != [] {
      EqualTotal(e[..|e| - 1], c);
      assert c * |e| == c * (|e| - 1) + c;
    }
  }

  lemma OfMany(n: nat)
    requires n > 0
    ensures 1024 * n > 0 && 1024 * 65535 / (1024 * n) == 65535 / n
  {
    DivMod(65535, n);
    var (q, r) := (65535 / n, 65535 % n);
    assert 1024 * 65535 == q * (1024 * n) + 1024 * r;
    DivMod(1024 * 65535, 1024 * n);
    Digits(1024 * n, q, 1024 * r, 1024 * 65535 / (1024 * n), 1024 * 65535 % (1024 * n));
  }

  /** A query of zeros, or keys of zeros, attend to every position alike. */
  lemma BlindAttention(net: Net, q: Scaled, kvs: seq<KV>, h: nat, p: nat)
    requires |q.v| == net.hidden && Cached(net, kvs) && h < net.nQ && p < |kvs|
    requires Zero(q.v) || forall i :: 0 <= i < |kvs| ==> Zero(kvs[i].k.v)
    ensures Weights(Scores(net, q, kvs, h), Denominator(net))[p] == 65535 / |kvs|
  {
    hide Weights, Denominator;
    ScoresZero(net, q, kvs, h);
    EqualShares(Scores(net, q, kvs, h), Denominator(net), p);
  }

  lemma ScoresZero(net: Net, q: Scaled, kvs: seq<KV>, h: nat)
    requires |q.v| == net.hidden && Cached(net, kvs) && h < net.nQ
    requires Zero(q.v) || forall i :: 0 <= i < |kvs| ==> Zero(kvs[i].k.v)
    ensures forall i :: 0 <= i < |kvs| ==> Scores(net, q, kvs, h)[i] == 0
  {
    HeadInside(h, net.nQ, net.dqkv);
    HeadInside(Group(net, h), net.nKv, net.dqkv);
    hide Dot, Group;
    forall i | 0 <= i < |kvs| ensures Scores(net, q, kvs, h)[i] == 0 {
      DotZero(Slice(q.v, h * net.dqkv, net.dqkv), Slice(kvs[i].k.v, Group(net, h) * net.dqkv, net.dqkv));
    }
  }

  /** With one position cached, attention reads its values unchanged: lane j % dqkv of the
      key-value head that query head j / dqkv belongs to. */
  lemma OnePosition(net: Net, q: Scaled, kv: KV, h: nat, lane: nat)
    requires |q.v| == net.hidden && Cached(net, [kv]) && |kv.v.v| == net.KvDim() && h < net.nQ && lane < net.dqkv
    ensures Group(net, h) * net.dqkv + lane < net.KvDim()
    ensures AttentionAt(net, q, [kv], h, lane) == kv.v.v[Group(net, h) * net.dqkv + lane] * kv.v.s
  {
    ValueIs(net, kv, h, lane);
    hide Weights, Denominator, Scores, ValueAt, Mixed;
    var w := Weights(Scores(net, q, [kv], h), Denominator(net));
    EqualShares(Scores(net, q, [kv], h), Denominator(net), 0);
    assert w == [65535] && Values(net, [kv], h, lane) == [ValueAt(net, kv, h, lane)];
    OneValue(ValueAt(net, kv, h, lane));
  }

  lemma ValueIs(net: Net, kv: KV, h: nat, lane: nat)
    requires |kv.v.v| == net.KvDim() && h < net.nQ && lane < net.dqkv
    ensures Group(net, h) * net.dqkv + lane < net.KvDim()
    ensures ValueAt(net, kv, h, lane) == kv.v.v[Group(net, h) * net.dqkv + lane] * kv.v.s
  {
    HeadInside(Group(net, h), net.nKv, net.dqkv);
  }

  /** Lanes from .. from + n are the same. */
  ghost predicate Same(a: seq<int8>, b: seq<int8>, from: nat, n: nat) {
    |a| == |b| && from + n <= |a| && forall i :: from <= i < from + n ==> a[i] == b[i]
  }

  /** The scores of a query head depend on its own lanes of the query and on those of its
      key-value head in the keys, with the scales, and on nothing else. */
  lemma ScoresLocal(net: Net, q: Scaled, q': Scaled, kvs: seq<KV>, kvs': seq<KV>, h: nat)
    requires |q.v| == |q'.v| == net.hidden && Cached(net, kvs) && Cached(net, kvs') && |kvs| == |kvs'| && h < net.nQ && q.s == q'.s
    requires Same(q.v, q'.v, h * net.dqkv, net.dqkv)
    requires forall p :: 0 <= p < |kvs| ==> kvs[p].k.s == kvs'[p].k.s && Same(kvs[p].k.v, kvs'[p].k.v, Group(net, h) * net.dqkv, net.dqkv)
    ensures Scores(net, q, kvs, h) == Scores(net, q', kvs', h)
  {
    HeadInside(h, net.nQ, net.dqkv);
    HeadInside(Group(net, h), net.nKv, net.dqkv);
    hide Group, Score;
    SameSlice(q.v, q'.v, h * net.dqkv, net.dqkv);
    forall p | 0 <= p < |kvs| ensures Scores(net, q, kvs, h)[p] == Scores(net, q', kvs', h)[p] {
      SameSlice(kvs[p].k.v, kvs'[p].k.v, Group(net, h) * net.dqkv, net.dqkv);
    }
  }

  lemma SameSlice(a: seq<int8>, b: seq<int8>, from: nat, n: nat)
    requires Same(a, b, from, n)
    ensures Slice(a, from, n) == Slice(b, from, n)
  {
  }

  lemma OneValue(v: int)
    ensures Attend([65535], [v]) == v
  {
    assert [65535][..0] == [] && [v][..0] == [];
    assert Mixed([65535], [v]) == Mixed([], []) + 65535 * v;
    QuotRem(65535, if v >= 0 then v else -v, 0);
  }

  /** Query heads share key-value heads in runs of nQ / nKv. */
  lemma GroupRuns(net: Net, h: nat)
    requires h < net.nQ
    ensures net.nQ / net.nKv > 0 && Group(net, h) * (net.nQ / net.nKv) <= h < (Group(net, h) + 1) * (net.nQ / net.nKv)
  {
    var n := net.nQ / net.nKv;
    DivMod(net.nQ, net.nKv);
    assert n > 0;
    DivMod(h, n);
    assert (h / n + 1) * n == h / n * n + n;
  }

  /** Scores are divided by 2^40 times the whole part of the root of the head size. */
  lemma DenominatorIs(net: Net) returns (root: nat)
    ensures Denominator(net) == 0x100_0000_0000 * root && root * root <= net.dqkv < (root + 1) * (root + 1)
  {
    root := Root(net.dqkv);
  }

  /** The root mean square that divides a vector: its mean square lies between that of Rms
      and of Rms + 1, unless it is below 1. */
  lemma RmsIs(x: seq<int8>)
    requires |x| > 0 && SumSquares(x) >= |x|
    ensures |x| * (Rms(x) * Rms(x)) <= SumSquares(x) < |x| * ((Rms(x) + 1) * (Rms(x) + 1))
  {
    MeanAtLeastOne(SumSquares(x), |x|);
    MeanBetween(SumSquares(x), |x|, Rms(x));
  }

  lemma MeanAtLeastOne(t: nat, n: nat)
    requires 0 < n <= t
    ensures t / n >= 1
  {
    DivMod(t, n);
    Step(t / n, 1, n);
  }

  lemma MeanBetween(t: nat, n: nat, r: nat)
    requires n > 0 && r * r <= t / n < (r + 1) * (r + 1)
    ensures n * (r * r) <= t < n * ((r + 1) * (r + 1))
  {
    DivMod(t, n);
    Between(t, n, r * r, t / n, (r + 1) * (r + 1));
  }

  lemma Between(t: nat, n: nat, a: nat, m: nat, b: nat)
    requires a <= m < b && m * n <= t < m * n + n
    ensures n * a <= t < n * b
  {
    MulLe(n, n, a, m);
    MulLe(n, n, m + 1, b);
    assert n * (m + 1) == m * n + n;
  }

  /** A normed element, times the root mean square, is the element times its weight and the
      weights' scale, to within the root. */
  lemma NormedIs(x: seq<int8>, w: Weight, i: nat)
    requires 0 < |x| <= |w.data| && i < |x|
    ensures Abs(Normed(x, w)[i] * Rms(x) - x[i] * w.data[i] * w.scale) < Rms(x)
  {
    hide Rms;
    TruncNear(Times(x[i], w.data[i]) * w.scale, Rms(x));
  }

  lemma TruncNear(a: int, b: nat)
    requires b > 0
    ensures Abs(Trunc(a, b) * b - a) < b
  {
    DivMod(Abs(a), b);
    if a < 0 { assert -(-a / b) * b == -(-a / b * b); }
  }

  /** A token's embedding is its row of the embedding matrix. */
  lemma EmbedIsRow(net: Net, token: nat)
    requires token < net.vocab
    ensures Embed(net, token) == Scaled(WeightRow(net.embedding, token), net.embedding.scale)
  {
  }

  /** The logits come from the final norm and the head. */
  lemma LogitsBlank(net: Net, r: Scaled, t: nat)
    requires |r.v| == net.hidden && t < net.vocab && (Blank(net.rmsOut) || Blank(net.lmHead))
    ensures LogitsOf(net, r)[t] == 0
  {
    if Blank(net.rmsOut) { NormZero(r.v, net.rmsOut); } else { RowZero(net.lmHead, t); }
    hide RmsNorm, WeightRow, Blank;
    DotZero(RmsNorm(r.v, net.rmsOut).v, WeightRow(net.lmHead, t));
  }

  // ---------------------------------------------------------------- rotation

  /** A quarter turn, cosine 0 and sine 127: the first half of a head takes the second's
      negative and the second the first's, each times 127/128 rounded down. */
  lemma QuarterTurn(v: seq<int8>, dqkv: nat, half: nat, cos: seq<int8>, sin: seq<int8>, j: nat)
    requires 0 < dqkv && half == dqkv / 2 && |cos| == half && |sin| == half && |v| % dqkv == 0 && j < |v| && j % dqkv < half
    requires forall i :: 0 <= i < half ==> cos[i] == 0 && sin[i] == 127
    ensures j + half < |v|
    ensures
      var (a, b, r) := (v[j] as int, v[j + half] as int, Rope(v, dqkv, half, cos, sin));
      -127 * b - 128 < r[j] as int * 128 <= -127 * b && 127 * a - 128 < r[j + half] as int * 128 <= 127 * a
  {
    HeadsFit(|v|, dqkv, j);
    SecondHalf(|v|, dqkv, half, j);
    TurnedBy(v[j], -(v[j + half] as int));
    TurnedBy(v[j + half], v[j]);
    hide Rotated;
  }

  lemma SecondHalf(n: nat, dqkv: nat, half: nat, j: nat)
    requires 0 < dqkv && half == dqkv / 2 && n % dqkv == 0 && j < n && j % dqkv < half
    ensures j + half < n && (j + half) % dqkv == j % dqkv + half
  {
    HeadsFit(n, dqkv, j);
    DivMod(j, dqkv);
    QuotRem(dqkv, j / dqkv, j % dqkv + half);
  }

  lemma TurnedBy(a: int8, b: int)
    requires -128 <= b <= 128
    ensures 127 * b - 128 < Rotated(a, 0, b, 127) as int * 128 <= 127 * b
  {
    assert a * 0 == 0;
  }

  /** Where the tables hold cosine 127 and sine 0, rotation by a position changes nothing
      exactly in vectors whose rotated elements lie between -127 and 0. */
  lemma PositionZero(net: Net, x: Scaled, pos: nat)
    requires pos < net.maxSeq && |x.v| % net.dqkv == 0
    requires forall i :: 0 <= i < net.Half() ==> TableRow(net, net.cos, pos)[i] == 127 && TableRow(net, net.sin, pos)[i] == 0
    ensures Roped(net, x, pos) == x <==> forall j :: 0 <= j < |x.v| && j % net.dqkv < 2 * net.Half() ==> -127 <= x.v[j] <= 0
  {
    RopeIdentityIff(x.v, net.dqkv, net.Half(), TableRow(net, net.cos, pos), TableRow(net, net.sin, pos));
    hide Rope;
  }

  // ---------------------------------------------------------------- sampling

  /** How often t occurs. */
  function Count(recent: seq<nat>, t: nat): nat {
    if recent == [] then 0 else Count(recent[..|recent| - 1], t) + if recent[|recent| - 1] == t then 1 else 0
  }

  function Halvings(v: int, n: nat): int
    decreases n
  {
    if n == 0 then v else Halvings(v, n - 1) / 2
  }

  /** The penalty halves a logit, rounding down, whatever its sign. */
  lemma PenaltyHalves(v: int)
    ensures Penalised(v) == v / 2
  {
  }

  /** Each recent choice halves its own token's logit once for every time it occurs, and no
      other. */
  lemma {:induction false} PenaliseHalves(logits: seq<int>, recent: seq<nat>, t: nat)
    requires t < |logits|
    ensures Penalise(logits, recent)[t] == Halvings(logits[t], Count(recent, t))
  {
    if recent != [] {
      var n := |recent| - 1;
      PenaliseHalves(logits, recent[..n], t);
      hide Penalised;
      if recent[n] == t { PenaltyHalves(Penalise(logits, recent[..n])[t]); }
    }
  }

  /** The history after a run of choices. */
  function RememberAll(recent: seq<nat>, choices: seq<nat>): seq<nat> {
    if choices == [] then recent else Remember(RememberAll(recent, choices[..|choices| - 1]), choices[|choices| - 1])
  }

  /** It is the last 16 of them, or all if there are fewer. */
  lemma {:induction false} RememberLast(choices: seq<nat>)
    ensures RememberAll([], choices) == choices[if |choices| <= CAP then 0 else |choices| - CAP..]
  {
    if choices != [] {
      var n := |choices| - 1;
      RememberLast(choices[..n]);
      assert choices == choices[..n] + [choices[n]];
    }
  }
}
