/** Integer softmax attention (src/llm/llm_forward.c) on the exponential table of
    src/npulib/npu_math.c. */
module Attention {
  import opened Sums
  import opened Layout
  import opened Scatter
  import opened Quant

  // ---------------------------------------------------------------- the table

  predicate Falling(r: seq<nat>) {
    && |r| == 16
    && r[0] >= r[1] >= r[2] >= r[3] >= r[4] >= r[5] >= r[6] >= r[7]
    && r[7] >= r[8] >= r[9] >= r[10] >= r[11] >= r[12] >= r[13] >= r[14] >= r[15]
  }

  function ExpRows0(i: nat): (r: seq<nat>)
    requires i < 4
    ensures Falling(r)
  {
    if i == 0 then [1024, 992, 962, 932, 904, 876, 849, 823, 797, 773, 749, 726, 704, 682, 661, 641]
    else if i == 1 then [621, 602, 583, 566, 548, 531, 515, 499, 484, 469, 454, 440, 427, 414, 401, 389]
    else if i == 2 then [377, 365, 354, 343, 332, 322, 312, 303, 293, 284, 276, 267, 259, 251, 243, 236]
    else [228, 221, 215, 208, 202, 195, 189, 184, 178, 172, 167, 162, 157, 152, 148, 143]
  }

  function ExpRows4(i: nat): (r: seq<nat>)
    requires i < 4
    ensures Falling(r)
  {
    if i == 0 then [139, 134, 130, 126, 122, 119, 115, 111, 108, 105, 101, 98, 95, 92, 89, 87]
    else if i == 1 then [84, 81, 79, 77, 74, 72, 70, 68, 65, 63, 61, 60, 58, 56, 54, 53]
    else if i == 2 then [51, 49, 48, 46, 45, 44, 42, 41, 40, 38, 37, 36, 35, 34, 33, 32]
    else [31, 30, 29, 28, 27, 26, 26, 25, 24, 23, 23, 22, 21, 21, 20, 19]
  }

  function ExpRows8(i: nat): (r: seq<nat>)
    requires i < 4
    ensures Falling(r)
  {
    if i == 0 then [19, 18, 18, 17, 17, 16, 16, 15, 15, 14, 14, 13, 13, 12, 12, 12]
    else if i == 1 then [11, 11, 11, 10, 10, 10, 9, 9, 9, 9, 8, 8, 8, 8, 7, 7]
    else if i == 2 then [7, 7, 6, 6, 6, 6, 6, 6, 5, 5, 5, 5, 5, 5, 4, 4]
    else [4, 4, 4, 4, 4, 4, 3, 3, 3, 3, 3, 3, 3, 3, 3, 3]
  }

  function ExpRows12(i: nat): (r: seq<nat>)
    requires i < 4
    ensures Falling(r)
  {
    if i == 0 then [3, 2, 2, 2, 2, 2, 2, 2, 2, 2, 2, 2, 2, 2, 2, 2]
    else if i == 1 then [2, 1, 1, 1, 1, 1, 1, 1, 1, 1, 1, 1, 1, 1, 1, 1]
    else if i == 2 then [1, 1, 1, 1, 1, 1, 1, 1, 1, 1, 1, 1, 1, 1, 1, 1]
    else [1, 1, 1, 1, 0, 0, 0, 0, 0, 0, 0, 0, 0, 0, 0, 0]
  }

  /** Sixteen entries of the table from 16 * i on. */
  function ExpRow(i: nat): (r: seq<nat>)
    requires i < 16
    ensures Falling(r)
  {
    if i < 4 then ExpRows0(i) else if i < 8 then ExpRows4(i - 4) else if i < 12 then ExpRows8(i - 8) else ExpRows12(i - 12)
  }

  /** exp_lut[d] */
  function ExpLut(d: nat): nat
    requires d < 256
  {
    ExpRow(d / 16)[d % 16]
  }

  lemma FallsBetween(r: seq<nat>, i: nat, j: nat)
    requires Falling(r) && i <= j < 16
    ensures r[i] >= r[j]
  {
  }

  lemma RowsDecreasing(i: nat)
    requires i < 15
    ensures ExpRow(i)[15] >= ExpRow(i + 1)[0]
  {
  }

  lemma Previous(d: nat)
    requires 0 < d < 256
    ensures ExpLut(d - 1) >= ExpLut(d)
  {
    var (q, r) := (d / 16, d % 16);
    if r == 0 {
      RowsDecreasing(q - 1);
    } else {
      assert (d - 1) / 16 == q && (d - 1) % 16 == r - 1;
      FallsBetween(ExpRow(q), r - 1, r);
    }
  }

  /** The table never increases and starts at 1024. */
  lemma {:induction false} ExpLutDecreasing(c: nat, d: nat)
    requires c <= d < 256
    ensures ExpLut(0) == 1024 && ExpLut(c) >= ExpLut(d)
    decreases d - c
  {
    if c < d {
      ExpLutDecreasing(c, d - 1);
      Previous(d);
    }
  }

  // ---------------------------------------------------------------- weights

  function MaxOf(raw: seq<int>): (m: int)
    requires |raw| > 0
    ensures m in raw && forall p :: 0 <= p < |raw| ==> raw[p] <= m
  {
    if |raw| == 1 then raw[0]
    else
      var m := MaxOf(raw[..|raw| - 1]);
      assert forall p :: 0 <= p < |raw| - 1 ==> raw[..|raw| - 1][p] == raw[p];
      if raw[|raw| - 1] > m then raw[|raw| - 1] else m
  }

  function MinOf(raw: seq<int>): (m: int)
    requires |raw| > 0
    ensures m in raw && forall p :: 0 <= p < |raw| ==> m <= raw[p]
  {
    if |raw| == 1 then raw[0]
    else
      var m := MinOf(raw[..|raw| - 1]);
      assert forall p :: 0 <= p < |raw| - 1 ==> raw[..|raw| - 1][p] == raw[p];
      if raw[|raw| - 1] < m then raw[|raw| - 1] else m
  }

  /** From the best score down to the worst. */
  function Spread(raw: seq<int>): nat
    requires |raw| > 0
  {
    assert MinOf(raw) <= raw[0] <= MaxOf(raw);
    MaxOf(raw) - MinOf(raw)
  }

  /** A score's rounded distance below the best in steps of denom / 32, each of the three
      operations before the division in 64 bits. */
  function Steps(score: int, best: int, denom: nat): int
    requires 0 < denom < INT64
  {
    Trunc(I64(I64(I64(best - score) * 32) + denom / 2), denom)
  }

  /** The table index: those steps, clamped to 0 .. 255. */
  function Distance(score: int, best: int, denom: nat): (d: nat)
    requires 0 < denom < INT64
    ensures d < 256
  {
    var d := Steps(score, best, denom);
    if d < 0 then 0 else if d > 255 then 255 else d
  }

  function Exps(raw: seq<int>, denom: nat): (e: seq<nat>)
    requires |raw| > 0 && 0 < denom < INT64
    ensures |e| == |raw|
  {
    seq(|raw|, p requires 0 <= p < |raw| => ExpLut(Distance(raw[p], MaxOf(raw), denom)))
  }

  function Total(e: seq<nat>): (t: nat) {
    if e == [] then 0 else Total(e[..|e| - 1]) + e[|e| - 1]
  }

  /** e parts of t in units of 1 / 65535, rounded down. */
  function Share(e: nat, t: nat): (w: nat)
    requires t > 0
    ensures w * t <= e * 65535 < w * t + t
  {
    DivMod(e * 65535, t);
    e * 65535 / t
  }

  /** The Q16 attention weights. */
  function Weights(raw: seq<int>, denom: nat): (w: seq<nat>)
    requires |raw| > 0 && 0 < denom < INT64
    ensures |w| == |raw|
  {
    var e := Exps(raw, denom);
    BestGets1024(raw, denom);
    seq(|raw|, p requires 0 <= p < |raw| => Share(e[p], Total(e)))
  }

  lemma {:induction false} TotalAtLeast(e: seq<nat>, p: nat)
    requires p < |e|
    ensures Total(e) >= e[p]
  {
    if p < |e| - 1 { TotalAtLeast(e[..|e| - 1], p); }
  }

  /** The best score gets the full 1024, so the total is never zero: its guard is dead,
      whatever wraps elsewhere. */
  lemma BestGets1024(raw: seq<int>, denom: nat)
    requires |raw| > 0 && 0 < denom < INT64
    ensures Total(Exps(raw, denom)) >= 1024
  {
    hide Distance, ExpLut, Total;
    var p :| 0 <= p < |raw| && raw[p] == MaxOf(raw);
    BestIsZero(MaxOf(raw), denom);
    TotalAtLeast(Exps(raw, denom), p);
  }

  lemma BestIsZero(best: int, denom: nat)
    requires 0 < denom < INT64
    ensures Distance(best, best, denom) == 0 && ExpLut(0) == 1024
  {
    QuotRem(denom, 0, denom / 2);
    I64ExactIff(denom / 2);
    I64ExactIff(0);
    hide I64;
  }

  lemma ShareStep(te: nat, tw: nat, e: nat, w: nat, t: nat, n: nat)
    requires tw * t <= te * 65535 <= tw * t + n * t && w * t <= e * 65535 < w * t + t
    ensures (tw + w) * t <= (te + e) * 65535 < (tw + w) * t + (n + 1) * t
  {
    assert (tw + w) * t == tw * t + w * t;
    assert (n + 1) * t == n * t + t;
  }

  /** Rounding each share down loses less than one unit a share. */
  lemma {:induction false} SharesAddUp(e: seq<nat>, t: nat, w: seq<nat>)
    requires t > 0 && |w| == |e| && forall p :: 0 <= p < |e| ==> w[p] == Share(e[p], t)
    ensures Total(w) * t <= Total(e) * 65535 <= Total(w) * t + |e| * t
    ensures |e| > 0 ==> Total(e) * 65535 < Total(w) * t + |e| * t
    decreases |e|
  {
    if |e| > 0 {
      var n := |e| - 1;
      SharesAddUp(e[..n], t, w[..n]);
      ShareStep(Total(e[..n]), Total(w[..n]), e[n], w[n], t, n);
    }
  }

  lemma SharesTotal(tw: nat, t: nat, n: nat)
    requires t > 0 && tw * t <= t * 65535 < tw * t + n * t
    ensures tw <= 65535 < tw + n
  {
    Step(65535, tw, t);
    assert tw * t + n * t == (tw + n) * t;
    if tw + n <= 65535 { MulLe(tw + n, 65535, t, t); }
  }

  /** The weights sum to at most 65535 and to more than 65535 minus their number. */
  lemma WeightsTotal(raw: seq<int>, denom: nat)
    requires |raw| > 0 && 0 < denom < INT64
    ensures 65535 - |raw| < Total(Weights(raw, denom)) <= 65535
  {
    BestGets1024(raw, denom);
    SharesAddUp(Exps(raw, denom), Total(Exps(raw, denom)), Weights(raw, denom));
    SharesTotal(Total(Weights(raw, denom)), Total(Exps(raw, denom)), |raw|);
  }

  lemma QuotientMono(x: nat, y: nat, t: nat)
    requires t > 0 && x <= y
    ensures x / t <= y / t
  {
    DivMod(x, t);
    DivMod(y, t);
    Step(y / t, x / t, t);
  }

  // ---------------------------------------------------------------- the order of the weights

  /** No step of the index computation leaves 64 bits. */
  predicate StepsFit(score: int, best: int, denom: nat) {
    Fits64(best - score) && Fits64((best - score) * 32) && Fits64((best - score) * 32 + denom / 2)
  }

  /** All of them fit exactly when the last does for the worst score. */
  lemma StepsFitIff(raw: seq<int>, denom: nat)
    requires |raw| > 0 && 0 < denom < INT64
    ensures (forall p :: 0 <= p < |raw| ==> StepsFit(raw[p], MaxOf(raw), denom)) <==> Spread(raw) * 32 + denom / 2 < INT64
  {
    var p :| 0 <= p < |raw| && raw[p] == MinOf(raw);
    assert StepsFit(raw[p], MaxOf(raw), denom) <==> Spread(raw) * 32 + denom / 2 < INT64;
  }

  /** Then the index is the rounded distance, and the guard against a negative one idle. */
  lemma StepsExact(score: int, best: int, denom: nat)
    requires 0 < denom < INT64 && score <= best && (best - score) * 32 + denom / 2 < INT64
    ensures Steps(score, best, denom) == ((best - score) * 32 + denom / 2) / denom >= 0
  {
    I64ExactIff(best - score);
    I64ExactIff((best - score) * 32);
    I64ExactIff((best - score) * 32 + denom / 2);
    DivMod((best - score) * 32 + denom / 2, denom);
  }

  lemma DistanceMonotone(a: int, b: int, best: int, denom: nat)
    requires 0 < denom < INT64 && a <= b <= best && (best - a) * 32 + denom / 2 < INT64
    ensures Distance(b, best, denom) <= Distance(a, best, denom)
  {
    StepsExact(a, best, denom);
    StepsExact(b, best, denom);
    QuotientMono((best - b) * 32 + denom / 2, (best - a) * 32 + denom / 2, denom);
  }

  /** A higher score never gets a smaller weight, as long as no step leaves 64 bits. */
  lemma WeightsMonotone(raw: seq<int>, denom: nat, p: nat, q: nat)
    requires 0 < denom < INT64 && p < |raw| && q < |raw| && raw[p] <= raw[q]
    requires Spread(raw) * 32 + denom / 2 < INT64
    ensures Weights(raw, denom)[p] <= Weights(raw, denom)[q]
  {
    var (e, best) := (Exps(raw, denom), MaxOf(raw));
    BestGets1024(raw, denom);
    DistanceMonotone(raw[p], raw[q], best, denom);
    ExpLutDecreasing(Distance(raw[q], best, denom), Distance(raw[p], best, denom));
    QuotientMono(e[p] * 65535, e[q] * 65535, Total(e));
  }

  ghost predicate Ordered(raw: seq<int>, denom: nat)
    requires |raw| > 0 && 0 < denom < INT64
  {
    forall p, q :: 0 <= p < |raw| && 0 <= q < |raw| && raw[p] <= raw[q] ==> Weights(raw, denom)[p] <= Weights(raw, denom)[q]
  }

  ghost predicate Int64s(raw: seq<int>) { |raw| > 0 && forall p :: 0 <= p < |raw| ==> Fits64(raw[p]) }

  lemma ThreeExps(a: int, b: int, c: int, denom: nat)
    requires 0 < denom < INT64 && b <= a && c <= a
    ensures MaxOf([a, b, c]) == a
    ensures Exps([a, b, c], denom) == [ExpLut(Distance(a, a, denom)), ExpLut(Distance(b, a, denom)), ExpLut(Distance(c, a, denom))]
  {
    hide ExpLut, Distance;
  }

  lemma ThreeTotal(e: seq<nat>)
    requires |e| == 3
    ensures Total(e) == e[0] + e[1] + e[2]
  {
    assert e[..2][..1] == [e[0]] && [e[0]][..0] == [];
    assert Total(e[..2][..1]) == e[0];
  }

  /** When the second of three falls to nothing and the third counts as the best. */
  lemma ThreeWeights(a: int, b: int, c: int, denom: nat)
    requires 0 < denom < INT64 && b <= a && c <= a && Steps(b, a, denom) >= 255 && Steps(c, a, denom) <= 0
    ensures Weights([a, b, c], denom) == [32767, 0, 32767]
  {
    hide Steps, Exps, MaxOf, Total, Weights;
    StepsExact(a, a, denom);
    assert Steps(a, a, denom) == 0 by { QuotRem(denom, 0, denom / 2); }
    ThreeExps(a, b, c, denom);
    ExpLutEnds();
    var e := Exps([a, b, c], denom);
    ThreeTotal(e);
    WeightsAre([a, b, c], denom, e, 2048);
  }

  lemma ExpLutEnds()
    ensures ExpLut(0) == 1024 && ExpLut(255) == 0
  {
  }

  lemma WeightsAre(raw: seq<int>, denom: nat, e: seq<nat>, t: nat)
    requires |raw| > 0 && 0 < denom < INT64 && e == Exps(raw, denom) && t == Total(e) > 0
    ensures Weights(raw, denom) == seq(|e|, p requires 0 <= p < |e| => Share(e[p], t))
  {
  }

  /** The smallest distance whose scaled sum reaches 2^63. */
  function FirstWrap(denom: nat): int { (INT64 - denom / 2 + 31) / 32 }

  lemma FirstWrapIs(denom: nat)
    requires denom <= 0x4_0000_0000_0000
    ensures
      var r := FirstWrap(denom);
      0 < r < INT64 && INT64 - 32 <= (r - 1) * 32 + denom / 2 < INT64 <= r * 32 + denom / 2
  {
  }

  /** A unit below, the index is as large as it can be. */
  lemma LargestBefore(denom: nat, r: int)
    requires 0 < denom <= 0x4_0000_0000_0000 && 0 < r && INT64 - 32 <= (r - 1) * 32 + denom / 2 < INT64
    ensures Steps(-(r - 1), 0, denom) >= 255
  {
    var x := (r - 1) * 32 + denom / 2;
    StepsExact(-(r - 1), 0, denom);
    MulLe(255, 255, denom, 0x4_0000_0000_0000);
    hide Steps;
    QuotientMono(255 * denom, x, denom);
    QuotRem(denom, 255, 0);
  }

  lemma WrapSum(x: int, y: int)
    ensures I64(I64(x) + y) == I64(x + y)
  {
  }

  lemma Wrapped(x: int)
    requires INT64 <= x < INT64 + TWO64
    ensures I64(x) == x - TWO64
  {
  }

  /** There it is negative. */
  lemma NegativeAfter(denom: nat, r: int)
    requires 0 < denom <= 0x4_0000_0000_0000 && 0 < r < INT64 && INT64 <= r * 32 + denom / 2 < INT64 + 64
    ensures Steps(-r, 0, denom) <= 0
  {
    I64ExactIff(r);
    WrapSum(r * 32, denom / 2);
    Wrapped(r * 32 + denom / 2);
    TruncSign(r * 32 + denom / 2 - TWO64, denom);
    hide I64, Trunc;
    assert 0 - -r == r;
  }

  lemma TruncSign(a: int, b: nat)
    requires b > 0 && a < 0
    ensures Trunc(a, b) <= 0
  {
    DivMod(-a, b);
  }

  /** For a given denominator, every row of scores within a given spread keeps its order
      exactly when the spread leaves every step in 64 bits. */
  lemma OrderKeptIff(denom: nat, spread: nat)
    requires 0 < denom <= 0x4_0000_0000_0000
    ensures (forall raw :: Int64s(raw) && Spread(raw) <= spread ==> Ordered(raw, denom)) <==> spread * 32 + denom / 2 < INT64
  {
    if spread * 32 + denom / 2 < INT64 {
      forall raw | Int64s(raw) && Spread(raw) <= spread ensures Ordered(raw, denom) {
        forall p, q | 0 <= p < |raw| && 0 <= q < |raw| && raw[p] <= raw[q] ensures Weights(raw, denom)[p] <= Weights(raw, denom)[q] {
          WeightsMonotone(raw, denom, p, q);
        }
      }
    } else {
      var r := FirstWrap(denom);
      FirstWrapIs(denom);
      LargestBefore(denom, r);
      NegativeAfter(denom, r);
      ThreeWeights(0, -(r - 1), -r, denom);
      var raw := [0, -(r - 1), -r];
      assert Spread(raw) <= r <= spread;
      assert raw[2] <= raw[1] && Weights(raw, denom)[2] > Weights(raw, denom)[1];
      assert Int64s(raw) && !Ordered(raw, denom);
    }
  }

  // ---------------------------------------------------------------- outputs

  /** The weighted sum before the division. */
  function Mixed(w: seq<nat>, v: seq<int>): int
    requires |w| == |v|
  {
    if w == [] then 0 else Mixed(w[..|w| - 1], v[..|v| - 1]) + w[|w| - 1] * v[|v| - 1]
  }

  function Attend(w: seq<nat>, v: seq<int>): int
    requires |w| == |v|
  {
    Trunc(Mixed(w, v), 65535)
  }

  lemma {:induction false} MixedBound(w: seq<nat>, v: seq<int>, b: nat)
    requires |w| == |v| && forall p :: 0 <= p < |v| ==> Abs(v[p]) <= b
    ensures Abs(Mixed(w, v)) <= Total(w) * b
    decreases |w|
  {
    if w != [] {
      var n := |w| - 1;
      MixedBound(w[..n], v[..n], b);
      MixedStep(Mixed(w[..n], v[..n]), Total(w[..n]), w[n], v[n], b);
    }
  }

  lemma MixedStep(m: int, t: nat, w: nat, v: int, b: nat)
    requires Abs(m) <= t * b && Abs(v) <= b
    ensures Abs(m + w * v) <= (t + w) * b
  {
    MulLe(w, w, Abs(v), b);
    assert Abs(w * v) == w * Abs(v) by { if v < 0 { assert w * v == -(w * -v); } }
    assert (t + w) * b == t * b + w * b;
  }

  lemma {:induction false} TotalPrefix(w: seq<nat>, n: nat)
    requires n <= |w|
    ensures Total(w[..n]) <= Total(w)
    decreases |w|
  {
    if n < |w| {
      assert w[..|w| - 1][..n] == w[..n];
      TotalPrefix(w[..|w| - 1], n);
    } else {
      assert w[..n] == w;
    }
  }

  lemma MixedPrefix(w: seq<nat>, v: seq<int>, b: nat, n: nat)
    requires |w| == |v| && Total(w) <= 65535 && n <= |w| && forall p :: 0 <= p < |v| ==> Abs(v[p]) <= b
    ensures Abs(Mixed(w[..n], v[..n])) <= 65535 * b
  {
    TotalPrefix(w, n);
    MixedBound(w[..n], v[..n], b);
    MulLe(Total(w[..n]), 65535, b, b);
  }

  /** An attention output is never larger than the largest value it averages, and no partial
      sum leaves 64 bits for int8 values with 32-bit scales, at every sequence length. */
  lemma AttendBound(raw: seq<int>, denom: nat, v: seq<int>, b: nat)
    requires |raw| > 0 && 0 < denom < INT64 && |v| == |raw| && forall p :: 0 <= p < |v| ==> Abs(v[p]) <= b
    ensures Abs(Attend(Weights(raw, denom), v)) <= b
    ensures b <= 128 * TWO32 ==> forall n :: 0 <= n <= |v| ==> Fits64(Mixed(Weights(raw, denom)[..n], v[..n]))
  {
    var w := Weights(raw, denom);
    WeightsTotal(raw, denom);
    hide Mixed, Weights;
    forall n | 0 <= n <= |v| ensures Abs(Mixed(w[..n], v[..n])) <= 65535 * b { MixedPrefix(w, v, b, n); }
    assert w[..|v|] == w && v[..|v|] == v;
    QuotientMono(Abs(Mixed(w, v)), 65535 * b, 65535);
    assert 65535 * b / 65535 == b;
  }
}
