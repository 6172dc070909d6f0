/** The engine branch of llm_npu_matmul (src/llm/llm_matmul.c): weights and input laid out,
    the engine run, the sums read back; and when that is the processor's product. */
module LlmEngine {
  import opened Sums
  import opened Layout
  import opened Scatter
  import opened Quant
  import opened LlmSpec
  import opened LlmOps
  import opened LlmMatmul
  import TiledMatmul

  // ---------------------------------------------------------------- the layouts

  /** Place and value of the s-th write of the weight loops: kernel s / k, lane s % k, with
      the unpadded number of lanes as the layout's width. */
  function WeightSpot(k: nat): int -> int
    requires k > 0
  {
    s => WeightInt8(k, s / k + 1, s % k + 1)
  }

  function Values(data: seq<int>): int -> int { s => At(data, s) }

  /** The zeroed weight buffer after the first n writes. */
  function LaidPart(w: Weight, n: nat): (r: seq<int>)
    requires w.cols > 0
    ensures |r| == Room(w.cols, w.rows)
  {
    WriteAll(Zeros(Room(w.cols, w.rows)), n, WeightSpot(w.cols), Values(w.data))
  }

  /** And after all of them. */
  function Laid(w: Weight): (r: seq<int>)
    requires w.cols > 0
    ensures |r| == Room(w.cols, w.rows)
  {
    LaidPart(w, Before(w.rows, w.cols))
  }

  /** Place of the s-th write of the input loops: row s / k, lane s % k. */
  function LaneSpot(m: nat, k: nat): int -> int
    requires k > 0
  {
    s => FeatureData(m, 1, 16, s % k + 1, s / k + 1, 1)
  }

  /** Bytes of the feature cube. */
  function CubeBytes(m: nat, k: nat): nat {
    MulLe(0, CeilDiv(k, 16) * 16, 0, m);
    CeilDiv(k, 16) * 16 * m
  }

  /** The zeroed feature buffer after the first n writes. */
  function FeaturesPart(x: seq<int>, m: nat, k: nat, n: nat): (r: seq<int>)
    requires k > 0
    ensures |r| == CubeBytes(m, k)
  {
    WriteAll(Zeros(CubeBytes(m, k)), n, LaneSpot(m, k), Values(x))
  }

  function Features(x: seq<int>, m: nat, k: nat): (r: seq<int>)
    requires k > 0
    ensures |r| == CubeBytes(m, k)
  {
    FeaturesPart(x, m, k, |x|)
  }

  /** The one tile of gen_matmul_int8. */
  function Whole(m: nat, k: nat): TiledMatmul.Tile {
    TiledMatmul.Tile(0, m, TiledMatmul.Banks(TiledMatmul.Bytes(m, k)), TiledMatmul.BANKS - TiledMatmul.Banks(TiledMatmul.Bytes(m, k)), 0, 4, TiledMatmul.SurfStride(m), 0, m)
  }

  /** The accumulators of one row that come back from the engine. */
  function EngineRow(x: seq<int>, m: nat, w: Weight, r: nat): (acc: seq<int>)
    requires w.cols > 0
    ensures |acc| == w.rows
  {
    seq(w.rows, n requires 0 <= n < w.rows => TiledMatmul.EngineDot(Features(x, m, w.cols), Laid(w), m, w.cols, r, n))
  }

  /** And of all rows. */
  function EngineProducts(x: seq<int>, m: nat, w: Weight): (accs: seq<seq<int>>)
    requires w.cols > 0
    ensures |accs| == m && forall r :: 0 <= r < m ==> |accs[r]| == w.rows
  {
    seq(m, r requires 0 <= r < m => EngineRow(x, m, w, r))
  }

  lemma SpotInRange(k: nat, rows: nat, n: nat, c: nat)
    requires n < rows && c < k
    ensures WeightSpot(k)(Before(n, k) + c) == WeightInt8(k, n + 1, c + 1)
    ensures 0 <= WeightInt8(k, n + 1, c + 1) < Room(k, rows)
    ensures Before(n, k) + c < Before(rows, k)
  {
    QuotRem(k, n, c);
    WeightInRange(k, rows, n + 1, c + 1);
    DigitsBound(k, rows, n, c);
  }

  lemma LaneSpotIs(m: nat, k: nat, r: nat, c: nat)
    requires r < m && c < k
    ensures LaneSpot(m, k)(Before(r, k) + c) == FeatureData(m, 1, 16, c + 1, r + 1, 1)
    ensures 0 <= FeatureData(m, 1, 16, c + 1, r + 1, 1) < CubeBytes(m, k)
    ensures Before(r, k) + c < Before(m, k)
  {
    QuotRem(k, r, c);
    DigitsBound(k, m, r, c);
    FeatureInRange(k, m, 1, 16, c + 1, r + 1, 1);
    assert CeilDiv(k, 16) * (m * 1) * 16 == CeilDiv(k, 16) * 16 * m;
  }

  // ---------------------------------------------------------------- the loops

  /** llm_prelayout_weight, and the same loops of the fallback into the scratch buffer. */
  method LayWeights(w: Weight, wbuf: array<int8>)
    requires w.Shaped(w.rows, w.cols) && w.cols > 0 && wbuf.Length == Room(w.cols, w.rows)
    modifies wbuf
    ensures wbuf[..] == Laid(w)
  {
    hide Room;
    for i := 0 to wbuf.Length
      invariant forall j :: 0 <= j < i ==> wbuf[j] == 0
    {
      wbuf[i] := 0;
    }
    assert wbuf[..] == LaidPart(w, 0);
    RowStarts(w.rows, w.cols);
    hide Before;
    for n := 0 to w.rows
      invariant wbuf[..] == LaidPart(w, Before(n, w.cols))
    {
      for k := 0 to w.cols
        invariant wbuf[..] == LaidPart(w, Before(n, w.cols) + k)
      {
        SpotInRange(w.cols, w.rows, n, k);
        wbuf[WeightInt8(w.cols, n + 1, k + 1)] := w.data[Before(n, w.cols) + k];
      }
      RowFits(n, w.rows, w.cols);
    }
  }

  /** The input loops. */
  method LayInput(x: array<int8>, m: nat, k: nat, feat: array<int8>)
    requires k > 0 && x.Length == m * k && feat.Length == CubeBytes(m, k) && feat != x
    modifies feat
    ensures feat[..] == Features(x[..], m, k)
  {
    hide CubeBytes;
    for i := 0 to feat.Length
      invariant forall j :: 0 <= j < i ==> feat[j] == 0
    {
      feat[i] := 0;
    }
    assert feat[..] == FeaturesPart(x[..], m, k, 0);
    RowStarts(m, k);
    hide Before;
    for row := 0 to m
      invariant feat[..] == FeaturesPart(x[..], m, k, Before(row, k))
    {
      for c := 0 to k
        invariant feat[..] == FeaturesPart(x[..], m, k, Before(row, k) + c)
      {
        LaneSpotIs(m, k, row, c);
        feat[FeatureData(m, 1, 16, c + 1, row + 1, 1)] := x[Before(row, k) + c];
      }
      RowFits(row, m, k);
    }
  }

  lemma WholeIs(m: nat, k: nat)
    requires m > 0
    ensures TiledMatmul.IsTile(Whole(m, k), m, k) && Whole(m, k).offset == 0 && Whole(m, k).rows == m
  {
  }

  /** Where the sum of kernel n for row r lies in the output cube. */
  function SumPlace(m: nat, r: int, n: int): int { FeatureData(m, 1, 4, n + 1, r + 1, 1) }

  /** Words of the output cube. */
  function SumWords(m: nat, rows: nat): nat {
    MulLe(0, CeilDiv(rows, 4) * 4, 0, m);
    CeilDiv(rows, 4) * 4 * m
  }

  /** What the engine leaves for kernel n of row r. */
  lemma SumStored(x: seq<int>, m: nat, w: Weight, out: seq<int>, r: nat, n: nat)
    requires w.cols > 0 && r < m && n < w.rows && |out| == SumWords(m, w.rows)
    ensures 0 <= SumPlace(m, r, n) < |out|
    ensures TiledMatmul.RunTile(Whole(m, w.cols), Features(x, m, w.cols), Laid(w), w.cols, w.rows, out)[SumPlace(m, r, n)]
         == EngineProducts(x, m, w)[r][n]
  {
    hide Whole, Features, Laid, FeatureData, SumWords, CeilDiv, TiledMatmul.RunTile, TiledMatmul.EngineDot, TiledMatmul.IsTile;
    WholeIs(m, w.cols);
    FeatureInRange(w.rows, m, 1, 4, n + 1, r + 1, 1);
    SumWordsAre(m, w.rows);
    TiledMatmul.TileRuns(Whole(m, w.cols), Features(x, m, w.cols), Laid(w), m, w.cols, w.rows, out, r, n);
  }

  lemma SumWordsAre(m: nat, rows: nat)
    ensures SumWords(m, rows) == CeilDiv(rows, 4) * (m * 1) * 4
  {
    hide CeilDiv;
    assert CeilDiv(rows, 4) * (m * 1) * 4 == CeilDiv(rows, 4) * 4 * m;
  }

  /** The output buffer holds these sums where the readback looks for them. */
  ghost predicate Stored(out: seq<int>, m: nat, accs: seq<seq<int>>) {
    forall r, n :: 0 <= r < |accs| && 0 <= n < |accs[r]| ==>
      0 <= SumPlace(m, r, n) < |out| && out[SumPlace(m, r, n)] == accs[r][n]
  }

  lemma AllStored(x: seq<int>, m: nat, w: Weight, out: seq<int>)
    requires w.cols > 0 && w.rows > 0 && |out| == SumWords(m, w.rows)
    ensures Stored(TiledMatmul.RunTile(Whole(m, w.cols), Features(x, m, w.cols), Laid(w), w.cols, w.rows, out), m, EngineProducts(x, m, w))
  {
    hide Whole, Features, Laid, SumPlace, SumWords, EngineProducts, TiledMatmul.RunTile;
    var (after, accs) := (TiledMatmul.RunTile(Whole(m, w.cols), Features(x, m, w.cols), Laid(w), w.cols, w.rows, out), EngineProducts(x, m, w));
    forall r, n | 0 <= r < |accs| && 0 <= n < |accs[r]|
      ensures 0 <= SumPlace(m, r, n) < |after| && after[SumPlace(m, r, n)] == accs[r][n]
    {
      SumStored(x, m, w, out, r, n);
    }
  }

  /** The engine as a specification: one tile, reading and writing where its descriptor
      says. */
  method Engine(m: nat, k: nat, n: nat, feat: array<int8>, wbuf: array<int8>, out32: array<int>)
    requires n > 0
    modifies out32
    ensures out32[..] == TiledMatmul.RunTile(Whole(m, k), feat[..], wbuf[..], k, n, old(out32[..]))
  {
    hide TiledMatmul.RunTile, Whole;
    ghost var fe, wt := feat[..], wbuf[..];
    var after := TiledMatmul.RunTile(Whole(m, k), feat[..], wbuf[..], k, n, out32[..]);
    forall i | 0 <= i < out32.Length {
      out32[i] := after[i];
    }
    assert out32[..] == after && feat[..] == fe && wbuf[..] == wt;
  }

  /** The readback of one row, with the running maximum. */
  method ReadRow(out32: array<int>, m: nat, row: nat, rows: nat, peak: nat, logits32: array?<int>, at: nat, ghost accs: seq<seq<int>>)
    returns (acc: array<int>, maxabs: nat)
    requires row < |accs| && |accs[row]| == rows && Stored(out32[..], m, accs) && peak >= 1
    requires logits32 != null ==> at + rows <= logits32.Length && logits32 != out32
    modifies logits32
    ensures fresh(acc) && acc[..] == accs[row] && maxabs == Larger(peak, MaxAbs(acc[..]))
    ensures logits32 != null ==> logits32[..at + rows] == old(logits32[..at]) + acc[..]
  {
    hide SumPlace, MaxAbs;
    ghost var spec := accs[row];
    ghost var was := if logits32 != null then logits32[..at] else [];
    MaxAbsNone(spec);
    acc := new int[rows];
    maxabs := peak;
    for n := 0 to rows
      invariant acc[..n] == spec[..n] && maxabs == Larger(peak, MaxAbs(spec[..n]))
      invariant logits32 != null ==> logits32[..at + n] == was + spec[..n]
    {
      assert out32[..][SumPlace(m, row, n)] == accs[row][n];
      var v := out32[SumPlace(m, row, n)];
      maxabs := TakeSum(acc, n, v, maxabs, logits32, at, peak, spec, was);
    }
    assert spec[..rows] == spec;
  }

  /** One more row read back and requantised. */
  method FinishRow(output: array<int8>, out32: array<int>, m: nat, row: nat, rows: nat, peak: nat, logits32: array?<int>, at: nat,
                   ghost accs: seq<seq<int>>)
    returns (maxabs: nat)
    requires row < |accs| && |accs[row]| == rows && Stored(out32[..], m, accs) && at + rows <= output.Length
    requires logits32 != null ==> at + rows <= logits32.Length && logits32 != out32
    requires peak == Peak(accs[..row]) && output[..at] == Outputs(accs[..row])
    requires logits32 != null ==> logits32[..at] == Flat(accs[..row])
    modifies output, logits32
    ensures maxabs == Peak(accs[..row + 1]) && output[..at + rows] == Outputs(accs[..row + 1])
    ensures logits32 != null ==> logits32[..at + rows] == Flat(accs[..row + 1])
  {
    hide Outputs, Peak, Flat, RequantAll, MaxAbs, Stored;
    OneMoreRow(accs, row);
    var acc;
    acc, maxabs := ReadRow(out32, m, row, rows, peak, logits32, at, accs);
    RequantRow(acc, maxabs, output, at);
  }

  /** Readback of all rows. */
  method ReadBack(output: array<int8>, out32: array<int>, m: nat, rows: nat, logits32: array?<int>, ghost accs: seq<seq<int>>)
    returns (maxabs: nat)
    requires |accs| == m && (forall r :: 0 <= r < m ==> |accs[r]| == rows) && Stored(out32[..], m, accs) && output.Length == m * rows
    requires logits32 != null ==> logits32.Length == m * rows && logits32 != out32
    modifies output, logits32
    ensures maxabs == Peak(accs) && output[..] == Outputs(accs) && (logits32 != null ==> logits32[..] == Flat(accs))
  {
    hide Outputs, Peak, Flat, Before, Stored;
    NoRows(accs);
    RowStarts(m, rows);
    var at: nat := 0;
    maxabs := 1;
    ghost var sums := out32[..];
    for row := 0 to m
      invariant at == Before(row, rows) && maxabs == Peak(accs[..row]) && out32[..] == sums
      invariant at <= output.Length && output[..at] == Outputs(accs[..row])
      invariant logits32 != null ==> logits32[..at] == Flat(accs[..row])
    {
      RowFits(row, m, rows);
      maxabs := FinishRow(output, out32, m, row, rows, maxabs, logits32, at, accs);
      at := at + rows;
    }
    assert accs[..m] == accs && output[..at] == output[..];
  }

  /** What gen_matmul_int8 returns for m rows of k lanes. */
  function WholeCode(m: nat, k: nat): int {
    if TiledMatmul.Banks(TiledMatmul.Bytes(m, k)) > TiledMatmul.BANKS - 1 then -1 else if k > TiledMatmul.BANK then -2 else 0
  }

  /** A single row is accepted exactly when it fits one bank, as all rows within the scratch
      arrays do. */
  lemma RowAccepted(k: nat)
    ensures WholeCode(1, k) == 0 <==> k <= TiledMatmul.BANK
  {
    TiledMatmul.CeilCounts(k, TiledMatmul.BANK);
  }

  /** llm_npu_matmul on m rows of input, engine branch: what the processor branch computes
      when weights' places are distinct and the strides reach all features; 1 and no output
      when the generator rejects the size. */
  method NpuMatmulOnEngine(output: array<int8>, input: array<int8>, m: nat, w: Weight, inScale: uint32, logits32: array?<int>,
                           wbuf: array<int8>, feat: array<int8>, out32: array<int>)
    returns (s: uint32)
    requires w.Shaped(w.rows, w.cols) && w.cols > 0 && w.rows > 0 && input.Length == m * w.cols && output.Length == m * w.rows
    requires wbuf[..] == Laid(w) && m < 65536 && w.cols < 65536 && w.rows < 65536
    requires feat.Length == CubeBytes(m, w.cols) && out32.Length == SumWords(m, w.rows) && feat !in {input, wbuf, output}
    requires logits32 != null ==> logits32.Length == m * w.rows && logits32 != out32
    modifies output, logits32, feat, out32
    ensures WholeCode(m, w.cols) != 0 ==> s == 1 && output[..] == old(output[..]) && (logits32 != null ==> logits32[..] == old(logits32[..]))
    ensures WholeCode(m, w.cols) == 0 ==>
      var accs := EngineProducts(old(input[..]), m, w);
      && output[..] == Outputs(accs) && s == MatScale(Peak(accs), w.scale, inScale)
      && (logits32 != null ==> logits32[..] == Flat(accs))
    ensures Agreeing(m, w) ==> EngineProducts(old(input[..]), m, w) == Products(old(input[..]), m, w)
    ensures m == 1 && w.cols <= SCRATCH ==> WholeCode(m, w.cols) == 0
  {
    hide EngineProducts, Products, Laid, Features, Whole, WholeCode, SumWords, CubeBytes, Outputs, Peak, Flat, Stored, Agreeing, TiledMatmul.RunTile;
    ghost var x := input[..];
    RowAccepted(w.cols);
    if Agreeing(m, w) { EngineIsProduct(x, m, w); }
    LayInput(input, m, w.cols, feat);
    if WholeCode(m, w.cols) != 0 {
      return 1;
    }
    AllStored(x, m, w, out32[..]);
    Engine(m, w.cols, w.rows, feat, wbuf, out32);
    var maxabs := ReadBack(output, out32, m, w.rows, logits32, EngineProducts(x, m, w));
    s := ProductScale(maxabs, w, inScale);
  }

  // ---------------------------------------------------------------- when the branches agree

  /** No two weights share a place: whole tiles of lanes, or one group of kernels. */
  predicate Apart(w: Weight) { w.cols % 32 == 0 || w.rows <= 32 }

  /** And the strides reach every row: a multiple of 4 rows, one row, or one plane. */
  predicate Agreeing(m: nat, w: Weight) { Apart(w) && TiledMatmul.InPlace(m, w.cols) }

  lemma LaneSpotsDistinct(m: nat, k: nat, s: nat, t: nat)
    requires k > 0 && s < m * k && t < m * k && LaneSpot(m, k)(s) == LaneSpot(m, k)(t)
    ensures s == t
  {
    QuotBelow(s, k, m);
    QuotBelow(t, k, m);
    DivMod(s, k);
    DivMod(t, k);
    FeatureInjective(m, 1, 16, s % k + 1, s / k + 1, 1, t % k + 1, t / k + 1, 1);
  }

  /** The layout holds every lane of every row. */
  lemma FeatureHeld(x: seq<int8>, m: nat, k: nat, r: nat, c: nat)
    requires |x| == m * k && r < m && c < k
    ensures At(Features(x, m, k), FeatureData(m, 1, 16, c + 1, r + 1, 1)) == InputRow(x, m, k, r)[c]
  {
    hide FeatureData, CubeBytes, LaneSpot, InputRow;
    forall s: nat, t: nat | s < |x| && t < |x| && LaneSpot(m, k)(s) == LaneSpot(m, k)(t) ensures s == t { LaneSpotsDistinct(m, k, s, t); }
    LaneSpotIs(m, k, r, c);
    ValueIs(x, m, k, r, c);
    HeldWhereWritten(CubeBytes(m, k), |x|, LaneSpot(m, k), Values(x), Before(r, k) + c);
  }

  lemma ValueIs(x: seq<int8>, m: nat, k: nat, r: nat, c: nat)
    requires |x| == m * k && r < m && c < k
    ensures Before(r, k) + c < |x| && Values(x)(Before(r, k) + c) == InputRow(x, m, k, r)[c]
  {
    HeadInside(r, m, k);
  }

  lemma SpotsDistinct(w: Weight, s: nat, t: nat)
    requires Apart(w) && w.cols > 0 && s < w.rows * w.cols && t < w.rows * w.cols
    requires WeightSpot(w.cols)(s) == WeightSpot(w.cols)(t)
    ensures s == t
  {
    var k := w.cols;
    QuotBelow(s, k, w.rows);
    QuotBelow(t, k, w.rows);
    DivMod(s, k);
    DivMod(t, k);
    WeightInjective(k, w.rows, s / k + 1, s % k + 1, t / k + 1, t % k + 1);
  }

  lemma RowAt(w: Weight, n: nat, c: nat)
    requires w.Shaped(w.rows, w.cols) && n < w.rows && c < w.cols
    ensures At(w.data, Before(n, w.cols) + c) == WeightRow(w, n)[c]
  {
    var from := Before(n, w.cols);
    RowFits(n, w.rows, w.cols);
    assert WeightRow(w, n) == Slice(w.data, from, w.cols);
    assert Slice(w.data, from, w.cols)[c] == w.data[from + c];
  }

  lemma WeightKept(w: Weight, n: nat, c: nat)
    requires w.Shaped(w.rows, w.cols) && Apart(w) && n < w.rows && c < w.cols
    ensures At(Laid(w), WeightInt8(w.cols, n + 1, c + 1)) == WeightRow(w, n)[c]
  {
    hide WeightInt8, Room, Apart, WeightRow, WeightSpot;
    var (k, total) := (w.cols, Before(w.rows, w.cols));
    SpotInRange(k, w.rows, n, c);
    RowAt(w, n, c);
    forall s: nat, t: nat | s < total && t < total && WeightSpot(k)(s) == WeightSpot(k)(t) ensures s == t { SpotsDistinct(w, s, t); }
    HeldWhereWritten(Room(k, w.rows), total, WeightSpot(k), Values(w.data), Before(n, k) + c);
  }

  lemma {:induction false} DotIsSum(a: seq<int8>, b: seq<int8>, f: int -> int)
    requires |a| == |b| && forall c :: 0 <= c < |a| ==> f(c) == Times(a[c], b[c])
    ensures Dot(a, b) == Sum(|a|, f)
  {
    if a != [] { DotIsSum(a[..|a| - 1], b[..|b| - 1], f); }
  }

  /** One product of the engine, when the strides reach its row. */
  lemma TermIs(x: seq<int8>, m: nat, w: Weight, r: nat, n: nat, c: nat)
    requires |x| == m * w.cols && TiledMatmul.InPlace(m, w.cols) && r < m && c < w.cols
    ensures TiledMatmul.EngineTerm(Features(x, m, w.cols), Laid(w), m, w.cols, r, n)(c)
         == Times(InputRow(x, m, w.cols, r)[c], At(Laid(w), WeightInt8(w.cols, n + 1, c + 1)))
  {
    hide Features, Laid, WeightInt8, FeatureData, InputRow, TiledMatmul.Fetched, TiledMatmul.InPlace;
    FeatureHeld(x, m, w.cols, r, c);
    TiledMatmul.FetchedInPlace(m, w.cols, r, c);
  }

  lemma SumIsProduct(x: seq<int8>, m: nat, w: Weight, r: nat, n: nat)
    requires w.Shaped(w.rows, w.cols) && w.cols > 0 && |x| == m * w.cols && Agreeing(m, w) && r < m && n < w.rows
    ensures EngineRow(x, m, w, r)[n] == Dot(InputRow(x, m, w.cols, r), WeightRow(w, n))
  {
    hide Laid, Features, WeightInt8, InputRow, TiledMatmul.EngineTerm, Apart, Sum, Dot, WeightRow, TiledMatmul.InPlace, Weight.Shaped;
    var f := TiledMatmul.EngineTerm(Features(x, m, w.cols), Laid(w), m, w.cols, r, n);
    forall c | 0 <= c < w.cols ensures f(c) == Times(InputRow(x, m, w.cols, r)[c], WeightRow(w, n)[c]) {
      TermIs(x, m, w, r, n, c);
      WeightKept(w, n, c);
    }
    DotIsSum(InputRow(x, m, w.cols, r), WeightRow(w, n), f);
  }

  lemma EngineRowIsProduct(x: seq<int8>, m: nat, w: Weight, r: nat)
    requires w.Shaped(w.rows, w.cols) && w.cols > 0 && |x| == m * w.cols && Agreeing(m, w) && r < m
    ensures EngineRow(x, m, w, r) == Accumulate(InputRow(x, m, w.cols, r), w)
  {
    hide EngineRow, WeightRow, InputRow, Dot, Agreeing;
    forall n | 0 <= n < w.rows ensures EngineRow(x, m, w, r)[n] == Accumulate(InputRow(x, m, w.cols, r), w)[n] { SumIsProduct(x, m, w, r, n); }
  }

  /** Then the engine's accumulators are the product. */
  lemma EngineIsProduct(x: seq<int8>, m: nat, w: Weight)
    requires w.Shaped(w.rows, w.cols) && w.cols > 0 && |x| == m * w.cols && Agreeing(m, w)
    ensures EngineProducts(x, m, w) == Products(x, m, w)
  {
    hide EngineRow, InputRow, Accumulate, Agreeing;
    forall r | 0 <= r < m ensures EngineProducts(x, m, w)[r] == Products(x, m, w)[r] { EngineRowIsProduct(x, m, w, r); }
  }

  // ---------------------------------------------------------------- when they do not

  /** A place written again, with nothing but zeros from then on. */
  lemma {:induction false} ZeroAfter(buf: seq<int>, n: nat, pos: int -> int, val: int -> int, s: nat)
    requires s < n && 0 <= pos(s) < |buf| && forall t :: s <= t < n ==> val(t) == 0
    ensures WriteAll(buf, n, pos, val)[pos(s)] == 0
  {
    if s < n - 1 { ZeroAfter(buf, n - 1, pos, val, s); }
  }

  /** Otherwise kernel 33 overwrites a weight of an earlier one: kernel j, lane c. */
  lemma Overwritten(k: nat, rows: nat) returns (j: nat, c: nat)
    requires k % 32 != 0 && rows > 32
    ensures j < 32 && c < k && WeightInt8(k, j + 1, c + 1) == WeightInt8(k, 33, 1)
  {
    j, c := KernelCollides(k);
    j, c := j - 1, c - 1;
  }

  /** An input of m rows, or the weights of m kernels, with a single 1. */
  function Hot(m: nat, k: nat, r: nat, c: nat): (x: seq<int8>)
    ensures |x| == m * k
  {
    OneHot(Before(m, k), Before(r, k) + c)
  }

  lemma HotRow(m: nat, k: nat, r: nat, c: nat, r': nat)
    requires r < m && r' < m && c < k
    ensures InputRow(Hot(m, k, r, c), m, k, r') == if r' == r then OneHot(k, c) else Zeros(k)
  {
    RowFits(r', m, k);
    RowFits(r, m, k);
    var row := InputRow(Hot(m, k, r, c), m, k, r');
    forall d | 0 <= d < k ensures row[d] == if r' == r && d == c then 1 else 0 {
      if Before(r', k) + d == Before(r, k) + c { Digits(k, r', d, r, c); }
    }
  }

  lemma HotWeights(w: Weight, j: nat, c: nat, n: nat)
    requires w.Shaped(w.rows, w.cols) && j < w.rows && n < w.rows && c < w.cols && w.data == Hot(w.rows, w.cols, j, c)
    ensures WeightRow(w, n) == if n == j then OneHot(w.cols, c) else Zeros(w.cols)
  {
    HotRow(w.rows, w.cols, j, c, n);
    assert WeightRow(w, n) == InputRow(w.data, w.rows, w.cols, n);
  }

  lemma HotDot(k: nat, c: nat, x: seq<int8>, y: seq<int8>)
    requires c < k && y == OneHot(k, c) && (x == OneHot(k, c) || x == Zeros(k))
    ensures Dot(x, y) == if x == Zeros(k) then 0 else 1
  {
    var v := x[c] as int;
    var f := d => if d == c then v else 0;
    forall d | 0 <= d < k ensures f(d) == Times(x[d], y[d]) { assert y[d] == if d == c then 1 else 0; }
    DotIsSum(x, y, f);
    SumOne(k, f, c);
    assert Zeros(k)[c] == 0 && OneHot(k, c)[c] == 1;
  }

  /** All weights 0 but the overwritten one, and an input that asks for just that. */
  lemma EngineLoses(m: nat, k: nat, rows: nat) returns (x: seq<int8>, w: Weight, j: nat)
    requires m > 0 && k % 32 != 0 && rows > 32 && TiledMatmul.InPlace(m, k)
    ensures |x| == m * k && w.Shaped(rows, k) && j < rows
    ensures Products(x, m, w)[0][j] == 1 && EngineProducts(x, m, w)[0][j] == 0
  {
    hide WeightInt8, EngineRow, WeightRow, InputRow, Hot, OneHot, TiledMatmul.InPlace;
    var c;
    j, c := Overwritten(k, rows);
    x, w := Hot(m, k, 0, c), Weight(Hot(rows, k, j, c), rows, k, 1);
    HotRow(m, k, 0, c, 0);
    HotWeights(w, j, c, j);
    HotDot(k, c, OneHot(k, c), OneHot(k, c));
    OneHotIsNot(k, c);
    LostWeight(w, k, j, c);
    LostSum(x, m, w, j, c);
  }

  lemma OneHotIsNot(k: nat, c: nat)
    requires c < k
    ensures OneHot(k, c) != Zeros(k)
  {
    assert OneHot(k, c)[c] == 1 && Zeros(k)[c] == 0;
  }

  lemma LostWeight(w: Weight, k: nat, j: nat, c: nat)
    requires w.Shaped(w.rows, k) && w.rows > 32 && j < 32 && c < k && w.data == Hot(w.rows, k, j, c)
    requires WeightInt8(k, j + 1, c + 1) == WeightInt8(k, 33, 1)
    ensures At(Laid(w), WeightInt8(k, j + 1, c + 1)) == 0
  {
    SpotInRange(k, w.rows, 32, 0);
    Step(j, 32, k);
    hide WeightInt8, Room;
    ZeroAfter(Zeros(Room(k, w.rows)), Before(w.rows, k), WeightSpot(k), Values(w.data), Before(32, k));
  }

  lemma LostSum(x: seq<int8>, m: nat, w: Weight, j: nat, c: nat)
    requires w.Shaped(w.rows, w.cols) && m > 0 && |x| == m * w.cols && c < w.cols && j < w.rows && TiledMatmul.InPlace(m, w.cols)
    requires InputRow(x, m, w.cols, 0) == OneHot(w.cols, c) && At(Laid(w), WeightInt8(w.cols, j + 1, c + 1)) == 0
    ensures EngineRow(x, m, w, 0)[j] == 0
  {
    hide Laid, Features, WeightInt8, InputRow, TiledMatmul.EngineTerm, TiledMatmul.InPlace;
    var f := TiledMatmul.EngineTerm(Features(x, m, w.cols), Laid(w), m, w.cols, 0, j);
    forall d | 0 <= d < w.cols ensures f(d) == 0 { TermIs(x, m, w, 0, j, d); }
    SumZero(w.cols, f);
  }

  /** A place that only zeros are written to. */
  lemma {:induction false} ZeroWritten(buf: seq<int>, n: nat, pos: int -> int, val: int -> int, p: nat)
    requires p < |buf| && buf[p] == 0 && forall s :: 0 <= s < n && pos(s) == p ==> val(s) == 0
    ensures WriteAll(buf, n, pos, val)[p] == 0
  {
    if n > 0 { ZeroWritten(buf, n - 1, pos, val, p); }
  }

  /** A place that is written once. */
  lemma {:induction false} WrittenOnce(buf: seq<int>, n: nat, pos: int -> int, val: int -> int, k: nat)
    requires k < n && 0 <= pos(k) < |buf| && forall s :: 0 <= s < n && s != k ==> pos(s) != pos(k)
    ensures WriteAll(buf, n, pos, val)[pos(k)] == val(k)
  {
    if k < n - 1 { WrittenOnce(buf, n - 1, pos, val, k); }
  }

  /** Place 16 is that of lane 16 of the first kernel and of no other weight. */
  lemma SixteenIsOnce(k: nat, s: nat)
    requires k > 16
    ensures WeightSpot(k)(s) == 16 <==> s == 16
  {
    DivMod(s, k);
    WeightDigits(k, s / k + 1, s % k + 1);
    if s == 16 { QuotRem(k, 0, 16); }
    if s / k == 0 { assert s == s % k; }
    hide WeightInt8;
    SixteenDigits(k, s / k, s % k);
  }

  lemma SixteenDigits(k: nat, n: nat, c: nat)
    requires k > 16
    ensures (n / 32 * k + c / 32 * 32 + n % 32) * 32 + c % 32 == 16 <==> n == 0 && c == 16
  {
    DivMod(n, 32);
    if n / 32 > 0 { MulLe(1, n / 32, 17, k); } else { assert n / 32 * k == 0; }
  }

  /** With the 1 of the weights there, the buffer holds a single 1. */
  lemma SixteenLaid(w: Weight, p: int)
    requires w.Shaped(w.rows, w.cols) && w.rows > 0 && w.cols > 16 && w.data == Hot(w.rows, w.cols, 0, 16)
    ensures At(Laid(w), p) == if p == 16 then 1 else 0
  {
    var (k, n) := (w.cols, Before(w.rows, w.cols));
    RowStarts(w.rows, k);
    SpotInRange(k, w.rows, 0, 16);
    hide WeightInt8, Room, WeightSpot;
    forall s: nat | s < n ensures WeightSpot(k)(s) == 16 <==> s == 16 { SixteenIsOnce(k, s); }
    if p == 16 {
      WrittenOnce(Zeros(Room(k, w.rows)), n, WeightSpot(k), Values(w.data), 16);
    } else if 0 <= p < Room(k, w.rows) {
      ZeroWritten(Zeros(Room(k, w.rows)), n, WeightSpot(k), Values(w.data), p);
    }
  }

  /** Where the strides miss the second plane, row 0 gets a lane of another row. */
  lemma EngineMisses(m: nat, k: nat, rows: nat) returns (x: seq<int8>, w: Weight)
    requires m > 0 && rows > 0 && !TiledMatmul.InPlace(m, k)
    ensures |x| == m * k && w.Shaped(rows, k)
    ensures Products(x, m, w)[0][0] == 0 && EngineProducts(x, m, w)[0][0] == 1
  {
    TiledMatmul.PlaneStride(m);
    var q := TiledMatmul.PlaneRows(m);
    hide EngineRow, WeightRow, InputRow, Hot, OneHot, TiledMatmul.PlaneRows;
    x, w := Hot(m, k, q, 0), Weight(Hot(rows, k, 0, 16), rows, k, 1);
    HotRow(m, k, q, 0, 0);
    HotWeights(w, 0, 16, 0);
    HotDot(k, 16, Zeros(k), OneHot(k, 16));
    MissedSum(x, m, w, q);
  }

  lemma MissedSum(x: seq<int8>, m: nat, w: Weight, q: nat)
    requires w.Shaped(w.rows, w.cols) && w.rows > 0 && w.cols > 16 && q == TiledMatmul.PlaneRows(m) < m
    requires x == Hot(m, w.cols, q, 0) && w.data == Hot(w.rows, w.cols, 0, 16)
    ensures EngineRow(x, m, w, 0)[0] == 1
  {
    hide Laid, Features, Hot, TiledMatmul.PlaneRows, CubeBytes;
    var f := TiledMatmul.EngineTerm(Features(x, m, w.cols), Laid(w), m, w.cols, 0, 0);
    forall c | 0 <= c < w.cols && c != 16 ensures f(c) == 0 {
      TiledMatmul.FirstKernel(w.cols, c);
      SixteenLaid(w, WeightInt8(w.cols, 1, c + 1));
    }
    SixteenLaid(w, 16);
    TiledMatmul.FirstKernel(w.cols, 16);
    FeatureHeld(x, m, w.cols, q, 0);
    HotRow(m, w.cols, q, 0, q);
    assert FeatureData(m, 1, 16, 1, q + 1, 1) == q * 16 == TiledMatmul.Fetched(m, 0, 16);
    assert OneHot(w.cols, 0)[0] == 1;
    assert f(16) == 1;
    SumOne(w.cols, f, 16);
  }

  /** The two branches compute the same product of m rows for every input and all weights
      exactly when the lanes are a multiple of 32 or there are at most 32 kernels, and the
      rows are a multiple of 4, one, or of at most 16 lanes. */
  lemma BranchesAgreeIff(m: nat, k: nat, rows: nat)
    requires m > 0 && k > 0 && rows > 0
    ensures (forall x: seq<int8>, w: Weight :: |x| == m * k && w.Shaped(rows, k) ==> EngineProducts(x, m, w) == Products(x, m, w))
       <==> (k % 32 == 0 || rows <= 32) && TiledMatmul.InPlace(m, k)
  {
    hide EngineProducts, Products, TiledMatmul.InPlace;
    if (k % 32 == 0 || rows <= 32) && TiledMatmul.InPlace(m, k) {
      forall x: seq<int8>, w: Weight | |x| == m * k && w.Shaped(rows, k) ensures EngineProducts(x, m, w) == Products(x, m, w) {
        EngineIsProduct(x, m, w);
      }
    } else if TiledMatmul.InPlace(m, k) {
      var x, w, j := EngineLoses(m, k, rows);
      assert EngineProducts(x, m, w)[0][j] != Products(x, m, w)[0][j];
    } else {
      var x, w := EngineMisses(m, k, rows);
      assert EngineProducts(x, m, w)[0][0] != Products(x, m, w)[0][0];
    }
  }

  /** One lane and 33 kernels: weight 1 of kernel 2 is lost. */
  lemma OneLaneLoses() returns (w: Weight)
    ensures w.Shaped(33, 1) && w.data[1] == 1 && Products([1], 1, w)[0][1] == 1 && EngineProducts([1], 1, w)[0][1] == 0
  {
    hide *;
    OneLaneSizes();
    w := OneLaneWeights();
    LostWeight(w, 1, 1, 0);
    HotWeights(w, 1, 0, 1);
    HotDot(1, 0, [1], OneHot(1, 0));
    LostSum([1], 1, w, 1, 0);
    RowsOfOne(w);
  }

  lemma OneLaneSizes()
    ensures WeightInt8(1, 2, 1) == WeightInt8(1, 33, 1) && TiledMatmul.InPlace(1, 1) && InputRow([1], 1, 1, 0) == [1] == OneHot(1, 0)
    ensures OneHot(1, 0) != Zeros(1)
  {
    OneHotIsNot(1, 0);
    assert WeightInt8(1, 2, 1) == 32 == WeightInt8(1, 33, 1);
  }

  lemma OneLaneWeights() returns (w: Weight)
    ensures w.Shaped(33, 1) && w.rows == 33 && w.cols == 1 && w.data[1] == 1 && w.data == Hot(33, 1, 1, 0)
  {
    w := Weight(Hot(33, 1, 1, 0), 33, 1, 1);
  }

  lemma RowsOfOne(w: Weight)
    requires w.Shaped(33, 1)
    ensures Products([1], 1, w)[0][1] == Dot(InputRow([1], 1, 1, 0), WeightRow(w, 1)) && EngineProducts([1], 1, w)[0] == EngineRow([1], 1, w, 0)
  {
    hide EngineRow, WeightRow, Dot, InputRow;
  }
}
