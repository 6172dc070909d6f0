/** Splitting a matmul into row tiles that fit the convolution buffer
    (gen_matmul_int8_tiled in src/npulib/npu_matmul.c). */
module TiledMatmul {
  import opened Sums
  import opened Layout
  import opened Scatter
  import Strides

  const BANK: nat := 32768      // NPU_CBUF_BANK_SIZE
  const BANKS: nat := 12        // NPU_CBUF_BANKS
  const TWO32: nat := 0x1_0000_0000

  /** The descriptor fields that decide where a tile's rows lie; base addresses are byte
      offsets from input_dma and output_dma. */
  datatype Tile = Tile(offset: nat, rows: nat, dataBanks: nat, weightBanks: int,
                       featBase: nat, lineStride: int, surfStride: int, dstBase: nat, dstSurfStride: int)

  function Banks(bytes: nat): nat { CeilDiv(bytes, BANK) }

  /** Bytes of r rows of k lanes. */
  function Bytes(r: nat, k: nat): nat {
    MulLe(0, r, 0, k);
    r * k
  }

  /** weight_bytes: 32 x 32 tiles, in 32-bit arithmetic. */
  function WeightBytes(k: nat, n: nat): nat { CeilDiv(k, 32) * CeilDiv(n, 32) * 32 * 32 % TWO32 }

  /** The bytes the weights really occupy. */
  function TrueWeightBytes(k: nat, n: nat): nat { CeilDiv(k, 32) * CeilDiv(n, 32) * 32 * 32 }

  /** bytes / k, down to a multiple of 4. */
  function Quads(bytes: nat, k: nat): (r: nat)
    requires k > 0
    ensures r * k <= bytes
  {
    var q := bytes / k;
    DivMod(bytes, k);
    MulLe(q / 4 * 4, q, k, k);
    q / 4 * 4
  }

  /** Rows that fit beside the weights, a multiple of 4, at most 512. */
  function MaxRows(k: nat, n: nat): nat
    requires k > 0
  {
    var avail := BANKS - Banks(WeightBytes(k, n));
    var r := if avail <= 0 then 0 else Quads(avail * BANK, k);
    if r > 512 then 512 else r
  }

  /** surf_stride of a cube of m rows and one column. */
  function SurfStride(m: nat): int { Strides.SurfStride(m, 1) }

  ghost predicate IsTile(t: Tile, m: nat, k: nat) {
    && t.rows > 0 && t.offset + t.rows <= m
    && t.dataBanks == Banks(Bytes(t.rows, k)) && t.weightBanks == BANKS - t.dataBanks
    && t.featBase == t.offset * 16 && t.dstBase == t.offset * 16
    && t.lineStride == 4 && t.surfStride == SurfStride(m) && t.dstSurfStride == m
  }

  /** The tiles' row ranges follow one another from 0 to `end`. */
  ghost predicate Partition(tiles: seq<Tile>, end: nat) {
    if tiles == [] then end == 0
    else
      var t := tiles[|tiles| - 1];
      t.rows > 0 && t.offset + t.rows == end && Partition(tiles[..|tiles| - 1], t.offset)
  }

  lemma CeilCounts(bytes: nat, unit: nat)
    requires unit > 0
    ensures CeilDiv(bytes, unit) == if bytes % unit != 0 then bytes / unit + 1 else bytes / unit
    ensures CeilDiv(bytes, unit) * unit >= bytes
    ensures forall c: nat :: c < CeilDiv(bytes, unit) ==> c * unit < bytes
  {
    var (q, r) := (bytes / unit, bytes % unit);
    DivMod(bytes, unit);
    if r == 0 { QuotRem(unit, q, unit - 1); } else { QuotRem(unit, q + 1, r - 1); assert (q + 1) * unit == q * unit + unit; }
    forall c: nat | c < CeilDiv(bytes, unit) ensures c * unit < bytes {
      Step(c, CeilDiv(bytes, unit), unit);
      if c < q { Step(c, q, unit); }
    }
  }

  /** Where tile number t starts, and whether it is the last. */
  lemma TileStarts(m: nat, maxM: nat, numTiles: nat, t: nat)
    requires 0 < maxM && numTiles == CeilDiv(m, maxM) && t < numTiles
    ensures 0 <= t * maxM < m && (t + 1) * maxM == t * maxM + maxM
    ensures m - t * maxM > maxM <==> t + 1 < numTiles
  {
    CeilCounts(m, maxM);
    MulLe(0, t, maxM, maxM);
    Step(numTiles, t + 1, maxM);
    if t + 1 == numTiles { assert numTiles * maxM == (t + 1) * maxM; }
    hide CeilDiv;
    assert (t + 1) * maxM == t * maxM + maxM;
  }

  ghost predicate Split(tiles: seq<Tile>, end: nat, m: nat, k: nat, maxM: nat) {
    Partition(tiles, end) && forall i :: 0 <= i < |tiles| ==> IsTile(tiles[i], m, k) && tiles[i].rows <= maxM
  }

  lemma SplitMore(tiles: seq<Tile>, end: nat, m: nat, k: nat, maxM: nat, tile: Tile)
    requires Split(tiles, end, m, k, maxM) && IsTile(tile, m, k) && tile.rows <= maxM && tile.offset == end
    ensures Split(tiles + [tile], end + tile.rows, m, k, maxM)
  {
    hide IsTile;
    assert (tiles + [tile])[..|tiles|] == tiles;
    assert tile.rows > 0 by { RowsPositive(tile, m, k); }
  }

  lemma RowsPositive(tile: Tile, m: nat, k: nat)
    requires IsTile(tile, m, k)
    ensures tile.rows > 0
  {
  }

  /** The loop over tiles. */
  method SplitRows(m: nat, k: nat, maxM: nat) returns (tiles: seq<Tile>)
    requires 0 < maxM < m
    ensures |tiles| == CeilDiv(m, maxM) > 1 && Split(tiles, m, m, k, maxM)
  {
    tiles := [];
    var numTiles := CeilDiv(m, maxM);
    var mOffset: nat := 0;
    TileStarts(m, maxM, numTiles, 0);
    hide CeilDiv, Split, SurfStride, Banks;
    assert Split([], 0, m, k, maxM) by { NoTiles(m, k, maxM); }
    for t := 0 to numTiles
      invariant mOffset == (if t < numTiles then t * maxM else m) && |tiles| == t && Split(tiles, mOffset, m, k, maxM)
    {
      TileStarts(m, maxM, numTiles, t);
      var tileM := if m - mOffset > maxM then maxM else m - mOffset;
      var tile := MakeTile(m, k, mOffset, tileM);
      SplitMore(tiles, mOffset, m, k, maxM, tile);
      tiles := tiles + [tile];
      mOffset := mOffset + tileM;
    }
  }

  lemma NoTiles(m: nat, k: nat, maxM: nat)
    ensures Split([], 0, m, k, maxM)
  {
  }

  /** The descriptor fields of one tile. */
  method MakeTile(m: nat, k: nat, mOffset: nat, tileM: nat) returns (tile: Tile)
    requires 0 < tileM && mOffset + tileM <= m
    ensures IsTile(tile, m, k) && tile.offset == mOffset && tile.rows == tileM
  {
    var fdBanks := Banks(Bytes(tileM, k));
    tile := Tile(mOffset, tileM, fdBanks, BANKS - fdBanks, mOffset * 16, 4, SurfStride(m), mOffset * 16, m);
  }

  lemma OneTiling(m: nat, k: nat)
    ensures m > 0 ==> Tiling([Tile(0, m, Banks(Bytes(m, k)), BANKS - Banks(Bytes(m, k)), 0, 4, SurfStride(m), 0, m)], m, m, k)
  {
    var t := Tile(0, m, Banks(Bytes(m, k)), BANKS - Banks(Bytes(m, k)), 0, 4, SurfStride(m), 0, m);
    assert [t][..0] == [] && Partition([], 0);
    assert m > 0 ==> IsTile(t, m, k);
  }

  lemma SplitTiles(tiles: seq<Tile>, m: nat, k: nat, maxM: nat)
    requires Split(tiles, m, m, k, maxM)
    ensures Tiling(tiles, m, m, k)
  {
    hide IsTile;
  }

  method CountBanks(bytes: nat) returns (banks: nat)
    ensures banks == Banks(bytes)
  {
    banks := bytes / BANK;
    if bytes % BANK != 0 {
      banks := banks + 1;
    }
    CeilCounts(bytes, BANK);
  }

  /** gen_matmul_int8_tiled.  A single tile is left to gen_matmul_int8, with its own two
      checks. */
  method GenTiled(m: nat, k: nat, n: nat) returns (code: int, tiles: seq<Tile>)
    requires m < 65536 && 0 < k < 65536 && n < 65536
    ensures Banks(WeightBytes(k, n)) >= BANKS ==> code == -2
    ensures Banks(WeightBytes(k, n)) < BANKS && MaxRows(k, n) == 0 ==> code == -1
    ensures 0 < MaxRows(k, n) < m ==> code == 0
    ensures 0 < MaxRows(k, n) && m <= MaxRows(k, n) ==>
      code == (if Banks(Bytes(m, k)) > BANKS - 1 then -1 else if k > BANK then -2 else 0)
    ensures code == 0 && m <= MaxRows(k, n) ==>
      tiles == [Tile(0, m, Banks(Bytes(m, k)), BANKS - Banks(Bytes(m, k)), 0, 4, SurfStride(m), 0, m)]
    ensures code == 0 && MaxRows(k, n) < m ==>
      |tiles| == CeilDiv(m, MaxRows(k, n)) > 1 && Split(tiles, m, m, k, MaxRows(k, n))
    ensures code == 0 && m > 0 ==> Tiling(tiles, m, m, k)
  {
    hide WeightBytes, Banks, Quads, CeilDiv, Split, SurfStride, Tiling;
    tiles := [];
    var weightBanks := CountBanks(WeightBytes(k, n));
    if weightBanks >= BANKS {
      return -2, [];
    }
    var availBanks := BANKS - weightBanks;
    var maxM := Quads(availBanks * BANK, k);
    if maxM == 0 {
      return -1, [];
    }
    if maxM > 512 {
      maxM := 512;
    }
    if maxM >= m {
      var fdBanks := Banks(Bytes(m, k));
      if fdBanks > BANKS - 1 {
        return -1, [];
      }
      if k > BANK {
        return -2, [];
      }
      OneTiling(m, k);
      return 0, [Tile(0, m, fdBanks, BANKS - fdBanks, 0, 4, SurfStride(m), 0, m)];
    }
    tiles := SplitRows(m, k, maxM);
    SplitTiles(tiles, m, k, maxM);
    code := 0;
  }

  // ---------------------------------------------------------------- rows and buffers

  /** Every row lies in exactly one tile. */
  lemma {:induction false} RowInOneTile(tiles: seq<Tile>, end: nat, row: nat) returns (i: nat)
    requires Partition(tiles, end) && row < end
    ensures i < |tiles| && tiles[i].offset <= row < tiles[i].offset + tiles[i].rows
    ensures forall j :: 0 <= j < |tiles| && tiles[j].offset <= row < tiles[j].offset + tiles[j].rows ==> j == i
  {
    var last := |tiles| - 1;
    if tiles[last].offset <= row {
      i := last;
      TilesBelow(tiles[..last], tiles[last].offset);
    } else {
      i := RowInOneTile(tiles[..last], tiles[last].offset, row);
    }
    assert forall j :: 0 <= j < last ==> tiles[..last][j] == tiles[j];
  }

  lemma {:induction false} TilesBelow(tiles: seq<Tile>, end: nat)
    requires Partition(tiles, end)
    ensures forall j :: 0 <= j < |tiles| ==> tiles[j].offset + tiles[j].rows <= end
  {
    if tiles != [] {
      var last := |tiles| - 1;
      TilesBelow(tiles[..last], tiles[last].offset);
      assert forall j :: 0 <= j < last ==> tiles[..last][j] == tiles[j];
    }
  }

  lemma RowsFit(k: nat, n: nat, rows: nat, bytes: nat)
    requires 0 < k && rows <= MaxRows(k, n) && MaxRows(k, n) > 0 && bytes == rows * k
    ensures Banks(bytes) + Banks(WeightBytes(k, n)) <= BANKS
  {
    hide WeightBytes, Banks;
    RowsBound(BANKS - Banks(WeightBytes(k, n)), k, rows);
  }

  lemma BanksWithin(bytes: nat, banks: nat)
    requires bytes <= banks * BANK
    ensures Banks(bytes) <= banks
  {
  }

  lemma RowsBound(avail: int, k: nat, rows: nat)
    requires 0 < k && 0 < avail && rows <= Quads(avail * BANK, k)
    ensures Banks(rows * k) <= avail
  {
    MulLe(rows, Quads(avail * BANK, k), k, k);
    BanksWithin(rows * k, avail);
  }

  lemma BanksBeyond(bytes: nat, banks: nat)
    requires Banks(bytes) <= banks
    ensures bytes <= banks * BANK
  {
    CeilCounts(bytes, BANK);
    MulLe(Banks(bytes), banks, BANK, BANK);
  }

  /** A multiple of 4 rows fits the bytes exactly when Quads is no smaller. */
  lemma QuadsIff(bytes: nat, k: nat, r: nat)
    requires k > 0 && r % 4 == 0
    ensures r <= Quads(bytes, k) <==> r * k <= bytes
  {
    var q := bytes / k;
    DivMod(bytes, k);
    if r <= q / 4 * 4 { MulLe(r, q / 4 * 4, k, k); }
    if r * k <= bytes && r > q { Step(q, r, k); }
    if r <= q { FourFit(r, q); }
  }

  lemma FourFit(r: nat, q: nat)
    requires r % 4 == 0 && r <= q
    ensures r <= q / 4 * 4
  {
  }

  /** MaxRows is the largest multiple of 4, up to 512, whose data banks fit beside the
      banks of the weights, and 0 when there is none. */
  lemma MaxRowsIff(k: nat, n: nat, r: nat)
    requires k > 0 && r % 4 == 0 && r > 0
    ensures r <= MaxRows(k, n) <==> r <= 512 && Banks(Bytes(r, k)) + Banks(WeightBytes(k, n)) <= BANKS
    ensures MaxRows(k, n) <= 512 && MaxRows(k, n) % 4 == 0
  {
    hide WeightBytes, Banks, Quads;
    var avail := BANKS - Banks(WeightBytes(k, n));
    MulLe(1, r, 1, k);
    NotNone(Bytes(r, k));
    if avail > 0 {
      QuadsIff(avail * BANK, k, r);
      QuadsOfFour(avail * BANK, k);
      if Bytes(r, k) <= avail * BANK { BanksWithin(Bytes(r, k), avail); }
      if Banks(Bytes(r, k)) <= avail { BanksBeyond(Bytes(r, k), avail); }
    }
  }

  lemma NotNone(bytes: nat)
    requires bytes > 0
    ensures Banks(bytes) > 0
  {
  }

  lemma QuadsOfFour(bytes: nat, k: nat)
    requires k > 0
    ensures Quads(bytes, k) % 4 == 0
  {
  }

  /** The weights fill that many bytes: their layout's buffer is as large, and with whole
      32 x 32 tiles its last byte is used. */
  lemma WeightsFill(k: nat, n: nat)
    requires k > 0 && n > 0
    ensures TrueWeightBytes(k, n) == Room(k, n)
    ensures k % 32 == 0 && n % 32 == 0 ==> WeightInt8(k, n, k) == Room(k, n) - 1
  {
    var (a, b) := (CeilDiv(k, 32), CeilDiv(n, 32));
    assert b * 32 * (a * 32) == a * b * 32 * 32;
    if k % 32 == 0 && n % 32 == 0 {
      assert k == a * 32 && n == b * 32;
      LastWeight(a, b);
    }
  }

  lemma LastWeight(a: nat, b: nat)
    requires a > 0 && b > 0
    ensures WeightInt8(a * 32, b * 32, a * 32) == b * 32 * (a * 32) - 1
  {
    assert (a * 32 - 1) / 32 == a - 1 && (b * 32 - 1) / 32 == b - 1;
    assert (b - 1) * 32 * (a * 32) == b * 32 * (a * 32) - 32 * (a * 32);
  }

  /** In 32-bit arithmetic the weight size is right unless both dimensions exceed 65504. */
  lemma WeightBytesWrapIff(k: nat, n: nat)
    requires 0 < k < 65536 && 0 < n < 65536
    ensures WeightBytes(k, n) == TrueWeightBytes(k, n) <==> !(k > 65504 && n > 65504)
    ensures k > 65504 && n > 65504 ==> WeightBytes(k, n) == 0
  {
    var (a, b) := (CeilDiv(k, 32), CeilDiv(n, 32));
    assert a == 2048 <==> k > 65504;
    assert b == 2048 <==> n > 65504;
    WrapIff(a, b);
  }

  lemma WrapIff(a: nat, b: nat)
    requires 1 <= a <= 2048 && 1 <= b <= 2048
    ensures a * b * 32 * 32 % TWO32 == (if a == 2048 && b == 2048 then 0 else a * b * 32 * 32)
    ensures a * b > 0
  {
    MulLe(1, a, 1, b);
    MulLe(a, if a < 2048 then 2047 else 2048, b, if b < 2048 then 2047 else 2048);
    TilesWrap(a * b);
  }

  lemma TilesWrap(p: nat)
    requires 1 <= p <= 2048 * 2048
    ensures p * 32 * 32 % TWO32 == if p == 2048 * 2048 then 0 else p * 32 * 32
  {
  }

  /** A tile's rows and all the weights fit the 12 banks together exactly when the weight
      size did not wrap. */
  lemma TileFitsIff(t: Tile, m: nat, k: nat, n: nat)
    requires 0 < k < 65536 && 0 < n < 65536 && IsTile(t, m, k) && t.rows <= MaxRows(k, n)
    ensures t.dataBanks + Banks(TrueWeightBytes(k, n)) <= BANKS <==> !(k > 65504 && n > 65504)
    ensures t.weightBanks >= Banks(TrueWeightBytes(k, n)) <==> !(k > 65504 && n > 65504)
  {
    WeightBytesWrapIff(k, n);
    RowsFit(k, n, t.rows, t.rows * k);
    if k > 65504 && n > 65504 {
      assert TrueWeightBytes(k, n) == 2048 * 2048 * 1024;
      assert Banks(2048 * 2048 * 1024) == 131072;
    }
  }

  /** Eight rows against 65535 kernels of 65535 lanes are accepted, four rows to a tile; the
      weights would need 131072 of the 12 banks. */
  lemma WideIsAccepted()
    ensures WeightBytes(65535, 65535) == 0 && MaxRows(65535, 65535) == 4
    ensures IsTile(Tile(0, 4, 8, 4, 0, 4, SurfStride(8), 0, 8), 8, 65535)
    ensures Banks(TrueWeightBytes(65535, 65535)) == 131072
  {
    assert CeilDiv(65535, 32) == 2048;
    assert TrueWeightBytes(65535, 65535) == 2048 * 2048 * 1024;
  }

  // ---------------------------------------------------------------- addresses

  /** Where the engine fetches lane c of the tile's row r. */
  function FetchPlace(t: Tile, r: int, c: int): int {
    t.featBase + Strides.StridedPlace(t.lineStride, t.surfStride, r, c)
  }

  /** Where it stores the 32-bit sum of kernel ch for row r, counted in elements. */
  function StorePlace(t: Tile, r: int, ch: int): int {
    t.dstBase / 4 + ch / 4 * t.dstSurfStride * 4 + r * 4 + ch % 4
  }

  /** Rows from one plane to the next as the descriptor's strides count them. */
  function PlaneRows(m: nat): nat { Strides.PlaneUnits(m, 1) }

  /** Byte fetched for lane c of row `row` of the whole matrix. */
  function Fetched(m: nat, row: int, c: int): int { (c / 16 * PlaneRows(m) + row) * 16 + c % 16 }

  /** The descriptor's strides reach every row's place in the full cube. */
  predicate InPlace(m: nat, k: nat) { Strides.InPlace(m, 1, k) }

  lemma PlaneStride(m: nat)
    ensures 4 + SurfStride(m) == PlaneRows(m)
    ensures PlaneRows(m) == if m < 4 then 1 else m / 4 * 4
    ensures m > 0 ==> 0 < PlaneRows(m) <= m && (PlaneRows(m) == m <==> m % 4 == 0 || m == 1)
  {
    Strides.PlaneStride(m, 1);
    if m > 0 { Strides.PlaneWhole(m, 1); }
  }

  /** All tiles of a matrix fetch by the same rule. */
  lemma FetchPlaceIs(t: Tile, m: nat, k: nat, r: int, c: int)
    requires IsTile(t, m, k)
    ensures FetchPlace(t, r, c) == Fetched(m, t.offset + r, c)
  {
    PlaneStride(m);
    assert t.lineStride + t.surfStride == PlaneRows(m);
    assert (c / 16 * PlaneRows(m) + (t.offset + r)) * 16 == c / 16 * PlaneRows(m) * 16 + t.offset * 16 + r * 16;
  }

  lemma FetchedInPlace(m: nat, k: nat, row: int, c: int)
    requires InPlace(m, k) && 0 <= row < m && 0 <= c < k
    ensures Fetched(m, row, c) == FeatureData(m, 1, 16, c + 1, row + 1, 1)
  {
    PlaneStride(m);
    if k <= 16 {
      assert c / 16 == 0;
    } else {
      assert c / 16 * PlaneRows(m) == c / 16 * m;
      assert c / 16 * m * 1 * 16 == c / 16 * m * 16;
      assert (c / 16 * m + row) * 16 == c / 16 * m * 16 + row * 16;
    }
  }

  /** A tile's rows are fetched from their places in the full cube exactly when m is a
      multiple of 4 or 1, or all lanes lie in one plane. */
  lemma FetchInPlaceIff(t: Tile, m: nat, k: nat)
    requires IsTile(t, m, k)
    ensures (forall r, c :: 0 <= r < t.rows && 0 <= c < k ==> FetchPlace(t, r, c) == FeatureData(m, 1, 16, c + 1, t.offset + r + 1, 1))
       <==> InPlace(m, k)
  {
    if InPlace(m, k) {
      forall r, c | 0 <= r < t.rows && 0 <= c < k
        ensures FetchPlace(t, r, c) == FeatureData(m, 1, 16, c + 1, t.offset + r + 1, 1)
      {
        FetchPlaceIs(t, m, k, r, c);
        FetchedInPlace(m, k, t.offset + r, c);
      }
    } else {
      PlaneStride(m);
      FetchPlaceIs(t, m, k, 0, 16);
      assert FeatureData(m, 1, 16, 17, t.offset + 1, 1) == m * 16 + 16 * t.offset;
      assert FeatureData(m, 1, 16, 16 + 1, t.offset + 0 + 1, 1) != FetchPlace(t, 0, 16);
    }
  }

  /** Stores need no such condition. */
  lemma StoreInPlace(t: Tile, m: nat, k: nat, r: int, ch: int)
    requires IsTile(t, m, k) && 0 <= r < t.rows && 0 <= ch
    ensures StorePlace(t, r, ch) == FeatureData(m, 1, 4, ch + 1, t.offset + r + 1, 1)
  {
    assert ch / 4 * m * 1 * 4 == ch / 4 * m * 4;
  }

  // ---------------------------------------------------------------- running the tiles

  /** The dot product the untiled matmul computes, read through the layouts. */
  function Dot(feat: seq<int>, wt: seq<int>, m: nat, k: nat, row: int, ch: int): int {
    Sum(k, DotTerm(feat, wt, m, k, row, ch))
  }

  function DotTerm(feat: seq<int>, wt: seq<int>, m: nat, k: nat, row: int, ch: int): int -> int {
    c => At(feat, FeatureData(m, 1, 16, c + 1, row + 1, 1)) * At(wt, WeightInt8(k, ch + 1, c + 1))
  }

  /** What the engine really computes for a row: the dot product of what it fetches. */
  function EngineDot(feat: seq<int>, wt: seq<int>, m: nat, k: nat, row: int, ch: int): int {
    Sum(k, EngineTerm(feat, wt, m, k, row, ch))
  }

  function EngineTerm(feat: seq<int>, wt: seq<int>, m: nat, k: nat, row: int, ch: int): int -> int {
    c => At(feat, Fetched(m, row, c)) * At(wt, WeightInt8(k, ch + 1, c + 1))
  }

  /** One tile's dot product, read where the tile's descriptor fetches. */
  function TileDot(t: Tile, feat: seq<int>, wt: seq<int>, k: nat, r: int, ch: int): int {
    Sum(k, c => At(feat, FetchPlace(t, r, c)) * At(wt, WeightInt8(k, ch + 1, c + 1)))
  }

  /** The output buffer after the engine ran one tile: n sums for each row. */
  function RunTile(t: Tile, feat: seq<int>, wt: seq<int>, k: nat, n: nat, out: seq<int>): (r: seq<int>)
    requires n > 0
    ensures |r| == |out|
  {
    WriteAll(out, t.rows * n, s => StorePlace(t, s / n, s % n), s => TileDot(t, feat, wt, k, s / n, s % n))
  }

  function RunTiles(tiles: seq<Tile>, feat: seq<int>, wt: seq<int>, k: nat, n: nat, out: seq<int>): (r: seq<int>)
    requires n > 0
    ensures |r| == |out|
  {
    if tiles == [] then out
    else RunTile(tiles[|tiles| - 1], feat, wt, k, n, RunTiles(tiles[..|tiles| - 1], feat, wt, k, n, out))
  }

  lemma TileDotIs(t: Tile, feat: seq<int>, wt: seq<int>, m: nat, k: nat, r: int, ch: int)
    requires IsTile(t, m, k)
    ensures TileDot(t, feat, wt, k, r, ch) == EngineDot(feat, wt, m, k, t.offset + r, ch)
  {
    var f := c => At(feat, FetchPlace(t, r, c)) * At(wt, WeightInt8(k, ch + 1, c + 1));
    forall c | 0 <= c < k ensures f(c) == EngineTerm(feat, wt, m, k, t.offset + r, ch)(c) { FetchPlaceIs(t, m, k, r, c); }
    SumCong(k, f, EngineTerm(feat, wt, m, k, t.offset + r, ch));
  }

  lemma EngineDotIsDot(feat: seq<int>, wt: seq<int>, m: nat, k: nat, row: int, ch: int)
    requires InPlace(m, k) && 0 <= row < m
    ensures EngineDot(feat, wt, m, k, row, ch) == Dot(feat, wt, m, k, row, ch)
  {
    hide Fetched, FeatureData, WeightInt8;
    var (f, g) := (EngineTerm(feat, wt, m, k, row, ch), DotTerm(feat, wt, m, k, row, ch));
    forall c | 0 <= c < k ensures f(c) == g(c) { FetchedInPlace(m, k, row, c); }
    SumCong(k, f, g);
  }

  /** Running one tile stores what the engine computes for its rows and leaves other rows
      alone, for any number of rows. */
  lemma TileRuns(t: Tile, feat: seq<int>, wt: seq<int>, m: nat, k: nat, n: nat, out: seq<int>, row: nat, ch: nat)
    requires IsTile(t, m, k) && row < m && ch < n && |out| >= CeilDiv(n, 4) * (m * 1) * 4
    ensures At(RunTile(t, feat, wt, k, n, out), FeatureData(m, 1, 4, ch + 1, row + 1, 1))
         == if t.offset <= row < t.offset + t.rows then EngineDot(feat, wt, m, k, row, ch)
            else At(out, FeatureData(m, 1, 4, ch + 1, row + 1, 1))
  {
    if t.offset <= row < t.offset + t.rows {
      TileStores(t, feat, wt, m, k, n, out, row, ch);
    } else {
      var p := FeatureData(m, 1, 4, ch + 1, row + 1, 1);
      FeatureInRange(n, m, 1, 4, ch + 1, row + 1, 1);
      hide FeatureData, StorePlace, TileDot, EngineDot, IsTile;
      var pos, val := s => StorePlace(t, s / n, s % n), s => TileDot(t, feat, wt, k, s / n, s % n);
      forall s | 0 <= s < t.rows * n ensures pos(s) != p { StoresElsewhere(t, m, k, n, s, row, ch); }
      NotWritten(out, t.rows * n, pos, val, p);
    }
  }

  lemma TileStores(t: Tile, feat: seq<int>, wt: seq<int>, m: nat, k: nat, n: nat, out: seq<int>, row: nat, ch: nat)
    requires IsTile(t, m, k) && row < m && ch < n && |out| >= CeilDiv(n, 4) * (m * 1) * 4
    requires t.offset <= row < t.offset + t.rows
    ensures At(RunTile(t, feat, wt, k, n, out), FeatureData(m, 1, 4, ch + 1, row + 1, 1)) == EngineDot(feat, wt, m, k, row, ch)
  {
    hide FeatureData, StorePlace, TileDot, EngineDot, IsTile, CeilDiv;
    var r := row - t.offset;
    var p := FeatureData(m, 1, 4, ch + 1, row + 1, 1);
    FeatureInRange(n, m, 1, 4, ch + 1, row + 1, 1);
    StoreInPlace(t, m, k, r, ch);
    QuotRem(n, r, ch);
    DigitsBound(n, t.rows, r, ch);
    TileDotIs(t, feat, wt, m, k, r, ch);
    var pos, val := s => StorePlace(t, s / n, s % n), s => TileDot(t, feat, wt, k, s / n, s % n);
    forall i, j | 0 <= i < t.rows * n && 0 <= j < t.rows * n && pos(i) == pos(j) ensures i == j { StoresDistinct(t, m, k, n, i, j); }
    WrittenAt(out, t.rows * n, pos, val, r * n + ch);
  }

  lemma StoresDistinct(t: Tile, m: nat, k: nat, n: nat, i: int, j: int)
    requires IsTile(t, m, k) && n > 0 && 0 <= i < t.rows * n && 0 <= j < t.rows * n
    requires StorePlace(t, i / n, i % n) == StorePlace(t, j / n, j % n)
    ensures i == j
  {
    QuotBelow(i, n, t.rows);
    QuotBelow(j, n, t.rows);
    DivMod(i, n);
    DivMod(j, n);
    StoreInPlace(t, m, k, i / n, i % n);
    StoreInPlace(t, m, k, j / n, j % n);
    FeatureInjective(m, 1, 4, i % n + 1, t.offset + i / n + 1, 1, j % n + 1, t.offset + j / n + 1, 1);
  }

  lemma StoresElsewhere(t: Tile, m: nat, k: nat, n: nat, s: int, row: nat, ch: nat)
    requires IsTile(t, m, k) && ch < n && 0 <= s < t.rows * n && row < m && !(t.offset <= row < t.offset + t.rows)
    ensures StorePlace(t, s / n, s % n) != FeatureData(m, 1, 4, ch + 1, row + 1, 1)
  {
    QuotBelow(s, n, t.rows);
    DivMod(s, n);
    StoreInPlace(t, m, k, s / n, s % n);
    if StorePlace(t, s / n, s % n) == FeatureData(m, 1, 4, ch + 1, row + 1, 1) {
      FeatureInjective(m, 1, 4, s % n + 1, t.offset + s / n + 1, 1, ch + 1, row + 1, 1);
    }
  }

  /** The tiles of an m-row matrix, one after another. */
  ghost predicate Tiling(tiles: seq<Tile>, end: nat, m: nat, k: nat) {
    Partition(tiles, end) && end <= m && forall i :: 0 <= i < |tiles| ==> IsTile(tiles[i], m, k)
  }

  /** Running all the tiles leaves in every covered row what the engine computes for it. */
  lemma {:induction false} TilesRunAll(tiles: seq<Tile>, end: nat, feat: seq<int>, wt: seq<int>,
                                       m: nat, k: nat, n: nat, out: seq<int>, row: nat, ch: nat)
    requires Tiling(tiles, end, m, k) && row < end && ch < n && |out| >= CeilDiv(n, 4) * (m * 1) * 4
    ensures At(RunTiles(tiles, feat, wt, k, n, out), FeatureData(m, 1, 4, ch + 1, row + 1, 1)) == EngineDot(feat, wt, m, k, row, ch)
  {
    var last := |tiles| - 1;
    var front := tiles[..last];
    if row < tiles[last].offset {
      TilesRunAll(front, tiles[last].offset, feat, wt, m, k, n, out, row, ch);
    }
    TileRuns(tiles[last], feat, wt, m, k, n, RunTiles(front, feat, wt, k, n, out), row, ch);
  }

  // ---------------------------------------------------------------- when the tiles multiply

  /** Feature and weight buffers of the sizes the layouts ask for, holding signed bytes. */
  ghost predicate Buffers(feat: seq<int>, wt: seq<int>, m: nat, k: nat, n: nat) {
    && |feat| == CeilDiv(k, 16) * 16 * m && |wt| == CeilDiv(k, 32) * 32 * (CeilDiv(n, 32) * 32)
    && (forall i :: 0 <= i < |feat| ==> -128 <= feat[i] <= 127) && forall i :: 0 <= i < |wt| ==> -128 <= wt[i] <= 127
  }

  /** Where the strides miss the second plane: a 1 that belongs to another row is fetched
      for row 0. */
  lemma FetchMisses(m: nat, k: nat, n: nat) returns (feat: seq<int>, wt: seq<int>)
    requires m > 0 && n > 0 && !InPlace(m, k)
    ensures Buffers(feat, wt, m, k, n)
    ensures EngineDot(feat, wt, m, k, 0, 0) == 1 && Dot(feat, wt, m, k, 0, 0) == 0
  {
    PlaneStride(m);
    BufferSizes(m, k, n);
    var q := PlaneRows(m);
    feat := OneHot(CeilDiv(k, 16) * 16 * m, q * 16);
    wt := OneHot(CeilDiv(k, 32) * 32 * (CeilDiv(n, 32) * 32), 16);
    var (f, g) := (EngineTerm(feat, wt, m, k, 0, 0), DotTerm(feat, wt, m, k, 0, 0));
    forall c | 0 <= c < k && c != 16 ensures f(c) == 0 && g(c) == 0 {
      FirstKernel(k, c);
      OneHotAt(|wt|, 16, WeightInt8(k, 1, c + 1));
    }
    FirstKernel(k, 16);
    assert FeatureData(m, 1, 16, 17, 1, 1) == m * 16;
    hide OneHot;
    OneHotAt(|wt|, 16, 16);
    OneHotAt(|feat|, q * 16, q * 16);
    OneHotAt(|feat|, q * 16, m * 16);
    assert f(16) == 1 && g(16) == 0;
    SumOne(k, f, 16);
    SumZero(k, g);
  }

  lemma BufferSizes(m: nat, k: nat, n: nat)
    requires m > 0 && n > 0 && k > 16
    ensures CeilDiv(k, 16) * 16 * m >= 32 * m && CeilDiv(k, 32) * 32 * (CeilDiv(n, 32) * 32) >= 1024
  {
    MulLe(32, CeilDiv(k, 16) * 16, m, m);
    MulLe(32, CeilDiv(k, 32) * 32, 32, CeilDiv(n, 32) * 32);
  }

  lemma FirstKernel(k: nat, c: int)
    requires 0 <= c < k
    ensures WeightInt8(k, 1, c + 1) == c / 32 * 1024 + c % 32 && (WeightInt8(k, 1, c + 1) == 16 <==> c == 16)
  {
  }

  /** Running the generated tiles gives the matmul, whatever the buffers hold, exactly when
      m is a multiple of 4 or 1, or all lanes lie in one plane. */
  lemma TilesMultiplyIff(tiles: seq<Tile>, m: nat, k: nat, n: nat, out: seq<int>)
    requires Tiling(tiles, m, m, k) && m > 0 && n > 0 && |out| >= CeilDiv(n, 4) * (m * 1) * 4
    ensures (forall feat, wt, row: nat, ch: nat :: Buffers(feat, wt, m, k, n) && row < m && ch < n ==>
               At(RunTiles(tiles, feat, wt, k, n, out), FeatureData(m, 1, 4, ch + 1, row + 1, 1)) == Dot(feat, wt, m, k, row, ch))
       <==> InPlace(m, k)
  {
    if InPlace(m, k) {
      forall feat, wt, row: nat, ch: nat | Buffers(feat, wt, m, k, n) && row < m && ch < n
        ensures At(RunTiles(tiles, feat, wt, k, n, out), FeatureData(m, 1, 4, ch + 1, row + 1, 1)) == Dot(feat, wt, m, k, row, ch)
      {
        TilesRunAll(tiles, m, feat, wt, m, k, n, out, row, ch);
        EngineDotIsDot(feat, wt, m, k, row, ch);
      }
    } else {
      var feat, wt := FetchMisses(m, k, n);
      TilesRunAll(tiles, m, feat, wt, m, k, n, out, 0, 0);
    }
  }
}
