/** The block allocator of src/mem/t_mem.c, seen as a sequence of physical blocks.

    The functions here say what one allocation and one release do to that sequence; the
    class in Heap.dfy performs the same steps on in-band headers and list links and is
    proved to agree with them.  What the allocator promises is proved here, once, on the
    sequence. */
module HeapModel {

  const HEADER: nat := 64       // sizeof(mem_block_t) == MEM_ALIGNMENT
  const MIN_BLOCK: nat := 64
  const TWO64: nat := 0x1_0000_0000_0000_0000

  /** MEM_ALIGN on a 64-bit size_t: the addition wraps. */
  function MemAlign(size: nat): nat {
    (size + 63) % TWO64 / 64 * 64
  }

  /** A physical block: header at `addr`, payload of `size` bytes behind it. */
  datatype Block = Block(addr: nat, size: nat, free: bool) {
    function End(): nat { addr + HEADER + size }
    function Payload(): nat { addr + HEADER }
  }

  /** The blocks lie end to end from `start` to `end`. */
  ghost predicate Tiles(bs: seq<Block>, start: nat, end: nat) {
    && |bs| > 0
    && bs[0].addr == start
    && bs[|bs| - 1].End() == end
    && forall i, j :: 0 <= i < |bs| && j == i + 1 && j < |bs| ==> bs[j].addr == bs[i].End()
  }

  /** No two neighbours are both free. */
  ghost predicate Coalesced(bs: seq<Block>) {
    forall i, j :: 0 <= i < |bs| && j == i + 1 && j < |bs| ==> !bs[i].free || !bs[j].free
  }

  ghost predicate Aligned(bs: seq<Block>) {
    forall i :: 0 <= i < |bs| ==> bs[i].addr % 64 == 0
  }

  ghost predicate Inv(bs: seq<Block>, start: nat, end: nat) {
    Tiles(bs, start, end) && Coalesced(bs) && Aligned(bs)
  }

  lemma {:induction false} TilesOrdered(bs: seq<Block>, start: nat, end: nat, i: nat, j: nat)
    requires Tiles(bs, start, end) && i < j < |bs|
    ensures start <= bs[i].addr && bs[i].End() <= bs[j].addr && bs[j].End() <= end
    decreases j - i
  {
    TilesInside(bs, start, end, i);
    TilesInside(bs, start, end, j);
    if i + 1 < j {
      TilesOrdered(bs, start, end, i + 1, j);
    }
  }

  lemma {:induction false} TilesInside(bs: seq<Block>, start: nat, end: nat, i: nat)
    requires Tiles(bs, start, end) && i < |bs|
    ensures start <= bs[i].addr && bs[i].End() <= end
  {
    TilesAbove(bs, start, end, i);
    TilesBelow(bs, start, end, i);
  }

  lemma {:induction false} TilesAbove(bs: seq<Block>, start: nat, end: nat, i: nat)
    requires Tiles(bs, start, end) && i < |bs|
    ensures start <= bs[i].addr
  {
    if i > 0 {
      TilesAbove(bs, start, end, i - 1);
      assert bs[i - 1 + 1].addr == bs[i - 1].End();
    }
  }

  lemma {:induction false} TilesBelow(bs: seq<Block>, start: nat, end: nat, i: nat)
    requires Tiles(bs, start, end) && i < |bs|
    ensures bs[i].End() <= end
    decreases |bs| - i
  {
    if i + 1 < |bs| {
      TilesBelow(bs, start, end, i + 1);
    }
  }

  /** Some block covers every byte of the heap. */
  lemma {:induction false} TilesCover(bs: seq<Block>, start: nat, end: nat, a: nat, from: nat) returns (i: nat)
    requires Tiles(bs, start, end) && from < |bs| && bs[from].addr <= a < end
    ensures from <= i < |bs| && bs[i].addr <= a < bs[i].End()
    decreases |bs| - from
  {
    if a < bs[from].End() {
      i := from;
    } else {
      assert bs[from + 1].addr == bs[from].End();
      i := TilesCover(bs, start, end, a, from + 1);
    }
  }

  // ---------------------------------------------------------------- best fit

  predicate Sufficient(b: Block, size: nat) { b.free && size <= b.size }

  /** `i` is the smallest sufficient free block, the lowest one among equals. */
  ghost predicate IsBestFit(bs: seq<Block>, size: nat, i: nat) {
    && i < |bs|
    && Sufficient(bs[i], size)
    && forall j :: 0 <= j < |bs| && Sufficient(bs[j], size) ==>
         bs[i].size < bs[j].size || (bs[i].size == bs[j].size && i <= j)
  }

  /** Index of the best fit, or -1. */
  function BestFit(bs: seq<Block>, size: nat): (r: int)
    ensures -1 <= r < |bs|
    ensures r >= 0 ==> IsBestFit(bs, size, r)
    ensures r < 0 ==> forall j :: 0 <= j < |bs| ==> !Sufficient(bs[j], size)
  {
    if bs == [] then -1
    else
      var last := |bs| - 1;
      var r := BestFit(bs[..last], size);
      assert forall j :: 0 <= j < last ==> bs[..last][j] == bs[j];
      if Sufficient(bs[last], size) && (r < 0 || bs[last].size < bs[r].size) then last else r
  }

  /** A header and `size` bytes at `a` lie in the heap and meet no live block, whose own
      header counts as part of it. */
  ghost predicate ClearWindow(bs: seq<Block>, start: nat, end: nat, size: nat, a: int) {
    && start <= a && a + HEADER + size <= end
    && forall i :: 0 <= i < |bs| && !bs[i].free ==> bs[i].End() <= a || a + HEADER + size <= bs[i].addr
  }

  /** Allocation fails exactly when no run of bytes clear of live blocks could hold a
      header and the aligned size. */
  lemma BestFitExistsIffRoom(bs: seq<Block>, start: nat, end: nat, size: nat)
    requires Inv(bs, start, end)
    ensures BestFit(bs, size) >= 0 <==> exists a :: ClearWindow(bs, start, end, size, a)
  {
    var r := BestFit(bs, size);
    if r >= 0 {
      TilesInside(bs, start, end, r);
      forall i | 0 <= i < |bs| && !bs[i].free
        ensures bs[i].End() <= bs[r].addr || bs[r].addr + HEADER + size <= bs[i].addr
      {
        if i < r { TilesOrdered(bs, start, end, i, r); } else { TilesOrdered(bs, start, end, r, i); }
      }
      assert ClearWindow(bs, start, end, size, bs[r].addr);
    }
    if a :| ClearWindow(bs, start, end, size, a) {
      var i := TilesCover(bs, start, end, a, 0);
      assert bs[i].free;
      assert i + 1 < |bs| ==> bs[i + 1].addr == bs[i].End() && !bs[i + 1].free;
      assert Sufficient(bs[i], size);
    }
  }

  // ---------------------------------------------------------------- splicing

  /** Blocks p..q replaced by `mid`. */
  function Splice(bs: seq<Block>, p: nat, q: nat, mid: seq<Block>): seq<Block>
    requires p <= q <= |bs|
  {
    bs[..p] + mid + bs[q..]
  }

  /** Replacing a stretch of blocks by one that covers the same bytes keeps the invariant
      when neither seam joins two free blocks. */
  lemma SpliceKeepsInv(bs: seq<Block>, start: nat, end: nat, p: nat, q: nat, mid: seq<Block>)
    requires Inv(bs, start, end) && p < q <= |bs|
    requires Inv(mid, bs[p].addr, bs[q - 1].End())
    requires p > 0 ==> !bs[p - 1].free || !mid[0].free
    requires q < |bs| ==> !mid[|mid| - 1].free || !bs[q].free
    ensures Inv(Splice(bs, p, q, mid), start, end)
  {
    var r := Splice(bs, p, q, mid);
    var m := |mid|;
    forall k | 0 <= k < |r| - 1
      ensures r[k + 1].addr == r[k].End() && (!r[k].free || !r[k + 1].free)
    {
      if k + 1 < p {
        assert r[k] == bs[k] && r[k + 1] == bs[k + 1];
      } else if k + 1 == p {
        assert r[k] == bs[k] && r[k + 1] == mid[0] && bs[k + 1].addr == bs[k].End();
      } else if k + 1 < p + m {
        assert r[k] == mid[k - p] && r[k + 1] == mid[k - p + 1];
      } else if k + 1 == p + m {
        assert r[k] == mid[m - 1] && r[k + 1] == bs[q] && bs[q - 1 + 1].addr == bs[q - 1].End();
      } else {
        var x := k - p - m + q;
        assert r[k] == bs[x] && r[k + 1] == bs[x + 1];
      }
    }
    if q < |bs| {
      assert r[|r| - 1] == bs[|bs| - 1];
    } else {
      assert r[|r| - 1] == mid[m - 1];
    }
  }

  // ---------------------------------------------------------------- allocation

  /** The pieces a live block of `size` bytes and its split-off remainder make of b. */
  function Pieces(b: Block, size: nat): seq<Block>
    requires size <= b.size
  {
    if b.size - size > HEADER + MIN_BLOCK then
      [Block(b.addr, size, false), Block(b.addr + HEADER + size, b.size - size - HEADER, true)]
    else
      [b.(free := false)]
  }

  /** Block i becomes live with `size` bytes; a remainder above 128 bytes is split off. */
  function Carve(bs: seq<Block>, i: nat, size: nat): seq<Block>
    requires i < |bs| && size <= bs[i].size
  {
    Splice(bs, i, i + 1, Pieces(bs[i], size))
  }

  /** The blocks after t_mem_alloc(request). */
  function Alloc(bs: seq<Block>, request: nat): seq<Block> {
    var i := BestFit(bs, MemAlign(request));
    if request == 0 || i < 0 then bs else Carve(bs, i, MemAlign(request))
  }

  /** What t_mem_alloc(request) returns; 0 is NULL. */
  function AllocPtr(bs: seq<Block>, request: nat): nat {
    var i := BestFit(bs, MemAlign(request));
    if request == 0 || i < 0 then 0 else bs[i].Payload()
  }

  lemma CarveKeepsInv(bs: seq<Block>, start: nat, end: nat, i: nat, size: nat)
    requires Inv(bs, start, end) && i < |bs| && bs[i].free && size <= bs[i].size && size % 64 == 0
    ensures Inv(Carve(bs, i, size), start, end)
  {
    PiecesInv(bs[i], size);
    NeighboursLive(bs, i);
    assert bs[i].addr % 64 == 0;
    hide Inv, Pieces;
    SpliceKeepsInv(bs, start, end, i, i + 1, Pieces(bs[i], size));
  }

  lemma PiecesInv(b: Block, size: nat)
    requires size <= b.size && size % 64 == 0 && b.addr % 64 == 0
    ensures Inv(Pieces(b, size), b.addr, b.End()) && !Pieces(b, size)[0].free
  {
    hide Inv;
    SumOf64(b.addr, size);
    if b.size - size > HEADER + MIN_BLOCK {
      TwoBlocks(Block(b.addr, size, false), Block(b.addr + HEADER + size, b.size - size - HEADER, true));
    } else {
      OneBlock(b.(free := false));
    }
  }

  lemma SumOf64(a: nat, s: nat)
    requires a % 64 == 0 && s % 64 == 0
    ensures (a + HEADER + s) % 64 == 0
  {
    assert a + HEADER + s == (a / 64 + 1 + s / 64) * 64;
  }

  lemma OneBlock(b: Block)
    requires b.addr % 64 == 0
    ensures Inv([b], b.addr, b.End())
  {
  }

  lemma TwoBlocks(b: Block, c: Block)
    requires b.addr % 64 == 0 && c.addr % 64 == 0 && b.End() == c.addr && !b.free
    ensures Inv([b, c], b.addr, c.End())
  {
  }

  lemma NeighboursLive(bs: seq<Block>, i: nat)
    requires Coalesced(bs) && i < |bs| && bs[i].free
    ensures i + 1 < |bs| ==> !bs[i + 1].free
  {
  }

  lemma AllocKeepsInv(bs: seq<Block>, start: nat, end: nat, request: nat)
    requires Inv(bs, start, end)
    ensures Inv(Alloc(bs, request), start, end)
  {
    var i := BestFit(bs, MemAlign(request));
    if request != 0 && i >= 0 { CarveKeepsInv(bs, start, end, i, MemAlign(request)); }
  }

  // ---------------------------------------------------------------- release

  predicate FreeAt(bs: seq<Block>, i: int) { 0 <= i < |bs| && bs[i].free }

  /** First and one-past-last block that a release of block i merges. */
  function MergeFrom(bs: seq<Block>, i: nat): nat { if FreeAt(bs, i - 1) then i - 1 else i }
  function MergeTo(bs: seq<Block>, i: nat): nat { if FreeAt(bs, i + 1) then i + 2 else i + 1 }

  /** Block i becomes free and is merged with a free block behind it and one before it. */
  function Release(bs: seq<Block>, i: nat): seq<Block>
    requires i < |bs|
  {
    var (p, q) := (MergeFrom(bs, i), MergeTo(bs, i));
    Splice(bs, p, q, [Block(bs[p].addr, Extent(bs[p..q]), true)])
  }

  /** Payload size of one block made of all of `bs`. */
  function Extent(bs: seq<Block>): nat
    requires |bs| > 0
  {
    if |bs| == 1 then bs[0].size else Extent(bs[..|bs| - 1]) + HEADER + bs[|bs| - 1].size
  }

  lemma {:induction false} ExtentIsSpan(bs: seq<Block>, start: nat, end: nat, p: nat, q: nat)
    requires Tiles(bs, start, end) && p < q <= |bs|
    ensures bs[p].addr + HEADER + Extent(bs[p..q]) == bs[q - 1].End()
  {
    var s := bs[p..q];
    assert s[0] == bs[p] && s[|s| - 1] == bs[q - 1];
    if q - p > 1 {
      ExtentIsSpan(bs, start, end, p, q - 1);
      assert s[..|s| - 1] == bs[p..q - 1];
      assert bs[q - 2 + 1].addr == bs[q - 2].End();
    }
  }

  lemma ReleaseKeepsInv(bs: seq<Block>, start: nat, end: nat, i: nat)
    requires Inv(bs, start, end) && i < |bs| && !bs[i].free
    ensures Inv(Release(bs, i), start, end)
  {
    var (p, q) := (MergeFrom(bs, i), MergeTo(bs, i));
    ExtentIsSpan(bs, start, end, p, q);
    assert p > 0 ==> !bs[p - 1].free by { if p == i - 1 && p > 0 { assert bs[p - 1 + 1].free; } }
    SpliceKeepsInv(bs, start, end, p, q, [Block(bs[p].addr, Extent(bs[p..q]), true)]);
  }

  // ---------------------------------------------------------------- live allocations

  /** A live allocation: the pointer handed out and the bytes granted. */
  datatype Grant = Grant(ptr: nat, size: nat)

  function GrantOf(b: Block): Grant { Grant(b.Payload(), b.size) }

  /** Every live allocation. */
  function Live(bs: seq<Block>): set<Grant> {
    set i | 0 <= i < |bs| && !bs[i].free :: GrantOf(bs[i])
  }

  lemma LiveConcat(a: seq<Block>, b: seq<Block>)
    ensures Live(a + b) == Live(a) + Live(b)
  {
    forall x | x in Live(a) + Live(b) ensures x in Live(a + b) {
      if x in Live(a) {
        var i :| 0 <= i < |a| && !a[i].free && x == GrantOf(a[i]);
        assert (a + b)[i] == a[i];
      } else {
        var i :| 0 <= i < |b| && !b[i].free && x == GrantOf(b[i]);
        assert (a + b)[|a| + i] == b[i];
      }
    }
    forall x | x in Live(a + b) ensures x in Live(a) + Live(b) {
      var i :| 0 <= i < |a + b| && !(a + b)[i].free && x == GrantOf((a + b)[i]);
      if i < |a| { assert a[i] == (a + b)[i]; } else { assert b[i - |a|] == (a + b)[i]; }
    }
  }

  lemma LiveSplice(bs: seq<Block>, p: nat, q: nat, mid: seq<Block>)
    requires p <= q <= |bs|
    ensures Live(Splice(bs, p, q, mid)) == Live(bs[..p]) + Live(mid) + Live(bs[q..])
    ensures Live(bs) == Live(bs[..p]) + Live(bs[p..q]) + Live(bs[q..])
  {
    LiveConcat(bs[..p] + mid, bs[q..]);
    LiveConcat(bs[..p], mid);
    assert bs == bs[..p] + bs[p..q] + bs[q..];
    LiveConcat(bs[..p] + bs[p..q], bs[q..]);
    LiveConcat(bs[..p], bs[p..q]);
  }

  /** Two different live allocations share no byte, headers included; each lies in the
      heap and starts on a 64-byte boundary. */
  lemma LiveDisjoint(bs: seq<Block>, start: nat, end: nat, x: Grant, y: Grant)
    requires Inv(bs, start, end) && x in Live(bs) && y in Live(bs)
    ensures start + HEADER <= x.ptr && x.ptr + x.size <= end && x.ptr % 64 == 0
    ensures x != y ==> x.ptr + x.size <= y.ptr - HEADER || y.ptr + y.size <= x.ptr - HEADER
  {
    var i := LiveAt(bs, x);
    var j := LiveAt(bs, y);
    TilesInside(bs, start, end, i);
    assert bs[i].addr % 64 == 0;
    hide Live, Tiles, Coalesced, Aligned;
    if i < j { TilesOrdered(bs, start, end, i, j); }
    if j < i { TilesOrdered(bs, start, end, j, i); }
  }

  lemma LiveAt(bs: seq<Block>, x: Grant) returns (i: nat)
    requires x in Live(bs)
    ensures i < |bs| && !bs[i].free && x == GrantOf(bs[i])
  {
    i :| 0 <= i < |bs| && !bs[i].free && x == GrantOf(bs[i]);
  }

  /** No live allocation starts at the payload of a free block. */
  lemma FreePayloadNotLive(bs: seq<Block>, start: nat, end: nat, i: nat, n: nat)
    requires Tiles(bs, start, end) && i < |bs| && bs[i].free
    ensures Grant(bs[i].Payload(), n) !in Live(bs)
  {
    forall j | 0 <= j < |bs| && bs[j].Payload() == bs[i].Payload() ensures j == i {
      SamePayloadSameBlock(bs, start, end, i, j);
    }
  }

  /** What a successful allocation adds: one live block of at least the aligned size and
      at most 128 bytes more, where nothing was live.  A failed one changes nothing. */
  lemma AllocAddsOne(bs: seq<Block>, start: nat, end: nat, request: nat) returns (granted: nat)
    requires Inv(bs, start, end)
    ensures AllocPtr(bs, request) == 0 ==> Alloc(bs, request) == bs
    ensures AllocPtr(bs, request) != 0 ==>
      && Live(Alloc(bs, request)) == Live(bs) + {Grant(AllocPtr(bs, request), granted)}
      && (forall n: nat :: Grant(AllocPtr(bs, request), n) !in Live(bs))
      && MemAlign(request) <= granted <= MemAlign(request) + 128
  {
    var i := BestFit(bs, MemAlign(request));
    granted := 0;
    if request != 0 && i >= 0 {
      granted := CarveAddsOne(bs, i, MemAlign(request));
      forall n: nat ensures Grant(bs[i].Payload(), n) !in Live(bs) {
        FreePayloadNotLive(bs, start, end, i, n);
      }
    }
  }

  lemma CarveAddsOne(bs: seq<Block>, i: nat, size: nat) returns (granted: nat)
    requires i < |bs| && bs[i].free && size <= bs[i].size
    ensures Live(Carve(bs, i, size)) == Live(bs) + {Grant(bs[i].Payload(), granted)}
    ensures size <= granted <= size + 128
    ensures
      var spare := bs[i].size - size;
      if spare > 128 then granted == size && |Carve(bs, i, size)| == |bs| + 1 else granted == bs[i].size && |Carve(bs, i, size)| == |bs|
  {
    var mid := Pieces(bs[i], size);
    granted := mid[0].size;
    LiveSplice(bs, i, i + 1, mid);
    LiveOne(mid, 0);
    assert Live(bs[i..i + 1]) == {};
  }

  lemma LiveOne(bs: seq<Block>, i: nat)
    requires i < |bs| && !bs[i].free && forall k :: 0 <= k < |bs| && k != i ==> bs[k].free
    ensures Live(bs) == {GrantOf(bs[i])}
  {
    assert GrantOf(bs[i]) in Live(bs);
  }

  /** The grant covers the request exactly when MEM_ALIGN did not wrap. */
  lemma AlignCoversIff(request: nat)
    requires request < TWO64
    ensures request <= MemAlign(request) <==> request <= TWO64 - 64
    ensures request <= TWO64 - 64 ==> MemAlign(request) < request + 64 && MemAlign(request) % 64 == 0
    ensures request > TWO64 - 64 ==> MemAlign(request) == 0
  {
  }

  /** A block with more than 128 bytes to spare is split and the grant is the aligned size; any
      other block is granted whole. */
  lemma SplitIff(bs: seq<Block>, start: nat, end: nat, request: nat) returns (granted: nat)
    requires Inv(bs, start, end) && AllocPtr(bs, request) != 0
    ensures
      var (size, spare) := (MemAlign(request), bs[BestFit(bs, MemAlign(request))].size - MemAlign(request));
      && Live(Alloc(bs, request)) == Live(bs) + {Grant(AllocPtr(bs, request), granted)}
      && (if spare > 128 then granted == size && |Alloc(bs, request)| == |bs| + 1
          else granted == size + spare && |Alloc(bs, request)| == |bs|)
  {
    hide Carve, Live, Inv, MemAlign;
    granted := CarveAddsOne(bs, BestFit(bs, MemAlign(request)), MemAlign(request));
  }

  /** A successful allocation is as large as requested exactly when MEM_ALIGN did not wrap;
      past that the caller gets a few bytes for an enormous request. */
  lemma GrantCoversIff(bs: seq<Block>, start: nat, end: nat, request: nat) returns (granted: nat)
    requires Inv(bs, start, end) && request < TWO64 && AllocPtr(bs, request) != 0
    ensures Grant(AllocPtr(bs, request), granted) in Live(Alloc(bs, request))
    ensures request <= granted <==> request <= TWO64 - 64
  {
    granted := AllocAddsOne(bs, start, end, request);
    AlignCoversIff(request);
  }

  /** The largest size_t, asked of a heap of one page, is granted 0 bytes at its first
      payload. */
  lemma WrappedRequestGranted(start: nat)
    requires start % 64 == 0
    ensures AllocPtr(Initial(start, start + 4096), TWO64 - 1) == start + HEADER
    ensures Grant(start + HEADER, 0) in Live(Alloc(Initial(start, start + 4096), TWO64 - 1))
  {
    var bs := Initial(start, start + 4096);
    assert Sufficient(bs[0], MemAlign(TWO64 - 1)) && BestFit(bs, MemAlign(TWO64 - 1)) == 0;
    var after := Alloc(bs, TWO64 - 1);
    assert after[0] == Block(start, 0, false);
    assert GrantOf(after[0]) in Live(after);
  }

  /** NULL for a nonzero request means that no run of bytes clear of live blocks could hold
      a header and the aligned size, and only that. */
  lemma AllocFailsIff(bs: seq<Block>, start: nat, end: nat, request: nat)
    requires Inv(bs, start, end) && request != 0
    ensures AllocPtr(bs, request) == 0 <==> forall a :: !ClearWindow(bs, start, end, MemAlign(request), a)
  {
    BestFitExistsIffRoom(bs, start, end, MemAlign(request));
  }

  /** A release removes exactly the released allocation. */
  lemma ReleaseRemovesOne(bs: seq<Block>, start: nat, end: nat, i: nat)
    requires Inv(bs, start, end) && i < |bs| && !bs[i].free
    ensures Live(Release(bs, i)) == Live(bs) - {GrantOf(bs[i])}
  {
    var (p, q) := (MergeFrom(bs, i), MergeTo(bs, i));
    var mid := [Block(bs[p].addr, Extent(bs[p..q]), true)];
    assert Tiles(bs, start, end);
    OthersFree(bs, i);
    hide Inv, Tiles, Extent, Live, MergeFrom, MergeTo, FreeAt;
    LiveSplice(bs, p, q, mid);
    NoneLive(mid[0]);
    LiveOne(bs[p..q], i - p);
    NotLiveElsewhere(bs, start, end, i, 0, p);
    NotLiveElsewhere(bs, start, end, i, q, |bs|);
    assert bs[q..|bs|] == bs[q..] && bs[0..p] == bs[..p];
    OneRemoved(Live(bs[..p]), Live(bs[q..]), GrantOf(bs[i]));
  }

  /** Of the blocks a release merges all but the released one are free. */
  lemma OthersFree(bs: seq<Block>, i: nat)
    requires i < |bs|
    ensures
      var (p, q) := (MergeFrom(bs, i), MergeTo(bs, i));
      && p <= i < q <= |bs| && bs[p..q][i - p] == bs[i] && forall k :: 0 <= k < q - p && k != i - p ==> bs[p..q][k].free
  {
  }

  lemma NoneLive(b: Block)
    requires b.free
    ensures Live([b]) == {}
  {
  }

  lemma OneRemoved(a: set<Grant>, b: set<Grant>, x: Grant)
    requires x !in a && x !in b
    ensures a + {} + b == a + {x} + b - {x}
  {
  }

  lemma NotLiveElsewhere(bs: seq<Block>, start: nat, end: nat, i: nat, lo: nat, hi: nat)
    requires Tiles(bs, start, end) && i < |bs| && lo <= hi <= |bs| && !(lo <= i < hi)
    ensures GrantOf(bs[i]) !in Live(bs[lo..hi])
  {
    forall j | 0 <= j < hi - lo ensures bs[lo..hi][j].Payload() != bs[i].Payload() {
      if bs[lo + j].Payload() == bs[i].Payload() { SamePayloadSameBlock(bs, start, end, i, lo + j); }
    }
  }

  // ---------------------------------------------------------------- runs

  /** Index of the live block whose payload is at `ptr`, or -1. */
  function LiveIndex(bs: seq<Block>, ptr: nat): (r: int)
    ensures -1 <= r < |bs|
    ensures r >= 0 ==> !bs[r].free && bs[r].Payload() == ptr
    ensures r < 0 ==> forall i :: 0 <= i < |bs| && !bs[i].free ==> bs[i].Payload() != ptr
  {
    if bs == [] then -1
    else if !bs[|bs| - 1].free && bs[|bs| - 1].Payload() == ptr then |bs| - 1
    else
      assert forall i :: 0 <= i < |bs| - 1 ==> bs[i] == bs[..|bs| - 1][i];
      LiveIndex(bs[..|bs| - 1], ptr)
  }

  datatype Op = DoAlloc(request: nat) | DoFree(ptr: nat)

  function Step(bs: seq<Block>, op: Op): seq<Block> {
    match op
    case DoAlloc(request) => Alloc(bs, request)
    case DoFree(ptr) => if LiveIndex(bs, ptr) < 0 then bs else Release(bs, LiveIndex(bs, ptr))
  }

  function Run(bs: seq<Block>, ops: seq<Op>): seq<Block>
    decreases |ops|
  {
    if ops == [] then bs else Run(Step(bs, ops[0]), ops[1..])
  }

  function Initial(start: nat, end: nat): seq<Block>
    requires start + HEADER <= end
  {
    [Block(start, end - start - HEADER, true)]
  }

  lemma StepKeepsInv(bs: seq<Block>, start: nat, end: nat, op: Op)
    requires Inv(bs, start, end)
    ensures Inv(Step(bs, op), start, end)
  {
    match op
    case DoAlloc(request) => AllocKeepsInv(bs, start, end, request);
    case DoFree(ptr) =>
      if LiveIndex(bs, ptr) >= 0 { ReleaseKeepsInv(bs, start, end, LiveIndex(bs, ptr)); }
  }

  /** Every run keeps the heap tiled, coalesced and aligned. */
  lemma {:induction false} RunKeepsInv(bs: seq<Block>, start: nat, end: nat, ops: seq<Op>)
    requires Inv(bs, start, end)
    ensures Inv(Run(bs, ops), start, end)
    decreases |ops|
  {
    if ops != [] {
      StepKeepsInv(bs, start, end, ops[0]);
      RunKeepsInv(Step(bs, ops[0]), start, end, ops[1..]);
    }
  }

  /** After any run from a fresh heap: live allocations lie in the heap on 64-byte
      boundaries and share no byte. */
  lemma RunsAreSafe(start: nat, end: nat, ops: seq<Op>, x: Grant, y: Grant)
    requires start + HEADER <= end && start % 64 == 0
    requires x in Live(Run(Initial(start, end), ops)) && y in Live(Run(Initial(start, end), ops))
    ensures start + HEADER <= x.ptr && x.ptr + x.size <= end && x.ptr % 64 == 0
    ensures x != y ==> x.ptr + x.size <= y.ptr - HEADER || y.ptr + y.size <= x.ptr - HEADER
  {
    RunKeepsInv(Initial(start, end), start, end, ops);
    LiveDisjoint(Run(Initial(start, end), ops), start, end, x, y);
  }

  /** Who asked for what: the request behind every live pointer. */
  function Enter(bs: seq<Block>, ledger: map<nat, nat>, op: Op): map<nat, nat> {
    match op
    case DoAlloc(request) => if AllocPtr(bs, request) == 0 then ledger else ledger[AllocPtr(bs, request) := request]
    case DoFree(ptr) => if LiveIndex(bs, ptr) < 0 then ledger else ledger - {ptr}
  }

  function Ledger(bs: seq<Block>, ledger: map<nat, nat>, ops: seq<Op>): map<nat, nat>
    decreases |ops|
  {
    if ops == [] then ledger else Ledger(Step(bs, ops[0]), Enter(bs, ledger, ops[0]), ops[1..])
  }

  /** The ledger lists exactly the live pointers, and each grant is as large as the request
      behind it exactly when MEM_ALIGN did not wrap for that request. */
  ghost predicate Kept(bs: seq<Block>, ledger: map<nat, nat>) {
    && (forall x :: x in Live(bs) ==> x.ptr in ledger && (ledger[x.ptr] <= x.size <==> ledger[x.ptr] <= TWO64 - 64))
    && forall p :: p in ledger ==> exists n: nat :: Grant(p, n) in Live(bs)
  }

  lemma AllocKept(bs: seq<Block>, start: nat, end: nat, ledger: map<nat, nat>, request: nat)
    requires Inv(bs, start, end) && Kept(bs, ledger) && request < TWO64
    ensures Kept(Alloc(bs, request), Enter(bs, ledger, DoAlloc(request)))
  {
    var granted := AllocAddsOne(bs, start, end, request);
    AlignCoversIff(request);
    hide Inv, Live, Alloc, AllocPtr, MemAlign;
    if AllocPtr(bs, request) != 0 {
      var (next, ledger') := (Alloc(bs, request), Enter(bs, ledger, DoAlloc(request)));
      forall x | x in Live(next)
        ensures x.ptr in ledger' && (ledger'[x.ptr] <= x.size <==> ledger'[x.ptr] <= TWO64 - 64)
      {
        if x in Live(bs) { assert Grant(x.ptr, x.size) == x && x.ptr != AllocPtr(bs, request); }
      }
      forall p | p in ledger' ensures exists n: nat :: Grant(p, n) in Live(next) {
        if p == AllocPtr(bs, request) {
          assert Grant(p, granted) in Live(next);
        } else {
          var n: nat :| Grant(p, n) in Live(bs);
          assert Grant(p, n) in Live(next);
        }
      }
    }
  }

  lemma ReleaseKept(bs: seq<Block>, start: nat, end: nat, ledger: map<nat, nat>, ptr: nat)
    requires Inv(bs, start, end) && Kept(bs, ledger) && LiveIndex(bs, ptr) >= 0
    ensures Kept(Release(bs, LiveIndex(bs, ptr)), Enter(bs, ledger, DoFree(ptr)))
  {
    hide Release, LiveIndex, Inv, Live;
    var i := LiveIndex(bs, ptr);
    var next := Release(bs, i);
    ReleaseRemovesOne(bs, start, end, i);
    BlockFreeOrLive(bs, i);
    forall x | x in Live(next) ensures x.ptr != ptr { LiveDisjoint(bs, start, end, x, GrantOf(bs[i])); }
    forall p | p in ledger && p != ptr ensures exists n: nat :: Grant(p, n) in Live(next) {
      var n: nat :| Grant(p, n) in Live(bs);
      assert Grant(p, n) in Live(next);
    }
  }

  lemma {:induction false} LedgerKept(bs: seq<Block>, start: nat, end: nat, ledger: map<nat, nat>, ops: seq<Op>)
    requires Inv(bs, start, end) && Kept(bs, ledger)
    requires forall i :: 0 <= i < |ops| && ops[i].DoAlloc? ==> ops[i].request < TWO64
    ensures Kept(Run(bs, ops), Ledger(bs, ledger, ops))
    decreases |ops|
  {
    if ops != [] {
      StepKeepsInv(bs, start, end, ops[0]);
      match ops[0] {
        case DoAlloc(request) => AllocKept(bs, start, end, ledger, request);
        case DoFree(ptr) => if LiveIndex(bs, ptr) >= 0 { ReleaseKept(bs, start, end, ledger, ptr); }
      }
      hide Kept, Inv;
      LedgerKept(Step(bs, ops[0]), start, end, Enter(bs, ledger, ops[0]), ops[1..]);
    }
  }

  /** After any run from a fresh heap, live allocations are exactly those the ledger lists,
      and each holds its own request unless that was above 2^64 - 64. */
  lemma RunsCoverRequests(start: nat, end: nat, ops: seq<Op>)
    requires start + HEADER <= end && start % 64 == 0
    requires forall i :: 0 <= i < |ops| && ops[i].DoAlloc? ==> ops[i].request < TWO64
    ensures
      var (bs, ledger) := (Run(Initial(start, end), ops), Ledger(Initial(start, end), map[], ops));
      && (forall x :: x in Live(bs) ==> x.ptr in ledger && (ledger[x.ptr] <= x.size <==> ledger[x.ptr] <= TWO64 - 64))
      && forall p :: p in ledger ==> exists n: nat :: Grant(p, n) in Live(bs)
  {
    var bs := Initial(start, end);
    assert Live(bs) == {};
    LedgerKept(bs, start, end, map[], ops);
  }

  /** With nothing live, one free block spans the heap. */
  lemma NothingLive(bs: seq<Block>, start: nat, end: nat)
    requires Inv(bs, start, end) && Live(bs) == {}
    ensures start + HEADER <= end && bs == Initial(start, end)
  {
    if |bs| > 1 { TwoBlocksOneLive(bs); }
    BlockFreeOrLive(bs, 0);
  }

  lemma BlockFreeOrLive(bs: seq<Block>, i: nat)
    requires i < |bs|
    ensures bs[i].free || GrantOf(bs[i]) in Live(bs)
  {
  }

  lemma TwoBlocksOneLive(bs: seq<Block>)
    requires |bs| > 1 && Coalesced(bs)
    ensures Live(bs) != {}
  {
    var i := if bs[0].free then 1 else 0;
    assert !bs[0].free || !bs[0 + 1].free;
    assert GrantOf(bs[i]) in Live(bs);
  }

  function Frees(ptrs: seq<nat>): seq<Op> { seq(|ptrs|, i requires 0 <= i < |ptrs| => DoFree(ptrs[i])) }

  /** Freeing one pointer leaves only others live. */
  lemma OthersLeft(bs: seq<Block>, start: nat, end: nat, ptr: nat, x: Grant)
    requires Inv(bs, start, end) && x in Live(Step(bs, DoFree(ptr)))
    ensures x in Live(bs) && x.ptr != ptr
  {
    hide Release, LiveIndex, Inv, Live;
    var i := LiveIndex(bs, ptr);
    if i >= 0 {
      ReleaseRemovesOne(bs, start, end, i);
      BlockFreeOrLive(bs, i);
      LiveDisjoint(bs, start, end, x, GrantOf(bs[i]));
    } else {
      NoneAt(bs, ptr, x);
    }
  }

  lemma NoneAt(bs: seq<Block>, ptr: nat, x: Grant)
    requires LiveIndex(bs, ptr) < 0 && x in Live(bs)
    ensures x.ptr != ptr
  {
  }

  /** From any reachable state, freeing every live pointer in any order (repeats and dead
      pointers included) gives back the single initial free block. */
  lemma {:induction false} FreeingAllRestores(bs: seq<Block>, start: nat, end: nat, ptrs: seq<nat>)
    requires Inv(bs, start, end)
    requires forall x :: x in Live(bs) ==> x.ptr in ptrs
    ensures start + HEADER <= end && Run(bs, Frees(ptrs)) == Initial(start, end)
    decreases |ptrs|
  {
    hide Inv, Live, Step;
    if ptrs == [] {
      assert Live(bs) == {} by { assert forall x :: x in Live(bs) ==> x.ptr in ptrs; }
      NothingLive(bs, start, end);
    } else {
      var op := DoFree(ptrs[0]);
      var next := Step(bs, op);
      StepKeepsInv(bs, start, end, op);
      forall x | x in Live(next) ensures x.ptr in ptrs[1..] { OthersLeft(bs, start, end, ptrs[0], x); }
      FreeingAllRestores(next, start, end, ptrs[1..]);
      assert Frees(ptrs)[0] == op && Frees(ptrs)[1..] == Frees(ptrs[1..]);
    }
  }

  lemma SamePayloadSameBlock(bs: seq<Block>, start: nat, end: nat, i: nat, k: nat)
    requires Tiles(bs, start, end) && i < |bs| && k < |bs| && bs[i].Payload() == bs[k].Payload()
    ensures i == k
  {
    if i < k { TilesOrdered(bs, start, end, i, k); }
    if k < i { TilesOrdered(bs, start, end, k, i); }
  }

  // ---------------------------------------------------------------- accounting

  function FreeBytes(bs: seq<Block>): nat {
    if bs == [] then 0
    else FreeBytes(bs[..|bs| - 1]) + (if bs[|bs| - 1].free then bs[|bs| - 1].size + HEADER else 0)
  }

  function UsedBytes(bs: seq<Block>): nat {
    if bs == [] then 0
    else UsedBytes(bs[..|bs| - 1]) + (if bs[|bs| - 1].free then 0 else bs[|bs| - 1].size + HEADER)
  }

  function FreeCount(bs: seq<Block>): nat {
    if bs == [] then 0 else FreeCount(bs[..|bs| - 1]) + (if bs[|bs| - 1].free then 1 else 0)
  }

  /** Free blocks and live blocks, headers included, account for every byte. */
  lemma {:induction false} BytesAddUp(bs: seq<Block>, start: nat, end: nat)
    requires Tiles(bs, start, end)
    ensures FreeBytes(bs) + UsedBytes(bs) == end - start
  {
    if |bs| > 1 {
      var front := bs[..|bs| - 1];
      assert bs[|bs| - 2 + 1].addr == bs[|bs| - 2].End();
      BytesAddUp(front, start, bs[|bs| - 1].addr);
    }
  }
}
