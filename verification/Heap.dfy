/** The allocator of src/mem/t_mem.c with its in-band headers and its linked free list.

    Memory is a map from header-sized slots to what they hold: the heap starts on a
    64-byte boundary and every block does too, so two headers never overlap and a header
    write touches exactly one slot.  Absorbed blocks leave their old headers behind, and
    callers may write whatever they like into their payloads. */
module Heap {
  import opened HeapModel

  /** The bytes of one mem_block_t; 0 is the null link. */
  datatype Header = Header(size: nat, isFree: bool, next: nat, prev: nat)

  type Memory = map<nat, Header>

  // ---------------------------------------------------------------- the free list

  function At(list: seq<nat>, i: int): nat {
    if 0 <= i < |list| then list[i] else 0
  }

  /** The free list starting at `head` is exactly `list`, linked both ways and in
      increasing address order. */
  ghost predicate Listed(mem: Memory, head: nat, list: seq<nat>) {
    && head == At(list, 0)
    && Ordered(list)
    && forall i :: 0 <= i < |list| ==> LinkedAt(mem, list, i)
  }

  ghost predicate Ordered(list: seq<nat>) {
    && (forall i :: 0 <= i < |list| ==> list[i] > 0)
    && forall i, j :: 0 <= i < j < |list| ==> list[i] < list[j]
  }

  ghost predicate LinkedAt(mem: Memory, list: seq<nat>, i: nat)
    requires i < |list|
  {
    list[i] in mem && mem[list[i]].next == At(list, i + 1) && mem[list[i]].prev == At(list, i - 1)
  }

  /** Only links changed, and only in the headers of `touched`. */
  ghost predicate OnlyLinks(was: Memory, now: Memory, touched: set<nat>) {
    && now.Keys == was.Keys
    && (forall a :: a in was ==> now[a].size == was[a].size && now[a].isFree == was[a].isFree)
    && forall a :: a in was && a !in touched ==> now[a] == was[a]
  }

  /** Nothing changed outside `touched`. */
  ghost predicate KeptOutside(was: Memory, now: Memory, touched: set<nat>) {
    now.Keys == was.Keys && forall a :: a in was && a !in touched ==> now[a] == was[a]
  }

  function Without(list: seq<nat>, k: nat): seq<nat>
    requires k < |list|
  {
    list[..k] + list[k + 1..]
  }

  function Insert(list: seq<nat>, k: nat, a: nat): seq<nat>
    requires k <= |list|
  {
    list[..k] + [a] + list[k..]
  }

  function Elements(list: seq<nat>): set<nat> { set a | a in list }

  lemma WithoutIsSmaller(list: seq<nat>, k: nat)
    requires Ordered(list) && k < |list|
    ensures Ordered(Without(list, k)) && Elements(Without(list, k)) == Elements(list) - {list[k]}
  {
    forall a | a in Elements(list) - {list[k]} ensures a in Without(list, k) {
      var i :| 0 <= i < |list| && list[i] == a;
      assert Without(list, k)[if i < k then i else i - 1] == a;
    }
  }

  lemma InsertIsBigger(list: seq<nat>, k: nat, a: nat)
    requires Ordered(list) && k <= |list| && At(list, k - 1) < a && (k < |list| ==> a < list[k])
    ensures Ordered(Insert(list, k, a)) && Elements(Insert(list, k, a)) == Elements(list) + {a}
  {
    var more := Insert(list, k, a);
    InsertElements(list, k, a);
    hide Insert, Elements, At;
    forall i, j | 0 <= i < j < |more| ensures more[i] < more[j] {
      InsertAt(list, k, a, i);
      InsertAt(list, k, a, j);
    }
    InsertAt(list, k, a, 0);
    forall i | 0 <= i < |more| ensures more[i] > 0 { InsertAt(list, k, a, i); }
  }

  lemma InsertElements(list: seq<nat>, k: nat, a: nat)
    requires k <= |list|
    ensures |Insert(list, k, a)| == |list| + 1 && Elements(Insert(list, k, a)) == Elements(list) + {a}
  {
    var more := Insert(list, k, a);
    forall b | b in Elements(list) ensures b in more {
      var i :| 0 <= i < |list| && list[i] == b;
      assert more[if i < k then i else i + 1] == b;
    }
    assert more[k] == a;
  }

  lemma InsertAt(list: seq<nat>, k: nat, a: nat, i: nat)
    requires Ordered(list) && k <= |list| && i <= |list|
    requires At(list, k - 1) < a && (k < |list| ==> a < list[k])
    ensures Insert(list, k, a)[i] == if i < k then list[i] else if i == k then a else list[i - 1]
    ensures (i < k ==> Insert(list, k, a)[i] < a) && (i > k ==> a < Insert(list, k, a)[i])
  {
    OrderedAt(list, i, k - 1);
    OrderedAt(list, k, i - 1);
  }

  lemma OrderedAt(list: seq<nat>, i: int, j: int)
    requires Ordered(list)
    ensures 0 <= i < j < |list| ==> list[i] < list[j]
  {
  }

  /** Memory once `block` is bypassed by its list neighbours and its own links cleared. */
  function Unlink(mem: Memory, block: nat): Memory
    requires block in mem
    requires mem[block].prev == 0 || mem[block].prev in mem
    requires mem[block].next == 0 || mem[block].next in mem
  {
    var b := mem[block];
    var m1 := if b.prev != 0 then mem[b.prev := mem[b.prev].(next := b.next)] else mem;
    var m2 := if b.next != 0 then m1[b.next := m1[b.next].(prev := b.prev)] else m1;
    m2[block := m2[block].(next := 0, prev := 0)]
  }

  /** Memory once `block` is flagged free and linked between `p` and `c`. */
  function Link(mem: Memory, block: nat, p: nat, c: nat): Memory
    requires block in mem && (p == 0 || p in mem) && (c == 0 || c in mem)
  {
    var m0 := mem[block := mem[block].(isFree := true)];
    var m1 := m0[block := m0[block].(next := c, prev := p)];
    var m2 := if p != 0 then m1[p := m1[p].(next := block)] else m1;
    if c != 0 then m2[c := m2[c].(prev := block)] else m2
  }

  lemma Neighbours(mem: Memory, head: nat, list: seq<nat>, k: nat)
    requires Listed(mem, head, list) && k < |list|
    ensures list[k] in mem
    ensures mem[list[k]].prev == At(list, k - 1) && mem[list[k]].next == At(list, k + 1)
    ensures k > 0 ==> At(list, k - 1) in mem && 0 < At(list, k - 1) < list[k]
    ensures k + 1 < |list| ==> At(list, k + 1) in mem && list[k] < At(list, k + 1)
  {
    assert LinkedAt(mem, list, k);
    assert k > 0 ==> LinkedAt(mem, list, k - 1);
    assert k + 1 < |list| ==> LinkedAt(mem, list, k + 1);
  }

  lemma UnlinkTouches(mem: Memory, head: nat, list: seq<nat>, k: nat)
    requires Listed(mem, head, list) && k < |list| && list[k] in mem
    requires (mem[list[k]].prev == 0 || mem[list[k]].prev in mem) && (mem[list[k]].next == 0 || mem[list[k]].next in mem)
    ensures OnlyLinks(mem, Unlink(mem, list[k]), Elements(list))
  {
    Neighbours(mem, head, list, k);
  }

  lemma UnlinkLists(mem: Memory, head: nat, list: seq<nat>, k: nat)
    requires Listed(mem, head, list) && k < |list| && list[k] in mem
    requires (mem[list[k]].prev == 0 || mem[list[k]].prev in mem) && (mem[list[k]].next == 0 || mem[list[k]].next in mem)
    ensures Listed(Unlink(mem, list[k]), if k == 0 then At(list, 1) else head, Without(list, k))
    ensures Elements(Without(list, k)) == Elements(list) - {list[k]}
  {
    WithoutIsSmaller(list, k);
    forall j | 0 <= j < |list| - 1
      ensures LinkedAt(Unlink(mem, list[k]), Without(list, k), j)
    {
      UnlinkAt(mem, head, list, k, j);
    }
  }

  lemma UnlinkAt(mem: Memory, head: nat, list: seq<nat>, k: nat, j: nat)
    requires Listed(mem, head, list) && k < |list| && j < |list| - 1 && list[k] in mem
    requires (mem[list[k]].prev == 0 || mem[list[k]].prev in mem) && (mem[list[k]].next == 0 || mem[list[k]].next in mem)
    ensures LinkedAt(Unlink(mem, list[k]), Without(list, k), j)
  {
    Neighbours(mem, head, list, k);
    var i := if j < k then j else j + 1;
    WithoutAt(list, k, j);
    assert LinkedAt(mem, list, i);
    UnlinkedHeader(mem, list[k], list[i]);
    hide Unlink, Without;
    OrderedAt(list, i, k - 1);
    OrderedAt(list, k + 1, i);
  }

  lemma WithoutAt(list: seq<nat>, k: nat, j: nat)
    requires k < |list| && j < |list| - 1
    ensures
      var i := if j < k then j else j + 1;
      && |Without(list, k)| == |list| - 1 && Without(list, k)[j] == list[i]
      && At(Without(list, k), j + 1) == At(list, if j + 1 == k then k + 1 else i + 1)
      && At(Without(list, k), j - 1) == At(list, if j == k then k - 1 else i - 1)
  {
  }

  /** What a removal leaves in the header at x. */
  lemma UnlinkedHeader(mem: Memory, block: nat, x: nat)
    requires block in mem && x in mem && x != block && x != 0
    requires (mem[block].prev == 0 || mem[block].prev in mem) && (mem[block].next == 0 || mem[block].next in mem)
    requires mem[block].prev != 0 ==> mem[block].prev != mem[block].next
    ensures
      var (b, m) := (mem[block], Unlink(mem, block));
      && x in m && m[x].next == (if x == b.prev then b.next else mem[x].next)
      && m[x].prev == (if x == b.next then b.prev else mem[x].prev)
  {
  }

  lemma LinkTouches(mem: Memory, head: nat, list: seq<nat>, k: nat, block: nat)
    requires Listed(mem, head, list) && block in mem && block !in list && k <= |list|
    requires (At(list, k - 1) == 0 || At(list, k - 1) in mem) && (At(list, k) == 0 || At(list, k) in mem)
    ensures OnlyLinks(mem[block := mem[block].(isFree := true)], Link(mem, block, At(list, k - 1), At(list, k)), Elements(list) + {block})
  {
    assert k > 0 ==> LinkedAt(mem, list, k - 1);
  }

  lemma LinkLists(mem: Memory, head: nat, list: seq<nat>, k: nat, block: nat)
    requires Listed(mem, head, list) && block in mem && k <= |list|
    requires (At(list, k - 1) == 0 || At(list, k - 1) in mem) && (At(list, k) == 0 || At(list, k) in mem)
    requires At(list, k - 1) < block && (k < |list| ==> block < list[k])
    ensures Listed(Link(mem, block, At(list, k - 1), At(list, k)), if k == 0 then block else head, Insert(list, k, block))
    ensures Elements(Insert(list, k, block)) == Elements(list) + {block}
  {
    InsertIsBigger(list, k, block);
    var now, more := Link(mem, block, At(list, k - 1), At(list, k)), Insert(list, k, block);
    forall j | 0 <= j < |more|
      ensures LinkedAt(now, more, j)
    {
      LinkAt(mem, head, list, k, block, j);
    }
  }

  lemma LinkAt(mem: Memory, head: nat, list: seq<nat>, k: nat, block: nat, j: nat)
    requires Listed(mem, head, list) && block in mem && k <= |list| && j <= |list|
    requires (At(list, k - 1) == 0 || At(list, k - 1) in mem) && (At(list, k) == 0 || At(list, k) in mem)
    requires At(list, k - 1) < block && (k < |list| ==> block < list[k])
    ensures LinkedAt(Link(mem, block, At(list, k - 1), At(list, k)), Insert(list, k, block), j)
  {
    if j != k {
      var i := if j < k then j else j - 1;
      assert Insert(list, k, block)[j] == list[i] && LinkedAt(mem, list, i);
      assert i < k ==> list[i] <= At(list, k - 1);
      assert i != k - 1 ==> list[i] != At(list, k - 1);
      assert i != k ==> list[i] != At(list, k);
    }
  }

  // ---------------------------------------------------------------- headers and blocks

  ghost predicate Describes(mem: Memory, b: Block) {
    b.addr in mem && mem[b.addr].size == b.size && mem[b.addr].isFree == b.free
  }

  function FreeAddrs(bs: seq<Block>): set<nat> {
    set i | 0 <= i < |bs| && bs[i].free :: bs[i].addr
  }

  /** Headers and free list tell the truth about the blocks. */
  ghost predicate Faithful(mem: Memory, head: nat, list: seq<nat>, bs: seq<Block>) {
    && (forall i :: 0 <= i < |bs| ==> Describes(mem, bs[i]))
    && Listed(mem, head, list)
    && Elements(list) == FreeAddrs(bs)
  }

  lemma FreeAddrsConcat(a: seq<Block>, b: seq<Block>)
    ensures FreeAddrs(a + b) == FreeAddrs(a) + FreeAddrs(b)
  {
    forall x | x in FreeAddrs(a) + FreeAddrs(b) ensures x in FreeAddrs(a + b) {
      if x in FreeAddrs(a) {
        var i :| 0 <= i < |a| && a[i].free && x == a[i].addr;
        assert (a + b)[i] == a[i];
      } else {
        var i :| 0 <= i < |b| && b[i].free && x == b[i].addr;
        assert (a + b)[|a| + i] == b[i];
      }
    }
    forall x | x in FreeAddrs(a + b) ensures x in FreeAddrs(a) + FreeAddrs(b) {
      var i :| 0 <= i < |a + b| && (a + b)[i].free && x == (a + b)[i].addr;
      if i < |a| { assert a[i] == (a + b)[i]; } else { assert b[i - |a|] == (a + b)[i]; }
    }
  }

  lemma FreeAddrsRange(bs: seq<Block>, start: nat, end: nat, lo: nat, hi: nat)
    requires Tiles(bs, start, end) && lo < hi <= |bs|
    ensures forall x :: x in FreeAddrs(bs[lo..hi]) ==> bs[lo].addr <= x < bs[hi - 1].End()
  {
    forall i | 0 <= i < hi - lo ensures bs[lo].addr <= bs[lo..hi][i].addr < bs[hi - 1].End() {
      if i > 0 { TilesOrdered(bs, start, end, lo, lo + i); }
      if lo + i < hi - 1 { TilesOrdered(bs, start, end, lo + i, hi - 1); }
    }
  }

  /** Replacing blocks p..q replaces their free addresses only. */
  lemma FreeAddrsSplice(bs: seq<Block>, start: nat, end: nat, p: nat, q: nat, mid: seq<Block>)
    requires Tiles(bs, start, end) && p < q <= |bs|
    ensures FreeAddrs(Splice(bs, p, q, mid)) == FreeAddrs(bs) - FreeAddrs(bs[p..q]) + FreeAddrs(mid)
  {
    var (front, cut, back) := (bs[..p], bs[p..q], bs[q..]);
    assert bs == front + cut + back && front == bs[0..p] && back == bs[q..|bs|];
    FreeAddrsConcat(front + mid, back);
    FreeAddrsConcat(front, mid);
    FreeAddrsConcat(front + cut, back);
    FreeAddrsConcat(front, cut);
    FreeAddrsRange(bs, start, end, p, q);
    if p > 0 { FreeAddrsRange(bs, start, end, 0, p); TilesOrdered(bs, start, end, p - 1, p); }
    if q < |bs| { FreeAddrsRange(bs, start, end, q, |bs|); TilesOrdered(bs, start, end, q - 1, q); }
    assert p == 0 ==> front == [];
    assert q == |bs| ==> back == [];
    hide FreeAddrs, Tiles;
    SetReplace(FreeAddrs(front), FreeAddrs(cut), FreeAddrs(back), FreeAddrs(mid));
  }

  lemma SetReplace(front: set<nat>, cut: set<nat>, back: set<nat>, mid: set<nat>)
    requires front !! cut && back !! cut
    ensures front + mid + back == front + cut + back - cut + mid
  {
  }

  /** Headers still describe the blocks after a splice whose changes to sizes and flags
      are all inside the spliced stretch. */
  lemma DescribesSplice(was: Memory, now: Memory, bs: seq<Block>, start: nat, end: nat, p: nat, q: nat, mid: seq<Block>)
    requires Tiles(bs, start, end) && p < q <= |bs|
    requires forall i :: 0 <= i < |bs| ==> Describes(was, bs[i])
    requires forall i :: 0 <= i < |mid| ==> Describes(now, mid[i])
    requires forall a :: a in was && !(bs[p].addr <= a < bs[q - 1].End()) ==>
               a in now && now[a].size == was[a].size && now[a].isFree == was[a].isFree
    ensures forall i :: 0 <= i < |Splice(bs, p, q, mid)| ==> Describes(now, Splice(bs, p, q, mid)[i])
  {
    var r := Splice(bs, p, q, mid);
    forall i | 0 <= i < |r| ensures Describes(now, r[i]) {
      if i < p {
        assert r[i] == bs[i] && Describes(was, bs[i]);
        TilesOrdered(bs, start, end, i, p);
      } else if i < p + |mid| {
        assert r[i] == mid[i - p];
      } else {
        var x := i - p - |mid| + q;
        assert r[i] == bs[x] && Describes(was, bs[x]);
        TilesOrdered(bs, start, end, q - 1, x);
      }
    }
  }

  class TMem {
    var heapStart: nat
    var heapEnd: nat
    var heapTotalSize: nat
    var freeListHead: nat
    var mem: Memory
    ghost var list: seq<nat>      // addresses on the free list, in list order
    ghost var blocks: seq<Block>  // the physical blocks, in address order

    /** remove_from_free_list */
    method RemoveFromFreeList(block: nat, ghost k: nat)
      requires Listed(mem, freeListHead, list) && k < |list| && list[k] == block
      modifies this`mem, this`freeListHead, this`list
      ensures list == Without(old(list), k) && Elements(list) == Elements(old(list)) - {block}
      ensures Listed(mem, freeListHead, list)
      ensures OnlyLinks(old(mem), mem, Elements(old(list)))
    {
      Neighbours(mem, freeListHead, list, k);
      UnlinkTouches(mem, freeListHead, list, k);
      UnlinkLists(mem, freeListHead, list, k);
      var b := mem[block];
      if b.prev != 0 {
        mem := mem[b.prev := mem[b.prev].(next := b.next)];
      } else {
        freeListHead := b.next;
      }
      if b.next != 0 {
        mem := mem[b.next := mem[b.next].(prev := b.prev)];
      }
      mem := mem[block := mem[block].(next := 0, prev := 0)];
      assert mem == Unlink(old(mem), block);
      list := Without(list, k);
    }

    /** add_to_free_list */
    method AddToFreeList(block: nat)
      requires Listed(mem, freeListHead, list) && block in mem && block !in list && block > 0
      modifies this`mem, this`freeListHead, this`list
      ensures Elements(list) == Elements(old(list)) + {block}
      ensures Listed(mem, freeListHead, list)
      ensures OnlyLinks(old(mem)[block := old(mem)[block].(isFree := true)], mem, Elements(list))
    {
      ghost var k := 0;
      ghost var was, wasHead := mem, freeListHead;
      mem := mem[block := mem[block].(isFree := true)];
      if freeListHead == 0 {
        freeListHead := block;
        mem := mem[block := mem[block].(next := 0, prev := 0)];
        LinkTouches(was, wasHead, list, 0, block);
        LinkLists(was, wasHead, list, 0, block);
        assert mem == Link(was, block, 0, 0);
        list := Insert(list, 0, block);
        return;
      }
      var current, prevBlock := freeListHead, 0;
      while current != 0 && current < block
        invariant 0 <= k <= |list| && current == At(list, k) && prevBlock == At(list, k - 1) && prevBlock < block
        decreases |list| - k
      {
        assert LinkedAt(was, list, k);
        prevBlock := current;
        current := mem[current].next;
        k := k + 1;
      }
      assert k > 0 ==> LinkedAt(was, list, k - 1);
      assert k < |list| ==> LinkedAt(was, list, k);
      LinkTouches(was, wasHead, list, k, block);
      LinkLists(was, wasHead, list, k, block);
      mem := mem[block := mem[block].(next := current, prev := prevBlock)];
      if prevBlock != 0 {
        mem := mem[prevBlock := mem[prevBlock].(next := block)];
      } else {
        freeListHead := block;
      }
      if current != 0 {
        mem := mem[current := mem[current].(prev := block)];
      }
      assert mem == Link(was, block, prevBlock, current);
      list := Insert(list, k, block);
    }

    ghost predicate Sound()
      reads this
    {
      && 0 < heapStart && heapStart % 64 == 0 && heapEnd < TWO64
      && heapTotalSize == heapEnd - heapStart
      && Tiles(blocks, heapStart, heapEnd) && Aligned(blocks)
      && Faithful(mem, freeListHead, list, blocks)
    }

    ghost predicate Valid()
      reads this
    {
      Sound() && Coalesced(blocks)
    }

    /** Absorbs the free block behind block i, as both halves of merge_free_blocks do:
        the first header takes the second's bytes and the second leaves the list. */
    method Absorb(block: nat, next: nat, ghost i: nat)
      requires Sound() && i + 1 < |blocks| && blocks[i].free && blocks[i + 1].free
      requires block == blocks[i].addr && next == blocks[i + 1].addr
      modifies this`mem, this`freeListHead, this`list, this`blocks
      ensures Sound()
      ensures blocks == Splice(old(blocks), i, i + 2, [Fused(old(blocks)[i], old(blocks)[i + 1])])
      ensures KeptOutside(old(mem), mem, FreeAddrs(old(blocks)))
    {
      hide Faithful, Describes, Listed, Elements, FreeAddrs, Tiles, Aligned, OnlyLinks, KeptOutside, Splice, Fused;
      ghost var was, l0, h0 := mem, list, freeListHead;
      ghost var k := SecondListed(mem, freeListHead, list, blocks, i);
      mem := mem[block := mem[block].(size := mem[block].size + HEADER + mem[next].size)];
      SizeKeepsListed(was, mem, freeListHead, list);
      ghost var m1 := mem;
      RemoveFromFreeList(next, k);
      AbsorbTiles(blocks, heapStart, heapEnd, i);
      AbsorbFaithful(was, m1, mem, h0, freeListHead, l0, list, blocks, heapStart, heapEnd, i);
      blocks := Splice(blocks, i, i + 2, [Fused(blocks[i], blocks[i + 1])]);
    }

    /** The first half of merge_free_blocks: the block physically behind. */
    method MergeAhead(block: nat, ghost i: nat)
      requires Sound() && i < |blocks| && blocks[i].free && block == blocks[i].addr
      modifies this`mem, this`freeListHead, this`list, this`blocks
      ensures Sound() && blocks == FuseAhead(old(blocks), i)
      ensures KeptOutside(old(mem), mem, FreeAddrs(old(blocks)))
    {
      assert Describes(mem, blocks[i]);
      TilesInside(blocks, heapStart, heapEnd, i);
      if i + 1 < |blocks| { TilesOrdered(blocks, heapStart, heapEnd, i, i + 1); }
      var nextAddr := block + HEADER + mem[block].size;
      if nextAddr < heapEnd {
        assert i + 1 < |blocks| && blocks[i + 1].addr == nextAddr && Describes(mem, blocks[i + 1]);
        if mem[nextAddr].isFree {
          Absorb(block, nextAddr, i);
        }
      }
    }

    /** The second half: the list predecessor, if it touches the block. */
    method MergeBehind(block: nat, ghost i: nat)
      requires Sound() && i < |blocks| && blocks[i].free && block == blocks[i].addr
      modifies this`mem, this`freeListHead, this`list, this`blocks
      ensures Sound() && blocks == FuseBehind(old(blocks), i)
      ensures KeptOutside(old(mem), mem, FreeAddrs(old(blocks)))
    {
      assert block in FreeAddrs(blocks);
      ghost var k :| 0 <= k < |list| && list[k] == block;
      Predecessor(mem, freeListHead, list, blocks, heapStart, heapEnd, i, k);
      var p := mem[block].prev;
      if p != 0 && mem[p].isFree {
        var prevEnd := p + HEADER + mem[p].size;
        if prevEnd == block {
          Absorb(p, block, i - 1);
        }
      }
    }

    /** merge_free_blocks */
    method MergeFreeBlocks(block: nat, ghost i: nat)
      requires Sound() && i < |blocks| && blocks[i].free && block == blocks[i].addr
      modifies this`mem, this`freeListHead, this`list, this`blocks
      ensures Sound() && blocks == FuseBehind(FuseAhead(old(blocks), i), i)
      ensures KeptOutside(old(mem), mem, FreeAddrs(old(blocks)))
    {
      FuseAheadAddrs(blocks, heapStart, heapEnd, i);
      MergeAhead(block, i);
      MergeBehind(block, i);
    }

    /** split_block: a remainder above 128 bytes becomes a free block of its own. */
    method SplitBlock(block: nat, size: nat)
      requires Listed(mem, freeListHead, list) && block in mem && block !in list && size <= mem[block].size && size % 64 == 0
      requires Splits(mem[block].size, size) ==> block + HEADER + size !in list
      modifies this`mem, this`freeListHead, this`list
      ensures Listed(mem, freeListHead, list)
      ensures !Splits(old(mem)[block].size, size) ==> mem == old(mem) && list == old(list)
      ensures Splits(old(mem)[block].size, size) ==>
        && Elements(list) == Elements(old(list)) + {block + HEADER + size}
        && OnlyLinks(Cut(old(mem), block, size), mem, Elements(list))
    {
      var remaining := mem[block].size - size;
      if remaining > HEADER + MIN_BLOCK {
        var newBlock := block + HEADER + size;
        ghost var was := mem;
        mem := mem[newBlock := Header(remaining - HEADER, true, 0, 0)];
        mem := mem[block := mem[block].(size := size)];
        assert mem == Cut(was, block, size);
        forall i | 0 <= i < |list| ensures LinkedAt(mem, list, i) { assert LinkedAt(was, list, i); }
        AddToFreeList(newBlock);
        assert mem.Keys == Cut(was, block, size).Keys;
      }
    }

    /** The search loop of t_mem_alloc. */
    method FindBestFit(size: nat) returns (bestFit: nat)
      requires Sound()
      ensures BestFit(blocks, size) < 0 <==> bestFit == 0
      ensures BestFit(blocks, size) >= 0 ==> blocks[BestFit(blocks, size)].addr == bestFit
    {
      bestFit := 0;
      var current := freeListHead;
      ghost var j := 0;
      while current != 0
        invariant 0 <= j <= |list| && current == At(list, j)
        invariant Scanned(mem, list, j, size, bestFit)
        decreases |list| - j
      {
        assert LinkedAt(mem, list, j) && list[j] in FreeAddrs(blocks);
        ghost var i :| 0 <= i < |blocks| && blocks[i].free && blocks[i].addr == list[j];
        assert Describes(mem, blocks[i]);
        if mem[current].isFree && mem[current].size >= size {
          if bestFit == 0 || mem[current].size < mem[bestFit].size {
            bestFit := current;
          }
        }
        current := mem[current].next;
        j := j + 1;
      }
      ScanFindsBestFit(mem, freeListHead, list, blocks, heapStart, heapEnd, size, bestFit);
    }

    /** t_mem_alloc */
    method Malloc(request: nat) returns (ptr: nat)
      requires Valid() && request < TWO64
      modifies this`mem, this`freeListHead, this`list, this`blocks
      ensures Valid() && blocks == Alloc(old(blocks), request) && ptr == AllocPtr(old(blocks), request)
      ensures Undisturbed(old(blocks), old(mem), mem)
    {
      hide Faithful, Tiles, Coalesced, Aligned, Carve, Undisturbed;
      NothingDisturbed(blocks, mem);
      if request == 0 {
        return 0;
      }
      var size := MemAlign(request);
      var bestFit := FindBestFit(size);
      if bestFit == 0 {
        return 0;
      }
      Claim(bestFit, size, BestFit(blocks, size));
      CarveKeepsInv(blocks, heapStart, heapEnd, BestFit(blocks, size), size);
      blocks := Alloc(blocks, request);
      ptr := bestFit + HEADER;
    }

    /** Block i is taken; `blocks` is brought up to date by the caller. */
    method Claim(block: nat, size: nat, ghost i: nat)
      requires Tiles(blocks, heapStart, heapEnd) && Faithful(mem, freeListHead, list, blocks)
      requires i < |blocks| && blocks[i].free && blocks[i].addr == block && size <= blocks[i].size && size % 64 == 0
      modifies this`mem, this`freeListHead, this`list
      ensures Faithful(mem, freeListHead, list, Carve(blocks, i, size))
      ensures Undisturbed(blocks, old(mem), mem)
    {
      ghost var was, l0 := mem, list;
      assert block in FreeAddrs(blocks) && Describes(mem, blocks[i]);
      ghost var k :| 0 <= k < |list| && list[k] == block;
      if Splits(blocks[i].size, size) { NoBlockInside(blocks, heapStart, heapEnd, i, block + HEADER + size); }
      ghost var m1, m2 := TakeBlock(block, size, k);
      CarveFaithful(was, m1, m2, mem, freeListHead, l0, list, blocks, heapStart, heapEnd, i, size);
    }

    /** The end of t_mem_alloc: off the list, split, flagged. */
    method TakeBlock(block: nat, size: nat, ghost k: nat) returns (ghost m1: Memory, ghost m2: Memory)
      requires Listed(mem, freeListHead, list) && k < |list| && list[k] == block && block in mem
      requires size <= mem[block].size && size % 64 == 0
      requires Splits(mem[block].size, size) ==> block + HEADER + size !in list
      modifies this`mem, this`freeListHead, this`list
      ensures Listed(m2, freeListHead, list) && OnlyLinks(old(mem), m1, Elements(old(list)))
      ensures block in m1 && block in m2 && mem == m2[block := m2[block].(isFree := false)]
      ensures if Splits(old(mem)[block].size, size)
              then Elements(list) == Elements(old(list)) - {block} + {block + HEADER + size}
                   && m1[block].size == old(mem)[block].size && OnlyLinks(Cut(m1, block, size), m2, Elements(list))
              else m2 == m1 && Elements(list) == Elements(old(list)) - {block}
    {
      RemoveFromFreeList(block, k);
      m1 := mem;
      SplitBlock(block, size);
      m2 := mem;
      mem := mem[block := mem[block].(isFree := false)];
    }

    /** t_mem_init on a heap whose linker symbol is at `raw`. */
    constructor (raw: nat, heapSize: nat)
      requires 0 < raw <= TWO64 - 64 && raw + heapSize < TWO64
      requires MemAlign(raw) + HEADER <= raw + heapSize
      ensures Valid() && heapStart == MemAlign(raw) && heapEnd == raw + heapSize
      ensures blocks == Initial(heapStart, heapEnd)
    {
      AlignCoversIff(raw);
      heapStart := MemAlign(raw);
      heapTotalSize := heapSize - (MemAlign(raw) - raw);
      heapEnd := MemAlign(raw) + (heapSize - (MemAlign(raw) - raw));
      freeListHead := MemAlign(raw);
      mem := map[MemAlign(raw) := Header(heapSize - (MemAlign(raw) - raw) - HEADER, true, 0, 0)];
      list := [MemAlign(raw)];
      blocks := Initial(MemAlign(raw), raw + heapSize);
      new;
      assert LinkedAt(mem, list, 0);
      assert blocks[0].addr in FreeAddrs(blocks);
    }

    /** The rest of t_mem_free, for the live block at hand. */
    method FreeLive(block: nat, ghost i: nat)
      requires Valid() && i < |blocks| && !blocks[i].free && block == blocks[i].addr && 0 < block && block in mem && block !in FreeAddrs(blocks)
      modifies this`mem, this`freeListHead, this`list, this`blocks
      ensures Valid() && blocks == Release(old(blocks), i)
      ensures Undisturbed(old(blocks)[i := old(blocks)[i].(free := true)], old(mem), mem)
    {
      hide Listed, Ordered, Describes, Tiles, Coalesced, FuseBehind, FuseAhead, HeapModel.Release;
      ghost var was, bs, l0 := mem, blocks, list;
      AddToFreeList(block);
      MarkFaithful(was, mem, freeListHead, l0, list, blocks, heapStart, heapEnd, i);
      blocks := blocks[i := blocks[i].(free := true)];
      MergeFreeBlocks(block, i);
      FusesMakeRelease(bs, i);
      ReleaseKeepsInv(bs, heapStart, heapEnd, i);
      ReleaseUndisturbed(was, mem, bs[i := bs[i].(free := true)], heapStart, heapEnd);
    }

    /** t_mem_free.  In range, the pointer must be live or its header slot must still read
        as free (a freed block not handed out again, or absorbed since). */
    method Free(ptr: nat)
      requires Valid() && ptr < TWO64
      requires Reaches(heapStart, heapEnd, ptr) ==>
                 HeaderOf(ptr) in mem && (mem[HeaderOf(ptr)].isFree || LiveIndex(blocks, ptr) >= 0)
      modifies this`mem, this`freeListHead, this`list, this`blocks
      ensures Valid() && blocks == Step(old(blocks), DoFree(ptr))
      ensures LiveIndex(old(blocks), ptr) < 0 ==> mem == old(mem) && freeListHead == old(freeListHead)
      ensures Undisturbed(Survivors(old(blocks), ptr), old(mem), mem)
    {
      ghost var i := LiveIndex(blocks, ptr);
      LiveHeader(mem, blocks, heapStart, heapEnd, ptr);
      if ptr == 0 {
        return;
      }
      var block := HeaderOf(ptr);
      if block < heapStart || block >= heapEnd {
        return;
      }
      if mem[block].isFree {
        return;
      }
      FreeLive(block, i);
    }

    /** t_mem_stats: the walk over the free list accounts for every byte. */
    method Stats() returns (total: nat, used: nat, free: nat, count: nat)
      requires Valid()
      ensures total == heapEnd - heapStart == used + free
      ensures free == FreeBytes(blocks) && used == UsedBytes(blocks) && count == FreeCount(blocks)
    {
      total, free, count := heapTotalSize, 0, 0;
      var current := freeListHead;
      ghost var j := 0;
      while current != 0
        invariant 0 <= j <= |list| && current == At(list, j) && count == j
        invariant free == ListBytes(mem, list[..j])
        decreases |list| - j
      {
        assert LinkedAt(mem, list, j) && list[j] in FreeAddrs(blocks);
        ghost var i :| 0 <= i < |blocks| && blocks[i].free && blocks[i].addr == list[j];
        assert Describes(mem, blocks[i]);
        assert list[..j + 1][..j] == list[..j];
        if mem[current].isFree {
          free := free + mem[current].size + HEADER;
          count := count + 1;
        }
        current := mem[current].next;
        j := j + 1;
      }
      assert list[..|list|] == list;
      ListAccounts(mem, list, blocks, heapStart, heapEnd);
      BytesAddUp(blocks, heapStart, heapEnd);
      used := heapTotalSize - free;
    }

    /** A caller writing anything at all into a payload it owns. */
    method ClientWrite(ptr: nat, slot: nat, data: Header)
      requires Valid() && LiveIndex(blocks, ptr) >= 0
      requires ptr <= slot < blocks[LiveIndex(blocks, ptr)].End()
      modifies this`mem
      ensures Valid() && mem == old(mem)[slot := data]
    {
      ghost var was := mem;
      mem := mem[slot := data];
      WriteKeepsFaithful(was, mem, freeListHead, list, blocks, heapStart, heapEnd, LiveIndex(blocks, ptr), slot);
    }
  }

  /** The header a pointer is taken to have, by 64-bit pointer arithmetic. */
  function HeaderOf(ptr: nat): nat { (ptr + TWO64 - HEADER) % TWO64 }

  /** t_mem_free looks at the header: the pointer is not null and its header is in range. */
  predicate Reaches(start: nat, end: nat, ptr: nat) { ptr != 0 && start <= HeaderOf(ptr) < end }

  predicate Splits(has: nat, size: nat) { has >= size && has - size > HEADER + MIN_BLOCK }

  /** The two headers split_block writes, before the new one is linked. */
  function Cut(mem: Memory, block: nat, size: nat): Memory
    requires block in mem && size <= mem[block].size && mem[block].size - size > HEADER + MIN_BLOCK
  {
    mem[block + HEADER + size := Header(mem[block].size - size - HEADER, true, 0, 0)][block := mem[block].(size := size)]
  }

  /** No slot in the payload of a live block changed, appeared or vanished. */
  ghost predicate Undisturbed(bs: seq<Block>, was: Memory, now: Memory) {
    forall i, a :: 0 <= i < |bs| && !bs[i].free && bs[i].Payload() <= a < bs[i].End() ==>
      (a in was <==> a in now) && (a in was ==> now[a] == was[a])
  }

  lemma NothingDisturbed(bs: seq<Block>, mem: Memory)
    ensures Undisturbed(bs, mem, mem)
  {
  }

  /** `best` is the best sufficient block among the first j of the list, 0 for none. */
  ghost predicate Scanned(mem: Memory, list: seq<nat>, j: nat, size: nat, best: nat)
    requires j <= |list|
  {
    && (best != 0 ==> best in list[..j] && best in mem && size <= mem[best].size)
    && forall t :: 0 <= t < j && list[t] in mem && size <= mem[list[t]].size ==>
         best != 0 && best in mem && (mem[best].size < mem[list[t]].size || (mem[best].size == mem[list[t]].size && best <= list[t]))
  }
  function Fused(b: Block, c: Block): Block { Block(b.addr, b.size + HEADER + c.size, true) }

  /** Both headers are there, the second is on the list, and their sizes make the fused one. */
  lemma SecondListed(mem: Memory, head: nat, list: seq<nat>, bs: seq<Block>, i: nat) returns (k: nat)
    requires Faithful(mem, head, list, bs) && i + 1 < |bs| && bs[i].free && bs[i + 1].free
    ensures k < |list| && list[k] == bs[i + 1].addr && Listed(mem, head, list)
    ensures bs[i].addr in mem && bs[i + 1].addr in mem
    ensures mem[bs[i].addr].size + HEADER + mem[bs[i + 1].addr].size == Fused(bs[i], bs[i + 1]).size
  {
    assert Describes(mem, bs[i]) && Describes(mem, bs[i + 1]);
    hide Describes, Listed;
    assert bs[i + 1].addr in Elements(list);
    k :| 0 <= k < |list| && list[k] == bs[i + 1].addr;
  }

  lemma AbsorbFaithful(was: Memory, m1: Memory, now: Memory, h0: nat, head: nat, l0: seq<nat>, l1: seq<nat>,
                       bs: seq<Block>, start: nat, end: nat, i: nat)
    requires Tiles(bs, start, end) && i + 1 < |bs| && bs[i].free && bs[i + 1].free
    requires Faithful(was, h0, l0, bs) && bs[i].addr in was
    requires m1 == was[bs[i].addr := was[bs[i].addr].(size := Fused(bs[i], bs[i + 1]).size)]
    requires OnlyLinks(m1, now, Elements(l0))
    requires Listed(now, head, l1) && Elements(l1) == Elements(l0) - {bs[i + 1].addr}
    ensures Faithful(now, head, l1, Splice(bs, i, i + 2, [Fused(bs[i], bs[i + 1])]))
    ensures KeptOutside(was, now, FreeAddrs(bs))
  {
    var mid := [Fused(bs[i], bs[i + 1])];
    assert bs[i..i + 2] == [bs[i], bs[i + 1]];
    FreeAddrsSplice(bs, start, end, i, i + 2, mid);
    PairAddrs(bs[i], bs[i + 1], mid[0]);
    assert bs[i].addr in FreeAddrs(bs) && bs[i + 1].addr == bs[i].End();
    assert Describes(was, bs[i]);
    DescribesSplice(was, now, bs, start, end, i, i + 2, mid);
  }

  lemma SizeKeepsListed(was: Memory, now: Memory, head: nat, list: seq<nat>)
    requires Listed(was, head, list)
    requires now.Keys == was.Keys && forall a :: a in was ==> now[a].next == was[a].next && now[a].prev == was[a].prev
    ensures Listed(now, head, list)
  {
    forall i | 0 <= i < |list| ensures LinkedAt(now, list, i) { assert LinkedAt(was, list, i); }
  }

  lemma PairAddrs(b: Block, c: Block, m: Block)
    requires b.free && c.free && m.free && m.addr == b.addr
    ensures FreeAddrs([b, c]) == {b.addr, c.addr} && FreeAddrs([m]) == {b.addr}
  {
    assert [b, c][0] == b && [b, c][1] == c && [m][0] == m;
  }

  lemma AbsorbTiles(bs: seq<Block>, start: nat, end: nat, i: nat)
    requires Tiles(bs, start, end) && Aligned(bs) && i + 1 < |bs|
    ensures
      var r := Splice(bs, i, i + 2, [Fused(bs[i], bs[i + 1])]);
      Tiles(r, start, end) && Aligned(r)
  {
    var r := Splice(bs, i, i + 2, [Fused(bs[i], bs[i + 1])]);
    assert bs[i + 1].addr == bs[i].End();
    forall k | 0 <= k < |r| - 1 ensures r[k + 1].addr == r[k].End() {
      if k > i { assert r[k] == bs[k + 1] && r[k + 1] == bs[k + 2] && bs[k + 1 + 1].addr == bs[k + 1].End(); }
      else if k == i { assert r[k + 1] == bs[i + 2] && bs[i + 1 + 1].addr == bs[i + 1].End(); }
      else { assert r[k] == bs[k] && bs[k + 1].addr == bs[k].End(); }
    }
  }

  /** Free block i fused with the block behind it, if that is free. */
  function FuseAhead(bs: seq<Block>, i: nat): seq<Block>
    requires i < |bs|
  {
    if FreeAt(bs, i + 1) then Splice(bs, i, i + 2, [Fused(bs[i], bs[i + 1])]) else bs
  }

  /** Free block i fused with the block before it, if that is free. */
  function FuseBehind(bs: seq<Block>, i: nat): seq<Block>
    requires i < |bs|
  {
    if FreeAt(bs, i - 1) then Splice(bs, i - 1, i + 1, [Fused(bs[i - 1], bs[i])]) else bs
  }

  lemma FuseAheadAddrs(bs: seq<Block>, start: nat, end: nat, i: nat)
    requires Tiles(bs, start, end) && i < |bs| && bs[i].free
    ensures i < |FuseAhead(bs, i)| && FuseAhead(bs, i)[i].free && FuseAhead(bs, i)[i].addr == bs[i].addr
    ensures FreeAddrs(FuseAhead(bs, i)) <= FreeAddrs(bs)
  {
    if FreeAt(bs, i + 1) {
      FreeAddrsSplice(bs, start, end, i, i + 2, [Fused(bs[i], bs[i + 1])]);
      PairAddrs(bs[i], bs[i + 1], Fused(bs[i], bs[i + 1]));
    }
  }

  /** Flagging block i free and fusing both ways is what a release does. */
  lemma FusesMakeRelease(bs: seq<Block>, i: nat)
    requires i < |bs| && !bs[i].free
    ensures FuseBehind(FuseAhead(bs[i := bs[i].(free := true)], i), i) == Release(bs, i)
  {
    AheadIs(bs, i);
    hide FuseAhead;
    var (p, q) := (MergeFrom(bs, i), MergeTo(bs, i));
    if p < i { ExtentCons(bs, p, q); }
    hide Extent;
    BehindIs(bs, i, Block(bs[i].addr, Extent(bs[i..q]), true), q);
  }

  /** Merging ahead leaves one free block in place of the merged ones. */
  lemma AheadIs(bs: seq<Block>, i: nat)
    requires i < |bs| && !bs[i].free
    ensures
      var q := MergeTo(bs, i);
      FuseAhead(bs[i := bs[i].(free := true)], i) == bs[..i] + [Block(bs[i].addr, Extent(bs[i..q]), true)] + bs[q..]
  {
    var up := bs[i := bs[i].(free := true)];
    if FreeAt(bs, i + 1) {
      assert Extent(bs[i..i + 2]) == bs[i].size + HEADER + bs[i + 1].size by { assert bs[i..i + 2][..1] == [bs[i]]; }
      hide Extent;
      assert up[..i] == bs[..i] && up[i + 2..] == bs[i + 2..];
    } else {
      assert bs[i..i + 1] == [bs[i]];
      hide Extent;
      assert up == bs[..i] + [bs[i].(free := true)] + bs[i + 1..];
    }
  }

  /** Merging behind, when block b stands where blocks i to q were. */
  lemma BehindIs(bs: seq<Block>, i: nat, b: Block, q: nat)
    requires i < q <= |bs|
    ensures FuseBehind(bs[..i] + [b] + bs[q..], i)
         == if FreeAt(bs, i - 1) then bs[..i - 1] + [Fused(bs[i - 1], b)] + bs[q..] else bs[..i] + [b] + bs[q..]
  {
    var ahead := bs[..i] + [b] + bs[q..];
    assert ahead[i + 1..] == bs[q..] && FreeAt(ahead, i - 1) == FreeAt(bs, i - 1);
    if FreeAt(bs, i - 1) { assert ahead[..i - 1] == bs[..i - 1]; }
  }

  lemma {:induction false} ExtentCons(bs: seq<Block>, p: nat, q: nat)
    requires p + 1 < q <= |bs|
    ensures Extent(bs[p..q]) == bs[p].size + HEADER + Extent(bs[p + 1..q])
  {
    var (s, t) := (bs[p..q], bs[p + 1..q]);
    assert s[..|s| - 1] == bs[p..q - 1] && t[..|t| - 1] == bs[p + 1..q - 1];
    if q > p + 2 { ExtentCons(bs, p, q - 1); }
  }

  /** The list predecessor of a free block is its physical predecessor exactly when that
      one is free, and only then do the two touch. */
  lemma Predecessor(mem: Memory, head: nat, list: seq<nat>, bs: seq<Block>, start: nat, end: nat, i: nat, k: nat)
    requires Tiles(bs, start, end) && Faithful(mem, head, list, bs) && 0 < start
    requires i < |bs| && k < |list| && list[k] == bs[i].addr
    ensures list[k] in mem && (mem[list[k]].prev == 0 || mem[list[k]].prev in mem)
    ensures
      var p := mem[list[k]].prev;
      if FreeAt(bs, i - 1) then p == bs[i - 1].addr && p > 0 && mem[p].isFree && p + HEADER + mem[p].size == list[k]
      else p == 0 || p + HEADER + mem[p].size != list[k]
  {
    Neighbours(mem, head, list, k);
    if k > 0 {
      assert list[k - 1] in FreeAddrs(bs);
      var j :| 0 <= j < |bs| && bs[j].free && bs[j].addr == list[k - 1];
      assert Describes(mem, bs[j]);
      if j > i { TilesOrdered(bs, start, end, i, j); }
      if j < i - 1 { TilesOrdered(bs, start, end, j, i - 1); }
    }
    if i > 0 {
      assert bs[i - 1 + 1].addr == bs[i - 1].End() && Describes(mem, bs[i - 1]);
    }
    if FreeAt(bs, i - 1) {
      assert bs[i - 1].addr in FreeAddrs(bs);
      var t :| 0 <= t < |list| && list[t] == bs[i - 1].addr;
      assert t < k;
      OrderedAt(list, t, k - 1);
    }
  }

  lemma ScanFindsBestFit(mem: Memory, head: nat, list: seq<nat>, bs: seq<Block>, start: nat, end: nat, size: nat, best: nat)
    requires Tiles(bs, start, end) && Faithful(mem, head, list, bs) && Scanned(mem, list, |list|, size, best)
    ensures BestFit(bs, size) < 0 <==> best == 0
    ensures BestFit(bs, size) >= 0 ==> bs[BestFit(bs, size)].addr == best
  {
    forall j | 0 <= j < |bs| && Sufficient(bs[j], size)
      ensures best != 0 && best in mem && (mem[best].size < bs[j].size || (mem[best].size == bs[j].size && best <= bs[j].addr))
    {
      assert bs[j].addr in FreeAddrs(bs) && Describes(mem, bs[j]);
      var t :| 0 <= t < |list| && list[t] == bs[j].addr;
    }
    if best != 0 {
      assert best in FreeAddrs(bs);
      var i :| 0 <= i < |bs| && bs[i].free && bs[i].addr == best;
      assert Describes(mem, bs[i]) && Sufficient(bs[i], size);
      forall j | 0 <= j < |bs| && Sufficient(bs[j], size)
        ensures bs[i].size < bs[j].size || (bs[i].size == bs[j].size && i <= j)
      {
        if j < i { TilesOrdered(bs, start, end, j, i); }
      }
      assert IsBestFit(bs, size, i);
    }
  }

  lemma NoBlockInside(bs: seq<Block>, start: nat, end: nat, i: nat, a: nat)
    requires Tiles(bs, start, end) && i < |bs| && bs[i].addr < a < bs[i].End()
    ensures a !in FreeAddrs(bs)
  {
    forall j | 0 <= j < |bs| ensures bs[j].addr != a {
      if j < i { TilesOrdered(bs, start, end, j, i); }
      if i < j { TilesOrdered(bs, start, end, i, j); }
    }
  }

  lemma CarveFaithful(was: Memory, m1: Memory, m2: Memory, now: Memory, head: nat, l0: seq<nat>, l2: seq<nat>,
                      bs: seq<Block>, start: nat, end: nat, i: nat, size: nat)
    requires Tiles(bs, start, end) && i < |bs| && bs[i].free && size <= bs[i].size
    requires forall k :: 0 <= k < |bs| ==> Describes(was, bs[k])
    requires Elements(l0) == FreeAddrs(bs) && OnlyLinks(was, m1, Elements(l0)) && bs[i].addr in m1 && bs[i].addr in m2
    requires if Splits(bs[i].size, size)
             then m1[bs[i].addr].size == bs[i].size && Elements(l2) == Elements(l0) - {bs[i].addr} + {bs[i].Payload() + size}
                  && OnlyLinks(Cut(m1, bs[i].addr, size), m2, Elements(l2))
             else m2 == m1 && Elements(l2) == Elements(l0) - {bs[i].addr}
    requires Listed(m2, head, l2) && now == m2[bs[i].addr := m2[bs[i].addr].(isFree := false)]
    ensures Faithful(now, head, l2, Carve(bs, i, size))
    ensures Undisturbed(bs, was, now)
  {
    assert Describes(was, bs[i]);
    assert bs[i].addr in FreeAddrs(bs);
    SizeKeepsListed(m2, now, head, l2);
    CarveAddrs(bs, start, end, i, size);
    CarveDescribes(was, m1, m2, now, Elements(l2), bs, start, end, i, size);
  }

  lemma CarveAddrs(bs: seq<Block>, start: nat, end: nat, i: nat, size: nat)
    requires Tiles(bs, start, end) && i < |bs| && bs[i].free && size <= bs[i].size
    ensures FreeAddrs(Carve(bs, i, size)) ==
            FreeAddrs(bs) - {bs[i].addr} + (if Splits(bs[i].size, size) then {bs[i].Payload() + size} else {})
  {
    FreeAddrsSplice(bs, start, end, i, i + 1, Pieces(bs[i], size));
    assert bs[i..i + 1] == [bs[i]];
    PiecesAddrs(bs[i], size);
  }

  lemma CarveDescribes(was: Memory, m1: Memory, m2: Memory, now: Memory, linked: set<nat>,
                       bs: seq<Block>, start: nat, end: nat, i: nat, size: nat)
    requires Tiles(bs, start, end) && i < |bs| && bs[i].free && size <= bs[i].size
    requires forall k :: 0 <= k < |bs| ==> Describes(was, bs[k])
    requires OnlyLinks(was, m1, FreeAddrs(bs)) && bs[i].addr in m1 && bs[i].addr in m2
    requires if Splits(bs[i].size, size)
             then m1[bs[i].addr].size == bs[i].size && OnlyLinks(Cut(m1, bs[i].addr, size), m2, linked)
                  && linked <= FreeAddrs(bs) + {bs[i].Payload() + size}
             else m2 == m1
    requires now == m2[bs[i].addr := m2[bs[i].addr].(isFree := false)]
    ensures forall k :: 0 <= k < |Carve(bs, i, size)| ==> Describes(now, Carve(bs, i, size)[k])
    ensures Undisturbed(bs, was, now)
  {
    assert Describes(was, bs[i]);
    CarveChanges(was, m1, m2, now, linked, bs, i, size);
    DescribesSplice(was, now, bs, start, end, i, i + 1, Pieces(bs[i], size));
    CarveUndisturbed(was, now, bs, start, end, i);
  }

  lemma CarveChanges(was: Memory, m1: Memory, m2: Memory, now: Memory, linked: set<nat>, bs: seq<Block>, i: nat, size: nat)
    requires i < |bs| && bs[i].free && size <= bs[i].size && Describes(was, bs[i])
    requires OnlyLinks(was, m1, FreeAddrs(bs)) && bs[i].addr in m1 && bs[i].addr in m2
    requires if Splits(bs[i].size, size)
             then m1[bs[i].addr].size == bs[i].size && OnlyLinks(Cut(m1, bs[i].addr, size), m2, linked)
                  && linked <= FreeAddrs(bs) + {bs[i].Payload() + size}
             else m2 == m1
    requires now == m2[bs[i].addr := m2[bs[i].addr].(isFree := false)]
    ensures forall k :: 0 <= k < |Pieces(bs[i], size)| ==> Describes(now, Pieces(bs[i], size)[k])
    ensures forall a :: a in was && !(bs[i].addr <= a < bs[i].End()) ==>
              a in now && now[a].size == was[a].size && now[a].isFree == was[a].isFree
    ensures forall a :: !(bs[i].addr <= a < bs[i].End()) && a !in FreeAddrs(bs) ==>
              (a in was <==> a in now) && (a in was ==> now[a] == was[a])
  {
    if Splits(bs[i].size, size) {
      var cut := Cut(m1, bs[i].addr, size);
      assert cut.Keys == m1.Keys + {bs[i].Payload() + size, bs[i].addr};
    }
  }

  lemma PiecesAddrs(b: Block, size: nat)
    requires b.free && size <= b.size
    ensures FreeAddrs([b]) == {b.addr}
    ensures FreeAddrs(Pieces(b, size)) == if Splits(b.size, size) then {b.Payload() + size} else {}
  {
    assert [b][0] == b;
    if Splits(b.size, size) { assert Pieces(b, size)[1].free; }
  }

  /** Slots that changed are free headers or inside the carved block, so no live payload
      is among them. */
  lemma CarveUndisturbed(was: Memory, now: Memory, bs: seq<Block>, start: nat, end: nat, i: nat)
    requires Tiles(bs, start, end) && i < |bs| && bs[i].free
    requires forall a :: !(bs[i].addr <= a < bs[i].End()) && a !in FreeAddrs(bs) ==>
               (a in was <==> a in now) && (a in was ==> now[a] == was[a])
    ensures Undisturbed(bs, was, now)
  {
    forall k, a | 0 <= k < |bs| && !bs[k].free && bs[k].Payload() <= a < bs[k].End()
      ensures (a in was <==> a in now) && (a in was ==> now[a] == was[a])
    {
      NoBlockInside(bs, start, end, k, a);
      if i < k { TilesOrdered(bs, start, end, i, k); } else { TilesOrdered(bs, start, end, k, i); }
    }
  }

  /** The blocks with the one that owns `ptr` no longer live. */
  function Survivors(bs: seq<Block>, ptr: nat): seq<Block> {
    var i := LiveIndex(bs, ptr);
    if i < 0 then bs else bs[i := bs[i].(free := true)]
  }

  lemma LiveHeader(mem: Memory, bs: seq<Block>, start: nat, end: nat, ptr: nat)
    requires Tiles(bs, start, end) && end < TWO64 && 0 < start && ptr < TWO64
    requires forall k :: 0 <= k < |bs| ==> Describes(mem, bs[k])
    ensures
      var i := LiveIndex(bs, ptr);
      i >= 0 ==> ptr != 0 && start <= HeaderOf(ptr) < end && HeaderOf(ptr) == bs[i].addr
                 && HeaderOf(ptr) in mem && !mem[HeaderOf(ptr)].isFree && HeaderOf(ptr) !in FreeAddrs(bs)
  {
    var i := LiveIndex(bs, ptr);
    if i >= 0 {
      TilesInside(bs, start, end, i);
      assert Describes(mem, bs[i]);
      LiveNotFree(bs, start, end, i);
    }
  }

  lemma LiveNotFree(bs: seq<Block>, start: nat, end: nat, i: nat)
    requires Tiles(bs, start, end) && i < |bs| && !bs[i].free
    ensures bs[i].addr !in FreeAddrs(bs)
  {
    forall j | 0 <= j < |bs| && bs[j].addr == bs[i].addr ensures j == i { SamePayloadSameBlock(bs, start, end, i, j); }
  }

  lemma MarkFaithful(was: Memory, now: Memory, head: nat, l0: seq<nat>, l1: seq<nat>, bs: seq<Block>, start: nat, end: nat, i: nat)
    requires Tiles(bs, start, end) && i < |bs|
    requires forall k :: 0 <= k < |bs| ==> Describes(was, bs[k])
    requires bs[i].addr in was && OnlyLinks(was[bs[i].addr := was[bs[i].addr].(isFree := true)], now, Elements(l1))
    requires Listed(now, head, l1) && Elements(l0) == FreeAddrs(bs) && Elements(l1) == Elements(l0) + {bs[i].addr}
    ensures Faithful(now, head, l1, bs[i := bs[i].(free := true)])
    ensures Tiles(bs[i := bs[i].(free := true)], start, end)
  {
    var b := bs[i].(free := true);
    MarkAddrs(bs, start, end, i);
    MarkDescribed(was, now, Elements(l1), bs, start, end, i);
    hide FreeAddrs, Listed, Describes, OnlyLinks, Elements;
  }

  lemma MarkAddrs(bs: seq<Block>, start: nat, end: nat, i: nat)
    requires Tiles(bs, start, end) && i < |bs|
    ensures FreeAddrs(bs[i := bs[i].(free := true)]) == FreeAddrs(bs) + {bs[i].addr}
  {
    var b := bs[i].(free := true);
    assert bs[i := b] == Splice(bs, i, i + 1, [b]) && bs[i..i + 1] == [bs[i]];
    FreeAddrsSplice(bs, start, end, i, i + 1, [b]);
    assert FreeAddrs([b]) == {b.addr} by { assert [b][0] == b; }
    assert FreeAddrs([bs[i]]) <= {b.addr};
  }

  lemma MarkDescribed(was: Memory, now: Memory, linked: set<nat>, bs: seq<Block>, start: nat, end: nat, i: nat)
    requires Tiles(bs, start, end) && i < |bs|
    requires forall k :: 0 <= k < |bs| ==> Describes(was, bs[k])
    requires bs[i].addr in was && OnlyLinks(was[bs[i].addr := was[bs[i].addr].(isFree := true)], now, linked)
    ensures
      var up := bs[i := bs[i].(free := true)];
      forall k :: 0 <= k < |up| ==> Describes(now, up[k])
  {
    var up := bs[i := bs[i].(free := true)];
    forall k | 0 <= k < |up| ensures Describes(now, up[k]) {
      assert Describes(was, bs[k]);
      if k != i { TilesOrdered(bs, start, end, if k < i then k else i, if k < i then i else k); }
    }
  }

  lemma ReleaseUndisturbed(was: Memory, now: Memory, up: seq<Block>, start: nat, end: nat)
    requires Tiles(up, start, end) && KeptOutside(was, now, FreeAddrs(up))
    ensures Undisturbed(up, was, now)
  {
    forall k, a | 0 <= k < |up| && !up[k].free && up[k].Payload() <= a < up[k].End()
      ensures (a in was <==> a in now) && (a in was ==> now[a] == was[a])
    {
      NoBlockInside(up, start, end, k, a);
    }
  }

  /** Headers and links never lie in a live payload, so its owner cannot harm them. */
  lemma WriteKeepsFaithful(was: Memory, now: Memory, head: nat, list: seq<nat>, bs: seq<Block>, start: nat, end: nat, i: nat, slot: nat)
    requires Tiles(bs, start, end) && Faithful(was, head, list, bs)
    requires i < |bs| && !bs[i].free && bs[i].Payload() <= slot < bs[i].End()
    requires slot in now && now == was[slot := now[slot]]
    ensures Faithful(now, head, list, bs)
  {
    forall j | 0 <= j < |bs| ensures bs[j].addr != slot {
      if j < i { TilesOrdered(bs, start, end, j, i); }
      if i < j { TilesOrdered(bs, start, end, i, j); }
    }
    NoBlockInside(bs, start, end, i, slot);
    forall k | 0 <= k < |bs| ensures Describes(now, bs[k]) { assert Describes(was, bs[k]); }
    forall k | 0 <= k < |list| ensures LinkedAt(now, list, k) {
      assert LinkedAt(was, list, k);
      assert list[k] in Elements(list);
    }
  }

  function ListBytes(mem: Memory, list: seq<nat>): nat {
    if list == [] then 0
    else
      var a := list[|list| - 1];
      ListBytes(mem, list[..|list| - 1]) + (if a in mem then mem[a].size + HEADER else 0)
  }

  /** The free list, walked in order, adds up to the free blocks. */
  lemma {:induction false} ListAccounts(mem: Memory, list: seq<nat>, bs: seq<Block>, start: nat, end: nat)
    requires Tiles(bs, start, end) && forall i :: 0 <= i < |bs| ==> Describes(mem, bs[i])
    requires Ordered(list) && Elements(list) == FreeAddrs(bs)
    ensures ListBytes(mem, list) == FreeBytes(bs) && |list| == FreeCount(bs)
    decreases |bs|
  {
    var n := |bs| - 1;
    var b, front := bs[n], bs[..n];
    LastAddr(bs);
    LastDescribed(mem, bs, start, end);
    assert FreeBytes(bs) == FreeBytes(front) + (if b.free then b.size + HEADER else 0);
    assert FreeCount(bs) == FreeCount(front) + (if b.free then 1 else 0);
    NoneFree();
    hide FreeBytes, FreeCount, FreeAddrs, Describes;
    var rest := list;
    if b.free {
      forall x | x in FreeAddrs(front) ensures x < b.addr { FreeBefore(bs, start, end, x); }
      LastIsLargest(list, FreeAddrs(front), b.addr);
      rest := list[..|list| - 1];
    }
    if front == [] {
      HeadIsElement(rest);
    } else {
      ListAccounts(mem, rest, front, start, b.addr);
    }
  }

  lemma LastAddr(bs: seq<Block>)
    requires bs != []
    ensures
      var n := |bs| - 1;
      FreeAddrs(bs) == FreeAddrs(bs[..n]) + (if bs[n].free then {bs[n].addr} else {})
  {
    var n := |bs| - 1;
    assert bs == bs[..n] + [bs[n]] && [bs[n]][0] == bs[n];
    FreeAddrsConcat(bs[..n], [bs[n]]);
  }

  lemma NoneFree()
    ensures FreeBytes([]) == 0 && FreeCount([]) == 0 && FreeAddrs([]) == {}
  {
  }

  lemma LastDescribed(mem: Memory, bs: seq<Block>, start: nat, end: nat)
    requires Tiles(bs, start, end) && forall i :: 0 <= i < |bs| ==> Describes(mem, bs[i])
    ensures
      var n := |bs| - 1;
      && bs[n].addr in mem && mem[bs[n].addr].size == bs[n].size
      && (n > 0 ==> Tiles(bs[..n], start, bs[n].addr)) && forall i :: 0 <= i < n ==> Describes(mem, bs[..n][i])
  {
    var n := |bs| - 1;
    assert Describes(mem, bs[n]);
    assert n > 0 ==> bs[n].addr == bs[n - 1].End();
  }

  lemma FreeBefore(bs: seq<Block>, start: nat, end: nat, x: nat)
    requires Tiles(bs, start, end) && x in FreeAddrs(bs[..|bs| - 1])
    ensures x < bs[|bs| - 1].addr
  {
    var i :| 0 <= i < |bs| - 1 && bs[i].addr == x;
    TilesOrdered(bs, start, end, i, |bs| - 1);
  }

  lemma HeadIsElement(list: seq<nat>)
    ensures list == [] || list[0] in Elements(list)
  {
  }

  lemma LastIsLargest(list: seq<nat>, below: set<nat>, a: nat)
    requires Ordered(list) && Elements(list) == below + {a} && forall x :: x in below ==> x < a
    ensures |list| > 0 && list[|list| - 1] == a
    ensures Ordered(list[..|list| - 1]) && Elements(list[..|list| - 1]) == below
  {
    assert a in Elements(list);
    var k :| 0 <= k < |list| && list[k] == a;
    var n := |list| - 1;
    assert list[n] in Elements(list);
    WithoutIsSmaller(list, n);
    assert Without(list, n) == list[..n];
  }
}
