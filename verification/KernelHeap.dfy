/**
 The kernel heap: a first-fit allocator over a doubly linked list of blocks
 whose headers lie in the memory it manages. `hdr` is that memory, as far as
 headers go; a header that was absorbed by a merge stays where it was.
 */
module KernelHeap {
  import opened Arithmetic
  import opened Common
  import opened HeapBlocks

  datatype Header = Header(size: nat, free: bool, next: nat, prev: nat)

  /** A list of more blocks than this is not searched to its end. */
  const GUARD := 1_000_000

  // --------------------------------------------------------------- the linked list

  /** The address of block i, zero outside the list. */
  function At(bs: seq<Block>, i: int): nat { if 0 <= i < |bs| then bs[i].addr else 0 }

  function HeaderOf(bs: seq<Block>, i: nat): Header
    requires i < |bs|
  {
    Header(bs[i].size, bs[i].free, At(bs, i + 1), At(bs, i - 1))
  }

  /** The headers reachable from head and tail are those of the blocks, in both directions. */
  ghost predicate Linked(hdr: map<nat, Header>, head: nat, tail: nat, bs: seq<Block>) {
    && head == At(bs, 0) && tail == At(bs, |bs| - 1)
    && forall i :: 0 <= i < |bs| ==> LinkedAt(hdr, bs, i)
  }

  ghost predicate LinkedAt(hdr: map<nat, Header>, bs: seq<Block>, i: nat)
    requires i < |bs|
  {
    bs[i].addr in hdr && hdr[bs[i].addr] == HeaderOf(bs, i)
  }

  ghost predicate Distinct(bs: seq<Block>) {
    && (forall i, j :: 0 <= i < j < |bs| ==> bs[i].addr != bs[j].addr)
    && (forall i :: 0 <= i < |bs| ==> bs[i].addr != 0)
  }

  lemma ShapeDistinct(bs: seq<Block>, rs: seq<Region>)
    requires Shape(bs, rs)
    ensures Distinct(bs)
  {
    hide Tiles, InOrder;
    forall i, j | 0 <= i < j < |bs|
      ensures bs[i].addr != bs[j].addr
    {
      assert Apart(bs[i], bs[j]);
    }
    forall i | 0 <= i < |bs|
      ensures bs[i].addr != 0
    {
      assert bs[i] in bs;
    }
  }

  lemma LinkedMark(hdr: map<nat, Header>, head: nat, tail: nat, bs: seq<Block>, i: nat, free: bool)
    requires Linked(hdr, head, tail, bs) && Distinct(bs) && i < |bs| && LinkedAt(hdr, bs, i)
    ensures Linked(hdr[bs[i].addr := hdr[bs[i].addr].(free := free)], head, tail, Marked(bs, i, free))
  {
    var m, hdr' := Marked(bs, i, free), hdr[bs[i].addr := hdr[bs[i].addr].(free := free)];
    forall j | 0 <= j < |m|
      ensures LinkedAt(hdr', m, j)
    {
      assert LinkedAt(hdr, bs, j);
    }
  }

  lemma LinkedMerge(hdr: map<nat, Header>, head: nat, tail: nat, bs: seq<Block>, i: nat, hdr': map<nat, Header>, tail': nat)
    requires Linked(hdr, head, tail, bs) && Distinct(bs) && i + 1 < |bs| && LinkedAt(hdr, bs, i) && LinkedAt(hdr, bs, i + 1)
    requires var b, n := bs[i].addr, bs[i + 1].addr;
             var h := hdr[b := hdr[b].(size := hdr[b].size + HEADER + hdr[n].size, next := hdr[n].next)];
             if hdr[n].next != 0 then hdr[n].next in h && hdr' == h[hdr[n].next := h[hdr[n].next].(prev := b)] && tail' == tail
             else hdr' == h && tail' == b
    ensures Linked(hdr', head, tail', Merged(bs, i))
  {
    var m := Merged(bs, i);
    MergedAt(bs, i);
    forall j | 0 <= j < |m|
      ensures LinkedAt(hdr', m, j)
    {
      var k := if j <= i then j else j + 1;
      assert m[j].addr == bs[k].addr;
      assert LinkedAt(hdr, bs, k);
    }
  }

  lemma LinkedSplit(hdr: map<nat, Header>, head: nat, tail: nat, bs: seq<Block>, i: nat, n: nat, hdr': map<nat, Header>, tail': nat)
    requires Linked(hdr, head, tail, bs) && Distinct(bs) && i < |bs| && n + HEADER <= bs[i].size && Distinct(SplitAt(bs, i, n)) && LinkedAt(hdr, bs, i)
    requires var b := bs[i].addr; var rest := b + HEADER + n; var next := hdr[b].next;
             var h := hdr[rest := Header(hdr[b].size - n - HEADER, true, next, b)];
             if next != 0 then next in h && hdr' == h[next := h[next].(prev := rest)][b := hdr[b].(next := rest, size := n)] && tail' == tail
             else hdr' == h[b := hdr[b].(next := rest, size := n)] && tail' == rest
    ensures Linked(hdr', head, tail', SplitAt(bs, i, n))
  {
    var m := SplitAt(bs, i, n);
    SplitAtAt(bs, i, n);
    forall j | 0 <= j < |m|
      ensures LinkedAt(hdr', m, j)
    {
      var k := if j <= i then j else j - 1;
      assert LinkedAt(hdr, bs, k);
      assert j != i + 1 ==> m[j].addr == bs[k].addr != m[i + 1].addr;
    }
  }

  lemma LinkedAppend(hdr: map<nat, Header>, head: nat, tail: nat, bs: seq<Block>, b: Block, hdr': map<nat, Header>, head': nat)
    requires Linked(hdr, head, tail, bs) && Distinct(bs + [b])
    requires var h := hdr[b.addr := Header(b.size, b.free, 0, tail)];
             if tail != 0 then tail in h && hdr' == h[tail := h[tail].(next := b.addr)] && head' == head
             else hdr' == h && head' == b.addr
    ensures Linked(hdr', head', b.addr, bs + [b])
  {
    var m := bs + [b];
    assert m[|bs|] == b;
    assert forall i :: 0 <= i < |bs| ==> m[i] == bs[i];
    forall j | 0 <= j < |m|
      ensures LinkedAt(hdr', m, j)
    {
      if j < |bs| {
        assert LinkedAt(hdr, bs, j);
      }
    }
  }

  // ------------------------------------------------------------------- the heap

  /** The first free block that is large enough. */
  ghost predicate FirstFit(bs: seq<Block>, n: nat, i: nat) {
    && i < |bs| && Fits(bs[i], n)
    && forall j :: 0 <= j < i ==> !Fits(bs[j], n)
  }

  /** A header that was absorbed is still there to be read. */
  ghost predicate Stays(hdr: map<nat, Header>, hdr': map<nat, Header>, a: nat) {
    a in hdr ==> a in hdr' && hdr'[a] == hdr[a]
  }

  predicate Fits(b: Block, n: nat) { b.free && b.size >= n }

  class Heap {
    var hdr: map<nat, Header>
    var head: nat
    var tail: nat
    ghost var blocks: seq<Block>
    ghost var regions: seq<Region>
    ghost var live: Live

    /** The list is well formed and tiles the regions. */
    ghost predicate Sound()
      reads this
    {
      Linked(hdr, head, tail, blocks) && Shape(blocks, regions)
    }

    ghost predicate Valid()
      reads this
    {
      Sound() && Coalesced(blocks) && LiveOk(blocks, live)
    }

    constructor ()
      ensures Valid() && blocks == [] && regions == [] && live == map[]
    {
      hdr, head, tail := map[], 0, 0;
      blocks, regions, live := [], [], map[];
    }

    lemma Here(i: nat)
      requires Sound() && i < |blocks|
      ensures Distinct(blocks) && LinkedAt(hdr, blocks, i)
      ensures blocks[i].addr in hdr && hdr[blocks[i].addr] == HeaderOf(blocks, i)
    {
      hide Shape;
      ShapeDistinct(blocks, regions);
      assert LinkedAt(hdr, blocks, i);
    }

    /** Walks the list for the first fit. */
    method FindFit(n: nat) returns (block: nat, ghost i: nat)
      requires Sound()
      ensures block != 0 ==> FirstFit(blocks, n, i) && block == blocks[i].addr
      ensures block == 0 ==> forall j :: 0 <= j < |blocks| ==> !Fits(blocks[j], n)
    {
      hide Shape, Linked;
      ShapeDistinct(blocks, regions);
      i := 0;
      ListStart();
      block := head;
      while block != 0
        invariant 0 <= i <= |blocks| && block == At(blocks, i)
        invariant forall j :: 0 <= j < i ==> !Fits(blocks[j], n)
        decreases |blocks| - i
      {
        Here(i);
        if hdr[block].free && hdr[block].size >= n {
          return;
        }
        block := hdr[block].next;
        i := i + 1;
      }
    }

    lemma ListStart()
      requires Sound()
      ensures head == At(blocks, 0) && tail == At(blocks, |blocks| - 1)
    {
    }

    /** Whether a header address is in the list, looking at no more than a million and one blocks. */
    method BlockInList(needle: nat) returns (found: bool, ghost i: nat)
      requires Sound()
      ensures found ==> i < |blocks| && i <= GUARD && blocks[i].addr == needle
      ensures !found ==> forall j :: 0 <= j < |blocks| && j <= GUARD ==> blocks[j].addr != needle
    {
      hide Shape, Linked;
      ShapeDistinct(blocks, regions);
      i := 0;
      if needle == 0 {
        return false, 0;
      }
      ListStart();
      var cur, guard := head, 0;
      while cur != 0
        invariant 0 <= i <= |blocks| && cur == At(blocks, i) && guard == i <= GUARD
        invariant forall j :: 0 <= j < i ==> blocks[j].addr != needle
        decreases |blocks| - i
      {
        if cur == needle {
          return true, i;
        }
        guard := guard + 1;
        if guard > GUARD {
          return false, i;
        }
        Here(i);
        cur := hdr[cur].next;
        i := i + 1;
      }
      return false, i;
    }

    /** Block b takes in the next block n, which follows it in memory. */
    method Absorb(b: nat, n: nat, ghost i: nat)
      requires Sound() && i + 1 < |blocks| && b == blocks[i].addr && n == blocks[i + 1].addr && blocks[i].End() == n
      modifies this`hdr, this`tail, this`blocks
      ensures Sound() && blocks == Merged(old(blocks), i)
      ensures Stays(old(hdr), hdr, n)
    {
      hide Shape, Linked, Merged;
      Here(i);
      Here(i + 1);
      var after := hdr[n].next;
      if i + 2 < |blocks| {
        Here(i + 2);
      }
      ghost var hdr0, tail0 := hdr, tail;
      hdr := hdr[b := hdr[b].(size := hdr[b].size + HEADER + hdr[n].size, next := after)];
      if after != 0 {
        hdr := hdr[after := hdr[after].(prev := b)];
      } else {
        tail := b;
      }
      LinkedMerge(hdr0, head, tail0, blocks, i, hdr, tail);
      MergedShape(blocks, regions, i);
      blocks := Merged(blocks, i);
    }

    /** Merges a free block with its free neighbours. */
    method MergeIfPossible(b: nat, ghost i: nat)
      requires Sound() && i < |blocks| && b == blocks[i].addr && blocks[i].free
      modifies this`hdr, this`tail, this`blocks
      ensures Sound() && blocks == MergeAround(old(blocks), i)
      ensures (i + 1 < |old(blocks)| && Mergeable(old(blocks)[i], old(blocks)[i + 1]) &&
               !(i > 0 && Mergeable(old(blocks)[i - 1], old(blocks)[i]))) ==>
                Stays(old(hdr), hdr, old(blocks)[i + 1].addr)
    {
      hide Shape, Linked, Merged;
      Here(i);
      ghost var bs := blocks;
      if i + 1 < |blocks| {
        Here(i + 1);
      }
      var next := hdr[b].next;
      if next != 0 && hdr[next].free && b + HEADER + hdr[b].size == next {
        Absorb(b, next, i);
        MergedAt(bs, i);
      }
      Here(i);
      if i > 0 {
        Here(i - 1);
      }
      var prev := hdr[b].prev;
      if prev != 0 && hdr[prev].free && prev + HEADER + hdr[prev].size == b {
        Absorb(prev, b, i - 1);
      }
    }

    /** Cuts a block to n bytes if the rest is worth a block of its own. */
    method SplitBlock(b: nat, n: nat, ghost i: nat)
      requires Sound() && i < |blocks| && b == blocks[i].addr && n <= MAX_REQUEST && n % ALIGN == 0
      modifies this`hdr, this`tail, this`blocks
      ensures Sound()
      ensures blocks == if old(blocks)[i].size <= n + HEADER + 16 then old(blocks) else SplitAt(old(blocks), i, n)
    {
      hide Shape, Linked, SplitAt, HeapAlign;
      Here(i);
      AlignedAlready(n);
      var aligned := HeapAlign(n);
      if hdr[b].size <= aligned + HEADER + 16 {
        return;
      }
      SplitShape(blocks, regions, i, n);
      ShapeDistinct(SplitAt(blocks, i, n), regions);
      ghost var hdr0, tail0 := hdr, tail;
      var rest, next := b + HEADER + aligned, hdr[b].next;
      if i + 1 < |blocks| {
        Here(i + 1);
      }
      var h := hdr[b];
      hdr := hdr[rest := Header(h.size - aligned - HEADER, true, next, b)];
      if next != 0 {
        hdr := hdr[next := hdr[next].(prev := rest)];
      } else {
        tail := rest;
      }
      hdr := hdr[b := h.(next := rest, size := aligned)];
      LinkedSplit(hdr0, head, tail0, blocks, i, n, hdr, tail);
      blocks := SplitAt(blocks, i, n);
    }

    /** Puts a block at the end of the list. */
    method InsertBlock(b: nat, size: nat)
      requires Sound() && b % ALIGN == 0 && size % ALIGN == 0 && Fresh(regions, Region(b, HEADER + size))
      modifies this`hdr, this`head, this`tail, this`blocks, this`regions
      ensures Sound() && blocks == old(blocks) + [Block(b, size, true)] && regions == old(regions) + [Region(b, HEADER + size)]
    {
      hide Shape, Linked, Fresh;
      ghost var block, r := Block(b, size, true), Region(b, HEADER + size);
      AppendShape(blocks, regions, block, r);
      ShapeDistinct(blocks + [block], regions + [r]);
      ListStart();
      if |blocks| > 0 {
        Here(|blocks| - 1);
      }
      EmptyTail();
      ghost var hdr0, head0, tail0 := hdr, head, tail;
      hdr := hdr[b := Header(size, true, 0, tail)];
      if tail != 0 {
        hdr := hdr[tail := hdr[tail].(next := b)];
      } else {
        head := b;
      }
      tail := b;
      LinkedAppend(hdr0, head0, tail0, blocks, block, hdr, head);
      blocks, regions := blocks + [block], regions + [r];
    }

    lemma EmptyTail()
      requires Sound()
      ensures tail == 0 <==> blocks == []
    {
      hide Shape;
      ShapeDistinct(blocks, regions);
    }

    /** Gets pages for a request of n bytes; `mem` is what the page allocator returns. */
    method Grow(n: nat, mem: nat) returns (b: nat, ghost i: nat)
      requires Valid() && n <= MAX_REQUEST && n % ALIGN == 0
      requires mem != 0 && mem % PAGE == 0 && Fresh(regions, Region(mem, GrowPages(n) * PAGE))
      modifies this
      ensures Valid() && live == old(live) && regions == old(regions) + [Region(mem, GrowPages(n) * PAGE)]
      ensures i < |blocks| && b == blocks[i].addr && Fits(blocks[i], n)
    {
      hide Shape, Linked, Fresh, Coalesced, LiveOk, HeapAlign, GrowPages, Merged;
      SmallGrowth(n);
      AlignedAlready(n);
      var pages := GrowPages(n);
      var size := pages * PAGE - HEADER;
      AlignedPages(mem);
      ghost var bs := blocks;
      InsertBlock(mem, size);
      AppendGrown(bs, live, blocks[|bs|]);
      b, i := JoinGrown(mem, bs);
    }

    /** The new block at the end of the list, or the free block before it that takes it in. */
    method JoinGrown(mem: nat, ghost bs: seq<Block>) returns (b: nat, ghost i: nat)
      requires Sound() && LiveOk(blocks, live) && Coalesced(bs)
      requires |blocks| == |bs| + 1 && blocks[..|bs|] == bs && blocks[|bs|].addr == mem && blocks[|bs|].free
      modifies this`hdr, this`tail, this`blocks
      ensures Valid() && i < |blocks| && b == blocks[i].addr && Fits(blocks[i], old(blocks)[|bs|].size)
    {
      hide Shape, Linked, Coalesced, LiveOk, Merged;
      ghost var k := |bs|;
      Here(k);
      b, i := mem, k;
      var prev := hdr[mem].prev;
      if k > 0 {
        Here(k - 1);
        NotMergedYet(bs, blocks, k);
      }
      if prev != 0 && hdr[prev].free && prev + HEADER + hdr[prev].size == mem {
        ghost var bs1 := blocks;
        MergeIfPossible(prev, k - 1);
        MergeAroundCoalesced(bs1, k - 1) by { OneNewPair(bs, bs1); }
        MergeAroundUsed(bs1, k - 1);
        SameUsedLive(bs1, blocks, live);
        MergedAt(bs1, k - 1);
        b, i := hdr[mem].prev, k - 1;
      } else {
        AllCoalesced(bs, blocks);
      }
    }

    /** Takes the free block i for a request: what is too much of it stays free. */
    method TakeBlock(b: nat, n: nat, ghost i: nat, ghost size: nat)
      requires Valid() && i < |blocks| && b == blocks[i].addr && Fits(blocks[i], n) && size <= n <= MAX_REQUEST && n % ALIGN == 0
      modifies this
      ensures Valid() && regions == old(regions) && i < |blocks| && blocks[i].addr == b && !blocks[i].free
      ensures b + HEADER !in old(live) && live == old(live)[b + HEADER := size]
      ensures n <= blocks[i].size <= n + HEADER + 16
    {
      hide Shape, Linked, Coalesced, LiveOk, SplitAt, Marked;
      ghost var bs := blocks;
      SplitBlock(b, n, i);
      TakenCoalesced(bs, blocks, i, n);
      TakenUsed(bs, blocks, live, i, n);
      Here(i);
      TakenMarked(blocks, regions, live, i, size);
      LinkedMark(hdr, head, tail, blocks, i, false);
      hdr := hdr[b := hdr[b].(free := false)];
      live := live[b + HEADER := size];
      blocks := Marked(blocks, i, false);
    }

    /** The kernel's malloc; it panics when no block fits and the page allocator has nothing (`mem` is zero). */
    method Kmalloc(size: nat, mem: nat) returns (ptr: nat, panic: bool)
      requires Valid() && size <= MAX_REQUEST
      requires mem != 0 ==> mem % PAGE == 0 && Fresh(regions, Region(mem, GrowPages(HeapAlign(size)) * PAGE))
      modifies this
      ensures Valid()
      ensures size == 0 || panic ==> ptr == 0 && unchanged(this)
      ensures panic <==> size > 0 && mem == 0 && NoFit(old(blocks), HeapAlign(size))
      ensures size > 0 && !panic ==>
                && ptr % ALIGN == 0 && ptr !in old(live) && live == old(live)[ptr := size]
                && regions == (if NoFit(old(blocks), HeapAlign(size)) then old(regions) + [Region(mem, GrowPages(HeapAlign(size)) * PAGE)]
                               else old(regions))
      ensures size > 0 && !panic ==> exists i: nat :: i < |blocks| && Holding(blocks[i], ptr, HeapAlign(size))
      ensures size > 0 && !NoFit(old(blocks), HeapAlign(size)) ==>
                exists i: nat :: FirstFit(old(blocks), HeapAlign(size), i) && ptr == old(blocks)[i].Payload()
    {
      hide Shape, Linked, Coalesced, LiveOk, HeapAlign, GrowPages, Fresh;
      ptr, panic := 0, false;
      if size == 0 {
        return;
      }
      var aligned := HeapAlign(size);
      AlignSmall(size);
      var b, i := FindFit(aligned);
      if b == 0 {
        if mem == 0 {
          return 0, true;
        }
        b, i := Grow(aligned, mem);
      }
      TakeBlock(b, aligned, i, size);
      ptr := b + HEADER;
      assert Holding(blocks[i], ptr, aligned);
      PayloadAligned(blocks, regions, i);
    }

    /** The kernel's free; it panics on anything that is not a live payload within reach of the list search. */
    method Kfree(ptr: nat) returns (panic: bool)
      requires Valid() && ptr < U64
      modifies this
      ensures panic ==> unchanged(this)
      ensures !panic ==> Valid() && regions == old(regions) && live == old(live) - {ptr}
      ensures panic <==> ptr != 0 && !Reachable(old(blocks), ptr)
      ensures |old(blocks)| <= GUARD + 1 ==> (panic <==> ptr != 0 && ptr !in old(live))
    {
      hide Shape, Linked, Coalesced, LiveOk, Marked, MergeAround;
      ListReach(blocks, regions, live, ptr);
      if ptr == 0 {
        return false;
      }
      var b := (ptr - HEADER) % U64;
      var found, i := BlockInList(b);
      if !found {
        Missed(blocks, ptr);
        return true;
      }
      Here(i);
      Hit(blocks, regions, i, ptr);
      if hdr[b].free {
        return true;
      }
      ghost var bs := blocks;
      FreedMarked(blocks, regions, live, i);
      LinkedMark(hdr, head, tail, blocks, i, true);
      hdr := hdr[b := hdr[b].(free := true)];
      blocks := Marked(blocks, i, true);
      live := live - {ptr};
      ghost var bs1 := blocks;
      MergeIfPossible(b, i);
      MergeAroundCoalesced(bs1, i);
      MergeAroundUsed(bs1, i);
      SameUsedLive(bs1, blocks, live);
      return false;
    }

    /** Room for `count` things of `size` bytes, or nothing when the product does not fit 64 bits. */
    method Kcalloc(count: nat, size: nat, mem: nat) returns (ptr: nat, panic: bool)
      requires Valid() && (count * size < U64 ==> count * size <= MAX_REQUEST)
      requires count * size < U64 && mem != 0 ==>
                 mem % PAGE == 0 && Fresh(regions, Region(mem, GrowPages(HeapAlign(count * size)) * PAGE))
      modifies this
      ensures Valid()
      ensures count * size == 0 || count * size >= U64 ==> ptr == 0 && !panic && unchanged(this)
      ensures 0 < count * size < U64 && !panic ==> ptr !in old(live) && live == old(live)[ptr := count * size]
      ensures panic ==> unchanged(this)
      ensures panic <==> 0 < count * size < U64 && mem == 0 && NoFit(old(blocks), HeapAlign(count * size))
    {
      hide Shape, Linked, Coalesced, LiveOk, HeapAlign, GrowPages, Fresh;
      if count == 0 || size == 0 {
        return 0, false;
      }
      var total := count * size % U64;
      ProductFits(count, size);
      Wrapped(count * size);
      if total / size != count {
        return 0, false;
      }
      ptr, panic := Kmalloc(total, mem);
    }

    /** The first region of the heap; a heap that has one is left alone. */
    method Init(pages: nat, mem: nat)
      requires Valid() && pages < U32
      requires mem != 0 && mem % PAGE == 0 && Fresh(regions, Region(mem, (if pages == 0 then 16 else pages) * PAGE))
      modifies this
      ensures Valid() && live == old(live)
      ensures old(blocks) != [] ==> unchanged(this)
      ensures old(blocks) == [] ==> blocks == [Block(mem, (if pages == 0 then 16 else pages) * PAGE - HEADER, true)]
    {
      hide Shape, Linked, Fresh, LiveOk, Coalesced;
      ListStart();
      ShapeDistinct(blocks, regions);
      if head != 0 {
        return;
      }
      var n := if pages == 0 then 16 else pages;
      AlignedPages(mem);
      RegionAligned(n);
      AppendGrown(blocks, live, Block(mem, n * PAGE - HEADER, true));
      InsertBlock(mem, n * PAGE - HEADER);
      OneBlock(blocks);
    }
  }

  /** Block b is in use at ptr, for n bytes, and at most too small a rest to split off is wasted. */
  predicate Holding(b: Block, ptr: nat, n: nat) {
    b.Payload() == ptr && !b.free && n <= b.size <= n + HEADER + 16
  }

  ghost predicate NoFit(bs: seq<Block>, n: nat) { forall i :: 0 <= i < |bs| ==> !Fits(bs[i], n) }

  /** ptr is the payload of a block in use that the list search reaches. */
  ghost predicate Reachable(bs: seq<Block>, ptr: nat) {
    exists i :: 0 <= i < |bs| && i <= GUARD && LiveAt(bs[i], ptr, 0)
  }

  lemma Missed(bs: seq<Block>, ptr: nat)
    requires 0 < ptr < U64 && forall j :: 0 <= j < |bs| && j <= GUARD ==> bs[j].addr != (ptr - HEADER) % U64
    ensures !Reachable(bs, ptr)
  {
  }

  lemma Hit(bs: seq<Block>, rs: seq<Region>, i: nat, ptr: nat)
    requires Shape(bs, rs) && i < |bs| && i <= GUARD && 0 < ptr < U64 && bs[i].addr == (ptr - HEADER) % U64
    ensures bs[i].Payload() == ptr && (Reachable(bs, ptr) <==> !bs[i].free)
  {
    hide Tiles, InOrder;
    ShapeDistinct(bs, rs);
    assert bs[i] in bs;
    assert !bs[i].free ==> LiveAt(bs[i], ptr, 0);
  }

  /** In a list of ordinary length, what the search reaches is what is live. */
  lemma ListReach(bs: seq<Block>, rs: seq<Region>, live: Live, ptr: nat)
    requires Shape(bs, rs) && LiveOk(bs, live)
    ensures |bs| <= GUARD + 1 ==> (Reachable(bs, ptr) <==> ptr in live)
    ensures 0 !in live
  {
    hide Tiles, InOrder;
    if ptr in live {
      var i :| 0 <= i < |bs| && LiveAt(bs[i], ptr, live[ptr]);
      assert LiveAt(bs[i], ptr, 0);
    }
  }

  lemma AlignSmall(size: nat)
    requires size <= MAX_REQUEST
    ensures size <= HeapAlign(size) <= MAX_REQUEST && HeapAlign(size) % ALIGN == 0
  {
    hide HeapAlign;
    HeapAlignFits(size);
    BelowMax(size);
  }

  lemma PayloadAligned(bs: seq<Block>, rs: seq<Region>, i: nat)
    requires Shape(bs, rs) && i < |bs|
    ensures bs[i].Payload() % ALIGN == 0
  {
    hide Tiles, InOrder;
    assert bs[i] in bs;
  }

  /** Splitting a free block, once it is taken, leaves a coalesced list: its successor was not a free neighbour. */
  lemma TakenCoalesced(bs: seq<Block>, m: seq<Block>, i: nat, n: nat)
    requires Coalesced(bs) && i < |bs| && Fits(bs[i], n)
    requires m == if bs[i].size <= n + HEADER + 16 then bs else SplitAt(bs, i, n)
    ensures i < |m| && m[i].addr == bs[i].addr && m[i].free && n <= m[i].size <= n + HEADER + 16
    ensures Coalesced(Marked(m, i, false))
  {
    if m != bs {
      SplitAtAt(bs, i, n);
      assert i + 1 < |bs| ==> !Mergeable(bs[i], bs[i + 1]);
      SplitCoalesced(bs, i, n);
    } else {
      MarkedCoalesced(bs, i);
    }
  }

  lemma MarkedCoalesced(bs: seq<Block>, i: nat)
    requires Coalesced(bs) && i < |bs|
    ensures Coalesced(Marked(bs, i, false))
  {
    var m := Marked(bs, i, false);
    forall j | 0 <= j < |m| - 1
      ensures !Mergeable(m[j], m[j + 1])
    {
      assert !Mergeable(bs[j], bs[j + 1]);
    }
  }

  lemma TakenUsed(bs: seq<Block>, m: seq<Block>, live: Live, i: nat, n: nat)
    requires LiveOk(bs, live) && i < |bs| && Fits(bs[i], n)
    requires m == if bs[i].size <= n + HEADER + 16 then bs else SplitAt(bs, i, n)
    ensures LiveOk(m, live)
  {
    hide LiveOk, SplitAt;
    if m != bs {
      SplitUsed(bs, i, n);
      SameUsedLive(bs, m, live);
    }
  }

  lemma TakenMarked(bs: seq<Block>, rs: seq<Region>, live: Live, i: nat, size: nat)
    requires Shape(bs, rs) && LiveOk(bs, live) && i < |bs| && bs[i].free && size <= bs[i].size
    ensures Shape(Marked(bs, i, false), rs) && bs[i].Payload() !in live
    ensures LiveOk(Marked(bs, i, false), live[bs[i].Payload() := size])
    ensures |Marked(bs, i, false)| == |bs| && Marked(bs, i, false)[i] == bs[i].(free := false)
  {
    hide Tiles, InOrder, LiveOk;
    MarkedShape(bs, rs, i, false);
    TakenLive(bs, live, i, size);
  }

  /** Freeing one block spoils the coalescing only around it. */
  lemma FreedMarked(bs: seq<Block>, rs: seq<Region>, live: Live, i: nat)
    requires Shape(bs, rs) && Coalesced(bs) && LiveOk(bs, live) && i < |bs|
    ensures Shape(Marked(bs, i, true), rs) && CoalescedBut(Marked(bs, i, true), i)
    ensures LiveOk(Marked(bs, i, true), live - {bs[i].Payload()})
    ensures |Marked(bs, i, true)| == |bs| && Marked(bs, i, true)[i] == bs[i].(free := true)
  {
    hide Tiles, InOrder, LiveOk;
    MarkedShape(bs, rs, i, true);
    ReturnedLive(bs, live, i);
    var m := Marked(bs, i, true);
    forall j | 0 <= j < |m| - 1 && j != i && j + 1 != i
      ensures !Mergeable(m[j], m[j + 1])
    {
      assert !Mergeable(bs[j], bs[j + 1]);
    }
  }

  lemma DivBelow(r: nat, size: nat, count: nat)
    requires size > 0 && r < count * size
    ensures r / size != count
  {
    assert r / size * size <= r;
  }

  lemma Wrapped(p: nat)
    ensures if p < U64 then p % U64 == p else p % U64 < p
  {
  }

  /** Dividing the wrapped product back tells exactly whether it had wrapped. */
  lemma ProductFits(count: nat, size: nat)
    requires size > 0
    ensures count * size % U64 / size == count <==> count * size < U64
  {
    var p := count * size;
    Wrapped(p);
    if p < U64 {
      DivMod(count, 0, size);
    } else {
      DivBelow(p % U64, size, count);
    }
  }

  /**
   Growing returns the block before the new one as it finds it in the absorbed
   header. That block is still listed exactly when its own predecessor was not
   waiting to be merged, which a coalesced list guarantees.
   */
  lemma GrownIsListed(m: seq<Block>, rs: seq<Region>, k: nat)
    requires Shape(m, rs) && 0 < k == |m| - 1 && Mergeable(m[k - 1], m[k])
    ensures m[k - 1].addr in Addrs(MergeAround(m, k - 1)) <==> !(k > 1 && Mergeable(m[k - 2], m[k - 1]))
  {
    hide Shape;
    ShapeDistinct(m, rs);
    var a := Merged(m, k - 1);
    MergedAt(m, k - 1);
    assert a[k - 1].addr == m[k - 1].addr && a[k - 1] in a;
    if k > 1 && Mergeable(m[k - 2], m[k - 1]) {
      assert a[k - 2] == m[k - 2];
      MergedAt(a, k - 2);
      var z := Merged(a, k - 2);
      assert forall j :: 0 <= j < |z| ==> z[j].addr == m[j].addr;
    }
  }

  /** A heap of one page: 512 bytes in use, the rest free. */
  function OnePage(): seq<Block> { [Block(0x1000, 512, false), Block(0x1220, 3520, true)] }

  lemma OnePageShape()
    ensures Shape(OnePage(), [Region(0x1000, PAGE)]) && Coalesced(OnePage())
  {
    var bs, rs := OnePage(), [Region(0x1000, PAGE)];
    forall x
      ensures InRegions(rs, x) <==> InBlocks(bs, x)
    {
      assert InRegions(rs, x) <==> rs[0].Holds(x);
      assert InBlocks(bs, x) <==> bs[0].Holds(x) || bs[1].Holds(x);
    }
    assert StartsRegion(rs, bs[0].addr) by { assert rs[0] in rs; }
    assert Placed(bs, rs, 0) && Placed(bs, rs, 1);
  }

  /**
   A block in use that gives up its tail next to a free block leaves two free
   neighbours unmerged: a heap as the code builds it, and a shrink above the
   threshold for splitting.
   */
  lemma ShrinkLeavesNeighbours()
    ensures exists bs: seq<Block>, rs, i: nat, n: nat ::
              && Shape(bs, rs) && Coalesced(bs) && i < |bs| && !bs[i].free && n % ALIGN == 0
              && n + HEADER + 16 < bs[i].size && Shape(SplitAt(bs, i, n), rs) && !Coalesced(SplitAt(bs, i, n))
  {
    hide Shape;
    var bs, rs := OnePage(), [Region(0x1000, PAGE)];
    OnePageShape();
    SplitShape(bs, rs, 0, 16);
    var m := SplitAt(bs, 0, 16);
    SplitAtAt(bs, 0, 16);
    assert Mergeable(m[1], m[1 + 1]);
  }

  /** Rounding a request up loses nothing exactly up to 2^64 - 16 bytes; from there on it gives zero. */
  lemma AlignExactly(n: nat)
    requires 0 < n < U64
    ensures HeapAlign(n) >= n <==> n <= U64 - ALIGN
    ensures n > U64 - ALIGN ==> HeapAlign(n) == 0
  {
  }

  /** For such a request every free block fits, so the first one is handed out, and it is too small. */
  lemma HugeRequest(bs: seq<Block>, rs: seq<Region>, n: nat, i: nat)
    requires Shape(bs, rs) && U64 - ALIGN < n < U64 && FirstFit(bs, HeapAlign(n), i)
    ensures bs[i].size < n && bs[i].free && forall j :: 0 <= j < i ==> !bs[j].free
  {
    hide HeapAlign, AllApart, Tiles, InOrder;
    AlignExactly(n);
    assert bs[i] in bs;
  }

  lemma AlignedAlready(n: nat)
    requires n <= MAX_REQUEST && n % ALIGN == 0
    ensures HeapAlign(n) == n
  {
  }

  lemma AlignedPages(a: nat)
    requires a % PAGE == 0
    ensures a % ALIGN == 0
  {
  }

  lemma RegionAligned(n: nat)
    requires n > 0
    ensures n * PAGE >= PAGE && (n * PAGE - HEADER) % ALIGN == 0
  {
  }

  lemma OneBlock(bs: seq<Block>)
    requires |bs| <= 1
    ensures Coalesced(bs)
  {
  }

  lemma AppendGrown(bs: seq<Block>, live: Live, b: Block)
    requires LiveOk(bs, live) && b.free
    ensures LiveOk(bs + [b], live)
  {
    assert SameUsed(bs, bs + [b]);
    SameUsedLive(bs, bs + [b], live);
  }

  lemma NotMergedYet(bs: seq<Block>, m: seq<Block>, k: nat)
    requires Coalesced(bs) && 0 < k == |bs| && |m| == k + 1 && m[..k] == bs
    ensures k > 1 ==> !Mergeable(m[k - 2], m[k - 1])
  {
    assert k > 1 ==> m[k - 2] == bs[k - 2] && m[k - 1] == bs[k - 2 + 1];
  }

  lemma OneNewPair(bs: seq<Block>, m: seq<Block>)
    requires Coalesced(bs) && |bs| > 0 && |m| == |bs| + 1 && m[..|bs|] == bs
    ensures CoalescedBut(m, |bs| - 1)
  {
    forall j | 0 <= j < |m| - 1 && j != |bs| - 1
      ensures !Mergeable(m[j], m[j + 1])
    {
      assert m[j] == bs[j] && m[j + 1] == bs[j + 1];
    }
  }

  lemma AllCoalesced(bs: seq<Block>, m: seq<Block>)
    requires Coalesced(bs) && |m| == |bs| + 1 && m[..|bs|] == bs
    requires |bs| > 0 ==> !Mergeable(m[|bs| - 1], m[|bs|])
    ensures Coalesced(m)
  {
    forall j | 0 <= j < |m| - 1
      ensures !Mergeable(m[j], m[j + 1])
    {
      assert j < |bs| - 1 ==> m[j] == bs[j] && m[j + 1] == bs[j + 1];
    }
  }
}
