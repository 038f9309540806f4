/**
 The kernel heap as a list of blocks: what splitting, merging and growing do to
 the list, and why the blocks always tile the memory obtained for the heap.
 */
module HeapBlocks {
  import opened Common

  const HEADER := 32
  const PAGE := 4096
  const ALIGN := 16

  /** A block: a header at addr, followed by its payload. */
  datatype Block = Block(addr: nat, size: nat, free: bool) {
    function Payload(): nat { addr + HEADER }
    function End(): nat { addr + HEADER + size }
    predicate Holds(x: nat) { addr <= x < End() }
  }

  /** Memory the heap got from the page allocator. */
  datatype Region = Region(start: nat, len: nat) {
    predicate Holds(x: nat) { start <= x < start + len }
  }

  predicate Apart(a: Block, b: Block) { a.End() <= b.addr || b.End() <= a.addr }

  /** Two neighbours in the list that ought to be one block. */
  predicate Mergeable(a: Block, b: Block) { a.free && b.free && a.End() == b.addr }

  ghost predicate InRegions(rs: seq<Region>, x: nat) { exists r :: r in rs && r.Holds(x) }

  ghost predicate InBlocks(bs: seq<Block>, x: nat) { exists b :: b in bs && b.Holds(x) }

  /** Every byte of the regions, and no other, lies in a block. */
  ghost predicate Tiles(bs: seq<Block>, rs: seq<Region>) {
    forall x :: InRegions(rs, x) <==> InBlocks(bs, x)
  }

  /** A block follows its predecessor in memory too, or it starts a region. */
  ghost predicate InOrder(bs: seq<Block>, rs: seq<Region>) {
    forall i :: 0 <= i < |bs| ==> Placed(bs, rs, i)
  }

  ghost predicate Placed(bs: seq<Block>, rs: seq<Region>, i: nat)
    requires i < |bs|
  {
    (i > 0 && bs[i].addr == bs[i - 1].End()) || StartsRegion(rs, bs[i].addr)
  }

  ghost predicate StartsRegion(rs: seq<Region>, a: nat) { exists r :: r in rs && r.start == a }

  ghost predicate AllApart(bs: seq<Block>) {
    forall i, j :: 0 <= i < j < |bs| ==> Apart(bs[i], bs[j])
  }

  ghost predicate AllAligned(bs: seq<Block>) {
    forall b :: b in bs ==> b.addr > 0 && b.addr % ALIGN == 0 && b.size % ALIGN == 0 && b.End() <= U64
  }

  ghost predicate Shape(bs: seq<Block>, rs: seq<Region>) {
    AllAligned(bs) && AllApart(bs) && Tiles(bs, rs) && InOrder(bs, rs)
  }

  /** No two neighbours in the list are both free and adjacent in memory. */
  ghost predicate Coalesced(bs: seq<Block>) {
    forall i :: 0 <= i < |bs| - 1 ==> !Mergeable(bs[i], bs[i + 1])
  }

  // --------------------------------------------------------------- the changes

  function Merged(bs: seq<Block>, i: nat): seq<Block>
    requires i + 1 < |bs|
  {
    bs[..i] + [bs[i].(size := bs[i].size + HEADER + bs[i + 1].size)] + bs[i + 2..]
  }

  function SplitAt(bs: seq<Block>, i: nat, n: nat): seq<Block>
    requires i < |bs| && n + HEADER <= bs[i].size
  {
    bs[..i] + [bs[i].(size := n), Block(bs[i].addr + HEADER + n, bs[i].size - n - HEADER, true)] + bs[i + 1..]
  }

  function Marked(bs: seq<Block>, i: nat, free: bool): seq<Block>
    requires i < |bs|
  {
    bs[i := bs[i].(free := free)]
  }

  // ------------------------------------------------------------------- merging

  lemma MergedAt(bs: seq<Block>, i: nat)
    requires i + 1 < |bs|
    ensures var m := Merged(bs, i);
            && |m| == |bs| - 1 && m[i] == bs[i].(size := bs[i].size + HEADER + bs[i + 1].size)
            && forall j :: 0 <= j < |m| && j != i ==> m[j] == if j < i then bs[j] else bs[j + 1]
  {
  }

  lemma HeldBy(bs: seq<Block>, i: nat, x: nat)
    requires i < |bs| && bs[i].Holds(x)
    ensures InBlocks(bs, x)
  {
  }

  lemma MergedHolds(bs: seq<Block>, i: nat, x: nat)
    requires i + 1 < |bs| && bs[i].End() == bs[i + 1].addr
    ensures InBlocks(Merged(bs, i), x) <==> InBlocks(bs, x)
  {
    var m := Merged(bs, i);
    MergedAt(bs, i);
    hide Merged, InBlocks;
    if j: nat :| j < |bs| && bs[j].Holds(x) {
      HeldBy(bs, j, x);
      HeldBy(m, if j <= i then j else j - 1, x);
    } else {
      NotHeld(bs, x);
      assert forall j :: 0 <= j < |m| ==> !m[j].Holds(x) by {
        assert !bs[i].Holds(x) && !bs[i + 1].Holds(x);
      }
      NotHeld(m, x);
    }
  }

  lemma NotHeld(bs: seq<Block>, x: nat)
    requires forall j :: 0 <= j < |bs| ==> !bs[j].Holds(x)
    ensures !InBlocks(bs, x)
  {
  }

  lemma MergedTiles(bs: seq<Block>, rs: seq<Region>, i: nat)
    requires i + 1 < |bs| && Tiles(bs, rs) && bs[i].End() == bs[i + 1].addr
    ensures Tiles(Merged(bs, i), rs)
  {
    hide InRegions, InBlocks;
    forall x: nat
      ensures InBlocks(Merged(bs, i), x) <==> InBlocks(bs, x)
    {
      MergedHolds(bs, i, x);
    }
  }

  lemma MergedInOrder(bs: seq<Block>, rs: seq<Region>, i: nat)
    requires i + 1 < |bs| && InOrder(bs, rs) && bs[i].End() == bs[i + 1].addr
    ensures InOrder(Merged(bs, i), rs)
  {
    hide StartsRegion;
    MergedAt(bs, i);
    var m := Merged(bs, i);
    forall j | 0 <= j < |m|
      ensures Placed(m, rs, j)
    {
      var k := if j <= i then j else j + 1;
      assert Placed(bs, rs, k);
      assert m[j].addr == bs[k].addr;
      assert j > 0 ==> m[j - 1].End() == bs[k - 1].End();
    }
  }

  lemma MergedShape(bs: seq<Block>, rs: seq<Region>, i: nat)
    requires i + 1 < |bs| && Shape(bs, rs) && bs[i].End() == bs[i + 1].addr
    ensures Shape(Merged(bs, i), rs)
  {
    hide Tiles, InOrder, AllAligned;
    MergedTiles(bs, rs, i);
    MergedInOrder(bs, rs, i);
    MergedAt(bs, i);
    var m := Merged(bs, i);
    forall j, k | 0 <= j < k < |m|
      ensures Apart(m[j], m[k])
    {
      MergedApart(bs, i, j, k);
    }
    MergedAligned(bs, i);
  }

  lemma MergedApart(bs: seq<Block>, i: nat, j: nat, k: nat)
    requires i + 1 < |bs| && AllApart(bs) && bs[i].End() == bs[i + 1].addr && j < k < |bs| - 1
    ensures Apart(Merged(bs, i)[j], Merged(bs, i)[k])
  {
    MergedAt(bs, i);
    var j', k' := if j <= i then j else j + 1, if k <= i then k else k + 1;
    assert Apart(bs[j'], bs[k']);
    assert j == i ==> Apart(bs[i + 1], bs[k']);
    assert k == i ==> Apart(bs[j'], bs[i + 1]);
  }

  lemma MergedAligned(bs: seq<Block>, i: nat)
    requires i + 1 < |bs| && AllAligned(bs) && bs[i].End() == bs[i + 1].addr
    ensures AllAligned(Merged(bs, i))
  {
    MergedAt(bs, i);
    assert bs[i] in bs && bs[i + 1] in bs;
  }

  /** Block i takes in its free successor, then its free predecessor takes in block i. */
  function MergeAround(bs: seq<Block>, i: nat): seq<Block>
    requires i < |bs|
  {
    var a := if i + 1 < |bs| && Mergeable(bs[i], bs[i + 1]) then Merged(bs, i) else bs;
    if i > 0 && Mergeable(a[i - 1], a[i]) then Merged(a, i - 1) else a
  }

  /** Only pairs with block i in them may be left to merge. */
  ghost predicate CoalescedBut(bs: seq<Block>, i: nat) {
    forall j :: 0 <= j < |bs| - 1 && j != i && j + 1 != i ==> !Mergeable(bs[j], bs[j + 1])
  }

  lemma MergeNextCoalesced(bs: seq<Block>, i: nat)
    requires i + 1 < |bs| && CoalescedBut(bs, i) && Mergeable(bs[i], bs[i + 1])
    ensures var m := Merged(bs, i); CoalescedBut(m, i) && (i + 1 < |m| ==> !Mergeable(m[i], m[i + 1]))
  {
    var m := Merged(bs, i);
    MergedAt(bs, i);
    assert i + 1 < |m| ==> !Mergeable(bs[i + 1], bs[i + 1 + 1]);
    forall j | 0 <= j < |m| - 1 && j != i && j + 1 != i
      ensures !Mergeable(m[j], m[j + 1])
    {
      var k := if j < i then j else j + 1;
      assert !Mergeable(bs[k], bs[k + 1]);
    }
  }

  lemma MergePrevCoalesced(bs: seq<Block>, i: nat)
    requires 0 < i < |bs| && CoalescedBut(bs, i) && Mergeable(bs[i - 1], bs[i])
    requires i + 1 < |bs| ==> !Mergeable(bs[i], bs[i + 1])
    ensures Coalesced(Merged(bs, i - 1))
  {
    var m := Merged(bs, i - 1);
    MergedAt(bs, i - 1);
    forall j | 0 <= j < |m| - 1
      ensures !Mergeable(m[j], m[j + 1])
    {
      var k := if j < i - 1 then j else j + 1;
      assert !Mergeable(bs[k], bs[k + 1]);
    }
  }

  lemma MergeAroundCoalesced(bs: seq<Block>, i: nat)
    requires i < |bs| && CoalescedBut(bs, i)
    ensures Coalesced(MergeAround(bs, i))
  {
    hide Merged;
    var a := bs;
    if i + 1 < |bs| && Mergeable(bs[i], bs[i + 1]) {
      MergeNextCoalesced(bs, i);
      MergedAt(bs, i);
      a := Merged(bs, i);
    }
    if i > 0 && Mergeable(a[i - 1], a[i]) {
      MergePrevCoalesced(a, i);
    } else {
      forall j | 0 <= j < |a| - 1
        ensures !Mergeable(a[j], a[j + 1])
      {
      }
    }
  }

  // ----------------------------------------------------------------- splitting

  lemma SplitAtAt(bs: seq<Block>, i: nat, n: nat)
    requires i < |bs| && n + HEADER <= bs[i].size
    ensures var m := SplitAt(bs, i, n);
            && |m| == |bs| + 1 && m[i] == bs[i].(size := n)
            && m[i + 1] == Block(bs[i].addr + HEADER + n, bs[i].size - n - HEADER, true)
            && forall j :: 0 <= j < |m| && j != i && j != i + 1 ==> m[j] == if j < i then bs[j] else bs[j - 1]
  {
  }

  lemma SplitHolds(bs: seq<Block>, i: nat, n: nat, x: nat)
    requires i < |bs| && n + HEADER <= bs[i].size
    ensures InBlocks(SplitAt(bs, i, n), x) <==> InBlocks(bs, x)
  {
    var m := SplitAt(bs, i, n);
    SplitAtAt(bs, i, n);
    hide SplitAt, InBlocks;
    if j: nat :| j < |bs| && bs[j].Holds(x) {
      HeldBy(bs, j, x);
      HeldBy(m, if j < i || (j == i && x < m[i].End()) then j else j + 1, x);
    } else {
      NotHeld(bs, x);
      assert forall j :: 0 <= j < |m| ==> !m[j].Holds(x) by {
        assert !bs[i].Holds(x);
      }
      NotHeld(m, x);
    }
  }

  lemma SplitTiles(bs: seq<Block>, rs: seq<Region>, i: nat, n: nat)
    requires i < |bs| && n + HEADER <= bs[i].size && Tiles(bs, rs)
    ensures Tiles(SplitAt(bs, i, n), rs)
  {
    hide InRegions, InBlocks;
    forall x: nat
      ensures InBlocks(SplitAt(bs, i, n), x) <==> InBlocks(bs, x)
    {
      SplitHolds(bs, i, n, x);
    }
  }

  lemma SplitInOrder(bs: seq<Block>, rs: seq<Region>, i: nat, n: nat)
    requires i < |bs| && n + HEADER <= bs[i].size && InOrder(bs, rs)
    ensures InOrder(SplitAt(bs, i, n), rs)
  {
    hide StartsRegion;
    SplitAtAt(bs, i, n);
    var m := SplitAt(bs, i, n);
    forall j | 0 <= j < |m|
      ensures Placed(m, rs, j)
    {
      var k := if j <= i then j else j - 1;
      assert Placed(bs, rs, k);
      assert j != i + 1 ==> m[j].addr == bs[k].addr && (j > 0 ==> m[j - 1].End() == bs[k - 1].End());
    }
  }

  lemma SplitShape(bs: seq<Block>, rs: seq<Region>, i: nat, n: nat)
    requires i < |bs| && n + HEADER <= bs[i].size && n % ALIGN == 0 && Shape(bs, rs)
    ensures Shape(SplitAt(bs, i, n), rs)
  {
    hide Tiles, InOrder;
    SplitTiles(bs, rs, i, n);
    SplitInOrder(bs, rs, i, n);
    SplitAtAt(bs, i, n);
    var m := SplitAt(bs, i, n);
    assert forall j :: 0 <= j < |bs| ==> bs[j] in bs;
    forall j, k | 0 <= j < k < |m|
      ensures Apart(m[j], m[k])
    {
      var j', k' := if j <= i then j else j - 1, if k <= i then k else k - 1;
      assert j' < k' ==> Apart(bs[j'], bs[k']);
    }
  }

  /** Splitting keeps the list coalesced exactly when what follows is not a free neighbour of the remainder. */
  lemma SplitCoalesced(bs: seq<Block>, i: nat, n: nat)
    requires i < |bs| && n + HEADER <= bs[i].size && Coalesced(bs)
    ensures Coalesced(Marked(SplitAt(bs, i, n), i, false)) <==>
            !(i + 1 < |bs| && bs[i + 1].free && bs[i].End() == bs[i + 1].addr)
  {
    var m := Marked(SplitAt(bs, i, n), i, false);
    SplitAtAt(bs, i, n);
    if i + 1 < |bs| {
      assert m[i + 2] == bs[i + 1];
      assert m[i + 1].End() == bs[i].End();
      assert Mergeable(m[i + 1], m[i + 2]) <==> bs[i + 1].free && bs[i].End() == bs[i + 1].addr;
    }
    if !(i + 1 < |bs| && bs[i + 1].free && bs[i].End() == bs[i + 1].addr) {
      forall j | 0 <= j < |m| - 1
        ensures !Mergeable(m[j], m[j + 1])
      {
        if j < i - 1 {
          assert !Mergeable(bs[j], bs[j + 1]);
        } else if j > i + 1 {
          assert !Mergeable(bs[j - 1], bs[j]);
        }
      }
    }
  }

  // ------------------------------------------------------------------- growing

  ghost predicate Fresh(rs: seq<Region>, r: Region) {
    && r.start > 0 && r.len > 0 && r.start + r.len <= U64
    && forall x :: r.Holds(x) ==> !InRegions(rs, x)
  }

  lemma AppendTiles(bs: seq<Block>, rs: seq<Region>, b: Block, r: Region)
    requires Tiles(bs, rs) && r == Region(b.addr, HEADER + b.size)
    ensures Tiles(bs + [b], rs + [r])
  {
    forall x: nat
      ensures InRegions(rs + [r], x) <==> InBlocks(bs + [b], x)
    {
      assert InRegions(rs + [r], x) <==> InRegions(rs, x) || r.Holds(x) by {
        assert (rs + [r])[|rs|] == r;
      }
      assert InBlocks(bs + [b], x) <==> InBlocks(bs, x) || b.Holds(x) by {
        assert (bs + [b])[|bs|] == b;
      }
    }
  }

  lemma AppendShape(bs: seq<Block>, rs: seq<Region>, b: Block, r: Region)
    requires Shape(bs, rs) && Fresh(rs, r) && r == Region(b.addr, HEADER + b.size)
    requires b.addr % ALIGN == 0 && b.size % ALIGN == 0
    ensures Shape(bs + [b], rs + [r])
  {
    AppendTiles(bs, rs, b, r);
    forall i | 0 <= i < |bs|
      ensures Apart(bs[i], b)
    {
      FreshApart(bs, rs, i, b, r);
    }
    forall i | 0 <= i < |bs| + 1
      ensures Placed(bs + [b], rs + [r], i)
    {
      assert r in rs + [r];
      assert i < |bs| ==> Placed(bs, rs, i);
      if i < |bs| {
        assert (bs + [b])[i] == bs[i] && (i > 0 ==> (bs + [b])[i - 1] == bs[i - 1]);
        if StartsRegion(rs, bs[i].addr) {
          var q :| q in rs && q.start == bs[i].addr;
          assert q in rs + [r];
        }
      } else {
        assert (bs + [b])[i] == b;
      }
    }
  }

  lemma FreshApart(bs: seq<Block>, rs: seq<Region>, i: nat, b: Block, r: Region)
    requires Tiles(bs, rs) && i < |bs| && Fresh(rs, r) && r == Region(b.addr, HEADER + b.size)
    ensures Apart(bs[i], b)
  {
    var x := if bs[i].addr < b.addr then b.addr else bs[i].addr;
    assert bs[i].Holds(x) ==> InBlocks(bs, x);
    assert bs[i].Holds(x) ==> !r.Holds(x);
  }

  // --------------------------------------------------------------- live payloads

  /** The payloads that were handed out and not yet returned, with the sizes asked for. */
  type Live = map<nat, nat>

  ghost predicate LiveOk(bs: seq<Block>, live: Live) {
    && (forall p :: p in live ==> exists i :: 0 <= i < |bs| && LiveAt(bs[i], p, live[p]))
    && (forall i :: 0 <= i < |bs| && !bs[i].free ==> bs[i].Payload() in live)
  }

  predicate LiveAt(b: Block, p: nat, n: nat) { b.Payload() == p && !b.free && n <= b.size }

  /** The blocks in use are the same. */
  ghost predicate SameUsed(bs: seq<Block>, bs': seq<Block>) {
    forall b: Block :: !b.free ==> (b in bs <==> b in bs')
  }

  lemma MergedUsed(bs: seq<Block>, i: nat)
    requires i + 1 < |bs| && bs[i].free && bs[i + 1].free
    ensures SameUsed(bs, Merged(bs, i))
  {
    var m := Merged(bs, i);
    MergedAt(bs, i);
    forall b: Block | !b.free
      ensures b in bs <==> b in m
    {
      if b in bs {
        var j :| 0 <= j < |bs| && bs[j] == b;
        assert m[if j < i then j else j - 1] == b;
      }
    }
  }

  lemma MergeAroundUsed(bs: seq<Block>, i: nat)
    requires i < |bs|
    ensures SameUsed(bs, MergeAround(bs, i))
  {
    hide Merged;
    var a := bs;
    if i + 1 < |bs| && Mergeable(bs[i], bs[i + 1]) {
      MergedUsed(bs, i);
      MergedAt(bs, i);
      a := Merged(bs, i);
    }
    if i > 0 && Mergeable(a[i - 1], a[i]) {
      MergedUsed(a, i - 1);
    }
  }

  lemma SameUsedLive(bs: seq<Block>, bs': seq<Block>, live: Live)
    requires SameUsed(bs, bs') && LiveOk(bs, live)
    ensures LiveOk(bs', live)
  {
    forall p | p in live
      ensures exists i :: 0 <= i < |bs'| && LiveAt(bs'[i], p, live[p])
    {
      var i :| 0 <= i < |bs| && LiveAt(bs[i], p, live[p]);
      assert bs[i] in bs';
    }
  }

  /** Block i is handed out for a request of n bytes. */
  lemma TakenLive(bs: seq<Block>, live: Live, i: nat, n: nat)
    requires i < |bs| && LiveOk(bs, live) && bs[i].free && n <= bs[i].size && AllApart(bs)
    ensures bs[i].Payload() !in live && LiveOk(Marked(bs, i, false), live[bs[i].Payload() := n])
  {
    var m, p := Marked(bs, i, false), bs[i].Payload();
    PayloadOnce(bs, live, i);
    assert LiveAt(m[i], p, n);
    forall q | q in live
      ensures exists j :: 0 <= j < |m| && LiveAt(m[j], q, live[q])
    {
      var j :| 0 <= j < |bs| && LiveAt(bs[j], q, live[q]);
      assert LiveAt(m[j], q, live[q]);
    }
  }

  lemma PayloadOnce(bs: seq<Block>, live: Live, i: nat)
    requires i < |bs| && LiveOk(bs, live) && AllApart(bs)
    ensures bs[i].Payload() in live <==> !bs[i].free
  {
    if bs[i].Payload() in live {
      var j :| 0 <= j < |bs| && LiveAt(bs[j], bs[i].Payload(), live[bs[i].Payload()]);
      assert i < j ==> Apart(bs[i], bs[j]);
      assert j < i ==> Apart(bs[j], bs[i]);
    }
  }

  lemma ReturnedLive(bs: seq<Block>, live: Live, i: nat)
    requires i < |bs| && LiveOk(bs, live) && AllApart(bs)
    ensures LiveOk(Marked(bs, i, true), live - {bs[i].Payload()})
  {
    var m, l := Marked(bs, i, true), live - {bs[i].Payload()};
    forall q | q in l
      ensures exists j :: 0 <= j < |m| && LiveAt(m[j], q, l[q])
    {
      var j :| 0 <= j < |bs| && LiveAt(bs[j], q, live[q]);
      assert LiveAt(m[j], q, l[q]);
    }
    forall j | 0 <= j < |m| && !m[j].free
      ensures m[j].Payload() in l
    {
      assert i < j ==> Apart(bs[i], bs[j]);
      assert j < i ==> Apart(bs[j], bs[i]);
    }
  }

  lemma SplitUsed(bs: seq<Block>, i: nat, n: nat)
    requires i < |bs| && n + HEADER <= bs[i].size && bs[i].free
    ensures SameUsed(bs, SplitAt(bs, i, n))
  {
    var m := SplitAt(bs, i, n);
    SplitAtAt(bs, i, n);
    forall b: Block | !b.free
      ensures b in bs <==> b in m
    {
      if b in bs {
        var j :| 0 <= j < |bs| && bs[j] == b;
        assert m[if j < i then j else j + 1] == b;
      }
    }
  }

  lemma MarkedShape(bs: seq<Block>, rs: seq<Region>, i: nat, free: bool)
    requires Shape(bs, rs) && i < |bs|
    ensures Shape(Marked(bs, i, free), rs)
  {
    hide InRegions, StartsRegion;
    var m := Marked(bs, i, free);
    forall x: nat
      ensures InBlocks(m, x) <==> InBlocks(bs, x)
    {
      if InBlocks(bs, x) {
        var j :| 0 <= j < |bs| && bs[j].Holds(x);
        assert m[j] in m && m[j].Holds(x);
      }
      if InBlocks(m, x) {
        var j :| 0 <= j < |m| && m[j].Holds(x);
        assert bs[j] in bs && bs[j].Holds(x);
      }
    }
    forall j | 0 <= j < |m|
      ensures Placed(m, rs, j)
    {
      assert Placed(bs, rs, j);
    }
    forall j, k | 0 <= j < k < |m|
      ensures Apart(m[j], m[k])
    {
      assert Apart(bs[j], bs[k]);
    }
    assert forall j :: 0 <= j < |bs| ==> bs[j] in bs;
  }

  lemma BlockInside(bs: seq<Block>, rs: seq<Region>, b: Block, x: nat)
    requires Tiles(bs, rs) && b in bs && b.Holds(x)
    ensures InRegions(rs, x)
  {
    assert InBlocks(bs, x);
  }

  lemma LiveApart(bs: seq<Block>, live: Live, p: nat, q: nat)
    requires AllApart(bs) && LiveOk(bs, live) && p in live && q in live
    ensures p != q ==> p + live[p] <= q || q + live[q] <= p
  {
    var i :| 0 <= i < |bs| && LiveAt(bs[i], p, live[p]);
    var j :| 0 <= j < |bs| && LiveAt(bs[j], q, live[q]);
    assert i < j ==> Apart(bs[i], bs[j]);
    assert j < i ==> Apart(bs[j], bs[i]);
  }

  /** Memory in use is aligned, inside the heap's regions, and nobody else's. */
  lemma LivePayloads(bs: seq<Block>, rs: seq<Region>, live: Live, p: nat, q: nat)
    requires Shape(bs, rs) && LiveOk(bs, live) && p in live && q in live
    ensures p % ALIGN == 0 && p > 0
    ensures p != q ==> p + live[p] <= q || q + live[q] <= p
    ensures forall x :: p <= x < p + live[p] ==> InRegions(rs, x)
  {
    hide InRegions, InOrder, Tiles, AllApart;
    LiveApart(bs, live, p, q);
    var i :| 0 <= i < |bs| && LiveAt(bs[i], p, live[p]);
    assert bs[i] in bs;
    forall x | p <= x < p + live[p]
      ensures InRegions(rs, x)
    {
      BlockInside(bs, rs, bs[i], x);
    }
  }

  ghost function Starts(rs: seq<Region>): set<nat> { set r | r in rs :: r.start }

  lemma {:induction false} StartsSize(rs: seq<Region>)
    ensures |Starts(rs)| <= |rs|
  {
    if rs == [] {
      assert Starts(rs) == {};
    } else {
      var n := |rs| - 1;
      StartsSize(rs[..n]);
      assert rs == rs[..n] + [rs[n]];
      assert Starts(rs) == Starts(rs[..n]) + {rs[n].start};
    }
  }

  ghost function Addrs(bs: seq<Block>): set<nat> { set b | b in bs :: b.addr }

  lemma {:induction false} AddrsSize(bs: seq<Block>)
    requires AllApart(bs)
    ensures |Addrs(bs)| == |bs|
  {
    if bs == [] {
      assert Addrs(bs) == {};
    } else {
      var n := |bs| - 1;
      AddrsSize(bs[..n]);
      AddrsSplit(bs);
      NewAddr(bs);
    }
  }

  lemma AddrsSplit(bs: seq<Block>)
    requires bs != []
    ensures Addrs(bs) == Addrs(bs[..|bs| - 1]) + {bs[|bs| - 1].addr}
  {
    assert bs == bs[..|bs| - 1] + [bs[|bs| - 1]];
  }

  lemma NewAddr(bs: seq<Block>)
    requires AllApart(bs) && bs != []
    ensures bs[|bs| - 1].addr !in Addrs(bs[..|bs| - 1])
  {
    var n := |bs| - 1;
    forall i | 0 <= i < n
      ensures bs[..n][i].addr != bs[n].addr
    {
      assert Apart(bs[i], bs[n]);
    }
  }

  /** When everything has been returned, no fragmentation is left: there are at most as many blocks as regions. */
  lemma AllReturned(bs: seq<Block>, rs: seq<Region>, live: Live)
    requires Shape(bs, rs) && Coalesced(bs) && LiveOk(bs, live) && live == map[]
    ensures |bs| <= |rs|
    ensures forall i :: 0 <= i < |bs| ==> bs[i].free && StartsRegion(rs, bs[i].addr)
  {
    hide Tiles, StartsRegion;
    assert forall i :: 0 <= i < |bs| ==> bs[i].free;
    forall i | 0 <= i < |bs|
      ensures StartsRegion(rs, bs[i].addr)
    {
      assert Placed(bs, rs, i);
      assert i > 0 ==> !Mergeable(bs[i - 1], bs[i - 1 + 1]);
    }
    assert forall i :: 0 <= i < |bs| ==> bs[i].addr in Starts(rs) by { StartIn(bs, rs); }
    AddrsSize(bs);
    StartsSize(rs);
    assert Addrs(bs) <= Starts(rs);
    SubsetSize(Addrs(bs), Starts(rs));
  }

  lemma StartIn(bs: seq<Block>, rs: seq<Region>)
    requires forall i :: 0 <= i < |bs| ==> StartsRegion(rs, bs[i].addr)
    ensures forall i :: 0 <= i < |bs| ==> bs[i].addr in Starts(rs)
  {
  }

  lemma SubsetSize(a: set<nat>, b: set<nat>)
    requires a <= b
    ensures |a| <= |b|
  {
    assert b == a + (b - a);
  }

  // ----------------------------------------------------------------- sizes

  /** heap_align: rounded up to 16 bytes, in 64-bit arithmetic. */
  function HeapAlign(n: nat): nat { (n + ALIGN - 1) % U64 / ALIGN * ALIGN }

  /** How many pages a request makes the heap ask for. */
  function GrowPages(n: nat): nat {
    var total := (HeapAlign(n) + HEADER) % U64;
    var pages := (total + PAGE - 1) % U64 / PAGE;
    if pages == 0 then 1 else pages
  }

  /** The payload that the new block claims to have. */
  function GrownSize(n: nat): nat { (GrowPages(n) * PAGE - HEADER) % U64 }

  /** Above this the page count does not fit the 32 bits it is passed in. */
  const MAX_REQUEST := U32 * PAGE - PAGE - HEADER

  lemma HeapAlignFits(n: nat)
    requires n <= U64 - ALIGN
    ensures HeapAlign(n) % ALIGN == 0 && n <= HeapAlign(n) < n + ALIGN
  {
  }

  lemma PagesFor(total: nat)
    ensures var pages := (total + PAGE - 1) / PAGE; total <= pages * PAGE < total + PAGE
  {
  }

  /** Up to MAX_REQUEST nothing wraps. */
  lemma SmallGrowth(n: nat)
    requires n <= MAX_REQUEST
    ensures 0 < GrowPages(n) < U32 && HeapAlign(n) % ALIGN == 0 && n <= HeapAlign(n)
    ensures GrownSize(n) == GrowPages(n) * PAGE - HEADER >= HeapAlign(n) && GrownSize(n) % ALIGN == 0
  {
    hide HeapAlign;
    HeapAlignFits(n);
    assert HeapAlign(n) <= MAX_REQUEST by { BelowMax(n); }
    var total := HeapAlign(n) + HEADER;
    PagesFor(total);
    assert GrowPages(n) == (total + PAGE - 1) / PAGE;
  }

  lemma BelowMax(n: nat)
    requires n <= MAX_REQUEST
    ensures HeapAlign(n) <= MAX_REQUEST
  {
  }

  /** Above it, either a sum wraps and the block is too small, or the page count is cut to 32 bits. */
  lemma LargeGrowth(n: nat)
    requires MAX_REQUEST < n < U64
    ensures GrowPages(n) == 1 || (U32 <= GrowPages(n) && GrowPages(n) * PAGE < U64)
  {
    hide HeapAlign;
    HugeAlign(n);
    var total := (HeapAlign(n) + HEADER) % U64;
    if HeapAlign(n) == 0 || HeapAlign(n) + HEADER >= U64 || total + PAGE - 1 >= U64 {
      WrappedPages(HeapAlign(n), total);
    } else {
      PagesFor(total);
    }
  }

  lemma HugeAlign(n: nat)
    requires MAX_REQUEST < n < U64
    ensures HeapAlign(n) == 0 || n <= HeapAlign(n) < U64
    ensures HeapAlign(n) % ALIGN == 0
  {
  }

  lemma WrappedPages(a: nat, total: nat)
    requires a < U64 && total == (a + HEADER) % U64 && (a == 0 || a + HEADER >= U64 || total + PAGE - 1 >= U64)
    ensures (total + PAGE - 1) % U64 / PAGE <= 1
  {
  }

  lemma CutCount(pages: nat)
    requires pages >= U32
    ensures pages % U32 * PAGE < pages * PAGE
  {
  }

  /** Growth fits the request and claims no more than it got, exactly up to MAX_REQUEST. */
  lemma GrowthFits(n: nat)
    requires n < U64
    ensures GrownSize(n) >= n && GrownSize(n) + HEADER == GrowPages(n) % U32 * PAGE <==> n <= MAX_REQUEST
  {
    hide HeapAlign, GrowPages;
    if n <= MAX_REQUEST {
      SmallGrowth(n);
    } else {
      LargeGrowth(n);
      if GrowPages(n) != 1 {
        CutCount(GrowPages(n));
      }
    }
  }
}
