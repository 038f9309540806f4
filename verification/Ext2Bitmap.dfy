/**
 Marking a block used or free in its group's bitmap: what changes, what does
 not, and how the free counters follow.
 */
module Ext2Bitmap {
  import opened Arithmetic
  import opened Ext2Layout
  import opened Ext2Disk

  /** The image after rewriting the bitmap block that holds b's bit. */
  function WithMark(g: Geo, d: Disk, b: nat, on: bool): (e: Disk)
    requires Shape(g, d) && g.InRange(b)
    ensures |e.blocks| == |d.blocks|
  {
    GroupBounds(g, b);
    var m := g.bitmap[g.GroupOf(b)];
    d.(blocks := d.blocks[m := SetBit(d.blocks[m], g.IndexOf(b), on)])
  }

  /** The image after b went from free to used, counters included. */
  function Taken(g: Geo, d: Disk, b: nat): (e: Disk)
    requires Shape(g, d) && g.InRange(b) && d.sbFree > 0
    requires forall i :: 0 <= i < |d.gdFree| ==> i == g.GroupOf(b) ==> d.gdFree[i] > 0
    ensures |e.blocks| == |d.blocks|
  {
    GroupBounds(g, b);
    WithMark(g, d, b, true).(sbFree := d.sbFree - 1,
                             gdFree := d.gdFree[g.GroupOf(b) := d.gdFree[g.GroupOf(b)] - 1])
  }

  /** The image after b went from used to free, counters included. */
  function Given(g: Geo, d: Disk, b: nat): Disk
    requires Shape(g, d) && g.InRange(b)
  {
    GroupBounds(g, b);
    WithMark(g, d, b, false).(sbFree := d.sbFree + 1,
                              gdFree := d.gdFree[g.GroupOf(b) := d.gdFree[g.GroupOf(b)] + 1])
  }

  lemma MarkFrame(g: Geo, d: Disk, b: nat, on: bool, c: nat)
    requires Shape(g, d) && g.InRange(b)
    ensures Shape(g, WithMark(g, d, b, on))
    ensures Marked(g, WithMark(g, d, b, on), c) == if c == b then on else Marked(g, d, c)
  {
    GroupBounds(g, b);
    if g.InRange(c) {
      GroupBounds(g, c);
      if g.GroupOf(c) == g.GroupOf(b) {
        SetBitFrame(d.blocks[g.bitmap[g.GroupOf(b)]], g.IndexOf(b), on, g.IndexOf(c));
      }
    }
  }

  /** Only the marks depend on the bitmap blocks; counters do not matter to them. */
  lemma MarkedIgnoresCounters(g: Geo, d: Disk, e: Disk, c: nat)
    requires d.blocks == e.blocks
    ensures Marked(g, d, c) == Marked(g, e, c)
  {
  }

  lemma TakenFreeSets(g: Geo, d: Disk, e: Disk, b: nat, grp: nat)
    requires Shape(g, d) && g.InRange(b) && !Marked(g, d, b)
    requires e.blocks == WithMark(g, d, b, true).blocks
    ensures FreeSet(g, e) == FreeSet(g, d) - {b}
    ensures FreeIn(g, e, grp) == FreeIn(g, d, grp) - {b}
    ensures b in FreeSet(g, d) && (b in FreeIn(g, d, grp) <==> grp == g.GroupOf(b))
  {
    forall c | g.InRange(c)
      ensures Marked(g, e, c) == (c == b || Marked(g, d, c))
    {
      MarkFrame(g, d, b, true, c);
      MarkedIgnoresCounters(g, e, WithMark(g, d, b, true), c);
    }
  }

  lemma GivenFreeSets(g: Geo, d: Disk, e: Disk, b: nat, grp: nat)
    requires Shape(g, d) && g.InRange(b) && Marked(g, d, b)
    requires e.blocks == WithMark(g, d, b, false).blocks
    ensures FreeSet(g, e) == FreeSet(g, d) + {b}
    ensures FreeIn(g, e, grp) == if grp == g.GroupOf(b) then FreeIn(g, d, grp) + {b} else FreeIn(g, d, grp)
    ensures b !in FreeSet(g, d) && b !in FreeIn(g, d, grp)
  {
    forall c | g.InRange(c)
      ensures Marked(g, e, c) == (c != b && Marked(g, d, c))
    {
      MarkFrame(g, d, b, false, c);
      MarkedIgnoresCounters(g, e, WithMark(g, d, b, false), c);
    }
  }

  /** A block that is free is counted, so neither counter can be zero. */
  lemma FreeIsCounted(g: Geo, d: Disk, b: nat)
    requires Shape(g, d) && Accounting(g, d) && g.InRange(b) && !Marked(g, d, b)
    ensures g.GroupOf(b) < |d.gdFree| && d.gdFree[g.GroupOf(b)] > 0 && d.sbFree > 0
  {
    GroupBounds(g, b);
    assert b in FreeSet(g, d);
    assert b in FreeIn(g, d, g.GroupOf(b));
  }

  lemma TakenAccounting(g: Geo, d: Disk, b: nat)
    requires Shape(g, d) && Accounting(g, d) && g.InRange(b) && !Marked(g, d, b)
    ensures d.sbFree > 0
    ensures forall i :: 0 <= i < |d.gdFree| ==> i == g.GroupOf(b) ==> d.gdFree[i] > 0
    ensures Shape(g, Taken(g, d, b)) && Accounting(g, Taken(g, d, b))
  {
    FreeIsCounted(g, d, b);
    MarkFrame(g, d, b, true, b);
    var e := Taken(g, d, b);
    TakenFreeSets(g, d, e, b, 0);
    forall i | 0 <= i < |g.bitmap|
      ensures e.gdFree[i] == |FreeIn(g, e, i)|
    {
      TakenFreeSets(g, d, e, b, i);
    }
  }

  lemma GivenAccounting(g: Geo, d: Disk, b: nat)
    requires Shape(g, d) && Accounting(g, d) && g.InRange(b) && Marked(g, d, b)
    ensures Shape(g, Given(g, d, b)) && Accounting(g, Given(g, d, b))
  {
    GroupBounds(g, b);
    MarkFrame(g, d, b, false, b);
    var e := Given(g, d, b);
    GivenFreeSets(g, d, e, b, 0);
    forall i | 0 <= i < |g.bitmap|
      ensures e.gdFree[i] == |FreeIn(g, e, i)|
    {
      GivenFreeSets(g, d, e, b, i);
    }
  }

  // ----------------------------------------------- counters stay in their width

  lemma {:induction false} BoundedSize(s: set<nat>, lo: nat, hi: nat)
    requires lo <= hi && forall b :: b in s ==> lo <= b < hi
    ensures |s| <= hi - lo
    decreases hi - lo
  {
    if lo < hi {
      BoundedSize(s - {hi - 1}, lo, hi - 1);
      assert s <= (s - {hi - 1}) + {hi - 1};
    } else {
      assert s == {};
    }
  }

  /** A group's counter fits the 16 bits of its descriptor, and never saturates. */
  lemma GroupCounterFits(g: Geo, d: Disk, grp: nat)
    requires Shape(g, d) && Accounting(g, d) && grp < |g.bitmap|
    ensures d.gdFree[grp] <= g.perGroup < U16MAX
  {
    var lo := g.first + grp * g.perGroup;
    var hi := lo + g.perGroup;
    forall b | b in FreeIn(g, d, grp)
      ensures lo <= b < hi
    {
      GroupBounds(g, b);
    }
    BoundedSize(FreeIn(g, d, grp), lo, hi);
  }

  lemma SuperCounterFits(g: Geo, d: Disk, b: nat)
    requires Shape(g, d) && Accounting(g, d) && g.InRange(b) && Marked(g, d, b)
    ensures d.sbFree < g.count - g.first <= U32MAX
  {
    hide Marked;
    BoundedSize(FreeSet(g, d) + {b}, g.first, g.count);
  }

  // ------------------------------------ the superblock counter is the sum of groups

  function Sum(xs: seq<nat>): nat {
    if xs == [] then 0 else Sum(xs[..|xs| - 1]) + xs[|xs| - 1]
  }

  ghost function FreeBelow(g: Geo, d: Disk, k: nat): set<nat>
    requires g.perGroup > 0
  {
    set b | g.first <= b < g.count && !Marked(g, d, b) && g.GroupOf(b) < k
  }

  lemma {:induction false} SumOfGroups(g: Geo, d: Disk, k: nat)
    requires Shape(g, d) && Accounting(g, d) && k <= |d.gdFree|
    ensures Sum(d.gdFree[..k]) == |FreeBelow(g, d, k)|
  {
    if k == 0 {
      assert FreeBelow(g, d, 0) == {};
    } else {
      SumOfGroups(g, d, k - 1);
      assert d.gdFree[..k][..k - 1] == d.gdFree[..k - 1];
      assert FreeBelow(g, d, k) == FreeBelow(g, d, k - 1) + FreeIn(g, d, k - 1);
    }
  }

  /** Superblock count = sum of the group counts = number of clear bits in range. */
  lemma CountersAgree(g: Geo, d: Disk)
    requires Shape(g, d) && Accounting(g, d)
    ensures d.sbFree == Sum(d.gdFree) == |FreeSet(g, d)|
  {
    SumOfGroups(g, d, |d.gdFree|);
    assert d.gdFree[..|d.gdFree|] == d.gdFree;
    forall b | b in FreeSet(g, d)
      ensures b in FreeBelow(g, d, |d.gdFree|)
    {
      GroupBounds(g, b);
    }
    assert FreeBelow(g, d, |d.gdFree|) == FreeSet(g, d);
  }

  // -------------------------------------------------------- the bitmap scan

  ghost predicate GroupMarked(g: Geo, d: Disk, grp: nat)
    requires g.perGroup > 0
  {
    forall c :: g.InRange(c) && g.GroupOf(c) == grp ==> Marked(g, d, c)
  }

  /** The blocks of group grp that lie on the device. */
  function GroupBlocks(g: Geo, grp: nat): nat {
    var total, gbase := g.count - g.first, grp * g.perGroup;
    if gbase >= total then 0 else if total - gbase > g.perGroup then g.perGroup else total - gbase
  }

  lemma EmptyCounter(g: Geo, d: Disk, grp: nat)
    requires Shape(g, d) && Accounting(g, d) && grp < |g.bitmap| && d.gdFree[grp] == 0
    ensures GroupMarked(g, d, grp)
  {
    hide Marked;
    assert FreeIn(g, d, grp) == {};
    forall c | g.InRange(c) && g.GroupOf(c) == grp
      ensures Marked(g, d, c)
    {
      assert c !in FreeIn(g, d, grp);
    }
  }

  lemma ScannedGroup(g: Geo, d: Disk, grp: nat)
    requires Shape(g, d) && grp < |g.bitmap|
    requires forall j :: 0 <= j < GroupBlocks(g, grp) ==> j / 8 < g.blockSize && Bit(d.blocks[g.bitmap[grp]], j)
    ensures GroupMarked(g, d, grp)
  {
    hide Bit;
    forall c | g.InRange(c) && g.GroupOf(c) == grp
      ensures Marked(g, d, c)
    {
      GroupBounds(g, c);
      assert g.IndexOf(c) < GroupBlocks(g, grp);
    }
  }

  lemma LowerBlock(g: Geo, grp: nat, bi: nat, c: nat)
    requires g.Ok() && g.InRange(c) && bi < g.perGroup && c < g.first + grp * g.perGroup + bi
    ensures g.GroupOf(c) < grp || (g.GroupOf(c) == grp && g.IndexOf(c) < bi)
  {
    GroupBounds(g, c);
    if g.GroupOf(c) > grp {
      MulMonotone(grp + 1, g.GroupOf(c), g.perGroup);
    }
  }

  lemma MarkedIsBit(g: Geo, d: Disk, b: nat)
    requires Shape(g, d) && g.InRange(b)
    ensures g.GroupOf(b) < |g.bitmap| && g.bitmap[g.GroupOf(b)] < |d.blocks| && g.IndexOf(b) / 8 < g.blockSize
    ensures Marked(g, d, b) == Bit(d.blocks[g.bitmap[g.GroupOf(b)]], g.IndexOf(b))
  {
    GroupBounds(g, b);
  }

  /** A clear bit whose predecessors are all set names the first free block. */
  lemma FirstFree(g: Geo, d: Disk, grp: nat, bi: nat)
    requires Shape(g, d) && grp < |g.bitmap| && bi < GroupBlocks(g, grp)
    requires forall k :: 0 <= k < grp ==> GroupMarked(g, d, k)
    requires forall j :: 0 <= j < bi ==> j / 8 < g.blockSize && Bit(d.blocks[g.bitmap[grp]], j)
    requires bi / 8 < g.blockSize && !Bit(d.blocks[g.bitmap[grp]], bi)
    ensures var b := g.first + grp * g.perGroup + bi;
            && g.InRange(b) && g.GroupOf(b) == grp && g.IndexOf(b) == bi && !Marked(g, d, b)
            && (forall c :: g.first <= c < b ==> Marked(g, d, c))
  {
    hide Bit, Marked;
    var b := g.first + grp * g.perGroup + bi;
    DivMod(grp, bi, g.perGroup);
    MarkedIsBit(g, d, b);
    forall c | g.first <= c < b
      ensures Marked(g, d, c)
    {
      LowerBlock(g, grp, bi, c);
      MarkedIsBit(g, d, c);
      if g.GroupOf(c) < grp {
        assert GroupMarked(g, d, g.GroupOf(c));
      }
    }
  }

  lemma NothingFree(g: Geo, d: Disk)
    requires Shape(g, d) && forall k :: 0 <= k < |g.bitmap| ==> GroupMarked(g, d, k)
    ensures FreeSet(g, d) == {}
  {
    hide Marked;
    forall b | g.InRange(b)
      ensures Marked(g, d, b)
    {
      GroupBounds(g, b);
      assert GroupMarked(g, d, g.GroupOf(b));
    }
  }
}
