/**
 Cutting an inode's block map off at a logical block: what is dropped, what the
 image looks like half way through, and what is left at the end.
 */
module Ext2Trim {
  import opened Arithmetic
  import opened Common
  import opened Ext2Layout
  import opened Ext2Disk
  import opened Ext2Bitmap
  import opened Ext2Attach
  import opened Ext2Grow
  import opened Ext2Tables

  /**
   Trimming to `target` blocks drops the data from there on, the sub-tables
   that start there or later, and the single and double indirect tables when
   nothing below `target` is left in them.
   */
  ghost predicate Drops(g: Geo, d: Disk, n: nat, s: Slot, target: nat) {
    match s
    case Indirect => forall i :: 0 <= i < g.PerBlock() && NDIR + i < target ==> At(d, n, IndEntry(i)) == 0
    case DoubleIndirect =>
      forall i :: 0 <= i < g.PerBlock() && Lbn(g, SubTable(i)) < target ==> At(d, n, SubTable(i)) == 0
    case _ => Lbn(g, s) >= target
  }

  /** The blocks that trimming inode n gives back. */
  ghost function Dropped(g: Geo, d: Disk, owner: Owners, n: nat, target: nat): set<nat> {
    set b | b in owner && owner[b].0 == n && Drops(g, d, n, owner[b].1, target)
  }

  /** What slot s of the trimmed inode holds afterwards. */
  ghost function Cut(g: Geo, d: Disk, n: nat, s: Slot, target: nat): nat {
    if Drops(g, d, n, s, target) then 0 else At(d, n, s)
  }

  /** e is the image d part way through trimming inode n, with `freed` given back so far. */
  ghost predicate Trimming(g: Geo, d: Disk, owner: Owners, n: nat, target: nat, e: Disk, freed: set<nat>) {
    && Shape(g, e) && |e.blocks| == |d.blocks| && e.inodes == d.inodes
    && freed <= Dropped(g, d, owner, n, target)
    && (forall b: nat :: Marked(g, e, b) <==> Marked(g, d, b) && b !in freed)
    && (forall c :: c in owner && c < |d.blocks| && (owner[c].0 != n || owner[c].1.Leaf()) ==> e.blocks[c] == d.blocks[c])
    && (forall s :: Lbn(g, s) < target ==> At(e, n, s) == At(d, n, s))
  }

  lemma TrimmingStart(g: Geo, d: Disk, owner: Owners, n: nat, target: nat)
    requires Shape(g, d)
    ensures Trimming(g, d, owner, n, target, d, {})
  {
  }

  // ------------------------------------------------------- write ordering

  /** Other inodes keep their whole map while n is trimmed. */
  lemma OthersKeep(g: Geo, d: Disk, owner: Owners, n: nat, target: nat, e: Disk, freed: set<nat>, m: nat, s: Slot)
    requires Sound(g, d, owner) && Trimming(g, d, owner, n, target, e, freed) && m != n
    ensures At(e, m, s) == At(d, m, s)
  {
    hide Marked, Accounting, Dropped;
    var ind, dbl := At(d, m, Indirect), At(d, m, DoubleIndirect);
    assert ind != 0 ==> owner[ind].0 == m && ind < |d.blocks|;
    assert dbl != 0 ==> owner[dbl].0 == m && dbl < |d.blocks|;
    if s.SubEntry? {
      var sub := At(d, m, SubTable(s.i));
      assert sub != 0 ==> owner[sub].0 == m && sub < |d.blocks|;
    }
  }

  lemma KeptIsNotDropped(g: Geo, d: Disk, owner: Owners, n: nat, target: nat, s: Slot)
    requires Sound(g, d, owner) && s.Leaf() && At(d, n, s) != 0 && Lbn(g, s) < target
    ensures At(d, n, s) !in Dropped(g, d, owner, n, target)
    ensures s.IndEntry? ==> At(d, n, Indirect) !in Dropped(g, d, owner, n, target)
    ensures s.SubEntry? ==> At(d, n, SubTable(s.i)) !in Dropped(g, d, owner, n, target)
                            && At(d, n, DoubleIndirect) !in Dropped(g, d, owner, n, target)
                            && Lbn(g, SubTable(s.i)) < target
  {
    hide Marked, Accounting;
    EntriesInRange(g, d, owner, n);
    if s.IndEntry? {
      assert At(d, n, Indirect) != 0;
    } else if s.SubEntry? {
      assert At(d, n, SubTable(s.i)) != 0;
      assert At(d, n, DoubleIndirect) != 0;
      assert s.i < g.PerBlock() by { assert owner[At(d, n, s)] == (n, s); }
    }
  }

  lemma TrimmingPath(g: Geo, d: Disk, owner: Owners, n: nat, target: nat, e: Disk, freed: set<nat>, m: nat, s: Slot)
    requires Sound(g, d, owner) && Trimming(g, d, owner, n, target, e, freed)
    requires s.Leaf() && At(e, m, s) != 0 && (m == n ==> Lbn(g, s) < target)
    ensures PathMarked(g, e, m, s)
  {
    hide Marked, Accounting, At, Drops, Lbn;
    OwnedIsCrashSafe(g, d, owner);
    if m == n {
      KeptIsNotDropped(g, d, owner, n, target, s);
      PathOwned(g, d, owner, n, s);
      LbnOfTables(g, s);
    } else {
      OthersKeep(g, d, owner, n, target, e, freed, m, s);
      OthersKeep(g, d, owner, n, target, e, freed, m, Indirect);
      OthersKeep(g, d, owner, n, target, e, freed, m, DoubleIndirect);
      if s.SubEntry? {
        OthersKeep(g, d, owner, n, target, e, freed, m, SubTable(s.i));
      }
      PathOwned(g, d, owner, m, s);
    }
  }

  lemma LbnOfTables(g: Geo, s: Slot)
    requires s.Leaf()
    ensures s.IndEntry? ==> Lbn(g, Indirect) <= Lbn(g, s)
    ensures s.SubEntry? ==> Lbn(g, SubTable(s.i)) <= Lbn(g, s) && Lbn(g, DoubleIndirect) <= Lbn(g, s)
  {
  }

  lemma PathOwned(g: Geo, d: Disk, owner: Owners, n: nat, s: Slot)
    requires OwnedBy(g, d, owner) && s.Leaf() && At(d, n, s) != 0
    ensures At(d, n, s) in owner && owner[At(d, n, s)].0 == n
    ensures s.IndEntry? ==> At(d, n, Indirect) in owner && owner[At(d, n, Indirect)].0 == n
    ensures s.SubEntry? ==>
              && At(d, n, SubTable(s.i)) in owner && owner[At(d, n, SubTable(s.i))].0 == n
              && At(d, n, DoubleIndirect) in owner && owner[At(d, n, DoubleIndirect)].0 == n
  {
    hide Marked;
    if s.IndEntry? {
      assert At(d, n, Indirect) != 0;
    } else if s.SubEntry? {
      assert At(d, n, SubTable(s.i)) != 0;
      assert At(d, n, DoubleIndirect) != 0;
    }
  }

  /** Half-trimmed images are crash safe once the on-disk size no longer reaches the cut. */
  lemma TrimmingIsCrashSafe(g: Geo, d: Disk, owner: Owners, n: nat, target: nat, e: Disk, freed: set<nat>)
    requires Sound(g, d, owner) && Trimming(g, d, owner, n, target, e, freed)
    requires n in d.inodes ==> d.inodes[n].Size() <= target * g.blockSize
    ensures CrashSafe(g, e)
  {
    hide Marked, Accounting, At, PathMarked, Lbn, OwnedBy, Dropped;
    forall m, s: Slot | m in e.inodes && s.Leaf() && At(e, m, s) != 0 && Lbn(g, s) * g.blockSize < e.inodes[m].Size()
      ensures PathMarked(g, e, m, s)
    {
      if m == n && Lbn(g, s) >= target {
        MulMonotone(target, Lbn(g, s), g.blockSize);
      }
      TrimmingPath(g, d, owner, n, target, e, freed, m, s);
    }
  }

  // ------------------------------------------------------------- the steps

  /** Giving back one more dropped block. */
  lemma TrimmingFree(g: Geo, d: Disk, owner: Owners, n: nat, target: nat, e: Disk, freed: set<nat>, b: nat)
    requires Sound(g, d, owner) && Trimming(g, d, owner, n, target, e, freed)
    requires b in Dropped(g, d, owner, n, target) && b !in freed
    ensures g.InRange(b) && Marked(g, e, b)
    ensures Trimming(g, d, owner, n, target, WithMark(g, e, b, false), freed + {b})
    ensures Trimming(g, d, owner, n, target, Given(g, e, b), freed + {b})
    ensures forall c :: c in owner ==>
              c < |e.blocks| && Given(g, e, b).blocks[c] == WithMark(g, e, b, false).blocks[c] == e.blocks[c]
  {
    hide Marked, Accounting, At, Drops, SetBit, Lbn;
    BitmapsAreNotOwned(g, d, owner, b);
    var w, f := WithMark(g, e, b, false), Given(g, e, b);
    forall c: nat
      ensures Marked(g, w, c) == (c != b && Marked(g, e, c)) && Marked(g, f, c) == Marked(g, w, c)
    {
      MarkFrame(g, e, b, false, c);
      MarkedIgnoresCounters(g, w, f, c);
    }
    forall s | Lbn(g, s) < target
      ensures At(w, n, s) == At(d, n, s) && At(f, n, s) == At(d, n, s)
    {
      MapBelow(g, d, owner, n, target, e, w, s);
      MapBelow(g, d, owner, n, target, e, f, s);
    }
  }

  /** The map below the cut only depends on the inode and its tables. */
  lemma MapBelow(g: Geo, d: Disk, owner: Owners, n: nat, target: nat, e: Disk, f: Disk, s: Slot)
    requires Sound(g, d, owner) && |e.blocks| == |f.blocks| == |d.blocks| && e.inodes == f.inodes == d.inodes
    requires forall t :: Lbn(g, t) < target ==> At(e, n, t) == At(d, n, t)
    requires forall c :: c in owner && c < |d.blocks| ==> f.blocks[c] == e.blocks[c]
    requires Lbn(g, s) < target
    ensures At(f, n, s) == At(d, n, s)
  {
    hide Marked, Accounting;
    assert At(d, n, Indirect) != 0 ==> At(d, n, Indirect) in owner;
    assert At(d, n, DoubleIndirect) != 0 ==> At(d, n, DoubleIndirect) in owner;
    if s.SubEntry? {
      assert Lbn(g, SubTable(s.i)) < target;
      assert At(d, n, SubTable(s.i)) != 0 ==> At(d, n, SubTable(s.i)) in owner;
    }
  }

  /** Rewriting a table of n whose entries below the cut stay as they were. */
  lemma TrimmingWrite(g: Geo, d: Disk, owner: Owners, n: nat, target: nat, e: Disk, freed: set<nat>, t: Table, data: Block)
    requires Sound(g, d, owner) && Trimming(g, d, owner, n, target, e, freed) && Accounting(g, e)
    requires !t.Directs? && Holder(d, n, SlotIn(t, 0)) != 0 && |data| == g.blockSize
    requires forall i :: 0 <= i < g.PerBlock() && Lbn(g, SlotIn(t, i)) < target ==>
                           4 * i + 4 <= |data| && Word(data, i) == At(d, n, SlotIn(t, i))
    ensures Holder(d, n, SlotIn(t, 0)) < |e.blocks|
    ensures Trimming(g, d, owner, n, target, WithBlock(e, Holder(d, n, SlotIn(t, 0)), data), freed)
    ensures Accounting(g, WithBlock(e, Holder(d, n, SlotIn(t, 0)), data))
  {
    hide Marked, Accounting, Drops, Lbn, Word, At;
    var h := Holder(d, n, SlotIn(t, 0));
    TableBlock(g, d, owner, n, t);
    var f := WithBlock(e, h, data);
    AccountingWithBlock(g, e, h, data);
    forall c: nat
      ensures Marked(g, f, c) == Marked(g, e, c)
    {
      MarkedWithBlock(g, e, h, data, c);
    }
    forall s | Lbn(g, s) < target
      ensures At(f, n, s) == At(d, n, s)
    {
      WriteBelow(g, d, owner, n, target, e, t, data, s);
    }
  }

  lemma TableBlock(g: Geo, d: Disk, owner: Owners, n: nat, t: Table)
    requires Sound(g, d, owner) && !t.Directs? && Holder(d, n, SlotIn(t, 0)) != 0
    ensures var h := Holder(d, n, SlotIn(t, 0));
            && h in owner && owner[h].0 == n && !owner[h].1.Leaf() && h < |d.blocks| && h !in g.reserved
            && owner[h].1 == (match t case Singles => Indirect case Doubles => DoubleIndirect case _ => SubTable(t.k))
  {
    hide Marked, Accounting;
  }

  lemma {:induction false} WriteBelow(g: Geo, d: Disk, owner: Owners, n: nat, target: nat, e: Disk, t: Table, data: Block, s: Slot)
    requires Sound(g, d, owner) && |e.blocks| == |d.blocks| && e.inodes == d.inodes
    requires forall r :: Lbn(g, r) < target ==> At(e, n, r) == At(d, n, r)
    requires !t.Directs? && Holder(d, n, SlotIn(t, 0)) != 0 && |data| == g.blockSize
    requires forall i :: 0 <= i < g.PerBlock() && Lbn(g, SlotIn(t, i)) < target ==>
                           4 * i + 4 <= |data| && Word(data, i) == At(d, n, SlotIn(t, i))
    requires Lbn(g, s) < target
    ensures Holder(d, n, SlotIn(t, 0)) < |e.blocks|
    ensures At(WithBlock(e, Holder(d, n, SlotIn(t, 0)), data), n, s) == At(d, n, s)
    decreases s.SubEntry?
  {
    hide Marked, Accounting, Word, ReservedMarked, Geo.MetadataReserved;
    var h := Holder(d, n, SlotIn(t, 0));
    TableBlock(g, d, owner, n, t);
    PerBlockBounds(g);
    var f := WithBlock(e, h, data);
    if s.IndEntry? {
      assert t != Singles ==> At(d, n, Indirect) != h;
      assert t == Singles ==> s == SlotIn(t, s.i);
    } else if s.SubTable? {
      assert t != Doubles ==> At(d, n, DoubleIndirect) != h;
      assert t == Doubles ==> s == SlotIn(t, s.i);
    } else if s.SubEntry? {
      assert Lbn(g, SubTable(s.i)) < target;
      WriteBelow(g, d, owner, n, target, e, t, data, SubTable(s.i));
      assert t != Subs(s.i) ==> At(d, n, SubTable(s.i)) != h;
      assert t == Subs(s.i) ==> s == SlotIn(t, s.j);
    }
  }

  // ---------------------------------------------------------- the accounts

  /** The on-disk size does not reach past the cut. */
  ghost predicate Covers(g: Geo, d: Disk, n: nat, target: nat) {
    n in d.inodes ==> d.inodes[n].Size() <= target * g.blockSize
  }

  /** Entry i of table t, if it is past the cut, holds a block to give back. */
  lemma TailEntry(g: Geo, d: Disk, owner: Owners, n: nat, target: nat, t: Table, i: nat)
    requires OwnedBy(g, d, owner) && !t.Doubles? && Lbn(g, SlotIn(t, i)) >= target && At(d, n, SlotIn(t, i)) != 0
    ensures At(d, n, SlotIn(t, i)) in Dropped(g, d, owner, n, target)
    ensures forall lo: nat, hi: nat :: lo <= i < hi ==> At(d, n, SlotIn(t, i)) in Range(owner, n, t, lo, hi)
  {
    hide Marked, At;
  }

  ghost predicate Zeroed(g: Geo, tab: Block, was: Block, keep: nat) {
    && |tab| == |was| == g.blockSize == 4 * g.PerBlock()
    && forall i :: 0 <= i < g.PerBlock() ==> Word(tab, i) == if i < keep then Word(was, i) else 0
  }

  /** Blanking the last entry that is still kept. */
  lemma ZeroedStep(g: Geo, tab: Block, was: Block, i: nat)
    requires Zeroed(g, tab, was, i + 1) && i < g.PerBlock()
    ensures Zeroed(g, SetWord(tab, i, 0), was, i)
    ensures Word(was, i) == 0 ==> Zeroed(g, tab, was, i)
  {
    hide Word, SetWord;
    forall j | 0 <= j < g.PerBlock()
      ensures Word(SetWord(tab, i, 0), j) == if j < i then Word(was, j) else 0
    {
      SetWordFrame(tab, i, 0, j);
    }
  }

  lemma ZeroedAt(g: Geo, tab: Block, was: Block, keep: nat, i: nat)
    requires Zeroed(g, tab, was, keep) && i < g.PerBlock()
    ensures 4 * i + 4 <= |tab| == |was| && Word(tab, i) == if i < keep then Word(was, i) else 0
  {
  }

  function Part(s: Slot): nat {
    match s
    case Direct(_) => 0
    case Indirect => 1
    case IndEntry(_) => 1
    case _ => 2
  }

  /** What trimming drops of the direct (0), single (1) and double indirect (2) part. */
  ghost function DroppedPart(g: Geo, d: Disk, owner: Owners, n: nat, target: nat, p: nat): set<nat> {
    set b | b in owner && owner[b].0 == n && Drops(g, d, n, owner[b].1, target) && Part(owner[b].1) == p
  }

  lemma DroppedIsParts(g: Geo, d: Disk, owner: Owners, n: nat, target: nat)
    ensures Dropped(g, d, owner, n, target) ==
            DroppedPart(g, d, owner, n, target, 0) + DroppedPart(g, d, owner, n, target, 1) + DroppedPart(g, d, owner, n, target, 2)
  {
    hide Drops;
  }

  lemma DirectPart(g: Geo, d: Disk, owner: Owners, n: nat, target: nat)
    requires Shape(g, d) && OwnedBy(g, d, owner)
    ensures DroppedPart(g, d, owner, n, target, 0) ==
            Range(owner, n, Directs, if target < NDIR then target else NDIR, NDIR)
  {
    hide Marked, At;
    EntriesInRange(g, d, owner, n);
  }

  /** How many entries of the single indirect table lie below the cut. */
  function SingleKeep(g: Geo, target: nat): nat {
    if target <= NDIR then 0 else if target - NDIR > g.PerBlock() then g.PerBlock() else target - NDIR
  }

  lemma SinglePart(g: Geo, d: Disk, owner: Owners, n: nat, target: nat)
    requires Shape(g, d) && OwnedBy(g, d, owner)
    ensures DroppedPart(g, d, owner, n, target, 1) ==
            Range(owner, n, Singles, SingleKeep(g, target), g.PerBlock()) +
            (if Drops(g, d, n, Indirect, target) then Named(At(d, n, Indirect)) else {})
    ensures At(d, n, Indirect) !in Range(owner, n, Singles, 0, g.PerBlock())
  {
    hide Marked, At;
    EntriesInRange(g, d, owner, n);
    forall b | b in owner && owner[b].0 == n && owner[b].1.IndEntry?
      ensures Drops(g, d, n, owner[b].1, target) <==> owner[b].1.i >= SingleKeep(g, target)
    {
    }
  }

  /** What trimming drops of the k-th sub-table. */
  ghost function SubDropped(g: Geo, d: Disk, owner: Owners, n: nat, target: nat, k: nat): set<nat> {
    set b | b in owner && owner[b].0 == n && (owner[b].1.SubTable? || owner[b].1.SubEntry?) && owner[b].1.i == k
            && Drops(g, d, n, owner[b].1, target)
  }

  ghost function DroppedSubs(g: Geo, d: Disk, owner: Owners, n: nat, target: nat, k: nat): set<nat> {
    set b | b in owner && owner[b].0 == n && (owner[b].1.SubTable? || owner[b].1.SubEntry?) && owner[b].1.i >= k
            && Drops(g, d, n, owner[b].1, target)
  }

  lemma DroppedSubsStep(g: Geo, d: Disk, owner: Owners, n: nat, target: nat, k: nat)
    ensures DroppedSubs(g, d, owner, n, target, k) ==
            DroppedSubs(g, d, owner, n, target, k + 1) + SubDropped(g, d, owner, n, target, k)
    ensures DroppedSubs(g, d, owner, n, target, k + 1) !! SubDropped(g, d, owner, n, target, k)
    ensures SubDropped(g, d, owner, n, target, k) <= DroppedSubs(g, d, owner, n, target, 0)
  {
    hide Drops;
  }

  lemma DoublePart(g: Geo, d: Disk, owner: Owners, n: nat, target: nat)
    requires Shape(g, d) && OwnedBy(g, d, owner)
    ensures DroppedSubs(g, d, owner, n, target, g.PerBlock()) == {}
    ensures DroppedPart(g, d, owner, n, target, 2) ==
            DroppedSubs(g, d, owner, n, target, 0) +
            (if Drops(g, d, n, DoubleIndirect, target) then Named(At(d, n, DoubleIndirect)) else {})
    ensures At(d, n, DoubleIndirect) !in DroppedSubs(g, d, owner, n, target, 0)
  {
    hide Marked, At, Drops;
    EntriesInRange(g, d, owner, n);
    forall b | b in owner && owner[b].0 == n && Part(owner[b].1) == 2 && owner[b].1.SubTable?
      ensures owner[b].1.i < g.PerBlock()
    {
    }
  }

  lemma SubPart(g: Geo, d: Disk, owner: Owners, n: nat, target: nat, k: nat)
    requires Shape(g, d) && OwnedBy(g, d, owner)
    ensures var base := Lbn(g, SubTable(k));
            && (base >= target ==> SubDropped(g, d, owner, n, target, k) ==
                                     Range(owner, n, Subs(k), 0, g.PerBlock()) + Named(At(d, n, SubTable(k))))
            && (base < target < base + g.PerBlock() ==>
                  SubDropped(g, d, owner, n, target, k) == Range(owner, n, Subs(k), target - base, g.PerBlock()))
            && (base + g.PerBlock() <= target ==> SubDropped(g, d, owner, n, target, k) == {})
    ensures At(d, n, SubTable(k)) !in Range(owner, n, Subs(k), 0, g.PerBlock())
  {
    hide Marked, At;
    EntriesInRange(g, d, owner, n);
  }

  /** A table whose remaining entries are all zero is dropped, and only such a table. */
  lemma EmptyTable(g: Geo, d: Disk, n: nat, target: nat, t: Table, tab: Block)
    requires t.Singles? || t.Doubles?
    requires |tab| == g.blockSize == 4 * g.PerBlock()
    requires forall i :: 0 <= i < g.PerBlock() ==> Word(tab, i) == Cut(g, d, n, SlotIn(t, i), target)
    ensures Drops(g, d, n, if t.Singles? then Indirect else DoubleIndirect, target) <==>
            forall i :: 0 <= i < g.PerBlock() ==> Word(tab, i) == 0
  {
    hide Word, At;
    if t.Singles? {
      forall i | 0 <= i < g.PerBlock()
        ensures Word(tab, i) == 0 <==> NDIR + i >= target || At(d, n, IndEntry(i)) == 0
      {
        assert SlotIn(t, i) == IndEntry(i);
      }
    } else {
      forall i | 0 <= i < g.PerBlock()
        ensures Word(tab, i) == 0 <==> Lbn(g, SubTable(i)) >= target || At(d, n, SubTable(i)) == 0
      {
        assert SlotIn(t, i) == SubTable(i);
      }
    }
  }

  lemma RangeWithin(owner: Owners, n: nat, t: Table, lo: nat, hi: nat)
    ensures Range(owner, n, t, lo, hi) <= Range(owner, n, t, 0, hi)
  {
  }

  /** A table read from disk holds the map's entries. */
  lemma TableRead(g: Geo, d: Disk, owner: Owners, n: nat, t: Table)
    requires Sound(g, d, owner) && !t.Directs? && Holder(d, n, SlotIn(t, 0)) != 0
    ensures var h := Holder(d, n, SlotIn(t, 0));
            && h in owner && h < |d.blocks| && Zeroed(g, d.blocks[h], d.blocks[h], g.PerBlock())
            && forall i :: 0 <= i < g.PerBlock() ==> Word(d.blocks[h], i) == At(d, n, SlotIn(t, i))
  {
    hide Marked, Accounting, OwnedBy, Word, At;
    PerBlockBounds(g);
    TableBlock(g, d, owner, n, t);
    var h := Holder(d, n, SlotIn(t, 0));
    forall i | 0 <= i < g.PerBlock()
      ensures Word(d.blocks[h], i) == At(d, n, SlotIn(t, i))
    {
      TableEntry(g, d, owner, n, t, i);
    }
  }

  /** A table blanked from the cut on holds the trimmed map's entries. */
  lemma CutTable(g: Geo, d: Disk, n: nat, target: nat, t: Table, keep: nat, was: Block, tab: Block)
    requires (t.Singles? || t.Subs?) && Zeroed(g, tab, was, keep)
    requires forall i :: 0 <= i < g.PerBlock() ==> Word(was, i) == At(d, n, SlotIn(t, i))
    requires forall i :: 0 <= i < g.PerBlock() ==> (i >= keep <==> Lbn(g, SlotIn(t, i)) >= target)
    ensures |tab| == g.blockSize == 4 * g.PerBlock()
    ensures forall i :: 0 <= i < g.PerBlock() ==> Word(tab, i) == Cut(g, d, n, SlotIn(t, i), target)
  {
    hide Word, At, Lbn;
  }

  lemma TableDropped(g: Geo, d: Disk, owner: Owners, n: nat, target: nat, t: Table)
    requires Sound(g, d, owner) && !t.Directs? && Holder(d, n, SlotIn(t, 0)) != 0
    requires Drops(g, d, n, match t case Singles => Indirect case Doubles => DoubleIndirect case _ => SubTable(t.k), target)
    ensures Holder(d, n, SlotIn(t, 0)) in Dropped(g, d, owner, n, target)
  {
    hide Marked, Accounting, At, Drops;
    TableBlock(g, d, owner, n, t);
  }

  lemma CutBelow(g: Geo, d: Disk, n: nat, target: nat, t: Table)
    requires !t.Directs?
    ensures forall i: nat :: Lbn(g, SlotIn(t, i)) < target ==> Cut(g, d, n, SlotIn(t, i), target) == At(d, n, SlotIn(t, i))
  {
    hide At;
  }

  lemma InodePointers(d: Disk, n: nat)
    requires n in d.inodes && |d.inodes[n].block| == 15
    ensures At(d, n, Indirect) == d.inodes[n].block[12] && At(d, n, DoubleIndirect) == d.inodes[n].block[13]
    ensures forall i :: 0 <= i < NDIR ==> At(d, n, Direct(i)) == d.inodes[n].block[i]
  {
  }

  /** Sub-tables k and up hold the trimmed map's entries, where they are kept at all. */
  ghost predicate SubsCut(g: Geo, d: Disk, n: nat, target: nat, e: Disk, k: nat) {
    forall i, j :: k <= i < g.PerBlock() && 0 <= j < g.PerBlock() && Cut(g, d, n, SubTable(i), target) != 0 ==>
                     Entry(e, At(d, n, SubTable(i)), j) == Cut(g, d, n, SubEntry(i, j), target)
  }

  /** Sub-tables below k read as they did in image d. */
  ghost predicate SubsIntact(g: Geo, d: Disk, n: nat, e: Disk, k: nat) {
    |e.blocks| == |d.blocks| &&
    forall i :: 0 <= i < k && At(d, n, SubTable(i)) != 0 && At(d, n, SubTable(i)) < |d.blocks| ==>
                  e.blocks[At(d, n, SubTable(i))] == d.blocks[At(d, n, SubTable(i))]
  }

  /** The in-memory double indirect table, trimmed from entry k on. */
  ghost predicate DoubleCut(g: Geo, d: Disk, n: nat, target: nat, tab: Block, k: nat) {
    |tab| == g.blockSize == 4 * g.PerBlock() &&
    forall i :: 0 <= i < g.PerBlock() ==>
                  Word(tab, i) == if i < k then At(d, n, SubTable(i)) else Cut(g, d, n, SubTable(i), target)
  }

  lemma DoubleCutStep(g: Geo, d: Disk, n: nat, target: nat, tab: Block, k: nat)
    requires DoubleCut(g, d, n, target, tab, k + 1) && k < g.PerBlock()
    ensures Cut(g, d, n, SubTable(k), target) == At(d, n, SubTable(k)) ==> DoubleCut(g, d, n, target, tab, k)
    ensures Cut(g, d, n, SubTable(k), target) == 0 ==> DoubleCut(g, d, n, target, SetWord(tab, k, 0), k)
  {
    hide Word, SetWord, At, Cut;
    forall i | 0 <= i < g.PerBlock()
      ensures Word(SetWord(tab, k, 0), i) == if i == k then 0 else Word(tab, i)
    {
      SetWordFrame(tab, k, 0, i);
    }
  }

  /** Rewriting sub-table k alone moves the two frontiers past it. */
  lemma SubsStep(g: Geo, d: Disk, owner: Owners, n: nat, target: nat, e: Disk, f: Disk, k: nat)
    requires Sound(g, d, owner) && SubsCut(g, d, n, target, e, k + 1) && SubsIntact(g, d, n, e, k + 1)
    requires |f.blocks| == |e.blocks| && k < g.PerBlock()
    requires forall c :: c in owner && c < |e.blocks| && c != At(d, n, SubTable(k)) ==> f.blocks[c] == e.blocks[c]
    requires Cut(g, d, n, SubTable(k), target) != 0 ==>
               forall j :: 0 <= j < g.PerBlock() ==> Entry(f, At(d, n, SubTable(k)), j) == Cut(g, d, n, SubEntry(k, j), target)
    ensures SubsCut(g, d, n, target, f, k) && SubsIntact(g, d, n, f, k)
  {
    hide Marked, Accounting, Word, Drops, At;
    forall i, j | k <= i < g.PerBlock() && 0 <= j < g.PerBlock() && Cut(g, d, n, SubTable(i), target) != 0
      ensures Entry(f, At(d, n, SubTable(i)), j) == Cut(g, d, n, SubEntry(i, j), target)
    {
      if i > k {
        assert At(d, n, SubTable(i)) in owner && At(d, n, SubTable(i)) != At(d, n, SubTable(k));
      }
    }
    forall i | 0 <= i < k && At(d, n, SubTable(i)) != 0 && At(d, n, SubTable(i)) < |d.blocks|
      ensures f.blocks[At(d, n, SubTable(i))] == d.blocks[At(d, n, SubTable(i))]
    {
      assert At(d, n, SubTable(i)) in owner && At(d, n, SubTable(i)) != At(d, n, SubTable(k));
    }
  }

  /** A sub-table that ends before the cut holds the trimmed map's entries as it is. */
  lemma CutTableRead(g: Geo, d: Disk, owner: Owners, n: nat, target: nat, k: nat, keep: nat)
    requires Sound(g, d, owner) && At(d, n, SubTable(k)) != 0 && keep <= g.PerBlock()
    requires forall i :: 0 <= i < g.PerBlock() ==> (i >= keep <==> Lbn(g, SubEntry(k, i)) >= target)
    ensures At(d, n, SubTable(k)) < |d.blocks|
    ensures keep == g.PerBlock() ==>
              forall j :: 0 <= j < g.PerBlock() ==>
                            Entry(d, At(d, n, SubTable(k)), j) == Cut(g, d, n, SubEntry(k, j), target)
  {
    hide Marked, Accounting, OwnedBy, Word, At, Lbn;
    TableRead(g, d, owner, n, Subs(k));
    forall j | keep == g.PerBlock() && 0 <= j < g.PerBlock()
      ensures Entry(d, At(d, n, SubTable(k)), j) == Cut(g, d, n, SubEntry(k, j), target)
    {
      assert SlotIn(Subs(k), j) == SubEntry(k, j);
    }
  }

  /** Only n's sub-tables and its double indirect table may differ between e and f. */
  ghost predicate FarFrame(g: Geo, d: Disk, owner: Owners, n: nat, e: Disk, f: Disk) {
    |f.blocks| == |e.blocks| &&
    forall c :: c in owner && c < |e.blocks| && !(owner[c].0 == n && (owner[c].1.SubTable? || owner[c].1.DoubleIndirect?))
                ==> f.blocks[c] == e.blocks[c]
  }

  lemma FarStep(g: Geo, d: Disk, owner: Owners, n: nat, b: Disk, e: Disk, f: Disk, s: Slot)
    requires s.SubTable? || s.DoubleIndirect?
    requires g.Ok() && OwnedBy(g, d, owner) && FarFrame(g, d, owner, n, b, e) && |f.blocks| == |e.blocks|
    requires forall c :: c in owner && c < |e.blocks| && c != At(d, n, s) ==> f.blocks[c] == e.blocks[c]
    ensures FarFrame(g, d, owner, n, b, f)
  {
    hide Marked, At;
    NoOwnedZero(g, d, owner);
  }

  lemma SubsStart(g: Geo, d: Disk, owner: Owners, n: nat, target: nat, e: Disk)
    requires Sound(g, d, owner) && At(d, n, DoubleIndirect) != 0 && |e.blocks| == |d.blocks|
    requires forall c :: c in owner && c < |d.blocks| && c != At(d, n, Indirect) ==> e.blocks[c] == d.blocks[c]
    ensures var h := At(d, n, DoubleIndirect);
            h in owner && h < |d.blocks| && e.blocks[h] == d.blocks[h] && DoubleCut(g, d, n, target, e.blocks[h], g.PerBlock())
    ensures SubsCut(g, d, n, target, e, g.PerBlock()) && SubsIntact(g, d, n, e, g.PerBlock())
    ensures DroppedSubs(g, d, owner, n, target, g.PerBlock()) == {}
    ensures FarFrame(g, d, owner, n, e, e)
  {
    hide Marked, Accounting, Word, At, Drops;
    DoublePart(g, d, owner, n, target);
    TableRead(g, d, owner, n, Doubles);
    PerBlockBounds(g);
    assert forall i :: 0 <= i < g.PerBlock() ==> SlotIn(Doubles, i) == SubTable(i);
  }

  lemma SubTableFacts(g: Geo, d: Disk, owner: Owners, n: nat, target: nat, e: Disk, tab: Block, k: nat)
    requires Sound(g, d, owner) && DoubleCut(g, d, n, target, tab, k + 1) && SubsIntact(g, d, n, e, k + 1) && k < g.PerBlock()
    ensures 4 * k + 4 <= |tab| && Word(tab, k) == At(d, n, SubTable(k))
    ensures Cut(g, d, n, SubTable(k), target) == if Lbn(g, SubTable(k)) >= target then 0 else At(d, n, SubTable(k))
    ensures At(d, n, SubTable(k)) == 0 ==> SubDropped(g, d, owner, n, target, k) == {}
    ensures At(d, n, SubTable(k)) != 0 ==>
              && At(d, n, SubTable(k)) in owner && At(d, n, SubTable(k)) < |d.blocks| == |e.blocks|
              && e.blocks[At(d, n, SubTable(k))] == d.blocks[At(d, n, SubTable(k))]
              && At(d, n, SubTable(k)) != At(d, n, DoubleIndirect)
  {
    hide Marked, Accounting, At;
    SubPart(g, d, owner, n, target, k);
    if At(d, n, SubTable(k)) == 0 {
      RangeOfNothing(g, d, owner, n, Subs(k), g.PerBlock());
      forall lo: nat
        ensures Range(owner, n, Subs(k), lo, g.PerBlock()) == {}
      {
        RangeWithin(owner, n, Subs(k), lo, g.PerBlock());
      }
    }
  }

  lemma NoSubs(g: Geo, d: Disk, owner: Owners, n: nat, target: nat, e: Disk)
    requires Sound(g, d, owner) && At(d, n, DoubleIndirect) == 0
    ensures DroppedSubs(g, d, owner, n, target, 0) == {} && SubsCut(g, d, n, target, e, 0)
    ensures FarFrame(g, d, owner, n, e, e)
  {
    hide Marked, Accounting, Drops;
    forall i: nat
      ensures At(d, n, SubTable(i)) == 0
    {
    }
    forall b | b in owner && owner[b].0 == n
      ensures !owner[b].1.SubTable? && !owner[b].1.SubEntry?
    {
      NoOwnedZero(g, d, owner);
      assert At(d, n, owner[b].1) == b != 0;
    }
  }

  lemma DoubleCutEntries(g: Geo, d: Disk, n: nat, target: nat, tab: Block)
    requires DoubleCut(g, d, n, target, tab, 0)
    ensures |tab| == g.blockSize == 4 * g.PerBlock()
    ensures forall i :: 0 <= i < g.PerBlock() ==> Word(tab, i) == Cut(g, d, n, SlotIn(Doubles, i), target)
  {
    hide Word, At, Cut;
  }

  /** Writing or freeing the double indirect table leaves the sub-tables alone. */
  lemma SubsCutFrame(g: Geo, d: Disk, owner: Owners, n: nat, target: nat, e: Disk, f: Disk)
    requires Sound(g, d, owner) && SubsCut(g, d, n, target, e, 0) && |f.blocks| == |e.blocks|
    requires forall c :: c in owner && c < |e.blocks| && c != At(d, n, DoubleIndirect) ==> f.blocks[c] == e.blocks[c]
    ensures SubsCut(g, d, n, target, f, 0)
  {
    hide Marked, Accounting, Word, At, Drops;
    forall i, j | 0 <= i < g.PerBlock() && 0 <= j < g.PerBlock() && Cut(g, d, n, SubTable(i), target) != 0
      ensures Entry(f, At(d, n, SubTable(i)), j) == Cut(g, d, n, SubEntry(i, j), target)
    {
      assert At(d, n, SubTable(i)) in owner && At(d, n, SubTable(i)) != At(d, n, DoubleIndirect);
    }
  }

  // --------------------------------------------------------------- the end

  /** The inode and tables that a finished walk leaves behind. */
  ghost predicate Finished(g: Geo, d: Disk, owner: Owners, n: nat, target: nat, e: Disk, ino: Inode) {
    && n in d.inodes && |ino.block| == |d.inodes[n].block| == 15
    && ino == d.inodes[n].(block := ino.block) && ino.block[14] == d.inodes[n].block[14]
    && (forall i :: 0 <= i < NDIR ==> ino.block[i] == Cut(g, d, n, Direct(i), target))
    && ino.block[12] == Cut(g, d, n, Indirect, target)
    && ino.block[13] == Cut(g, d, n, DoubleIndirect, target)
    && (forall i :: 0 <= i < g.PerBlock() && ino.block[12] != 0 ==> Entry(e, ino.block[12], i) == Cut(g, d, n, IndEntry(i), target))
    && (forall i :: 0 <= i < g.PerBlock() && ino.block[13] != 0 ==> Entry(e, ino.block[13], i) == Cut(g, d, n, SubTable(i), target))
    && SubsCut(g, d, n, target, e, 0)
  }

  /** A slot below a dropped table is empty after the cut. */
  lemma CutBelowTables(g: Geo, d: Disk, n: nat, target: nat, s: Slot)
    requires Shape(g, d)
    ensures s.IndEntry? && Cut(g, d, n, Indirect, target) == 0 ==> Cut(g, d, n, s, target) == 0
    ensures (s.SubTable? || s.SubEntry?) && Cut(g, d, n, DoubleIndirect, target) == 0 ==> Cut(g, d, n, s, target) == 0
    ensures s.SubEntry? && Cut(g, d, n, SubTable(s.i), target) == 0 ==> Cut(g, d, n, s, target) == 0
    ensures s.IndEntry? && s.i >= g.PerBlock() ==> Cut(g, d, n, s, target) == 0
    ensures (s.SubTable? || s.SubEntry?) && s.i >= g.PerBlock() ==> Cut(g, d, n, s, target) == 0
    ensures s.SubEntry? && s.j >= g.PerBlock() ==> Cut(g, d, n, s, target) == 0
  {
    hide Word;
    PerBlockBounds(g);
    if s.SubEntry? {
      assert At(d, n, SubTable(s.i)) == 0 ==> At(d, n, s) == 0;
    }
  }

  lemma FinishedMap(g: Geo, d: Disk, owner: Owners, n: nat, target: nat, e: Disk, ino: Inode, s: Slot)
    requires Shape(g, d) && Shape(g, e) && |e.blocks| == |d.blocks| && e.inodes == d.inodes
    requires Finished(g, d, owner, n, target, e, ino)
    ensures At(e.(inodes := e.inodes[n := ino]), n, s) == Cut(g, d, n, s, target)
  {
    hide Word, Drops, Lbn;
    PerBlockBounds(g);
    CutBelowTables(g, d, n, target, s);
    if s.SubTable? || s.SubEntry? {
      CutBelowTables(g, d, n, target, SubTable(s.i));
    }
  }

  lemma OthersInView(g: Geo, d: Disk, owner: Owners, n: nat, target: nat, e: Disk, freed: set<nat>, ino: Inode, m: nat, s: Slot)
    requires Sound(g, d, owner) && Trimming(g, d, owner, n, target, e, freed) && m != n
    ensures At(e.(inodes := e.inodes[n := ino]), m, s) == At(d, m, s)
  {
    hide Marked, Accounting, OwnedBy, Word, Trimming;
    OthersKeep(g, d, owner, n, target, e, freed, m, s);
  }

  lemma FinishedShape(g: Geo, d: Disk, owner: Owners, n: nat, target: nat, e: Disk, ino: Inode)
    requires Sound(g, d, owner) && Accounting(g, e)
    requires Trimming(g, d, owner, n, target, e, Dropped(g, d, owner, n, target))
    requires Finished(g, d, owner, n, target, e, ino)
    ensures Shape(g, e.(inodes := e.inodes[n := ino])) && Accounting(g, e.(inodes := e.inodes[n := ino]))
    ensures ReservedMarked(g, e.(inodes := e.inodes[n := ino]))
    ensures forall b: nat :: Marked(g, e.(inodes := e.inodes[n := ino]), b) <==>
                             Marked(g, d, b) && b !in Dropped(g, d, owner, n, target)
  {
    hide Marked, Accounting, At, Drops, Word, SubsCut;
    InodePointers(d, n);
    var v := e.(inodes := e.inodes[n := ino]);
    AccountingIgnoresInodes(g, e, v);
    assert ino.Ok();
  }

  /** A finished trim is sound again, with exactly the dropped blocks disowned. */
  lemma FinishedSound(g: Geo, d: Disk, owner: Owners, n: nat, target: nat, e: Disk, ino: Inode)
    requires Sound(g, d, owner) && Accounting(g, e)
    requires Trimming(g, d, owner, n, target, e, Dropped(g, d, owner, n, target))
    requires Finished(g, d, owner, n, target, e, ino)
    ensures Sound(g, e.(inodes := e.inodes[n := ino]), owner - Dropped(g, d, owner, n, target))
    ensures forall s :: At(e.(inodes := e.inodes[n := ino]), n, s) == Cut(g, d, n, s, target)
    ensures forall m: nat, s :: m != n ==> At(e.(inodes := e.inodes[n := ino]), m, s) == At(d, m, s)
  {
    hide Marked, Accounting, At, Drops, Finished, Shape;
    var v := e.(inodes := e.inodes[n := ino]);
    FinishedShape(g, d, owner, n, target, e, ino);
    forall s
      ensures At(v, n, s) == Cut(g, d, n, s, target)
    {
      FinishedMap(g, d, owner, n, target, e, ino, s);
    }
    forall m: nat, s | m != n
      ensures At(v, m, s) == At(d, m, s)
    {
      OthersInView(g, d, owner, n, target, e, Dropped(g, d, owner, n, target), ino, m, s);
    }
  }

  /**
   e is d with inode n cut off at `target`: later blocks are holes, earlier
   ones are mapped as before, every data block still reads the same, and
   exactly the dropped blocks became free.
   */
  ghost predicate TrimmedTo(g: Geo, d: Disk, owner: Owners, n: nat, target: nat, e: Disk) {
    && e.inodes.Keys == d.inodes.Keys && n in d.inodes && |e.blocks| == |d.blocks|
    && (forall m :: m in d.inodes && m != n ==> e.inodes[m] == d.inodes[m])
    && SameIdentity(e.inodes[n], d.inodes[n])
    && (forall s :: At(e, n, s) == Cut(g, d, n, s, target))
    && (forall m: nat, s :: m != n ==> At(e, m, s) == At(d, m, s))
    && (forall c :: c in owner && c < |d.blocks| && owner[c].1.Leaf() ==> e.blocks[c] == d.blocks[c])
    && FreeSet(g, e) == FreeSet(g, d) + Dropped(g, d, owner, n, target)
  }

  // ------------------------------------------------------------- empty tables

  /** Logical block lo falls inside the i-th sub-table, and is not its first. */
  predicate Straddles(g: Geo, i: nat, lo: nat) {
    i < g.PerBlock() && Lbn(g, SubTable(i)) < lo < Lbn(g, SubTable(i)) + g.PerBlock()
  }

  /** The i-th sub-table is there, reaches past the cut, and names nothing once it is cut. */
  ghost predicate EmptiedSub(g: Geo, d: Disk, n: nat, target: nat, e: Disk, i: nat) {
    && i < g.PerBlock() && At(d, n, SubTable(i)) != 0 && Lbn(g, SubTable(i)) + g.PerBlock() > target
    && forall j :: 0 <= j < g.PerBlock() ==> At(e, n, SubEntry(i, j)) == 0
  }

  /** The cut falls inside the i-th sub-table, and all that is before it there are holes. */
  ghost predicate Hollow(g: Geo, d: Disk, n: nat, target: nat, i: nat) {
    && Straddles(g, i, target) && At(d, n, SubTable(i)) != 0
    && forall j :: 0 <= j < g.PerBlock() && Lbn(g, SubEntry(i, j)) < target ==> At(d, n, SubEntry(i, j)) == 0
  }

  lemma EmptiedExactly(g: Geo, d: Disk, owner: Owners, n: nat, target: nat, e: Disk, i: nat)
    requires OwnedBy(g, d, owner) && TrimmedTo(g, d, owner, n, target, e)
    requires EmptiedSub(g, d, n, target, e, i)
    ensures At(d, n, SubTable(i)) in FreeSet(g, e) <==> !Hollow(g, d, n, target, i)
  {
    hide Marked, At;
    var b := At(d, n, SubTable(i));
    assert b in owner && owner[b] == (n, SubTable(i)) && b !in FreeSet(g, d);
    forall j | 0 <= j < g.PerBlock() && Lbn(g, SubEntry(i, j)) < target
      ensures At(d, n, SubEntry(i, j)) == 0
    {
      assert At(e, n, SubEntry(i, j)) == Cut(g, d, n, SubEntry(i, j), target);
    }
  }

  lemma HollowIsEmptied(g: Geo, d: Disk, owner: Owners, n: nat, target: nat, e: Disk, i: nat)
    requires TrimmedTo(g, d, owner, n, target, e) && Hollow(g, d, n, target, i)
    ensures EmptiedSub(g, d, n, target, e, i)
    ensures At(e, n, SubTable(i)) == At(d, n, SubTable(i)) && At(e, n, DoubleIndirect) == At(d, n, DoubleIndirect)
  {
    hide Marked, At, FreeSet, Dropped;
    forall j | 0 <= j < g.PerBlock()
      ensures At(e, n, SubEntry(i, j)) == 0
    {
      assert At(e, n, SubEntry(i, j)) == Cut(g, d, n, SubEntry(i, j), target);
    }
  }

  /**
   A trim frees every sub-table that it leaves empty exactly if the one that
   the cut falls into, if it is there, keeps something. Where it does not, that
   sub-table and the double indirect table stay allocated for nothing.
   */
  lemma EmptyTablesFreedExactly(g: Geo, d: Disk, owner: Owners, n: nat, target: nat, e: Disk)
    requires OwnedBy(g, d, owner) && TrimmedTo(g, d, owner, n, target, e)
    ensures (forall i: nat :: EmptiedSub(g, d, n, target, e, i) ==> At(d, n, SubTable(i)) in FreeSet(g, e)) <==>
            !exists i: nat :: Hollow(g, d, n, target, i)
  {
    hide OwnedBy, TrimmedTo, EmptiedSub, Hollow, At, FreeSet;
    forall i: nat | EmptiedSub(g, d, n, target, e, i)
      ensures At(d, n, SubTable(i)) in FreeSet(g, e) <==> !Hollow(g, d, n, target, i)
    {
      EmptiedExactly(g, d, owner, n, target, e, i);
    }
    forall i: nat | Hollow(g, d, n, target, i)
      ensures EmptiedSub(g, d, n, target, e, i)
    {
      HollowIsEmptied(g, d, owner, n, target, e, i);
    }
  }

  lemma FinishedTrim(g: Geo, d: Disk, owner: Owners, n: nat, target: nat, e: Disk, ino: Inode, v: nat)
    requires WellFormed(g, d, owner) && Accounting(g, e) && v < U32
    requires Trimming(g, d, owner, n, target, e, Dropped(g, d, owner, n, target))
    requires Finished(g, d, owner, n, target, e, ino)
    requires v == |OwnedOf(owner - Dropped(g, d, owner, n, target), n)| * g.SectorsPerBlock() % U32
    ensures var f := e.(inodes := e.inodes[n := ino.(sectors := v)]);
            WellFormed(g, f, owner - Dropped(g, d, owner, n, target)) && TrimmedTo(g, d, owner, n, target, f)
  {
    hide Marked, Accounting, At, Drops, Shape, OwnedBy, SubsCut, Entry;
    var owner' := owner - Dropped(g, d, owner, n, target);
    var w := e.(inodes := e.inodes[n := ino]);
    var f := e.(inodes := e.inodes[n := ino.(sectors := v)]);
    FinishedShape(g, d, owner, n, target, e, ino);
    FinishedSound(g, d, owner, n, target, e, ino);
    SectorsSound(g, w, owner', n, v);
    assert f == WithSectors(w, n, v);
    forall m | m in f.inodes && m != n
      ensures SectorsOk(g, f, owner', m)
    {
      assert OwnedOf(owner', m) == OwnedOf(owner, m);
      assert SectorsOk(g, d, owner, m);
    }
    FreedSet(g, d, owner, n, target, w, f);
  }

  lemma FreedSet(g: Geo, d: Disk, owner: Owners, n: nat, target: nat, w: Disk, f: Disk)
    requires f.blocks == w.blocks && OwnedBy(g, d, owner)
    requires forall b: nat :: Marked(g, w, b) <==> Marked(g, d, b) && b !in Dropped(g, d, owner, n, target)
    ensures FreeSet(g, f) == FreeSet(g, d) + Dropped(g, d, owner, n, target)
  {
    hide Marked, At, Drops;
    forall b: nat
      ensures Marked(g, f, b) == Marked(g, w, b)
    {
      MarkedIgnoresCounters(g, f, w, b);
    }
  }

  /** The three parts of what is dropped do not overlap. */
  lemma PartsDisjoint(g: Geo, d: Disk, owner: Owners, n: nat, target: nat)
    ensures DroppedPart(g, d, owner, n, target, 0) !! DroppedPart(g, d, owner, n, target, 1)
    ensures DroppedPart(g, d, owner, n, target, 0) + DroppedPart(g, d, owner, n, target, 1) !! DroppedPart(g, d, owner, n, target, 2)
  {
    hide Drops;
  }

  /** Trimming the double indirect part leaves the single indirect table alone. */
  lemma SingleSurvives(g: Geo, d: Disk, owner: Owners, n: nat, target: nat, e: Disk, f: Disk)
    requires Sound(g, d, owner) && FarFrame(g, d, owner, n, e, f) && |e.blocks| == |d.blocks|
    ensures forall i: nat :: Cut(g, d, n, Indirect, target) != 0 ==>
              Entry(f, Cut(g, d, n, Indirect, target), i) == Entry(e, Cut(g, d, n, Indirect, target), i)
  {
    hide Marked, Accounting, At, Word, Drops;
  }
}
