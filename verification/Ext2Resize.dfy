/**
 Growing a file by many blocks, and undoing that when the space runs out part
 way: the old map and contents come back, and so do the blocks that were taken.
 */
module Ext2Resize {
  import opened Arithmetic
  import opened Common
  import opened Ext2Layout
  import opened Ext2Disk
  import opened Ext2Grow
  import opened Ext2Tables
  import opened Ext2Trim
  import opened Ext2File

  /** Slot t can lie on the way to a logical block at or after lo. */
  predicate Beyond(g: Geo, t: Slot, lo: nat) {
    match t
    case Indirect => true
    case DoubleIndirect => true
    case SubTable(_) => Lbn(g, t) + g.PerBlock() > lo
    case _ => Lbn(g, t) >= lo
  }

  /** From d to e, inode n got blocks for some logical blocks at or after lo, and nothing reads differently. */
  ghost predicate GrewFrom(g: Geo, d: Disk, e: Disk, n: nat, lo: nat) {
    SameInodes(d, e, n) && MapGrew(g, d, e, n, lo)
  }

  ghost predicate MapGrew(g: Geo, d: Disk, e: Disk, n: nat, lo: nat) {
    && (forall m: nat, t :: At(e, m, t) == At(d, m, t) || (At(d, m, t) == 0 && m == n && Beyond(g, t, lo)))
    && (forall m: nat, t: Slot :: t.Leaf() ==> Content(g, e, m, t) == Content(g, d, m, t))
  }

  lemma GrewFromRefl(g: Geo, d: Disk, n: nat, lo: nat)
    ensures GrewFrom(g, d, d, n, lo)
  {
    hide At, Content, Beyond;
  }

  lemma PathIsBeyond(g: Geo, t: Slot, lbn: nat, lo: nat)
    requires g.PerBlock() > 0 && lo <= lbn && OnPath(t, LeafOf(g, lbn))
    ensures Beyond(g, t, lo)
  {
    LeafRoundTrip(g, lbn);
  }

  lemma GrewFromStep(g: Geo, d: Disk, e: Disk, f: Disk, n: nat, lo: nat, lbn: nat)
    requires g.PerBlock() > 0 && lo <= lbn && GrewFrom(g, d, e, n, lo) && Grew(g, e, f, n, LeafOf(g, lbn))
    ensures GrewFrom(g, d, f, n, lo)
  {
    hide At, Content, Beyond, OnPath, LeafOf;
    forall m: nat, t
      ensures At(f, m, t) == At(d, m, t) || (At(d, m, t) == 0 && m == n && Beyond(g, t, lo))
    {
      if At(f, m, t) != At(e, m, t) {
        PathIsBeyond(g, t, lbn, lo);
      }
    }
  }

  // ------------------------------------------------------------- rolling back

  /**
   The sub-table that the old end of the file falls into, if it falls inside
   one at all, is there. Files without holes have this.
   */
  ghost predicate BoundaryPresent(g: Geo, d: Disk, n: nat, lo: nat) {
    forall i: nat :: Straddles(g, i, lo) ==> At(d, n, SubTable(i)) != 0
  }

  /** The growth from d to e did not create that sub-table. */
  ghost predicate BoundaryKept(g: Geo, d: Disk, e: Disk, n: nat, lo: nat) {
    forall i: nat :: Straddles(g, i, lo) ==> At(e, n, SubTable(i)) == At(d, n, SubTable(i))
  }

  /** The tables that a first block in a missing sub-table takes, that sub-table included. */
  function TablesNeeded(d: Disk, n: nat): nat {
    if At(d, n, DoubleIndirect) == 0 then 2 else 1
  }

  /** A failed growth from lo on gives back all it took. */
  ghost predicate NothingLeaks(g: Geo, d: Disk, n: nat, lo: nat) {
    BoundaryPresent(g, d, n, lo) || |FreeSet(g, d)| < TablesNeeded(d, n)
  }

  /** How far a growth from lo on got that could not go on: past lo, or out of blocks right there. */
  ghost predicate Stuck(g: Geo, d: Disk, e: Disk, n: nat, lo: nat)
    requires g.PerBlock() > 0
  {
    lo >= MaxBlocks(g) || BlockOf(g, e, n, lo) != 0 || (FreeSet(g, e) == {} && Grew(g, d, e, n, LeafOf(g, lo)))
  }

  /** Below the old end nothing was added, so a leaf is cut to what it held before. */
  lemma RollbackLeaf(g: Geo, d: Disk, e: Disk, n: nat, lo: nat, s: Slot)
    requires GrewFrom(g, d, e, n, lo) && s.Leaf()
    ensures Cut(g, e, n, s, lo) == Cut(g, d, n, s, lo)
  {
    hide At, Content;
  }

  lemma RollbackSubTable(g: Geo, d: Disk, e: Disk, n: nat, lo: nat, i: nat)
    requires Shape(g, d) && Shape(g, e) && GrewFrom(g, d, e, n, lo) && BoundaryKept(g, d, e, n, lo)
    ensures Cut(g, e, n, SubTable(i), lo) == Cut(g, d, n, SubTable(i), lo)
    ensures i < g.PerBlock() && Lbn(g, SubTable(i)) < lo ==> At(e, n, SubTable(i)) == At(d, n, SubTable(i))
  {
    hide Content, Word;
    PerBlockBounds(g);
  }

  lemma RollbackTables(g: Geo, d: Disk, e: Disk, n: nat, lo: nat)
    requires Shape(g, d) && Shape(g, e) && GrewFrom(g, d, e, n, lo) && BoundaryKept(g, d, e, n, lo)
    ensures Cut(g, e, n, Indirect, lo) == Cut(g, d, n, Indirect, lo)
    ensures Cut(g, e, n, DoubleIndirect, lo) == Cut(g, d, n, DoubleIndirect, lo)
  {
    hide Content, Word, At, BoundaryKept;
    forall i | 0 <= i < g.PerBlock() && NDIR + i < lo
      ensures At(e, n, IndEntry(i)) == At(d, n, IndEntry(i))
    {
      RollbackLeaf(g, d, e, n, lo, IndEntry(i));
    }
    forall i | 0 <= i < g.PerBlock() && Lbn(g, SubTable(i)) < lo
      ensures At(e, n, SubTable(i)) == At(d, n, SubTable(i))
    {
      RollbackSubTable(g, d, e, n, lo, i);
    }
    KeptTableWasThere(g, d, n, lo);
  }

  /** A table that the cut keeps is not empty, so it exists. */
  lemma KeptTableWasThere(g: Geo, d: Disk, n: nat, lo: nat)
    ensures !Drops(g, d, n, Indirect, lo) ==> At(d, n, Indirect) != 0
    ensures !Drops(g, d, n, DoubleIndirect, lo) ==> At(d, n, DoubleIndirect) != 0
  {
    hide Word;
  }

  lemma RollbackSlot(g: Geo, d: Disk, e: Disk, n: nat, lo: nat, s: Slot)
    requires Shape(g, d) && Shape(g, e) && GrewFrom(g, d, e, n, lo) && BoundaryKept(g, d, e, n, lo)
    ensures Cut(g, e, n, s, lo) == Cut(g, d, n, s, lo)
  {
    hide At, Content, Drops, GrewFrom, BoundaryKept, Shape;
    if s.Leaf() {
      RollbackLeaf(g, d, e, n, lo, s);
    } else if s.SubTable? {
      RollbackSubTable(g, d, e, n, lo, s.i);
    } else {
      RollbackTables(g, d, e, n, lo);
    }
  }

  /** owner minus what the cut drops, as the map it belongs to. */
  lemma CutOwners(g: Geo, d: Disk, owner: Owners, n: nat, lo: nat, f: Disk, owner': Owners)
    requires g.Ok() && OwnedBy(g, d, owner) && OwnedBy(g, f, owner')
    requires forall s :: At(f, n, s) == Cut(g, d, n, s, lo)
    requires forall m: nat, s :: m != n ==> At(f, m, s) == At(d, m, s)
    ensures owner' == owner - Dropped(g, d, owner, n, lo)
  {
    hide Marked, At, Drops;
    NoOwnedZero(g, d, owner);
    NoOwnedZero(g, f, owner');
    var o := owner - Dropped(g, d, owner, n, lo);
    forall b | b in o
      ensures b in owner' && owner'[b] == o[b]
    {
      assert At(f, o[b].0, o[b].1) == b;
    }
    forall b | b in owner'
      ensures b in o
    {
      assert At(d, owner'[b].0, owner'[b].1) == b;
    }
  }

  /**
   Growing and then cutting back at the old end restores the map, the owners
   and the free blocks, up to what a plain cut of the original would drop.
   */
  lemma RollbackRestores(g: Geo, d: Disk, o: Owners, e: Disk, o': Owners, f: Disk, n: nat, lo: nat)
    requires Sound(g, d, o) && Sound(g, e, o') && GrewFrom(g, d, e, n, lo) && BoundaryKept(g, d, e, n, lo)
    requires TrimmedTo(g, e, o', n, lo, f) && Sound(g, f, o' - Dropped(g, e, o', n, lo))
    requires SameStrays(g, d, o, e, o')
    ensures forall s :: At(f, n, s) == Cut(g, d, n, s, lo)
    ensures o' - Dropped(g, e, o', n, lo) == o - Dropped(g, d, o, n, lo)
    ensures FreeSet(g, f) == FreeSet(g, d) + Dropped(g, d, o, n, lo)
  {
    hide Marked, At, Drops, Accounting, Content, OwnedBy, BoundaryKept, Dropped, FreeSet, SameStrays, Beyond;
    forall s
      ensures At(f, n, s) == Cut(g, d, n, s, lo)
    {
      RollbackSlot(g, d, e, n, lo, s);
    }
    CutOwners(g, d, o, n, lo, f, o' - Dropped(g, e, o', n, lo));
    RollbackFree(g, d, o, e, o', f, n, lo);
  }

  lemma RollbackFree(g: Geo, d: Disk, o: Owners, e: Disk, o': Owners, f: Disk, n: nat, lo: nat)
    requires OwnedBy(g, d, o) && OwnedBy(g, e, o') && SameStrays(g, d, o, e, o')
    requires FreeSet(g, f) == FreeSet(g, e) + Dropped(g, e, o', n, lo)
    requires o' - Dropped(g, e, o', n, lo) == o - Dropped(g, d, o, n, lo)
    ensures FreeSet(g, f) == FreeSet(g, d) + Dropped(g, d, o, n, lo)
  {
    hide Marked, At, Drops;
    OwnersMarked(g, d, o);
    OwnersMarked(g, e, o');
    var p, q := o' - Dropped(g, e, o', n, lo), o - Dropped(g, d, o, n, lo);
    forall b: nat
      ensures b in FreeSet(g, f) <==> b in FreeSet(g, d) + Dropped(g, d, o, n, lo)
    {
      assert b in p <==> b in q;
    }
  }

  /** A block that the growth hung in somewhere was free before. */
  lemma NewBlockWasFree(g: Geo, d: Disk, o: Owners, e: Disk, o': Owners, n: nat, lo: nat, s: Slot)
    requires Sound(g, d, o) && Sound(g, e, o') && GrewFrom(g, d, e, n, lo) && SameStrays(g, d, o, e, o')
    requires At(d, n, s) == 0 && At(e, n, s) != 0
    ensures At(e, n, s) in FreeSet(g, d)
  {
    hide Marked, At, Accounting, Content, Beyond;
    var b := At(e, n, s);
    NoOwnedZero(g, d, o);
    assert forall c :: c in o ==> At(e, o[c].0, o[c].1) == At(d, o[c].0, o[c].1) == c;
  }

  /**
   Conversely, a boundary sub-table that the failed growth had to create is
   not given back: the cut keeps a sub-table that starts before it, empty or not.
   */
  lemma RollbackLeaks(g: Geo, d: Disk, o: Owners, e: Disk, o': Owners, f: Disk, n: nat, lo: nat, i: nat)
    requires Sound(g, d, o) && Sound(g, e, o') && GrewFrom(g, d, e, n, lo) && SameStrays(g, d, o, e, o')
    requires TrimmedTo(g, e, o', n, lo, f) && Sound(g, f, o' - Dropped(g, e, o', n, lo))
    requires Lbn(g, SubTable(i)) < lo && At(d, n, SubTable(i)) == 0 && At(e, n, SubTable(i)) != 0
    ensures At(e, n, SubTable(i)) in FreeSet(g, d) && At(e, n, SubTable(i)) !in FreeSet(g, f)
  {
    hide Marked, At, Accounting, Content, Beyond, GrewFrom;
    NewBlockWasFree(g, d, o, e, o', n, lo, SubTable(i));
    assert At(f, n, SubTable(i)) == At(e, n, SubTable(i));
  }

  lemma HasTwo(s: set<nat>, a: nat, b: nat)
    requires a in s && b in s && a != b
    ensures |s| >= 2
  {
    assert s == {a, b} + (s - {a, b});
  }

  lemma AtMostOne(s: set<nat>, a: nat)
    requires s <= {a}
    ensures |s| <= 1
  {
    if a in s {
      assert s == {a};
    } else {
      assert s == {};
    }
  }

  lemma TablesAbove(d: Disk, n: nat, i: nat)
    requires At(d, n, SubTable(i)) != 0
    ensures At(d, n, DoubleIndirect) != 0
  {
    hide Word;
  }

  /** A growth that created the boundary sub-table had the blocks for it. */
  lemma CreatedHadRoom(g: Geo, d: Disk, o: Owners, e: Disk, o': Owners, n: nat, lo: nat, i: nat)
    requires Sound(g, d, o) && Sound(g, e, o') && GrewFrom(g, d, e, n, lo) && SameStrays(g, d, o, e, o')
    requires At(d, n, SubTable(i)) == 0 && At(e, n, SubTable(i)) != 0
    ensures |FreeSet(g, d)| >= TablesNeeded(d, n)
  {
    hide Marked, At, Accounting, Content, Beyond, GrewFrom, FreeSet, SameStrays;
    NewBlockWasFree(g, d, o, e, o', n, lo, SubTable(i));
    TablesAbove(e, n, i);
    var b := At(e, n, SubTable(i));
    if At(d, n, DoubleIndirect) == 0 {
      NewBlockWasFree(g, d, o, e, o', n, lo, DoubleIndirect);
      HasTwo(FreeSet(g, d), b, At(e, n, DoubleIndirect));
    } else {
      assert FreeSet(g, d) != {};
    }
  }

  lemma StraddledLeaf(g: Geo, i: nat, lo: nat)
    requires g.PerBlock() > 0 && Straddles(g, i, lo)
    ensures lo < MaxBlocks(g) && LeafOf(g, lo).SubEntry? && LeafOf(g, lo).i == i
  {
    var per := g.PerBlock();
    DivMod(i, lo - NDIR - per - i * per, per);
    MulMonotone(i + 1, per, per);
  }

  /** What was free and is not any more hangs in a slot on the way to the leaf. */
  lemma TakenIsOnPath(g: Geo, d: Disk, o: Owners, e: Disk, o': Owners, n: nat, leaf: Slot, b: nat)
    requires Sound(g, d, o) && Sound(g, e, o') && Grew(g, d, e, n, leaf) && SameStrays(g, d, o, e, o')
    requires b in FreeSet(g, d) && FreeSet(g, e) == {}
    ensures b in o' && o'[b].0 == n && OnPath(o'[b].1, leaf) && At(e, n, o'[b].1) == b && At(d, n, o'[b].1) == 0
  {
    hide Marked, At, Accounting, Content, OnPath, SectorsOk;
    assert b !in FreeSet(g, e);
    assert Marked(g, e, b) && b !in o;
    NoOwnedZero(g, e, o');
  }

  /** A growth that stopped without creating the boundary sub-table lacked the blocks for it. */
  lemma MissingHadNoRoom(g: Geo, d: Disk, o: Owners, e: Disk, o': Owners, n: nat, lo: nat, i: nat)
    requires Sound(g, d, o) && Sound(g, e, o') && SameStrays(g, d, o, e, o') && g.PerBlock() > 0
    requires Stuck(g, d, e, n, lo) && Straddles(g, i, lo) && At(e, n, SubTable(i)) == 0
    ensures |FreeSet(g, d)| < TablesNeeded(d, n)
  {
    hide Marked, At, Accounting, Content, FreeSet, SameStrays, Sound, Grew, LeafOf, Straddles, MaxBlocks;
    StraddledLeaf(g, i, lo);
    var leaf := LeafOf(g, lo);
    NothingBelowSub(e, n, i, leaf.j);
    var c := At(e, n, DoubleIndirect);
    forall b | b in FreeSet(g, d)
      ensures b == c && At(d, n, DoubleIndirect) == 0
    {
      TakenIsOnPath(g, d, o, e, o', n, leaf, b);
      NoZeroFree(g, d, o);
    }
    AtMostOne(FreeSet(g, d), c);
    if At(d, n, DoubleIndirect) != 0 {
      assert FreeSet(g, d) == {};
    }
  }

  lemma NothingBelowSub(d: Disk, n: nat, i: nat, j: nat)
    requires At(d, n, SubTable(i)) == 0
    ensures At(d, n, SubEntry(i, j)) == 0
  {
    hide Word;
  }

  lemma NoZeroFree(g: Geo, d: Disk, o: Owners)
    requires Sound(g, d, o)
    ensures 0 !in FreeSet(g, d)
  {
    hide At, Accounting, OwnedBy;
  }

  /** Whether the boundary sub-table was created can be told from the image before the growth. */
  lemma BoundaryIsKept(g: Geo, d: Disk, o: Owners, e: Disk, o': Owners, n: nat, lo: nat)
    requires Sound(g, d, o) && Sound(g, e, o') && GrewFrom(g, d, e, n, lo) && SameStrays(g, d, o, e, o')
    requires NothingLeaks(g, d, n, lo)
    ensures BoundaryKept(g, d, e, n, lo)
  {
    hide Marked, At, Accounting, Content, Beyond, FreeSet, SameStrays, TablesNeeded, Sound, Straddles;
    forall i: nat | Straddles(g, i, lo)
      ensures At(e, n, SubTable(i)) == At(d, n, SubTable(i))
    {
      if At(d, n, SubTable(i)) == 0 && At(e, n, SubTable(i)) != 0 {
        CreatedHadRoom(g, d, o, e, o', n, lo, i);
      }
    }
  }

  /** The free blocks come back exactly if the boundary sub-table was there or there was no room for it. */
  lemma LeakExactly(g: Geo, d: Disk, o: Owners, e: Disk, o': Owners, f: Disk, n: nat, lo: nat)
    requires Sound(g, d, o) && Sound(g, e, o') && GrewFrom(g, d, e, n, lo) && SameStrays(g, d, o, e, o')
    requires TrimmedTo(g, e, o', n, lo, f) && Sound(g, f, o' - Dropped(g, e, o', n, lo))
    requires g.PerBlock() > 0 && Stuck(g, d, e, n, lo)
    ensures NothingLeaks(g, d, n, lo) <==> FreeSet(g, f) == FreeSet(g, d) + Dropped(g, d, o, n, lo)
    ensures NothingLeaks(g, d, n, lo) ==> o' - Dropped(g, e, o', n, lo) == o - Dropped(g, d, o, n, lo)
    ensures NothingLeaks(g, d, n, lo) ==> forall s :: At(f, n, s) == Cut(g, d, n, s, lo)
  {
    hide Marked, At, Drops, Accounting, Content, OwnedBy, Dropped, FreeSet, SameStrays, Beyond, Sound, GrewFrom, TablesNeeded, Stuck, TrimmedTo, BoundaryKept, Cut;
    if NothingLeaks(g, d, n, lo) {
      BoundaryIsKept(g, d, o, e, o', n, lo);
      RollbackRestores(g, d, o, e, o', f, n, lo);
    } else {
      var i: nat :| Straddles(g, i, lo) && At(d, n, SubTable(i)) == 0;
      if At(e, n, SubTable(i)) == 0 {
        MissingHadNoRoom(g, d, o, e, o', n, lo, i);
      } else {
        RollbackLeaks(g, d, o, e, o', f, n, lo, i);
        assert At(e, n, SubTable(i)) in FreeSet(g, d) + Dropped(g, d, o, n, lo);
      }
    }
  }

  /** A file mapped from its first block to its last, with no table that names nothing. */
  ghost predicate Dense(g: Geo, d: Disk, n: nat, lo: nat)
    requires g.PerBlock() > 0
  {
    && (forall lbn :: 0 <= lbn < lo ==> At(d, n, LeafOf(g, lbn)) != 0)
    && (forall s: Slot :: s.Leaf() && Lbn(g, s) >= lo ==> At(d, n, s) == 0)
    && (At(d, n, Indirect) != 0 ==> exists i: nat :: At(d, n, IndEntry(i)) != 0)
    && (At(d, n, DoubleIndirect) != 0 ==> exists i: nat :: At(d, n, SubTable(i)) != 0)
    && (forall i: nat :: At(d, n, SubTable(i)) != 0 ==> exists j: nat :: At(d, n, SubEntry(i, j)) != 0)
  }

  lemma DenseBoundary(g: Geo, d: Disk, n: nat, lo: nat)
    requires g.PerBlock() > 0 && Dense(g, d, n, lo)
    ensures BoundaryPresent(g, d, n, lo)
  {
    hide Word;
    forall i: nat | Straddles(g, i, lo)
      ensures At(d, n, SubTable(i)) != 0
    {
      LbnRoundTrip(g, SubEntry(i, 0));
      assert At(d, n, LeafOf(g, Lbn(g, SubEntry(i, 0)))) != 0;
    }
  }

  lemma DenseSub(g: Geo, d: Disk, n: nat, lo: nat, i: nat)
    requires g.PerBlock() > 0 && Dense(g, d, n, lo) && At(d, n, SubTable(i)) != 0
    ensures Lbn(g, SubTable(i)) < lo
  {
    hide At;
    var j: nat :| At(d, n, SubEntry(i, j)) != 0;
    assert SubEntry(i, j).Leaf();
    if j >= g.PerBlock() || Lbn(g, SubTable(i)) >= lo {
      assert Lbn(g, SubEntry(i, j)) >= Lbn(g, SubTable(i));
    }
  }

  /** A trim of a dense file at its own end gives nothing back. */
  lemma DenseDropsNothing(g: Geo, d: Disk, owner: Owners, n: nat, lo: nat)
    requires Shape(g, d) && OwnedBy(g, d, owner) && g.PerBlock() > 0 && Dense(g, d, n, lo)
    ensures Dropped(g, d, owner, n, lo) == {}
  {
    hide Marked, At;
    EntriesInRange(g, d, owner, n);
    forall b | b in owner && owner[b].0 == n
      ensures !Drops(g, d, n, owner[b].1, lo)
    {
      var s := owner[b].1;
      assert At(d, n, s) == b != 0;
      match s {
        case SubTable(i) => DenseSub(g, d, n, lo, i);
        case Indirect =>
          var i: nat :| At(d, n, IndEntry(i)) != 0;
          assert IndEntry(i).Leaf() && owner[At(d, n, IndEntry(i))].1 == IndEntry(i);
        case DoubleIndirect =>
          var i: nat :| At(d, n, SubTable(i)) != 0;
          DenseSub(g, d, n, lo, i);
          assert owner[At(d, n, SubTable(i))].1 == SubTable(i);
        case _ =>
      }
    }
  }

  // ----------------------------------------------------------------- sizes

  /** A stored size above this is read as its low 32 bits. */
  const MAX_SIZE := 0x100_0000_0000

  function CeilDiv(size: nat, bs: nat): nat
    requires bs > 0
  {
    (size + bs - 1) / bs
  }

  lemma CeilCovers(size: nat, bs: nat)
    requires bs > 0
    ensures size <= CeilDiv(size, bs) * bs
  {
    var x := size + bs - 1;
    assert x == x / bs * bs + x % bs;
  }

  lemma CeilFits(size: nat, bs: nat)
    requires bs >= 1024 && size <= MAX_SIZE
    ensures CeilDiv(size, bs) < U32
  {
    var x := size + bs - 1;
    assert x == x / bs * bs + x % bs;
    if x / bs >= U32 {
      MulMonotone(U32, x / bs, bs);
    }
  }

  /** Sizes up to 1 TB read back as they were stored. */
  lemma SizeRoundTrip(ino: Inode, size: nat)
    requires size <= MAX_SIZE
    ensures WithSize(ino, size).Size() == size
  {
  }

  /** The size after a write-back that asked for `size`, which was no less than before. */
  lemma WrittenSize(ino: Inode, ino': Inode, size: nat)
    requires ino.Size() <= size <= MAX_SIZE
    ensures SameIdentity(ino', ino) ==> ino'.Size() == ino.Size() && ino'.regular == ino.regular
    ensures (if size > ino.Size() then SameIdentity(ino', WithSize(ino, size)) else SameIdentity(ino', ino)) ==> ino'.Size() == size
  {
    SizeRoundTrip(ino, size);
  }

  lemma MappedStays(g: Geo, e: Disk, f: Disk, n: nat, leaf: Slot)
    requires Grew(g, e, f, n, leaf)
    ensures g.PerBlock() > 0 ==> forall lbn: nat :: BlockOf(g, e, n, lbn) != 0 ==> BlockOf(g, f, n, lbn) != 0
  {
    hide At, Content, OnPath, LeafOf;
  }

  /** The blocks a size needs, as 64- and 32-bit arithmetic has it. */
  function BlocksFor(g: Geo, size: nat): nat
    requires g.blockSize > 0
  {
    (size + g.blockSize - 1) % U64 / g.blockSize % U32
  }

  lemma SmallSize(g: Geo, size: nat)
    requires g.Ok() && size <= MAX_SIZE
    ensures BlocksFor(g, size) == CeilDiv(size, g.blockSize)
    ensures size <= BlocksFor(g, size) * g.blockSize
  {
    hide CeilDiv;
    CeilFits(size, g.blockSize);
    CeilCovers(size, g.blockSize);
    CeilOf(size, g.blockSize);
    assert CeilDiv(size, g.blockSize) % U32 == CeilDiv(size, g.blockSize);
  }

  lemma CeilOf(size: nat, bs: nat)
    requires 0 < bs <= 4096 && size <= MAX_SIZE
    ensures (size + bs - 1) % U64 / bs == CeilDiv(size, bs)
  {
  }

  lemma SizeIsSmall(ino: Inode)
    requires ino.Ok()
    ensures ino.Size() <= MAX_SIZE
  {
  }

  /** d with the size fields of inode n set. */
  function Sized(d: Disk, n: nat, size: nat): Disk
    requires n in d.inodes
  {
    d.(inodes := d.inodes[n := WithSize(d.inodes[n], size)])
  }

  /** A shrink is a new size and then a cut at the blocks that size needs. */
  ghost predicate ResizedDown(g: Geo, d: Disk, o: Owners, n: nat, newSize: nat, e: Disk, o': Owners) {
    && g.blockSize > 0 && n in d.inodes && n in e.inodes
    && e.inodes[n].Size() == newSize
    && TrimmedTo(g, Sized(d, n, newSize), o, n, CeilDiv(newSize, g.blockSize), e)
    && o' == o - Dropped(g, Sized(d, n, newSize), o, n, CeilDiv(newSize, g.blockSize))
  }

  /**
   A successful growth stores the new size and maps blocks up to the number
   that the driver's arithmetic gives for it; no byte of any inode changes.
   */
  ghost predicate ResizedUp(g: Geo, d: Disk, n: nat, newSize: nat, e: Disk) {
    && g.blockSize > 0 && g.PerBlock() > 0 && n in d.inodes && e.inodes.Keys == d.inodes.Keys
    && (forall m :: m in d.inodes && m != n ==> e.inodes[m] == d.inodes[m])
    && SameIdentity(e.inodes[n], WithSize(d.inodes[n], newSize))
    && MapGrew(g, d, e, n, BlocksFor(g, d.inodes[n].Size()))
    && forall lbn :: BlocksFor(g, d.inodes[n].Size()) <= lbn < BlocksFor(g, newSize) ==> BlockOf(g, e, n, lbn) != 0
  }

  /** The file is as long as was asked for, and every block from its old end to its new one is mapped. */
  ghost predicate GrewFully(g: Geo, d: Disk, n: nat, newSize: nat, e: Disk)
    requires g.blockSize > 0 && g.PerBlock() > 0 && n in d.inodes && n in e.inodes
  {
    && e.inodes[n].Size() == newSize
    && forall lbn :: CeilDiv(d.inodes[n].Size(), g.blockSize) <= lbn < CeilDiv(newSize, g.blockSize)
                     ==> BlockOf(g, e, n, lbn) != 0
  }

  /** A growth that reports success is what was asked for exactly up to 1 TB. */
  lemma FullyExactly(g: Geo, d: Disk, n: nat, newSize: nat, e: Disk)
    requires g.Ok() && ResizedUp(g, d, n, newSize, e) && d.inodes[n].Ok() && e.inodes[n].Ok()
    ensures GrewFully(g, d, n, newSize, e) <==> newSize <= MAX_SIZE
  {
    hide CeilDiv, BlocksFor, BlockOf, MapGrew, Geo.Ok;
    SizeIsSmall(d.inodes[n]);
    SizeIsSmall(e.inodes[n]);
    SmallSize(g, d.inodes[n].Size());
    if newSize <= MAX_SIZE {
      SmallSize(g, newSize);
      SizeRoundTrip(d.inodes[n], newSize);
    }
  }

  /** Above that it can be anything: block size times 2^32 needs no blocks and is stored as an empty file. */
  lemma WrappedSize(g: Geo, ino: Inode)
    requires g.Ok() && ino.Ok()
    ensures ino.Size() < g.blockSize * U32 < U64
    ensures BlocksFor(g, g.blockSize * U32) == 0 && WithSize(ino, g.blockSize * U32).Size() == 0
  {
    hide Geo.Ok;
    BlockSizes(g);
    SizeIsSmall(ino);
  }

  /** No byte of inode n changed, so what a growth adds is whatever lay past the old end. */
  lemma GrownReads(g: Geo, d: Disk, n: nat, newSize: nat, e: Disk)
    requires g.Ok() && ResizedUp(g, d, n, newSize, e) && d.inodes[n].Size() <= newSize <= MAX_FILE_BYTES
    ensures var size := d.inodes[n].Size();
            && FileBytes(g, d, n) <= FileBytes(g, e, n)
            && |FileBytes(g, d, n)| == size && |FileBytes(g, e, n)| == newSize
            && (FileBytes(g, e, n) == FileBytes(g, d, n) + Zeros(newSize - size) <==>
                  forall k :: size <= k < newSize ==> ByteAt(g, d, n, k) == 0)
  {
    hide ByteAt, MapGrew, BlocksFor, BlockOf, Geo.Ok;
    BlockSizes(g);
    var size, s, t := d.inodes[n].Size(), FileBytes(g, d, n), FileBytes(g, e, n);
    GrownBytes(g, d, n, newSize, e);
    if t == s + Zeros(newSize - size) {
      forall k | size <= k < newSize
        ensures ByteAt(g, d, n, k) == 0
      {
        assert t[k] == (s + Zeros(newSize - size))[k];
      }
    }
  }

  lemma MapGrewKeepsBytes(g: Geo, d: Disk, e: Disk, n: nat, lo: nat)
    requires g.blockSize >= 4 && MapGrew(g, d, e, n, lo)
    ensures forall m: nat, k: nat :: ByteAt(g, e, m, k) == ByteAt(g, d, m, k)
  {
    hide At, Content, Beyond;
    forall m: nat, k: nat
      ensures ByteAt(g, e, m, k) == ByteAt(g, d, m, k)
    {
      assert LeafOf(g, k / g.blockSize).Leaf();
    }
  }

  /** Nothing is mapped from logical block lo on. */
  ghost predicate EndsAt(g: Geo, d: Disk, n: nat, lo: nat) {
    forall s: Slot :: s.Leaf() && Lbn(g, s) >= lo ==> At(d, n, s) == 0
  }

  lemma PastTheEnd(g: Geo, d: Disk, n: nat, lo: nat, k: nat)
    requires g.blockSize >= 4 && EndsAt(g, d, n, lo) && lo * g.blockSize <= k
    ensures ByteAt(g, d, n, k) == 0
  {
    hide At, LeafOf, Lbn;
    DivCompare(k, lo, g.blockSize);
    LeafRoundTrip(g, k / g.blockSize);
    HoleReadsZero(g, d, n, k);
  }

  lemma HoleReadsZero(g: Geo, d: Disk, n: nat, k: nat)
    requires g.blockSize >= 4 && At(d, n, LeafOf(g, k / g.blockSize)) == 0
    ensures ByteAt(g, d, n, k) == 0
  {
    hide At, LeafOf;
  }

  /** With nothing mapped past the end, only the rest of the last block can show through. */
  lemma OnlyTheLastBlock(g: Geo, d: Disk, n: nat, size: nat, newSize: nat)
    requires g.blockSize >= 4 && EndsAt(g, d, n, CeilDiv(size, g.blockSize))
    ensures var end := CeilDiv(size, g.blockSize) * g.blockSize;
            (forall k :: size <= k < newSize ==> ByteAt(g, d, n, k) == 0) <==>
            (forall k :: size <= k < newSize && k < end ==> ByteAt(g, d, n, k) == 0)
  {
    hide ByteAt, EndsAt, CeilDiv;
    var lo := CeilDiv(size, g.blockSize);
    forall k: nat | lo * g.blockSize <= k
      ensures ByteAt(g, d, n, k) == 0
    {
      PastTheEnd(g, d, n, lo, k);
    }
  }

  /** So such a file grows with zeros exactly if the rest of its last block is clear. */
  lemma GrownWithZeros(g: Geo, d: Disk, n: nat, newSize: nat, e: Disk)
    requires g.Ok() && ResizedUp(g, d, n, newSize, e) && d.inodes[n].Size() <= newSize <= MAX_FILE_BYTES
    requires EndsAt(g, d, n, CeilDiv(d.inodes[n].Size(), g.blockSize))
    ensures var size := d.inodes[n].Size();
            FileBytes(g, e, n) == FileBytes(g, d, n) + Zeros(newSize - size) <==>
            forall k :: size <= k < newSize && k < CeilDiv(size, g.blockSize) * g.blockSize ==> ByteAt(g, d, n, k) == 0
  {
    hide ByteAt, EndsAt, CeilDiv, MapGrew, BlocksFor, Geo.Ok, FileBytes;
    BlockSizes(g);
    GrownReads(g, d, n, newSize, e);
    OnlyTheLastBlock(g, d, n, d.inodes[n].Size(), newSize);
  }

  /** A shrink keeps the bytes of the blocks it keeps, the last one's rest included, and drops all others. */
  lemma ShrunkReads(g: Geo, d: Disk, o: Owners, n: nat, newSize: nat, e: Disk, o': Owners, k: nat)
    requires Sound(g, d, o) && ResizedDown(g, d, o, n, newSize, e, o')
    ensures EndsAt(g, e, n, CeilDiv(newSize, g.blockSize))
    ensures ByteAt(g, e, n, k) == if k < CeilDiv(newSize, g.blockSize) * g.blockSize then ByteAt(g, d, n, k) else 0
  {
    hide Marked, At, Accounting, Dropped, FreeSet, Zeros, CeilDiv, OwnedBy, LeafOf, Lbn;
    var lo, z := CeilDiv(newSize, g.blockSize), Sized(d, n, newSize);
    SizedMap(g, d, n, newSize);
    DivCompare(k, lo, g.blockSize);
    if k < lo * g.blockSize {
      LeafRoundTrip(g, k / g.blockSize);
      KeptContent(g, d, o, n, lo, z, e, LeafOf(g, k / g.blockSize));
    } else {
      PastTheEnd(g, e, n, lo, k);
    }
  }

  lemma ShrunkInode(g: Geo, d: Disk, o: Owners, n: nat, newSize: nat, e: Disk, o': Owners)
    requires ResizedDown(g, d, o, n, newSize, e, o')
    ensures n in e.inodes && e.inodes[n].Size() == newSize && e.inodes[n].regular == d.inodes[n].regular
  {
    hide At, Dropped, FreeSet, CeilDiv;
  }

  lemma GrownBytes(g: Geo, d: Disk, n: nat, newSize: nat, e: Disk)
    requires g.Ok() && g.blockSize >= 4 && ResizedUp(g, d, n, newSize, e) && newSize <= MAX_FILE_BYTES
    ensures |FileBytes(g, e, n)| == newSize
    ensures forall k :: 0 <= k < newSize ==> FileBytes(g, e, n)[k] == ByteAt(g, d, n, k)
  {
    hide ByteAt, MapGrew, BlocksFor, BlockOf, Geo.Ok;
    SizeRoundTrip(d.inodes[n], newSize);
    MapGrewKeepsBytes(g, d, e, n, BlocksFor(g, d.inodes[n].Size()));
  }

  lemma SizedMap(g: Geo, d: Disk, n: nat, size: nat)
    requires n in d.inodes
    ensures Sized(d, n, size).blocks == d.blocks && forall m: nat, s :: At(Sized(d, n, size), m, s) == At(d, m, s)
  {
    hide Word;
  }

  lemma KeptContent(g: Geo, d: Disk, o: Owners, n: nat, lo: nat, z: Disk, e: Disk, s: Slot)
    requires Sound(g, d, o) && z.blocks == d.blocks && forall m: nat, s :: At(z, m, s) == At(d, m, s)
    requires TrimmedTo(g, z, o, n, lo, e) && s.Leaf() && Lbn(g, s) < lo
    ensures Content(g, e, n, s) == Content(g, d, n, s)
  {
    hide Marked, At, Accounting, Dropped, FreeSet, Zeros, Lbn;
  }

  /**
   A failed growth leaves the size alone; every logical block below the old
   end is mapped to the block it had, with the contents it had, and from there
   on there are only holes. The free blocks are the old ones and those that a
   plain cut at the old end gives back, exactly if the boundary sub-table was
   there or there were too few free blocks to create it; then the owners and
   the tables are those of the plain cut as well.
   */
  ghost predicate RolledBack(g: Geo, d: Disk, o: Owners, n: nat, lo: nat, e: Disk, o': Owners) {
    && SameInodes(d, e, n)
    && (forall s: Slot :: s.Leaf() ==> At(e, n, s) == Cut(g, d, n, s, lo))
    && (forall m: nat, s :: m != n ==> At(e, m, s) == At(d, m, s))
    && (forall m: nat, s: Slot :: s.Leaf() && (m != n || Lbn(g, s) < lo) ==> Content(g, e, m, s) == Content(g, d, m, s))
    && (NothingLeaks(g, d, n, lo) <==> FreeSet(g, e) == FreeSet(g, d) + Dropped(g, d, o, n, lo))
    && (NothingLeaks(g, d, n, lo) ==>
          o' == o - Dropped(g, d, o, n, lo) && forall s :: At(e, n, s) == Cut(g, d, n, s, lo))
  }

  lemma RollbackContent(g: Geo, e: Disk, o': Owners, f: Disk, n: nat, lo: nat, m: nat, s: Slot)
    requires Sound(g, e, o') && TrimmedTo(g, e, o', n, lo, f) && s.Leaf() && (m != n || Lbn(g, s) < lo)
    ensures Content(g, f, m, s) == Content(g, e, m, s) && At(f, m, s) == At(e, m, s)
  {
    hide Marked, At, Accounting, Dropped, FreeSet, Zeros;
  }

  lemma RollbackTheorem(g: Geo, d: Disk, o: Owners, e: Disk, o': Owners, f: Disk, n: nat, lo: nat)
    requires Sound(g, d, o) && Sound(g, e, o') && GrewFrom(g, d, e, n, lo) && SameStrays(g, d, o, e, o')
    requires TrimmedTo(g, e, o', n, lo, f) && Sound(g, f, o' - Dropped(g, e, o', n, lo))
    requires g.PerBlock() > 0 && Stuck(g, d, e, n, lo)
    ensures RolledBack(g, d, o, n, lo, f, o' - Dropped(g, e, o', n, lo))
  {
    hide Marked, At, Drops, Accounting, Content, OwnedBy, NothingLeaks, Dropped, FreeSet, SameStrays, Beyond, Shape, Lbn, Cut, Stuck;
    forall s: Slot | s.Leaf()
      ensures At(f, n, s) == Cut(g, d, n, s, lo)
    {
      RollbackLeaf(g, d, e, n, lo, s);
    }
    forall m: nat, s: Slot | s.Leaf() && (m != n || Lbn(g, s) < lo)
      ensures Content(g, f, m, s) == Content(g, d, m, s)
    {
      RollbackContent(g, e, o', f, n, lo, m, s);
    }
    LeakExactly(g, d, o, e, o', f, n, lo);
  }

  /** From d to e not a single pointer, mark or counter changed, and every byte reads as it did. */
  ghost predicate Undone(g: Geo, d: Disk, o: Owners, e: Disk, o': Owners) {
    && o' == o && FreeSet(g, e) == FreeSet(g, d) && e.sbFree == d.sbFree && e.gdFree == d.gdFree
    && (forall m: nat, s :: At(e, m, s) == At(d, m, s))
    && (forall m: nat, s: Slot :: s.Leaf() ==> Content(g, e, m, s) == Content(g, d, m, s))
  }

  /** A failed growth of a file without holes leaves no trace. */
  lemma DenseRollback(g: Geo, d: Disk, o: Owners, n: nat, lo: nat, e: Disk, o': Owners)
    requires Sound(g, d, o) && Sound(g, e, o') && g.PerBlock() > 0
    requires RolledBack(g, d, o, n, lo, e, o') && Dense(g, d, n, lo)
    ensures Undone(g, d, o, e, o')
  {
    hide Marked, At, Accounting, Content, OwnedBy, FreeSet, Dropped, Cut, Dense, BoundaryPresent, TablesNeeded, Shape, Lbn;
    DenseBoundary(g, d, n, lo);
    DenseDropsNothing(g, d, o, n, lo);
    forall s
      ensures At(e, n, s) == At(d, n, s)
      ensures s.Leaf() ==> Content(g, e, n, s) == Content(g, d, n, s)
    {
      DenseCut(g, d, o, n, lo, s);
      DenseLeaf(g, d, e, n, lo, s);
    }
    SameFreeSameCounters(g, d, e);
  }

  lemma DenseCut(g: Geo, d: Disk, o: Owners, n: nat, lo: nat, s: Slot)
    requires OwnedBy(g, d, o) && Dropped(g, d, o, n, lo) == {}
    ensures Cut(g, d, n, s, lo) == At(d, n, s)
  {
    hide Marked, At, Drops;
    if At(d, n, s) != 0 {
      assert At(d, n, s) !in Dropped(g, d, o, n, lo);
    }
  }

  lemma DenseLeaf(g: Geo, d: Disk, e: Disk, n: nat, lo: nat, s: Slot)
    requires g.PerBlock() > 0 && Dense(g, d, n, lo) && At(e, n, s) == At(d, n, s)
    ensures s.Leaf() && Lbn(g, s) >= lo ==> Content(g, e, n, s) == Content(g, d, n, s)
  {
    hide At;
  }

  lemma SameFreeSameCounters(g: Geo, d: Disk, e: Disk)
    requires Accounting(g, d) && Accounting(g, e) && FreeSet(g, e) == FreeSet(g, d)
    ensures e.sbFree == d.sbFree && e.gdFree == d.gdFree
  {
    hide Marked;
    forall i | 0 <= i < |g.bitmap|
      ensures e.gdFree[i] == d.gdFree[i]
    {
      assert FreeIn(g, e, i) == (set b | b in FreeSet(g, e) && g.InRange(b) && g.GroupOf(b) == i);
      assert FreeIn(g, d, i) == (set b | b in FreeSet(g, d) && g.InRange(b) && g.GroupOf(b) == i);
    }
  }

  lemma SectorsAreRight(g: Geo, d: Disk, owner: Owners, n: nat)
    requires WellFormed(g, d, owner) && n in d.inodes
    ensures d.inodes[n].sectors == |OwnedOf(owner, n)| * g.SectorsPerBlock() % U32
  {
    hide Sound, OwnedOf;
    assert SectorsOk(g, d, owner, n);
  }

  lemma MapGrewFrame(g: Geo, d: Disk, e: Disk, f: Disk, n: nat, lo: nat)
    requires MapGrew(g, d, e, n, lo) && f.blocks == e.blocks && forall m: nat, t :: At(f, m, t) == At(e, m, t)
    ensures MapGrew(g, d, f, n, lo)
    ensures g.PerBlock() > 0 ==> forall lbn: nat :: BlockOf(g, f, n, lbn) == BlockOf(g, e, n, lbn)
  {
    hide At, Beyond, LeafOf;
  }
}
