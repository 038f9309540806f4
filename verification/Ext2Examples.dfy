/**
 Two ways to lose blocks, played through on a small volume: a failed growth of
 a file with a hole at its end, and a trim that leaves an empty table behind.
 */
module Ext2Examples {
  import opened Status
  import opened Ext2Layout
  import opened Ext2Disk
  import opened Ext2Grow
  import opened Ext2Trim
  import opened Ext2File
  import opened Ext2Resize
  import opened Ext2Driver

  // ------------------------------------------------------------------- the volume

  /**
   1 KB blocks: superblock, descriptors, block bitmap, inode bitmap and inode
   table in blocks 1 to 5, and k free blocks after them.
   */
  function SmallGeo(k: nat): Geo { Geo(1024, 1, 6 + k, 8192, [3], {1, 2, 3, 4, 5}) }

  /** The only file: 269 KB long, all of it a hole. Its end falls inside the first sub-table. */
  function SparseInode(): Inode { Inode(true, 269 * 1024, 0, 0, seq(15, _ => 0)) }

  function SmallDisk(k: nat): Disk {
    Disk(seq(6 + k, i => SmallBlock(i)), map[11 := SparseInode()], k, [k])
  }

  /** All zeros but for the bitmap, which marks the first five blocks. */
  function SmallBlock(i: int): (r: Block)
    ensures |r| == 1024
  {
    if i == 3 then Zeros(1024)[0 := 31] else Zeros(1024)
  }

  ghost function FreeBlocks(k: nat): set<nat> { set b | 6 <= b < 6 + k && SmallGeo(k).InRange(b) }

  lemma FirstBits(i: nat)
    requires i < 8
    ensures BitOn(31, i) <==> i < 5
  {
    assert BitOn(31, i) <==> i == 0 || BitOn(15, i - 1);
    assert i >= 1 ==> (BitOn(15, i - 1) <==> i == 1 || BitOn(7, i - 2));
    assert i >= 2 ==> (BitOn(7, i - 2) <==> i == 2 || BitOn(3, i - 3));
    assert i >= 3 ==> (BitOn(3, i - 3) <==> i == 3 || BitOn(1, i - 4));
    assert i >= 4 ==> (BitOn(1, i - 4) <==> i == 4 || BitOn(0, i - 5));
    assert i >= 5 ==> !BitOn(0, i - 5);
  }

  lemma SmallMarks(k: nat, b: nat)
    requires k <= 3 && 1 <= b < 6 + k
    ensures Marked(SmallGeo(k), SmallDisk(k), b) <==> b <= 5
  {
    hide BitOn;
    FirstBits(b - 1);
    var g, d := SmallGeo(k), SmallDisk(k);
    assert g.GroupOf(b) == 0 && g.IndexOf(b) == b - 1;
    assert d.blocks[3] == Zeros(1024)[0 := 31] && d.blocks[3][0] == 31;
  }

  lemma SmallVolume(k: nat)
    requires k <= 3
    ensures WellFormed(SmallGeo(k), SmallDisk(k), map[]) && FreeSet(SmallGeo(k), SmallDisk(k)) == FreeBlocks(k)
    ensures forall n: nat, s :: At(SmallDisk(k), n, s) == 0
  {
    hide Marked, Shape;
    var g, d := SmallGeo(k), SmallDisk(k);
    forall b | 1 <= b < 6 + k
      ensures Marked(g, d, b) <==> b <= 5
    {
      SmallMarks(k, b);
    }
    assert FreeSet(g, d) == FreeBlocks(k) && FreeIn(g, d, 0) == FreeBlocks(k);
    Sizes(k);
    SmallShape(k);
    assert OwnedOf(map[], 11) == {};
    assert forall n: nat, s :: At(d, n, s) == 0;
  }

  lemma SmallGeoOk(k: nat)
    requires k <= 3
    ensures SmallGeo(k).Ok()
  {
    var g := SmallGeo(k);
    assert forall b: nat :: g.HoldsCounters(b) ==> b == 1 || b == 2;
  }

  lemma SmallShape(k: nat)
    requires k <= 3
    ensures Shape(SmallGeo(k), SmallDisk(k))
  {
    hide Geo.Ok;
    SmallGeoOk(k);
  }

  lemma {:induction false} Sizes(k: nat)
    ensures |FreeBlocks(k)| == k
  {
    if k == 0 {
      assert FreeBlocks(0) == {};
    } else {
      Sizes(k - 1);
      assert FreeBlocks(k) == FreeBlocks(k - 1) + {5 + k};
    }
  }

  lemma SmallFile(k: nat)
    ensures SmallDisk(k).inodes == map[11 := SparseInode()] && SparseInode().regular
    ensures SparseInode().Size() == 269 * 1024 && Dropped(SmallGeo(k), SmallDisk(k), map[], 11, 269) == {}
    ensures BlocksFor(SmallGeo(k), SparseInode().Size()) == 269 && SmallGeo(k).PerBlock() == 256
    ensures Straddles(SmallGeo(k), 0, 269) && LeafOf(SmallGeo(k), 269) == SubEntry(0, 1)
  {
    hide Drops;
  }

  /** Whatever happens on it, only those blocks can be free. */
  lemma SmallFree(k: nat, d: Disk, owner: Owners)
    requires Sound(SmallGeo(k), d, owner)
    ensures FreeSet(SmallGeo(k), d) <= FreeBlocks(k)
  {
    hide Accounting, OwnedBy, Shape, Marked;
    assert forall b :: b in SmallGeo(k).reserved ==> Marked(SmallGeo(k), d, b);
  }

  // ------------------------------------------------------------ a growth that leaks

  /** A growth that fails leaks here: the end lies inside a missing sub-table, and two blocks suffice for tables. */
  lemma SparseLeaks(k: nat)
    requires 2 <= k <= 3
    ensures !NothingLeaks(SmallGeo(k), SmallDisk(k), 11, 269)
  {
    hide Marked, At, FreeSet;
    SmallVolume(k);
    SmallFile(k);
    Sizes(k);
  }

  /** Three blocks do not fit where only two are to be had. */
  lemma NoRoomForThree(d: Disk, owner: Owners, n: nat)
    requires Sound(SmallGeo(2), d, owner)
    ensures At(d, n, SubEntry(0, 1)) == 0
  {
    hide Marked, Accounting, Shape, Word;
    var a, b, c := At(d, n, DoubleIndirect), At(d, n, SubTable(0)), At(d, n, SubEntry(0, 1));
    assert c != 0 ==> a in owner && b in owner && c in owner;
  }

  /** A failed growth by one block that leaks: no block of the file is mapped, yet fewer are free than before. */
  method LeakingGrowth() returns (fs: Ext2, status: Status)
    ensures fresh(fs) && fs.g == SmallGeo(2) && fs.Valid()
    ensures status != Ok && 11 in fs.disk.inodes && fs.disk.inodes[11].Size() == SparseInode().Size()
    ensures forall s: Slot :: s.Leaf() ==> At(fs.disk, 11, s) == 0
    ensures FreeSet(SmallGeo(2), SmallDisk(2)) == FreeBlocks(2) && FreeSet(fs.g, fs.disk) < FreeBlocks(2)
  {
    hide Marked, Accounting, OwnedBy, At, Content, CrashSafe, FreeSet, SectorsOk, MapGrew, WellFormed, Dropped, NothingLeaks, GrewFully, Dense, Undone, Drops, SmallDisk, SparseInode, BlocksFor, LeafOf, Straddles, FreeBlocks;
    SmallVolume(2);
    SparseLeaks(2);
    SmallFile(2);
    NewBlocks();
    fs := new Ext2(SmallGeo(2), SmallDisk(2), map[]);
    status := fs.ResizeFile(11, 270 * 1024);
    ValidIsSound(fs.g, fs.disk, fs.owner);
    NoRoomForThree(fs.disk, fs.owner, 11);
    assert BlockOf(fs.g, fs.disk, 11, 269) == 0;
    SmallFree(2, fs.disk, fs.owner);
  }

  lemma NewBlocks()
    ensures BlocksFor(SmallGeo(2), 270 * 1024) == 270
  {
  }

  // ------------------------------------------------------- a trim that leaves a table

  /** With three blocks there is room for both tables and the block itself. */
  lemma RoomForThree(o: Owners, e: Disk, o': Owners)
    requires Sound(SmallGeo(3), SmallDisk(3), o) && Sound(SmallGeo(3), e, o') && FreeSet(SmallGeo(3), SmallDisk(3)) == FreeBlocks(3)
    requires Grew(SmallGeo(3), SmallDisk(3), e, 11, SubEntry(0, 1)) && SameStrays(SmallGeo(3), SmallDisk(3), o, e, o')
    requires FreeSet(SmallGeo(3), e) == {}
    ensures At(e, 11, SubEntry(0, 1)) != 0
  {
    hide Marked, At, Accounting, Content, FreeSet, SameStrays, Sound, Grew, SmallDisk;
    forall b | b in FreeBlocks(3)
      ensures b == At(e, 11, DoubleIndirect) || b == At(e, 11, SubTable(0)) || b == At(e, 11, SubEntry(0, 1))
    {
      TakenIsOnPath(SmallGeo(3), SmallDisk(3), o, e, o', 11, SubEntry(0, 1), b);
    }
    assert 6 in FreeBlocks(3) && 7 in FreeBlocks(3) && 8 in FreeBlocks(3);
  }

  /**
   Block 269 of the file is mapped, and then the file is cut off right before
   it. The file names no data any more, but both tables stay allocated.
   */
  method TrimLeavesTables() returns (fs: Ext2)
    ensures fresh(fs) && fs.g == SmallGeo(3) && fs.Valid() && FreeSet(SmallGeo(3), SmallDisk(3)) == FreeBlocks(3)
    ensures forall s: Slot :: s.Leaf() ==> At(fs.disk, 11, s) == 0
    ensures At(fs.disk, 11, SubTable(0)) != 0 && At(fs.disk, 11, DoubleIndirect) != 0
    ensures FreeSet(fs.g, fs.disk) < FreeBlocks(3)
  {
    hide Marked, Accounting, OwnedBy, At, Content, CrashSafe, FreeSet, SectorsOk, WellFormed, Dropped, Drops, SmallDisk, SparseInode, Grew, SameStrays, TrimmedTo, LeafOf, Straddles, FreeBlocks;
    SmallVolume(3);
    SmallFile(3);
    fs := new Ext2(SmallGeo(3), SmallDisk(3), map[]);
    var status, blk, ino := fs.GetOrAllocBlock(11, SparseInode(), 269, true);
    ghost var e, o := fs.disk, fs.owner;
    ValidIsSound(SmallGeo(3), SmallDisk(3), map[]);
    ValidIsSound(fs.g, e, o);
    if FreeSet(fs.g, e) == {} {
      RoomForThree(map[], e, o);
    }
    assert At(e, 11, SubEntry(0, 1)) != 0;
    OnlyOneLeaf(e);
    ino := fs.TrimInodeBlocks(11, ino, 269);
    TablesStay(e, o, fs.disk);
    ValidIsSound(fs.g, fs.disk, fs.owner);
    SmallFree(3, fs.disk, fs.owner);
  }

  lemma OnlyOneLeaf(e: Disk)
    requires Grew(SmallGeo(3), SmallDisk(3), e, 11, SubEntry(0, 1)) && forall n: nat, s :: At(SmallDisk(3), n, s) == 0
    ensures forall s: Slot :: s.Leaf() && s != SubEntry(0, 1) ==> At(e, 11, s) == 0
  {
    hide At, Content, SmallDisk;
  }

  lemma TablesStay(e: Disk, o: Owners, f: Disk)
    requires Sound(SmallGeo(3), e, o) && TrimmedTo(SmallGeo(3), e, o, 11, 269, f)
    requires At(e, 11, SubEntry(0, 1)) != 0 && forall s: Slot :: s.Leaf() && s != SubEntry(0, 1) ==> At(e, 11, s) == 0
    ensures Hollow(SmallGeo(3), e, 11, 269, 0)
    ensures forall s: Slot :: s.Leaf() ==> At(f, 11, s) == 0
    ensures At(f, 11, SubTable(0)) != 0 && At(f, 11, DoubleIndirect) != 0
    ensures At(f, 11, SubTable(0)) in FreeBlocks(3) && At(f, 11, SubTable(0)) !in FreeSet(SmallGeo(3), f)
  {
    hide Marked, At, Accounting, Dropped, FreeSet, Shape, Hollow, EmptiedSub;
    TablesThere(e);
    HollowHere(e);
    HollowIsEmptied(SmallGeo(3), e, o, 11, 269, f, 0);
    EmptiedExactly(SmallGeo(3), e, o, 11, 269, f, 0);
    OwnedBlock(SmallGeo(3), e, o, 11, SubTable(0));
    assert Cut(SmallGeo(3), e, 11, SubEntry(0, 1), 269) == 0;
  }

  lemma TablesThere(e: Disk)
    requires At(e, 11, SubEntry(0, 1)) != 0
    ensures At(e, 11, SubTable(0)) != 0 && At(e, 11, DoubleIndirect) != 0
  {
    hide Word;
  }

  lemma HollowHere(e: Disk)
    requires At(e, 11, SubTable(0)) != 0 && forall s: Slot :: s.Leaf() && s != SubEntry(0, 1) ==> At(e, 11, s) == 0
    ensures Hollow(SmallGeo(3), e, 11, 269, 0)
  {
    hide At;
  }
}
