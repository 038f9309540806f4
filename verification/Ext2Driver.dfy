/**
 The EXT2 write path of kernel/fs/ext2.c on a mounted file system: block
 allocator, block map, trimming, and whole-file read, write and resize.
 */
module Ext2Driver {
  import opened Arithmetic
  import opened Common
  import opened Status
  import opened Ext2Layout
  import opened Ext2Disk
  import opened Ext2Bitmap
  import opened Ext2Attach
  import opened Ext2Grow
  import opened Ext2Tables
  import opened Ext2Trim
  import opened Ext2File
  import opened Ext2Resize
  import opened Ext2Needs

  /** The first clear bit below `limit`, or `limit`. */
  method FindClearBit(bmap: Block, limit: nat) returns (bi: nat)
    requires limit <= 8 * |bmap|
    ensures bi <= limit
    ensures forall j :: 0 <= j < bi ==> Bit(bmap, j)
    ensures bi < limit ==> !Bit(bmap, bi)
  {
    hide BitOn;
    bi := 0;
    while bi < limit
      invariant bi <= limit
      invariant forall j :: 0 <= j < bi ==> Bit(bmap, j)
    {
      if !Bit(bmap, bi) {
        return;
      }
      bi := bi + 1;
    }
  }

  /** Whether any entry of a pointer table is in use. */
  method AnyEntry(tab: Block) returns (any: bool)
    ensures any <==> exists i :: 0 <= i < |tab| / 4 && Word(tab, i) != 0
  {
    hide Word;
    for i := 0 to |tab| / 4
      invariant forall j :: 0 <= j < i ==> Word(tab, j) == 0
    {
      if Word(tab, i) != 0 {
        return true;
      }
    }
    return false;
  }

  /** From d to e the device writes were added to the trace t, the last of which left e; without any, nothing changed. */
  ghost predicate Logged(t: seq<Disk>, d: Disk, t': seq<Disk>, e: Disk) {
    t <= t' && if |t'| == |t| then e == d else t'[|t'| - 1] == e
  }

  /** The mount context together with the device it writes to. */
  class Ext2 {
    const g: Geo
    var disk: Disk           // what is on the device
    var sbFree: nat          // free counters held in memory
    var gdFree: seq<nat>
    ghost var owner: Owners  // which slot names which block
    ghost var trace: seq<Disk> // the image after each device write so far

    /** Mounting reads the counters into memory and takes the rest of the image on trust. */
    constructor (g: Geo, d: Disk, ghost owner: Owners)
      requires WellFormed(g, d, owner)
      ensures this.g == g && disk == d && this.owner == owner && Valid() && SafeTrace()
    {
      this.g, disk, this.owner, trace := g, d, owner, [];
      sbFree, gdFree := d.sbFree, d.gdFree;
    }

    ghost predicate Synced()
      reads this
    {
      sbFree == disk.sbFree && gdFree == disk.gdFree
    }

    ghost predicate Valid()
      reads this
    {
      Synced() && WellFormed(g, disk, owner)
    }

    /** Every image the device has held would survive a crash. */
    ghost predicate SafeTrace()
      reads this
    {
      forall k :: 0 <= k < |trace| ==> CrashSafe(g, trace[k])
    }

    // ------------------------------------------------------ device writes

    method WriteBlock(b: nat, data: Block)
      requires b < |disk.blocks|
      modifies this`disk, this`trace
      ensures disk == WithBlock(old(disk), b, data)
      ensures trace == old(trace) + [disk]
    {
      disk := WithBlock(disk, b, data);
      trace := trace + [disk];
    }

    method WriteInode(n: nat, ino: Inode)
      modifies this`disk, this`trace
      ensures disk == old(disk).(inodes := old(disk).inodes[n := ino])
      ensures trace == old(trace) + [disk]
    {
      disk := disk.(inodes := disk.inodes[n := ino]);
      trace := trace + [disk];
    }

    method SyncCounters()
      modifies this`disk, this`trace
      ensures disk == old(disk).(sbFree := sbFree, gdFree := gdFree)
      ensures trace == old(trace) + [disk]
    {
      disk := disk.(sbFree := sbFree, gdFree := gdFree);
      trace := trace + [disk];
    }

    // ---------------------------------------------------------- allocator

    /** Takes the lowest-numbered free block; fails exactly when there is none. */
    method AllocBlock() returns (status: Status, blk: nat)
      requires Synced() && Shape(g, disk) && Accounting(g, disk)
      modifies this`disk, this`sbFree, this`gdFree, this`trace
      ensures Logged(old(trace), old(disk), trace, disk)
      ensures status == Ok || status == Generic
      ensures status == Generic ==> unchanged(this) && FreeSet(g, disk) == {}
      ensures status == Ok ==>
                && g.InRange(blk) && !Marked(g, old(disk), blk)
                && (forall c :: g.first <= c < blk ==> Marked(g, old(disk), c))
                && old(disk).sbFree > 0
                && (forall i :: 0 <= i < |old(disk).gdFree| ==> i == g.GroupOf(blk) ==> old(disk).gdFree[i] > 0)
                && disk == Taken(g, old(disk), blk)
                && trace == old(trace) + [WithMark(g, old(disk), blk, true), disk]
                && Synced()
    {
      hide Marked, Bit, SetBit, GroupMarked;
      status, blk := Generic, 0;
      if sbFree == 0 {
        return;
      }
      var grp := 0;
      while grp < |g.bitmap|
        invariant 0 <= grp <= |g.bitmap|
        invariant unchanged(this)
        invariant forall k :: 0 <= k < grp ==> GroupMarked(g, disk, k)
      {
        if gdFree[grp] == 0 || g.bitmap[grp] == 0 {
          EmptyCounter(g, disk, grp);
        } else {
          var bmap := disk.blocks[g.bitmap[grp]];
          var bi := FindClearBit(bmap, GroupBlocks(g, grp));
          if bi < GroupBlocks(g, grp) {
            FirstFree(g, disk, grp, bi);
            TakeBit(grp, bi);
            return Ok, g.first + grp * g.perGroup + bi;
          }
          ScannedGroup(g, disk, grp);
        }
        grp := grp + 1;
      }
      NothingFree(g, disk);
      assert false; // the counter promised a clear bit
    }

    /** Sets a clear bit in its bitmap and lowers both counters, writing each to disk. */
    method TakeBit(grp: nat, bi: nat)
      requires Synced() && Shape(g, disk) && Accounting(g, disk)
      requires g.InRange(g.first + grp * g.perGroup + bi) && grp < |g.bitmap|
      requires g.GroupOf(g.first + grp * g.perGroup + bi) == grp && g.IndexOf(g.first + grp * g.perGroup + bi) == bi
      requires !Marked(g, disk, g.first + grp * g.perGroup + bi)
      modifies this`disk, this`sbFree, this`gdFree, this`trace
      ensures Logged(old(trace), old(disk), trace, disk)
      ensures var blk := g.first + grp * g.perGroup + bi;
              && old(disk).sbFree > 0
              && (forall i :: 0 <= i < |old(disk).gdFree| ==> i == g.GroupOf(blk) ==> old(disk).gdFree[i] > 0)
              && disk == Taken(g, old(disk), blk)
              && trace == old(trace) + [WithMark(g, old(disk), blk, true), disk]
              && Synced()
    {
      hide Marked, Bit, SetBit, FreeSet, FreeIn;
      GroupBounds(g, g.first + grp * g.perGroup + bi);
      TakenAccounting(g, disk, g.first + grp * g.perGroup + bi);
      var bmap := SetBit(disk.blocks[g.bitmap[grp]], bi, true);
      WriteBlock(g.bitmap[grp], bmap);
      if gdFree[grp] > 0 {
        gdFree := gdFree[grp := gdFree[grp] - 1];
      }
      if sbFree > 0 {
        sbFree := sbFree - 1;
      }
      SyncCounters();
    }

    /** Gives a block back; freeing a free block changes nothing. */
    method FreeBlock(blk: nat) returns (status: Status)
      requires Synced() && Shape(g, disk) && Accounting(g, disk)
      modifies this`disk, this`sbFree, this`gdFree, this`trace
      ensures Logged(old(trace), old(disk), trace, disk)
      ensures !g.InRange(blk) ==> status == Invalid && unchanged(this)
      ensures g.InRange(blk) ==> status == Ok && Synced()
      ensures g.InRange(blk) && !Marked(g, old(disk), blk) ==> unchanged(this)
      ensures g.InRange(blk) && Marked(g, old(disk), blk) ==>
                && disk == Given(g, old(disk), blk)
                && trace == old(trace) + [WithMark(g, old(disk), blk, false), disk]
    {
      hide Bit, SetBit, FreeSet, FreeIn;
      if blk < g.first || blk >= g.count {
        return Invalid;
      }
      GroupBounds(g, blk);
      var rel := blk - g.first;
      var grp, bi := rel / g.perGroup, rel % g.perGroup;
      var bmap := disk.blocks[g.bitmap[grp]];
      if !Bit(bmap, bi) {
        return Ok;
      }
      GroupCounterFits(g, disk, grp);
      SuperCounterFits(g, disk, blk);
      WriteBlock(g.bitmap[grp], SetBit(bmap, bi, false));
      if gdFree[grp] != U16MAX {
        gdFree := gdFree[grp := gdFree[grp] + 1];
      }
      if sbFree != U32MAX {
        sbFree := sbFree + 1;
      }
      SyncCounters();
      return Ok;
    }

    // ----------------------------------------------------- growing the map

    /** Allocates a block and zeroes it; no pointer names it yet. */
    method FreshBlock() returns (status: Status, blk: nat)
      requires Synced() && Sound(g, disk, owner) && SafeTrace()
      modifies this`disk, this`sbFree, this`gdFree, this`trace
      ensures Logged(old(trace), old(disk), trace, disk)
      ensures status == Ok || status == Generic
      ensures status == Generic ==> unchanged(this) && FreeSet(g, disk) == {}
      ensures status == Ok ==>
                && g.InRange(blk) && !Marked(g, old(disk), blk) && blk != 0
                && old(disk).sbFree > 0
                && (forall i :: 0 <= i < |old(disk).gdFree| ==> i == g.GroupOf(blk) ==> old(disk).gdFree[i] > 0)
                && disk == Fresh(g, old(disk), blk)
                && Synced() && Sound(g, disk, owner) && SafeTrace()
    {
      hide Marked, At, Accounting, OwnedBy, FreeSet, FreeIn, CrashSafe, SetBit;
      status, blk := AllocBlock();
      if status != Ok {
        return;
      }
      FreeIsUnowned(g, old(disk), owner, blk);
      TakenSound(g, old(disk), owner, blk);
      OwnedIsCrashSafe(g, WithMark(g, old(disk), blk, true), owner);
      OwnedIsCrashSafe(g, disk, owner);
      DataWriteSound(g, disk, owner, blk, Zeros(g.blockSize));
      WriteBlock(blk, Zeros(g.blockSize));
      OwnedIsCrashSafe(g, disk, owner);
    }

    /** Fills an empty pointer of the inode itself with a fresh block. */
    method AttachInInode(n: nat, ino: Inode, s: Slot, ghost leaf: Slot)
      returns (status: Status, blk: nat, ino': Inode)
      requires Valid() && SafeTrace()
      requires n in disk.inodes && ino == disk.inodes[n]
      requires InInode(s) && Present(g, disk, n, s) && At(disk, n, s) == 0 && OnPath(s, leaf)
      modifies this
      ensures Logged(old(trace), old(disk), trace, disk)
      ensures status == Ok || status == Generic
      ensures status == Generic ==> unchanged(this) && ino' == ino && FreeSet(g, disk) == {}
      ensures status == Ok ==>
                && Valid() && SafeTrace() && n in disk.inodes && ino' == disk.inodes[n]
                && blk != 0 && At(disk, n, s) == blk && !Marked(g, old(disk), blk)
                && owner == old(owner)[blk := (n, s)]
                && Grew(g, old(disk), disk, n, leaf)
                && SameStrays(g, old(disk), old(owner), disk, owner)
    {
      hide Marked, At, Accounting, OwnedBy, FreeSet, FreeIn, CrashSafe, Grew, Shape, SectorsOk, SameStrays;
      ino' := ino;
      ghost var d := disk;
      status, blk := FreshBlock();
      if status != Ok {
        return;
      }
      FreeCanAttach(g, d, owner, n, s, blk);
      ino' := ino.(block := ino.block[IndexIn(s) := blk], sectors := (ino.sectors + g.SectorsPerBlock()) % U32);
      WriteInode(n, ino');
      assert disk.inodes == Attached(g, d, owner, n, s, blk).inodes;
      assert disk == Attached(g, d, owner, n, s, blk);
      AttachTheorem(g, d, owner, n, s, blk, leaf);
      AttachedMarks(g, d, owner, n, s, blk);
      owner := owner[blk := (n, s)];
      OwnedIsCrashSafe(g, disk, owner);
    }

    /** Fills an empty entry of a pointer table with a fresh block. */
    method AttachInTable(n: nat, ino: Inode, s: Slot, ibuf: Block, ghost leaf: Slot)
      returns (status: Status, blk: nat, ino': Inode)
      requires Valid() && SafeTrace()
      requires n in disk.inodes && ino == disk.inodes[n]
      requires !InInode(s) && Present(g, disk, n, s) && At(disk, n, s) == 0 && OnPath(s, leaf)
      requires Holder(disk, n, s) < |disk.blocks| && ibuf == disk.blocks[Holder(disk, n, s)]
      modifies this
      ensures Logged(old(trace), old(disk), trace, disk)
      ensures status == Ok || status == Generic
      ensures status == Generic ==> unchanged(this) && ino' == ino && FreeSet(g, disk) == {}
      ensures status == Ok ==>
                && Valid() && SafeTrace() && n in disk.inodes && ino' == disk.inodes[n]
                && blk != 0 && At(disk, n, s) == blk && !Marked(g, old(disk), blk)
                && owner == old(owner)[blk := (n, s)]
                && Grew(g, old(disk), disk, n, leaf)
                && SameStrays(g, old(disk), old(owner), disk, owner)
    {
      hide Marked, At, Accounting, OwnedBy, FreeSet, FreeIn, CrashSafe, Grew, Shape, SectorsOk, SameStrays;
      hide Fresh, Pointed, Attached, SetWord, Present, Ready;
      ino' := ino;
      ghost var d := disk;
      status, blk := FreshBlock();
      if status != Ok {
        return;
      }
      FreeCanAttach(g, d, owner, n, s, blk);
      TableWritten(g, d, owner, n, s, blk);
      var h := Holder(disk, n, s);
      WriteBlock(h, SetWord(ibuf, IndexIn(s), blk));
      AttachedSound(g, d, owner, n, s, blk);
      OwnedIsCrashSafe(g, disk, owner[blk := (n, s)]);
      ino' := ino.(sectors := (ino.sectors + g.SectorsPerBlock()) % U32);
      WriteInode(n, ino');
      assert disk == Attached(g, d, owner, n, s, blk);
      AttachTheorem(g, d, owner, n, s, blk, leaf);
      AttachedMarks(g, d, owner, n, s, blk);
      owner := owner[blk := (n, s)];
      OwnedIsCrashSafe(g, disk, owner);
    }

    /** The inode pointer s, filled with a fresh block if it is empty and `alloc` asks for it. */
    method EnsureInInode(n: nat, ino: Inode, s: Slot, alloc: bool, ghost leaf: Slot)
      returns (status: Status, blk: nat, ino': Inode)
      requires Valid() && SafeTrace()
      requires n in disk.inodes && ino == disk.inodes[n]
      requires InInode(s) && Present(g, disk, n, s) && OnPath(s, leaf)
      modifies this
      ensures Logged(old(trace), old(disk), trace, disk)
      ensures status == Ok || status == Generic
      ensures Valid() && SafeTrace() && n in disk.inodes && ino' == disk.inodes[n]
      ensures Grew(g, old(disk), disk, n, leaf)
      ensures SameStrays(g, old(disk), old(owner), disk, owner)
      ensures status == Ok ==> blk == At(disk, n, s) && (alloc ==> blk != 0)
      ensures status == Generic ==> alloc && At(disk, n, s) == 0 && FreeSet(g, disk) == {}
      ensures status == Generic || !alloc ==> unchanged(this)
    {
      hide Marked, Accounting, OwnedBy, FreeSet, FreeIn, CrashSafe, Grew, Shape, SectorsOk, SameStrays;
      GrewRefl(g, disk, owner, n, leaf);
      status, blk, ino' := Ok, ino.block[IndexIn(s)], ino;
      if blk == 0 && alloc {
        status, blk, ino' := AttachInInode(n, ino, s, leaf);
      }
    }

    /** The table entry s, filled with a fresh block if it is empty and `alloc` asks for it. */
    method EnsureInTable(n: nat, ino: Inode, s: Slot, table: nat, alloc: bool, ghost leaf: Slot)
      returns (status: Status, blk: nat, ino': Inode)
      requires Valid() && SafeTrace()
      requires n in disk.inodes && ino == disk.inodes[n]
      requires !InInode(s) && Present(g, disk, n, s) && OnPath(s, leaf) && table == Holder(disk, n, s)
      modifies this
      ensures Logged(old(trace), old(disk), trace, disk)
      ensures status == Ok || status == Generic
      ensures Valid() && SafeTrace() && n in disk.inodes && ino' == disk.inodes[n]
      ensures Grew(g, old(disk), disk, n, leaf)
      ensures SameStrays(g, old(disk), old(owner), disk, owner)
      ensures status == Ok ==> blk == At(disk, n, s) && (alloc ==> blk != 0)
      ensures status == Generic ==> alloc && At(disk, n, s) == 0 && FreeSet(g, disk) == {}
      ensures status == Generic || !alloc ==> unchanged(this)
    {
      hide Marked, At, Accounting, OwnedBy, FreeSet, FreeIn, CrashSafe, Grew, Shape, SectorsOk, Present, SameStrays;
      GrewRefl(g, disk, owner, n, leaf);
      EntryOfHolder(g, disk, owner, n, s);
      var ibuf := disk.blocks[table];
      status, blk, ino' := Ok, Word(ibuf, IndexIn(s)), ino;
      if blk == 0 && alloc {
        status, blk, ino' := AttachInTable(n, ino, s, ibuf, leaf);
      }
    }

    /** What logical block `lbn` maps to, zero for a hole. */
    method GetBlock(n: nat, ino: Inode, lbn: nat) returns (status: Status, blk: nat)
      requires Sound(g, disk, owner) && n in disk.inodes && ino == disk.inodes[n]
      ensures lbn >= MaxBlocks(g) ==> status == Unsupported
      ensures lbn < MaxBlocks(g) ==> status == Ok && blk == BlockOf(g, disk, n, lbn)
    {
      hide Marked, Accounting, OwnedBy, Word;
      PerBlockBounds(g);
      var per := g.PerBlock();
      status, blk := Ok, 0;
      if lbn < NDIR {
        return Ok, ino.block[lbn];
      }
      var idx := lbn - NDIR;
      if idx < per {
        if ino.block[12] != 0 {
          EntryOfHolder(g, disk, owner, n, IndEntry(idx));
          blk := Word(disk.blocks[ino.block[12]], idx);
        }
        return;
      }
      idx := idx - per;
      if idx < per * per {
        DoubleIndexBounds(idx, per);
        if ino.block[13] != 0 {
          EntryOfHolder(g, disk, owner, n, SubTable(idx / per));
          var sub := Word(disk.blocks[ino.block[13]], idx / per);
          if sub != 0 {
            EntryOfHolder(g, disk, owner, n, SubEntry(idx / per, idx % per));
            blk := Word(disk.blocks[sub], idx % per);
          }
        }
        return;
      }
      status := Unsupported;
    }

    /**
     What logical block `lbn` maps to, after filling it and the tables on the
     way with fresh zeroed blocks when `alloc` is set.
     */
    method GetOrAllocBlock(n: nat, ino: Inode, lbn: nat, alloc: bool)
      returns (status: Status, blk: nat, ino': Inode)
      requires Valid() && SafeTrace() && g.PerBlock() > 0
      requires n in disk.inodes && ino == disk.inodes[n]
      modifies this
      ensures Logged(old(trace), old(disk), trace, disk)
      ensures status == Ok || status == Generic || status == Unsupported
      ensures Valid() && SafeTrace() && n in disk.inodes && ino' == disk.inodes[n]
      ensures Grew(g, old(disk), disk, n, LeafOf(g, lbn))
      ensures SameStrays(g, old(disk), old(owner), disk, owner)
      ensures status == Unsupported <==> lbn >= MaxBlocks(g)
      ensures status == Ok ==> blk == BlockOf(g, disk, n, lbn) && (alloc ==> blk != 0)
      ensures status == Generic ==> alloc && BlockOf(g, disk, n, lbn) == 0 && FreeSet(g, disk) == {}
      ensures status == Unsupported || !alloc ==> unchanged(this)
    {
      hide Marked, At, Accounting, OwnedBy, FreeSet, FreeIn, CrashSafe, Grew, SectorsOk, SameStrays;
      GrewRefl(g, disk, owner, n, LeafOf(g, lbn));
      var per := g.PerBlock();
      if lbn < NDIR {
        status, blk, ino' := EnsureInInode(n, ino, Direct(lbn), alloc, Direct(lbn));
        return;
      }
      var idx := lbn - NDIR;
      if idx < per {
        status, blk, ino' := AllocIndirect(n, ino, idx, alloc);
        return;
      }
      idx := idx - per;
      if idx >= per * per {
        return Unsupported, 0, ino;
      }
      DoubleIndexBounds(idx, per);
      status, blk, ino' := AllocDouble(n, ino, idx / per, idx % per, alloc);
    }

    method AllocIndirect(n: nat, ino: Inode, idx: nat, alloc: bool)
      returns (status: Status, blk: nat, ino': Inode)
      requires Valid() && SafeTrace() && idx < g.PerBlock()
      requires n in disk.inodes && ino == disk.inodes[n]
      modifies this
      ensures Logged(old(trace), old(disk), trace, disk)
      ensures status == Ok || status == Generic
      ensures Valid() && SafeTrace() && n in disk.inodes && ino' == disk.inodes[n]
      ensures Grew(g, old(disk), disk, n, IndEntry(idx))
      ensures SameStrays(g, old(disk), old(owner), disk, owner)
      ensures status == Ok ==> blk == At(disk, n, IndEntry(idx)) && (alloc ==> blk != 0)
      ensures status == Generic ==> alloc && At(disk, n, IndEntry(idx)) == 0 && FreeSet(g, disk) == {}
      ensures !alloc ==> unchanged(this)
    {
      hide Marked, At, Accounting, OwnedBy, FreeSet, FreeIn, CrashSafe, Grew, SectorsOk, SameStrays;
      ghost var leaf := IndEntry(idx);
      status, blk, ino' := EnsureInInode(n, ino, Indirect, alloc, leaf);
      if status != Ok || blk == 0 {
        NothingBelow(disk, n, leaf);
        return;
      }
      ghost var d, o := disk, owner;
      status, blk, ino' := EnsureInTable(n, ino', IndEntry(idx), blk, alloc, leaf);
      GrewTransitive(g, old(disk), d, disk, n, leaf);
      SameStraysTransitive(g, old(disk), old(owner), d, o, disk, owner);
    }

    method AllocDouble(n: nat, ino: Inode, di: nat, si: nat, alloc: bool)
      returns (status: Status, blk: nat, ino': Inode)
      requires Valid() && SafeTrace() && di < g.PerBlock() && si < g.PerBlock()
      requires n in disk.inodes && ino == disk.inodes[n]
      modifies this
      ensures Logged(old(trace), old(disk), trace, disk)
      ensures status == Ok || status == Generic
      ensures Valid() && SafeTrace() && n in disk.inodes && ino' == disk.inodes[n]
      ensures Grew(g, old(disk), disk, n, SubEntry(di, si))
      ensures SameStrays(g, old(disk), old(owner), disk, owner)
      ensures status == Ok ==> blk == At(disk, n, SubEntry(di, si)) && (alloc ==> blk != 0)
      ensures status == Generic ==> alloc && At(disk, n, SubEntry(di, si)) == 0 && FreeSet(g, disk) == {}
      ensures !alloc ==> unchanged(this)
    {
      hide Marked, At, Accounting, OwnedBy, FreeSet, FreeIn, CrashSafe, Grew, SectorsOk, SameStrays;
      ghost var leaf := SubEntry(di, si);
      status, blk, ino' := EnsureInInode(n, ino, DoubleIndirect, alloc, leaf);
      if status != Ok || blk == 0 {
        NothingBelow(disk, n, leaf);
        return;
      }
      ghost var d, o := disk, owner;
      status, blk, ino' := EnsureInTable(n, ino', SubTable(di), blk, alloc, leaf);
      GrewTransitive(g, old(disk), d, disk, n, leaf);
      SameStraysTransitive(g, old(disk), old(owner), d, o, disk, owner);
      if status != Ok || blk == 0 {
        NothingBelow(disk, n, leaf);
        return;
      }
      d, o := disk, owner;
      status, blk, ino' := EnsureInTable(n, ino', SubEntry(di, si), blk, alloc, leaf);
      GrewTransitive(g, old(disk), d, disk, n, leaf);
      SameStraysTransitive(g, old(disk), old(owner), d, o, disk, owner);
    }

    // ----------------------------------------------------------- recounting

    /** The image with the in-memory copy of inode n in place of the one on disk. */
    ghost function View(n: nat, ino: Inode): Disk
      reads this
    {
      disk.(inodes := disk.inodes[n := ino])
    }

    method CountDirect(n: nat, ino: Inode) returns (total: nat)
      requires Sound(g, View(n, ino), owner)
      ensures total == |Range(owner, n, Directs, 0, NDIR)|
    {
      hide Marked, Accounting, OwnedBy, Range;
      total := 0;
      RangeEmpty(owner, n, Directs, 0);
      for i := 0 to NDIR
        invariant total == |Range(owner, n, Directs, 0, i)|
      {
        RangeSplit(g, View(n, ino), owner, n, Directs, 0, i, i + 1);
        RangeEmpty(owner, n, Directs, i + 1);
        if ino.block[i] != 0 {
          total := total + 1;
        }
      }
    }

    /** The entries in use of the table t, whose block is h. */
    method CountTable(n: nat, ino: Inode, t: Table, h: nat) returns (total: nat)
      requires Sound(g, View(n, ino), owner)
      requires !t.Directs? && h == Holder(View(n, ino), n, SlotIn(t, 0)) && h != 0
      ensures total == |Range(owner, n, t, 0, g.PerBlock())|
    {
      hide Marked, Accounting, OwnedBy, Range, Word;
      total := 0;
      RangeEmpty(owner, n, t, 0);
      for i := 0 to g.PerBlock()
        invariant total == |Range(owner, n, t, 0, i)|
      {
        ghost var dv := View(n, ino);
        RangeSplit(g, dv, owner, n, t, 0, i, i + 1);
        RangeEmpty(owner, n, t, i + 1);
        TableEntry(g, dv, owner, n, t, i);
        if Word(disk.blocks[h], i) != 0 {
          total := total + 1;
        }
      }
    }

    /** The blocks below the double indirect table, which is h. */
    method CountDouble(n: nat, ino: Inode, h: nat) returns (total: nat)
      requires Sound(g, View(n, ino), owner)
      requires h == At(View(n, ino), n, DoubleIndirect) && h != 0
      ensures total == |DoubleOwned(owner, n, g.PerBlock())|
    {
      hide Marked, Accounting, OwnedBy, Range, Word, At, DoubleOwned;
      total := 0;
      DoubleNone(owner, n);
      for i := 0 to g.PerBlock()
        invariant total == |DoubleOwned(owner, n, i)|
      {
        ghost var dv := View(n, ino);
        DoubleStep(g, dv, owner, n, i);
        TableEntry(g, dv, owner, n, Doubles, i);
        var sub := Word(disk.blocks[h], i);
        if sub != 0 {
          var c := CountTable(n, ino, Subs(i), sub);
          total := total + 1 + c;
        } else {
          RangeOfNothing(g, dv, owner, n, Subs(i), g.PerBlock());
        }
      }
    }

    /** Every block the inode uses, tables included. */
    method CountAllocatedBlocks(n: nat, ino: Inode) returns (total: nat)
      requires Sound(g, View(n, ino), owner)
      ensures total == |OwnedOf(owner, n)|
    {
      hide Marked, Accounting, OwnedBy, Range, OwnedOf, DoubleOwned;
      ghost var dv := View(n, ino);
      OwnedByTables(g, dv, owner, n);
      total := CountDirect(n, ino);
      if ino.block[12] != 0 {
        var c := CountTable(n, ino, Singles, ino.block[12]);
        total := total + 1 + c;
      } else {
        RangeOfNothing(g, dv, owner, n, Singles, g.PerBlock());
      }
      if ino.block[13] != 0 {
        var c := CountDouble(n, ino, ino.block[13]);
        total := total + 1 + c;
      } else {
        DoubleOfNothing(g, dv, owner, n);
      }
    }

    // ------------------------------------------------------------- trimming

    /** The device is part way from image d to d trimmed at `target`. */
    ghost predicate TrimState(d: Disk, n: nat, target: nat, freed: set<nat>)
      reads this
    {
      && Synced() && Accounting(g, disk)
      && Sound(g, d, owner) && Trimming(g, d, owner, n, target, disk, freed)
    }

    method TrimFree(blk: nat, ghost d: Disk, ghost n: nat, ghost target: nat, ghost freed: set<nat>)
      requires TrimState(d, n, target, freed)
      requires blk in Dropped(g, d, owner, n, target) && blk !in freed
      modifies this`disk, this`sbFree, this`gdFree, this`trace
      ensures Logged(old(trace), old(disk), trace, disk)
      ensures TrimState(d, n, target, freed + {blk})
      ensures |disk.blocks| == old(|disk.blocks|) && forall c :: c in owner && c < |disk.blocks| ==> disk.blocks[c] == old(disk.blocks)[c]
      ensures old(SafeTrace()) && Covers(g, d, n, target) ==> SafeTrace()
    {
      hide Marked, Accounting, OwnedBy, CrashSafe, Dropped, WithMark, Given, At;
      ghost var e := disk;
      TrimmingFree(g, d, owner, n, target, e, freed, blk);
      GivenAccounting(g, e, blk);
      var status := FreeBlock(blk);
      assert status == Ok;
      if old(SafeTrace()) && Covers(g, d, n, target) {
        TrimmingIsCrashSafe(g, d, owner, n, target, WithMark(g, e, blk, false), freed + {blk});
        TrimmingIsCrashSafe(g, d, owner, n, target, disk, freed + {blk});
      }
    }

    /** Frees every entry of the table t, from the first to the last. */
    method FreeAll(t: Table, tab: Block, ghost d: Disk, ghost n: nat, ghost target: nat, ghost freed0: set<nat>)
      returns (ghost freed: set<nat>)
      requires TrimState(d, n, target, freed0)
      requires (t.Singles? || t.Subs?) && Zeroed(g, tab, tab, g.PerBlock())
      requires forall i :: 0 <= i < g.PerBlock() ==> Word(tab, i) == At(d, n, SlotIn(t, i))
      requires forall i :: 0 <= i < g.PerBlock() ==> Lbn(g, SlotIn(t, i)) >= target
      requires Range(owner, n, t, 0, g.PerBlock()) !! freed0
      modifies this`disk, this`sbFree, this`gdFree, this`trace
      ensures Logged(old(trace), old(disk), trace, disk)
      ensures TrimState(d, n, target, freed)
      ensures freed == freed0 + Range(owner, n, t, 0, g.PerBlock())
      ensures |disk.blocks| == old(|disk.blocks|) && forall c :: c in owner && c < |disk.blocks| ==> disk.blocks[c] == old(disk.blocks)[c]
      ensures old(SafeTrace()) && Covers(g, d, n, target) ==> SafeTrace()
    {
      hide Marked, Accounting, OwnedBy, CrashSafe, Dropped, Trimming, At, Word, SetWord, Zeroed, Range, Lbn;
      freed := freed0;
      var i := 0;
      RangeEmpty(owner, n, t, 0);
      while i < g.PerBlock()
        invariant 0 <= i <= g.PerBlock()
        invariant TrimState(d, n, target, freed)
        invariant freed == freed0 + Range(owner, n, t, 0, i)
        invariant |disk.blocks| == old(|disk.blocks|) && forall c :: c in owner && c < |disk.blocks| ==> disk.blocks[c] == old(disk.blocks)[c]
        invariant old(SafeTrace()) && Covers(g, d, n, target) ==> SafeTrace()
        invariant Logged(old(trace), old(disk), trace, disk)
      {
        RangeSplit(g, d, owner, n, t, 0, i, i + 1);
        RangeEmpty(owner, n, t, i + 1);
        RangeSplit(g, d, owner, n, t, 0, i, g.PerBlock());
        ZeroedAt(g, tab, tab, g.PerBlock(), i);
        var blk := Word(tab, i);
        if blk != 0 {
          TailEntry(g, d, owner, n, target, t, i);
          TrimFree(blk, d, n, target, freed);
          freed := freed + {blk};
        }
        i := i + 1;
      }
    }

    /** Frees entries `keep` and up of the table t, blanking them in the copy `tab`. */
    method FreeTail(t: Table, tab: Block, keep: nat, ghost d: Disk, ghost n: nat, ghost target: nat, ghost freed0: set<nat>)
      returns (tab': Block, dirty: bool, ghost freed: set<nat>)
      requires TrimState(d, n, target, freed0)
      requires (t.Singles? || t.Subs?) && keep <= g.PerBlock() && Zeroed(g, tab, tab, g.PerBlock())
      requires forall i :: 0 <= i < g.PerBlock() ==> Word(tab, i) == At(d, n, SlotIn(t, i))
      requires forall i :: keep <= i < g.PerBlock() ==> Lbn(g, SlotIn(t, i)) >= target
      requires Range(owner, n, t, keep, g.PerBlock()) !! freed0
      modifies this`disk, this`sbFree, this`gdFree, this`trace
      ensures Logged(old(trace), old(disk), trace, disk)
      ensures TrimState(d, n, target, freed)
      ensures freed == freed0 + Range(owner, n, t, keep, g.PerBlock())
      ensures Zeroed(g, tab', tab, keep) && (!dirty ==> tab' == tab)
      ensures |disk.blocks| == old(|disk.blocks|) && forall c :: c in owner && c < |disk.blocks| ==> disk.blocks[c] == old(disk.blocks)[c]
      ensures old(SafeTrace()) && Covers(g, d, n, target) ==> SafeTrace()
    {
      hide Marked, Accounting, OwnedBy, CrashSafe, Dropped, Trimming, At, Word, SetWord, Zeroed, Range, Lbn;
      tab', dirty, freed := tab, false, freed0;
      var i := g.PerBlock();
      RangeEmpty(owner, n, t, g.PerBlock());
      while i > 0
        invariant 0 <= i <= g.PerBlock()
        invariant TrimState(d, n, target, freed)
        invariant freed == freed0 + Range(owner, n, t, if i < keep then keep else i, g.PerBlock())
        invariant Zeroed(g, tab', tab, if i < keep then keep else i)
        invariant !dirty ==> tab' == tab
        invariant |disk.blocks| == old(|disk.blocks|) && forall c :: c in owner && c < |disk.blocks| ==> disk.blocks[c] == old(disk.blocks)[c]
        invariant old(SafeTrace()) && Covers(g, d, n, target) ==> SafeTrace()
        invariant Logged(old(trace), old(disk), trace, disk)
      {
        i := i - 1;
        if i >= keep {
          RangeSplit(g, d, owner, n, t, i, i, g.PerBlock());
          RangeEmpty(owner, n, t, i);
          ZeroedStep(g, tab', tab, i);
          ZeroedAt(g, tab', tab, i + 1, i);
          var blk := Word(tab', i);
          if blk != 0 {
            TailEntry(g, d, owner, n, target, t, i);
            TrimFree(blk, d, n, target, freed);
            tab', dirty, freed := SetWord(tab', i, 0), true, freed + {blk};
          }
        }
      }
    }

    /** Writes back a table of inode n that was blanked from the cut on. */
    method WriteTrimmed(t: Table, h: nat, tab: Block, ghost d: Disk, ghost n: nat, ghost target: nat, ghost freed: set<nat>)
      requires TrimState(d, n, target, freed)
      requires !t.Directs? && h == Holder(d, n, SlotIn(t, 0)) && h != 0 && |tab| == g.blockSize == 4 * g.PerBlock()
      requires forall i :: 0 <= i < g.PerBlock() ==> Word(tab, i) == Cut(g, d, n, SlotIn(t, i), target)
      modifies this`disk, this`trace
      ensures Logged(old(trace), old(disk), trace, disk)
      ensures TrimState(d, n, target, freed)
      ensures h < |old(disk).blocks| && disk == WithBlock(old(disk), h, tab)
      ensures old(SafeTrace()) && Covers(g, d, n, target) ==> SafeTrace()
    {
      hide Marked, Accounting, OwnedBy, CrashSafe, Dropped, Trimming, At, Word;
      assert forall i :: 0 <= i < g.PerBlock() && Lbn(g, SlotIn(t, i)) < target ==>
                           4 * i + 4 <= |tab| && Word(tab, i) == At(d, n, SlotIn(t, i)) by {
        CutBelow(g, d, n, target, t);
      }
      TrimmingWrite(g, d, owner, n, target, disk, freed, t, tab);
      WriteBlock(h, tab);
      if old(SafeTrace()) && Covers(g, d, n, target) {
        TrimmingIsCrashSafe(g, d, owner, n, target, disk, freed);
      }
    }

    /** Every block that some slot names reads as it did in image e. */
    ghost predicate BlocksKept(e: Disk, changed: set<nat>)
      reads this
    {
      |disk.blocks| == |e.blocks| &&
      forall c :: c in owner && c < |e.blocks| && c !in changed ==> disk.blocks[c] == e.blocks[c]
    }

    /** Frees the direct blocks past the cut. */
    method TrimDirect(n: nat, ino: Inode, target: nat, ghost d: Disk)
      returns (ino': Inode, ghost freed: set<nat>)
      requires TrimState(d, n, target, {}) && n in d.inodes && ino == d.inodes[n]
      modifies this`disk, this`sbFree, this`gdFree, this`trace
      ensures Logged(old(trace), old(disk), trace, disk)
      ensures TrimState(d, n, target, freed) && freed == DroppedPart(g, d, owner, n, target, 0)
      ensures BlocksKept(old(disk), {})
      ensures |ino'.block| == 15 && ino' == ino.(block := ino'.block) && ino'.block[12..] == ino.block[12..]
      ensures forall i :: 0 <= i < NDIR ==> ino'.block[i] == Cut(g, d, n, Direct(i), target)
      ensures old(SafeTrace()) && Covers(g, d, n, target) ==> SafeTrace()
    {
      hide Marked, Accounting, OwnedBy, CrashSafe, Dropped, Trimming, Range, DroppedPart;
      var keep := if target < NDIR then target else NDIR;
      DirectPart(g, d, owner, n, target);
      RangeEmpty(owner, n, Directs, NDIR);
      ino', freed := ino, {};
      var i := NDIR;
      while i > 0
        invariant 0 <= i <= NDIR
        invariant TrimState(d, n, target, freed)
        invariant freed == Range(owner, n, Directs, if i < keep then keep else i, NDIR)
        invariant BlocksKept(old(disk), {})
        invariant |ino'.block| == 15 && ino' == ino.(block := ino'.block) && ino'.block[12..] == ino.block[12..]
        invariant forall j :: 0 <= j < NDIR ==> ino'.block[j] == if j >= i && j >= keep then 0 else ino.block[j]
        invariant old(SafeTrace()) && Covers(g, d, n, target) ==> SafeTrace()
        invariant Logged(old(trace), old(disk), trace, disk)
      {
        i := i - 1;
        if i >= keep {
          RangeSplit(g, d, owner, n, Directs, i, i, NDIR);
          RangeEmpty(owner, n, Directs, i);
          var blk := ino'.block[i];
          if blk != 0 {
            TailEntry(g, d, owner, n, target, Directs, i);
            TrimFree(blk, d, n, target, freed);
            ino', freed := ino'.(block := ino'.block[i := 0]), freed + {blk};
          }
        }
      }
    }

    /** The single indirect table, block h, after the cut: freed if nothing is left in it, else written back if it changed. */
    method SettleSingle(h: nat, tab: Block, dirty: bool, ghost d: Disk, ghost n: nat, ghost target: nat, ghost freed0: set<nat>)
      returns (h': nat, ghost freed: set<nat>)
      requires TrimState(d, n, target, freed0) && h == At(d, n, Indirect) != 0 && h in owner
      requires Drops(g, d, n, Indirect, target) ==> h !in freed0
      requires |tab| == g.blockSize == 4 * g.PerBlock() && h < |disk.blocks| && (!dirty ==> disk.blocks[h] == tab)
      requires forall i :: 0 <= i < g.PerBlock() ==> Word(tab, i) == Cut(g, d, n, SlotIn(Singles, i), target)
      modifies this`disk, this`sbFree, this`gdFree, this`trace
      ensures Logged(old(trace), old(disk), trace, disk)
      ensures TrimState(d, n, target, freed) && freed == freed0 + (if Drops(g, d, n, Indirect, target) then {h} else {})
      ensures BlocksKept(old(disk), {h}) && h' == Cut(g, d, n, Indirect, target)
      ensures h' != 0 ==> h' == h && disk.blocks[h] == tab
      ensures old(SafeTrace()) && Covers(g, d, n, target) ==> SafeTrace()
    {
      hide Marked, Accounting, OwnedBy, CrashSafe, Dropped, Drops, Word, At, Trimming, Covers;
      h', freed := h, freed0;
      EmptyTable(g, d, n, target, Singles, tab);
      var any := AnyEntry(tab);
      if !any {
        TableDropped(g, d, owner, n, target, Singles);
        TrimFree(h, d, n, target, freed);
        h', freed := 0, freed + {h};
      } else if dirty {
        WriteTrimmed(Singles, h, tab, d, n, target, freed);
      }
    }

    /** Frees the single indirect entries past the cut, and the table when it is empty. */
    method TrimSingle(n: nat, ino: Inode, target: nat, ghost d: Disk, ghost freed0: set<nat>)
      returns (ino': Inode, ghost freed: set<nat>)
      requires TrimState(d, n, target, freed0) && n in d.inodes && |ino.block| == 15
      requires ino.block[12] == d.inodes[n].block[12]
      requires BlocksKept(d, {}) && freed0 !! DroppedPart(g, d, owner, n, target, 1)
      modifies this`disk, this`sbFree, this`gdFree, this`trace
      ensures Logged(old(trace), old(disk), trace, disk)
      ensures TrimState(d, n, target, freed) && freed == freed0 + DroppedPart(g, d, owner, n, target, 1)
      ensures BlocksKept(d, {At(d, n, Indirect)})
      ensures ino' == ino.(block := ino.block[12 := Cut(g, d, n, Indirect, target)])
      ensures forall i :: 0 <= i < g.PerBlock() && ino'.block[12] != 0 ==>
                            Entry(disk, ino'.block[12], i) == Cut(g, d, n, IndEntry(i), target)
      ensures old(SafeTrace()) && Covers(g, d, n, target) ==> SafeTrace()
    {
      hide Marked, Accounting, OwnedBy, CrashSafe, Dropped, Range, DroppedPart, Drops, Word, At, Trimming, Zeroed, Covers;
      SinglePart(g, d, owner, n, target);
      RangeWithin(owner, n, Singles, SingleKeep(g, target), g.PerBlock());
      InodePointers(d, n);
      PerBlockBounds(g);
      ino', freed := ino, freed0;
      if ino.block[12] == 0 {
        RangeOfNothing(g, d, owner, n, Singles, g.PerBlock());
        return;
      }
      ghost var h := ino.block[12];
      TableRead(g, d, owner, n, Singles);
      var tab := disk.blocks[ino.block[12]];
      var dirty;
      ghost var e := disk;
      tab, dirty, freed := FreeTail(Singles, tab, SingleKeep(g, target), d, n, target, freed0);
      CutTable(g, d, n, target, Singles, SingleKeep(g, target), e.blocks[h], tab);
      var h';
      h', freed := SettleSingle(ino.block[12], tab, dirty, d, n, target, freed);
      ino' := ino.(block := ino.block[12 := h']);
    }

    /** Trims the k-th sub-table, block `sub`, which starts past the cut: all of it goes. */
    method DropSub(k: nat, sub: nat, ghost target: nat, ghost n: nat, ghost d: Disk, ghost freed0: set<nat>)
      returns (ghost freed: set<nat>)
      requires TrimState(d, n, target, freed0) && k < g.PerBlock() && Lbn(g, SubTable(k)) >= target
      requires sub == At(d, n, SubTable(k)) && sub != 0 && sub < |d.blocks| == |disk.blocks|
      requires disk.blocks[sub] == d.blocks[sub] && freed0 !! SubDropped(g, d, owner, n, target, k)
      modifies this`disk, this`sbFree, this`gdFree, this`trace
      ensures Logged(old(trace), old(disk), trace, disk)
      ensures TrimState(d, n, target, freed) && freed == freed0 + SubDropped(g, d, owner, n, target, k)
      ensures BlocksKept(old(disk), {sub})
      ensures old(SafeTrace()) && Covers(g, d, n, target) ==> SafeTrace()
    {
      hide Marked, Accounting, OwnedBy, CrashSafe, Dropped, Range, SubDropped, Word, At, Trimming, Zeroed;
      SubPart(g, d, owner, n, target, k);
      TableRead(g, d, owner, n, Subs(k));
      freed := FreeAll(Subs(k), disk.blocks[sub], d, n, target, freed0);
      TableDropped(g, d, owner, n, target, Subs(k));
      TrimFree(sub, d, n, target, freed);
      freed := freed + {sub};
    }

    /** Trims the k-th sub-table, block `sub`, which starts before the cut: `keep` entries stay. */
    method CutSub(k: nat, sub: nat, keep: nat, ghost target: nat, ghost n: nat, ghost d: Disk, ghost freed0: set<nat>)
      returns (ghost freed: set<nat>)
      requires TrimState(d, n, target, freed0) && k < g.PerBlock() && 0 < keep <= g.PerBlock()
      requires Lbn(g, SubTable(k)) < target
      requires if keep < g.PerBlock() then target == Lbn(g, SubTable(k)) + keep else target >= Lbn(g, SubTable(k)) + keep
      requires sub == At(d, n, SubTable(k)) && sub != 0 && sub < |d.blocks| == |disk.blocks|
      requires disk.blocks[sub] == d.blocks[sub] && freed0 !! SubDropped(g, d, owner, n, target, k)
      modifies this`disk, this`sbFree, this`gdFree, this`trace
      ensures Logged(old(trace), old(disk), trace, disk)
      ensures TrimState(d, n, target, freed) && freed == freed0 + SubDropped(g, d, owner, n, target, k)
      ensures BlocksKept(old(disk), {sub})
      ensures forall j :: 0 <= j < g.PerBlock() ==> Entry(disk, sub, j) == Cut(g, d, n, SubEntry(k, j), target)
      ensures old(SafeTrace()) && Covers(g, d, n, target) ==> SafeTrace()
    {
      hide Marked, Accounting, OwnedBy, CrashSafe, Dropped, Range, SubDropped, Word, At, Trimming, Zeroed;
      PerBlockBounds(g);
      SubPart(g, d, owner, n, target, k);
      TableRead(g, d, owner, n, Subs(k));
      CutTableRead(g, d, owner, n, target, k, keep);
      freed := freed0;
      if keep < g.PerBlock() {
        ghost var was := disk.blocks[sub];
        var tab, dirty;
        tab, dirty, freed := FreeTail(Subs(k), disk.blocks[sub], keep, d, n, target, freed0);
        CutTable(g, d, n, target, Subs(k), keep, was, tab);
        if dirty {
          WriteTrimmed(Subs(k), sub, tab, d, n, target, freed);
        }
      }
    }

    /** Trims the k-th sub-table, block `sub`; `gone` says that none of it is left. */
    method TrimSub(k: nat, sub: nat, target: nat, ghost n: nat, ghost d: Disk, ghost freed0: set<nat>)
      returns (gone: bool, ghost freed: set<nat>)
      requires TrimState(d, n, target, freed0) && k < g.PerBlock()
      requires sub == At(d, n, SubTable(k)) && sub != 0 && sub < |d.blocks| == |disk.blocks|
      requires disk.blocks[sub] == d.blocks[sub] && freed0 !! SubDropped(g, d, owner, n, target, k)
      modifies this`disk, this`sbFree, this`gdFree, this`trace
      ensures Logged(old(trace), old(disk), trace, disk)
      ensures TrimState(d, n, target, freed) && freed == freed0 + SubDropped(g, d, owner, n, target, k)
      ensures gone <==> Lbn(g, SubTable(k)) >= target
      ensures BlocksKept(old(disk), {sub})
      ensures !gone ==> forall j :: 0 <= j < g.PerBlock() ==> Entry(disk, sub, j) == Cut(g, d, n, SubEntry(k, j), target)
      ensures old(SafeTrace()) && Covers(g, d, n, target) ==> SafeTrace()
    {
      hide Marked, Accounting, OwnedBy, CrashSafe, Dropped, SubDropped, Word, At, Trimming, Cut, Shape, Entry;
      var per := g.PerBlock();
      var dataKeep := if target > NDIR + per then target - NDIR - per else 0;
      var base := k * per;
      gone := dataKeep <= base;
      if gone {
        freed := DropSub(k, sub, target, n, d, freed0);
      } else {
        var keep := if dataKeep < base + per then dataKeep - base else per;
        freed := CutSub(k, sub, keep, target, n, d, freed0);
      }
    }

    /** Trims the sub-tables and, when none is left, the double indirect table. */
    method TrimDouble(n: nat, ino: Inode, target: nat, ghost d: Disk, ghost freed0: set<nat>)
      returns (ino': Inode, ghost freed: set<nat>)
      requires TrimState(d, n, target, freed0) && n in d.inodes && |ino.block| == 15
      requires ino.block[13] == d.inodes[n].block[13]
      requires BlocksKept(d, {At(d, n, Indirect)}) && freed0 !! DroppedPart(g, d, owner, n, target, 2)
      modifies this`disk, this`sbFree, this`gdFree, this`trace
      ensures Logged(old(trace), old(disk), trace, disk)
      ensures TrimState(d, n, target, freed) && freed == freed0 + DroppedPart(g, d, owner, n, target, 2)
      ensures ino' == ino.(block := ino.block[13 := Cut(g, d, n, DoubleIndirect, target)])
      ensures forall i :: 0 <= i < g.PerBlock() && ino'.block[13] != 0 ==>
                            Entry(disk, ino'.block[13], i) == Cut(g, d, n, SubTable(i), target)
      ensures SubsCut(g, d, n, target, disk, 0)
      ensures FarFrame(g, d, owner, n, old(disk), disk)
      ensures old(SafeTrace()) && Covers(g, d, n, target) ==> SafeTrace()
    {
      hide Marked, Accounting, OwnedBy, CrashSafe, Dropped, DroppedPart, Drops, Word, At, Trimming, DoubleCut, SubsCut, SubsIntact, DroppedSubs, FarFrame;
      DoublePart(g, d, owner, n, target);
      InodePointers(d, n);
      ino', freed := ino, freed0;
      if ino.block[13] == 0 {
        NoSubs(g, d, owner, n, target, disk);
        return;
      }
      var tab, dirty;
      tab, dirty, freed := TrimSubs(ino.block[13], target, n, d, freed0);
      DoubleCutEntries(g, d, n, target, tab);
      EmptyTable(g, d, n, target, Doubles, tab);
      var any := AnyEntry(tab);
      ghost var e := disk;
      if !any {
        TableDropped(g, d, owner, n, target, Doubles);
        ino' := ino.(block := ino.block[13 := 0]);
        TrimFree(ino.block[13], d, n, target, freed);
        freed := freed + {ino.block[13]};
      } else if dirty {
        WriteTrimmed(Doubles, ino.block[13], tab, d, n, target, freed);
      }
      SubsCutFrame(g, d, owner, n, target, e, disk);
      FarStep(g, d, owner, n, old(disk), e, disk, DoubleIndirect);
    }

    /** Walks the double indirect table h downwards, trimming each sub-table. */
    method TrimSubs(h: nat, target: nat, ghost n: nat, ghost d: Disk, ghost freed0: set<nat>)
      returns (tab: Block, dirty: bool, ghost freed: set<nat>)
      requires TrimState(d, n, target, freed0)
      requires h == At(d, n, DoubleIndirect) && h != 0
      requires BlocksKept(d, {At(d, n, Indirect)}) && freed0 !! DroppedSubs(g, d, owner, n, target, 0)
      modifies this`disk, this`sbFree, this`gdFree, this`trace
      ensures Logged(old(trace), old(disk), trace, disk)
      ensures TrimState(d, n, target, freed) && freed == freed0 + DroppedSubs(g, d, owner, n, target, 0)
      ensures DoubleCut(g, d, n, target, tab, 0) && SubsCut(g, d, n, target, disk, 0)
      ensures h < |disk.blocks| && disk.blocks[h] == d.blocks[h] && (!dirty ==> tab == disk.blocks[h])
      ensures FarFrame(g, d, owner, n, old(disk), disk)
      ensures old(SafeTrace()) && Covers(g, d, n, target) ==> SafeTrace()
    {
      hide Marked, Accounting, OwnedBy, CrashSafe, Dropped, Cut, Word, SetWord, At, Lbn, Entry, Trimming, DoubleCut, SubsCut, SubsIntact, DroppedSubs, SubDropped, FarFrame;
      var per := g.PerBlock();
      SubsStart(g, d, owner, n, target, disk);
      tab, dirty, freed := disk.blocks[h], false, freed0;
      var k := per;
      while k > 0
        invariant 0 <= k <= per
        invariant TrimState(d, n, target, freed) && freed == freed0 + DroppedSubs(g, d, owner, n, target, k)
        invariant h < |disk.blocks| && disk.blocks[h] == d.blocks[h]
        invariant DoubleCut(g, d, n, target, tab, k) && (!dirty ==> tab == disk.blocks[h])
        invariant SubsCut(g, d, n, target, disk, k) && SubsIntact(g, d, n, disk, k)
        invariant FarFrame(g, d, owner, n, old(disk), disk)
        invariant old(SafeTrace()) && Covers(g, d, n, target) ==> SafeTrace()
        invariant Logged(old(trace), old(disk), trace, disk)
      {
        k := k - 1;
        DroppedSubsStep(g, d, owner, n, target, k);
        DoubleCutStep(g, d, n, target, tab, k);
        SubTableFacts(g, d, owner, n, target, disk, tab, k);
        var sub := Word(tab, k);
        ghost var e := disk;
        if sub != 0 {
          var gone;
          gone, freed := TrimSub(k, sub, target, n, d, freed);
          if gone {
            tab, dirty := SetWord(tab, k, 0), true;
          }
        }
        SubsStep(g, d, owner, n, target, e, disk, k);
        FarStep(g, d, owner, n, old(disk), e, disk, SubTable(k));
      }
    }

    /** Cuts inode n off at `target` blocks. */
    method TrimInodeBlocks(n: nat, ino: Inode, target: nat) returns (ino': Inode)
      requires Valid() && n in disk.inodes && ino == disk.inodes[n]
      modifies this
      ensures Logged(old(trace), old(disk), trace, disk)
      ensures Valid() && n in disk.inodes && ino' == disk.inodes[n]
      ensures owner == old(owner) - Dropped(g, old(disk), old(owner), n, target)
      ensures TrimmedTo(g, old(disk), old(owner), n, target, disk)
      ensures old(SafeTrace()) && Covers(g, old(disk), n, target) ==> SafeTrace()
    {
      hide Marked, Accounting, At, CrashSafe, Trimming, Finished, TrimmedTo, Shape, OwnedBy, Dropped, DroppedPart, SectorsOk;
      ghost var d, freed := disk, {};
      ino', freed := TrimWalk(n, ino, target, d);
      FinishedSound(g, d, owner, n, target, disk, ino');
      ghost var e := disk;
      owner := owner - Dropped(g, d, owner, n, target);
      var count := CountAllocatedBlocks(n, ino');
      FinishedTrim(g, d, old(owner), n, target, e, ino', count * g.SectorsPerBlock() % U32);
      ino' := ino'.(sectors := count * g.SectorsPerBlock() % U32);
      WriteInode(n, ino');
      OwnedIsCrashSafe(g, disk, owner);
    }

    /** The walk over all three levels, up to but not including the inode write. */
    method TrimWalk(n: nat, ino: Inode, target: nat, ghost d: Disk) returns (ino': Inode, ghost freed: set<nat>)
      requires Synced() && Sound(g, disk, owner) && d == disk && n in disk.inodes && ino == disk.inodes[n]
      modifies this`disk, this`sbFree, this`gdFree, this`trace
      ensures Logged(old(trace), old(disk), trace, disk)
      ensures TrimState(d, n, target, freed) && freed == Dropped(g, d, owner, n, target)
      ensures Finished(g, d, owner, n, target, disk, ino')
      ensures old(SafeTrace()) && Covers(g, d, n, target) ==> SafeTrace()
    {
      hide Marked, Accounting, At, CrashSafe, Trimming, Dropped, DroppedPart, OwnedBy, Drops, Cut, SubsCut;
      TrimmingStart(g, d, owner, n, target);
      PartsDisjoint(g, d, owner, n, target);
      DroppedIsParts(g, d, owner, n, target);
      ino', freed := TrimDirect(n, ino, target, d);
      ino', freed := TrimSingle(n, ino', target, d, freed);
      ghost var e, ino1 := disk, ino';
      ino', freed := TrimDouble(n, ino', target, d, freed);
      SingleSurvives(g, d, owner, n, target, e, disk);
    }

    // ---------------------------------------------------------- whole files

    /** Reads one logical block, zeros where there is a hole. */
    method ReadBlock(n: nat, ino: Inode, lbn: nat) returns (status: Status, blk: Block)
      requires Sound(g, disk, owner) && n in disk.inodes && ino == disk.inodes[n] && g.PerBlock() > 0 && lbn < MaxBlocks(g)
      ensures status == Ok && |blk| == g.blockSize && blk == Content(g, disk, n, LeafOf(g, lbn))
    {
      hide Marked, Accounting, OwnedBy, At, LeafOf, MaxBlocks;
      var pblk;
      status, pblk := GetBlock(n, ino, lbn);
      blk := Zeros(g.blockSize);
      if pblk != 0 {
        OwnedBlock(g, disk, owner, n, LeafOf(g, lbn));
        blk := disk.blocks[pblk];
      }
    }

    /** Reads a file from its first block to its last. */
    method LoadFile(n: nat) returns (status: Status, data: seq<byte>)
      requires Sound(g, disk, owner) && n in disk.inodes
      ensures status == Ok && data == FileBytes(g, disk, n)
    {
      hide Marked, Accounting, OwnedBy, At, ByteAt, Content, LeafOf, MaxBlocks;
      PerBlockBounds(g);
      var ino := disk.inodes[n];
      var fsize := LoadSize(ino);
      status, data := Ok, [];
      var lbn := 0;
      while |data| < fsize
        invariant |data| <= fsize && (|data| == lbn * g.blockSize || |data| == fsize)
        invariant forall k :: 0 <= k < |data| ==> data[k] == ByteAt(g, disk, n, k)
        invariant status == Ok
        decreases fsize - |data|
      {
        CapIsReachable(g, |data|);
        DivMod(lbn, 0, g.blockSize);
        var blk;
        status, blk := ReadBlock(n, ino, lbn);
        var chunk := if g.blockSize > fsize - |data| then fsize - |data| else g.blockSize;
        ChunkBytes(g, disk, n, lbn, blk, chunk);
        data := data + blk[..chunk];
        lbn := lbn + 1;
      }
    }

    /** Writes `bytes` at offset `boff` of logical block `lbn`, allocating it if need be. */
    method WriteChunk(n: nat, ino: Inode, lbn: nat, boff: nat, bytes: seq<byte>) returns (status: Status, ino': Inode)
      requires Valid() && SafeTrace() && n in disk.inodes && ino == disk.inodes[n]
      requires g.blockSize >= 4 && boff + |bytes| <= g.blockSize
      modifies this
      ensures Logged(old(trace), old(disk), trace, disk)
      ensures Valid() && SafeTrace() && SameInodes(old(disk), disk, n) && n in disk.inodes && ino' == disk.inodes[n]
      ensures status == Ok || status == Unsupported
      ensures status == Ok ==> lbn < MaxBlocks(g) && Wrote(g, old(disk), disk, n, lbn * g.blockSize + boff, bytes)
      ensures status == Unsupported ==>
                Wrote(g, old(disk), disk, n, 0, []) && (lbn >= MaxBlocks(g) || FreeSet(g, disk) == {})
    {
      hide Marked, Accounting, OwnedBy, At, Grew, ByteAt, Wrote, Content, CrashSafe, SameStrays, FreeSet, SectorsOk, Shape, Patch;
      var pblk;
      status, pblk, ino' := GetOrAllocBlock(n, ino, lbn, true);
      GrewKeepsBytes(g, old(disk), disk, n, LeafOf(g, lbn));
      GrewKeepsInodes(g, old(disk), disk, n, LeafOf(g, lbn));
      if status != Ok || pblk == 0 {
        return Unsupported, ino';
      }
      ghost var e := disk;
      PatchWellFormed(g, e, owner, n, lbn, boff, bytes);
      var blk := if |bytes| == g.blockSize && boff == 0 then Zeros(g.blockSize) else disk.blocks[pblk];
      PatchWhole(blk, disk.blocks[pblk], boff, bytes);
      WriteBlock(pblk, Patch(blk, boff, bytes));
      WroteNothingFirst(g, old(disk), e, disk, n, lbn * g.blockSize + boff, bytes);
      OwnedIsCrashSafe(g, disk, owner);
    }

    /** Writes `data` at `off`, block by block, until it is done or a block cannot be had. */
    method WriteRange(n: nat, ino: Inode, off: nat, data: seq<byte>)
      returns (status: Status, ino': Inode, ghost done: nat)
      requires Valid() && SafeTrace() && n in disk.inodes && ino == disk.inodes[n] && g.blockSize >= 4
      modifies this
      ensures Logged(old(trace), old(disk), trace, disk)
      ensures Valid() && SafeTrace() && SameInodes(old(disk), disk, n) && n in disk.inodes && ino' == disk.inodes[n]
      ensures done <= |data| && Wrote(g, old(disk), disk, n, Alias(g, off), data[..done])
      ensures status == Ok ==> done == |data|
      ensures status != Ok ==> status == Unsupported && done < |data|
      ensures status != Ok ==> BlockNo(g, off + done) >= MaxBlocks(g) || FreeSet(g, disk) == {}
    {
      hide Marked, Accounting, OwnedBy, At, ByteAt, Wrote, Content, CrashSafe, FreeSet, SectorsOk, BlockNo, BlockOff, Alias, MaxBlocks, SameInodes, WellFormed, Geo.Ok;
      var pos := 0;
      ino', done, status := ino, 0, Ok;
      ghost var start := Alias(g, off);
      WroteNothing(g, disk, n, start);
      SameInodesRefl(disk, n);
      assert data[..pos] == [];
      while pos < |data|
        invariant 0 <= pos <= |data| && done == pos && status == Ok
        invariant Valid() && SafeTrace() && SameInodes(old(disk), disk, n) && n in disk.inodes && ino' == disk.inodes[n]
        invariant Logged(old(trace), old(disk), trace, disk)
        invariant Wrote(g, old(disk), disk, n, start, data[..pos])
        invariant pos > 0 ==> start + pos <= MaxBlocks(g) * g.blockSize
      {
        var lbn, boff := BlockNo(g, off + pos), BlockOff(g, off + pos);
        ValidGeo(g, disk, owner);
        NextPosition(g, off, pos);
        var room := g.blockSize - boff;
        var chunk := if |data| - pos > room then room else |data| - pos;
        ghost var e := disk;
        status, ino' := WriteChunk(n, ino', lbn, boff, data[pos..pos + chunk]);
        SameInodesTransitive(old(disk), e, disk, n);
        if status != Ok {
          WroteThenNothing(g, old(disk), e, disk, n, start, data[..pos]);
          return;
        }
        WroteTransitive(g, old(disk), e, disk, n, start, data[..pos], data[pos..pos + chunk]);
        assert data[..pos] + data[pos..pos + chunk] == data[..pos + chunk];
        MulMonotone(lbn + 1, MaxBlocks(g), g.blockSize);
        pos := pos + chunk;
        done := pos;
      }
    }

    /**
     Writes `data` at `off` and raises the size to `finalSize` if that is larger.
     When space runs out part way, what was written so far stays and the size does not change.
     */
    method WritebackFile(n: nat, off: nat, data: seq<byte>, finalSize: nat) returns (status: Status, ghost done: nat)
      requires Valid() && SafeTrace() && n in disk.inodes && g.blockSize >= 4
      modifies this
      ensures Logged(old(trace), old(disk), trace, disk)
      ensures Valid() && SafeTrace() && disk.inodes.Keys == old(disk).inodes.Keys
      ensures forall m :: m in old(disk).inodes && m != n ==> disk.inodes[m] == old(disk).inodes[m]
      ensures done <= |data| && Wrote(g, old(disk), disk, n, Alias(g, off), data[..done])
      ensures status == Ok && data != [] ==>
                && done == |data| && disk.inodes[n].regular && (off + |data|) % U64 <= finalSize
                && (if finalSize > old(disk).inodes[n].Size()
                    then SameIdentity(disk.inodes[n], WithSize(old(disk).inodes[n], finalSize))
                    else SameIdentity(disk.inodes[n], old(disk).inodes[n]))
      ensures status != Ok ==> status == Unsupported && done < |data| && SameIdentity(disk.inodes[n], old(disk).inodes[n])
      ensures status != Ok ==>
                || !disk.inodes[n].regular || (off + |data|) % U64 > finalSize
                || BlockNo(g, off + done) >= MaxBlocks(g) || FreeSet(g, disk) == {}
      ensures data == [] ==> status == Ok && unchanged(this)
    {
      hide Marked, Accounting, OwnedBy, At, ByteAt, Wrote, Content, CrashSafe, FreeSet, SectorsOk, Alias, BlockNo, MaxBlocks;
      WroteNothing(g, disk, n, Alias(g, off));
      assert data[..0] == [];
      if |data| == 0 {
        return Ok, 0;
      }
      var ino := disk.inodes[n];
      if !ino.regular {
        return Unsupported, 0;
      }
      var diskSize := ino.Size();
      if (off + |data|) % U64 > finalSize {
        return Unsupported, 0;
      }
      var ino';
      status, ino', done := WriteRange(n, ino, off, data);
      if status != Ok {
        return;
      }
      assert data[..done] == data;
      var ino'' := if finalSize > diskSize then WithSize(ino', finalSize) else ino';
      if ino'' != ino {
        ghost var e := disk;
        SetSize(n, ino', ino'');
        WroteThenNothing(g, old(disk), e, disk, n, Alias(g, off), data);
      }
    }

    /** Writes the inode with its new size. */
    method SetSize(n: nat, ino: Inode, ino': Inode)
      requires Valid() && SafeTrace() && n in disk.inodes && ino == disk.inodes[n] && g.blockSize >= 4
      requires ino'.sizeLo < U32 && ino'.sizeHigh < U32 && ino' == ino.(sizeLo := ino'.sizeLo, sizeHigh := ino'.sizeHigh)
      modifies this
      ensures Logged(old(trace), old(disk), trace, disk)
      ensures Valid() && SafeTrace() && disk == old(disk).(inodes := old(disk).inodes[n := ino'])
      ensures Wrote(g, old(disk), disk, n, 0, []) && owner == old(owner)
      ensures forall m: nat, s :: At(disk, m, s) == At(old(disk), m, s)
    {
      hide Marked, Accounting, OwnedBy, At, ByteAt, Wrote, CrashSafe, SectorsOk;
      ResizedSound(g, disk, owner, n, ino');
      WriteInode(n, ino');
      OwnedIsCrashSafe(g, disk, owner);
    }

    // -------------------------------------------------------------- resizing

    /** Maps logical blocks lo to hi, stopping at the first that cannot be had. */
    method GrowBlocks(n: nat, ino: Inode, lo: nat, hi: nat) returns (status: Status, ino': Inode)
      requires Valid() && SafeTrace() && n in disk.inodes && ino == disk.inodes[n] && g.PerBlock() > 0
      modifies this
      ensures Logged(old(trace), old(disk), trace, disk)
      ensures Valid() && SafeTrace() && n in disk.inodes && ino' == disk.inodes[n]
      ensures GrewFrom(g, old(disk), disk, n, lo) && SameStrays(g, old(disk), old(owner), disk, owner)
      ensures status == Ok ==> forall lbn :: lo <= lbn < hi ==> BlockOf(g, disk, n, lbn) != 0
      ensures status == GrowStatus(g, old(disk), n, lo, hi)
      ensures status == Ok ==> |FreeSet(g, old(disk))| == |FreeSet(g, disk)| + |Missing(g, old(disk), n, lo, hi)|
      ensures status != Ok ==> lo < hi && Stuck(g, old(disk), disk, n, lo)
    {
      hide Marked, Accounting, OwnedBy, At, Content, CrashSafe, FreeSet, SectorsOk, Grew, GrewFrom, SameStrays, LeafOf, WellFormed, MaxBlocks, Supplied, Missing;
      status, ino' := Ok, ino;
      GrewFromRefl(g, disk, n, lo);
      GrewRefl(g, disk, owner, n, Indirect);
      SuppliedStart(g, disk, n, lo);
      NothingMissing(g, disk, n, lo, hi);
      var lbn := lo;
      while lbn < hi
        invariant lo <= lbn && status == Ok
        invariant Valid() && SafeTrace() && n in disk.inodes && ino' == disk.inodes[n]
        invariant Logged(old(trace), old(disk), trace, disk)
        invariant GrewFrom(g, old(disk), disk, n, lo) && SameStrays(g, old(disk), old(owner), disk, owner)
        invariant forall i :: lo <= i < lbn && i < hi ==> BlockOf(g, disk, n, i) != 0
        invariant lbn == lo ==> disk == old(disk)
        invariant lbn == lo || (lbn <= hi && lbn <= MaxBlocks(g))
        invariant Supplied(g, old(disk), disk, n, lo, lbn)
      {
        ghost var e, o := disk, owner;
        var pblk;
        status, pblk, ino' := GetOrAllocBlock(n, ino', lbn, true);
        GrewFromStep(g, old(disk), e, disk, n, lo, lbn);
        SameStraysTransitive(g, old(disk), old(owner), e, o, disk, owner);
        MappedStays(g, e, disk, n, LeafOf(g, lbn));
        ValidIsSound(g, e, o);
        ValidIsSound(g, disk, owner);
        if status != Ok || pblk == 0 {
          WhyStopped(g, old(disk), e, o, disk, owner, n, lo, lbn, hi, status);
          return;
        }
        SuppliedStep(g, old(disk), e, o, disk, owner, n, lo, lbn);
        lbn := lbn + 1;
      }
      AllSupplied(g, old(disk), disk, n, lo, lbn, hi);
    }

    /**
     What growing inode n of image d comes to. A success is what was asked for
     exactly up to 1 TB, and takes a block for every slot that was missing; a
     failure is rolled back, and without a trace if the file has no holes. Which
     it is, and what it reports, depends only on the image before: whether the
     map reaches and the free blocks suffice.
     */
    ghost predicate GrowOutcome(status: Status, d: Disk, o: Owners, n: nat, newSize: nat)
      reads this
      requires n in d.inodes && n in disk.inodes && g.blockSize > 0 && g.PerBlock() > 0
    {
      var lo := BlocksFor(g, d.inodes[n].Size());
      && (status == Ok ==> ResizedUp(g, d, n, newSize, disk) && (GrewFully(g, d, n, newSize, disk) <==> newSize <= MAX_SIZE))
      && (status != Ok ==> RolledBack(g, d, o, n, lo, disk, owner))
      && (status != Ok && Dense(g, d, n, lo) ==> Undone(g, d, o, disk, owner))
      && status == GrowStatus(g, d, n, lo, BlocksFor(g, newSize))
      && (status == Ok ==> |FreeSet(g, d)| == |FreeSet(g, disk)| + |Missing(g, d, n, lo, BlocksFor(g, newSize))|)
    }

    /** Sets a file's size, mapping every block of a larger file and freeing the tail of a smaller one. */
    method ResizeFile(n: nat, newSize: nat) returns (status: Status)
      requires Valid() && SafeTrace() && n in disk.inodes && newSize < U64
      modifies this
      ensures Logged(old(trace), old(disk), trace, disk)
      ensures Valid() && SafeTrace() && disk.inodes.Keys == old(disk).inodes.Keys && g.blockSize > 0 && g.PerBlock() > 0
      ensures forall m :: m in old(disk).inodes && m != n ==> disk.inodes[m] == old(disk).inodes[m]
      ensures !old(disk).inodes[n].regular ==> status == Unsupported && unchanged(this)
      ensures newSize == old(disk).inodes[n].Size() && old(disk).inodes[n].regular ==> status == Ok && unchanged(this)
      ensures old(disk).inodes[n].regular && newSize > old(disk).inodes[n].Size() ==>
                GrowOutcome(status, old(disk), old(owner), n, newSize)
      ensures old(disk).inodes[n].regular && newSize < old(disk).inodes[n].Size() ==>
                status == Ok && ResizedDown(g, old(disk), old(owner), n, newSize, disk, owner)
    {
      hide Marked, Accounting, OwnedBy, At, Content, CrashSafe, FreeSet, SectorsOk, MapGrew, WellFormed, Dropped, Cut, NothingLeaks, BlocksFor, GrewFully, Dense, Undone, GrowStatus, Missing;
      ValidGeo(g, disk, owner);
      PerBlockBounds(g);
      var ino := disk.inodes[n];
      if !ino.regular {
        return Unsupported;
      }
      if newSize == ino.Size() {
        return Ok;
      }
      if newSize > ino.Size() {
        status := Grow(n, ino, newSize);
      } else {
        Shrink(n, ino, newSize);
        status := Ok;
      }
    }

    /** Size first, then the tail blocks. */
    method Shrink(n: nat, ino: Inode, newSize: nat)
      requires Valid() && SafeTrace() && n in disk.inodes && ino == disk.inodes[n] && newSize < ino.Size()
      modifies this
      ensures Logged(old(trace), old(disk), trace, disk)
      ensures Valid() && SafeTrace() && ResizedDown(g, old(disk), old(owner), n, newSize, disk, owner)
    {
      hide Marked, Accounting, OwnedBy, At, Content, CrashSafe, FreeSet, SectorsOk, Wrote, Dropped, Drops, Cut, OwnedOf, BlocksFor, CeilDiv;
      SizeIsSmall(ino);
      SmallSize(g, newSize);
      SizeRoundTrip(ino, newSize);
      var ino' := WithSize(ino, newSize);
      SetSize(n, ino, ino');
      ino' := TrimInodeBlocks(n, ino', BlocksFor(g, newSize));
    }

    /** Blocks first, then the size; a failure on the way is cut back at the old end. */
    method Grow(n: nat, ino: Inode, newSize: nat) returns (status: Status)
      requires Valid() && SafeTrace() && n in disk.inodes && ino == disk.inodes[n] && newSize > ino.Size()
      modifies this
      ensures Logged(old(trace), old(disk), trace, disk)
      ensures Valid() && SafeTrace() && g.blockSize > 0 && g.PerBlock() > 0
      ensures n in disk.inodes && GrowOutcome(status, old(disk), old(owner), n, newSize)
    {
      hide Marked, Accounting, OwnedBy, At, Content, CrashSafe, FreeSet, Wrote, Dropped, Drops, OwnedOf, SameStrays, TrimmedTo, MapGrew, BlocksFor, BlockOf, SectorsOk, GrewFully, Dense, Undone, Stuck, Cut, NothingLeaks, GrowStatus, Missing;
      PerBlockBounds(g);
      SizeIsSmall(ino);
      SmallSize(g, ino.Size());
      var oldBlocks, newBlocks := BlocksFor(g, ino.Size()), BlocksFor(g, newSize);
      var ino';
      status, ino' := GrowBlocks(n, ino, oldBlocks, newBlocks);
      if status != Ok {
        ghost var e, o := disk, owner;
        ino' := TrimInodeBlocks(n, ino', oldBlocks);
        RollbackTheorem(g, old(disk), old(owner), e, o, disk, n, oldBlocks);
        if Dense(g, old(disk), n, oldBlocks) {
          DenseRollback(g, old(disk), old(owner), n, oldBlocks, disk, owner);
        }
        return;
      }
      assert View(n, ino') == disk;
      var count := CountAllocatedBlocks(n, ino');
      SectorsAreRight(g, disk, owner, n);
      ino' := ino'.(sectors := count * g.SectorsPerBlock() % U32);
      ghost var e := disk;
      SetSize(n, ino', WithSize(ino', newSize));
      MapGrewFrame(g, old(disk), e, disk, n, oldBlocks);
      SameBlocksSameFree(g, e, disk);
      FullyExactly(g, old(disk), n, newSize, disk);
    }

    // -------------------------------------------------------- several calls

    /**
     Writing into a file of at most 64 MB and loading it again: what comes back
     is the old file with the data laid over it, or, when space ran out, with
     as much of the data as fits the old size and was written.
     */
    method WriteAndLoad(n: nat, off: nat, data: seq<byte>) returns (status: Status, bytes: seq<byte>, ghost done: nat)
      requires Valid() && SafeTrace() && n in disk.inodes && disk.inodes[n].regular && g.blockSize >= 4
      requires off <= disk.inodes[n].Size() <= MAX_FILE_BYTES && off + |data| <= MAX_FILE_BYTES
      modifies this
      ensures Logged(old(trace), old(disk), trace, disk)
      ensures Valid() && SafeTrace()
      ensures status == Ok ==> bytes == Overlay(FileBytes(g, old(disk), n), off, data)
      ensures status != Ok ==> FreeSet(g, disk) == {} && done < |data|
      ensures status != Ok ==>
                bytes == Overlay(FileBytes(g, old(disk), n), off, data[..done])[..old(disk).inodes[n].Size()]
    {
      hide Marked, Accounting, OwnedBy, At, ByteAt, Wrote, Content, CrashSafe, FreeSet, SectorsOk, BlockNo, MaxBlocks, WellFormed, FileBytes, Geo.Ok, Overlay, Shape, Alias, Inode.Size, WithSize, SameIdentity, Sound;
      ValidGeo(g, disk, owner);
      LowPosition(g, off);
      var size := disk.inodes[n].Size();
      var finalSize := if off + |data| > size then off + |data| else size;
      status, done := WritebackFile(n, off, data, finalSize);
      WrittenSize(old(disk).inodes[n], disk.inodes[n], finalSize);
      if status != Ok {
        CapIsReachable(g, off + done);
        LowPosition(g, off + done);
        ReadAfterPart(g, old(disk), disk, n, off, data[..done]);
      } else {
        assert data[..done] == data;
        ReadAfterWrite(g, old(disk), disk, n, off, data, finalSize);
      }
      var rc;
      ValidIsSound(g, disk, owner);
      rc, bytes := LoadFile(n);
    }

    /** Growing a file to block size times 2^32 bytes reports success and leaves it empty. */
    method GrowToNothing(n: nat) returns (status: Status)
      requires Valid() && SafeTrace() && n in disk.inodes && disk.inodes[n].regular && g.blockSize >= 4
      modifies this
      ensures Logged(old(trace), old(disk), trace, disk)
      ensures Valid() && SafeTrace() && status == Ok && n in disk.inodes
      ensures old(disk).inodes[n].Size() < g.blockSize * U32 && disk.inodes[n].Size() == 0
      ensures FileBytes(g, disk, n) == []
    {
      hide Marked, Accounting, OwnedBy, At, Content, CrashSafe, FreeSet, SectorsOk, MapGrew, WellFormed, BlocksFor, GrewFully, Dense, Undone, RolledBack, BlockOf, ByteAt, Geo.Ok, ResizedDown;
      ValidGeo(g, disk, owner);
      InodeIsOk(g, disk, owner, n);
      WrappedSize(g, disk.inodes[n]);
      status := ResizeFile(n, g.blockSize * U32);
    }

    /**
     Cutting a file and growing it again: the rest of the last block kept is
     not cleared, so its old bytes are back, and only from there on are zeros.
     */
    method ShrinkAndRegrow(n: nat, small: nat, big: nat) returns (status: Status)
      requires Valid() && SafeTrace() && n in disk.inodes && disk.inodes[n].regular && g.blockSize >= 4
      requires small < disk.inodes[n].Size() && small < big <= MAX_FILE_BYTES
      modifies this
      ensures Logged(old(trace), old(disk), trace, disk)
      ensures Valid() && SafeTrace() && n in disk.inodes
      ensures var kept := CeilDiv(small, g.blockSize) * g.blockSize;
              status == Ok ==> && |FileBytes(g, disk, n)| == big
                               && forall k :: 0 <= k < big ==>
                                    FileBytes(g, disk, n)[k] == if k < kept then ByteAt(g, old(disk), n, k) else 0
    {
      hide Marked, Accounting, OwnedBy, At, Content, CrashSafe, FreeSet, SectorsOk, MapGrew, WellFormed, BlocksFor, GrewFully, Dense, Undone, RolledBack, BlockOf, ByteAt, Geo.Ok, ResizedDown, CeilDiv;
      ValidGeo(g, disk, owner);
      ghost var d, o := disk, owner;
      ValidIsSound(g, d, o);
      InodeIsOk(g, d, o, n);
      status := ResizeFile(n, small);
      ghost var e := disk;
      forall k: nat
        ensures ByteAt(g, e, n, k) == if k < CeilDiv(small, g.blockSize) * g.blockSize then ByteAt(g, d, n, k) else 0
      {
        ShrunkReads(g, d, o, n, small, e, owner, k);
      }
      ShrunkInode(g, d, o, n, small, e, owner);
      status := ResizeFile(n, big);
      if status == Ok {
        GrownReads(g, e, n, big, disk);
        GrownBytes(g, e, n, big, disk);
      }
    }
  }

  lemma NothingBelow(d: Disk, n: nat, leaf: Slot)
    ensures leaf.IndEntry? && At(d, n, Indirect) == 0 ==> At(d, n, leaf) == 0
    ensures leaf.SubEntry? && (At(d, n, DoubleIndirect) == 0 || At(d, n, SubTable(leaf.i)) == 0) ==> At(d, n, leaf) == 0
  {
  }

  lemma DoubleIndexBounds(idx: nat, per: nat)
    requires per > 0 && idx < per * per
    ensures idx / per < per && idx % per < per
  {
    if idx / per >= per {
      MulMonotone(per, idx / per, per);
    }
  }
}
