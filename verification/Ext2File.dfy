/**
 Files as sequences of bytes: what a file reads as, what writing one block
 through the map does to it, and which position a write really reaches.
 */
module Ext2File {
  import opened Arithmetic
  import opened Common
  import opened Ext2Layout
  import opened Ext2Disk
  import opened Ext2Attach
  import opened Ext2Grow

  const MAX_FILE_BYTES := 64 * 1024 * 1024

  /** Byte k of inode n, whatever its size says; holes and bytes out of reach read as zero. */
  function ByteAt(g: Geo, d: Disk, n: nat, k: nat): byte
    requires g.blockSize >= 4
  {
    if k / g.blockSize >= MaxBlocks(g) then 0 else
    var c := Content(g, d, n, LeafOf(g, k / g.blockSize));
    if k % g.blockSize < |c| then c[k % g.blockSize] else 0
  }

  /** How much of a file is loaded: sizes are capped at 64 MB. */
  function LoadSize(ino: Inode): nat {
    var size := if ino.Size() > U32MAX then U32MAX else ino.Size();
    if size > MAX_FILE_BYTES then MAX_FILE_BYTES else size
  }

  /** What loading inode n yields. */
  function FileBytes(g: Geo, d: Disk, n: nat): seq<byte>
    requires g.blockSize >= 4 && n in d.inodes
  {
    seq(LoadSize(d.inodes[n]), k requires k >= 0 => ByteAt(g, d, n, k))
  }

  /** `data` written over s from offset `off` on. */
  function Overlay(s: seq<byte>, off: nat, data: seq<byte>): seq<byte>
    requires off <= |s|
  {
    s[..off] + data + (if off + |data| < |s| then s[off + |data|..] else [])
  }

  /** Every loadable position has a logical block that the map can reach. */
  lemma CapIsReachable(g: Geo, k: nat)
    requires g.Ok() && k < MAX_FILE_BYTES
    ensures k / g.blockSize < MaxBlocks(g)
  {
    PerBlockBounds(g);
    var per := g.PerBlock();
    if g.blockSize == 1024 {
      assert per * per == 65536;
    } else if g.blockSize == 2048 {
      assert per * per == 262144;
    } else {
      assert per * per == 1048576;
    }
  }

  // -------------------------------------------------- writing through the map

  /** From d to e, bytes lo to hi of inode n became `data`, all others of all inodes stayed. */
  ghost predicate Wrote(g: Geo, d: Disk, e: Disk, n: nat, lo: nat, data: seq<byte>)
    requires g.blockSize >= 4
  {
    forall m: nat, k: nat ::
      ByteAt(g, e, m, k) == if m == n && lo <= k < lo + |data| then data[k - lo] else ByteAt(g, d, m, k)
  }

  lemma GrewKeepsBytes(g: Geo, d: Disk, e: Disk, n: nat, leaf: Slot)
    requires g.blockSize >= 4 && Grew(g, d, e, n, leaf)
    ensures Wrote(g, d, e, n, 0, [])
  {
    hide At, Content, OnPath;
    forall m: nat, k: nat
      ensures ByteAt(g, e, m, k) == ByteAt(g, d, m, k)
    {
      if k / g.blockSize < MaxBlocks(g) {
        assert LeafOf(g, k / g.blockSize).Leaf();
      }
    }
  }

  lemma WroteTransitive(g: Geo, d: Disk, e: Disk, f: Disk, n: nat, lo: nat, a: seq<byte>, b: seq<byte>)
    requires g.blockSize >= 4 && Wrote(g, d, e, n, lo, a) && Wrote(g, e, f, n, lo + |a|, b)
    ensures Wrote(g, d, f, n, lo, a + b)
  {
    hide ByteAt;
  }

  lemma WroteNothingFirst(g: Geo, d: Disk, e: Disk, f: Disk, n: nat, lo: nat, a: seq<byte>)
    requires g.blockSize >= 4 && Wrote(g, d, e, n, 0, []) && Wrote(g, e, f, n, lo, a)
    ensures Wrote(g, d, f, n, lo, a)
  {
    hide ByteAt;
  }

  /** The block `was` with `data` written over it from `boff` on. */
  function Patch(was: Block, boff: nat, data: seq<byte>): (r: Block)
    requires boff + |data| <= |was|
    ensures |r| == |was|
  {
    was[..boff] + data + was[boff + |data|..]
  }

  /** Patching the block of one leaf changes what that leaf reads as, and nothing else. */
  lemma PatchContent(g: Geo, d: Disk, owner: Owners, n: nat, leaf: Slot, data: Block, m: nat, t: Slot)
    requires Sound(g, d, owner) && leaf.Leaf() && At(d, n, leaf) != 0 && |data| == g.blockSize && t.Leaf()
    ensures At(d, n, leaf) in owner && At(d, n, leaf) < |d.blocks| && At(d, n, leaf) !in g.reserved
    ensures Sound(g, WithBlock(d, At(d, n, leaf), data), owner)
    ensures Content(g, WithBlock(d, At(d, n, leaf), data), m, t) ==
            if m == n && t == leaf then data else Content(g, d, m, t)
  {
    hide Marked, Accounting, At;
    var c := At(d, n, leaf);
    DataWriteSound(g, d, owner, c, data);
  }

  lemma LeafOfInjective(g: Geo, a: nat, b: nat)
    requires g.PerBlock() > 0 && LeafOf(g, a) == LeafOf(g, b)
    ensures a == b
  {
    LeafRoundTrip(g, a);
    LeafRoundTrip(g, b);
  }

  lemma PatchBytes(g: Geo, d: Disk, owner: Owners, n: nat, lbn: nat, boff: nat, data: seq<byte>, m: nat, k: nat)
    requires Sound(g, d, owner) && lbn < MaxBlocks(g) && g.blockSize >= 4
    requires BlockOf(g, d, n, lbn) != 0 && boff + |data| <= g.blockSize
    ensures BlockOf(g, d, n, lbn) < |d.blocks| && |d.blocks[BlockOf(g, d, n, lbn)]| == g.blockSize
    ensures var c := BlockOf(g, d, n, lbn);
            var e := WithBlock(d, c, Patch(d.blocks[c], boff, data));
            ByteAt(g, e, m, k) == if m == n && lbn * g.blockSize + boff <= k < lbn * g.blockSize + boff + |data|
                                  then data[k - lbn * g.blockSize - boff] else ByteAt(g, d, m, k)
  {
    hide Marked, Accounting, At, OwnedBy, LeafOf;
    var c := BlockOf(g, d, n, lbn);
    var leaf := LeafOf(g, lbn);
    OwnedBlock(g, d, owner, n, leaf);
    var p := Patch(d.blocks[c], boff, data);
    PatchContent(g, d, owner, n, leaf, p, m, LeafOf(g, k / g.blockSize));
    if m == n && LeafOf(g, k / g.blockSize) == leaf {
      LeafOfInjective(g, k / g.blockSize, lbn);
      assert k == lbn * g.blockSize + k % g.blockSize;
    } else if m == n {
      OutsideBlock(k, lbn, g.blockSize);
    }
  }

  lemma OutsideBlock(k: nat, lbn: nat, bs: nat)
    requires bs > 0 && k / bs != lbn
    ensures k < lbn * bs || lbn * bs + bs <= k
  {
    if k / bs < lbn {
      MulMonotone(k / bs + 1, lbn, bs);
    } else {
      MulMonotone(lbn + 1, k / bs, bs);
    }
  }

  lemma OwnedBlock(g: Geo, d: Disk, owner: Owners, n: nat, s: Slot)
    requires Sound(g, d, owner) && At(d, n, s) != 0
    ensures At(d, n, s) in owner && At(d, n, s) < |d.blocks| && At(d, n, s) !in g.reserved
    ensures owner[At(d, n, s)] == (n, s)
  {
    hide Marked, Accounting, At;
  }

  lemma PatchWrote(g: Geo, d: Disk, owner: Owners, n: nat, lbn: nat, boff: nat, data: seq<byte>)
    requires Sound(g, d, owner) && lbn < MaxBlocks(g) && g.blockSize >= 4
    requires BlockOf(g, d, n, lbn) != 0 && boff + |data| <= g.blockSize
    ensures var c := BlockOf(g, d, n, lbn);
            && c < |d.blocks| && |d.blocks[c]| == g.blockSize
            && Sound(g, WithBlock(d, c, Patch(d.blocks[c], boff, data)), owner)
            && Wrote(g, d, WithBlock(d, c, Patch(d.blocks[c], boff, data)), n, lbn * g.blockSize + boff, data)
            && (forall m: nat, s :: At(WithBlock(d, c, Patch(d.blocks[c], boff, data)), m, s) == At(d, m, s))
  {
    hide Marked, Accounting, At, OwnedBy, ByteAt, Patch, LeafOf;
    var c := BlockOf(g, d, n, lbn);
    OwnedBlock(g, d, owner, n, LeafOf(g, lbn));
    var e := WithBlock(d, c, Patch(d.blocks[c], boff, data));
    DataWriteSound(g, d, owner, c, Patch(d.blocks[c], boff, data));
    forall m: nat, k: nat
      ensures ByteAt(g, e, m, k) == if m == n && lbn * g.blockSize + boff <= k < lbn * g.blockSize + boff + |data|
                                    then data[k - lbn * g.blockSize - boff] else ByteAt(g, d, m, k)
    {
      PatchBytes(g, d, owner, n, lbn, boff, data, m, k);
    }
  }

  /** Changing sizes or sector counts of inodes changes no byte. */
  lemma InodeKeepsBytes(g: Geo, d: Disk, e: Disk, n: nat)
    requires g.blockSize >= 4 && e.blocks == d.blocks && e.inodes.Keys == d.inodes.Keys
    requires forall m :: m in d.inodes ==> e.inodes[m].block == d.inodes[m].block
    ensures Wrote(g, d, e, n, 0, [])
    ensures forall m: nat, s :: At(e, m, s) == At(d, m, s)
  {
    hide Word;
    forall m: nat, s
      ensures At(e, m, s) == At(d, m, s)
    {
    }
    BytesFollowMap(g, d, e, n);
  }

  lemma BytesFollowMap(g: Geo, d: Disk, e: Disk, n: nat)
    requires g.blockSize >= 4 && e.blocks == d.blocks && forall m: nat, s :: At(e, m, s) == At(d, m, s)
    ensures Wrote(g, d, e, n, 0, [])
  {
    hide At;
  }

  // -------------------------------------------------------- read after write

  /**
   Writing within or right at the end of a file of at most 64 MB and loading
   it again yields the old contents with the new data laid over them.
   */
  lemma ReadAfterWrite(g: Geo, d: Disk, e: Disk, n: nat, off: nat, data: seq<byte>, finalSize: nat)
    requires g.blockSize >= 4 && n in d.inodes && n in e.inodes
    requires Wrote(g, d, e, n, off, data)
    requires off <= d.inodes[n].Size() && finalSize <= MAX_FILE_BYTES
    requires finalSize == (if off + |data| > d.inodes[n].Size() then off + |data| else d.inodes[n].Size())
    requires e.inodes[n].Size() == finalSize
    ensures FileBytes(g, e, n) == Overlay(FileBytes(g, d, n), off, data)
  {
    hide ByteAt;
    var s, t := FileBytes(g, d, n), FileBytes(g, e, n);
    assert |s| == d.inodes[n].Size();
    forall k | 0 <= k < |t|
      ensures t[k] == Overlay(s, off, data)[k]
    {
    }
  }

  /** When only part of the data was written, the size stays and what lies past it is not loaded. */
  lemma ReadAfterPart(g: Geo, d: Disk, e: Disk, n: nat, off: nat, data: seq<byte>)
    requires g.blockSize >= 4 && n in d.inodes && n in e.inodes
    requires Wrote(g, d, e, n, off, data)
    requires off <= d.inodes[n].Size() == e.inodes[n].Size() <= MAX_FILE_BYTES
    ensures |FileBytes(g, d, n)| == d.inodes[n].Size()
    ensures FileBytes(g, e, n) == Overlay(FileBytes(g, d, n), off, data)[..d.inodes[n].Size()]
  {
    hide ByteAt;
    var s, t := FileBytes(g, d, n), FileBytes(g, e, n);
    forall k | 0 <= k < |t|
      ensures t[k] == Overlay(s, off, data)[k]
    {
    }
  }

  lemma ChunkBytes(g: Geo, d: Disk, n: nat, lbn: nat, blk: Block, chunk: nat)
    requires g.blockSize >= 4 && lbn < MaxBlocks(g) && chunk <= |blk| == g.blockSize
    requires blk == Content(g, d, n, LeafOf(g, lbn))
    ensures forall i :: 0 <= i < chunk ==> blk[i] == ByteAt(g, d, n, lbn * g.blockSize + i)
  {
    hide Content, LeafOf;
    forall i | 0 <= i < chunk
      ensures blk[i] == ByteAt(g, d, n, lbn * g.blockSize + i)
    {
      DivMod(lbn, i, g.blockSize);
    }
  }

  /** Inodes other than n are the same, and n kept its kind and size. */
  ghost predicate SameInodes(d: Disk, e: Disk, n: nat) {
    && e.inodes.Keys == d.inodes.Keys
    && (forall m :: m in d.inodes && m != n ==> e.inodes[m] == d.inodes[m])
    && (n in d.inodes ==> SameIdentity(e.inodes[n], d.inodes[n]))
  }

  lemma GrewKeepsInodes(g: Geo, d: Disk, e: Disk, n: nat, leaf: Slot)
    requires Grew(g, d, e, n, leaf)
    ensures SameInodes(d, e, n)
  {
    hide At, Content, OnPath;
  }

  /** The inode with its size fields set, as a 64-bit size is stored. */
  function WithSize(ino: Inode, size: nat): Inode {
    ino.(sizeLo := size % U32, sizeHigh := size / U32 % U32)
  }

  /** A new size is sound on disk, whatever it is: pointers and marks do not depend on it. */
  lemma ResizedSound(g: Geo, d: Disk, owner: Owners, n: nat, ino: Inode)
    requires WellFormed(g, d, owner) && n in d.inodes && ino.Ok()
    requires ino.block == d.inodes[n].block && ino.sectors == d.inodes[n].sectors
    ensures var e := d.(inodes := d.inodes[n := ino]);
            && WellFormed(g, e, owner) && Wrote(g, d, e, n, 0, [])
            && (forall m: nat, s :: At(e, m, s) == At(d, m, s))
  {
    hide Marked, Accounting, OwnedBy, At, ByteAt;
    var e := d.(inodes := d.inodes[n := ino]);
    PerBlockBounds(g);
    InodeKeepsBytes(g, d, e, n);
    AccountingIgnoresInodes(g, d, e);
    assert forall b :: b in owner ==> Marked(g, e, b) by {
      OwnersMarked(g, d, owner);
    }
    OwnedFrame(g, d, e, owner);
    forall m | m in e.inodes
      ensures SectorsOk(g, e, owner, m)
    {
      assert SectorsOk(g, d, owner, m);
    }
  }

  lemma OwnersMarked(g: Geo, d: Disk, owner: Owners)
    requires OwnedBy(g, d, owner)
    ensures forall b :: b in owner ==> Marked(g, d, b) && g.InRange(b)
  {
    hide Marked, At;
  }

  /** Patching a data block keeps the file system well formed. */
  lemma PatchWellFormed(g: Geo, d: Disk, owner: Owners, n: nat, lbn: nat, boff: nat, data: seq<byte>)
    requires WellFormed(g, d, owner) && lbn < MaxBlocks(g) && g.blockSize >= 4
    requires BlockOf(g, d, n, lbn) != 0 && boff + |data| <= g.blockSize
    ensures var c := BlockOf(g, d, n, lbn);
            && c < |d.blocks| && |d.blocks[c]| == g.blockSize
            && WellFormed(g, WithBlock(d, c, Patch(d.blocks[c], boff, data)), owner)
            && Wrote(g, d, WithBlock(d, c, Patch(d.blocks[c], boff, data)), n, lbn * g.blockSize + boff, data)
  {
    hide Marked, Accounting, OwnedBy, At, Wrote, Patch, Shape, BlockOf;
    PatchWrote(g, d, owner, n, lbn, boff, data);
    var c := BlockOf(g, d, n, lbn);
    var e := WithBlock(d, c, Patch(d.blocks[c], boff, data));
    forall m | m in e.inodes
      ensures SectorsOk(g, e, owner, m)
    {
      assert SectorsOk(g, d, owner, m);
    }
  }

  lemma PatchWhole(blk: Block, was: Block, boff: nat, bytes: seq<byte>)
    requires |blk| == |was| && boff + |bytes| <= |was|
    requires blk == was || (boff == 0 && |bytes| == |was|)
    ensures Patch(blk, boff, bytes) == Patch(was, boff, bytes)
  {
  }

  lemma WroteNothing(g: Geo, d: Disk, n: nat, off: nat)
    requires g.blockSize >= 4
    ensures Wrote(g, d, d, n, off, [])
  {
    hide ByteAt;
  }

  lemma WroteThenNothing(g: Geo, d: Disk, e: Disk, f: Disk, n: nat, off: nat, data: seq<byte>)
    requires g.blockSize >= 4 && Wrote(g, d, e, n, off, data) && Wrote(g, e, f, n, 0, [])
    ensures Wrote(g, d, f, n, off, data)
  {
    hide ByteAt;
  }

  lemma SameInodesRefl(d: Disk, n: nat)
    ensures SameInodes(d, d, n)
  {
  }

  lemma SameInodesTransitive(d: Disk, e: Disk, f: Disk, n: nat)
    requires SameInodes(d, e, n) && SameInodes(e, f, n)
    ensures SameInodes(d, f, n)
  {
  }

  /** Logical block of a file position, as 64- and 32-bit arithmetic has it. */
  function BlockNo(g: Geo, pos: nat): nat
    requires g.blockSize >= 4
  {
    pos % U64 / g.blockSize % U32
  }

  function BlockOff(g: Geo, pos: nat): (r: nat)
    requires g.blockSize >= 4
    ensures r < g.blockSize
  {
    pos % U64 % g.blockSize
  }

  /** The position whose block a write at pos really reaches: block numbers are cut to 32 bits. */
  function Alias(g: Geo, pos: nat): nat
    requires g.blockSize > 0
  {
    pos % (g.blockSize * U32)
  }

  /** Block number and offset of a position are those of its alias. */
  lemma AliasPosition(g: Geo, pos: nat)
    requires g.Ok()
    ensures BlockNo(g, pos) * g.blockSize + BlockOff(g, pos) == Alias(g, pos)
  {
    hide Geo.Ok;
    BlockSizes(g);
    var m := if g.blockSize == 1024 then 0x40_0000 else if g.blockSize == 2048 then 0x20_0000 else 0x10_0000;
    assert m * (g.blockSize * U32) == U64;
    CutToPeriod(pos % U64, g.blockSize, pos / U64, m);
  }

  /** Cutting the quotient by bs to 32 bits is taking the remainder by bs times 2^32. */
  lemma CutToPeriod(x: nat, bs: nat, c: nat, m: nat)
    requires bs > 0
    ensures x / bs % U32 * bs + x % bs == (c * (m * (bs * U32)) + x) % (bs * U32)
  {
    var q, r, p := x / bs, x % bs, bs * U32;
    var a, b := q / U32, q % U32;
    assert x == a * p + (b * bs + r) by {
      assert x == q * bs + r && q == a * U32 + b;
    }
    MulMonotone(b + 1, U32, bs);
    Regroup(c, m, a, p);
    DivMod(c * m + a, b * bs + r, p);
  }

  lemma Regroup(c: nat, m: nat, a: nat, p: nat)
    ensures c * (m * p) + a * p == (c * m + a) * p
  {
  }

  /** Block number and offset lead back to the position exactly below block size times 2^32. */
  lemma ReachablePosition(g: Geo, pos: nat)
    requires g.Ok()
    ensures BlockNo(g, pos) * g.blockSize + BlockOff(g, pos) == pos <==> pos < g.blockSize * U32
    ensures pos < g.blockSize * U32 ==> BlockNo(g, pos) == pos / g.blockSize && Alias(g, pos) == pos
  {
    hide Geo.Ok, BlockNo, BlockOff;
    BlockSizes(g);
    AliasPosition(g, pos);
    if pos < g.blockSize * U32 {
      PositionFits(pos, g.blockSize);
      SplitPosition(g, pos);
    }
  }

  lemma SplitPosition(g: Geo, pos: nat)
    requires 4 <= g.blockSize && pos % U64 == pos && pos / g.blockSize < U32
    ensures BlockNo(g, pos) == pos / g.blockSize
  {
  }

  /** Right there the first block is hit: what is written at block size times 2^32 is read at position 0. */
  lemma HighWriteHitsBlockZero(g: Geo, d: Disk, e: Disk, n: nat, data: seq<byte>)
    requires g.Ok() && g.blockSize >= 4 && Wrote(g, d, e, n, Alias(g, g.blockSize * U32), data)
    ensures BlockNo(g, g.blockSize * U32) == 0 && BlockOff(g, g.blockSize * U32) == 0
    ensures forall k :: 0 <= k < |data| ==> ByteAt(g, e, n, k) == data[k]
  {
    hide Geo.Ok, ByteAt;
    BlockSizes(g);
    AliasPosition(g, g.blockSize * U32);
  }

  /** As long as the end of the period is not reached, the alias moves with the position. */
  lemma AliasStep(g: Geo, off: nat, k: nat)
    requires g.Ok() && Alias(g, off) + k < g.blockSize * U32
    ensures Alias(g, off + k) == Alias(g, off) + k
  {
    hide Geo.Ok;
    BlockSizes(g);
    var p := g.blockSize * U32;
    var q := off / p;
    assert off == q * p + off % p;
    DivMod(q, off % p + k, p);
  }

  /** Mappable positions end long before the period does. */
  lemma MapEndsEarly(g: Geo)
    requires g.Ok()
    ensures MaxBlocks(g) * g.blockSize < g.blockSize * U32
  {
    hide Geo.Ok;
    BlockSizes(g);
  }

  /** Where a write stands after `pos` bytes, all of which the map could reach. */
  lemma NextPosition(g: Geo, off: nat, pos: nat)
    requires g.Ok() && g.blockSize >= 4 && (pos > 0 ==> Alias(g, off) + pos <= MaxBlocks(g) * g.blockSize)
    ensures BlockNo(g, off + pos) * g.blockSize + BlockOff(g, off + pos) == Alias(g, off) + pos
  {
    hide Geo.Ok, BlockNo, BlockOff, Alias, MaxBlocks;
    AliasPosition(g, off + pos);
    if pos > 0 {
      MapEndsEarly(g);
      AliasStep(g, off, pos);
    }
  }

  lemma ValidGeo(g: Geo, d: Disk, owner: Owners)
    requires WellFormed(g, d, owner)
    ensures g.Ok()
  {
  }

  lemma ValidIsSound(g: Geo, d: Disk, owner: Owners)
    requires WellFormed(g, d, owner)
    ensures Sound(g, d, owner)
  {
  }

  lemma InodeIsOk(g: Geo, d: Disk, owner: Owners, n: nat)
    requires WellFormed(g, d, owner) && n in d.inodes
    ensures d.inodes[n].Ok()
  {
  }

  /** Positions that can be loaded are no alias of others. */
  lemma LowPosition(g: Geo, pos: nat)
    requires g.Ok() && pos <= MAX_FILE_BYTES
    ensures Alias(g, pos) == pos && BlockNo(g, pos) == pos / g.blockSize
  {
    hide Geo.Ok;
    BlockSizes(g);
    ReachablePosition(g, pos);
  }

  lemma BlockSizes(g: Geo)
    requires g.Ok()
    ensures g.blockSize == 1024 || g.blockSize == 2048 || g.blockSize == 4096
  {
  }

  lemma PositionFits(pos: nat, bs: nat)
    requires 0 < bs <= 4096 && pos < bs * U32
    ensures pos % U64 == pos && pos / bs < U32 && pos / bs * bs + pos % bs == pos
  {
    var q := pos / bs;
    assert pos == q * bs + pos % bs;
    if q >= U32 {
      MulMonotone(U32, q, bs);
    }
    MulMonotone(bs, 4096, U32);
  }
}
