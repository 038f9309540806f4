/**
 The disk image as the driver sees it, the block map of an inode, and the
 well-formedness that mounting takes for granted: every referenced block is
 marked used and is referenced from exactly one place, and the free counters
 agree with the bitmaps.
 */
module Ext2Disk {
  import opened Arithmetic
  import opened Common
  import opened Ext2Layout

  /**
   The constants of a mounted file system. `bitmap[g]` is the block holding
   group g's bitmap; `reserved` are the blocks in use that no pointer of an
   inode names (superblock copies, descriptors, bitmaps, inode tables).
   */
  datatype Geo = Geo(blockSize: nat, first: nat, count: nat, perGroup: nat,
                     bitmap: seq<nat>, reserved: set<nat>) {

    /** Pointers in one table block. */
    function PerBlock(): nat { blockSize / 4 }

    function SectorsPerBlock(): nat { blockSize / 512 }

    predicate InRange(b: nat) { first <= b < count }

    ghost predicate Ok() {
      && (blockSize == 1024 || blockSize == 2048 || blockSize == 4096)
      && first < count < U32
      && 0 < perGroup <= 8 * blockSize
      && |bitmap| == (count - first + perGroup - 1) / perGroup
      && (forall i :: 0 <= i < |bitmap| ==> bitmap[i] in reserved && bitmap[i] != 0)
      && (forall i, j :: 0 <= i < j < |bitmap| ==> bitmap[i] != bitmap[j])
      && (forall b :: b in reserved ==> InRange(b))
      && (first == 0 ==> 0 in reserved)
      && MetadataReserved()
    }

    /** Block b holds the superblock, which is at byte 1024, or group descriptors, 32 bytes each from block first + 1 on. */
    predicate HoldsCounters(b: nat) {
      b == (if blockSize == 1024 then 1 else 0) || (first < b && (b - first - 1) * blockSize < 32 * |bitmap|)
    }

    /** What the counters are written to belongs to no file and holds no bitmap. */
    ghost predicate MetadataReserved() {
      forall b: nat {:trigger HoldsCounters(b)} :: HoldsCounters(b) ==> b in reserved && b !in bitmap
    }

    function GroupOf(b: nat): nat
      requires InRange(b) && perGroup > 0
    {
      (b - first) / perGroup
    }

    function IndexOf(b: nat): nat
      requires InRange(b) && perGroup > 0
    {
      (b - first) % perGroup
    }
  }

  /** An inode; `block` are its fifteen pointers, zero meaning none. */
  datatype Inode = Inode(regular: bool, sizeLo: nat, sizeHigh: nat, sectors: nat, block: seq<nat>) {

    /** Sizes above 1 TB are taken to be corrupt and lose their high half. */
    function Size(): nat {
      var sz := sizeLo + U32 * sizeHigh;
      if sz > 0x100_0000_0000 then sizeLo else sz
    }

    predicate Ok() {
      |block| == 15 && sizeLo < U32 && sizeHigh < U32 && sectors < U32 &&
      forall i :: 0 <= i < 15 ==> block[i] < U32
    }
  }

  datatype Disk = Disk(blocks: seq<Block>, inodes: map<nat, Inode>, sbFree: nat, gdFree: seq<nat>)

  ghost predicate Shape(g: Geo, d: Disk) {
    && g.Ok()
    && |d.blocks| == g.count
    && |d.gdFree| == |g.bitmap|
    && (forall c :: 0 <= c < |d.blocks| ==> |d.blocks[c]| == g.blockSize)
    && (forall n :: n in d.inodes ==> d.inodes[n].Ok())
  }

  // --------------------------------------------------------- the block map

  /** A place in an inode's block map that can hold a block number. */
  datatype Slot =
    | Direct(i: nat)
    | Indirect
    | DoubleIndirect
    | IndEntry(i: nat)
    | SubTable(i: nat)
    | SubEntry(i: nat, j: nat)
  {
    /** Leaves hold data blocks, the other slots hold pointer tables. */
    predicate Leaf() { Direct? || IndEntry? || SubEntry? }
  }

  function Entry(d: Disk, b: nat, i: nat): nat {
    if b == 0 || b >= |d.blocks| || 4 * i + 4 > |d.blocks[b]| then 0 else Word(d.blocks[b], i)
  }

  /** The block number held by slot s of inode n, zero when there is none. */
  function At(d: Disk, n: nat, s: Slot): nat {
    if n !in d.inodes || |d.inodes[n].block| != 15 then 0 else
    var p := d.inodes[n].block;
    match s
    case Direct(i) => if i < NDIR then p[i] else 0
    case Indirect => p[12]
    case DoubleIndirect => p[13]
    case IndEntry(i) => Entry(d, p[12], i)
    case SubTable(i) => Entry(d, p[13], i)
    case SubEntry(i, j) => Entry(d, Entry(d, p[13], i), j)
  }

  function MaxBlocks(g: Geo): nat { NDIR + g.PerBlock() + g.PerBlock() * g.PerBlock() }

  /** The leaf that maps logical block `lbn`. */
  function LeafOf(g: Geo, lbn: nat): (s: Slot)
    requires g.PerBlock() > 0
    ensures s.Leaf()
  {
    var per := g.PerBlock();
    if lbn < NDIR then Direct(lbn)
    else if lbn - NDIR < per then IndEntry(lbn - NDIR)
    else SubEntry((lbn - NDIR - per) / per, (lbn - NDIR - per) % per)
  }

  /** The logical block a slot stands for; for a table, the first one below it. */
  function Lbn(g: Geo, s: Slot): nat {
    var per := g.PerBlock();
    match s
    case Direct(i) => i
    case Indirect => NDIR
    case IndEntry(i) => NDIR + i
    case DoubleIndirect => NDIR + per
    case SubTable(i) => NDIR + per + i * per
    case SubEntry(i, j) => NDIR + per + i * per + j
  }

  function BlockOf(g: Geo, d: Disk, n: nat, lbn: nat): nat
    requires g.PerBlock() > 0
  {
    if lbn < MaxBlocks(g) then At(d, n, LeafOf(g, lbn)) else 0
  }

  /** What a leaf reads as: a hole reads as zeros. */
  function Content(g: Geo, d: Disk, n: nat, s: Slot): Block {
    var b := At(d, n, s);
    if b == 0 || b >= |d.blocks| then Zeros(g.blockSize) else d.blocks[b]
  }

  // ------------------------------------------------- bitmaps and counters

  predicate Marked(g: Geo, d: Disk, b: nat) {
    && g.InRange(b) && 0 < g.perGroup && g.GroupOf(b) < |g.bitmap|
    && g.bitmap[g.GroupOf(b)] < |d.blocks|
    && g.IndexOf(b) / 8 < |d.blocks[g.bitmap[g.GroupOf(b)]]|
    && Bit(d.blocks[g.bitmap[g.GroupOf(b)]], g.IndexOf(b))
  }

  ghost function FreeSet(g: Geo, d: Disk): set<nat> {
    set b | g.first <= b < g.count && !Marked(g, d, b)
  }

  ghost function FreeIn(g: Geo, d: Disk, grp: nat): set<nat>
    requires g.perGroup > 0
  {
    set b | g.first <= b < g.count && !Marked(g, d, b) && g.GroupOf(b) == grp
  }

  /** The superblock and descriptor counters count the zero bits in range. */
  ghost predicate Accounting(g: Geo, d: Disk) {
    && g.perGroup > 0
    && |d.gdFree| == |g.bitmap|
    && d.sbFree == |FreeSet(g, d)|
    && forall i :: 0 <= i < |g.bitmap| ==> d.gdFree[i] == |FreeIn(g, d, i)|
  }

  // ------------------------------------------------------------- ownership

  type Owners = map<nat, (nat, Slot)>

  /** `owner` says which slot of which inode names each block. */
  ghost predicate OwnedBy(g: Geo, d: Disk, owner: Owners) {
    && (forall n: nat, s :: At(d, n, s) != 0 ==> At(d, n, s) in owner && owner[At(d, n, s)] == (n, s))
    && (forall b :: b in owner ==>
          && g.InRange(b) && b !in g.reserved && Marked(g, d, b)
          && At(d, owner[b].0, owner[b].1) == b)
  }

  ghost predicate ReservedMarked(g: Geo, d: Disk) {
    forall b :: b in g.reserved ==> Marked(g, d, b)
  }

  ghost function OwnedOf(owner: Owners, n: nat): set<nat> {
    set b | b in owner && owner[b].0 == n
  }

  /** i_blocks is kept in 512-byte sectors, as an unsigned 32-bit number. */
  ghost predicate SectorsOk(g: Geo, d: Disk, owner: Owners, n: nat) {
    n in d.inodes ==> d.inodes[n].sectors == |OwnedOf(owner, n)| * g.SectorsPerBlock() % U32
  }

  ghost predicate Sound(g: Geo, d: Disk, owner: Owners) {
    && Shape(g, d)
    && ReservedMarked(g, d)
    && OwnedBy(g, d, owner)
    && Accounting(g, d)
  }

  ghost predicate WellFormed(g: Geo, d: Disk, owner: Owners) {
    Sound(g, d, owner) && forall n :: n in d.inodes ==> SectorsOk(g, d, owner, n)
  }

  /** Ownership is injective: two slots that name the same block are the same slot. */
  lemma OwnershipIsInjective(g: Geo, d: Disk, owner: Owners, n: nat, s: Slot, m: nat, t: Slot)
    requires OwnedBy(g, d, owner)
    requires At(d, n, s) == At(d, m, t) != 0
    ensures n == m && s == t
  {
  }

  // ---------------------------------------------------------- write ordering

  /** The blocks on the way from inode n to leaf s are marked used on disk. */
  ghost predicate PathMarked(g: Geo, d: Disk, n: nat, s: Slot) {
    && Marked(g, d, At(d, n, s))
    && (s.IndEntry? ==> Marked(g, d, At(d, n, Indirect)))
    && (s.SubEntry? ==> Marked(g, d, At(d, n, SubTable(s.i))) && Marked(g, d, At(d, n, DoubleIndirect)))
  }

  /**
   A disk image that may be left behind by a crash: no block that the on-disk
   size of an inode covers is free for others to take.
   */
  ghost predicate CrashSafe(g: Geo, d: Disk) {
    forall n, s: Slot :: n in d.inodes && s.Leaf() && At(d, n, s) != 0 && Lbn(g, s) * g.blockSize < d.inodes[n].Size()
      ==> PathMarked(g, d, n, s)
  }

  lemma OwnedIsCrashSafe(g: Geo, d: Disk, owner: Owners)
    requires OwnedBy(g, d, owner)
    ensures CrashSafe(g, d)
  {
    forall n, s: Slot | n in d.inodes && s.Leaf() && At(d, n, s) != 0
      ensures PathMarked(g, d, n, s)
    {
      if s.IndEntry? {
        assert At(d, n, Indirect) != 0;
      }
      if s.SubEntry? {
        assert At(d, n, DoubleIndirect) != 0;
        assert At(d, n, SubTable(s.i)) != 0;
      }
    }
  }

  // ------------------------------------------------------------ arithmetic

  lemma PerBlockBounds(g: Geo)
    requires g.Ok()
    ensures 256 <= g.PerBlock() <= 1024 && 4 * g.PerBlock() == g.blockSize
    ensures 2 <= g.SectorsPerBlock() <= 8
  {
  }

  lemma GroupBounds(g: Geo, b: nat)
    requires g.Ok() && g.InRange(b)
    ensures g.GroupOf(b) < |g.bitmap|
    ensures g.IndexOf(b) < g.perGroup && g.IndexOf(b) / 8 < g.blockSize
    ensures b == g.first + g.GroupOf(b) * g.perGroup + g.IndexOf(b)
  {
    var r, p, n := b - g.first, g.perGroup, g.count - g.first;
    var c := (n + p - 1) / p;
    assert r == r / p * p + r % p;
    assert n + p - 1 == c * p + (n + p - 1) % p;
    if r / p >= c {
      MulMonotone(c, r / p, p);
    }
  }

  /** Logical block numbers and leaves correspond one to one. */
  lemma LeafRoundTrip(g: Geo, lbn: nat)
    requires g.PerBlock() > 0
    ensures Lbn(g, LeafOf(g, lbn)) == lbn
  {
    var per := g.PerBlock();
    if lbn >= NDIR + per {
      var x := lbn - NDIR - per;
      assert x == x / per * per + x % per;
    }
  }

  lemma LbnRoundTrip(g: Geo, s: Slot)
    requires g.PerBlock() > 0 && s.Leaf()
    requires s.Direct? ==> s.i < NDIR
    requires s.IndEntry? ==> s.i < g.PerBlock()
    requires s.SubEntry? ==> s.j < g.PerBlock()
    ensures LeafOf(g, Lbn(g, s)) == s
  {
    if s.SubEntry? {
      DivMod(s.i, s.j, g.PerBlock());
    }
  }

}
