/**
 Hanging a fresh block into the block map: the block is marked used, zeroed,
 and only then named by a pointer. Each image on the way is sound, and the map
 grows at that one slot.
 */
module Ext2Attach {
  import opened Common
  import opened Ext2Layout
  import opened Ext2Disk
  import opened Ext2Bitmap

  // ------------------------------------------------------------- frames

  /** e has the same inode pointers as d and agrees with it on every owned table. */
  ghost predicate SameTables(d: Disk, e: Disk, owner: Owners) {
    && |e.blocks| == |d.blocks|
    && e.inodes.Keys == d.inodes.Keys
    && (forall n :: n in d.inodes ==> e.inodes[n].block == d.inodes[n].block)
    && (forall c :: c in owner && c < |d.blocks| && !owner[c].1.Leaf() ==> e.blocks[c] == d.blocks[c])
  }

  lemma AtFrame(g: Geo, d: Disk, e: Disk, owner: Owners, n: nat, s: Slot)
    requires OwnedBy(g, d, owner) && SameTables(d, e, owner)
    ensures At(e, n, s) == At(d, n, s)
  {
    if s.IndEntry? {
      assert At(d, n, Indirect) != 0 ==> At(d, n, Indirect) in owner;
    } else if s.SubTable? {
      assert At(d, n, DoubleIndirect) != 0 ==> At(d, n, DoubleIndirect) in owner;
    } else if s.SubEntry? {
      assert At(d, n, DoubleIndirect) != 0 ==> At(d, n, DoubleIndirect) in owner;
      assert At(d, n, SubTable(s.i)) != 0 ==> At(d, n, SubTable(s.i)) in owner;
    }
  }

  /** Ownership survives when tables stay and no owned block loses its mark. */
  lemma OwnedFrame(g: Geo, d: Disk, e: Disk, owner: Owners)
    requires OwnedBy(g, d, owner) && SameTables(d, e, owner)
    requires forall b :: b in owner ==> Marked(g, e, b)
    ensures OwnedBy(g, e, owner)
    ensures forall n: nat, s :: At(e, n, s) == At(d, n, s)
  {
    forall n: nat, s
      ensures At(e, n, s) == At(d, n, s)
    {
      AtFrame(g, d, e, owner, n, s);
    }
  }

  lemma BitmapsAreNotOwned(g: Geo, d: Disk, owner: Owners, b: nat)
    requires g.Ok() && OwnedBy(g, d, owner) && g.InRange(b)
    ensures g.GroupOf(b) < |g.bitmap|
    ensures g.bitmap[g.GroupOf(b)] !in owner && g.bitmap[g.GroupOf(b)] in g.reserved
  {
    GroupBounds(g, b);
  }

  /** A free block has no owner and is not metadata. */
  lemma FreeIsUnowned(g: Geo, d: Disk, owner: Owners, b: nat)
    requires Sound(g, d, owner) && g.InRange(b) && !Marked(g, d, b)
    ensures b !in owner && b !in g.reserved && b != 0 && b < |d.blocks|
  {
  }

  lemma TakenSound(g: Geo, d: Disk, owner: Owners, b: nat)
    requires Sound(g, d, owner) && g.InRange(b) && !Marked(g, d, b)
    ensures d.sbFree > 0
    ensures forall i :: 0 <= i < |d.gdFree| ==> i == g.GroupOf(b) ==> d.gdFree[i] > 0
    ensures Sound(g, Taken(g, d, b), owner) && Marked(g, Taken(g, d, b), b)
    ensures OwnedBy(g, WithMark(g, d, b, true), owner)
    ensures forall n: nat, s :: At(Taken(g, d, b), n, s) == At(d, n, s)
  {
    hide Marked, At, FreeSet, FreeIn;
    TakenAccounting(g, d, b);
    BitmapsAreNotOwned(g, d, owner, b);
    var w, e := WithMark(g, d, b, true), Taken(g, d, b);
    forall c: nat
      ensures Marked(g, e, c) == Marked(g, w, c) == (c == b || Marked(g, d, c))
    {
      MarkFrame(g, d, b, true, c);
      MarkedIgnoresCounters(g, w, e, c);
    }
    OwnedFrame(g, d, w, owner);
    OwnedFrame(g, d, e, owner);
  }

  function WithBlock(d: Disk, c: nat, data: Block): Disk
    requires c < |d.blocks|
  {
    d.(blocks := d.blocks[c := data])
  }

  lemma MarkedWithBlock(g: Geo, d: Disk, c: nat, data: Block, b: nat)
    requires g.Ok() && c < |d.blocks| && c !in g.reserved
    ensures Marked(g, WithBlock(d, c, data), b) == Marked(g, d, b)
  {
  }

  lemma AccountingWithBlock(g: Geo, d: Disk, c: nat, data: Block)
    requires Shape(g, d) && Accounting(g, d) && c < |d.blocks| && c !in g.reserved
    ensures Accounting(g, WithBlock(d, c, data))
  {
    var e := WithBlock(d, c, data);
    forall b: nat
      ensures Marked(g, e, b) == Marked(g, d, b)
    {
      MarkedWithBlock(g, d, c, data, b);
    }
    assert FreeSet(g, e) == FreeSet(g, d);
    forall i | 0 <= i < |g.bitmap|
      ensures FreeIn(g, e, i) == FreeIn(g, d, i)
    {
    }
  }

  /** Marks and counters do not depend on the inodes. */
  lemma AccountingIgnoresInodes(g: Geo, d: Disk, e: Disk)
    requires Accounting(g, d) && e.blocks == d.blocks && e.sbFree == d.sbFree && e.gdFree == d.gdFree
    ensures Accounting(g, e)
    ensures forall c: nat :: Marked(g, e, c) == Marked(g, d, c)
  {
    assert FreeSet(g, e) == FreeSet(g, d);
    forall i | 0 <= i < |g.bitmap|
      ensures FreeIn(g, e, i) == FreeIn(g, d, i)
    {
    }
  }

  /** Writing a block that holds no table and no metadata keeps the image sound. */
  lemma DataWriteSound(g: Geo, d: Disk, owner: Owners, c: nat, data: Block)
    requires Sound(g, d, owner) && c < |d.blocks| && c !in g.reserved && |data| == g.blockSize
    requires c in owner ==> owner[c].1.Leaf()
    ensures Sound(g, WithBlock(d, c, data), owner)
    ensures forall n: nat, s :: At(WithBlock(d, c, data), n, s) == At(d, n, s)
    ensures forall b: nat :: Marked(g, WithBlock(d, c, data), b) == Marked(g, d, b)
  {
    hide Marked, At, Accounting;
    forall b: nat
      ensures Marked(g, WithBlock(d, c, data), b) == Marked(g, d, b)
    {
      MarkedWithBlock(g, d, c, data, b);
    }
    AccountingWithBlock(g, d, c, data);
    OwnedFrame(g, d, WithBlock(d, c, data), owner);
  }

  // ------------------------------------------------------------ pointers

  /** Slot s of inode n exists: what holds it is there and the index is in range. */
  predicate Present(g: Geo, d: Disk, n: nat, s: Slot) {
    n in d.inodes && d.inodes[n].Ok() &&
    match s
    case Direct(i) => i < NDIR
    case Indirect => true
    case DoubleIndirect => true
    case IndEntry(i) => At(d, n, Indirect) != 0 && i < g.PerBlock()
    case SubTable(i) => At(d, n, DoubleIndirect) != 0 && i < g.PerBlock()
    case SubEntry(i, j) => At(d, n, SubTable(i)) != 0 && j < g.PerBlock()
  }

  /** The table block that holds slot s, zero for the slots in the inode itself. */
  function Holder(d: Disk, n: nat, s: Slot): nat {
    match s
    case IndEntry(_) => At(d, n, Indirect)
    case SubTable(_) => At(d, n, DoubleIndirect)
    case SubEntry(i, _) => At(d, n, SubTable(i))
    case _ => 0
  }

  function IndexIn(s: Slot): nat {
    match s
    case Direct(i) => i
    case Indirect => 12
    case DoubleIndirect => 13
    case IndEntry(i) => i
    case SubTable(i) => i
    case SubEntry(_, j) => j
  }

  predicate InInode(s: Slot) { s.Direct? || s.Indirect? || s.DoubleIndirect? }

  /** The image after writing block number b into slot s of inode n. */
  function Point(g: Geo, d: Disk, n: nat, s: Slot, b: nat): Disk
    requires Shape(g, d) && Present(g, d, n, s) && b < U32 && Holder(d, n, s) < |d.blocks|
  {
    if InInode(s) then
      d.(inodes := d.inodes[n := d.inodes[n].(block := d.inodes[n].block[IndexIn(s) := b])])
    else
      PerBlockBounds(g);
      var h := Holder(d, n, s);
      WithBlock(d, h, SetWord(d.blocks[h], IndexIn(s), b))
  }

  lemma ZeroEntry(g: Geo, d: Disk, b: nat, i: nat)
    requires b < |d.blocks| && d.blocks[b] == Zeros(g.blockSize)
    ensures Entry(d, b, i) == 0
  {
    if 4 * i + 4 <= g.blockSize {
      ZeroWord(g.blockSize, i);
    }
  }

  lemma PointInInode(g: Geo, d: Disk, n: nat, s: Slot, b: nat, m: nat, t: Slot)
    requires Shape(g, d) && Present(g, d, n, s) && b < U32 && InInode(s) && At(d, n, s) == 0
    requires b < |d.blocks| && d.blocks[b] == Zeros(g.blockSize)
    ensures At(Point(g, d, n, s, b), m, t) == if m == n && t == s then b else At(d, m, t)
  {
    if m == n && (t.IndEntry? || t.SubTable? || t.SubEntry?) {
      ZeroEntry(g, d, b, t.i);
    }
  }

  lemma HolderIsOwned(g: Geo, d: Disk, owner: Owners, n: nat, s: Slot)
    requires Sound(g, d, owner) && Present(g, d, n, s) && !InInode(s)
    ensures Holder(d, n, s) in owner && owner[Holder(d, n, s)].0 == n && !owner[Holder(d, n, s)].1.Leaf()
    ensures owner[Holder(d, n, s)].1 ==
            match s case IndEntry(_) => Indirect case SubTable(_) => DoubleIndirect case _ => SubTable(s.i)
    ensures 0 < Holder(d, n, s) < |d.blocks| && Holder(d, n, s) !in g.reserved
  {
    hide Marked, Accounting, Entry;
  }

  lemma PointInIndirect(g: Geo, d: Disk, owner: Owners, n: nat, s: Slot, b: nat, m: nat, t: Slot)
    requires Sound(g, d, owner) && Present(g, d, n, s) && b < U32 && s.IndEntry?
    ensures Holder(d, n, s) < |d.blocks|
    ensures At(Point(g, d, n, s, b), m, t) == if m == n && t == s then b else At(d, m, t)
  {
    hide Marked, Accounting, Word, SetWord;
    HolderIsOwned(g, d, owner, n, s);
    PerBlockBounds(g);
    var h := Holder(d, n, s);
    if At(d, m, Indirect) == h && t.IndEntry? && 4 * t.i + 4 <= g.blockSize {
      SetWordFrame(d.blocks[h], s.i, b, t.i);
    }
    assert At(d, m, DoubleIndirect) != h;
    if t.SubEntry? {
      assert At(d, m, SubTable(t.i)) != h;
    }
  }

  lemma PointInSubTable(g: Geo, d: Disk, owner: Owners, n: nat, s: Slot, b: nat, m: nat, t: Slot)
    requires Sound(g, d, owner) && Present(g, d, n, s) && b < U32 && s.SubEntry?
    ensures Holder(d, n, s) < |d.blocks|
    ensures At(Point(g, d, n, s, b), m, t) == if m == n && t == s then b else At(d, m, t)
  {
    hide Marked, Accounting, Word, SetWord;
    HolderIsOwned(g, d, owner, n, s);
    PerBlockBounds(g);
    var h := Holder(d, n, s);
    assert At(d, m, Indirect) != h && At(d, m, DoubleIndirect) != h;
    if t.SubEntry? && At(d, m, SubTable(t.i)) == h && 4 * t.j + 4 <= g.blockSize {
      SetWordFrame(d.blocks[h], s.j, b, t.j);
    }
  }

  lemma PointInDouble(g: Geo, d: Disk, owner: Owners, n: nat, s: Slot, b: nat, m: nat, t: Slot)
    requires Sound(g, d, owner) && Present(g, d, n, s) && b < U32 && s.SubTable? && At(d, n, s) == 0
    requires b < |d.blocks| && d.blocks[b] == Zeros(g.blockSize) && b !in owner
    ensures Holder(d, n, s) < |d.blocks|
    ensures At(Point(g, d, n, s, b), m, t) == if m == n && t == s then b else At(d, m, t)
  {
    hide Marked, Accounting, Word, SetWord;
    HolderIsOwned(g, d, owner, n, s);
    PerBlockBounds(g);
    var h := Holder(d, n, s);
    var e := Point(g, d, n, s, b);
    assert At(d, m, Indirect) != h;
    if t.SubTable? || t.SubEntry? {
      assert At(d, m, SubTable(t.i)) != h;
      if At(d, m, DoubleIndirect) == h && 4 * t.i + 4 <= g.blockSize {
        SetWordFrame(d.blocks[h], s.i, b, t.i);
      }
      ZeroEntry(g, e, b, if t.SubEntry? then t.j else 0);
    }
  }

  /** A fresh zeroed block b is ready to be hung into slot s. */
  ghost predicate Ready(g: Geo, d: Disk, owner: Owners, n: nat, s: Slot, b: nat) {
    && Sound(g, d, owner) && Present(g, d, n, s) && At(d, n, s) == 0
    && g.InRange(b) && Marked(g, d, b) && b !in owner && b !in g.reserved && b != 0
    && d.blocks[b] == Zeros(g.blockSize)
  }

  lemma PointFrame(g: Geo, d: Disk, owner: Owners, n: nat, s: Slot, b: nat, m: nat, t: Slot)
    requires Ready(g, d, owner, n, s, b)
    ensures Holder(d, n, s) < |d.blocks|
    ensures At(Point(g, d, n, s, b), m, t) == if m == n && t == s then b else At(d, m, t)
  {
    match s
    case IndEntry(_) => PointInIndirect(g, d, owner, n, s, b, m, t);
    case SubTable(_) => PointInDouble(g, d, owner, n, s, b, m, t);
    case SubEntry(_, _) => PointInSubTable(g, d, owner, n, s, b, m, t);
    case _ => PointInInode(g, d, n, s, b, m, t);
  }

  lemma PointShape(g: Geo, d: Disk, owner: Owners, n: nat, s: Slot, b: nat)
    requires Ready(g, d, owner, n, s, b)
    ensures Holder(d, n, s) < |d.blocks|
    ensures Shape(g, Point(g, d, n, s, b))
    ensures Accounting(g, Point(g, d, n, s, b))
    ensures forall c: nat :: Marked(g, Point(g, d, n, s, b), c) == Marked(g, d, c)
  {
    hide Marked, Word, SetWord, At, OwnedBy, Accounting;
    if InInode(s) {
      AccountingIgnoresInodes(g, d, Point(g, d, n, s, b));
    } else {
      HolderIsOwned(g, d, owner, n, s);
      PerBlockBounds(g);
      var h := Holder(d, n, s);
      var data := SetWord(d.blocks[h], IndexIn(s), b);
      AccountingWithBlock(g, d, h, data);
      forall c: nat
        ensures Marked(g, WithBlock(d, h, data), c) == Marked(g, d, c)
      {
        MarkedWithBlock(g, d, h, data, c);
      }
    }
  }

  lemma PointSound(g: Geo, d: Disk, owner: Owners, n: nat, s: Slot, b: nat)
    requires Ready(g, d, owner, n, s, b)
    ensures Holder(d, n, s) < |d.blocks|
    ensures Sound(g, Point(g, d, n, s, b), owner[b := (n, s)])
    ensures forall m: nat, t ::
              At(Point(g, d, n, s, b), m, t) == if m == n && t == s then b else At(d, m, t)
  {
    hide Marked, Accounting, At, Point;
    PointShape(g, d, owner, n, s, b);
    forall m: nat, t
      ensures At(Point(g, d, n, s, b), m, t) == if m == n && t == s then b else At(d, m, t)
    {
      PointFrame(g, d, owner, n, s, b, m, t);
    }
  }
}
