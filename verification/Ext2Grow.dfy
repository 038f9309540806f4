/**
 Growing an inode's block map by one block, end to end: allocation, zeroing,
 pointer and sector count. The whole file system stays well formed, and every
 other slot of every inode keeps its block and its contents.
 */
module Ext2Grow {
  import opened Common
  import opened Ext2Layout
  import opened Ext2Disk
  import opened Ext2Bitmap
  import opened Ext2Attach

  /** t is the leaf or one of the tables on the way to it. */
  predicate OnPath(t: Slot, leaf: Slot) {
    || t == leaf
    || (leaf.IndEntry? && t == Indirect)
    || (leaf.SubEntry? && (t == DoubleIndirect || t == SubTable(leaf.i)))
  }

  /** The inode fields that growing leaves alone. */
  predicate SameIdentity(a: Inode, b: Inode) {
    a.regular == b.regular && a.sizeLo == b.sizeLo && a.sizeHigh == b.sizeHigh
  }

  /**
   From d to e only empty slots of inode n on the way to `leaf` were filled,
   and everything still reads the same.
   */
  ghost predicate Grew(g: Geo, d: Disk, e: Disk, n: nat, leaf: Slot) {
    && e.inodes.Keys == d.inodes.Keys
    && (forall m :: m in d.inodes && m != n ==> e.inodes[m] == d.inodes[m])
    && (n in d.inodes ==> SameIdentity(e.inodes[n], d.inodes[n]))
    && (forall m: nat, t :: At(e, m, t) == At(d, m, t) || (At(d, m, t) == 0 && m == n && OnPath(t, leaf)))
    && (forall m: nat, t: Slot :: t.Leaf() ==> Content(g, e, m, t) == Content(g, d, m, t))
  }

  lemma GrewTransitive(g: Geo, d: Disk, e: Disk, f: Disk, n: nat, leaf: Slot)
    requires Grew(g, d, e, n, leaf) && Grew(g, e, f, n, leaf)
    ensures Grew(g, d, f, n, leaf)
  {
    hide At, Content;
  }

  // --------------------------------------------------------- the fresh block

  function Fresh(g: Geo, d: Disk, b: nat): Disk
    requires Shape(g, d) && g.InRange(b) && d.sbFree > 0
    requires forall i :: 0 <= i < |d.gdFree| ==> i == g.GroupOf(b) ==> d.gdFree[i] > 0
  {
    WithBlock(Taken(g, d, b), b, Zeros(g.blockSize))
  }

  lemma FreshReady(g: Geo, d: Disk, owner: Owners, n: nat, s: Slot, b: nat)
    requires Sound(g, d, owner) && Present(g, d, n, s) && At(d, n, s) == 0
    requires g.InRange(b) && !Marked(g, d, b)
    ensures d.sbFree > 0
    ensures forall i :: 0 <= i < |d.gdFree| ==> i == g.GroupOf(b) ==> d.gdFree[i] > 0
    ensures Ready(g, Fresh(g, d, b), owner, n, s, b)
    ensures forall m: nat, t :: At(Fresh(g, d, b), m, t) == At(d, m, t)
  {
    hide Marked, At, Accounting, OwnedBy, SetBit;
    FreeIsUnowned(g, d, owner, b);
    TakenSound(g, d, owner, b);
    DataWriteSound(g, Taken(g, d, b), owner, b, Zeros(g.blockSize));
  }

  /** Neither marking, zeroing nor pointing touches an owned data block. */
  lemma AttachKeepsData(g: Geo, d: Disk, owner: Owners, n: nat, s: Slot, b: nat, c: nat)
    requires Sound(g, d, owner) && Present(g, d, n, s) && At(d, n, s) == 0
    requires g.InRange(b) && !Marked(g, d, b)
    requires c in owner && owner[c].1.Leaf()
    ensures d.sbFree > 0
    ensures forall i :: 0 <= i < |d.gdFree| ==> i == g.GroupOf(b) ==> d.gdFree[i] > 0
    ensures Ready(g, Fresh(g, d, b), owner, n, s, b) && Holder(Fresh(g, d, b), n, s) < g.count
    ensures c < |d.blocks| && Point(g, Fresh(g, d, b), n, s, b).blocks[c] == d.blocks[c]
  {
    hide Marked, At, Accounting, SetWord;
    FreshReady(g, d, owner, n, s, b);
    FreeIsUnowned(g, d, owner, b);
    BitmapsAreNotOwned(g, d, owner, b);
    PointShape(g, Fresh(g, d, b), owner, n, s, b);
    if !InInode(s) {
      HolderIsOwned(g, Fresh(g, d, b), owner, n, s);
    }
  }

  function WithSectors(d: Disk, n: nat, v: nat): Disk
    requires n in d.inodes
  {
    d.(inodes := d.inodes[n := d.inodes[n].(sectors := v)])
  }

  lemma SectorsSound(g: Geo, d: Disk, owner: Owners, n: nat, v: nat)
    requires Sound(g, d, owner) && n in d.inodes && v < U32
    ensures Sound(g, WithSectors(d, n, v), owner)
    ensures forall m: nat, t :: At(WithSectors(d, n, v), m, t) == At(d, m, t)
  {
    hide Marked, At, Accounting;
    AccountingIgnoresInodes(g, d, WithSectors(d, n, v));
    OwnedFrame(g, d, WithSectors(d, n, v), owner);
  }

  /** A free block b may be hung into the empty slot s. */
  ghost predicate CanAttach(g: Geo, d: Disk, owner: Owners, n: nat, s: Slot, b: nat) {
    && Sound(g, d, owner) && Present(g, d, n, s) && At(d, n, s) == 0
    && g.InRange(b) && !Marked(g, d, b)
    && d.sbFree > 0 && (forall i :: 0 <= i < |d.gdFree| ==> i == g.GroupOf(b) ==> d.gdFree[i] > 0)
    && Ready(g, Fresh(g, d, b), owner, n, s, b) && Holder(Fresh(g, d, b), n, s) < g.count
  }

  lemma FreeCanAttach(g: Geo, d: Disk, owner: Owners, n: nat, s: Slot, b: nat)
    requires Sound(g, d, owner) && Present(g, d, n, s) && At(d, n, s) == 0
    requires g.InRange(b) && !Marked(g, d, b)
    ensures CanAttach(g, d, owner, n, s, b)
  {
    hide Marked, At, Accounting, OwnedBy;
    FreshReady(g, d, owner, n, s, b);
    PointShape(g, Fresh(g, d, b), owner, n, s, b);
  }

  /** The image once the pointer is on disk. */
  ghost function Pointed(g: Geo, d: Disk, owner: Owners, n: nat, s: Slot, b: nat): Disk
    requires CanAttach(g, d, owner, n, s, b)
  {
    Point(g, Fresh(g, d, b), n, s, b)
  }

  /** The image once the sector count is on disk as well. */
  ghost function Attached(g: Geo, d: Disk, owner: Owners, n: nat, s: Slot, b: nat): Disk
    requires CanAttach(g, d, owner, n, s, b)
  {
    WithSectors(Pointed(g, d, owner, n, s, b), n, (d.inodes[n].sectors + g.SectorsPerBlock()) % U32)
  }

  lemma AttachedSound(g: Geo, d: Disk, owner: Owners, n: nat, s: Slot, b: nat)
    requires CanAttach(g, d, owner, n, s, b)
    ensures Sound(g, Pointed(g, d, owner, n, s, b), owner[b := (n, s)])
    ensures Sound(g, Attached(g, d, owner, n, s, b), owner[b := (n, s)])
    ensures forall m: nat, t ::
              At(Attached(g, d, owner, n, s, b), m, t) == if m == n && t == s then b else At(d, m, t)
  {
    hide Marked, At, Accounting, OwnedBy, Shape, Taken;
    FreshReady(g, d, owner, n, s, b);
    PointSound(g, Fresh(g, d, b), owner, n, s, b);
    SectorsSound(g, Pointed(g, d, owner, n, s, b), owner[b := (n, s)], n,
                 (d.inodes[n].sectors + g.SectorsPerBlock()) % U32);
  }

  lemma SectorStep(k: nat, spb: nat)
    ensures (k + 1) * spb % U32 == (k * spb % U32 + spb) % U32
  {
    assert (k + 1) * spb == k * spb + spb;
  }

  lemma AttachedInodes(g: Geo, d: Disk, owner: Owners, n: nat, s: Slot, b: nat)
    requires CanAttach(g, d, owner, n, s, b)
    ensures n in d.inodes && Attached(g, d, owner, n, s, b).inodes.Keys == d.inodes.Keys
    ensures Attached(g, d, owner, n, s, b).inodes[n].sectors == (d.inodes[n].sectors + g.SectorsPerBlock()) % U32
    ensures forall m :: m in d.inodes && m != n ==> Attached(g, d, owner, n, s, b).inodes[m] == d.inodes[m]
  {
    hide Marked, At, Accounting, OwnedBy, Shape, Zeros, Ready, Holder, FreeIn, FreeSet;
  }

  lemma NotOwned(g: Geo, d: Disk, owner: Owners, n: nat, s: Slot, b: nat)
    requires CanAttach(g, d, owner, n, s, b)
    ensures b !in owner
  {
    hide At, Accounting, Shape, Zeros, Ready, Holder, FreeIn, FreeSet, Taken, Present, Marked;
  }

  lemma AttachedSectors(g: Geo, d: Disk, owner: Owners, n: nat, s: Slot, b: nat, m: nat)
    requires CanAttach(g, d, owner, n, s, b) && SectorsOk(g, d, owner, m)
    ensures SectorsOk(g, Attached(g, d, owner, n, s, b), owner[b := (n, s)], m)
  {
    hide Marked, At, Accounting, OwnedBy, Shape, Taken, Zeros, Attached, Ready, Present, Holder, FreeIn, FreeSet;
    var owner' := owner[b := (n, s)];
    AttachedInodes(g, d, owner, n, s, b);
    NotOwned(g, d, owner, n, s, b);
    if m == n {
      assert OwnedOf(owner', n) == OwnedOf(owner, n) + {b};
      SectorStep(|OwnedOf(owner, n)|, g.SectorsPerBlock());
    } else {
      assert OwnedOf(owner', m) == OwnedOf(owner, m);
    }
  }

  lemma AttachedContent(g: Geo, d: Disk, owner: Owners, n: nat, s: Slot, b: nat, m: nat, t: Slot)
    requires CanAttach(g, d, owner, n, s, b) && t.Leaf()
    ensures Content(g, Attached(g, d, owner, n, s, b), m, t) == Content(g, d, m, t)
  {
    hide Marked, At, Accounting, Present, Taken, Zeros;
    AttachedSound(g, d, owner, n, s, b);
    var e := Pointed(g, d, owner, n, s, b);
    var c := At(d, m, t);
    if c != 0 {
      AttachKeepsData(g, d, owner, n, s, b, c);
    } else if m == n && t == s {
      PointKeepsFresh(g, d, owner, n, s, b);
    }
  }

  lemma PointKeepsFresh(g: Geo, d: Disk, owner: Owners, n: nat, s: Slot, b: nat)
    requires CanAttach(g, d, owner, n, s, b)
    ensures b < |Pointed(g, d, owner, n, s, b).blocks|
    ensures Pointed(g, d, owner, n, s, b).blocks[b] == Zeros(g.blockSize)
  {
    hide Marked, At, Accounting, Taken, SetWord, Zeros;
    if !InInode(s) {
      HolderIsOwned(g, Fresh(g, d, b), owner, n, s);
    }
  }

  /** One attach keeps everything well formed and grows the map at that slot alone. */
  lemma AttachTheorem(g: Geo, d: Disk, owner: Owners, n: nat, s: Slot, b: nat, leaf: Slot)
    requires WellFormed(g, d, owner) && CanAttach(g, d, owner, n, s, b) && OnPath(s, leaf)
    ensures WellFormed(g, Attached(g, d, owner, n, s, b), owner[b := (n, s)])
    ensures Grew(g, d, Attached(g, d, owner, n, s, b), n, leaf)
    ensures At(Attached(g, d, owner, n, s, b), n, s) == b
  {
    hide Marked, At, Accounting, OwnedBy, Shape, Content, SectorsOk, SetBit, Ready;
    var e := Attached(g, d, owner, n, s, b);
    AttachedSound(g, d, owner, n, s, b);
    forall m | m in e.inodes
      ensures SectorsOk(g, e, owner[b := (n, s)], m)
    {
      AttachedSectors(g, d, owner, n, s, b, m);
    }
    forall m: nat, t: Slot | t.Leaf()
      ensures Content(g, e, m, t) == Content(g, d, m, t)
    {
      AttachedContent(g, d, owner, n, s, b, m, t);
    }
  }

  /** What the driver writes to fill an entry of a table. */
  lemma TableWritten(g: Geo, d: Disk, owner: Owners, n: nat, s: Slot, b: nat)
    requires CanAttach(g, d, owner, n, s, b) && !InInode(s)
    ensures 0 < Holder(d, n, s) < |d.blocks| && |Fresh(g, d, b).blocks| == |d.blocks| && b < U32
    ensures Holder(Fresh(g, d, b), n, s) == Holder(d, n, s) && 4 * IndexIn(s) + 4 <= |d.blocks[Holder(d, n, s)]|
    ensures Pointed(g, d, owner, n, s, b) ==
            WithBlock(Fresh(g, d, b), Holder(d, n, s), SetWord(d.blocks[Holder(d, n, s)], IndexIn(s), b))
    ensures n in d.inodes && Pointed(g, d, owner, n, s, b).inodes == d.inodes
    ensures Attached(g, d, owner, n, s, b) ==
            Pointed(g, d, owner, n, s, b).(inodes := d.inodes[n := d.inodes[n].(sectors := (d.inodes[n].sectors + g.SectorsPerBlock()) % U32)])
  {
    hide Marked, At, Accounting, SetBit, Zeros, OwnedBy, Sound, Ready, SetWord;
    TableSurvivesFresh(g, d, owner, n, s, b);
  }

  /** The table that is about to name b is not touched while b is made ready. */
  lemma TableSurvivesFresh(g: Geo, d: Disk, owner: Owners, n: nat, s: Slot, b: nat)
    requires CanAttach(g, d, owner, n, s, b) && !InInode(s)
    ensures Holder(Fresh(g, d, b), n, s) == Holder(d, n, s)
    ensures 0 < Holder(d, n, s) < |d.blocks|
    ensures Fresh(g, d, b).blocks[Holder(d, n, s)] == d.blocks[Holder(d, n, s)]
    ensures |Fresh(g, d, b).blocks| == |d.blocks|
    ensures 4 * IndexIn(s) + 4 <= |d.blocks[Holder(d, n, s)]| && b < U32
  {
    hide Marked, At, Accounting, SetBit, Zeros;
    FreshReady(g, d, owner, n, s, b);
    FreeIsUnowned(g, d, owner, b);
    BitmapsAreNotOwned(g, d, owner, b);
    HolderIsOwned(g, d, owner, n, s);
    PerBlockBounds(g);
  }

  /** The number a table entry holds is the one in the table's block. */
  lemma EntryOfHolder(g: Geo, d: Disk, owner: Owners, n: nat, s: Slot)
    requires Sound(g, d, owner) && Present(g, d, n, s) && !InInode(s)
    ensures 0 < Holder(d, n, s) < |d.blocks| && 4 * IndexIn(s) + 4 <= |d.blocks[Holder(d, n, s)]|
    ensures At(d, n, s) == Word(d.blocks[Holder(d, n, s)], IndexIn(s))
  {
    hide Marked, Accounting;
    HolderIsOwned(g, d, owner, n, s);
    PerBlockBounds(g);
  }

  // -------------------------------------------------------------- the marks

  /** Blocks marked used that no slot names are the same before and after. */
  ghost predicate SameStrays(g: Geo, d: Disk, owner: Owners, e: Disk, owner': Owners) {
    forall b: nat :: Marked(g, e, b) && b !in owner' <==> Marked(g, d, b) && b !in owner
  }

  lemma SameStraysTransitive(g: Geo, d: Disk, o: Owners, e: Disk, o': Owners, f: Disk, o'': Owners)
    requires SameStrays(g, d, o, e, o') && SameStrays(g, e, o', f, o'')
    ensures SameStrays(g, d, o, f, o'')
  {
    hide Marked;
  }

  lemma AttachedMarks(g: Geo, d: Disk, owner: Owners, n: nat, s: Slot, b: nat)
    requires CanAttach(g, d, owner, n, s, b)
    ensures SameStrays(g, d, owner, Attached(g, d, owner, n, s, b), owner[b := (n, s)])
  {
    hide Marked, At, Accounting, OwnedBy, SetBit;
    var w, p, e := WithMark(g, d, b, true), Pointed(g, d, owner, n, s, b), Attached(g, d, owner, n, s, b);
    FreeIsUnowned(g, d, owner, b);
    PointShape(g, Fresh(g, d, b), owner, n, s, b);
    forall c: nat
      ensures Marked(g, e, c) == (c == b || Marked(g, d, c))
    {
      MarkFrame(g, d, b, true, c);
      MarkedIgnoresCounters(g, w, Taken(g, d, b), c);
      MarkedWithBlock(g, Taken(g, d, b), b, Zeros(g.blockSize), c);
      MarkedIgnoresCounters(g, p, e, c);
    }
  }

  lemma GrewRefl(g: Geo, d: Disk, owner: Owners, n: nat, leaf: Slot)
    ensures Grew(g, d, d, n, leaf) && SameStrays(g, d, owner, d, owner)
  {
  }
}
