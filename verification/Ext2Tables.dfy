/**
 The blocks an inode owns, grouped by the table that names them. Counting and
 trimming both walk these groups entry by entry.
 */
module Ext2Tables {
  import opened Ext2Layout
  import opened Ext2Disk
  import opened Ext2Attach

  /** The places a walk visits: the direct pointers and the three kinds of table. */
  datatype Table = Directs | Singles | Doubles | Subs(k: nat)

  function SlotIn(t: Table, i: nat): Slot {
    match t
    case Directs => Direct(i)
    case Singles => IndEntry(i)
    case Doubles => SubTable(i)
    case Subs(k) => SubEntry(k, i)
  }

  function Length(g: Geo, t: Table): nat { if t.Directs? then NDIR else g.PerBlock() }

  predicate InTable(s: Slot, t: Table) {
    match t
    case Directs => s.Direct?
    case Singles => s.IndEntry?
    case Doubles => s.SubTable?
    case Subs(k) => s.SubEntry? && s.i == k
  }

  /** The blocks of inode n named by entries lo to hi of table t. */
  ghost function Range(owner: Owners, n: nat, t: Table, lo: nat, hi: nat): set<nat> {
    set b | b in owner && owner[b].0 == n && InTable(owner[b].1, t) && lo <= IndexIn(owner[b].1) < hi
  }

  ghost function Named(b: nat): set<nat> { if b == 0 then {} else {b} }

  lemma RangeEmpty(owner: Owners, n: nat, t: Table, k: nat)
    ensures Range(owner, n, t, k, k) == {}
  {
  }

  /** Entry k contributes its block, if it has one, and nothing else. */
  lemma RangeSplit(g: Geo, d: Disk, owner: Owners, n: nat, t: Table, lo: nat, k: nat, hi: nat)
    requires g.Ok() && OwnedBy(g, d, owner) && lo <= k < hi
    ensures Range(owner, n, t, lo, hi) ==
            Range(owner, n, t, lo, k) + Named(At(d, n, SlotIn(t, k))) + Range(owner, n, t, k + 1, hi)
    ensures At(d, n, SlotIn(t, k)) !in Range(owner, n, t, lo, k)
    ensures At(d, n, SlotIn(t, k)) !in Range(owner, n, t, k + 1, hi)
  {
    hide Marked;
    var w := At(d, n, SlotIn(t, k));
    forall b | b in owner && owner[b].0 == n && InTable(owner[b].1, t) && IndexIn(owner[b].1) == k
      ensures b == w && w != 0
    {
      assert owner[b].1 == SlotIn(t, k);
      NoOwnedZero(g, d, owner);
    }
    if w != 0 {
      assert owner[w] == (n, SlotIn(t, k));
    }
  }

  lemma NoOwnedZero(g: Geo, d: Disk, owner: Owners)
    requires g.Ok() && OwnedBy(g, d, owner)
    ensures 0 !in owner
  {
  }

  /** Entries of a table that is not there name nothing. */
  lemma RangeOfNothing(g: Geo, d: Disk, owner: Owners, n: nat, t: Table, hi: nat)
    requires g.Ok() && OwnedBy(g, d, owner) && !t.Directs? && Holder(d, n, SlotIn(t, 0)) == 0
    ensures Range(owner, n, t, 0, hi) == {}
  {
    hide Marked;
    NoOwnedZero(g, d, owner);
    forall b | b in owner && owner[b].0 == n
      ensures !InTable(owner[b].1, t)
    {
      assert At(d, n, owner[b].1) == b != 0;
    }
  }

  /** The blocks below the double indirect table, up to its k-th sub-table. */
  ghost function DoubleOwned(owner: Owners, n: nat, k: nat): set<nat> {
    set b | b in owner && owner[b].0 == n && (owner[b].1.SubTable? || owner[b].1.SubEntry?) && owner[b].1.i < k
  }

  lemma DoubleStep(g: Geo, d: Disk, owner: Owners, n: nat, k: nat)
    requires Shape(g, d) && OwnedBy(g, d, owner)
    ensures DoubleOwned(owner, n, k + 1) ==
            DoubleOwned(owner, n, k) + Named(At(d, n, SubTable(k))) + Range(owner, n, Subs(k), 0, g.PerBlock())
    ensures |DoubleOwned(owner, n, k + 1)| ==
            |DoubleOwned(owner, n, k)| + |Named(At(d, n, SubTable(k)))| + |Range(owner, n, Subs(k), 0, g.PerBlock())|
  {
    hide Marked;
    NoOwnedZero(g, d, owner);
    var p, q, r := DoubleOwned(owner, n, k), Named(At(d, n, SubTable(k))), Range(owner, n, Subs(k), 0, g.PerBlock());
    EntriesInRange(g, d, owner, n);
    assert p !! q && (p + q) !! r;
    forall b | b in DoubleOwned(owner, n, k + 1)
      ensures b in p + q + r
    {
      if owner[b].1 == SubTable(k) {
        assert At(d, n, SubTable(k)) == b;
      }
    }
    assert DoubleOwned(owner, n, k + 1) == p + q + r;
  }

  /** Only entries inside their table hold anything. */
  lemma EntriesInRange(g: Geo, d: Disk, owner: Owners, n: nat)
    requires Shape(g, d) && OwnedBy(g, d, owner)
    ensures forall b :: b in owner ==> b != 0
    ensures forall b :: b in owner && (owner[b].1.IndEntry? || owner[b].1.SubTable? || owner[b].1.SubEntry?) ==>
                          IndexIn(owner[b].1) < g.PerBlock()
    ensures forall b :: b in owner && owner[b].1.Direct? ==> owner[b].1.i < NDIR
    ensures forall b :: b in owner && owner[b].1.SubEntry? ==> owner[b].1.i < g.PerBlock()
  {
    hide Marked;
    NoOwnedZero(g, d, owner);
    PerBlockBounds(g);
    forall b | b in owner
      ensures owner[b].1.Direct? ==> owner[b].1.i < NDIR
      ensures owner[b].1.IndEntry? || owner[b].1.SubTable? || owner[b].1.SubEntry? ==> IndexIn(owner[b].1) < g.PerBlock()
      ensures owner[b].1.SubEntry? ==> owner[b].1.i < g.PerBlock()
    {
      assert At(d, owner[b].0, owner[b].1) == b != 0;
    }
  }

  ghost function NearOwned(owner: Owners, n: nat): set<nat> {
    set b | b in owner && owner[b].0 == n && (owner[b].1.Direct? || owner[b].1.Indirect? || owner[b].1.IndEntry?)
  }

  ghost function FarOwned(owner: Owners, n: nat): set<nat> {
    set b | b in owner && owner[b].0 == n && !(owner[b].1.Direct? || owner[b].1.Indirect? || owner[b].1.IndEntry?)
  }

  lemma NearByTables(g: Geo, d: Disk, owner: Owners, n: nat)
    requires Shape(g, d) && OwnedBy(g, d, owner)
    ensures |NearOwned(owner, n)| ==
            |Range(owner, n, Directs, 0, NDIR)| +
            |Named(At(d, n, Indirect))| + |Range(owner, n, Singles, 0, g.PerBlock())|
  {
    hide Marked, At, Shape;
    EntriesInRange(g, d, owner, n);
    var a, b, c := Range(owner, n, Directs, 0, NDIR), Named(At(d, n, Indirect)), Range(owner, n, Singles, 0, g.PerBlock());
    assert a !! b && (a + b) !! c;
    assert NearOwned(owner, n) == a + b + c;
  }

  lemma FarByTables(g: Geo, d: Disk, owner: Owners, n: nat)
    requires Shape(g, d) && OwnedBy(g, d, owner)
    ensures |FarOwned(owner, n)| == |Named(At(d, n, DoubleIndirect))| + |DoubleOwned(owner, n, g.PerBlock())|
  {
    hide Marked, At, Shape;
    EntriesInRange(g, d, owner, n);
    var a, b := Named(At(d, n, DoubleIndirect)), DoubleOwned(owner, n, g.PerBlock());
    assert a !! b;
    assert FarOwned(owner, n) == a + b;
  }

  /** An inode's blocks are those of its tables and the tables themselves. */
  lemma OwnedByTables(g: Geo, d: Disk, owner: Owners, n: nat)
    requires Shape(g, d) && OwnedBy(g, d, owner)
    ensures |OwnedOf(owner, n)| ==
            |Range(owner, n, Directs, 0, NDIR)| +
            |Named(At(d, n, Indirect))| + |Range(owner, n, Singles, 0, g.PerBlock())| +
            |Named(At(d, n, DoubleIndirect))| + |DoubleOwned(owner, n, g.PerBlock())|
  {
    hide Marked, At, Range, DoubleOwned, Shape, OwnedBy;
    NearByTables(g, d, owner, n);
    FarByTables(g, d, owner, n);
    assert OwnedOf(owner, n) == NearOwned(owner, n) + FarOwned(owner, n);
  }

  lemma TableEntry(g: Geo, d: Disk, owner: Owners, n: nat, t: Table, i: nat)
    requires Sound(g, d, owner) && !t.Directs? && i < g.PerBlock() && Holder(d, n, SlotIn(t, 0)) != 0
    ensures Holder(d, n, SlotIn(t, 0)) < |d.blocks| && 4 * i + 4 <= |d.blocks[Holder(d, n, SlotIn(t, 0))]|
    ensures At(d, n, SlotIn(t, i)) == Word(d.blocks[Holder(d, n, SlotIn(t, 0))], i)
  {
    hide Marked, Accounting;
    PerBlockBounds(g);
    HolderIsOwned(g, d, owner, n, SlotIn(t, i));
  }

  lemma DoubleNone(owner: Owners, n: nat)
    ensures DoubleOwned(owner, n, 0) == {}
  {
  }

  lemma DoubleOfNothing(g: Geo, d: Disk, owner: Owners, n: nat)
    requires Shape(g, d) && OwnedBy(g, d, owner) && At(d, n, DoubleIndirect) == 0
    ensures DoubleOwned(owner, n, g.PerBlock()) == {}
  {
    hide Marked;
    NoOwnedZero(g, d, owner);
    forall b | b in owner && owner[b].0 == n
      ensures !owner[b].1.SubTable? && !owner[b].1.SubEntry?
    {
      assert At(d, n, owner[b].1) == b != 0;
    }
  }
}
