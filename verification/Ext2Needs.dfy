/**
 How many blocks a growth takes: one for every slot on the way to its logical
 blocks that is empty before. From that follows exactly when it succeeds.
 */
module Ext2Needs {
  import opened Status
  import opened Ext2Layout
  import opened Ext2Disk
  import opened Ext2Tables
  import opened Ext2Grow

  /** The leaf and the tables on the way to it. */
  function PathTo(leaf: Slot): (p: set<Slot>)
    ensures forall t :: t in p <==> OnPath(t, leaf)
  {
    {leaf} + (match leaf
              case IndEntry(_) => {Indirect}
              case SubEntry(i, _) => {DoubleIndirect, SubTable(i)}
              case _ => {})
  }

  /** The slots that are empty on the way to one leaf. */
  ghost function MissingOn(d: Disk, n: nat, leaf: Slot): set<Slot> {
    set t | t in PathTo(leaf) && At(d, n, t) == 0
  }

  /** The data blocks and tables that logical blocks lo to hi lack. */
  ghost function Missing(g: Geo, d: Disk, n: nat, lo: nat, hi: nat): set<Slot>
    requires g.PerBlock() > 0
  {
    if hi <= lo then {} else Missing(g, d, n, lo, hi - 1) + MissingOn(d, n, LeafOf(g, hi - 1))
  }

  lemma {:induction false} MissingGrows(g: Geo, d: Disk, n: nat, lo: nat, a: nat, b: nat)
    requires g.PerBlock() > 0 && a <= b
    ensures Missing(g, d, n, lo, a) <= Missing(g, d, n, lo, b)
    ensures |Missing(g, d, n, lo, a)| <= |Missing(g, d, n, lo, b)|
    decreases b
  {
    hide MissingOn, LeafOf;
    if a < b {
      MissingGrows(g, d, n, lo, a, b - 1);
    }
    SubsetSize(Missing(g, d, n, lo, a), Missing(g, d, n, lo, b));
  }

  lemma SubsetSize(a: set<Slot>, b: set<Slot>)
    requires a <= b
    ensures |a| <= |b|
  {
    assert b == a + (b - a);
  }

  lemma {:induction false} MissingAreEmpty(g: Geo, d: Disk, n: nat, lo: nat, hi: nat)
    requires g.PerBlock() > 0
    ensures forall t :: t in Missing(g, d, n, lo, hi) ==> At(d, n, t) == 0
  {
    hide At, LeafOf;
    if hi > lo {
      MissingAreEmpty(g, d, n, lo, hi - 1);
    }
  }

  /**
   What growing from lo to hi blocks reports: a full disk if it lacks blocks
   for what can be mapped at all, else whether all of it can be mapped.
   */
  ghost function GrowStatus(g: Geo, d: Disk, n: nat, lo: nat, hi: nat): Status
    requires g.PerBlock() > 0
  {
    if hi <= lo then Ok
    else if |FreeSet(g, d)| < |Missing(g, d, n, lo, if hi < MaxBlocks(g) then hi else MaxBlocks(g))| then Generic
    else if hi > MaxBlocks(g) then Unsupported
    else Ok
  }

  // ----------------------------------------------------------- counting one step

  /** The slots on the way to the leaf that were filled from d to e. */
  ghost function Filled(d: Disk, e: Disk, n: nat, leaf: Slot): set<Slot> {
    set t | t in PathTo(leaf) && At(d, n, t) == 0 && At(e, n, t) != 0
  }

  ghost function BlocksIn(e: Disk, n: nat, s: set<Slot>): set<nat> { set t | t in s :: At(e, n, t) }

  /** Different slots hold different blocks. */
  lemma {:induction false} AsManyBlocks(g: Geo, e: Disk, o: Owners, n: nat, s: set<Slot>)
    requires OwnedBy(g, e, o) && forall t :: t in s ==> At(e, n, t) != 0
    ensures |BlocksIn(e, n, s)| == |s|
    decreases |s|
  {
    hide At, Marked;
    if s == {} {
      assert BlocksIn(e, n, s) == {};
    } else {
      var t :| t in s;
      AsManyBlocks(g, e, o, n, s - {t});
      assert BlocksIn(e, n, s) == BlocksIn(e, n, s - {t}) + {At(e, n, t)};
      forall r | r in s - {t}
        ensures At(e, n, r) != At(e, n, t)
      {
        assert o[At(e, n, r)].1 == r && o[At(e, n, t)].1 == t;
      }
    }
  }

  /** What a step takes from the free blocks is what it hangs into slots. */
  lemma TakenIsFilled(g: Geo, d: Disk, o: Owners, e: Disk, o': Owners, n: nat, leaf: Slot, b: nat)
    requires Sound(g, d, o) && Sound(g, e, o') && Grew(g, d, e, n, leaf) && SameStrays(g, d, o, e, o')
    requires b in FreeSet(g, d) && b !in FreeSet(g, e)
    ensures b in BlocksIn(e, n, Filled(d, e, n, leaf))
  {
    hide Marked, At, Content, OnPath, Accounting;
    NoOwnedZero(g, e, o');
    assert Marked(g, e, b) && b !in o && b in o';
    var t := o'[b].1;
    assert At(e, o'[b].0, t) == b != 0;
    assert At(d, o'[b].0, t) != b;
    assert t in Filled(d, e, n, leaf);
  }

  lemma FilledWasFree(g: Geo, d: Disk, o: Owners, e: Disk, o': Owners, n: nat, leaf: Slot, t: Slot)
    requires Sound(g, d, o) && Sound(g, e, o') && Grew(g, d, e, n, leaf) && SameStrays(g, d, o, e, o')
    requires t in Filled(d, e, n, leaf)
    ensures At(e, n, t) in FreeSet(g, d) && At(e, n, t) !in FreeSet(g, e)
  {
    hide Marked, At, Content, OnPath, Accounting;
    NoOwnedZero(g, d, o);
    var b := At(e, n, t);
    assert b in o' && o'[b] == (n, t);
    assert forall c :: c in o ==> At(e, o[c].0, o[c].1) == At(d, o[c].0, o[c].1) == c;
  }

  /** One block goes for every slot that is filled. */
  lemma BlocksTaken(g: Geo, d: Disk, o: Owners, e: Disk, o': Owners, n: nat, leaf: Slot)
    requires Sound(g, d, o) && Sound(g, e, o') && Grew(g, d, e, n, leaf) && SameStrays(g, d, o, e, o')
    ensures |FreeSet(g, d)| == |FreeSet(g, e)| + |Filled(d, e, n, leaf)|
  {
    hide Marked, At, Content, OnPath, Accounting, Shape, Grew, SameStrays, OwnedBy, FreeSet;
    var taken := BlocksIn(e, n, Filled(d, e, n, leaf));
    forall t | t in Filled(d, e, n, leaf)
      ensures At(e, n, t) in FreeSet(g, d) && At(e, n, t) !in FreeSet(g, e)
    {
      FilledWasFree(g, d, o, e, o', n, leaf, t);
    }
    forall b | b in FreeSet(g, d) && b !in FreeSet(g, e)
      ensures b in taken
    {
      TakenIsFilled(g, d, o, e, o', n, leaf, b);
    }
    forall b | b in FreeSet(g, e)
      ensures b in FreeSet(g, d)
    {
      StillFree(g, d, o, e, o', n, leaf, b);
    }
    assert FreeSet(g, d) == FreeSet(g, e) + taken;
    AsManyBlocks(g, e, o', n, Filled(d, e, n, leaf));
  }

  lemma StillFree(g: Geo, d: Disk, o: Owners, e: Disk, o': Owners, n: nat, leaf: Slot, b: nat)
    requires Sound(g, d, o) && Sound(g, e, o') && Grew(g, d, e, n, leaf) && SameStrays(g, d, o, e, o') && b in FreeSet(g, e)
    ensures b in FreeSet(g, d)
  {
    hide Marked, At, Content, OnPath, Accounting;
    NoOwnedZero(g, d, o);
    assert forall c :: c in o ==> At(e, o[c].0, o[c].1) == At(d, o[c].0, o[c].1) == c;
  }

  // ------------------------------------------------------------- the whole growth

  /** From d to e exactly what logical blocks lo to hi lacked was filled, a block for each. */
  ghost predicate Supplied(g: Geo, d: Disk, e: Disk, n: nat, lo: nat, hi: nat)
    requires g.PerBlock() > 0
  {
    && (forall t :: At(e, n, t) == 0 <==> At(d, n, t) == 0 && t !in Missing(g, d, n, lo, hi))
    && |FreeSet(g, d)| == |FreeSet(g, e)| + |Missing(g, d, n, lo, hi)|
  }

  lemma SuppliedStart(g: Geo, d: Disk, n: nat, lo: nat)
    requires g.PerBlock() > 0
    ensures Supplied(g, d, d, n, lo, lo)
  {
    hide At;
  }

  /** What is still missing for the next block is what it lacks and its predecessors did not. */
  lemma NextMissing(g: Geo, d: Disk, e: Disk, n: nat, lo: nat, lbn: nat)
    requires g.PerBlock() > 0 && lo <= lbn && Supplied(g, d, e, n, lo, lbn)
    ensures var m := MissingOn(e, n, LeafOf(g, lbn));
            && m !! Missing(g, d, n, lo, lbn) && Missing(g, d, n, lo, lbn + 1) == Missing(g, d, n, lo, lbn) + m
            && |Missing(g, d, n, lo, lbn + 1)| == |Missing(g, d, n, lo, lbn)| + |m|
  {
    hide At, LeafOf, FreeSet;
    MissingAreEmpty(g, d, n, lo, lbn);
  }

  /** A mapped leaf has all its tables. */
  lemma MappedPath(d: Disk, n: nat, leaf: Slot)
    requires leaf.Leaf() && At(d, n, leaf) != 0
    ensures forall t :: t in PathTo(leaf) ==> At(d, n, t) != 0
  {
    hide Word;
  }

  lemma SuppliedStep(g: Geo, d: Disk, e: Disk, o: Owners, f: Disk, o': Owners, n: nat, lo: nat, lbn: nat)
    requires g.PerBlock() > 0 && lo <= lbn && Supplied(g, d, e, n, lo, lbn)
    requires Sound(g, e, o) && Sound(g, f, o') && Grew(g, e, f, n, LeafOf(g, lbn)) && SameStrays(g, e, o, f, o')
    requires At(f, n, LeafOf(g, lbn)) != 0
    ensures Supplied(g, d, f, n, lo, lbn + 1)
  {
    hide Sound, At, LeafOf, FreeSet, SameStrays, Content, Missing;
    var leaf := LeafOf(g, lbn);
    BlocksTaken(g, e, o, f, o', n, leaf);
    NextMissing(g, d, e, n, lo, lbn);
    MappedPath(f, n, leaf);
    assert Filled(e, f, n, leaf) == MissingOn(e, n, leaf);
  }

  /** A disk that is full with the leaf still empty had too few blocks for it. */
  lemma TooFew(g: Geo, d: Disk, e: Disk, o: Owners, f: Disk, o': Owners, n: nat, lo: nat, lbn: nat, hi: nat)
    requires g.PerBlock() > 0 && lo <= lbn < hi && Supplied(g, d, e, n, lo, lbn)
    requires Sound(g, e, o) && Sound(g, f, o') && Grew(g, e, f, n, LeafOf(g, lbn)) && SameStrays(g, e, o, f, o')
    requires At(f, n, LeafOf(g, lbn)) == 0 && FreeSet(g, f) == {}
    ensures |FreeSet(g, d)| < |Missing(g, d, n, lo, hi)|
  {
    hide Sound, At, LeafOf, FreeSet, SameStrays, Content, Missing;
    var leaf := LeafOf(g, lbn);
    BlocksTaken(g, e, o, f, o', n, leaf);
    NextMissing(g, d, e, n, lo, lbn);
    assert At(e, n, leaf) == 0 && leaf in MissingOn(e, n, leaf) && leaf !in Filled(e, f, n, leaf);
    SubsetSize(Filled(e, f, n, leaf) + {leaf}, MissingOn(e, n, leaf));
    MissingGrows(g, d, n, lo, lbn + 1, hi);
  }

  lemma NothingMissing(g: Geo, d: Disk, n: nat, lo: nat, hi: nat)
    requires g.PerBlock() > 0
    ensures hi <= lo ==> Missing(g, d, n, lo, hi) == {} && GrowStatus(g, d, n, lo, hi) == Ok
  {
    hide LeafOf, FreeSet, MissingOn;
  }

  /** The loop ended: everything is there, so there was room for it. */
  lemma AllSupplied(g: Geo, d: Disk, e: Disk, n: nat, lo: nat, lbn: nat, hi: nat)
    requires g.PerBlock() > 0 && Supplied(g, d, e, n, lo, lbn) && hi <= lbn && (lbn == lo || (lbn <= hi && lbn <= MaxBlocks(g)))
    ensures GrowStatus(g, d, n, lo, hi) == Ok && |FreeSet(g, d)| == |FreeSet(g, e)| + |Missing(g, d, n, lo, hi)|
  {
    hide LeafOf, FreeSet, MissingOn, At, MaxBlocks;
  }

  /** It stopped at lbn: the disk was full there, or the map ends. */
  lemma WhyStopped(g: Geo, d: Disk, e: Disk, o: Owners, f: Disk, o': Owners, n: nat, lo: nat, lbn: nat, hi: nat, status: Status)
    requires g.PerBlock() > 0 && lo <= lbn < hi && Supplied(g, d, e, n, lo, lbn) && (lbn == lo || lbn <= MaxBlocks(g))
    requires Sound(g, e, o) && Sound(g, f, o') && Grew(g, e, f, n, LeafOf(g, lbn)) && SameStrays(g, e, o, f, o')
    requires if lbn >= MaxBlocks(g) then status == Unsupported
             else status == Generic && At(f, n, LeafOf(g, lbn)) == 0 && FreeSet(g, f) == {}
    ensures status == GrowStatus(g, d, n, lo, hi)
  {
    hide LeafOf, FreeSet, MissingOn, At, MaxBlocks, Sound, Grew, SameStrays, Missing, Supplied;
    var end := if hi < MaxBlocks(g) then hi else MaxBlocks(g);
    if lbn < MaxBlocks(g) {
      TooFew(g, d, e, o, f, o', n, lo, lbn, end);
    } else {
      EndReached(g, d, e, n, lo, lbn);
    }
  }

  lemma EndReached(g: Geo, d: Disk, e: Disk, n: nat, lo: nat, lbn: nat)
    requires g.PerBlock() > 0 && lo <= lbn && Supplied(g, d, e, n, lo, lbn) && MaxBlocks(g) <= lbn
    ensures |FreeSet(g, d)| >= |Missing(g, d, n, lo, MaxBlocks(g))|
  {
    hide LeafOf, FreeSet, MissingOn, At, MaxBlocks, Missing;
    MissingGrows(g, d, n, lo, MaxBlocks(g), lbn);
  }

  lemma SameBlocksSameFree(g: Geo, d: Disk, e: Disk)
    requires e.blocks == d.blocks
    ensures FreeSet(g, e) == FreeSet(g, d)
  {
  }
}
