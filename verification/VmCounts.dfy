/** How the page counts follow each change of a page table or an object slot. */
module VmCounts {
  import opened VmState

  // ---------------------------------------------------- the list of counters

  lemma {:induction false} CountAt(refs: seq<RefNode>, i: nat)
    requires RefsOk(refs) && i < |refs|
    ensures Count(refs, refs[i].phys) == refs[i].refs
  {
    if i > 0 {
      CountAt(refs[1..], i - 1);
    }
  }

  lemma {:induction false} CountNone(refs: seq<RefNode>, p: Phys)
    requires forall i :: 0 <= i < |refs| ==> refs[i].phys != p
    ensures Count(refs, p) == 0
  {
    if refs != [] {
      CountNone(refs[1..], p);
    }
  }

  lemma {:induction false} CountConcat(a: seq<RefNode>, b: seq<RefNode>, p: Phys)
    requires RefsOk(a + b)
    ensures Count(a + b, p) == if Count(a, p) > 0 then Count(a, p) else Count(b, p)
  {
    if a == [] {
      assert a + b == b;
    } else {
      assert (a + b)[1..] == a[1..] + b && (a + b)[0] == a[0];
      CountConcat(a[1..], b, p);
    }
  }

  lemma CountUpdate(refs: seq<RefNode>, i: nat, v: nat, q: Phys)
    requires RefsOk(refs) && i < |refs| && v > 0
    ensures RefsOk(refs[i := RefNode(refs[i].phys, v)])
    ensures Count(refs[i := RefNode(refs[i].phys, v)], q) == if q == refs[i].phys then v else Count(refs, q)
  {
    var r := refs[i := RefNode(refs[i].phys, v)];
    assert r == refs[..i] + ([r[i]] + refs[i + 1..]) && refs == refs[..i] + ([refs[i]] + refs[i + 1..]);
    CountConcat(refs[..i], [r[i]] + refs[i + 1..], q);
    CountConcat(refs[..i], [refs[i]] + refs[i + 1..], q);
    CountNone(refs[..i], refs[i].phys);
    assert ([r[i]] + refs[i + 1..])[1..] == ([refs[i]] + refs[i + 1..])[1..];
  }

  lemma CountRemove(refs: seq<RefNode>, i: nat, q: Phys)
    requires RefsOk(refs) && i < |refs|
    ensures RefsOk(refs[..i] + refs[i + 1..])
    ensures Count(refs[..i] + refs[i + 1..], q) == if q == refs[i].phys then 0 else Count(refs, q)
  {
    assert refs == refs[..i] + ([refs[i]] + refs[i + 1..]);
    CountConcat(refs[..i], [refs[i]] + refs[i + 1..], q);
    CountConcat(refs[..i], refs[i + 1..], q);
    CountNone(refs[..i], refs[i].phys);
    CountNone(refs[i + 1..], refs[i].phys);
    assert ([refs[i]] + refs[i + 1..])[1..] == refs[i + 1..];
  }

  /** refs' is refs with one more reference to p. */
  ghost predicate Retained(refs: seq<RefNode>, refs': seq<RefNode>, p: Phys) {
    RefsOk(refs') && forall q :: Count(refs', q) == Count(refs, q) + (if q == p then 1 else 0)
  }

  /** refs' is refs with one reference to p dropped, if there was one. */
  ghost predicate Released(refs: seq<RefNode>, refs': seq<RefNode>, p: Phys) {
    RefsOk(refs') && forall q :: Count(refs', q) == if q == p && Count(refs, q) > 0 then Count(refs, q) - 1 else Count(refs, q)
  }

  lemma NewCounter(refs: seq<RefNode>, p: Phys)
    requires RefsOk(refs) && p != 0 && forall i :: 0 <= i < |refs| ==> refs[i].phys != p
    ensures Retained(refs, [RefNode(p, 1)] + refs, p)
  {
    CountNone(refs, p);
    assert ([RefNode(p, 1)] + refs)[1..] == refs;
  }

  // -------------------------------------------------------- page-table changes

  lemma AddMapping(refs: seq<RefNode>, refs': seq<RefNode>, pt: map<Key, Pte>, objects: map<ObjId, VmObject>, k: Key, e: Pte)
    requires CountsOk(refs, pt, objects) && k !in pt && Retained(refs, refs', e.phys)
    ensures CountsOk(refs', pt[k := e], objects)
  {
    hide Count, RefsOk, Slots;
    forall p: Phys | p != 0
      ensures Count(refs', p) == |Maps(pt[k := e], p)| + |Slots(objects, p)|
    {
      assert Maps(pt[k := e], p) == if p == e.phys then Maps(pt, p) + {k} else Maps(pt, p);
    }
  }

  lemma DropMapping(refs: seq<RefNode>, refs': seq<RefNode>, pt: map<Key, Pte>, objects: map<ObjId, VmObject>, k: Key)
    requires CountsOk(refs, pt, objects) && k in pt && pt[k].phys != 0 && Released(refs, refs', pt[k].phys)
    ensures CountsOk(refs', pt - {k}, objects) && Count(refs, pt[k].phys) > 0
  {
    hide Count, RefsOk, Slots;
    assert k in Maps(pt, pt[k].phys);
    forall p: Phys | p != 0
      ensures Count(refs', p) == |Maps(pt - {k}, p)| + |Slots(objects, p)|
    {
      assert Maps(pt - {k}, p) == if p == pt[k].phys then Maps(pt, p) - {k} else Maps(pt, p);
    }
  }

  /** Changing what a present page may do does not change who holds what. */
  lemma Remap(refs: seq<RefNode>, pt: map<Key, Pte>, objects: map<ObjId, VmObject>, k: Key, w: bool)
    requires CountsOk(refs, pt, objects) && k in pt
    ensures CountsOk(refs, pt[k := Pte(pt[k].phys, w)], objects)
  {
    hide Count, RefsOk, Slots;
    forall p: Phys
      ensures Maps(pt[k := Pte(pt[k].phys, w)], p) == Maps(pt, p)
    {
    }
  }

  /** A page that is counted nowhere is held nowhere. */
  lemma UncountedIsUnheld(refs: seq<RefNode>, pt: map<Key, Pte>, objects: map<ObjId, VmObject>, p: Phys)
    requires CountsOk(refs, pt, objects) && p != 0 && Count(refs, p) == 0
    ensures forall k :: k in pt ==> pt[k].phys != p
    ensures forall o, i :: o in objects && 0 <= i < |objects[o].resident| ==> objects[o].resident[i] != p
  {
    hide Count, RefsOk;
    assert Maps(pt, p) == {} && Slots(objects, p) == {};
    forall k | k in pt
      ensures pt[k].phys != p
    {
      assert k !in Maps(pt, p);
    }
    forall o, i | o in objects && 0 <= i < |objects[o].resident|
      ensures objects[o].resident[i] != p
    {
      assert (o, i) !in Slots(objects, p);
    }
  }

  // ------------------------------------------------------------- slot changes

  function WithSlot(objects: map<ObjId, VmObject>, o: ObjId, i: nat, p: Phys): map<ObjId, VmObject>
    requires o in objects && i < |objects[o].resident|
  {
    objects[o := objects[o].(resident := objects[o].resident[i := p])]
  }

  lemma SlotsWith(objects: map<ObjId, VmObject>, o: ObjId, i: nat, p: Phys, q: Phys)
    requires o in objects && i < |objects[o].resident| && q != 0
    ensures Slots(WithSlot(objects, o, i, p), q) ==
            (if q == p then Slots(objects, q) + {(o, i)} else Slots(objects, q) - {(o, i)})
    ensures (o, i) in Slots(objects, q) <==> objects[o].resident[i] == q
  {
    var objects' := WithSlot(objects, o, i, p);
    forall b, j
      ensures (b, j) in Slots(objects', q) <==>
              (if (b, j) == (o, i) then q == p else (b, j) in Slots(objects, q))
    {
    }
  }

  lemma FillSlot(refs: seq<RefNode>, refs': seq<RefNode>, pt: map<Key, Pte>, objects: map<ObjId, VmObject>, o: ObjId, i: nat, p: Phys)
    requires CountsOk(refs, pt, objects) && o in objects && i < |objects[o].resident| && objects[o].resident[i] == 0
    requires p != 0 && Retained(refs, refs', p)
    ensures CountsOk(refs', pt, WithSlot(objects, o, i, p))
  {
    hide Count, RefsOk, Maps, Slots;
    forall q: Phys | q != 0
      ensures Count(refs', q) == |Maps(pt, q)| + |Slots(WithSlot(objects, o, i, p), q)|
    {
      SlotsWith(objects, o, i, p, q);
    }
  }

  lemma ClearSlot(refs: seq<RefNode>, refs': seq<RefNode>, pt: map<Key, Pte>, objects: map<ObjId, VmObject>, o: ObjId, i: nat)
    requires CountsOk(refs, pt, objects) && o in objects && i < |objects[o].resident| && objects[o].resident[i] != 0
    requires Released(refs, refs', objects[o].resident[i])
    ensures CountsOk(refs', pt, WithSlot(objects, o, i, 0)) && Count(refs, objects[o].resident[i]) > 0
  {
    hide Count, RefsOk, Maps, Slots;
    SlotsWith(objects, o, i, 0, objects[o].resident[i]);
    forall q: Phys | q != 0
      ensures Count(refs', q) == |Maps(pt, q)| + |Slots(WithSlot(objects, o, i, 0), q)|
    {
      SlotsWith(objects, o, i, 0, q);
    }
  }

  /** Counters of an object, or objects without resident pages, do not matter to the page counts. */
  lemma SameResidents(refs: seq<RefNode>, pt: map<Key, Pte>, objects: map<ObjId, VmObject>, objects': map<ObjId, VmObject>)
    requires CountsOk(refs, pt, objects)
    requires forall o :: o in objects' ==>
               if o in objects then objects'[o].resident == objects[o].resident
               else forall i :: 0 <= i < |objects'[o].resident| ==> objects'[o].resident[i] == 0
    requires forall o :: o in objects && o !in objects' ==>
               forall i :: 0 <= i < |objects[o].resident| ==> objects[o].resident[i] == 0
    ensures CountsOk(refs, pt, objects')
  {
    hide Count, RefsOk, Maps;
    forall q: Phys | q != 0
      ensures Slots(objects', q) == Slots(objects, q)
    {
      forall b, j
        ensures (b, j) in Slots(objects', q) <==> (b, j) in Slots(objects, q)
      {
      }
    }
  }

  /** Pointing a page-table entry at another page. */
  lemma ReplaceMapping(refs: seq<RefNode>, r: seq<RefNode>, refs': seq<RefNode>, pt: map<Key, Pte>, objects: map<ObjId, VmObject>, k: Key, e: Pte)
    requires CountsOk(refs, pt, objects) && k in pt && pt[k].phys != 0 && e.phys != pt[k].phys
    requires Retained(refs, r, e.phys) && Released(r, refs', pt[k].phys)
    ensures CountsOk(refs', pt[k := e], objects) && Count(refs, pt[k].phys) > 0
  {
    hide Count, RefsOk, Slots;
    assert k in Maps(pt, pt[k].phys);
    forall p: Phys | p != 0
      ensures Count(refs', p) == |Maps(pt[k := e], p)| + |Slots(objects, p)|
    {
      assert Maps(pt[k := e], p) ==
             if p == e.phys then Maps(pt, p) + {k} else if p == pt[k].phys then Maps(pt, p) - {k} else Maps(pt, p);
    }
  }

  // ------------------------------------------------------------ free frames

  lemma FramesRetained(refs: seq<RefNode>, refs': seq<RefNode>, free: set<Phys>, frames: set<Phys>, p: Phys)
    requires FramesOk(refs, free, frames) && Retained(refs, refs', p) && p in frames
    ensures FramesOk(refs', free - {p}, frames)
  {
    hide Count, RefsOk;
  }

  lemma FramesReleased(refs: seq<RefNode>, refs': seq<RefNode>, free: set<Phys>, frames: set<Phys>, p: Phys)
    requires FramesOk(refs, free, frames) && Released(refs, refs', p) && Count(refs, p) > 0
    ensures FramesOk(refs', if Count(refs, p) == 1 then free + {p} else free, frames)
  {
    hide Count, RefsOk;
  }
}
