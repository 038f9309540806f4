/**
 Why mapping, forking and leaving keep the counters right: the bookkeeping of
 a new entry, of an object's birth and of its last outside holder, and what a
 half-finished fork has done so far.
 */
module VmMaps {
  import opened Common
  import opened VmState
  import opened VmCounts
  import opened VmEntries
  import opened VmSteps
  import opened VmRuns

  // ------------------------------------------------------------ a new entry

  predicate RangeValid(lo: nat, hi: nat) { USER_MIN <= lo < hi <= USER_MAX }

  predicate Overlaps(es: seq<Entry>, lo: nat, hi: nat) {
    exists e :: e in es && !(hi <= e.start || lo >= e.end)
  }

  lemma AppendOk(es: seq<Entry>, e: Entry)
    requires EntriesOk(es) && |es| < MAX_ENTRIES && e.Ok() && !Overlaps(es, e.start, e.end)
    ensures EntriesOk(es + [e])
  {
    forall i | 0 <= i < |es|
      ensures Disjoint(es[i], e)
    {
      assert es[i] in es;
    }
  }

  lemma AppendRefs(tasks: map<TaskId, Task>, t: TaskId, e: Entry, o: ObjId)
    requires t in tasks
    ensures |EntryRefs(tasks[t := tasks[t].(entries := tasks[t].entries + [e])], o)|
            == |EntryRefs(tasks, o)| + (if e.obj == o then 1 else 0)
  {
    hide EntryRefs, CountObj;
    EntryRefsChange(tasks, t, tasks[t].(entries := tasks[t].entries + [e]), o);
    CountObjConcat(tasks[t].entries, [e], o);
    OneObj(e, o);
  }

  /** Entry e is appended to t's map, and its object, if any, counts it. */
  ghost predicate Appended(s: Vm, t: TaskId, e: Entry, s': Vm) {
    && t in s.tasks && s'.tasks == s.tasks[t := s.tasks[t].(entries := s.tasks[t].entries + [e])]
    && s'.pt == s.pt && s'.mem == s.mem && s'.refs == s.refs && s'.free == s.free && s'.outside == s.outside
    && (e.obj == 0 ==> s'.objects == s.objects)
    && (e.obj != 0 ==> e.obj in s.objects && e.obj in s.outside && s.outside[e.obj] > 0 &&
                       s'.objects == s.objects[e.obj := s.objects[e.obj].(refs := s.objects[e.obj].refs + 1)])
  }

  lemma AppendedObjects(s: Vm, t: TaskId, e: Entry, s': Vm)
    requires ObjectsOk(s.tasks, s.objects, s.outside) && Appended(s, t, e, s')
    ensures ObjectsOk(s'.tasks, s'.objects, s'.outside)
  {
    hide EntryRefs;
    forall o | o in s'.objects
      ensures |EntryRefs(s'.tasks, o)| == |EntryRefs(s.tasks, o)| + (if e.obj == o then 1 else 0)
    {
      AppendRefs(s.tasks, t, e, o);
    }
  }

  lemma MapAdded(s: Vm, t: TaskId, e: Entry, s': Vm, frames: set<Phys>)
    requires Inv(s, frames) && Appended(s, t, e, s') && Cow !in e.flags && EntriesOk(s'.tasks[t].entries)
    ensures MapNext(s, t, e, s') && Inv(s', frames)
  {
    hide TasksOk, MappingsOk, MemOk, CountsOk, FramesOk, Coherent, EntriesOk, EntryRefs;
    AppendedObjects(s, t, e, s');
    SameResidents(s.refs, s.pt, s.objects, s'.objects);
    StepKeepsInv(s, Map(t, e), s', frames);
  }

  /** A fixed mapping replaces exactly its range: other pages stay, and the range starts without any page present. */
  lemma FixedMapReplaces(s: Vm, t: TaskId, mid: Vm, e: Entry, s': Vm, k: Key)
    requires UnmapNext(s, t, e.start, e.end, mid) && MapNext(mid, t, e, s')
    ensures PageAt(s'.tasks, k) == if k.0 == t && e.Covers(k.1) then Some(ViewOf(e, k.1)) else PageAt(s.tasks, k)
    ensures k in s'.pt <==> k in s.pt && !(k.0 == t && e.Covers(k.1))
    ensures k in s'.pt ==> s'.pt[k] == s.pt[k]
  {
    hide Punch, EntriesOk, MapView;
    UnmapPages(s, t, e.start, e.end, mid, k);
    MapPages(mid, t, e, s', k);
  }

  // ---------------------------------------------------- birth and last holder

  /** An empty object with one outside holder. */
  lemma ObjectCreated(s: Vm, o: ObjId, obj: VmObject, s': Vm, frames: set<Phys>)
    requires Inv(s, frames) && o !in s.objects && o != 0 && obj.refs == 1
    requires forall i :: 0 <= i < |obj.resident| ==> obj.resident[i] == 0
    requires s' == s.(objects := s.objects[o := obj], outside := s.outside[o := 1])
    ensures Inv(s', frames)
  {
    hide TasksOk, MappingsOk, MemOk, CountsOk, FramesOk, Coherent, EntryRefs;
    SameResidents(s.refs, s.pt, s.objects, s'.objects);
    NobodyNames(s, o);
    SamePagesCoherence(s, s');
  }

  lemma NobodyNames(s: Vm, o: ObjId)
    requires ObjectsOk(s.tasks, s.objects, s.outside) && o !in s.objects && o != 0
    ensures EntryRefs(s.tasks, o) == {}
  {
  }

  /** One outside holder of o lets go; without any reference left the object is gone. */
  lemma HandleDropped(s: Vm, o: ObjId, s': Vm, frames: set<Phys>)
    requires Inv(s, frames) && o in s.objects && o in s.outside && s.outside[o] > 0
    requires s'.objects == if s.objects[o].refs == 1 then s.objects - {o}
                           else s.objects[o := s.objects[o].(refs := s.objects[o].refs - 1)]
    requires s'.outside == if o in s'.objects then s.outside[o := s.outside[o] - 1] else s.outside - {o}
    requires s'.tasks == s.tasks && s'.pt == s.pt && s'.mem == s.mem
    requires CountsOk(s'.refs, s'.pt, s'.objects) && FramesOk(s'.refs, s'.free, frames)
    ensures Inv(s', frames)
  {
    hide TasksOk, MappingsOk, MemOk, CountsOk, FramesOk, Coherent, EntryRefs;
    SamePagesCoherence(s, s');
    forall t, i | t in s.tasks && 0 <= i < |s.tasks[t].entries| && s.tasks[t].entries[i].obj == o
      ensures o in s'.objects
    {
      Named(s.tasks, t, i);
    }
  }

  lemma Named(tasks: map<TaskId, Task>, u: TaskId, i: nat)
    requires u in tasks && i < |tasks[u].entries|
    ensures |EntryRefs(tasks, tasks[u].entries[i].obj)| > 0
  {
    assert (u, i) in EntryRefs(tasks, tasks[u].entries[i].obj);
  }

  // ------------------------------------------------------------------ forking

  /**
   The page table when the pages of the entries in `done` have been shared with
   the child: the child maps the same frames, and pages to be copied on write
   are read-only on both sides.
   */
  ghost predicate Forked(pt0: map<Key, Pte>, pt: map<Key, Pte>, t: TaskId, c: TaskId, done: seq<Entry>) {
    && (forall k :: k in pt <==> k in pt0 || (k.0 == c && (t, k.1) in pt0 && MapView(done, k.1).Some?))
    && (forall k :: k in pt0 ==>
          pt[k] == if k.0 == t && MapView(done, k.1).Some? && MapView(done, k.1).value.CowCandidate()
                   then Pte(pt0[k].phys, false) else pt0[k])
    && (forall k :: k in pt0 && k.0 == t && MapView(done, k.1).Some? ==>
          pt[(c, k.1)] == ChildPte(pt0[k], MapView(done, k.1).value))
  }

  function ChildPte(p: Pte, v: PageView): Pte {
    Pte(p.phys, !v.CowCandidate() && v.prot.write)
  }

  /** What is covered when an entry has been worked off up to hi. */
  lemma PartView(done: seq<Entry>, e: Entry, hi: nat, va: nat)
    requires e.start <= hi <= e.end && (e.Covers(va) ==> MapView(done, va).None?)
    ensures MapView(done + [e.(end := hi)], va) ==
            if e.start <= va < hi then Some(ViewOf(e, va)) else MapView(done, va)
  {
    hide MapView;
    MapViewConcat(done, [e.(end := hi)], va);
    OneView(e.(end := hi), va);
  }

  /** Sharing the page at va, if there is one, is one more step of the work on entry e. */
  lemma ForkedPage(pt0: map<Key, Pte>, pt: map<Key, Pte>, t: TaskId, c: TaskId, done: seq<Entry>, e: Entry, va: nat, pt': map<Key, Pte>)
    requires Forked(pt0, pt, t, c, done + [e.(end := va)]) && t != c
    requires forall k :: k in pt0 ==> k.1 % PAGE == 0 && k.0 != c
    requires e.Covers(va) && va % PAGE == 0 && e.end % PAGE == 0 && forall v: nat :: e.Covers(v) ==> MapView(done, v).None?
    requires if (t, va) in pt0 then
               pt' == (if e.CowCandidate() then pt[(c, va) := ChildPte(pt0[(t, va)], ViewOf(e, va))][(t, va) := Pte(pt0[(t, va)].phys, false)]
                       else pt[(c, va) := ChildPte(pt0[(t, va)], ViewOf(e, va))])
             else pt' == pt
    ensures va + PAGE <= e.end && Forked(pt0, pt', t, c, done + [e.(end := va + PAGE)])
  {
    hide MapView;
    forall k: Key | (k in pt0 || (t, k.1) in pt0)
      ensures MapView(done + [e.(end := va + PAGE)], k.1) ==
              if k.1 == va then Some(ViewOf(e, va)) else MapView(done + [e.(end := va)], k.1)
    {
      PartView(done, e, va, k.1);
      PartView(done, e, va + PAGE, k.1);
    }
    PartView(done, e, va, va);
  }

  /** Before the first page of an entry, and behind its last one. */
  lemma ForkedEnds(pt0: map<Key, Pte>, pt: map<Key, Pte>, t: TaskId, c: TaskId, done: seq<Entry>, e: Entry)
    requires e.start <= e.end && forall v: nat :: e.Covers(v) ==> MapView(done, v).None?
    ensures Forked(pt0, pt, t, c, done) ==> Forked(pt0, pt, t, c, done + [e.(end := e.start)])
    ensures e.(end := e.end) == e
  {
    hide MapView;
    forall va: nat
      ensures MapView(done + [e.(end := e.start)], va) == MapView(done, va)
    {
      PartView(done, e, e.start, va);
    }
  }

  /** The entries before entry i do not reach into it. */
  lemma EarlierEntries(es: seq<Entry>, i: nat)
    requires EntriesOk(es) && i < |es|
    ensures forall v: nat :: es[i].Covers(v) ==> MapView(es[..i], v).None?
    ensures es[..i + 1] == es[..i] + [es[i]]
  {
    forall v: nat | es[i].Covers(v)
      ensures MapView(es[..i], v).None?
    {
      LookupCovers(es[..i], v);
      assert forall j :: 0 <= j < i ==> Disjoint(es[j], es[i]);
    }
  }

  /** Every object counts the child's entries too. */
  ghost predicate Referenced(objects0: map<ObjId, VmObject>, objects: map<ObjId, VmObject>, done: seq<Entry>) {
    && objects.Keys == objects0.Keys
    && forall o :: o in objects ==> objects[o] == objects0[o].(refs := objects0[o].refs + CountObj(done, o))
  }

  lemma ReferencedStep(objects0: map<ObjId, VmObject>, objects: map<ObjId, VmObject>, done: seq<Entry>, e: Entry, objects': map<ObjId, VmObject>)
    requires Referenced(objects0, objects, done)
    requires if e.obj in objects then objects' == objects[e.obj := objects[e.obj].(refs := objects[e.obj].refs + 1)] else objects' == objects
    ensures Referenced(objects0, objects', done + [e])
  {
    hide CountObj;
    forall o | o in objects'
      ensures CountObj(done + [e], o) == CountObj(done, o) + (if e.obj == o then 1 else 0)
    {
      CountObjConcat(done, [e], o);
      OneObj(e, o);
    }
  }

  lemma {:induction false} CowMarkedObj(es: seq<Entry>, o: ObjId)
    ensures CountObj(CowMarked(es), o) == CountObj(es, o)
  {
    if es != [] {
      var n := |es| - 1;
      assert CowMarked(es)[..n] == CowMarked(es[..n]);
      CowMarkedObj(es[..n], o);
    }
  }

  /** The fork is complete: the state is that of the Fork step. */
  ghost predicate ForkState(s: Vm, t: TaskId, c: TaskId, s': Vm) {
    && t in s.tasks && c !in s.tasks && t in s'.tasks && c in s'.tasks
    && s'.tasks == s.tasks[t := s'.tasks[t]][c := s'.tasks[c]]
    && s'.tasks[t].entries == CowMarked(s.tasks[t].entries) && s'.tasks[c].entries == s'.tasks[t].entries
    && Forked(s.pt, s'.pt, t, c, s.tasks[t].entries) && Referenced(s.objects, s'.objects, s.tasks[t].entries)
    && s'.mem == s.mem && s'.outside == s.outside
  }

  lemma ForkObjects(s: Vm, t: TaskId, c: TaskId, s': Vm)
    requires ObjectsOk(s.tasks, s.objects, s.outside) && ForkState(s, t, c, s')
    ensures ObjectsOk(s'.tasks, s'.objects, s'.outside)
  {
    hide EntryRefs, CountObj, Forked;
    var es := s.tasks[t].entries;
    forall o | o in s.objects
      ensures |EntryRefs(s'.tasks, o)| == |EntryRefs(s.tasks, o)| + CountObj(es, o)
    {
      EntryRefsChange(s.tasks, t, s'.tasks[t], o);
      EntryRefsAdd(s.tasks[t := s'.tasks[t]], c, s'.tasks[c], o);
      CowMarkedObj(es, o);
    }
    forall i | 0 <= i < |es|
      ensures CowMarked(es)[i].obj == es[i].obj
    {
    }
  }

  lemma ForkDone(s: Vm, t: TaskId, c: TaskId, s': Vm, frames: set<Phys>)
    requires Inv(s, frames) && ForkState(s, t, c, s')
    requires CountsOk(s'.refs, s'.pt, s'.objects) && FramesOk(s'.refs, s'.free, frames)
    ensures ForkNext(s, t, c, s') && Inv(s', frames)
  {
    hide TasksOk, MemOk, CountsOk, FramesOk, Coherent, ObjectsOk, MapView, CowMarked, CountObj;
    ForkObjects(s, t, c, s');
    SameOutside(s, frames);
    assert ForkNext(s, t, c, s');
    StepKeepsInv(s, Fork(t, c), s', frames);
  }

  lemma SameOutside(s: Vm, frames: set<Phys>)
    requires Inv(s, frames)
    ensures s.outside.Keys == s.objects.Keys
  {
    hide TasksOk, MappingsOk, MemOk, CountsOk, FramesOk, Coherent, EntryRefs;
  }
}
