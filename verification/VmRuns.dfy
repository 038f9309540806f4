/**
 What every step keeps, and what follows for whole runs: shared mappings agree,
 and after a fork neither side sees what the other writes.
 */
module VmRuns {
  import opened Common
  import opened VmState
  import opened VmEntries
  import opened VmSteps

  // ------------------------------------------------ the address map, page by page

  lemma UnmapPages(s: Vm, t: TaskId, lo: nat, hi: nat, s': Vm, k: Key)
    requires UnmapNext(s, t, lo, hi, s')
    ensures PageAt(s'.tasks, k) == if k.0 == t && lo <= k.1 < hi then None else PageAt(s.tasks, k)
  {
    hide MapView, Punch;
    PunchView(s.tasks[t].entries, lo, hi, k.1);
  }

  lemma MapPages(s: Vm, t: TaskId, e: Entry, s': Vm, k: Key)
    requires MapNext(s, t, e, s')
    ensures PageAt(s'.tasks, k) ==
            if PageAt(s.tasks, k).Some? then PageAt(s.tasks, k)
            else if k.0 == t && e.Covers(k.1) then Some(ViewOf(e, k.1)) else None
  {
    hide MapView;
    if k.0 == t {
      MapViewConcat(s.tasks[t].entries, [e], k.1);
      OneView(e, k.1);
    }
  }

  function MarkView(v: Option<PageView>): Option<PageView> {
    if v.Some? && v.value.CowCandidate() then Some(v.value.(flags := v.value.flags + {Cow})) else v
  }

  lemma {:induction false} CowMarkedView(es: seq<Entry>, va: nat)
    ensures MapView(CowMarked(es), va) == MarkView(MapView(es, va))
  {
    if es != [] {
      assert CowMarked(es)[1..] == CowMarked(es[1..]);
      CowMarkedView(es[1..], va);
    }
  }

  lemma ForkPages(s: Vm, t: TaskId, c: TaskId, s': Vm, k: Key)
    requires ForkNext(s, t, c, s')
    ensures PageAt(s'.tasks, k) ==
            if k.0 == t || k.0 == c then MarkView(PageAt(s.tasks, (t, k.1))) else PageAt(s.tasks, k)
  {
    hide MapView, CowMarked;
    CowMarkedView(s.tasks[t].entries, k.1);
  }

  // ------------------------------------------------------------ every step keeps

  lemma ForkedTasksOk(es: seq<Entry>)
    requires EntriesOk(es) && forall i :: 0 <= i < |es| && Cow in es[i].flags ==> es[i].CowCandidate()
    ensures EntriesOk(CowMarked(es))
    ensures forall i :: 0 <= i < |es| && Cow in CowMarked(es)[i].flags ==> CowMarked(es)[i].CowCandidate()
  {
    var r := CowMarked(es);
    assert forall i :: 0 <= i < |es| ==> r[i].start == es[i].start && r[i].end == es[i].end && r[i].Ok();
    assert forall i, j :: 0 <= i < j < |es| ==> Disjoint(r[i], r[j]);
  }

  lemma TasksKept(s: Vm, step: Step, s': Vm)
    requires TasksOk(s.tasks) && Effect(s, step, s')
    ensures TasksOk(s'.tasks)
  {
    hide EntriesOk, Punch, CowMarked, CountsOk, FramesOk, ObjectsOk;
    match step
    case Unmap(t, lo, hi) =>
      PunchedTaskOk(s.tasks[t].entries, lo, hi);
    case Fork(t, c) => ForkedTasksOk(s.tasks[t].entries);
    case NewTask(t) => NoEntries();
    case _ =>
  }

  lemma NoEntries()
    ensures EntriesOk([])
  {
  }

  /** Steps after which every address leads to the page it led to before. */
  lemma SamePages(s: Vm, step: Step, s': Vm)
    requires Effect(s, step, s')
    requires step.RefusedUnmap? || step.NewTask? || step.Adjust? || step.CreateObject? || step.DropHandle?
    ensures forall k: Key :: PageAt(s'.tasks, k) == PageAt(s.tasks, k)
    ensures forall k :: k in s'.pt ==> k in s.pt && s'.pt[k] == s.pt[k]
    ensures s'.mem == s.mem
  {
    hide SplitsAny;
  }

  lemma PunchedTaskOk(es: seq<Entry>, lo: nat, hi: nat)
    requires EntriesOk(es) && lo % PAGE == 0 && hi % PAGE == 0 && |Punch(es, lo, hi)| <= MAX_ENTRIES
    requires forall i :: 0 <= i < |es| && Cow in es[i].flags ==> es[i].CowCandidate()
    ensures EntriesOk(Punch(es, lo, hi))
    ensures var r := Punch(es, lo, hi); forall i :: 0 <= i < |r| && Cow in r[i].flags ==> r[i].CowCandidate()
  {
    hide Punch, Pieces, Entry.Ok;
    PunchOk(es, lo, hi);
    var r := Punch(es, lo, hi);
    forall i | 0 <= i < |r| && Cow in r[i].flags
      ensures r[i].CowCandidate()
    {
      PunchParts(es, lo, hi, r[i]);
    }
  }

  lemma FaultKeepsMappings(s: Vm, k: Key, s': Vm)
    requires MappingsOk(s.tasks, s.pt) && FaultNext(s, k, s') && 0 !in s.free
    ensures MappingsOk(s'.tasks, s'.pt)
  {
    hide MapView, Backing, ResidentAt;
  }

  lemma UnmapKeepsMappings(s: Vm, t: TaskId, lo: nat, hi: nat, s': Vm)
    requires MappingsOk(s.tasks, s.pt) && UnmapNext(s, t, lo, hi, s')
    ensures MappingsOk(s'.tasks, s'.pt)
  {
    hide PageAt, Punch;
    forall k | k in s'.pt
      ensures PageAt(s'.tasks, k) == PageAt(s.tasks, k)
    {
      UnmapPages(s, t, lo, hi, s', k);
    }
  }

  lemma MapKeepsMappings(s: Vm, t: TaskId, e: Entry, s': Vm)
    requires MappingsOk(s.tasks, s.pt) && MapNext(s, t, e, s')
    ensures MappingsOk(s'.tasks, s'.pt)
  {
    hide PageAt;
    forall k | k in s'.pt
      ensures PageAt(s'.tasks, k) == PageAt(s.tasks, k)
    {
      MapPages(s, t, e, s', k);
    }
  }

  lemma MappedTask(s: Vm)
    requires MappingsOk(s.tasks, s.pt)
    ensures forall k :: k in s.pt ==> k.0 in s.tasks && PageAt(s.tasks, k).Some? && s.pt[k].phys != 0
  {
    hide MapView;
  }

  /** Who is behind a page-table entry after a fork: itself, or the parent's entry at the same address. */
  lemma ForkOrigin(s: Vm, t: TaskId, c: TaskId, s': Vm, k: Key)
    requires MappingsOk(s.tasks, s.pt) && ForkNext(s, t, c, s') && k in s'.pt
    ensures var j := if k.0 == c then (t, k.1) else k;
            && j in s.pt && s'.pt[k].phys == s.pt[j].phys
            && (if k.0 == c then s'.pt[k].writable == (!CowAt(s.tasks, j) && WritableAt(s.tasks, j))
                else s'.pt[k].writable == (s.pt[k].writable && !(k.0 == t && CowAt(s.tasks, k))))
  {
    hide PageAt, CowMarked;
    MappedTask(s);
    if k.0 == c {
      assert (t, k.1) in s.pt;
      assert s'.pt[(c, (t, k.1).1)] == s'.pt[k];
    }
  }

  lemma ForkKeepsMappings(s: Vm, t: TaskId, c: TaskId, s': Vm)
    requires MappingsOk(s.tasks, s.pt) && ForkNext(s, t, c, s')
    ensures MappingsOk(s'.tasks, s'.pt)
  {
    hide PageAt, CowMarked, ForkNext;
    forall k | k in s'.pt
      ensures && k.1 % PAGE == 0 && s'.pt[k].phys != 0 && PageAt(s'.tasks, k).Some?
              && (s'.pt[k].writable ==> PageAt(s'.tasks, k).value.prot.write)
              && (Cow !in PageAt(s'.tasks, k).value.flags ==> s'.pt[k].writable == PageAt(s'.tasks, k).value.prot.write)
    {
      ForkPages(s, t, c, s', k);
      ForkOrigin(s, t, c, s', k);
    }
  }

  lemma MappingsKept(s: Vm, step: Step, s': Vm)
    requires MappingsOk(s.tasks, s.pt) && Effect(s, step, s') && 0 !in s.free
    ensures MappingsOk(s'.tasks, s'.pt)
  {
    hide FaultNext, UnmapNext, MapNext, ForkNext, PageAt;
    match step
    case Fault(t, va) => FaultKeepsMappings(s, (t, va), s');
    case Unmap(t, lo, hi) => UnmapKeepsMappings(s, t, lo, hi, s');
    case Map(t, e) => MapKeepsMappings(s, t, e, s');
    case Fork(t, c) => ForkKeepsMappings(s, t, c, s');
    case Exit(t) => ExitPages(s, t, s');
    case Store(_, _, _, _) =>
    case _ => SamePages(s, step, s');
  }

  lemma ExitPages(s: Vm, t: TaskId, s': Vm)
    requires ExitNext(s, t, s')
    ensures forall k: Key :: PageAt(s'.tasks, k) == if k.0 == t then None else PageAt(s.tasks, k)
  {
    hide MapView;
  }

  // ------------------------------------------------------- shared mappings agree

  /** Objects that stay keep their pages, so what backs an address is the same page. */
  lemma ResidentKept(tasks: map<TaskId, Task>, tasks': map<TaskId, Task>, objects: map<ObjId, VmObject>, objects': map<ObjId, VmObject>, k: Key)
    requires forall o :: o in objects' && o in objects ==> objects'[o].resident == objects[o].resident
    requires PageAt(tasks', k).Some? && PageAt(tasks, k).Some?
    requires PageAt(tasks', k).value.obj == PageAt(tasks, k).value.obj && PageAt(tasks', k).value.at == PageAt(tasks, k).value.at
    requires PageAt(tasks, k).value.obj in objects
    ensures Backing(tasks', objects', k).Some? ==>
              Backing(tasks, objects, k).Some? && ResidentAt(tasks', objects', k) == ResidentAt(tasks, objects, k)
  {
    hide PageAt;
  }

  lemma MappedObject(s: Vm, k: Key)
    requires ObjectsOk(s.tasks, s.objects, s.outside) && PageAt(s.tasks, k).Some?
    ensures PageAt(s.tasks, k).value.obj != 0 ==> PageAt(s.tasks, k).value.obj in s.objects
  {
    hide EntryRefs;
    LookupCovers(s.tasks[k.0].entries, k.1);
  }

  lemma CowKeepsCoherence(s: Vm, k: Key, p: Phys, s': Vm)
    requires TasksOk(s.tasks) && Coherent(s.tasks, s.pt, s.objects) && CowCopied(s, k, p, s')
    ensures Coherent(s'.tasks, s'.pt, s'.objects)
  {
    hide PageAt, TasksOk, Backing, ResidentAt;
    CowIsPrivate(s, k);
  }

  lemma FreshKeepsCoherence(s: Vm, k: Key, p: Phys, s': Vm)
    requires MappingsOk(s.tasks, s.pt) && Coherent(s.tasks, s.pt, s.objects) && FreshMapped(s, k, p, s')
    ensures Coherent(s'.tasks, s'.pt, s'.objects)
  {
    hide PageAt, MappingsOk;
    MappedTask(s);
    forall j | j in s'.pt && SharedAt(s'.tasks, j) && Backing(s'.tasks, s'.objects, j).Some?
      ensures s'.pt[j].phys == ResidentAt(s'.tasks, s'.objects, j)
    {
      assert Backing(s.tasks, s.objects, j) == Backing(s'.tasks, s'.objects, j);
    }
  }

  lemma FaultKeepsCoherence(s: Vm, k: Key, s': Vm)
    requires TasksOk(s.tasks) && MappingsOk(s.tasks, s.pt) && Coherent(s.tasks, s.pt, s.objects)
    requires FaultNext(s, k, s')
    ensures Coherent(s'.tasks, s'.pt, s'.objects)
  {
    hide CowCopied, FreshMapped, TasksOk, MappingsOk, PageAt, Backing, ResidentAt;
    if p :| CowCopied(s, k, p, s') {
      CowKeepsCoherence(s, k, p, s');
    } else if p :| FreshMapped(s, k, p, s') {
      FreshKeepsCoherence(s, k, p, s');
    }
  }

  lemma UnmapKeepsCoherence(s: Vm, t: TaskId, lo: nat, hi: nat, s': Vm)
    requires ObjectsOk(s.tasks, s.objects, s.outside) && Coherent(s.tasks, s.pt, s.objects) && UnmapNext(s, t, lo, hi, s')
    requires ObjectsOk(s'.tasks, s'.objects, s'.outside)
    ensures Coherent(s'.tasks, s'.pt, s'.objects)
  {
    hide PageAt, Punch, ObjectsOk, ResidentAt, Backing;
    forall k | k in s'.pt && SharedAt(s'.tasks, k) && Backing(s'.tasks, s'.objects, k).Some?
      ensures s'.pt[k].phys == ResidentAt(s'.tasks, s'.objects, k)
    {
      UnmapPages(s, t, lo, hi, s', k);
      BackedObject(s', k);
      ResidentKept(s.tasks, s'.tasks, s.objects, s'.objects, k);
    }
  }

  lemma BackedObject(s: Vm, k: Key)
    requires Backing(s.tasks, s.objects, k).Some?
    ensures PageAt(s.tasks, k).Some? && PageAt(s.tasks, k).value.obj in s.objects
  {
    hide PageAt;
  }

  lemma MapKeepsCoherence(s: Vm, t: TaskId, e: Entry, s': Vm)
    requires MappingsOk(s.tasks, s.pt) && ObjectsOk(s.tasks, s.objects, s.outside) && ObjectsOk(s'.tasks, s'.objects, s'.outside)
    requires Coherent(s.tasks, s.pt, s.objects) && MapNext(s, t, e, s')
    ensures Coherent(s'.tasks, s'.pt, s'.objects)
  {
    hide PageAt, ObjectsOk, ResidentAt, Backing, MappingsOk;
    MappedTask(s);
    forall k | k in s'.pt && SharedAt(s'.tasks, k) && Backing(s'.tasks, s'.objects, k).Some?
      ensures s'.pt[k].phys == ResidentAt(s'.tasks, s'.objects, k)
    {
      MapPages(s, t, e, s', k);
      BackedObject(s', k);
      NoNullObject(s', k);
      MappedObject(s, k);
      ResidentKept(s.tasks, s'.tasks, s.objects, s'.objects, k);
    }
  }

  lemma NoNullObject(s: Vm, k: Key)
    requires ObjectsOk(s.tasks, s.objects, s.outside) && PageAt(s.tasks, k).Some? && PageAt(s.tasks, k).value.obj in s.objects
    ensures PageAt(s.tasks, k).value.obj != 0
  {
    hide PageAt, EntryRefs;
  }

  lemma ForkKeepsCoherence(s: Vm, t: TaskId, c: TaskId, s': Vm)
    requires MappingsOk(s.tasks, s.pt) && Coherent(s.tasks, s.pt, s.objects) && ForkNext(s, t, c, s')
    ensures Coherent(s'.tasks, s'.pt, s'.objects)
  {
    hide PageAt, CowMarked, MappingsOk;
    forall k | k in s'.pt && SharedAt(s'.tasks, k) && Backing(s'.tasks, s'.objects, k).Some?
      ensures s'.pt[k].phys == ResidentAt(s'.tasks, s'.objects, k)
    {
      ForkPages(s, t, c, s', k);
      ForkOrigin(s, t, c, s', k);
      var j := if k.0 == c then (t, k.1) else k;
      assert SharedAt(s.tasks, j) && Backing(s.tasks, s.objects, j) == Backing(s'.tasks, s'.objects, k);
    }
  }

  lemma ExitKeepsCoherence(s: Vm, t: TaskId, s': Vm)
    requires Coherent(s.tasks, s.pt, s.objects) && ExitNext(s, t, s')
    ensures Coherent(s'.tasks, s'.pt, s'.objects)
  {
    hide PageAt, Backing, ResidentAt;
    ExitPages(s, t, s');
    forall k | k in s'.pt && SharedAt(s'.tasks, k) && Backing(s'.tasks, s'.objects, k).Some?
      ensures s'.pt[k].phys == ResidentAt(s'.tasks, s'.objects, k)
    {
      BackedObject(s', k);
      ResidentKept(s.tasks, s'.tasks, s.objects, s'.objects, k);
    }
  }

  /** With the same pages in place, only objects that no entry names came or went. */
  lemma SamePagesCoherence(s: Vm, s': Vm)
    requires ObjectsOk(s.tasks, s.objects, s.outside) && Coherent(s.tasks, s.pt, s.objects) && 0 !in s'.objects
    requires forall k: Key :: PageAt(s'.tasks, k) == PageAt(s.tasks, k)
    requires forall k :: k in s'.pt ==> k in s.pt && s'.pt[k] == s.pt[k]
    requires forall o :: o in s'.objects && o in s.objects ==> s'.objects[o].resident == s.objects[o].resident
    ensures Coherent(s'.tasks, s'.pt, s'.objects)
  {
    hide PageAt, ObjectsOk, ResidentAt, Backing;
    forall k | k in s'.pt && SharedAt(s'.tasks, k) && Backing(s'.tasks, s'.objects, k).Some?
      ensures s'.pt[k].phys == ResidentAt(s'.tasks, s'.objects, k)
    {
      BackedObject(s', k);
      MappedObject(s, k);
      ResidentKept(s.tasks, s'.tasks, s.objects, s'.objects, k);
    }
  }

  lemma CoherenceKept(s: Vm, step: Step, s': Vm)
    requires TasksOk(s.tasks) && MappingsOk(s.tasks, s.pt) && Coherent(s.tasks, s.pt, s.objects)
    requires ObjectsOk(s.tasks, s.objects, s.outside) && ObjectsOk(s'.tasks, s'.objects, s'.outside)
    requires Effect(s, step, s')
    ensures Coherent(s'.tasks, s'.pt, s'.objects)
  {
    hide FaultNext, UnmapNext, MapNext, ForkNext, ExitNext, PageAt, Backing, ResidentAt, TasksOk, MappingsOk, ObjectsOk;
    match step
    case Fault(t, va) => FaultKeepsCoherence(s, (t, va), s');
    case Unmap(t, lo, hi) => UnmapKeepsCoherence(s, t, lo, hi, s');
    case Map(t, e) => MapKeepsCoherence(s, t, e, s');
    case Fork(t, c) => ForkKeepsCoherence(s, t, c, s');
    case Exit(t) => ExitKeepsCoherence(s, t, s');
    case Store(_, _, _, _) =>
    case _ =>
      SamePages(s, step, s');
      NotNull(s');
      SamePagesCoherence(s, s');
  }

  lemma NotNull(s: Vm)
    requires ObjectsOk(s.tasks, s.objects, s.outside)
    ensures 0 !in s.objects
  {
    hide EntryRefs;
  }

  /** Every step that leaves the counters right keeps the rest of the invariant too. */
  lemma StepKeepsInv(s: Vm, step: Step, s': Vm, frames: set<Phys>)
    requires Inv(s, frames) && Next(s, step, s', frames)
    ensures Inv(s', frames)
  {
    hide TasksOk, MappingsOk, CountsOk, ObjectsOk, Coherent, Effect, Count;
    TasksKept(s, step, s');
    MappingsKept(s, step, s');
    CoherenceKept(s, step, s');
    MemKept(s, step, s', frames);
  }

  lemma MemKept(s: Vm, step: Step, s': Vm, frames: set<Phys>)
    requires MappingsOk(s.tasks, s.pt) && CountsOk(s.refs, s.pt, s.objects) && FramesOk(s.refs, s.free, frames)
    requires MemOk(s.mem, frames) && Effect(s, step, s')
    ensures MemOk(s'.mem, frames)
  {
    hide PageAt, Backing, ResidentAt, MappingsOk, Count, CountsOk, Punch;
    MappedTask(s);
    match step
    case Fault(t, va) => MappedFrames(s, frames);
    case _ =>
  }

  /** Whatever is mapped is one of the managed frames, and not a free one. */
  lemma MappedFrames(s: Vm, frames: set<Phys>)
    requires CountsOk(s.refs, s.pt, s.objects) && FramesOk(s.refs, s.free, frames) && MappingsOk(s.tasks, s.pt)
    ensures forall k :: k in s.pt ==> s.pt[k].phys in frames && s.pt[k].phys !in s.free
  {
    hide Count, Slots, PageAt;
    forall k | k in s.pt
      ensures s.pt[k].phys in frames && s.pt[k].phys !in s.free
    {
      assert k in Maps(s.pt, s.pt[k].phys);
    }
  }

  lemma CowIsPrivate(s: Vm, k: Key)
    requires TasksOk(s.tasks) && PageAt(s.tasks, k).Some? && Cow in PageAt(s.tasks, k).value.flags
    ensures Private in PageAt(s.tasks, k).value.flags && PageAt(s.tasks, k).value.prot.write
  {
    hide EntriesOk;
    LookupCovers(s.tasks[k.0].entries, k.1);
  }
}
