/**
 Fork isolation. A private page that only its owner can write stays its own
 through any later run: forks, faults and stores of other tasks included.
 */
module VmIsolation {
  import opened Common
  import opened VmState
  import opened VmCounts
  import opened VmEntries
  import opened VmSteps
  import opened VmRuns

  /** What task k.0 reads in the page at k.1. */
  function PageOf(s: Vm, k: Key): Page
    requires k in s.pt && s.pt[k].phys in s.mem
  {
    s.mem[s.pt[k].phys]
  }

  /**
   No one but k can ever write the page k is mapped to: all other mappings of
   it are read-only, no page yet to be faulted in would be mapped to it
   writable, and no object that holds it can be mapped anew.
   */
  ghost predicate Isolated(s: Vm, k: Key) {
    && k in s.pt && CowAt(s.tasks, k)
    && (forall j :: j in s.pt && j != k && s.pt[j].phys == s.pt[k].phys ==> !s.pt[j].writable)
    && (forall j: Key :: j !in s.pt && j.1 % PAGE == 0 && ResidentAt(s.tasks, s.objects, j) == s.pt[k].phys ==>
          !WritableAt(s.tasks, j))
    && (forall o, i :: o in s.objects && 0 <= i < |s.objects[o].resident| && s.objects[o].resident[i] == s.pt[k].phys ==>
          o in s.outside && s.outside[o] == 0)
  }

  /** The step gives up the mapping of k. */
  predicate Ends(step: Step, k: Key) {
    || ((step.Unmap? || step.RefusedUnmap?) && step.t == k.0 && step.lo <= k.1 < step.hi)
    || (step.Exit? && step.t == k.0)
  }

  /**
   The step is a refused unmapping of someone else's mapping of k's page,
   through an entry that lets it be faulted in again, and writable.
   */
  ghost predicate Exposes(s: Vm, step: Step, k: Key) {
    && step.RefusedUnmap? && k in s.pt
    && exists j :: j in s.pt && j.0 == step.t && step.lo <= j.1 < step.hi && WritableAt(s.tasks, j)
                   && ResidentAt(s.tasks, s.objects, j) == s.pt[k].phys
  }

  /** The step leaves k its mapping, and no one else a way to its page. */
  ghost predicate Spares(s: Vm, step: Step, k: Key) { !Ends(step, k) && !Exposes(s, step, k) }

  /** What the page of k reads as after the step: only k's own stores show. */
  function After(step: Step, k: Key, page: Page): Page {
    if step.Store? && (step.t, step.va) == k && step.off < |page| then PutByte(page, step.off, step.b) else page
  }

  lemma FreshIsUnheld(s: Vm, p: Phys, frames: set<Phys>)
    requires CountsOk(s.refs, s.pt, s.objects) && FramesOk(s.refs, s.free, frames) && p in s.free
    ensures p != 0 && (forall k :: k in s.pt ==> s.pt[k].phys != p)
    ensures forall o, i :: o in s.objects && 0 <= i < |s.objects[o].resident| ==> s.objects[o].resident[i] != p
  {
    hide CountsOk, Count;
    UncountedIsUnheld(s.refs, s.pt, s.objects, p);
  }

  lemma ResidentIsASlot(tasks: map<TaskId, Task>, objects: map<ObjId, VmObject>, j: Key)
    requires ResidentAt(tasks, objects, j) != 0
    ensures exists o: ObjId, i: nat :: o in objects && 0 <= i < |objects[o].resident| && objects[o].resident[i] == ResidentAt(tasks, objects, j)
                           && Backing(tasks, objects, j) == Some((o, i))
  {
    hide PageAt;
    var (o, i) := Backing(tasks, objects, j).value;
    assert objects[o].resident[i] == ResidentAt(tasks, objects, j);
  }

  /** A copy-on-write fault of k itself: the copy is k's alone, whoever could write the page before. */
  lemma CowOfOwner(s: Vm, k: Key, p: Phys, s': Vm, frames: set<Phys>)
    requires Inv(s, frames) && CowCopied(s, k, p, s')
    ensures Isolated(s', k) && s'.pt[k].phys in s'.mem && PageOf(s', k) == s.mem[s.pt[k].phys]
  {
    hide TasksOk, MappingsOk, CountsOk, FramesOk, ObjectsOk, Coherent, MemOk, PageAt;
    FreshIsUnheld(s, p, frames);
    CowIsPrivate(s, k);
    forall j: Key | ResidentAt(s'.tasks, s'.objects, j) == p
      ensures false
    {
      ResidentIsASlot(s'.tasks, s'.objects, j);
    }
  }

  lemma CowOfOther(s: Vm, j: Key, p: Phys, s': Vm, k: Key, frames: set<Phys>)
    requires Inv(s, frames) && Isolated(s, k) && CowCopied(s, j, p, s') && j != k
    ensures Isolated(s', k) && s'.pt[k] == s.pt[k] && s.pt[k].phys in s.mem && s'.pt[k].phys in s'.mem && PageOf(s', k) == PageOf(s, k)
  {
    hide TasksOk, CountsOk, FramesOk, ObjectsOk, Coherent, PageAt, MappingsOk;
    FreshIsUnheld(s, p, frames);
    MappedFrames(s, frames);
  }

  lemma ResidentOfOther(s: Vm, j: Key, s': Vm, k: Key, frames: set<Phys>)
    requires Inv(s, frames) && Isolated(s, k) && ResidentMapped(s, j, s') && j != k
    ensures Isolated(s', k) && s'.pt[k] == s.pt[k] && s'.mem == s.mem
  {
    hide TasksOk, CountsOk, FramesOk, ObjectsOk, Coherent, PageAt, MappingsOk, MemOk;
  }

  lemma FreshOfOther(s: Vm, j: Key, p: Phys, s': Vm, k: Key, frames: set<Phys>)
    requires Inv(s, frames) && Isolated(s, k) && FreshMapped(s, j, p, s') && j != k
    ensures Isolated(s', k) && s'.pt[k] == s.pt[k] && s.pt[k].phys in s.mem && s'.pt[k].phys in s'.mem && PageOf(s', k) == PageOf(s, k)
  {
    hide TasksOk, CountsOk, FramesOk, ObjectsOk, Coherent, PageAt, MappingsOk;
    FreshIsUnheld(s, p, frames);
    MappedFrames(s, frames);
    forall i: Key | ResidentAt(s'.tasks, s'.objects, i) == s.pt[k].phys
      ensures ResidentAt(s.tasks, s.objects, i) == s.pt[k].phys
    {
      assert Backing(s'.tasks, s'.objects, i) == Backing(s.tasks, s.objects, i);
    }
  }

  lemma FaultKeepsIsolation(s: Vm, j: Key, s': Vm, k: Key, frames: set<Phys>)
    requires Inv(s, frames) && Isolated(s, k) && FaultNext(s, j, s')
    ensures Isolated(s', k) && s.pt[k].phys in s.mem && s'.pt[k].phys in s'.mem && PageOf(s', k) == PageOf(s, k)
  {
    hide CowCopied, FreshMapped, ResidentMapped, TasksOk, CountsOk, FramesOk, ObjectsOk, Coherent, MappingsOk, Isolated;
    MappedFrames(s, frames);
    IsMapped(s, k);
    if s' == s {
    } else if p :| CowCopied(s, j, p, s') {
      if j == k {
        CowOfOwner(s, k, p, s', frames);
      } else {
        CowOfOther(s, j, p, s', k, frames);
      }
    } else if ResidentMapped(s, j, s') {
      ResidentMisses(s, j, s');
      ResidentOfOther(s, j, s', k, frames);
    } else {
      var p :| FreshMapped(s, j, p, s');
      FreshMisses(s, j, p, s');
      FreshOfOther(s, j, p, s', k, frames);
    }
  }

  lemma IsMapped(s: Vm, k: Key)
    requires Isolated(s, k)
    ensures k in s.pt
  {
  }

  lemma ResidentMisses(s: Vm, j: Key, s': Vm)
    requires ResidentMapped(s, j, s')
    ensures j !in s.pt
  {
  }

  lemma FreshMisses(s: Vm, j: Key, p: Phys, s': Vm)
    requires FreshMapped(s, j, p, s')
    ensures j !in s.pt
  {
  }

  // --------------------------------------------------------- the other steps

  /** Steps that only take mappings, pages and objects away cannot make anyone else a writer. */
  lemma ShrinkKeepsIsolation(s: Vm, s': Vm, k: Key)
    requires Isolated(s, k) && k in s'.pt && s.pt[k].phys != 0
    requires forall j :: j in s'.pt ==> j in s.pt && s'.pt[j] == s.pt[j]
    requires forall j: Key :: PageAt(s'.tasks, j) == PageAt(s.tasks, j) || (PageAt(s'.tasks, j) == None && j !in s'.pt)
    requires forall j: Key :: j in s.pt && j !in s'.pt ==> PageAt(s'.tasks, j) == None
    requires ObjectsKept(s, s')
    ensures Isolated(s', k)
  {
    hide PageAt;
    forall j: Key | j !in s'.pt && j.1 % PAGE == 0 && ResidentAt(s'.tasks, s'.objects, j) == s.pt[k].phys
      ensures !WritableAt(s'.tasks, j)
    {
      if PageAt(s'.tasks, j).Some? {
        assert ResidentAt(s'.tasks, s'.objects, j) == 0 || ResidentAt(s'.tasks, s'.objects, j) == ResidentAt(s.tasks, s.objects, j);
      }
    }
  }

  lemma UnmapKeepsIsolation(s: Vm, t: TaskId, lo: nat, hi: nat, s': Vm, k: Key)
    requires MappingsOk(s.tasks, s.pt) && Isolated(s, k) && UnmapNext(s, t, lo, hi, s') && !(k.0 == t && lo <= k.1 < hi)
    ensures Isolated(s', k) && s'.pt[k] == s.pt[k] && s'.mem == s.mem
  {
    hide PageAt, Punch, ResidentAt;
    forall j: Key
      ensures PageAt(s'.tasks, j) == if j.0 == t && lo <= j.1 < hi then None else PageAt(s.tasks, j)
    {
      UnmapPages(s, t, lo, hi, s', j);
    }
    ShrinkKeepsIsolation(s, s', k);
  }

  lemma ExitKeepsIsolation(s: Vm, t: TaskId, s': Vm, k: Key)
    requires MappingsOk(s.tasks, s.pt) && Isolated(s, k) && ExitNext(s, t, s') && k.0 != t
    ensures Isolated(s', k) && s'.pt[k] == s.pt[k] && s'.mem == s.mem
  {
    hide PageAt, ResidentAt;
    ExitPages(s, t, s');
    ShrinkKeepsIsolation(s, s', k);
  }

  lemma MapKeepsIsolation(s: Vm, t: TaskId, e: Entry, s': Vm, k: Key, frames: set<Phys>)
    requires Inv(s, frames) && Isolated(s, k) && MapNext(s, t, e, s')
    ensures Isolated(s', k) && s'.pt[k] == s.pt[k] && s'.mem == s.mem
  {
    hide PageAt, TasksOk, CountsOk, FramesOk, ObjectsOk, Coherent, MappingsOk, MemOk;
    MappedTask(s);
    forall j: Key
      ensures PageAt(s'.tasks, j) ==
              if PageAt(s.tasks, j).Some? then PageAt(s.tasks, j)
              else if j.0 == t && e.Covers(j.1) then Some(ViewOf(e, j.1)) else None
    {
      MapPages(s, t, e, s', j);
    }
    forall j: Key | j !in s'.pt && j.1 % PAGE == 0 && ResidentAt(s'.tasks, s'.objects, j) == s.pt[k].phys
      ensures !WritableAt(s'.tasks, j)
    {
      MapResident(s, t, e, s', k, j);
    }
  }

  /** A new mapping cannot reach an isolated page: no object that holds it is mapped anew. */
  lemma MapResident(s: Vm, t: TaskId, e: Entry, s': Vm, k: Key, j: Key)
    requires Isolated(s, k) && MapNext(s, t, e, s') && s.pt[k].phys != 0
    requires ObjectsOk(s.tasks, s.objects, s.outside)
    requires ResidentAt(s'.tasks, s'.objects, j) == s.pt[k].phys
    requires PageAt(s'.tasks, j) ==
             if PageAt(s.tasks, j).Some? then PageAt(s.tasks, j)
             else if j.0 == t && e.Covers(j.1) then Some(ViewOf(e, j.1)) else None
    ensures PageAt(s'.tasks, j) == PageAt(s.tasks, j) && ResidentAt(s.tasks, s.objects, j) == s.pt[k].phys
  {
    hide PageAt, ObjectsOk;
    ResidentIsASlot(s'.tasks, s'.objects, j);
    if PageAt(s.tasks, j).Some? {
      MappedObject(s, j);
      NotNull(s);
    }
  }

  /** The page-table entry that k's page comes from: its own, or for a fresh child its parent's. */
  function Origin(t: TaskId, c: TaskId, k: Key): Key { if k.0 == c then (t, k.1) else k }

  lemma ForkKeepsIsolation(s: Vm, t: TaskId, c: TaskId, s': Vm, k: Key, frames: set<Phys>)
    requires Inv(s, frames) && ForkNext(s, t, c, s') && Isolated(s, Origin(t, c, k))
    ensures Isolated(s', k) && s'.pt[k].phys == s.pt[Origin(t, c, k)].phys && s'.mem == s.mem
  {
    hide PageAt, TasksOk, CountsOk, FramesOk, ObjectsOk, Coherent, MappingsOk, MemOk, CowMarked, ResidentAt;
    var o := Origin(t, c, k);
    MappedTask(s);
    ForkPages(s, t, c, s', k);
    assert k in s'.pt;
    ForkOrigin(s, t, c, s', k);
    forall j | j in s'.pt && j != k && s'.pt[j].phys == s.pt[o].phys
      ensures !s'.pt[j].writable
    {
      ForkOthers(s, t, c, s', o, k, j, frames);
    }
    forall j: Key | j !in s'.pt && j.1 % PAGE == 0 && ResidentAt(s'.tasks, s'.objects, j) == s.pt[o].phys
      ensures !WritableAt(s'.tasks, j)
    {
      ForkResident(s, t, c, s', j);
    }
  }

  lemma ForkResident(s: Vm, t: TaskId, c: TaskId, s': Vm, j: Key)
    requires ForkNext(s, t, c, s')
    ensures ResidentAt(s'.tasks, s'.objects, j) == ResidentAt(s.tasks, s.objects, if j.0 == c then (t, j.1) else j)
    ensures WritableAt(s'.tasks, j) == WritableAt(s.tasks, if j.0 == c then (t, j.1) else j)
  {
    hide PageAt, CowMarked;
    ForkPages(s, t, c, s', j);
  }

  /** Mappings of k's page after a fork are read-only because they were, or because the fork made them so. */
  lemma ForkOthers(s: Vm, t: TaskId, c: TaskId, s': Vm, o: Key, k: Key, j: Key, frames: set<Phys>)
    requires Inv(s, frames) && ForkNext(s, t, c, s') && o == Origin(t, c, k) && Isolated(s, o)
    requires j in s'.pt && j != k && s'.pt[j].phys == s.pt[o].phys
    ensures !s'.pt[j].writable
  {
    hide PageAt, TasksOk, CountsOk, FramesOk, ObjectsOk, Coherent, MappingsOk, MemOk, CowMarked, ResidentAt, ForkNext;
    ForkOrigin(s, t, c, s', j);
    var b := if j.0 == c then (t, j.1) else j;
    if b != o && j.0 == c {
      PlainMapping(s, b);
    } else if b == o {
      ForkSibling(t, c, k, j);
    }
  }

  lemma ForkSibling(t: TaskId, c: TaskId, k: Key, j: Key)
    requires j != k && Origin(t, c, j) == Origin(t, c, k)
    ensures Origin(t, c, k).0 == t
  {
  }

  lemma PlainMapping(s: Vm, b: Key)
    requires TasksOk(s.tasks) && MappingsOk(s.tasks, s.pt) && b in s.pt && !s.pt[b].writable
    ensures CowAt(s.tasks, b) || !WritableAt(s.tasks, b)
  {
    hide PageAt;
    if PageAt(s.tasks, b).Some? && Cow in PageAt(s.tasks, b).value.flags {
      CowIsPrivate(s, b);
    }
  }

  lemma StoreKeepsIsolation(s: Vm, j: Key, off: nat, b: byte, s': Vm, k: Key)
    requires Isolated(s, k) && StoreNext(s, j, off, b, s') && s.pt[k].phys in s.mem
    ensures Isolated(s', k) && s'.pt[k].phys in s'.mem
    ensures PageOf(s', k) == After(Store(j.0, j.1, off, b), k, PageOf(s, k))
  {
    hide PageAt, ResidentAt;
  }

  /** A refused unmapping: k stays isolated exactly if the step spares it. */
  lemma RefusedExactly(s: Vm, t: TaskId, lo: nat, hi: nat, s': Vm, k: Key)
    requires MappingsOk(s.tasks, s.pt) && Isolated(s, k) && RefusedNext(s, t, lo, hi, s')
    ensures Isolated(s', k) <==> Spares(s, RefusedUnmap(t, lo, hi), k)
    ensures Isolated(s', k) ==> s'.pt[k] == s.pt[k] && s'.mem == s.mem
  {
    hide PageAt, SplitsAny, ResidentAt;
    var step := RefusedUnmap(t, lo, hi);
    SamePages(s, step, s');
    SameResident(s, s');
    if Exposes(s, step, k) && !Ends(step, k) {
      var j :| j in s.pt && j.0 == t && lo <= j.1 < hi && WritableAt(s.tasks, j) && ResidentAt(s.tasks, s.objects, j) == s.pt[k].phys;
      assert j !in s'.pt && j.1 % PAGE == 0 && WritableAt(s'.tasks, j);
    }
  }

  lemma SameResident(s: Vm, s': Vm)
    requires s'.objects == s.objects && forall k: Key :: PageAt(s'.tasks, k) == PageAt(s.tasks, k)
    ensures forall k: Key :: ResidentAt(s'.tasks, s'.objects, k) == ResidentAt(s.tasks, s.objects, k)
  {
    hide PageAt;
  }

  /** Empty maps, moved breaks, and objects coming and going outside the maps. */
  lemma OtherKeepsIsolation(s: Vm, step: Step, s': Vm, k: Key)
    requires MappingsOk(s.tasks, s.pt) && ObjectsOk(s.tasks, s.objects, s.outside) && ObjectsOk(s'.tasks, s'.objects, s'.outside)
    requires Isolated(s, k) && Effect(s, step, s')
    requires step.NewTask? || step.Adjust? || step.CreateObject? || step.DropHandle?
    ensures Isolated(s', k) && s'.pt == s.pt && s'.mem == s.mem
  {
    hide PageAt, ObjectsOk, ResidentAt;
    SamePages(s, step, s');
    MappedTask(s);
    NotNull(s');
    forall j: Key | ResidentAt(s'.tasks, s'.objects, j) == s.pt[k].phys
      ensures ResidentAt(s.tasks, s.objects, j) == s.pt[k].phys
    {
      StillResident(s, s', j);
    }
  }

  lemma StillResident(s: Vm, s': Vm, j: Key)
    requires ObjectsOk(s.tasks, s.objects, s.outside) && 0 !in s'.objects && PageAt(s'.tasks, j) == PageAt(s.tasks, j)
    requires forall o :: o in s'.objects && o in s.objects ==> s'.objects[o].resident == s.objects[o].resident
    requires ResidentAt(s'.tasks, s'.objects, j) != 0
    ensures ResidentAt(s.tasks, s.objects, j) == ResidentAt(s'.tasks, s'.objects, j)
  {
    hide PageAt, ObjectsOk;
    MappedObject(s, j);
  }

  /** One step of anyone: k stays isolated, and its page changes by its own stores only. */
  lemma IsolationStep(s: Vm, step: Step, s': Vm, k: Key, frames: set<Phys>)
    requires Inv(s, frames) && Next(s, step, s', frames) && Isolated(s, k) && Spares(s, step, k)
    ensures Isolated(s', k) && s.pt[k].phys in s.mem && s'.pt[k].phys in s'.mem
    ensures PageOf(s', k) == After(step, k, PageOf(s, k))
  {
    hide TasksOk, CountsOk, FramesOk, ObjectsOk, Coherent, MappingsOk, Isolated, FaultNext, UnmapNext, MapNext, ForkNext, ExitNext, RefusedNext, NewTaskNext, AdjustNext, CreateNext, DropNext, Exposes;
    MappedFrames(s, frames);
    IsMapped(s, k);
    match step
    case Fault(t, va) => FaultKeepsIsolation(s, (t, va), s', k, frames);
    case Store(t, va, off, b) => StoreKeepsIsolation(s, (t, va), off, b, s', k);
    case Unmap(t, lo, hi) => UnmapKeepsIsolation(s, t, lo, hi, s', k);
    case Map(t, e) => MapKeepsIsolation(s, t, e, s', k, frames);
    case Fork(t, c) =>
      ForkIsNew(s, t, c, s', k);
      ForkKeepsIsolation(s, t, c, s', k, frames);
    case Exit(t) => ExitKeepsIsolation(s, t, s', k);
    case RefusedUnmap(t, lo, hi) => RefusedExactly(s, t, lo, hi, s', k);
    case _ => OtherKeepsIsolation(s, step, s', k);
  }

  lemma ForkIsNew(s: Vm, t: TaskId, c: TaskId, s': Vm, k: Key)
    requires MappingsOk(s.tasks, s.pt) && ForkNext(s, t, c, s') && k in s.pt
    ensures Origin(t, c, k) == k
  {
    hide MapView, CowMarked;
  }

  // --------------------------------------------------------------- whole runs

  /** states are what the kernel goes through while taking steps. */
  ghost predicate Run(states: seq<Vm>, steps: seq<Step>, frames: set<Phys>) {
    |states| == |steps| + 1 && forall i :: 0 <= i < |steps| ==> Next(states[i], steps[i], states[i + 1], frames)
  }

  lemma {:induction false} RunKeepsInv(states: seq<Vm>, steps: seq<Step>, frames: set<Phys>, n: nat)
    requires Run(states, steps, frames) && Inv(states[0], frames) && n <= |steps|
    ensures Inv(states[n], frames)
  {
    hide Inv, Next;
    if n > 0 {
      RunKeepsInv(states, steps, frames, n - 1);
      StepKeepsInv(states[n - 1], steps[n - 1], states[n], frames);
    }
  }

  /** What k's own stores make of a page over a run. */
  function Replay(steps: seq<Step>, k: Key, page: Page): Page {
    if steps == [] then page else After(steps[|steps| - 1], k, Replay(steps[..|steps| - 1], k, page))
  }

  lemma {:induction false} IsolationRun(states: seq<Vm>, steps: seq<Step>, frames: set<Phys>, k: Key, n: nat)
    requires Run(states, steps, frames) && Inv(states[0], frames) && Isolated(states[0], k) && n <= |steps|
    requires forall i :: 0 <= i < n ==> Spares(states[i], steps[i], k)
    ensures states[0].pt[k].phys in states[0].mem
    ensures Isolated(states[n], k) && states[n].pt[k].phys in states[n].mem
    ensures PageOf(states[n], k) == Replay(steps[..n], k, PageOf(states[0], k))
  {
    hide Inv, Next, Isolated, Spares, After;
    if n > 0 {
      IsolationRun(states, steps, frames, k, n - 1);
      RunKeepsInv(states, steps, frames, n - 1);
      IsolationStep(states[n - 1], steps[n - 1], states[n], k, frames);
      assert steps[..n][..n - 1] == steps[..n - 1];
    } else {
      InvMapped(states[0], k, frames);
      assert steps[..0] == [];
    }
  }

  lemma InvMapped(s: Vm, k: Key, frames: set<Phys>)
    requires Inv(s, frames) && Isolated(s, k)
    ensures k in s.pt && s.pt[k].phys in s.mem
  {
    hide TasksOk, MappingsOk, CountsOk, FramesOk, ObjectsOk, Coherent, ResidentAt;
    MappedFrames(s, frames);
  }

  /**
   What makes the page at va of task t isolated on both sides of a fork: as
   `Isolated`, but private mappings of t itself may be writable, since the fork
   takes that from them.
   */
  ghost predicate ForkIsolates(s: Vm, t: TaskId, va: nat) {
    && (t, va) in s.pt && CowAt(s.tasks, (t, va))
    && (forall j :: j in s.pt && s.pt[j].phys == s.pt[(t, va)].phys && s.pt[j].writable ==> j.0 == t && CowAt(s.tasks, j))
    && (forall j: Key :: j !in s.pt && j.1 % PAGE == 0 && ResidentAt(s.tasks, s.objects, j) == s.pt[(t, va)].phys ==>
          !WritableAt(s.tasks, j))
    && (forall o, i :: o in s.objects && 0 <= i < |s.objects[o].resident| && s.objects[o].resident[i] == s.pt[(t, va)].phys ==>
          o in s.outside && s.outside[o] == 0)
  }

  /** Any page that is isolated before is among them. */
  lemma IsolatedForks(s: Vm, t: TaskId, va: nat)
    requires Isolated(s, (t, va))
    ensures ForkIsolates(s, t, va)
  {
    hide PageAt, ResidentAt;
  }

  /** Right after a fork the page is isolated, on either side, exactly if that held before it. */
  lemma ForkIsolatesExactly(s: Vm, t: TaskId, c: TaskId, s': Vm, u: TaskId, va: nat, frames: set<Phys>)
    requires Inv(s, frames) && ForkNext(s, t, c, s') && (u == t || u == c)
    ensures Isolated(s', (u, va)) <==> ForkIsolates(s, t, va)
    ensures ForkIsolates(s, t, va) ==> s'.pt[(u, va)].phys == s.pt[(t, va)].phys && s'.mem == s.mem
  {
    hide PageAt, TasksOk, CountsOk, FramesOk, ObjectsOk, Coherent, MappingsOk, MemOk, CowMarked, ResidentAt, Isolated, ForkIsolates;
    if ForkIsolates(s, t, va) {
      ForkMakesIsolated(s, t, c, s', u, va, frames);
    }
    if Isolated(s', (u, va)) {
      IsolatedCameFrom(s, t, c, s', u, va, frames);
    }
  }

  lemma ForkMakesIsolated(s: Vm, t: TaskId, c: TaskId, s': Vm, u: TaskId, va: nat, frames: set<Phys>)
    requires Inv(s, frames) && ForkNext(s, t, c, s') && (u == t || u == c) && ForkIsolates(s, t, va)
    ensures Isolated(s', (u, va)) && s'.pt[(u, va)].phys == s.pt[(t, va)].phys && s'.mem == s.mem
  {
    hide PageAt, TasksOk, CountsOk, FramesOk, ObjectsOk, Coherent, MappingsOk, MemOk, CowMarked, ResidentAt;
    var k, p := (u, va), s.pt[(t, va)].phys;
    MappedTask(s);
    ForkPages(s, t, c, s', k);
    assert k in s'.pt;
    ForkOrigin(s, t, c, s', k);
    forall j | j in s'.pt && s'.pt[j].phys == p
      ensures !s'.pt[j].writable
    {
      ForkWritable(s, t, c, s', j, frames);
    }
    forall j: Key | j !in s'.pt && j.1 % PAGE == 0 && ResidentAt(s'.tasks, s'.objects, j) == p
      ensures !WritableAt(s'.tasks, j)
    {
      ForkResident(s, t, c, s', j);
    }
  }

  /** A mapping after a fork is writable exactly if the one it comes from was and is not private to the parent. */
  lemma ForkWritable(s: Vm, t: TaskId, c: TaskId, s': Vm, j: Key, frames: set<Phys>)
    requires Inv(s, frames) && ForkNext(s, t, c, s') && j in s'.pt
    ensures Origin(t, c, j) in s.pt && s'.pt[j].phys == s.pt[Origin(t, c, j)].phys
    ensures s'.pt[j].writable <==>
              s.pt[Origin(t, c, j)].writable && !(Origin(t, c, j).0 == t && CowAt(s.tasks, Origin(t, c, j)))
  {
    hide PageAt, TasksOk, CountsOk, FramesOk, ObjectsOk, Coherent, MemOk, CowMarked, ResidentAt, ForkNext;
    ForkOrigin(s, t, c, s', j);
    var b := Origin(t, c, j);
    if j.0 == c && !s.pt[b].writable {
      PlainMapping(s, b);
    }
  }

  lemma IsolatedCameFrom(s: Vm, t: TaskId, c: TaskId, s': Vm, u: TaskId, va: nat, frames: set<Phys>)
    requires Inv(s, frames) && ForkNext(s, t, c, s') && (u == t || u == c) && Isolated(s', (u, va))
    ensures ForkIsolates(s, t, va)
  {
    hide PageAt, TasksOk, CountsOk, FramesOk, ObjectsOk, Coherent, MappingsOk, MemOk, CowMarked, ResidentAt;
    var k := (u, va);
    MappedTask(s);
    ChildIsNew(s, t, c, s', frames);
    ForkPages(s, t, c, s', k);
    ForkWritable(s, t, c, s', k, frames);
    Holders(s);
    var p := s.pt[(t, va)].phys;
    forall j | j in s.pt && s.pt[j].phys == p && s.pt[j].writable
      ensures j.0 == t && CowAt(s.tasks, j)
    {
      ForkIsNew(s, t, c, s', j);
      ForkWritable(s, t, c, s', j, frames);
      if j == k {
        ForkWritable(s, t, c, s', (t, va), frames);
      }
    }
    forall j: Key | j !in s.pt && j.1 % PAGE == 0 && ResidentAt(s.tasks, s.objects, j) == p
      ensures !WritableAt(s.tasks, j)
    {
      if j.0 == c {
        NoPageYet(s, j);
      } else {
        ForkResident(s, t, c, s', j);
      }
    }
  }

  lemma Holders(s: Vm)
    requires ObjectsOk(s.tasks, s.objects, s.outside)
    ensures s.outside.Keys == s.objects.Keys
  {
    hide EntryRefs;
  }

  lemma NoPageYet(s: Vm, j: Key)
    requires j.0 !in s.tasks
    ensures !WritableAt(s.tasks, j)
  {
  }

  /**
   After a fork, in any run of any tasks that spares the page on both sides,
   parent and child each read the bytes from before the fork changed by
   their own stores and by nothing else.
   */
  lemma ForkIsolation(s: Vm, states: seq<Vm>, steps: seq<Step>, frames: set<Phys>, t: TaskId, c: TaskId, va: nat, n: nat)
    requires Inv(s, frames) && ForkIsolates(s, t, va) && s.pt[(t, va)].phys in s.mem
    requires Run(states, steps, frames) && Next(s, Fork(t, c), states[0], frames) && n <= |steps|
    requires forall i :: 0 <= i < n ==> Spares(states[i], steps[i], (t, va)) && Spares(states[i], steps[i], (c, va))
    ensures forall u :: u == t || u == c ==>
              && (u, va) in states[n].pt && states[n].pt[(u, va)].phys in states[n].mem
              && PageOf(states[n], (u, va)) == Replay(steps[..n], (u, va), PageOf(s, (t, va)))
  {
    hide Inv, Isolated, Spares, Replay, ForkNext, Counted, ForkIsolates;
    ForkIsMapped(s, t, va);
    StepKeepsInv(s, Fork(t, c), states[0], frames);
    forall u | u == t || u == c
      ensures && (u, va) in states[n].pt && states[n].pt[(u, va)].phys in states[n].mem
              && PageOf(states[n], (u, va)) == Replay(steps[..n], (u, va), PageOf(s, (t, va)))
    {
      ChildIsNew(s, t, c, states[0], frames);
      ForkIsolatesExactly(s, t, c, states[0], u, va, frames);
      IsolationRun(states, steps, frames, (u, va), n);
      InvMapped(states[0], (u, va), frames);
      IsMapped(states[n], (u, va));
    }
  }

  /**
   Whatever held before: once one side has taken its own copy, in every later
   state it reads the bytes it copied, changed by its own stores alone.
   */
  lemma CopiedSideIsIsolated(states: seq<Vm>, steps: seq<Step>, frames: set<Phys>, k: Key, i: nat, p: Phys, n: nat)
    requires Run(states, steps, frames) && Inv(states[0], frames) && i < n <= |steps|
    requires CowCopied(states[i], k, p, states[i + 1])
    requires forall m :: i < m < n ==> Spares(states[m], steps[m], k)
    ensures Isolated(states[n], k) && states[n].pt[k].phys in states[n].mem
    ensures PageOf(states[n], k) == Replay(steps[i + 1..n], k, PageOf(states[i], k))
  {
    hide Inv, Next, Isolated, Spares, After, Replay;
    RunKeepsInv(states, steps, frames, i);
    RunKeepsInv(states, steps, frames, i + 1);
    CowOfOwner(states[i], k, p, states[i + 1], frames);
    var states', steps' := states[i + 1..], steps[i + 1..];
    IsolationRun(states', steps', frames, k, n - i - 1);
    assert steps'[..n - i - 1] == steps[i + 1..n];
  }

  lemma ForkIsMapped(s: Vm, t: TaskId, va: nat)
    requires ForkIsolates(s, t, va)
    ensures (t, va) in s.pt
  {
  }

  lemma ChildIsNew(s: Vm, t: TaskId, c: TaskId, s': Vm, frames: set<Phys>)
    requires ForkNext(s, t, c, s')
    ensures t != c
  {
    hide CowMarked;
  }

  // --------------------------------------------- where isolation begins and ends

  /**
   A private writable page that was just faulted in fresh is isolated, unless
   its object is held outside or another address is backed by the same page.
   */
  lemma FreshPageIsIsolated(s: Vm, k: Key, p: Phys, s': Vm, frames: set<Phys>)
    requires Inv(s, frames) && FreshMapped(s, k, p, s') && CowAt(s.tasks, k)
    requires Backing(s.tasks, s.objects, k).Some? ==>
               var o := Backing(s.tasks, s.objects, k).value.0;
               && o in s.outside && s.outside[o] == 0
               && forall j: Key :: j != k ==> Backing(s.tasks, s.objects, j) != Backing(s.tasks, s.objects, k)
    ensures Isolated(s', k)
  {
    hide TasksOk, CountsOk, FramesOk, ObjectsOk, Coherent, PageAt, MappingsOk, MemOk;
    FreshIsUnheld(s, p, frames);
    forall j: Key | ResidentAt(s'.tasks, s'.objects, j) == p
      ensures j == k
    {
      assert Backing(s'.tasks, s'.objects, j) == Backing(s.tasks, s.objects, j);
    }
  }

  /**
   A private page that is not resident when its task forks is not isolated:
   the first side to touch it hands it to the shared object, the other side
   maps that same page writable, and sees the first side's stores.
   */
  lemma NonResidentPageIsShared(s: Vm, t: TaskId, c: TaskId, va: nat, s1: Vm, p: Phys, s2: Vm, s3: Vm, off: nat, b: byte, s4: Vm)
    requires (t, va) !in s.pt && (c, va) !in s.pt && CowAt(s.tasks, (t, va)) && Backing(s.tasks, s.objects, (t, va)).Some?
    requires ForkNext(s, t, c, s1) && 0 !in s1.free
    requires FreshMapped(s1, (t, va), p, s2)
    requires ResidentMapped(s2, (c, va), s3)
    requires StoreNext(s3, (t, va), off, b, s4)
    ensures s3.pt[(c, va)] == s3.pt[(t, va)] == Pte(p, true)
    ensures (c, va) in s4.pt && s4.pt[(c, va)].phys in s4.mem && off < |PageOf(s4, (c, va))| && PageOf(s4, (c, va))[off] == b
  {
    hide PageAt, CowMarked;
    ForkPages(s, t, c, s1, (t, va));
    ForkPages(s, t, c, s1, (c, va));
    assert Backing(s1.tasks, s1.objects, (t, va)) == Backing(s1.tasks, s1.objects, (c, va)) == Backing(s.tasks, s.objects, (t, va));
    assert Backing(s2.tasks, s2.objects, (c, va)) == Backing(s1.tasks, s1.objects, (c, va));
  }

  /** On the side u that touches it first after a fork, such a page is isolated exactly if no object has a place for it. */
  lemma UntouchedForkExactly(s: Vm, t: TaskId, c: TaskId, u: TaskId, va: nat, s1: Vm, p: Phys, s2: Vm, frames: set<Phys>)
    requires Inv(s, frames) && Next(s, Fork(t, c), s1, frames) && (u == t || u == c)
    requires (t, va) !in s.pt && CowAt(s.tasks, (t, va)) && FreshMapped(s1, (u, va), p, s2)
    ensures Isolated(s2, (u, va)) <==> Backing(s.tasks, s.objects, (t, va)).None?
  {
    hide TasksOk, CountsOk, FramesOk, ObjectsOk, Coherent, PageAt, MappingsOk, MemOk, CowMarked;
    StepKeepsInv(s, Fork(t, c), s1, frames);
    ForkPages(s, t, c, s1, (t, va));
    ForkPages(s, t, c, s1, (c, va));
    MappedTask(s);
    ChildIsNew(s, t, c, s1, frames);
    assert (c, va) !in s1.pt && (t, va) !in s1.pt;
    assert Backing(s1.tasks, s1.objects, (t, va)) == Backing(s1.tasks, s1.objects, (c, va)) == Backing(s.tasks, s.objects, (t, va));
    if Backing(s.tasks, s.objects, (t, va)).None? {
      FreshPageIsIsolated(s1, (u, va), p, s2, frames);
    } else {
      var other := if u == t then c else t;
      assert ResidentAt(s2.tasks, s2.objects, (other, va)) == p && WritableAt(s2.tasks, (other, va));
    }
  }

  /** In every state of every run, shared mappings of one object page name one physical page. */
  lemma SharedMappingsAgree(states: seq<Vm>, steps: seq<Step>, frames: set<Phys>, n: nat, j: Key, k: Key)
    requires Run(states, steps, frames) && Inv(states[0], frames) && n <= |steps|
    requires var s := states[n];
             && j in s.pt && k in s.pt && SharedAt(s.tasks, j) && SharedAt(s.tasks, k)
             && Backing(s.tasks, s.objects, j).Some? && Backing(s.tasks, s.objects, j) == Backing(s.tasks, s.objects, k)
    ensures states[n].pt[j].phys == states[n].pt[k].phys
  {
    hide Next, TasksOk, MappingsOk, CountsOk, FramesOk, ObjectsOk, MemOk, Backing, PageAt;
    RunKeepsInv(states, steps, frames, n);
  }
}
