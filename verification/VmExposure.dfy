/**
 Isolation is exact: a page of a private mapping that is not isolated can be
 changed by others, and shown here is how. Two ways to lose isolation, a fork
 before the page was touched and a munmap refused for lack of entries, are
 played through on concrete states.
 */
module VmExposure {
  import opened Common
  import opened VmState
  import opened VmCounts
  import opened VmEntries
  import opened VmSteps
  import opened VmRuns
  import opened VmMaps
  import opened VmIsolation

  // ------------------------------------------------------ one step of another

  lemma {:induction false} RetainedExists(refs: seq<RefNode>, p: Phys) returns (refs': seq<RefNode>)
    requires RefsOk(refs) && p != 0
    ensures Retained(refs, refs', p)
  {
    hide Count;
    if i: nat :| i < |refs| && refs[i].phys == p {
      refs' := refs[i := RefNode(p, refs[i].refs + 1)];
      CountAt(refs, i);
      CountUpdate(refs, i, refs[i].refs + 1, p);
      forall q
        ensures Count(refs', q) == Count(refs, q) + (if q == p then 1 else 0)
      {
        CountUpdate(refs, i, refs[i].refs + 1, q);
      }
    } else {
      refs' := [RefNode(p, 1)] + refs;
      NewCounter(refs, p);
    }
  }

  lemma SlotFrame(s: Vm, o: ObjId, i: nat, frames: set<Phys>)
    requires CountsOk(s.refs, s.pt, s.objects) && FramesOk(s.refs, s.free, frames)
    requires o in s.objects && i < |s.objects[o].resident| && s.objects[o].resident[i] != 0
    ensures s.objects[o].resident[i] in frames && s.objects[o].resident[i] !in s.free
  {
    hide Count, Maps;
    assert (o, i) in Slots(s.objects, s.objects[o].resident[i]);
  }

  /** A page that its object holds can be faulted in at any address that it backs. */
  lemma FaultIn(s: Vm, j: Key, frames: set<Phys>) returns (s': Vm)
    requires Inv(s, frames) && j !in s.pt && j.1 % PAGE == 0 && PageAt(s.tasks, j).Some?
    requires ResidentAt(s.tasks, s.objects, j) != 0
    ensures Next(s, Fault(j.0, j.1), s', frames) && Inv(s', frames) && ResidentMapped(s, j, s')
  {
    hide TasksOk, MappingsOk, Coherent, MemOk, PageAt, ObjectsOk, CountsOk, FramesOk, ResidentAt, RefsOk;
    var p := ResidentAt(s.tasks, s.objects, j);
    CountedRefs(s.refs, s.pt, s.objects);
    var refs' := RetainedExists(s.refs, p);
    var e := Pte(p, PageAt(s.tasks, j).value.prot.write);
    s' := s.(pt := s.pt[j := e], refs := refs');
    AddMapping(s.refs, refs', s.pt, s.objects, j, e);
    HeldByObject(s, j, frames);
    FramesRetained(s.refs, refs', s.free, frames, p);
    assert s.free - {p} == s.free;
    StepKeepsInv(s, Fault(j.0, j.1), s', frames);
  }

  lemma CountedRefs(refs: seq<RefNode>, pt: map<Key, Pte>, objects: map<ObjId, VmObject>)
    requires CountsOk(refs, pt, objects)
    ensures RefsOk(refs)
  {
  }

  lemma HeldByObject(s: Vm, j: Key, frames: set<Phys>)
    requires CountsOk(s.refs, s.pt, s.objects) && FramesOk(s.refs, s.free, frames) && ResidentAt(s.tasks, s.objects, j) != 0
    ensures ResidentAt(s.tasks, s.objects, j) in frames && ResidentAt(s.tasks, s.objects, j) !in s.free
  {
    hide PageAt, CountsOk, FramesOk;
    var (o, i) := Backing(s.tasks, s.objects, j).value;
    SlotFrame(s, o, i, frames);
  }

  /** Through a writable mapping of the same page j changes what k reads. */
  lemma StoreThrough(s: Vm, j: Key, k: Key, frames: set<Phys>) returns (step: Step, s': Vm)
    requires Inv(s, frames) && j in s.pt && s.pt[j].writable && k in s.pt && j != k && s.pt[j].phys == s.pt[k].phys
    ensures step.Store? && (step.t, step.va) == j && Next(s, step, s', frames)
    ensures s.pt[k].phys in s.mem && k in s'.pt && s'.pt[k].phys in s'.mem && PageOf(s', k) != PageOf(s, k)
  {
    hide TasksOk, MappingsOk, Coherent, PageAt, ObjectsOk, CountsOk, FramesOk;
    MappedFrames(s, frames);
    var page := s.mem[s.pt[k].phys];
    var b: byte := if page[0] == 0 then 1 else 0;
    step := Store(j.0, j.1, 0, b);
    s' := s.(mem := s.mem[s.pt[j].phys := PutByte(page, 0, b)]);
    assert PutByte(page, 0, b)[0] == b;
  }

  // -------------------------------------------------------- a stranger's mapping

  lemma {:induction false} FreshTask(ids: set<TaskId>) returns (t: TaskId)
    ensures forall u :: u in ids ==> u < t
    decreases |ids|
  {
    if ids == {} {
      t := 0;
    } else {
      var u :| u in ids;
      var v := FreshTask(ids - {u});
      t := if u < v then v else u + 1;
      assert forall w :: w in ids ==> w == u || w in ids - {u};
    }
  }

  /** The i-th page of object o, shared and writable, at the lowest user address. */
  function Window(o: ObjId, i: nat): Entry {
    Entry(USER_MIN, USER_MIN + PAGE, Prot(true, true, false), {}, o, i * PAGE)
  }

  /** A new task starts with nothing mapped. */
  lemma Newcomer(s: Vm, frames: set<Phys>) returns (t: TaskId, s': Vm)
    requires Inv(s, frames)
    ensures t !in s.tasks && Next(s, NewTask(t), s', frames) && Inv(s', frames)
    ensures t in s'.tasks && s'.tasks[t].entries == [] && s' == s.(tasks := s'.tasks)
  {
    hide TasksOk, MappingsOk, Coherent, MemOk, CountsOk, FramesOk;
    t := FreshTask(s.tasks.Keys);
    s' := s.(tasks := s.tasks[t := Task([], 0, 0, DEFAULT_MMAP)]);
    assert forall o :: EntryRefs(s'.tasks, o) == EntryRefs(s.tasks, o);
    StepKeepsInv(s, NewTask(t), s', frames);
  }

  lemma OneWindow(o: ObjId, i: nat)
    ensures EntriesOk([Window(o, i)]) && MapView([Window(o, i)], USER_MIN) == Some(PageView(o, i * PAGE, Prot(true, true, false), {}))
  {
  }

  /** An object that someone outside the maps holds can be mapped by a task that has nothing else mapped. */
  lemma OpenWindow(s: Vm, t: TaskId, o: ObjId, i: nat, frames: set<Phys>) returns (s': Vm)
    requires Inv(s, frames) && t in s.tasks && s.tasks[t].entries == []
    requires o in s.objects && i < |s.objects[o].resident| && o in s.outside && s.outside[o] > 0
    ensures Next(s, Map(t, Window(o, i)), s', frames) && Inv(s', frames) && s'.pt == s.pt && s'.mem == s.mem
    ensures PageAt(s'.tasks, (t, USER_MIN)) == Some(PageView(o, i * PAGE, Prot(true, true, false), {}))
    ensures ResidentAt(s'.tasks, s'.objects, (t, USER_MIN)) == s.objects[o].resident[i]
  {
    hide TasksOk, MappingsOk, Coherent, MemOk, CountsOk, FramesOk, EntriesOk, EntryRefs, MapView, Window;
    var e := Window(o, i);
    OneWindow(o, i);
    assert e.obj == o && Cow !in e.flags by { WindowIs(o, i); }
    s' := s.(tasks := s.tasks[t := s.tasks[t].(entries := [] + [e])],
             objects := s.objects[o := s.objects[o].(refs := s.objects[o].refs + 1)]);
    NotNull(s);
    assert [] + [e] == [e];
    MapAdded(s, t, e, s', frames);
  }

  lemma WindowIs(o: ObjId, i: nat)
    ensures Window(o, i).obj == o && Window(o, i).flags == {}
  {
  }

  lemma NotYetMapped(s: Vm, t: TaskId, va: nat, frames: set<Phys>)
    requires Inv(s, frames) && t in s.tasks && s.tasks[t].entries == []
    ensures (t, va) !in s.pt
  {
    hide TasksOk, Coherent, MemOk, CountsOk, FramesOk, ObjectsOk;
  }

  // ----------------------------------------------------------------- exactness

  /** In this run from s no one gives up the mapping of k, and k stores nothing. */
  ghost predicate Untouched(states: seq<Vm>, steps: seq<Step>, s: Vm, k: Key, frames: set<Phys>) {
    && Run(states, steps, frames) && states[0] == s
    && forall i :: 0 <= i < |steps| ==>
         Spares(states[i], steps[i], k) && !(steps[i].Store? && (steps[i].t, steps[i].va) == k)
  }

  /** k reads something else at the end of such a run. */
  ghost predicate ChangedBy(states: seq<Vm>, steps: seq<Step>, s: Vm, k: Key, frames: set<Phys>) {
    && Untouched(states, steps, s, k, frames) && k in s.pt && s.pt[k].phys in s.mem
    && var e := states[|steps|]; k in e.pt && e.pt[k].phys in e.mem && PageOf(e, k) != PageOf(s, k)
  }

  /** Someone maps the page of k writable: one store suffices. */
  lemma MappedElsewhere(s: Vm, j: Key, k: Key, frames: set<Phys>) returns (states: seq<Vm>, steps: seq<Step>)
    requires Inv(s, frames) && j in s.pt && s.pt[j].writable && k in s.pt && j != k && s.pt[j].phys == s.pt[k].phys
    ensures ChangedBy(states, steps, s, k, frames) && |steps| == 1
  {
    hide Inv, Next, StoreNext, PageOf;
    var step, s' := StoreThrough(s, j, k, frames);
    states, steps := [s, s'], [step];
  }

  /** A step in front of a run that changes the page. */
  lemma OneMore(s: Vm, step: Step, s1: Vm, states: seq<Vm>, steps: seq<Step>, k: Key, frames: set<Phys>)
    requires Next(s, step, s1, frames) && Spares(s, step, k) && !step.Store?
    requires k in s.pt && k in s1.pt && s1.pt[k] == s.pt[k] && s1.mem == s.mem
    requires ChangedBy(states, steps, s1, k, frames)
    ensures ChangedBy([s] + states, [step] + steps, s, k, frames)
  {
    hide Next, Spares;
    var st, sp := [s] + states, [step] + steps;
    forall i | 0 <= i < |sp|
      ensures Next(st[i], sp[i], st[i + 1], frames)
      ensures Spares(st[i], sp[i], k) && !(sp[i].Store? && (sp[i].t, sp[i].va) == k)
    {
      if i > 0 {
        assert sp[i] == steps[i - 1] && st[i] == states[i - 1] && st[i + 1] == states[i];
      }
    }
  }

  /** Someone can fault the page of k in writable: a fault and a store suffice. */
  lemma BackedElsewhere(s: Vm, j: Key, k: Key, frames: set<Phys>) returns (states: seq<Vm>, steps: seq<Step>)
    requires Inv(s, frames) && k in s.pt && j !in s.pt && j.1 % PAGE == 0 && WritableAt(s.tasks, j)
    requires ResidentAt(s.tasks, s.objects, j) == s.pt[k].phys
    ensures ChangedBy(states, steps, s, k, frames) && |steps| == 2
  {
    hide TasksOk, Coherent, MemOk, CountsOk, FramesOk, ObjectsOk, ChangedBy, Next, ResidentAt, PageAt;
    var s1 := FaultIn(s, j, frames);
    states, steps := MappedElsewhere(s1, j, k, frames);
    OneMore(s, Fault(j.0, j.1), s1, states, steps, k, frames);
    states, steps := [s] + states, [Fault(j.0, j.1)] + steps;
  }

  /** Someone holds the object that holds the page: a new task may map it, fault it in and store. */
  lemma HeldElsewhere(s: Vm, o: ObjId, i: nat, k: Key, frames: set<Phys>) returns (states: seq<Vm>, steps: seq<Step>)
    requires Inv(s, frames) && k in s.pt && o in s.objects && i < |s.objects[o].resident|
    requires s.objects[o].resident[i] == s.pt[k].phys && o in s.outside && s.outside[o] > 0
    ensures ChangedBy(states, steps, s, k, frames) && |steps| == 4
  {
    hide Inv, ChangedBy, Next, ResidentAt, MapNext, Counted;
    var t, s1 := Newcomer(s, frames);
    var s2 := OpenWindow(s1, t, o, i, frames);
    NotYetMapped(s1, t, USER_MIN, frames);
    states, steps := BackedElsewhere(s2, (t, USER_MIN), k, frames);
    OneMore(s1, Map(t, Window(o, i)), s2, states, steps, k, frames);
    states, steps := [s1] + states, [Map(t, Window(o, i))] + steps;
    OneMore(s, NewTask(t), s1, states, steps, k, frames);
    states, steps := [s] + states, [NewTask(t)] + steps;
  }

  /** A private page that is not isolated is changed by others in a run of at most four steps. */
  lemma NotIsolatedIsChanged(s: Vm, k: Key, frames: set<Phys>) returns (states: seq<Vm>, steps: seq<Step>)
    requires Inv(s, frames) && k in s.pt && CowAt(s.tasks, k) && !Isolated(s, k)
    ensures ChangedBy(states, steps, s, k, frames) && |steps| <= 4
  {
    hide TasksOk, MappingsOk, Coherent, MemOk, CountsOk, FramesOk, ChangedBy, PageAt, ResidentAt, EntryRefs;
    if j :| j in s.pt && j != k && s.pt[j].phys == s.pt[k].phys && s.pt[j].writable {
      states, steps := MappedElsewhere(s, j, k, frames);
    } else if j: Key :| j !in s.pt && j.1 % PAGE == 0 && ResidentAt(s.tasks, s.objects, j) == s.pt[k].phys && WritableAt(s.tasks, j) {
      states, steps := BackedElsewhere(s, j, k, frames);
    } else {
      var o, i :| o in s.objects && 0 <= i < |s.objects[o].resident| && s.objects[o].resident[i] == s.pt[k].phys
                  && !(o in s.outside && s.outside[o] == 0);
      states, steps := HeldElsewhere(s, o, i, k, frames);
    }
  }

  lemma {:induction false} ReplayOfOthers(states: seq<Vm>, steps: seq<Step>, s: Vm, k: Key, frames: set<Phys>, n: nat, page: Page)
    requires Untouched(states, steps, s, k, frames) && n <= |steps|
    ensures Replay(steps[..n], k, page) == page
  {
    hide Spares, Run, PutByte;
    if n > 0 {
      ReplayOfOthers(states, steps, s, k, frames, n - 1, page);
      assert steps[..n][..n - 1] == steps[..n - 1];
    } else {
      assert steps[..0] == [];
    }
  }

  /** A mapped private page is isolated exactly if no run that leaves it alone changes what is read there. */
  lemma IsolatedExactly(s: Vm, k: Key, frames: set<Phys>)
    requires Inv(s, frames) && k in s.pt && CowAt(s.tasks, k)
    ensures Isolated(s, k) <==> forall states, steps :: !ChangedBy(states, steps, s, k, frames)
  {
    hide Inv, Isolated, PageOf, Spares, Run;
    if Isolated(s, k) {
      forall states, steps | Untouched(states, steps, s, k, frames)
        ensures !ChangedBy(states, steps, s, k, frames)
      {
        RunLength(states, steps, frames);
        IsolationRun(states, steps, frames, k, |steps|);
        InvMapped(s, k, frames);
        ReplayOfOthers(states, steps, s, k, frames, |steps|, PageOf(s, k));
      }
    } else {
      var states, steps := NotIsolatedIsChanged(s, k, frames);
    }
  }

  lemma RunLength(states: seq<Vm>, steps: seq<Step>, frames: set<Phys>)
    requires Run(states, steps, frames)
    ensures |states| == |steps| + 1
  {
  }

  // -------------------------------------------- forking before the first touch

  const FRAME: Phys := 0x1000
  const USER_RW := Prot(true, true, false)

  /** One task with one page of private memory that it has not touched yet; one frame is free. */
  function LazyVm(): Vm {
    Vm(map[1 := Task([Entry(0x1000, 0x2000, USER_RW, {Private, Lazy, Anon}, 1, 0)], 0, 0, 0)], map[],
       map[FRAME := seq(PAGE, _ => 0)], [], {FRAME}, map[1 := VmObject(1, [0], [])], map[1 := 0])
  }

  /** After its fork. */
  function LazyForked(): Vm {
    var task := Task([Entry(0x1000, 0x2000, USER_RW, {Private, Lazy, Anon, Cow}, 1, 0)], 0, 0, 0);
    LazyVm().(tasks := map[1 := task, 2 := task], objects := map[1 := VmObject(2, [0], [])])
  }

  /** After the parent has touched the page. */
  function LazyTouched(): Vm {
    LazyForked().(pt := map[(1, 0x1000) := Pte(FRAME, true)], refs := [RefNode(FRAME, 2)], free := {},
                  objects := map[1 := VmObject(2, [FRAME], [])])
  }

  lemma NothingCounted(pt: map<Key, Pte>, objects: map<ObjId, VmObject>)
    requires pt == map[] && forall o, i :: o in objects && 0 <= i < |objects[o].resident| ==> objects[o].resident[i] == 0
    ensures CountsOk([], pt, objects)
  {
    assert forall p: Phys :: p != 0 ==> Maps(pt, p) == {} && Slots(objects, p) == {};
  }

  lemma LazyStart()
    ensures Inv(LazyVm(), {FRAME}) && CowAt(LazyVm().tasks, (1, 0x1000))
  {
    var s := LazyVm();
    NothingCounted(s.pt, s.objects);
    assert EntryRefs(s.tasks, 1) == {(1, 0)};
  }

  lemma LazyFork()
    ensures Next(LazyVm(), Fork(1, 2), LazyForked(), {FRAME})
  {
    hide MapView, Counted;
    var s, s' := LazyVm(), LazyForked();
    LazyForkCounts();
    var e := s.tasks[1].entries[0];
    assert CowMarked([e]) == [CowMark(e)] && CowMark(e) == s'.tasks[1].entries[0];
    assert s'.tasks == s.tasks[1 := s'.tasks[1]][2 := s'.tasks[2]];
  }

  lemma LazyObjects(s: Vm)
    requires s == LazyForked() || s == LazyTouched()
    ensures ObjectsOk(s.tasks, s.objects, s.outside)
  {
    assert EntryRefs(s.tasks, 1) == {(1, 0), (2, 0)};
  }

  lemma LazyForkCounts()
    ensures Counted(LazyForked(), {FRAME})
  {
    hide ObjectsOk;
    NothingCounted(LazyForked().pt, LazyForked().objects);
    LazyObjects(LazyForked());
  }

  lemma LazyTouch()
    ensures Next(LazyForked(), Fault(1, 0x1000), LazyTouched(), {FRAME})
  {
    hide Counted;
    var s, s' := LazyForked(), LazyTouched();
    LazyCounts();
    assert s.mem == s.mem[FRAME := s.mem[FRAME]];
    assert WithSlot(s.objects, 1, 0, FRAME) == s'.objects by {
      assert s.objects[1].resident[0 := FRAME] == [FRAME];
    }
    assert FreshMapped(s, (1, 0x1000), FRAME, s');
  }

  lemma OneCounter(p: Phys, n: nat)
    requires p != 0 && n > 0
    ensures RefsOk([RefNode(p, n)]) && FramesOk([RefNode(p, n)], {}, {p})
    ensures forall q :: Count([RefNode(p, n)], q) == if q == p then n else 0
  {
    assert [RefNode(p, n)][1..] == [];
  }

  lemma LazyCounts()
    ensures Counted(LazyTouched(), {FRAME})
  {
    hide Count, RefsOk, FramesOk, ObjectsOk;
    var s := LazyTouched();
    OneCounter(FRAME, 2);
    LazyObjects(s);
    forall p: Phys | p != 0
      ensures Count(s.refs, p) == |Maps(s.pt, p)| + |Slots(s.objects, p)|
    {
      assert Maps(s.pt, p) == if p == FRAME then {(1, 0x1000)} else {};
      assert Slots(s.objects, p) == if p == FRAME then {(1, 0)} else {};
    }
  }

  /**
   A fork before the page was touched: the parent brings the page in, the
   child maps that same page writable, and a store by the parent is seen by
   the child, who stored nothing.
   */
  lemma UntouchedForkIsShared() returns (states: seq<Vm>, steps: seq<Step>)
    ensures Run(states, steps, {FRAME}) && Inv(states[0], {FRAME}) && |steps| == 4
    ensures CowAt(states[0].tasks, (1, 0x1000))
    ensures steps[0] == Fork(1, 2) && steps[1] == Fault(1, 0x1000) && steps[2] == Fault(2, 0x1000)
    ensures steps[3].Store? && (steps[3].t, steps[3].va) == (1, 0x1000)
    ensures var k := (2, 0x1000);
            && k in states[3].pt && states[3].pt[k].phys in states[3].mem
            && k in states[4].pt && states[4].pt[k].phys in states[4].mem && PageOf(states[4], k) != PageOf(states[3], k)
  {
    hide Inv, Next, LazyVm, LazyForked, LazyTouched, PageOf, CowAt;
    LazyStart();
    LazyFork();
    LazyTouch();
    var s0, s1, s2 := LazyVm(), LazyForked(), LazyTouched();
    StepKeepsInv(s0, Fork(1, 2), s1, {FRAME});
    StepKeepsInv(s1, Fault(1, 0x1000), s2, {FRAME});
    LazyShared();
    var s3 := FaultIn(s2, (2, 0x1000), {FRAME});
    var step, s4 := StoreThrough(s3, (1, 0x1000), (2, 0x1000), {FRAME});
    states, steps := [s0, s1, s2, s3, s4], [Fork(1, 2), Fault(1, 0x1000), Fault(2, 0x1000), step];
  }

  lemma LazyShared()
    ensures var s := LazyTouched();
            && (2, 0x1000) !in s.pt && (1, 0x1000) in s.pt && s.pt[(1, 0x1000)] == Pte(FRAME, true)
            && PageAt(s.tasks, (2, 0x1000)).Some? && ResidentAt(s.tasks, s.objects, (2, 0x1000)) == FRAME
  {
  }

  // ------------------------------------------------- a munmap without effect

  /** A full map: three pages of private memory, and 127 pages elsewhere, as the program loader maps its segments. */
  function FullMap(): (es: seq<Entry>)
    ensures |es| == MAX_ENTRIES && es[0] == Entry(0x1000, 0x4000, USER_RW, {Private, Lazy, Anon, Cow}, 1, 0)
    ensures forall i :: 0 < i < MAX_ENTRIES ==>
              es[i] == Entry(0x1_0000 + i * PAGE, 0x1_0000 + i * PAGE + PAGE, USER_RW, {Private, Fixed}, 0, 0)
  {
    seq(MAX_ENTRIES, i requires 0 <= i < MAX_ENTRIES =>
      if i == 0 then Entry(0x1000, 0x4000, USER_RW, {Private, Lazy, Anon, Cow}, 1, 0)
      else Entry(0x1_0000 + i * PAGE, 0x1_0000 + i * PAGE + PAGE, USER_RW, {Private, Fixed}, 0, 0))
  }

  /** Two tasks after a fork, both with a full map; the middle page is shared and read-only. */
  function FullVm(): Vm {
    var task := Task(FullMap(), 0, 0, 0);
    Vm(map[1 := task, 2 := task], map[(1, 0x2000) := Pte(FRAME, false), (2, 0x2000) := Pte(FRAME, false)],
       map[FRAME := seq(PAGE, _ => 0)], [RefNode(FRAME, 3)], {}, map[1 := VmObject(2, [0, FRAME, 0], [])], map[1 := 0])
  }

  /** After the first task's refused munmap of that page. */
  function FullRefused(): Vm {
    FullVm().(pt := map[(2, 0x2000) := Pte(FRAME, false)], refs := [RefNode(FRAME, 2)])
  }

  lemma FullMapOk()
    ensures EntriesOk(FullMap())
  {
    hide FullMap;
    var es := FullMap();
    assert forall i :: 0 < i < MAX_ENTRIES ==> es[i].Ok();
    assert forall i, j :: 0 <= i < j < MAX_ENTRIES ==> Disjoint(es[i], es[j]);
  }

  /** Only the first entry has an object behind it. */
  lemma FullMapView(va: nat)
    ensures 0x1000 <= va < 0x4000 ==> MapView(FullMap(), va) == Some(PageView(1, va - 0x1000, USER_RW, {Private, Lazy, Anon, Cow}))
    ensures MapView(FullMap(), va).Some? && !(0x1000 <= va < 0x4000) ==> MapView(FullMap(), va).value.obj == 0
  {
    hide FullMap;
    LookupCovers(FullMap(), va);
  }

  lemma FullObjects(tasks: map<TaskId, Task>)
    requires tasks == map[1 := Task(FullMap(), 0, 0, 0), 2 := Task(FullMap(), 0, 0, 0)]
    ensures ObjectsOk(tasks, map[1 := VmObject(2, [0, FRAME, 0], [])], map[1 := 0])
  {
    hide FullMap;
    assert EntryRefs(tasks, 1) == {(1, 0), (2, 0)};
  }

  lemma FullCounts(s: Vm)
    requires s == FullVm() || s == FullRefused()
    ensures Counted(s, {FRAME})
  {
    hide FullMap, ObjectsOk, Count, RefsOk, FramesOk;
    FullObjects(s.tasks);
    OneCounter(FRAME, if s == FullVm() then 3 else 2);
    forall p: Phys | p != 0
      ensures Count(s.refs, p) == |Maps(s.pt, p)| + |Slots(s.objects, p)|
    {
      var keys := if s == FullVm() then {(1, 0x2000), (2, 0x2000)} else {(2, 0x2000)};
      assert Maps(s.pt, p) == if p == FRAME then keys else {};
      assert Slots(s.objects, p) == if p == FRAME then {(1, 1)} else {};
    }
  }

  lemma FullInv()
    ensures Inv(FullVm(), {FRAME})
  {
    hide FullMap, CountsOk, FramesOk, ObjectsOk, EntriesOk, MapView;
    FullCounts(FullVm());
    FullMapOk();
    FullMapView(0x2000);
  }

  lemma FullIsolated()
    ensures Isolated(FullVm(), (2, 0x2000))
  {
    hide FullMap, MapView;
    var s := FullVm();
    FullMapView(0x2000);
    forall j: Key | j !in s.pt && j.1 % PAGE == 0
      ensures ResidentAt(s.tasks, s.objects, j) != FRAME
    {
      FullMapView(j.1);
    }
  }

  lemma FullRefuses()
    ensures Next(FullVm(), RefusedUnmap(1, 0x2000, 0x3000), FullRefused(), {FRAME})
    ensures Exposes(FullVm(), RefusedUnmap(1, 0x2000, 0x3000), (2, 0x2000))
  {
    hide FullMap, Counted, MapView;
    var s := FullVm();
    FullCounts(FullRefused());
    FullMapView(0x2000);
    assert Splits(s.tasks[1].entries[0], 0x2000, 0x3000);
    assert s.tasks == s.tasks[1 := s.tasks[1]];
    assert (1, 0x2000) in s.pt && WritableAt(s.tasks, (1, 0x2000)) && ResidentAt(s.tasks, s.objects, (1, 0x2000)) == FRAME;
  }

  /**
   A munmap that is refused in a full map ends the isolation of another task's
   page: from then on a run exists in which that page changes under its owner.
   */
  lemma RefusedUnmapExposes() returns (s: Vm, s': Vm, states: seq<Vm>, steps: seq<Step>)
    ensures Inv(s, {FRAME}) && Isolated(s, (2, 0x2000))
    ensures Next(s, RefusedUnmap(1, 0x2000, 0x3000), s', {FRAME}) && !Isolated(s', (2, 0x2000))
    ensures ChangedBy(states, steps, s', (2, 0x2000), {FRAME})
  {
    hide Isolated, ChangedBy, FullVm, FullRefused, Counted, Exposes, TasksOk, CountsOk, FramesOk, ObjectsOk, Coherent, MemOk;
    s, s' := FullVm(), FullRefused();
    FullInv();
    FullIsolated();
    FullRefuses();
    StepKeepsInv(s, RefusedUnmap(1, 0x2000, 0x3000), s', {FRAME});
    RefusedExactly(s, 1, 0x2000, 0x3000, s', (2, 0x2000));
    FullStillMapped();
    states, steps := NotIsolatedIsChanged(s', (2, 0x2000), {FRAME});
  }

  lemma FullStillMapped()
    ensures (2, 0x2000) in FullRefused().pt && CowAt(FullRefused().tasks, (2, 0x2000))
  {
    hide FullMap, MapView;
    FullMapView(0x2000);
  }
}
