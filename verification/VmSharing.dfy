/**
 Shared memory from end to end: memory is mapped, the task forks or another
 one maps the same object, both sides touch a page, one stores a byte, and the
 other reads it. Which pages that holds for is told exactly.
 */
module VmSharing {
  import opened Common
  import opened Status
  import opened VmState
  import opened VmEntries
  import opened VmSteps
  import opened VmRuns
  import opened VmMaps
  import opened VmKernel

  /** Page k is mapped non-private, and can be written. */
  predicate SharedWritable(tasks: map<TaskId, Task>, k: Key) {
    SharedAt(tasks, k) && WritableAt(tasks, k) && k.1 % PAGE == 0
  }

  /** Only pages in the user range are mapped. */
  lemma InUserRange(s: Vm, k: Key, frames: set<Phys>)
    requires Inv(s, frames) && PageAt(s.tasks, k).Some?
    ensures USER_MIN <= k.1 < USER_MAX && k.0 in s.tasks
  {
    hide CountsOk, FramesOk, ObjectsOk, Coherent, MemOk, MappingsOk;
    LookupCovers(s.tasks[k.0].entries, k.1);
  }

  /** A present page that is shared and writable can be stored to: it is never held back for copying. */
  lemma SharedIsWritable(s: Vm, k: Key, frames: set<Phys>)
    requires Inv(s, frames) && k in s.pt && SharedWritable(s.tasks, k)
    ensures s.pt[k].writable && s.pt[k].phys in s.mem && |s.mem[s.pt[k].phys]| == PAGE && s.pt[k].phys !in s.free
  {
    hide CountsOk, ObjectsOk, Coherent, MapView;
    LookupCovers(s.tasks[k.0].entries, k.1);
    MappedFrames(s, frames);
  }

  /** A fault at k concerns no other page, and changes neither maps nor the sizes of objects. */
  lemma FaultElsewhere(s: Vm, k: Key, s': Vm)
    requires FaultNext(s, k, s')
    ensures forall j :: j != k && j in s.pt ==> j in s'.pt && s'.pt[j] == s.pt[j]
    ensures forall j :: j in s'.pt ==> j == k || j in s.pt
    ensures s'.tasks == s.tasks && forall j: Key :: Backing(s'.tasks, s'.objects, j) == Backing(s.tasks, s.objects, j)
    ensures Backing(s.tasks, s.objects, k).None? && k !in s.pt ==> s'.objects == s.objects
    ensures k in s'.pt && k !in s.pt && Backing(s.tasks, s.objects, k).None? ==>
              s'.pt[k].phys in s.free
  {
    hide PageAt;
  }

  lemma ForkedShared(s: Vm, t: TaskId, c: TaskId, va: nat, s': Vm, frames: set<Phys>)
    requires Inv(s, frames) && ForkNext(s, t, c, s') && SharedWritable(s.tasks, (t, va)) && (t, va) !in s.pt
    requires s'.objects.Keys == s.objects.Keys && forall o :: o in s'.objects ==> s'.objects[o].file == s.objects[o].file
    ensures t != c && (t, va) !in s'.pt && (c, va) !in s'.pt
    ensures forall u :: u == t || u == c ==>
              && PageAt(s'.tasks, (u, va)) == PageAt(s.tasks, (t, va)) && SharedWritable(s'.tasks, (u, va))
              && Backing(s'.tasks, s'.objects, (u, va)) == Backing(s.tasks, s.objects, (t, va))
    ensures var v := PageAt(s.tasks, (t, va)).value; Filling(s'.objects, v) == Filling(s.objects, v)
  {
    hide CountsOk, FramesOk, ObjectsOk, Coherent, MemOk, TasksOk, PageAt, CowMarked;
    ForkPages(s, t, c, s', (t, va));
    ForkPages(s, t, c, s', (c, va));
    MappedTask(s);
  }

  /** Two shared pages behind which stands the same object page are one page. */
  lemma OneFrame(s: Vm, j: Key, k: Key, frames: set<Phys>)
    requires Inv(s, frames) && j in s.pt && k in s.pt && SharedAt(s.tasks, j) && SharedAt(s.tasks, k)
    requires Backing(s.tasks, s.objects, j).Some? && Backing(s.tasks, s.objects, j) == Backing(s.tasks, s.objects, k)
    ensures s.pt[j].phys == s.pt[k].phys
  {
    hide CountsOk, FramesOk, ObjectsOk, MemOk, TasksOk, MappingsOk, PageAt, Backing;
  }

  /**
   Two shared pages that are not present yet, behind which stands the same page
   of an object or none: both are touched, a byte is stored through one, and
   read through the other.
   */
  method TouchBoth(vm: UserVm, t: TaskId, va: nat, u: TaskId, ua: nat, off: nat, b: byte) returns (status: Status, seen: byte)
    requires vm.Valid() && (t, va) != (u, ua) && (t, va) !in vm.pt && (u, ua) !in vm.pt && off < PAGE
    requires SharedWritable(vm.tasks, (t, va)) && SharedWritable(vm.tasks, (u, ua))
    requires var p, q := Backing(vm.tasks, vm.objects, (t, va)), Backing(vm.tasks, vm.objects, (u, ua)); p == q
    modifies vm
    ensures vm.Valid() && (status == Ok || (status == NoMem && vm.free == {}))
    ensures status == Ok ==>
              && (t, va) in vm.pt && (u, ua) in vm.pt
              && var p := Backing(old(vm.tasks), old(vm.objects), (t, va));
                 && (vm.pt[(t, va)].phys == vm.pt[(u, ua)].phys <==> p.Some?)
                 && seen == if p.Some? then b else Filling(old(vm.objects), PageAt(old(vm.tasks), (u, ua)).value)[off]
  {
    hide Inv, FaultNext, Backing, PageAt, Filling, ResidentAt, StoreNext;
    seen := 0;
    ghost var s0 := vm.State();
    InUserRange(s0, (t, va), vm.frames);
    InUserRange(s0, (u, ua), vm.frames);
    status := vm.FaultHandle(t, va, true, true, false);
    if status != Ok {
      return;
    }
    ghost var s1 := vm.State();
    FaultElsewhere(s0, (t, va), s1);
    status := vm.FaultHandle(u, ua, true, false, false);
    if status != Ok {
      return;
    }
    ghost var s2 := vm.State();
    FaultElsewhere(s1, (u, ua), s2);
    SharedIsWritable(s1, (t, va), vm.frames);
    SharedIsWritable(s2, (t, va), vm.frames);
    SharedIsWritable(s2, (u, ua), vm.frames);
    if Backing(s0.tasks, s0.objects, (t, va)).Some? {
      OneFrame(s2, (t, va), (u, ua), vm.frames);
    } else {
      assert s2.pt[(u, ua)].phys in s1.free;
      NoPage(s1, (u, ua));
    }
    vm.UserStore(t, va, off, b);
    StoreSeen(s2, (t, va), off, b, vm.State(), vm.pt[(u, ua)].phys);
    seen := vm.mem[vm.pt[(u, ua)].phys][off];
  }

  lemma NoPage(s: Vm, k: Key)
    requires Backing(s.tasks, s.objects, k).None?
    ensures ResidentAt(s.tasks, s.objects, k) == 0
  {
  }

  lemma StoreSeen(s: Vm, k: Key, off: nat, b: byte, s': Vm, p: Phys)
    requires StoreNext(s, k, off, b, s') && p in s.mem && |s.mem[p]| == PAGE && off < PAGE
    ensures s'.pt == s.pt && p in s'.mem && |s'.mem[p]| == PAGE && s'.mem[p][off] == if p == s.pt[k].phys then b else s.mem[p][off]
  {
  }

  /** A new entry starts without any page present, and shows its object from the entry's offset on. */
  lemma NewEntry(s: Vm, t: TaskId, e: Entry, s': Vm, va: nat, frames: set<Phys>)
    requires Inv(s, frames) && MapNext(s, t, e, s') && e.Covers(va)
    ensures (t, va) !in s'.pt && PageAt(s'.tasks, (t, va)) == Some(ViewOf(e, va)) && e.Ok()
    ensures forall k: Key :: PageAt(s.tasks, k).Some? ==> PageAt(s'.tasks, k) == PageAt(s.tasks, k)
  {
    hide CountsOk, FramesOk, ObjectsOk, Coherent, MemOk, TasksOk, MapView;
    var es := s'.tasks[t].entries;
    NewEntryOk(s, t, e, s');
    EarlierEntries(es, |es| - 1);
    assert es[..|es| - 1] == s.tasks[t].entries;
    MappedTask(s);
    MapPages(s, t, e, s', (t, va));
    forall k: Key | PageAt(s.tasks, k).Some?
      ensures PageAt(s'.tasks, k) == PageAt(s.tasks, k)
    {
      MapPages(s, t, e, s', k);
    }
  }

  /** Memory mapped without Private and then forked before anyone touched it. */
  method ForkAndTouch(vm: UserVm, t: TaskId, c: TaskId, va: nat, off: nat, b: byte) returns (status: Status, seen: byte)
    requires vm.Valid() && c !in vm.tasks && SharedWritable(vm.tasks, (t, va)) && (t, va) !in vm.pt && off < PAGE
    modifies vm
    ensures vm.Valid() && (status == Ok || (status == NoMem && vm.free == {}))
    ensures status == Ok ==>
              && (t, va) in vm.pt && (c, va) in vm.pt
              && var p := Backing(old(vm.tasks), old(vm.objects), (t, va));
                 && (vm.pt[(t, va)].phys == vm.pt[(c, va)].phys <==> p.Some?)
                 && seen == if p.Some? then b else Filling(old(vm.objects), PageAt(old(vm.tasks), (t, va)).value)[off]
  {
    hide Inv, ForkNext, Backing, PageAt, Filling, SharedWritable;
    InUserRange(vm.State(), (t, va), vm.frames) by { WritableIsMapped(vm.tasks, (t, va)); }
    ghost var s := vm.State();
    vm.ForkClone(t, c);
    ForkedShared(s, t, c, va, vm.State(), vm.frames);
    status, seen := TouchBoth(vm, t, va, c, va, off, b);
  }

  lemma WritableIsMapped(tasks: map<TaskId, Task>, k: Key)
    requires SharedWritable(tasks, k)
    ensures PageAt(tasks, k).Some?
  {
    hide PageAt;
  }

  /**
   New memory mapped without Private is shared with a child that is forked
   before it is touched: what one stores, the other reads.
   */
  method AnonymousMemoryIsShared(vm: UserVm, t: TaskId, c: TaskId, hint: Word64, len: Word64, prot: Prot, flags: set<Flag>, o: ObjId,
                                 page: nat, off: nat, b: byte)
    returns (status: Status, mapped: bool, va: nat, seen: byte)
    requires vm.Valid() && t in vm.tasks && c !in vm.tasks && Cow !in flags && Private !in flags && prot.write && o !in vm.objects
    requires page * PAGE < AlignUp(len) && off < PAGE
    modifies vm
    ensures vm.Valid()
    ensures var how := if o == 0 then NoMem else PlaceStatus(old(vm.tasks)[t], hint, AlignUp(len), Fixed in flags);
            && mapped == (how == Ok) && (!mapped ==> status == how)
            && (mapped ==> status == Ok || (status == NoMem && vm.free == {}))
    ensures status == Ok ==>
              && (t, va) in vm.pt && (c, va) in vm.pt && vm.pt[(t, va)].phys == vm.pt[(c, va)].phys && seen == b
  {
    hide Inv, MapNext, UnmapNext, Backing, PageAt, Filling, ForkNext, NewObject, PlaceStatus, ClearNext;
    va, seen := 0, 0;
    ghost var s := vm.State();
    NonEmpty(len, page);
    var addr: nat;
    ghost var mid: Vm;
    status, addr, mid := vm.Mmap(t, hint, len, prot, flags, o);
    mapped := status == Ok;
    if !mapped {
      return;
    }
    va := addr + page * PAGE;
    NewEntry(mid, t, Entry(addr, addr + AlignUp(len), prot, flags + {Lazy, Anon}, o, 0), vm.State(), va, vm.frames);
    SameTasks(s, t, mid, Entry(addr, addr + AlignUp(len), prot, flags + {Lazy, Anon}, o, 0), vm.State());
    status, seen := ForkAndTouch(vm, t, c, va, off, b);
  }

  lemma NonEmpty(len: Word64, page: nat)
    requires page * PAGE < AlignUp(len)
    ensures len > 0
  {
  }

  lemma SameTasks(s: Vm, t: TaskId, mid: Vm, e: Entry, s': Vm)
    requires mid == s || UnmapNext(s, t, e.start, e.end, mid)
    requires MapNext(mid, t, e, s')
    ensures s'.tasks.Keys == s.tasks.Keys && forall u :: u in s.tasks && u != t ==> s'.tasks[u] == s.tasks[u]
  {
    hide Punch, EntriesOk;
  }

  /**
   Of a file mapped without Private, the child shares the pages that the new
   object has room for. It counts its pages by the mapping's length, while the
   fault handler counts them from the file's beginning: from an offset on,
   pages at the end are not shared, and with an offset of at least the length
   none is.
   */
  method FileMemoryIsShared(vm: UserVm, t: TaskId, c: TaskId, hint: Word64, len: Word64, prot: Prot, flags: set<Flag>, o: ObjId,
                            file: seq<byte>, offset: nat, page: nat, off: nat, b: byte)
    returns (status: Status, mapped: bool, va: nat, seen: byte)
    requires vm.Valid() && t in vm.tasks && c !in vm.tasks && Cow !in flags && Private !in flags && prot.write && o !in vm.objects
    requires page * PAGE < AlignUp(len) && off < PAGE
    modifies vm
    ensures vm.Valid()
    ensures var how := if o == 0 then NoMem else PlaceStatus(old(vm.tasks)[t], hint, AlignUp(len), Fixed in flags);
            && mapped == (how == Ok) && (!mapped ==> status == how)
            && (mapped ==> status == Ok || (status == NoMem && vm.free == {}))
    ensures var at := offset + page * PAGE;
            status == Ok ==>
              && (t, va) in vm.pt && (c, va) in vm.pt
              && (vm.pt[(t, va)].phys == vm.pt[(c, va)].phys <==> at / PAGE < AlignUp(len) / PAGE)
              && seen == if at / PAGE < AlignUp(len) / PAGE then b else if at + off < |file| then file[at + off] else 0
  {
    hide Inv, MapNext, UnmapNext, Backing, PageAt, Filling, ForkNext, NewObject, PlaceStatus, ClearNext;
    va, seen := 0, 0;
    ghost var s := vm.State();
    NonEmpty(len, page);
    var addr: nat;
    ghost var mid: Vm;
    status, addr, mid := vm.MmapFile(t, hint, len, prot, flags, o, file, offset);
    mapped := status == Ok;
    if !mapped {
      return;
    }
    va := addr + page * PAGE;
    ghost var e := Entry(addr, addr + AlignUp(len), prot, flags + {Lazy}, o, offset);
    NewEntry(mid, t, e, vm.State(), va, vm.frames);
    SameTasks(s, t, mid, e, vm.State());
    FirstBytes(vm.objects, ViewOf(e, va));
    assert vm.objects[o].file == file by { SlotsOfNew(AlignUp(len), file); }
    status, seen := ForkAndTouch(vm, t, c, va, off, b);
  }

  // -------------------------------------------------------- two maps of one object

  /** How an object is to be mapped, and which page of the mapping is meant. */
  datatype Request = Request(task: TaskId, hint: Word64, len: Word64, prot: Prot, flags: set<Flag>, offset: nat, page: nat) {
    predicate Ok() { Cow !in flags && Private !in flags && prot.write && page * PAGE < AlignUp(len) }

    /** Which page of the object that is. */
    function Index(): nat { (offset + page * PAGE) / PAGE }
  }

  /** Maps an object that the caller holds; pages that were mapped elsewhere stay. */
  method MapShared(vm: UserVm, o: ObjId, r: Request) returns (status: Status, va: nat)
    requires vm.Valid() && r.Ok() && r.task in vm.tasks && o in vm.objects && o in vm.outside && vm.outside[o] > 0 && o != 0
    modifies vm
    ensures vm.Valid() && status == PlaceStatus(old(vm.tasks)[r.task], r.hint, AlignUp(r.len), Fixed in r.flags)
    ensures status == Ok ==>
              && vm.tasks.Keys == old(vm.tasks).Keys && (forall u :: u in vm.tasks && u != r.task ==> vm.tasks[u] == old(vm.tasks)[u])
              && o in vm.objects && o in vm.outside && vm.outside[o] == old(vm.outside)[o]
              && vm.objects[o].resident == old(vm.objects)[o].resident
              && SharedWritable(vm.tasks, (r.task, va)) && (r.task, va) !in vm.pt
              && Backing(vm.tasks, vm.objects, (r.task, va)) == (if r.Index() < |vm.objects[o].resident| then Some((o, r.Index())) else None)
    ensures status == Ok ==>
              forall k: Key :: (Fixed !in r.flags || k.0 != r.task) && PageAt(old(vm.tasks), k).Some? ==>
                PageAt(vm.tasks, k) == PageAt(old(vm.tasks), k) && (k in vm.pt <==> k in old(vm.pt)) && k != (r.task, va)
  {
    hide Inv, MapNext, UnmapNext, RefusedNext, Backing, PageAt, PlaceStatus, SharedWritable, ClearNext, AlignUp, AlignDown, HoldersKept;
    ghost var s := vm.State();
    NonEmpty(r.len, r.page);
    var addr: nat;
    ghost var mid: Vm;
    status, addr, mid := vm.MmapObject(r.task, r.hint, r.len, r.prot, r.flags, o, r.offset);
    va := addr + r.page * PAGE;
    ghost var e := Entry(addr, addr + AlignUp(r.len), r.prot, r.flags + {Lazy}, o, r.offset);
    if status == Ok {
      NewView(mid, r.task, e, vm.State(), va, vm.frames);
      SameTasks(s, r.task, mid, e, vm.State());
      OthersStay(s, r.task, mid, e, vm.State(), Fixed in r.flags);
      SameOutside(vm.State(), vm.frames);
    }
  }

  lemma NewView(s: Vm, t: TaskId, e: Entry, s': Vm, va: nat, frames: set<Phys>)
    requires Inv(s, frames) && MapNext(s, t, e, s') && e.Covers(va) && Private !in e.flags && e.prot.write && (va - e.start) % PAGE == 0
    ensures SharedWritable(s'.tasks, (t, va)) && (t, va) !in s'.pt
  {
    hide Inv, MapNext, PageAt, SharedWritable;
    NewEntry(s, t, e, s', va, frames);
    SharedView(s'.tasks, (t, va), e);
  }

  lemma SharedView(tasks: map<TaskId, Task>, k: Key, e: Entry)
    requires e.Covers(k.1) && PageAt(tasks, k) == Some(ViewOf(e, k.1)) && Private !in e.flags && e.prot.write && k.1 % PAGE == 0
    ensures SharedWritable(tasks, k)
  {
    hide PageAt;
  }

  lemma OthersStay(s: Vm, t: TaskId, mid: Vm, e: Entry, s': Vm, fixed: bool)
    requires if fixed then UnmapNext(s, t, e.start, e.end, mid) else mid == s
    requires MapNext(mid, t, e, s')
    ensures forall k: Key :: (!fixed || k.0 != t) && PageAt(s.tasks, k).Some? ==>
              && PageAt(s'.tasks, k) == PageAt(s.tasks, k) && (k in s'.pt <==> k in s.pt)
              && !(k.0 == t && e.Covers(k.1))
  {
    hide PageAt, UnmapNext, MapNext;
    forall k: Key | (!fixed || k.0 != t) && PageAt(s.tasks, k).Some?
      ensures PageAt(s'.tasks, k) == PageAt(s.tasks, k) && (k in s'.pt <==> k in s.pt) && !(k.0 == t && e.Covers(k.1))
    {
      OtherStays(s, t, mid, e, s', fixed, k);
    }
  }

  lemma OtherStays(s: Vm, t: TaskId, mid: Vm, e: Entry, s': Vm, fixed: bool, k: Key)
    requires if fixed then UnmapNext(s, t, e.start, e.end, mid) else mid == s
    requires MapNext(mid, t, e, s') && (!fixed || k.0 != t) && PageAt(s.tasks, k).Some?
    ensures PageAt(s'.tasks, k) == PageAt(s.tasks, k) && (k in s'.pt <==> k in s.pt) && !(k.0 == t && e.Covers(k.1))
  {
    hide MapView, Punch;
    if fixed {
      UnmapPages(s, t, e.start, e.end, mid, k);
    }
    MapPages(mid, t, e, s', k);
    var es := s'.tasks[t].entries;
    EarlierEntries(es, |es| - 1);
    assert es[..|es| - 1] == mid.tasks[t].entries;
  }

  /**
   Two maps of one object, by two tasks or twice by one, at any two places that
   show the same page of it: once touched they name one frame, for every page
   within the object's size, and a byte stored through one is read through the
   other.
   */
  method ObjectIsShared(vm: UserVm, o: ObjId, size: nat, file: seq<byte>, r: Request, q: Request, off: nat, b: byte)
    returns (status: Status, mapped: bool, va: nat, ua: nat, seen: byte)
    requires vm.Valid() && o != 0 && o !in vm.objects && size <= U64 - PAGE && off < PAGE
    requires r.Ok() && q.Ok() && r.task in vm.tasks && q.task in vm.tasks && (r.task != q.task || Fixed !in q.flags)
    requires r.Index() == q.Index() && r.Index() * PAGE < size
    modifies vm
    ensures vm.Valid() && (if mapped then status == Ok || (status == NoMem && vm.free == {}) else status != Ok)
    ensures var how := PlaceStatus(old(vm.tasks)[r.task], r.hint, AlignUp(r.len), Fixed in r.flags);
            var how' := PlaceStatus(old(vm.tasks)[q.task], q.hint, AlignUp(q.len), Fixed in q.flags);
            r.task != q.task ==> mapped == (how == Ok && how' == Ok)
    ensures status == Ok ==>
              && (r.task, va) in vm.pt && (q.task, ua) in vm.pt && vm.pt[(r.task, va)].phys == vm.pt[(q.task, ua)].phys && seen == b
  {
    hide Inv, Backing, PageAt, Filling, CreateNext, PlaceStatus, NewObject;
    mapped, va, ua, seen := false, 0, 0, 0;
    vm.CreateObject(o, size, file);
    status, va := MapShared(vm, o, r);
    if status != Ok {
      return;
    }
    ghost var tasks, objects := vm.tasks, vm.objects;
    status, ua := MapShared(vm, o, q);
    if status != Ok {
      return;
    }
    mapped := true;
    WritableIsMapped(tasks, (r.task, va));
    SamePage(tasks, vm.tasks, objects, vm.objects, (r.task, va), o);
    status, seen := TouchBoth(vm, r.task, va, q.task, ua, off, b);
  }

  lemma SamePage(tasks: map<TaskId, Task>, tasks': map<TaskId, Task>, objects: map<ObjId, VmObject>, objects': map<ObjId, VmObject>, k: Key, o: ObjId)
    requires PageAt(tasks', k) == PageAt(tasks, k) && o in objects && o in objects' && objects'[o].resident == objects[o].resident
    requires Backing(tasks, objects, k).Some? && Backing(tasks, objects, k).value.0 == o
    ensures Backing(tasks', objects', k) == Backing(tasks, objects, k)
    ensures SharedWritable(tasks, k) ==> SharedWritable(tasks', k)
  {
    hide PageAt;
  }
}
