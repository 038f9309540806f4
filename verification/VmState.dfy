/**
 The state behind the user VM of kernel/vm: address maps made of entries, page
 tables, shared objects with their resident pages, and the reference counts
 that decide when a physical page is given back.
 */
module VmState {
  import opened Common

  type Page = seq<byte>
  type Phys = nat    // address of a page frame, 0 for none
  type TaskId = nat
  type ObjId = nat   // 0 for no object

  const PAGE := 0x1000
  const USER_MIN := 0x1000
  const USER_MAX := 0x8000_0000
  const DEFAULT_MMAP := 0x6000_0000
  const MAX_ENTRIES := 128
  const KERNEL_BASE := 0xFFFF_FFFF_8000_0000

  datatype Prot = Prot(read: bool, write: bool, exec: bool)

  datatype Flag = Anon | Private | Fixed | Lazy | Stack | Cow

  /** A mapped range of user addresses, backed by pages of an object from `offset` on. */
  datatype Entry = Entry(start: nat, end: nat, prot: Prot, flags: set<Flag>, obj: ObjId, offset: nat) {

    predicate Covers(va: nat) { start <= va < end }

    /** Forking makes such entries copy-on-write. */
    predicate CowCandidate() { prot.write && Private in flags }

    predicate Ok() {
      start % PAGE == 0 && end % PAGE == 0 && USER_MIN <= start < end <= USER_MAX
    }
  }

  type Word64 = v: int | 0 <= v < U64

  datatype Task = Task(entries: seq<Entry>, brkBase: Word64, brkEnd: Word64, hint: Word64)

  /** A page-table entry of a present user page. */
  datatype Pte = Pte(phys: Phys, writable: bool)

  datatype VmObject = VmObject(refs: nat, resident: seq<Phys>, file: seq<byte>)

  datatype RefNode = RefNode(phys: Phys, refs: nat)

  type Key = (TaskId, nat)

  /** `outside` counts the references to an object that are not map entries. */
  datatype Vm = Vm(tasks: map<TaskId, Task>, pt: map<Key, Pte>, mem: map<Phys, Page>,
                   refs: seq<RefNode>, free: set<Phys>,
                   objects: map<ObjId, VmObject>, outside: map<ObjId, nat>)

  // ------------------------------------------------------------ address maps

  /** The entry that covers va: the first in the list. */
  function Lookup(es: seq<Entry>, va: nat): Option<Entry> {
    if es == [] then None else if es[0].Covers(va) then Some(es[0]) else Lookup(es[1..], va)
  }

  predicate Disjoint(a: Entry, b: Entry) { a.end <= b.start || b.end <= a.start }

  ghost predicate EntriesOk(es: seq<Entry>) {
    && |es| <= MAX_ENTRIES
    && (forall i :: 0 <= i < |es| ==> es[i].Ok())
    && (forall i, j :: 0 <= i < j < |es| ==> Disjoint(es[i], es[j]))
  }

  /** What a page of an address space is, as the fault handler sees it. */
  datatype PageView = PageView(obj: ObjId, at: nat, prot: Prot, flags: set<Flag>) {

    /** Forking makes private writable pages copy-on-write. */
    predicate CowCandidate() { prot.write && Private in flags }
  }

  function ViewOf(e: Entry, va: nat): PageView
    requires e.Covers(va)
  {
    PageView(e.obj, e.offset + (va - e.start), e.prot, e.flags)
  }

  /** The address map as a function from addresses to pages. */
  function MapView(es: seq<Entry>, va: nat): Option<PageView> {
    if es == [] then None
    else if es[0].Covers(va) then Some(ViewOf(es[0], va))
    else MapView(es[1..], va)
  }

  lemma {:induction false} LookupCovers(es: seq<Entry>, va: nat)
    ensures Lookup(es, va).Some? ==> Lookup(es, va).value in es && Lookup(es, va).value.Covers(va)
    ensures Lookup(es, va).None? ==> forall e :: e in es ==> !e.Covers(va)
    ensures MapView(es, va) == if Lookup(es, va).None? then None else Some(ViewOf(Lookup(es, va).value, va))
  {
    if es != [] && !es[0].Covers(va) {
      LookupCovers(es[1..], va);
    }
  }

  lemma {:induction false} MapViewConcat(a: seq<Entry>, b: seq<Entry>, va: nat)
    ensures MapView(a + b, va) == if MapView(a, va).Some? then MapView(a, va) else MapView(b, va)
  {
    if a == [] {
      assert a + b == b;
    } else {
      assert (a + b)[1..] == a[1..] + b;
      MapViewConcat(a[1..], b, va);
    }
  }

  /** The page at address k.1 of task k.0. */
  function PageAt(tasks: map<TaskId, Task>, k: Key): Option<PageView> {
    if k.0 in tasks then MapView(tasks[k.0].entries, k.1) else None
  }

  // ------------------------------------------------------------- page counts

  /** The count kept for a page, zero when it has no node. */
  function Count(refs: seq<RefNode>, p: Phys): nat {
    if refs == [] then 0 else if refs[0].phys == p then refs[0].refs else Count(refs[1..], p)
  }

  ghost predicate RefsOk(refs: seq<RefNode>) {
    && (forall i :: 0 <= i < |refs| ==> refs[i].phys != 0 && refs[i].refs > 0)
    && (forall i, j :: 0 <= i < j < |refs| ==> refs[i].phys != refs[j].phys)
  }

  /** The page-table entries that name page p. */
  ghost function Maps(pt: map<Key, Pte>, p: Phys): set<Key> {
    set k | k in pt && pt[k].phys == p
  }

  /** The object slots that hold page p. */
  ghost function Slots(objects: map<ObjId, VmObject>, p: Phys): set<(ObjId, nat)> {
    set o, i | o in objects && 0 <= i < |objects[o].resident| && objects[o].resident[i] == p :: (o, i)
  }

  /** Every page is counted once per page-table entry and once per object slot. */
  ghost predicate CountsOk(refs: seq<RefNode>, pt: map<Key, Pte>, objects: map<ObjId, VmObject>) {
    && RefsOk(refs)
    && forall p: Phys :: p != 0 ==> Count(refs, p) == |Maps(pt, p)| + |Slots(objects, p)|
  }

  /** Of the frames the VM manages, exactly those that nothing counts are free. */
  ghost predicate FramesOk(refs: seq<RefNode>, free: set<Phys>, frames: set<Phys>) {
    && 0 !in frames
    && (forall p: Phys :: Count(refs, p) > 0 ==> p in frames)
    && (forall p: Phys :: p in free <==> p in frames && Count(refs, p) == 0)
  }

  // ---------------------------------------------------------- object counts

  /** The map entries, over all tasks, that refer to object o. */
  ghost function EntryRefs(tasks: map<TaskId, Task>, o: ObjId): set<(TaskId, nat)> {
    set t, i | t in tasks && 0 <= i < |tasks[t].entries| && tasks[t].entries[i].obj == o :: (t, i)
  }

  /** An object is counted once per map entry and once per outside holder, and lives as long as there is one. */
  ghost predicate ObjectsOk(tasks: map<TaskId, Task>, objects: map<ObjId, VmObject>, outside: map<ObjId, nat>) {
    && 0 !in objects && outside.Keys == objects.Keys
    && (forall o :: o in objects ==> objects[o].refs == |EntryRefs(tasks, o)| + outside[o] && objects[o].refs > 0)
    && (forall t, i :: t in tasks && 0 <= i < |tasks[t].entries| && tasks[t].entries[i].obj != 0 ==>
          tasks[t].entries[i].obj in objects)
  }

  // --------------------------------------------------------------- mappings

  /** Present pages lie in an entry; only copy-on-write entries hold back write permission. */
  ghost predicate MappingsOk(tasks: map<TaskId, Task>, pt: map<Key, Pte>) {
    forall k :: k in pt ==>
      && k.1 % PAGE == 0 && pt[k].phys != 0 && PageAt(tasks, k).Some?
      && (pt[k].writable ==> PageAt(tasks, k).value.prot.write)
      && (Cow !in PageAt(tasks, k).value.flags ==> pt[k].writable == PageAt(tasks, k).value.prot.write)
  }

  ghost predicate TasksOk(tasks: map<TaskId, Task>) {
    forall t :: t in tasks ==>
      && EntriesOk(tasks[t].entries)
      && forall i :: 0 <= i < |tasks[t].entries| && Cow in tasks[t].entries[i].flags ==> tasks[t].entries[i].CowCandidate()
  }

  /** The object page behind k, when there is one inside the object. */
  ghost function Backing(tasks: map<TaskId, Task>, objects: map<ObjId, VmObject>, k: Key): Option<(ObjId, nat)> {
    match PageAt(tasks, k)
    case None => None
    case Some(v) =>
      if v.obj in objects && v.at / PAGE < |objects[v.obj].resident| then Some((v.obj, v.at / PAGE)) else None
  }

  /** The page that an object holds at the place that backs k, zero if none. */
  ghost function ResidentAt(tasks: map<TaskId, Task>, objects: map<ObjId, VmObject>, k: Key): Phys {
    match Backing(tasks, objects, k)
    case None => 0
    case Some((o, i)) => objects[o].resident[i]
  }

  predicate SharedAt(tasks: map<TaskId, Task>, k: Key) {
    PageAt(tasks, k).Some? && Private !in PageAt(tasks, k).value.flags
  }

  /** Present pages of non-private entries that are backed by an object page are that page. */
  ghost predicate Coherent(tasks: map<TaskId, Task>, pt: map<Key, Pte>, objects: map<ObjId, VmObject>) {
    forall k :: k in pt && SharedAt(tasks, k) && Backing(tasks, objects, k).Some? ==>
                  pt[k].phys == ResidentAt(tasks, objects, k)
  }

  ghost predicate MemOk(mem: map<Phys, Page>, frames: set<Phys>) {
    forall p :: p in frames ==> p in mem && |mem[p]| == PAGE
  }

  ghost predicate Inv(s: Vm, frames: set<Phys>) {
    && TasksOk(s.tasks) && MappingsOk(s.tasks, s.pt) && MemOk(s.mem, frames)
    && CountsOk(s.refs, s.pt, s.objects) && FramesOk(s.refs, s.free, frames)
    && ObjectsOk(s.tasks, s.objects, s.outside)
    && Coherent(s.tasks, s.pt, s.objects)
  }
}
