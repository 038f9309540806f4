/**
 The user VM as a state machine. A step is what one kernel entry, or one store
 by a user program, does to address maps, page tables, memory and objects.
 */
module VmSteps {
  import opened Common
  import opened VmState
  import opened VmCounts
  import opened VmEntries

  datatype Step =
    | Fault(t: TaskId, va: nat)                        // a page fault, handled or refused
    | Store(t: TaskId, va: nat, off: nat, b: byte)     // a store to a present, writable page
    | Unmap(t: TaskId, lo: nat, hi: nat)               // munmap, MAP_FIXED and a shrinking brk
    | RefusedUnmap(t: TaskId, lo: nat, hi: nat)        // the same where it would split an entry of a full map
    | Map(t: TaskId, e: Entry)                         // mmap of new or shared memory, a growing brk
    | Fork(t: TaskId, child: TaskId)
    | Exit(t: TaskId)
    | NewTask(t: TaskId)                               // a task gets an empty map
    | Adjust(t: TaskId)                                // a moved break or hint, or a call that was refused
    | CreateObject(o: ObjId)                           // an object with one holder outside the maps
    | DropHandle(o: ObjId)                             // such a holder lets go

  predicate WritableAt(tasks: map<TaskId, Task>, k: Key) {
    PageAt(tasks, k).Some? && PageAt(tasks, k).value.prot.write
  }

  // ------------------------------------------------------------------- faults

  /** A write to a copy-on-write page: the task gets its own copy. */
  ghost predicate CowCopied(s: Vm, k: Key, p: Phys, s': Vm) {
    && k in s.pt && s.pt[k].phys in s.mem && PageAt(s.tasks, k).Some?
    && Cow in PageAt(s.tasks, k).value.flags && PageAt(s.tasks, k).value.prot.write
    && p in s.free
    && s'.pt == s.pt[k := Pte(p, true)] && s'.mem == s.mem[p := s.mem[s.pt[k].phys]]
    && s'.tasks == s.tasks && s'.objects == s.objects && s'.outside == s.outside
  }

  /** The object already holds the page: it is mapped as the entry allows. */
  ghost predicate ResidentMapped(s: Vm, k: Key, s': Vm) {
    && k !in s.pt && k.1 % PAGE == 0 && PageAt(s.tasks, k).Some?
    && ResidentAt(s.tasks, s.objects, k) != 0
    && s'.pt == s.pt[k := Pte(ResidentAt(s.tasks, s.objects, k), PageAt(s.tasks, k).value.prot.write)]
    && s'.mem == s.mem && s'.tasks == s.tasks && s'.objects == s.objects && s'.outside == s.outside
  }

  /** No page yet: a fresh one is filled, handed to the object if it has a place for it, and mapped. */
  ghost predicate FreshMapped(s: Vm, k: Key, p: Phys, s': Vm) {
    && k !in s.pt && k.1 % PAGE == 0 && PageAt(s.tasks, k).Some?
    && ResidentAt(s.tasks, s.objects, k) == 0 && p in s.free
    && s'.pt == s.pt[k := Pte(p, PageAt(s.tasks, k).value.prot.write)]
    && (exists content: Page :: |content| == PAGE && s'.mem == s.mem[p := content])
    && s'.tasks == s.tasks && s'.outside == s.outside
    && s'.objects == match Backing(s.tasks, s.objects, k)
                     case None => s.objects
                     case Some((o, i)) => WithSlot(s.objects, o, i, p)
  }

  ghost predicate FaultNext(s: Vm, k: Key, s': Vm) {
    || s' == s
    || (exists p :: CowCopied(s, k, p, s'))
    || ResidentMapped(s, k, s')
    || (exists p :: FreshMapped(s, k, p, s'))
  }

  // -------------------------------------------------------------- other steps

  function PutByte(p: Page, off: nat, b: byte): Page
    requires off < |p|
  {
    p[..off] + [b] + p[off + 1..]
  }

  ghost predicate StoreNext(s: Vm, k: Key, off: nat, b: byte, s': Vm) {
    && k in s.pt && s.pt[k].writable && s.pt[k].phys in s.mem && off < |s.mem[s.pt[k].phys]|
    && s' == s.(mem := s.mem[s.pt[k].phys := PutByte(s.mem[s.pt[k].phys], off, b)])
  }

  /** An object that someone outside the maps holds stays, with its pages. */
  ghost predicate HoldersKept(s: Vm, s': Vm) {
    forall o :: o in s.objects && o in s.outside && s.outside[o] > 0 ==>
      && o in s'.objects && s'.objects[o].resident == s.objects[o].resident
      && o in s'.outside && s'.outside[o] == s.outside[o]
  }

  /** Objects may be destroyed; those that stay keep their resident pages. */
  ghost predicate ObjectsKept(s: Vm, s': Vm) {
    && s'.objects.Keys <= s.objects.Keys && s'.outside.Keys == s'.objects.Keys
    && (forall o :: o in s'.objects ==> s'.objects[o].resident == s.objects[o].resident)
    && (forall o :: o in s'.objects && o in s.outside ==> s'.outside[o] == s.outside[o])
    && HoldersKept(s, s')
  }

  ghost function Cleared(pt: map<Key, Pte>, t: TaskId, lo: nat, hi: nat): map<Key, Pte> {
    map k | k in pt && !(k.0 == t && lo <= k.1 < hi) :: pt[k]
  }

  ghost predicate UnmapNext(s: Vm, t: TaskId, lo: nat, hi: nat, s': Vm) {
    && t in s.tasks && lo % PAGE == 0 && hi % PAGE == 0
    && t in s'.tasks && s'.tasks == s.tasks[t := s'.tasks[t]]
    && s'.tasks[t].entries == Punch(s.tasks[t].entries, lo, hi) && |s'.tasks[t].entries| <= MAX_ENTRIES
    && s'.pt == Cleared(s.pt, t, lo, hi) && s'.mem == s.mem
    && ObjectsKept(s, s')
  }

  /** The map has no room for the split: the entries stay, but the pages are unmapped already. */
  ghost predicate RefusedNext(s: Vm, t: TaskId, lo: nat, hi: nat, s': Vm) {
    && t in s.tasks && lo % PAGE == 0 && hi % PAGE == 0
    && |s.tasks[t].entries| == MAX_ENTRIES && SplitsAny(s.tasks[t].entries, lo, hi)
    && t in s'.tasks && s'.tasks == s.tasks[t := s'.tasks[t]] && s'.tasks[t].entries == s.tasks[t].entries
    && s'.pt == Cleared(s.pt, t, lo, hi) && s'.mem == s.mem && s'.objects == s.objects && s'.outside == s.outside
  }

  /** A new entry names a new, empty object, none, or one that someone outside holds. */
  ghost predicate MapNext(s: Vm, t: TaskId, e: Entry, s': Vm) {
    && t in s.tasks && t in s'.tasks && s'.tasks == s.tasks[t := s'.tasks[t]]
    && s'.tasks[t].entries == s.tasks[t].entries + [e] && EntriesOk(s'.tasks[t].entries)
    && Cow !in e.flags
    && s'.pt == s.pt && s'.mem == s.mem
    && s.objects.Keys <= s'.objects.Keys <= s.objects.Keys + {e.obj}
    && (forall o :: o in s.objects ==> s'.objects[o].resident == s.objects[o].resident)
    && (e.obj in s.objects ==> e.obj in s.outside && s.outside[e.obj] > 0)
    && (e.obj !in s.objects && e.obj in s'.objects ==>
          forall i :: 0 <= i < |s'.objects[e.obj].resident| ==> s'.objects[e.obj].resident[i] == 0)
    && (forall o :: o in s.outside ==> o in s'.outside && s'.outside[o] == s.outside[o])
  }

  function CowMark(e: Entry): Entry {
    if e.CowCandidate() then e.(flags := e.flags + {Cow}) else e
  }

  function CowMarked(es: seq<Entry>): (r: seq<Entry>)
    ensures |r| == |es|
  {
    seq(|es|, i requires 0 <= i < |es| => CowMark(es[i]))
  }

  predicate CowAt(tasks: map<TaskId, Task>, k: Key) {
    PageAt(tasks, k).Some? && PageAt(tasks, k).value.CowCandidate()
  }

  ghost predicate ForkNext(s: Vm, t: TaskId, c: TaskId, s': Vm) {
    && t in s.tasks && c !in s.tasks && t in s'.tasks && c in s'.tasks
    && s'.tasks == s.tasks[t := s'.tasks[t]][c := s'.tasks[c]]
    && s'.tasks[t].entries == CowMarked(s.tasks[t].entries) && s'.tasks[c].entries == s'.tasks[t].entries
    && (forall k :: k in s'.pt <==> k in s.pt || (k.0 == c && (t, k.1) in s.pt))
    && (forall k :: k in s.pt ==>
          s'.pt[k] == if k.0 == t && CowAt(s.tasks, k) then Pte(s.pt[k].phys, false) else s.pt[k])
    && (forall k :: k in s.pt && k.0 == t ==>
          s'.pt[(c, k.1)] == Pte(s.pt[k].phys, !CowAt(s.tasks, k) && WritableAt(s.tasks, k)))
    && s'.mem == s.mem && ObjectsKept(s, s') && s'.objects.Keys == s.objects.Keys
  }

  ghost predicate ExitNext(s: Vm, t: TaskId, s': Vm) {
    && t in s.tasks && s'.tasks == s.tasks - {t}
    && s'.pt == (map k | k in s.pt && k.0 != t :: s.pt[k])
    && s'.mem == s.mem && ObjectsKept(s, s')
  }

  ghost predicate NewTaskNext(s: Vm, t: TaskId, s': Vm) {
    && t !in s.tasks && t in s'.tasks && s'.tasks == s.tasks[t := s'.tasks[t]] && s'.tasks[t].entries == []
    && s'.pt == s.pt && s'.mem == s.mem && s'.objects == s.objects && s'.outside == s.outside
  }

  /** The break and the hint of a task are not part of its map. */
  ghost predicate AdjustNext(s: Vm, t: TaskId, s': Vm) {
    && t in s.tasks && t in s'.tasks && s'.tasks == s.tasks[t := s'.tasks[t]] && s'.tasks[t].entries == s.tasks[t].entries
    && s'.pt == s.pt && s'.mem == s.mem && s'.objects == s.objects && s'.outside == s.outside
  }

  ghost predicate CreateNext(s: Vm, o: ObjId, s': Vm) {
    && o != 0 && o !in s.objects && o in s'.objects && s'.objects == s.objects[o := s'.objects[o]]
    && (forall i :: 0 <= i < |s'.objects[o].resident| ==> s'.objects[o].resident[i] == 0)
    && s'.outside == s.outside[o := 1]
    && s'.tasks == s.tasks && s'.pt == s.pt && s'.mem == s.mem
  }

  ghost predicate DropNext(s: Vm, o: ObjId, s': Vm) {
    && o in s.objects && o in s.outside && s.outside[o] > 0
    && s.objects.Keys - {o} <= s'.objects.Keys <= s.objects.Keys
    && (forall b :: b in s'.objects ==> s'.objects[b].resident == s.objects[b].resident)
    && s'.outside == (if o in s'.objects then s.outside[o := s.outside[o] - 1] else s.outside - {o})
    && s'.tasks == s.tasks && s'.pt == s.pt && s'.mem == s.mem
  }

  /** The counters count exactly what is held. That each kernel operation sees to this is proved in VmKernel. */
  ghost predicate Counted(s: Vm, frames: set<Phys>) {
    && CountsOk(s.refs, s.pt, s.objects) && FramesOk(s.refs, s.free, frames)
    && ObjectsOk(s.tasks, s.objects, s.outside)
  }

  ghost predicate Effect(s: Vm, step: Step, s': Vm) {
    match step
    case Fault(t, va) => FaultNext(s, (t, va), s')
    case Store(t, va, off, b) => StoreNext(s, (t, va), off, b, s')
    case Unmap(t, lo, hi) => UnmapNext(s, t, lo, hi, s')
    case RefusedUnmap(t, lo, hi) => RefusedNext(s, t, lo, hi, s')
    case Map(t, e) => MapNext(s, t, e, s')
    case Fork(t, c) => ForkNext(s, t, c, s')
    case Exit(t) => ExitNext(s, t, s')
    case NewTask(t) => NewTaskNext(s, t, s')
    case Adjust(t) => AdjustNext(s, t, s')
    case CreateObject(o) => CreateNext(s, o, s')
    case DropHandle(o) => DropNext(s, o, s')
  }

  ghost predicate Next(s: Vm, step: Step, s': Vm, frames: set<Phys>) {
    Effect(s, step, s') && Counted(s', frames)
  }
}
