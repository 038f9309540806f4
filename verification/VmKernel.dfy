/**
 The user VM as the kernel runs it: fault handling, mapping and unmapping,
 fork and exit, page by page and entry by entry, with the counters that are
 updated on the way.
 */
module VmKernel {
  import opened Common
  import opened Status
  import opened VmState
  import opened VmCounts
  import opened VmEntries
  import opened VmSteps
  import opened VmRuns
  import opened VmMaps

  class UserVm {
    var tasks: map<TaskId, Task>
    var pt: map<Key, Pte>
    var mem: map<Phys, Page>
    var refs: seq<RefNode>
    var free: set<Phys>
    var objects: map<ObjId, VmObject>
    ghost var outside: map<ObjId, nat>
    ghost const frames: set<Phys>

    ghost function State(): Vm
      reads this
    {
      Vm(tasks, pt, mem, refs, free, objects, outside)
    }

    ghost predicate Valid()
      reads this
    {
      Inv(State(), frames)
    }

    /** At boot there is no task, and every frame is free. */
    constructor (frames: set<Phys>, mem: map<Phys, Page>)
      requires 0 !in frames && MemOk(mem, frames)
      ensures Valid() && tasks == map[] && pt == map[] && objects == map[] && free == this.frames == frames && this.mem == mem
    {
      tasks, pt, this.mem, refs, free, objects := map[], map[], mem, [], frames, map[];
      outside, this.frames := map[], frames;
      new;
      NothingYet(State());
    }

    /** A task that has just got an empty map. */
    method NewTask(t: TaskId)
      requires Valid() && t !in tasks
      modifies this`tasks
      ensures Valid() && tasks == old(tasks)[t := Task([], 0, 0, DEFAULT_MMAP)] && NewTaskNext(old(State()), t, State())
    {
      hide Inv;
      tasks := tasks[t := Task([], 0, 0, DEFAULT_MMAP)];
      EmptyMap(old(State()), t, State(), frames);
    }

    // ------------------------------------------------------- page counters

    /** One more reference to page p; a page without a counter gets one. */
    method RetainPage(p: Phys) returns (status: Status)
      requires RefsOk(refs)
      modifies this`refs
      ensures status == if p == 0 then Invalid else Ok
      ensures if p == 0 then refs == old(refs) else Retained(old(refs), refs, p)
    {
      hide Count;
      if p == 0 {
        return Invalid;
      }
      status := Ok;
      var i := 0;
      while i < |refs|
        invariant 0 <= i <= |refs| && refs == old(refs) && status == Ok
        invariant forall j :: 0 <= j < i ==> refs[j].phys != p
      {
        if refs[i].phys == p {
          CountAt(refs, i);
          forall q
            ensures Count(refs[i := RefNode(p, refs[i].refs + 1)], q) == Count(refs, q) + (if q == p then 1 else 0)
          {
            CountUpdate(refs, i, refs[i].refs + 1, q);
          }
          CountUpdate(refs, i, refs[i].refs + 1, p);
          refs := refs[i := RefNode(p, refs[i].refs + 1)];
          return;
        }
        i := i + 1;
      }
      NewCounter(refs, p);
      refs := [RefNode(p, 1)] + refs;
    }

    /** One reference to page p less; the last one gives the page back. */
    method ReleasePage(p: Phys) returns (status: Status)
      requires RefsOk(refs)
      modifies this`refs, this`free
      ensures Released(old(refs), refs, p)
      ensures free == if Count(old(refs), p) == 1 && p != 0 then old(free) + {p} else old(free)
      ensures status == if p == 0 then Invalid else if Count(old(refs), p) == 0 then NotFound else Ok
    {
      hide Count;
      if p == 0 {
        CountNone(refs, 0);
        return Invalid;
      }
      var i := 0;
      while i < |refs|
        invariant 0 <= i <= |refs| && refs == old(refs) && free == old(free)
        invariant forall j :: 0 <= j < i ==> refs[j].phys != p
      {
        if refs[i].phys == p {
          CountAt(refs, i);
          if refs[i].refs > 1 {
            CountUpdate(refs, i, refs[i].refs - 1, p);
            forall q
              ensures Count(refs[i := RefNode(p, refs[i].refs - 1)], q) == if q == p then Count(refs, q) - 1 else Count(refs, q)
            {
              CountUpdate(refs, i, refs[i].refs - 1, q);
            }
            refs := refs[i := RefNode(p, refs[i].refs - 1)];
          } else {
            CountRemove(refs, i, p);
            forall q
              ensures Count(refs[..i] + refs[i + 1..], q) == if q == p then 0 else Count(refs, q)
            {
              CountRemove(refs, i, q);
            }
            refs := refs[..i] + refs[i + 1..];
            free := free + {p};
          }
          return Ok;
        }
        i := i + 1;
      }
      CountNone(refs, p);
      return NotFound;
    }

    /** Takes a free frame, zeroes it and starts its count at one; zero when there is none. */
    method AllocZeroPage() returns (p: Phys)
      requires RefsOk(refs) && FramesOk(refs, free, frames)
      modifies this`refs, this`free, this`mem
      ensures p == 0 ==> old(free) == {} && unchanged(this)
      ensures p != 0 ==>
                && p in old(free) && Count(old(refs), p) == 0 && free == old(free) - {p}
                && mem == old(mem)[p := ZeroPage()] && Retained(old(refs), refs, p) && FramesOk(refs, free, frames)
    {
      hide Count;
      p := 0;
      if free != {} {
        p :| p in free;
        free := free - {p};
        mem := mem[p := ZeroPage()];
        var _ := RetainPage(p);
        FramesRetained(old(refs), refs, old(free), frames, p);
      }
    }

    // -------------------------------------------------------- address maps

    /** The entry that covers an address. */
    method MapLookup(t: TaskId, va: nat) returns (r: Option<Entry>)
      requires t in tasks
      ensures r == Lookup(tasks[t].entries, va)
    {
      var es := tasks[t].entries;
      for i := 0 to |es|
        invariant Lookup(es, va) == Lookup(es[i..], va)
      {
        assert es[i..][1..] == es[i + 1..];
        if es[i].start <= va < es[i].end {
          return Some(es[i]);
        }
      }
      return None;
    }

    /** Whether a range meets any entry of the map. */
    method MapOverlap(t: TaskId, lo: nat, hi: nat) returns (r: bool)
      requires t in tasks
      ensures r <==> exists e :: e in tasks[t].entries && !(hi <= e.start || lo >= e.end)
    {
      var es := tasks[t].entries;
      for i := 0 to |es|
        invariant forall j :: 0 <= j < i ==> hi <= es[j].start || lo >= es[j].end
      {
        if !(hi <= es[i].start || lo >= es[i].end) {
          return true;
        }
      }
      return false;
    }

    // ------------------------------------------------------------ unmapping

    /** The page counts and free frames are right. */
    ghost predicate PagesOk()
      reads this
    {
      CountsOk(refs, pt, objects) && FramesOk(refs, free, frames)
    }

    /** Clears the page-table entries of a range and drops their references. */
    method UnmapRange(t: TaskId, lo: nat, hi: nat)
      requires PagesOk() && lo % PAGE == 0 && hi % PAGE == 0 && lo <= hi
      requires forall k :: k in pt ==> k.1 % PAGE == 0 && pt[k].phys != 0
      modifies this`pt, this`refs, this`free
      ensures PagesOk() && pt == Cleared(old(pt), t, lo, hi)
    {
      hide Count, CountsOk, FramesOk;
      var va := lo;
      assert pt == Cleared(old(pt), t, lo, lo);
      while va < hi
        invariant lo <= va <= hi && va % PAGE == 0
        invariant PagesOk() && pt == Cleared(old(pt), t, lo, va)
        decreases hi - va
      {
        ClearedStep(old(pt), t, lo, va);
        if (t, va) in pt {
          var phys := pt[(t, va)].phys;
          ghost var r, p, f := refs, pt, free;
          pt := pt - {(t, va)};
          CountsRefs(refs, p, objects);
          var _ := ReleasePage(phys);
          DropMapping(r, refs, p, objects, (t, va));
          FramesReleased(r, refs, f, frames, phys);
        }
        va := va + PAGE;
      }
    }

    // -------------------------------------------------------------- objects

    /** Drops a reference to an object; the last one gives its resident pages and the object back. */
    method UnrefObject(o: ObjId)
      requires PagesOk() && o in objects && objects[o].refs > 0
      modifies this`refs, this`free, this`objects
      ensures PagesOk()
      ensures objects == if old(objects)[o].refs == 1 then old(objects) - {o}
                         else old(objects)[o := old(objects)[o].(refs := old(objects)[o].refs - 1)]
    {
      hide Count, CountsOk, FramesOk;
      var n := objects[o].refs - 1;
      SameResidents(refs, pt, objects, objects[o := objects[o].(refs := n)]);
      objects := objects[o := objects[o].(refs := n)];
      if n == 0 {
        var res := objects[o].resident;
        var i := 0;
        while i < |res|
          invariant 0 <= i <= |res| && PagesOk()
          invariant o in objects && objects == old(objects)[o := objects[o]] && |objects[o].resident| == |res|
          invariant forall j :: 0 <= j < |res| ==> objects[o].resident[j] == if j < i then 0 else res[j]
        {
          var phys := res[i];
          if phys != 0 {
            ghost var r, f := refs, free;
            CountsRefs(refs, pt, objects);
            var _ := ReleasePage(phys);
            ClearSlot(r, refs, pt, objects, o, i);
            FramesReleased(r, refs, f, frames, phys);
            objects := WithSlot(objects, o, i, 0);
          }
          i := i + 1;
        }
        SameResidents(refs, pt, objects, objects - {o});
        objects := objects - {o};
      }
    }

    /** Takes lo to hi out of entry i of a map: the entry goes, is trimmed at one end, or is split. */
    method CutEntry(t: TaskId, i: nat, lo: nat, hi: nat) returns (next: nat)
      requires PagesOk() && ObjectsOk(tasks, objects, outside) && t in tasks && i < |tasks[t].entries|
      requires Hits(tasks[t].entries[i], lo, hi)
      modifies this`tasks, this`refs, this`free, this`objects, this`outside
      ensures PagesOk() && ObjectsOk(tasks, objects, outside)
      ensures var es := old(tasks)[t].entries;
              tasks == old(tasks)[t := old(tasks)[t].(entries := es[..i] + Pieces(es[i], lo, hi) + es[i + 1..])]
      ensures Shrunk(old(objects), old(outside), objects, outside)
      ensures next == i + |Pieces(old(tasks)[t].entries[i], lo, hi)|
    {
      hide Count, CountsOk, FramesOk, ObjectsOk, CountObj;
      var es := tasks[t].entries;
      var cur := es[i];
      var rs, re := Max(lo, cur.start), Min(hi, cur.end);
      ghost var r := Pieces(cur, lo, hi);
      ghost var tasks0, objects0, outside0 := tasks, objects, outside;
      assert es == es[..i] + [cur] + es[i + 1..];
      if rs == cur.start && re == cur.end {
        ObjectOfEntry(tasks, objects, outside, t, i);
        if cur.obj != 0 {
          UnrefObject(cur.obj);
          outside := if cur.obj in objects then outside else outside - {cur.obj};
        }
        tasks := tasks[t := tasks[t].(entries := es[..i] + es[i + 1..])];
        assert es[..i] + es[i + 1..] == es[..i] + r + es[i + 1..];
        EntryDropped(tasks0, objects0, outside0, t, es[..i], cur, es[i + 1..], lo, hi, objects, outside);
        next := i;
      } else if rs == cur.start {
        tasks := tasks[t := tasks[t].(entries := es[i := cur.(start := re, offset := cur.offset + (re - rs))])];
        assert tasks[t].entries == es[..i] + r + es[i + 1..];
        EntryTrimmed(tasks0, objects0, outside0, t, es[..i], cur, es[i + 1..], lo, hi);
        next := i + 1;
      } else if re == cur.end {
        tasks := tasks[t := tasks[t].(entries := es[i := cur.(end := rs)])];
        assert tasks[t].entries == es[..i] + r + es[i + 1..];
        EntryTrimmed(tasks0, objects0, outside0, t, es[..i], cur, es[i + 1..], lo, hi);
        next := i + 1;
      } else {
        ObjectOfEntry(tasks, objects, outside, t, i);
        var tail := cur.(start := re, offset := cur.offset + (re - cur.start));
        if cur.obj != 0 {
          SameResidents(refs, pt, objects, objects[cur.obj := objects[cur.obj].(refs := objects[cur.obj].refs + 1)]);
          objects := objects[cur.obj := objects[cur.obj].(refs := objects[cur.obj].refs + 1)];
        }
        tasks := tasks[t := tasks[t].(entries := es[..i] + [cur.(end := rs), tail] + es[i + 1..])];
        assert tasks[t].entries == es[..i] + r + es[i + 1..];
        EntrySplit(tasks0, objects0, outside0, t, es[..i], cur, es[i + 1..], lo, hi, objects);
        next := i + 2;
      }
    }

    /** The first k entries of s0's map of t have been cut, and the pages of the first kp cleared. */
    ghost predicate Removing(s0: Vm, t: TaskId, lo: nat, hi: nat, k: nat, kp: nat)
      reads this
    {
      && t in s0.tasks && k <= kp <= |s0.tasks[t].entries|
      && var es := s0.tasks[t].entries;
         && tasks == s0.tasks[t := s0.tasks[t].(entries := Punch(es[..k], lo, hi) + es[k..])]
         && |tasks[t].entries| <= MAX_ENTRIES
         && pt == ClearedBy(s0.pt, t, lo, hi, es[..kp]) && mem == s0.mem
         && PagesOk() && ObjectsOk(tasks, objects, outside) && Shrunk(s0.objects, s0.outside, objects, outside)
         && ((forall j :: 0 <= j < k ==> !Hits(es[j], lo, hi)) ==>
               tasks == s0.tasks && objects == s0.objects && outside == s0.outside)
    }

    /** Unmaps the part of entry i that lies in the range. */
    method UnmapHit(t: TaskId, i: nat, lo: nat, hi: nat, ghost s0: Vm, ghost k: nat)
      requires Inv(s0, frames) && Removing(s0, t, lo, hi, k, k) && lo % PAGE == 0 && hi % PAGE == 0
      requires k < |s0.tasks[t].entries| && i == |Punch(s0.tasks[t].entries[..k], lo, hi)|
      requires Hits(s0.tasks[t].entries[k], lo, hi)
      modifies this`pt, this`refs, this`free
      ensures Removing(s0, t, lo, hi, k, k + 1)
    {
      hide Inv, Punch, CountsOk, FramesOk, ObjectsOk, Shrunk, Cleared, ClearedBy, EntriesOk, Pieces;
      ghost var es := s0.tasks[t].entries;
      InvParts(s0, frames);
      PunchStep(es, lo, hi, k);
      var cur := tasks[t].entries[i];
      PtAligned(s0, t, lo, hi, es, k);
      UnmapRange(t, Max(lo, cur.start), Min(hi, cur.end));
      ClearedByStep(s0.pt, t, lo, hi, es, k);
    }

    /** Cuts entry i, which the range hits. */
    method CutHit(t: TaskId, i: nat, lo: nat, hi: nat, ghost s0: Vm, ghost k: nat) returns (next: nat)
      requires Removing(s0, t, lo, hi, k, k + 1)
      requires k < |s0.tasks[t].entries| && i == |Punch(s0.tasks[t].entries[..k], lo, hi)|
      requires Hits(s0.tasks[t].entries[k], lo, hi)
      requires Splits(s0.tasks[t].entries[k], lo, hi) ==> |tasks[t].entries| < MAX_ENTRIES
      modifies this`tasks, this`refs, this`free, this`objects, this`outside
      ensures Removing(s0, t, lo, hi, k + 1, k + 1) && next == |Punch(s0.tasks[t].entries[..k + 1], lo, hi)|
    {
      hide Punch, CountsOk, FramesOk, ObjectsOk, Shrunk, Cleared, ClearedBy, Pieces;
      ghost var es := s0.tasks[t].entries;
      PunchStep(es, lo, hi, k);
      ghost var objects1, outside1 := objects, outside;
      CutFits(es[k], lo, hi);
      next := CutEntry(t, i, lo, hi);
      ShrunkTransitive(s0.objects, s0.outside, objects1, outside1, objects, outside);
      assert tasks[t].entries == Punch(es[..k], lo, hi) + Pieces(es[k], lo, hi) + es[k + 1..];
    }

    /** One round of the removal loop, on entry i; `next` is the entry to go on with. */
    method RemoveOne(t: TaskId, i: nat, lo: nat, hi: nat, ghost s0: Vm, ghost k: nat) returns (busy: bool, hit: bool, next: nat)
      requires Inv(s0, frames) && Removing(s0, t, lo, hi, k, k) && lo % PAGE == 0 && hi % PAGE == 0 && lo < hi
      requires k < |s0.tasks[t].entries| && i == |Punch(s0.tasks[t].entries[..k], lo, hi)|
      modifies this
      ensures hit <==> Hits(s0.tasks[t].entries[k], lo, hi)
      ensures !busy ==> Removing(s0, t, lo, hi, k + 1, k + 1) && next == |Punch(s0.tasks[t].entries[..k + 1], lo, hi)|
      ensures busy ==>
                && Valid() && tasks == s0.tasks && objects == s0.objects && outside == s0.outside && mem == s0.mem
                && pt == Cleared(s0.pt, t, lo, hi) && Splits(s0.tasks[t].entries[k], lo, hi) && |s0.tasks[t].entries| == MAX_ENTRIES
    {
      hide Inv, Punch, CountsOk, FramesOk, ObjectsOk, Shrunk, Cleared, ClearedBy, EntriesOk, Pieces;
      ghost var es := s0.tasks[t].entries;
      InvParts(s0, frames);
      PunchStep(es, lo, hi, k);
      busy := false;
      var cur := tasks[t].entries[i];
      var rs, re := Max(lo, cur.start), Min(hi, cur.end);
      hit := re > rs;
      if !hit {
        NotHit(s0.pt, t, lo, hi, es, k);
        next := i + 1;
        return;
      }
      UnmapHit(t, i, lo, hi, s0, k);
      if rs != cur.start && re != cur.end && |tasks[t].entries| >= MAX_ENTRIES {
        SplitIsAlone(es, k, lo, hi);
        RemoveBusy(s0, t, lo, hi, k, State(), frames);
        return true, hit, 0;
      }
      next := CutHit(t, i, lo, hi, s0, k);
    }

    /** The removal loop. Entries are walked in order; `busy` says that a split had no room. */
    method RemoveWalk(t: TaskId, lo: nat, hi: nat) returns (busy: bool, removed: bool)
      requires Valid() && t in tasks && lo % PAGE == 0 && hi % PAGE == 0 && lo < hi
      modifies this
      ensures Valid() && mem == old(mem)
      ensures busy ==>
                && |old(tasks)[t].entries| == MAX_ENTRIES && SplitsAny(old(tasks)[t].entries, lo, hi)
                && pt == Cleared(old(pt), t, lo, hi)
                && tasks == old(tasks) && objects == old(objects) && outside == old(outside)
      ensures !busy ==>
                && (SplitsAny(old(tasks)[t].entries, lo, hi) ==> |old(tasks)[t].entries| < MAX_ENTRIES)
                && (removed <==> HitsAny(old(tasks)[t].entries, lo, hi))
                && tasks == old(tasks)[t := old(tasks)[t].(entries := Punch(old(tasks)[t].entries, lo, hi))]
                && UnmapNext(old(State()), t, lo, hi, State())
    {
      hide Inv, Punch, Cleared, UnmapNext, Splits, Hits, Removing;
      ghost var s0, es := State(), tasks[t].entries;
      removed, busy := false, false;
      var i := 0;
      ghost var k := 0;
      RemovingFirst(t, lo, hi);
      while i < |tasks[t].entries|
        invariant 0 <= k <= |es| && Removing(s0, t, lo, hi, k, k) && i == |Punch(es[..k], lo, hi)| && !busy
        invariant t in tasks && |tasks[t].entries| == i + |es| - k
        invariant removed <==> exists j :: 0 <= j < k && Hits(es[j], lo, hi)
        decreases |es| - k
      {
        var hit;
        busy, hit, i := RemoveOne(t, i, lo, hi, s0, k);
        if busy {
          return;
        }
        RemovingSize(s0, t, lo, hi, k + 1);
        removed := removed || hit;
        k := k + 1;
      }
      RemovingLast(s0, t, lo, hi);
    }

    lemma RemovingFirst(t: TaskId, lo: nat, hi: nat)
      requires Valid() && t in tasks
      ensures Removing(State(), t, lo, hi, 0, 0) && Punch(tasks[t].entries[..0], lo, hi) == []
    {
      hide Inv, Punch, CountsOk, FramesOk, ObjectsOk, Shrunk, ClearedBy, EntriesOk;
      InvParts(State(), frames);
      RemoveStart(tasks[t].entries, lo, hi, pt, t, objects, outside);
    }

    lemma RemovingSize(s0: Vm, t: TaskId, lo: nat, hi: nat, k: nat)
      requires Removing(s0, t, lo, hi, k, k)
      ensures t in tasks && |tasks[t].entries| == |Punch(s0.tasks[t].entries[..k], lo, hi)| + |s0.tasks[t].entries| - k
    {
      hide Punch, CountsOk, FramesOk, ObjectsOk, Shrunk, ClearedBy;
    }

    lemma RemovingLast(s0: Vm, t: TaskId, lo: nat, hi: nat)
      requires Inv(s0, frames) && t in s0.tasks && lo % PAGE == 0 && hi % PAGE == 0
      requires Removing(s0, t, lo, hi, |s0.tasks[t].entries|, |s0.tasks[t].entries|)
      ensures Valid() && UnmapNext(s0, t, lo, hi, State()) && mem == s0.mem
      ensures tasks == s0.tasks[t := s0.tasks[t].(entries := Punch(s0.tasks[t].entries, lo, hi))]
      ensures SplitsAny(s0.tasks[t].entries, lo, hi) ==> |s0.tasks[t].entries| < MAX_ENTRIES
    {
      hide Inv, Punch, CountsOk, FramesOk, ObjectsOk, Shrunk, ClearedBy, UnmapNext, Hits, Splits;
      ghost var es := s0.tasks[t].entries;
      assert es[..|es|] == es && es[|es|..] == [] && Punch(es, lo, hi) + [] == Punch(es, lo, hi);
      RemoveDone(s0, t, lo, hi, State(), frames);
    }

    /** Removes a range of addresses, rounded outwards to pages, from a task's map. */
    method MapRemove(t: TaskId, start: nat, len: nat) returns (status: Status)
      requires Valid() && t in tasks
      modifies this
      ensures Valid() && mem == old(mem)
      ensures var es, lo, hi := old(tasks)[t].entries, AlignDown(start), AlignUp((start + len) % U64);
              if len == 0 || hi <= lo then status == Invalid && unchanged(this)
              else if |es| == MAX_ENTRIES && SplitsAny(es, lo, hi) then
                && status == Busy && tasks == old(tasks) && RefusedNext(old(State()), t, lo, hi, State())
              else
                && status == (if HitsAny(es, lo, hi) then Ok else NotFound)
                && tasks == old(tasks)[t := old(tasks)[t].(entries := Punch(es, lo, hi))]
                && UnmapNext(old(State()), t, lo, hi, State())
    {
      hide Inv, Punch, Cleared, AlignUp, AlignDown, UnmapNext, SplitsAny, HitsAny;
      var lo, hi := AlignDown(start), AlignUp((start + len) % U64);
      Aligned(start);
      if len == 0 || hi <= lo {
        return Invalid;
      }
      var busy, removed := RemoveWalk(t, lo, hi);
      return if busy then Busy else if removed then Ok else NotFound;
    }

    // -------------------------------------------------------------- mapping

    /** Adds an entry, rounded outwards to pages, unless the map is full or the range is taken. */
    method MapAdd(t: TaskId, start: nat, len: nat, prot: Prot, flags: set<Flag>, obj: ObjId, offset: nat) returns (status: Status)
      requires Valid() && t in tasks && Cow !in flags
      requires obj != 0 ==> obj in objects && obj in outside && outside[obj] > 0
      modifies this`tasks, this`objects
      ensures Valid()
      ensures var es, lo, hi := old(tasks)[t].entries, AlignDown(start), AlignUp((start + len) % U64);
              && status == AddStatus(es, lo, hi, len)
              && (status != Ok ==> unchanged(this))
              && (status == Ok ==> var e := Entry(lo, hi, prot, flags, obj, offset);
                                   Appended(old(State()), t, e, State()) && MapNext(old(State()), t, e, State()))
    {
      hide Inv, MapNext, EntriesOk;
      var lo, hi := AlignDown(start), AlignUp((start + len) % U64);
      if len == 0 || !RangeValid(lo, hi) {
        return Invalid;
      }
      var es := tasks[t].entries;
      InvParts(State(), frames);
      if |es| >= MAX_ENTRIES {
        return Busy;
      }
      var taken := MapOverlap(t, lo, hi);
      if taken {
        return Busy;
      }
      var e := Entry(lo, hi, prot, flags, obj, offset);
      AppendOk(es, e);
      tasks := tasks[t := tasks[t].(entries := es + [e])];
      if obj != 0 {
        objects := objects[obj := objects[obj].(refs := objects[obj].refs + 1)];
      }
      MapAdded(old(State()), t, e, State(), frames);
      return Ok;
    }

    /** A new object of so many bytes, backed by a file or by nothing, held by its creator; o is the address the heap gave. */
    method CreateObject(o: ObjId, size: nat, file: seq<byte>)
      requires Valid() && o != 0 && o !in objects
      modifies this`objects, this`outside
      ensures Valid()
      ensures objects == old(objects)[o := NewObject(size, file)] && outside == old(outside)[o := 1]
      ensures CreateNext(old(State()), o, State())
      ensures var n := |objects[o].resident|;
              if size <= U64 - PAGE then n > 0 && (n - 1) * PAGE < Max(size, 1) <= n * PAGE else size < U64 ==> n == 0
    {
      hide Inv, AlignUp, NewObject;
      SlotsOfNew(size, file);
      objects := objects[o := NewObject(size, file)];
      outside := outside[o := 1];
      ObjectCreated(old(State()), o, NewObject(size, file), State(), frames);
    }

    /** A holder outside the maps lets an object go. */
    method DropHandle(o: ObjId)
      requires Valid() && o in objects && o in outside && outside[o] > 0
      modifies this`refs, this`free, this`objects, this`outside
      ensures Valid()
      ensures objects == if old(objects)[o].refs == 1 then old(objects) - {o}
                         else old(objects)[o := old(objects)[o].(refs := old(objects)[o].refs - 1)]
      ensures outside == if o in objects then old(outside)[o := old(outside)[o] - 1] else old(outside) - {o}
      ensures DropNext(old(State()), o, State())
    {
      hide Inv, CountsOk, FramesOk;
      InvPages(State(), frames);
      HeldObject(State(), o, frames);
      UnrefObject(o);
      outside := if o in objects then outside[o := outside[o] - 1] else outside - {o};
      HandleDropped(old(State()), o, State(), frames);
    }

    /** The first free gap at or above the hint, page by page; zero when there is none. */
    method FindGap(t: TaskId, hint: nat, len: nat) returns (addr: nat)
      requires t in tasks && hint < U64 && len < U64
      ensures addr != 0 ==> addr % PAGE == 0 && Max(AlignUp(hint), DEFAULT_MMAP) <= addr < USER_MAX
      ensures addr != 0 && len % PAGE == 0 && len > 0 ==>
                && addr + len < USER_MAX && !Taken(tasks[t].entries, addr, len)
                && AllTaken(tasks[t].entries, Max(AlignUp(hint), DEFAULT_MMAP), addr, len)
      ensures addr == 0 && len % PAGE == 0 && len > 0 ==>
                AllTaken(tasks[t].entries, Max(AlignUp(hint), DEFAULT_MMAP), USER_MAX - len, len)
      ensures len == 0 ==> addr == 0
    {
      hide Taken, AllTaken, AlignUp;
      var lo, hi := AlignUp(hint), AlignUp((hint + len) % U64);
      GapLength(hint, len);
      if hi <= lo {
        NoSuchGap(tasks[t].entries, hint, len);
        return 0;
      }
      if lo < DEFAULT_MMAP {
        lo := DEFAULT_MMAP;
        hi := lo + AlignUp(len);
      }
      ghost var first, d := lo, hi - lo;
      NoneTaken(tasks[t].entries, first, d);
      while hi < USER_MAX
        invariant hi - lo == d && lo % PAGE == 0 && first <= lo
        invariant AllTaken(tasks[t].entries, first, lo, d)
        decreases USER_MAX - hi
      {
        var taken := MapOverlap(t, lo, hi);
        TakenMeans(tasks[t].entries, lo, d, taken);
        if !taken {
          return lo;
        }
        OneMoreTaken(tasks[t].entries, first, lo, d);
        lo := lo + PAGE;
        hi := hi + PAGE;
      }
      FewerTaken(tasks[t].entries, first, lo, USER_MAX - d, d);
      return 0;
    }

    /** Where a mapping goes: at the given address, clearing what is there, or in a gap. */
    method Place(t: TaskId, hint: Word64, len: Word64, fixed: bool) returns (addr: nat)
      requires Valid() && t in tasks && len % PAGE == 0
      modifies this
      ensures Valid() && mem == old(mem) && t in tasks
      ensures objects.Keys <= old(objects).Keys && HoldersKept(old(State()), State())
      ensures addr % PAGE == 0 && addr < U64
      ensures !fixed ==> unchanged(this)
      ensures fixed ==> ClearNext(old(State()), t, addr, AlignUp((addr + len) % U64), State())
      ensures !fixed && addr != 0 && len > 0 ==> addr >= DEFAULT_MMAP && addr + len < USER_MAX
      ensures fixed ==> addr == AlignDown(hint)
      ensures fixed && (var es, hi := tasks[t].entries, AlignUp((addr + len) % U64);
                        RangeValid(addr, hi) && |es| < MAX_ENTRIES && len > 0) ==>
                UnmapNext(old(State()), t, addr, AlignUp((addr + len) % U64), State())
      ensures PlaceStatus(old(tasks)[t], hint, len, fixed) ==
              if addr == 0 then NoMem else AddStatus(tasks[t].entries, addr, AlignUp((addr + len) % U64), len)
    {
      hide Inv, AlignUp, AlignDown, UnmapNext, RefusedNext, SplitsAny, HitsAny, Punch, Cleared, AllTaken, Taken, PlaceStatus, AddStatus;
      if fixed {
        addr := AlignDown(hint);
        Aligned(hint);
        AlignedDown(hint);
        var _ := MapRemove(t, addr, len);
        UnmapObjects(old(State()), t, addr, AlignUp((addr + len) % U64), State());
        FixedStatus(old(State()), t, hint, len, tasks[t].entries, frames);
      } else {
        addr := FindGap(t, if hint != 0 then hint else tasks[t].hint, len);
        GapStatus(tasks[t], hint, len, addr);
      }
    }

    /** New anonymous memory; o is the address the heap gave for its object, zero if it had none. */
    method Mmap(t: TaskId, hint: Word64, len: Word64, prot: Prot, flags: set<Flag>, o: ObjId)
      returns (status: Status, addr: nat, ghost mid: Vm)
      requires Valid() && t in tasks && Cow !in flags && o !in objects
      modifies this
      ensures Valid() && mem == old(mem)
      ensures status == Ok ==>
                && (if Fixed in flags then addr == AlignDown(hint) && UnmapNext(old(State()), t, addr, addr + AlignUp(len), mid)
                    else mid == old(State()))
                && MapNext(mid, t, Entry(addr, addr + AlignUp(len), prot, flags + {Lazy, Anon}, o, 0), State())
                && o !in mid.objects && o in objects && objects[o] == NewObject(AlignUp(len), [])
                && tasks[t].hint == addr + AlignUp(len)
      ensures status == Ok ==>
                forall va: nat :: addr <= va < addr + AlignUp(len) ==> Backing(tasks, objects, (t, va)) == Some((o, (va - addr) / PAGE))
      ensures Inv(mid, frames) && (Fixed !in flags || len == 0 ==> mid == old(State()))
      ensures Fixed in flags ==>
                var at := AlignDown(hint); ClearNext(old(State()), t, at, AlignUp((at + AlignUp(len)) % U64), mid)
      ensures status != Ok ==> tasks == mid.tasks && pt == mid.pt && objects == mid.objects && outside == mid.outside
      ensures status == if len == 0 then Invalid else if o == 0 then NoMem
                        else PlaceStatus(old(tasks)[t], hint, AlignUp(len), Fixed in flags)
    {
      hide Inv, MapNext, UnmapNext, RefusedNext, AlignUp, AlignDown, Overlaps, NewObject, PlaceStatus, AddStatus, Backing;
      mid, addr := State(), 0;
      if len == 0 {
        return Invalid, 0, mid;
      }
      var alen := AlignUp(len);
      AlignUpFits(len);
      addr := Place(t, hint, alen, Fixed in flags);
      mid := State();
      if addr == 0 || o == 0 {
        return NoMem, 0, mid;
      }
      status := AddNew(t, addr, alen, prot, flags + {Lazy, Anon}, o, [], 0);
      if status == Ok {
        MoveHint(t, addr + alen, mid, Entry(addr, addr + alen, prot, flags + {Lazy, Anon}, o, 0));
        NewPages(mid, t, Entry(addr, addr + alen, prot, flags + {Lazy, Anon}, o, 0), State(), []);
      }
    }

    /** Memory backed by the bytes of a file, from an offset on. */
    method MmapFile(t: TaskId, hint: Word64, len: Word64, prot: Prot, flags: set<Flag>, o: ObjId, file: seq<byte>, offset: nat)
      returns (status: Status, addr: nat, ghost mid: Vm)
      requires Valid() && t in tasks && Cow !in flags && o !in objects
      modifies this
      ensures Valid() && mem == old(mem)
      ensures status == Ok ==>
                && (if Fixed in flags then addr == AlignDown(hint) && UnmapNext(old(State()), t, addr, addr + AlignUp(len), mid)
                    else mid == old(State()))
                && MapNext(mid, t, Entry(addr, addr + AlignUp(len), prot, flags + {Lazy}, o, offset), State())
                && o !in mid.objects && o in objects && objects[o] == NewObject(AlignUp(len), file)
                && tasks[t].hint == addr + AlignUp(len)
      ensures status == Ok ==>
                forall va: nat :: addr <= va < addr + AlignUp(len) ==>
                  var i: nat := (offset + (va - addr)) / PAGE;
                  Backing(tasks, objects, (t, va)) == if i < AlignUp(len) / PAGE then Some((o, i)) else None
      ensures Inv(mid, frames) && (Fixed !in flags || len == 0 ==> mid == old(State()))
      ensures Fixed in flags ==>
                var at := AlignDown(hint); ClearNext(old(State()), t, at, AlignUp((at + AlignUp(len)) % U64), mid)
      ensures status != Ok ==> tasks == mid.tasks && pt == mid.pt && objects == mid.objects && outside == mid.outside
      ensures status == if len == 0 then Invalid else if o == 0 then NoMem
                        else PlaceStatus(old(tasks)[t], hint, AlignUp(len), Fixed in flags)
    {
      hide Inv, MapNext, UnmapNext, RefusedNext, AlignUp, AlignDown, Overlaps, NewObject, PlaceStatus, AddStatus, Backing;
      mid, addr := State(), 0;
      if len == 0 {
        return Invalid, 0, mid;
      }
      var alen := AlignUp(len);
      AlignUpFits(len);
      addr := Place(t, hint, alen, Fixed in flags);
      mid := State();
      if addr == 0 || o == 0 {
        return NoMem, 0, mid;
      }
      status := AddNew(t, addr, alen, prot, flags + {Lazy}, o, file, offset);
      if status == Ok {
        MoveHint(t, addr + alen, mid, Entry(addr, addr + alen, prot, flags + {Lazy}, o, offset));
        NewPages(mid, t, Entry(addr, addr + alen, prot, flags + {Lazy}, o, offset), State(), file);
      }
    }

    /** Memory of an object that the caller holds. */
    method MmapObject(t: TaskId, hint: Word64, len: Word64, prot: Prot, flags: set<Flag>, o: ObjId, offset: nat)
      returns (status: Status, addr: nat, ghost mid: Vm)
      requires Valid() && t in tasks && Cow !in flags && (o != 0 ==> o in objects && o in outside && outside[o] > 0)
      modifies this
      ensures Valid() && mem == old(mem)
      ensures status == Ok ==>
                && (if Fixed in flags then addr == AlignDown(hint) && UnmapNext(old(State()), t, addr, addr + AlignUp(len), mid)
                    else mid == old(State()))
                && MapNext(mid, t, Entry(addr, addr + AlignUp(len), prot, flags + {Lazy}, o, offset), State())
                && o in objects && objects[o].resident == old(objects)[o].resident && outside[o] == old(outside)[o]
                && tasks[t].hint == addr + AlignUp(len)
      ensures status == Ok ==>
                forall va: nat :: addr <= va < addr + AlignUp(len) ==>
                  var i: nat := (offset + (va - addr)) / PAGE;
                  Backing(tasks, objects, (t, va)) == if i < |objects[o].resident| then Some((o, i)) else None
      ensures Inv(mid, frames) && (Fixed !in flags || len == 0 ==> mid == old(State()))
      ensures Fixed in flags ==>
                var at := AlignDown(hint); ClearNext(old(State()), t, at, AlignUp((at + AlignUp(len)) % U64), mid)
      ensures status != Ok ==> State() == mid
      ensures status == if len == 0 || o == 0 then Invalid else PlaceStatus(old(tasks)[t], hint, AlignUp(len), Fixed in flags)
    {
      hide Inv, MapNext, UnmapNext, RefusedNext, AlignUp, AlignDown, Overlaps, PlaceStatus, Backing;
      mid, addr := State(), 0;
      if len == 0 || o == 0 {
        return Invalid, 0, mid;
      }
      var alen := AlignUp(len);
      AlignUpFits(len);
      addr := Place(t, hint, alen, Fixed in flags);
      mid := State();
      if addr == 0 {
        return NoMem, 0, mid;
      }
      EndOfRange(addr, alen);
      status := MapAdd(t, addr, alen, prot, flags + {Lazy}, o, offset);
      if status == Ok {
        MoveHint(t, addr + alen, mid, Entry(addr, addr + alen, prot, flags + {Lazy}, o, offset));
        MappedPages(mid, t, Entry(addr, addr + alen, prot, flags + {Lazy}, o, offset), State());
      }
    }

    /** An entry of a new object, which the entry alone keeps alive. */
    method AddNew(t: TaskId, addr: nat, len: nat, prot: Prot, flags: set<Flag>, o: ObjId, file: seq<byte>, offset: nat) returns (status: Status)
      requires Valid() && t in tasks && Cow !in flags && o !in objects && o != 0
      requires addr % PAGE == 0 && len % PAGE == 0 && addr < U64 && len < U64
      modifies this`tasks, this`refs, this`free, this`objects, this`outside
      ensures Valid()
      ensures status == Ok ==>
                && RangeValid(addr, addr + len) && len > 0 && |old(tasks)[t].entries| < MAX_ENTRIES
                && AlignUp((addr + len) % U64) == addr + len
                && MapNext(old(State()), t, Entry(addr, addr + len, prot, flags, o, offset), State())
                && tasks == old(tasks)[t := old(tasks)[t].(entries := old(tasks)[t].entries + [Entry(addr, addr + len, prot, flags, o, offset)])]
                && o in objects && objects[o] == NewObject(len, file)
      ensures status != Ok ==> tasks == old(tasks) && objects == old(objects) && outside == old(outside)
      ensures status == AddStatus(old(tasks)[t].entries, addr, AlignUp((addr + len) % U64), len)
    {
      hide Inv, MapNext, AlignUp, AlignDown, Overlaps, NewObject;
      ghost var s0 := State();
      SameOutside(s0, frames);
      CreateObject(o, len, file);
      ghost var s1 := State();
      EndOfRange(addr, len);
      status := MapAdd(t, addr, len, prot, flags, o, offset);
      ghost var s2 := State();
      SlotsOfNew(len, file);
      DropHandle(o);
      if status == Ok {
        NewMemory(s0, s1, t, Entry(addr, addr + len, prot, flags, o, offset), s2, State());
      } else {
        assert objects == s0.objects && outside == s0.outside;
      }
    }

    /** The next search for a gap starts behind the new mapping. */
    method MoveHint(t: TaskId, hint: Word64, ghost s0: Vm, ghost e: Entry)
      requires Valid() && t in tasks && MapNext(s0, t, e, State())
      modifies this`tasks
      ensures Valid() && t in tasks && tasks == old(tasks)[t := old(tasks)[t].(hint := hint)] && MapNext(s0, t, e, State())
    {
      hide Inv;
      tasks := tasks[t := tasks[t].(hint := hint)];
      SameEntries(old(State()), t, State(), frames);
    }

    /** Where a program's heap begins, and ends at first. */
    method SetBrkBase(t: TaskId, base: Word64)
      requires Valid() && t in tasks
      modifies this`tasks
      ensures Valid() && t in tasks && AdjustNext(old(State()), t, State())
      ensures tasks[t].brkBase == tasks[t].brkEnd == AlignUp(base) && tasks[t].brkEnd % PAGE == 0
    {
      hide Inv, AlignUp;
      AlignUpFits(base);
      tasks := tasks[t := tasks[t].(brkBase := AlignUp(base), brkEnd := AlignUp(base))];
      SameEntries(old(State()), t, State(), frames);
    }

    /** Moves the end of the heap: up with fresh private memory, down by unmapping. */
    method Brk(t: TaskId, newBreak: Word64, o: ObjId) returns (status: Status, end: nat)
      requires Valid() && t in tasks && tasks[t].brkEnd % PAGE == 0 && o !in objects
      modifies this
      ensures Valid() && mem == old(mem) && t in tasks && tasks[t].brkEnd % PAGE == 0
      ensures status != Ok ==> tasks == old(tasks) && pt == old(pt) && objects == old(objects) && outside == old(outside)
      ensures status == Ok ==> end == tasks[t].brkEnd == if newBreak == 0 then old(tasks)[t].brkEnd else AlignUp(newBreak)
      ensures status == Ok && end == old(tasks)[t].brkEnd ==> tasks == old(tasks) && pt == old(pt) && objects == old(objects)
      ensures status == Ok && end > old(tasks)[t].brkEnd ==>
                && MapNext(old(State()), t, Entry(old(tasks)[t].brkEnd, end, Prot(true, true, false), {Anon, Private, Lazy}, o, 0), State())
                && forall va: nat :: old(tasks)[t].brkEnd <= va < end ==>
                     Backing(tasks, objects, (t, va)) == Some((o, (va - old(tasks)[t].brkEnd) / PAGE))
      ensures status == Ok && end < old(tasks)[t].brkEnd ==>
                (if |old(tasks)[t].entries| == MAX_ENTRIES && SplitsAny(old(tasks)[t].entries, end, old(tasks)[t].brkEnd)
                 then RefusedNext(old(State()), t, end, old(tasks)[t].brkEnd, State())
                 else UnmapNext(old(State()), t, end, old(tasks)[t].brkEnd, State()))
      ensures var task, end := old(tasks)[t], AlignUp(newBreak);
              status == if newBreak == 0 then Ok
                        else if task.brkBase == 0 || end < task.brkBase then Invalid
                        else if end <= task.brkEnd then Ok
                        else if o == 0 then NoMem
                        else AddStatus(task.entries, task.brkEnd, end, end - task.brkEnd)
    {
      hide Inv, MapNext, UnmapNext, RefusedNext, AlignUp, AlignDown, SplitsAny, HitsAny, Cleared, Punch, NewObject, Overlaps, Backing;
      var top := tasks[t].brkEnd;
      if newBreak == 0 {
        return Ok, top;
      }
      end := AlignUp(newBreak);
      AlignUpFits(newBreak);
      if tasks[t].brkBase == 0 || end < tasks[t].brkBase {
        return Invalid, end;
      }
      ghost var s0, e := State(), Entry(top, end, Prot(true, true, false), {Anon, Private, Lazy}, o, 0);
      if end > top {
        if o == 0 {
          return NoMem, end;
        }
        WholePages(end);
        status := AddNew(t, top, end - top, Prot(true, true, false), {Anon, Private, Lazy}, o, [], 0);
        if status != Ok {
          return;
        }
      } else if end < top {
        EndOfRange(end, top - end);
        WholePages(top);
        var _ := MapRemove(t, end, top - end);
        UnmapObjects(s0, t, end, top, State());
      }
      ghost var s1 := State();
      tasks := tasks[t := tasks[t].(brkEnd := end)];
      SameEntries(s1, t, State(), frames);
      SameSteps(s0, t, e, end, top, s1, State());
      if end > top {
        NewPages(s0, t, e, State(), []);
      }
      status := Ok;
    }

    // -------------------------------------------------------- fork and exit

    /** The pages of the entries in `done` are shared with the child. */
    ghost predicate Forking(s0: Vm, t: TaskId, c: TaskId, done: seq<Entry>)
      reads this
    {
      && t in s0.tasks && c !in s0.tasks && outside == s0.outside && mem == s0.mem && PagesOk()
      && free == s0.free && Forked(s0.pt, pt, t, c, done)
    }

    /** The first i entries of t are cloned into cs. */
    ghost predicate Cloning(s0: Vm, t: TaskId, c: TaskId, i: nat, cs: seq<Entry>)
      reads this
    {
      && t in s0.tasks && i <= |s0.tasks[t].entries|
      && var es := s0.tasks[t].entries;
         && cs == CowMarked(es[..i]) && tasks == s0.tasks[t := s0.tasks[t].(entries := cs + es[i..])]
         && Forking(s0, t, c, es[..i]) && Referenced(s0.objects, objects, es[..i])
    }

    /** The child maps the parent's frame; a page to be copied on write loses its write permission on both sides. */
    method SharePage(t: TaskId, c: TaskId, va: nat, cow: bool, write: bool)
      requires PagesOk() && (t, va) in pt && (c, va) !in pt && pt[(t, va)].phys != 0
      modifies this`pt, this`refs
      ensures PagesOk()
      ensures var phys := old(pt)[(t, va)].phys; var shared := old(pt)[(c, va) := Pte(phys, !cow && write)];
              pt == if cow then shared[(t, va) := Pte(phys, false)] else shared
    {
      hide CountsOk, FramesOk, Count;
      var phys := pt[(t, va)].phys;
      var pte := Pte(phys, !cow && write);
      ghost var r := refs;
      CountsRefs(refs, pt, objects);
      HeldFrame(refs, pt, objects, free, frames, (t, va));
      var _ := RetainPage(phys);
      AddMapping(r, refs, pt, objects, (c, va), pte);
      FramesRetained(r, refs, free, frames, phys);
      assert free - {phys} == free;
      pt := pt[(c, va) := pte];
      if cow {
        Remap(refs, pt, objects, (t, va), false);
        pt := pt[(t, va) := pte];
      }
    }

    /** Shares all pages of one entry with the child. */
    method ShareEntry(t: TaskId, c: TaskId, e: Entry, ghost s0: Vm, ghost done: seq<Entry>)
      requires Inv(s0, frames) && Forking(s0, t, c, done) && e.Ok()
      requires forall v: nat :: e.Covers(v) ==> MapView(done, v).None?
      modifies this`pt, this`refs
      ensures Forking(s0, t, c, done + [e])
    {
      hide Inv, CountsOk, FramesOk, Forked, MapView;
      var cow := e.CowCandidate();
      ForkStart(s0, t, c, frames);
      ForkedEnds(s0.pt, pt, t, c, done, e);
      var va := e.start;
      while va < e.end
        invariant e.start <= va <= e.end && va % PAGE == 0
        invariant Forking(s0, t, c, done + [e.(end := va)])
        decreases e.end - va
      {
        ForkedAt(s0.pt, pt, t, c, done, e, va);
        ghost var pt1 := pt;
        if (t, va) in pt {
          SharePage(t, c, va, cow, e.prot.write);
        }
        ForkedPage(s0.pt, pt1, t, c, done, e, va, pt);
        va := va + PAGE;
      }
    }

    /** Clones one entry: both copies are marked, the object counts one more reference, the pages are shared. */
    method CloneEntry(t: TaskId, c: TaskId, i: nat, cs: seq<Entry>, ghost s0: Vm) returns (cs': seq<Entry>)
      requires Inv(s0, frames) && Cloning(s0, t, c, i, cs) && i < |s0.tasks[t].entries|
      modifies this`pt, this`refs, this`objects, this`tasks
      ensures Cloning(s0, t, c, i + 1, cs')
    {
      hide Inv, CountsOk, FramesOk, Forked, MapView, EntriesOk, Referenced, CowMarked;
      ghost var es := s0.tasks[t].entries;
      InvEntries(s0, t, frames);
      EarlierEntries(es, i);
      MarkStep(es, i);
      var e := tasks[t].entries[i];
      cs' := cs + [CowMark(e)];
      var objects1 := if e.obj in objects then objects[e.obj := objects[e.obj].(refs := objects[e.obj].refs + 1)] else objects;
      ReferencedStep(s0.objects, objects, es[..i], e, objects1);
      SameResidents(refs, pt, objects, objects1);
      objects := objects1;
      tasks := tasks[t := tasks[t].(entries := tasks[t].entries[i := CowMark(e)])];
      ShareEntry(t, c, e, s0, es[..i]);
    }

    /** Clones a task's address space: same entries, same frames, private writable pages copied when written. */
    method ForkClone(t: TaskId, c: TaskId)
      requires Valid() && t in tasks && c !in tasks
      modifies this
      ensures Valid() && ForkNext(old(State()), t, c, State())
      ensures c in tasks && t in tasks && tasks[c] == tasks[t]
      ensures objects.Keys == old(objects).Keys && forall o :: o in objects ==> objects[o].file == old(objects)[o].file
    {
      hide Inv, CountsOk, FramesOk, Forked, ForkNext, MapView, Referenced, CowMarked;
      ghost var s0, es := State(), tasks[t].entries;
      InvPages(s0, frames);
      ForkBegin(s0, t, c);
      var n, i, cs := |tasks[t].entries|, 0, [];
      while i < n
        invariant 0 <= i <= n && Cloning(s0, t, c, i, cs)
      {
        cs := CloneEntry(t, c, i, cs, s0);
        i := i + 1;
      }
      assert es[..n] == es && cs + es[n..] == cs;
      tasks := tasks[c := tasks[t].(entries := cs)];
      ForkDone(s0, t, c, State(), frames);
      SameFiles(s0.objects, objects, es);
    }

    /** Unmaps everything a task has mapped and drops its map. */
    method TaskDestroy(t: TaskId)
      requires Valid() && t in tasks
      modifies this
      ensures Valid() && ExitNext(old(State()), t, State())
    {
      hide Inv, UnmapNext, Punch, AlignUp, AlignDown, SplitsAny, HitsAny, Cleared, Leaving;
      ghost var s0 := State();
      LeaveBegin(s0, t, frames);
      while |tasks[t].entries| > 0
        invariant Valid() && t in tasks && Leaving(s0, t, State())
        decreases |tasks[t].entries|
      {
        ghost var s1 := State();
        var e := tasks[t].entries[0];
        FirstEntry(s1, t, frames);
        var _ := MapRemove(t, e.start, e.end - e.start);
        LeaveStep(s0, t, s1, e.start, e.end, State());
      }
      ghost var s1 := State();
      tasks := tasks - {t};
      LeaveEnd(s0, t, s1, State(), frames);
    }

    /** A store by a user program to a page that is present and writable. */
    method UserStore(t: TaskId, va: nat, off: nat, b: byte)
      requires Valid() && (t, va) in pt && pt[(t, va)].writable && off < PAGE
      modifies this`mem
      ensures Valid() && StoreNext(old(State()), (t, va), off, b, State())
    {
      hide Inv;
      var phys := pt[(t, va)].phys;
      StoreFits(State(), (t, va), frames);
      mem := mem[phys := PutByte(mem[phys], off, b)];
      StepKeepsInv(old(State()), Store(t, va, off, b), State(), frames) by { InvCounted(old(State()), State(), frames); }
    }

    // --------------------------------------------------------------- faults

    /** A page fault of a user program: refused, resolved by a copy, by a resident page, or by a fresh one. */
    method FaultHandle(t: TaskId, addr: nat, isUser: bool, isWrite: bool, isExec: bool) returns (status: Status)
      requires Valid() && t in tasks && addr < U64
      modifies this
      ensures Valid() && tasks == old(tasks) && outside == old(outside)
      ensures FaultNext(old(State()), (t, AlignDown(addr)), State())
      ensures status != Ok ==> unchanged(this)
      ensures var v := PageAt(tasks, (t, AlignDown(addr)));
              status == Ok ==>
                && isUser && v.Some?
                && (isExec ==> v.value.prot.exec) && (isWrite ==> v.value.prot.write)
                && (t, AlignDown(addr)) in pt && (isWrite ==> pt[(t, AlignDown(addr))].writable)
      ensures var k := (t, AlignDown(addr)); var v := PageAt(tasks, k);
              isUser && 0x1000 <= addr < KERNEL_BASE && v.Some? && Permits(v.value.prot, isWrite, isExec) &&
              (k !in old(pt) || (isWrite && Cow in v.value.flags)) ==>
                status == Ok || (status == NoMem && free == {})
      ensures isUser && 0x1000 <= addr < KERNEL_BASE ==> (status == NotFound <==> PageAt(tasks, (t, AlignDown(addr))).None?)
      ensures var k := (t, AlignDown(addr));
              status == Ok && k !in old(pt) && ResidentAt(old(tasks), old(objects), k) == 0 ==>
                pt[k].phys in mem && mem[pt[k].phys] == Filling(old(objects), PageAt(tasks, k).value)
    {
      hide Inv, FaultNext, CowCopied, ResidentMapped, FreshMapped, MapView, Lookup;
      var va := AlignDown(addr);
      Aligned(addr);
      FaultRefused(State(), (t, va));
      if !isUser || addr < 0x1000 || addr >= KERNEL_BASE {
        return Denied;
      }
      var r := MapLookup(t, va);
      LookupCovers(tasks[t].entries, va);
      if r.None? {
        return NotFound;
      }
      var e := r.value;
      if isExec && !e.prot.exec {
        return Denied;
      }
      if isWrite && !e.prot.write {
        return Denied;
      }
      if !isWrite && !isExec && !e.prot.read && !e.prot.write {
        return Denied;
      }
      if (t, va) in pt {
        if isWrite && Cow in e.flags {
          status := CopyPage(t, va, e);
        } else {
          status := Denied;
        }
      } else {
        status := BringIn(t, va, e);
      }
    }

    /** Copy on write: the task leaves the shared page for a copy of its own. */
    method CopyPage(t: TaskId, va: nat, e: Entry) returns (status: Status)
      requires Valid() && (t, va) in pt && PageAt(tasks, (t, va)) == (if e.Covers(va) then Some(ViewOf(e, va)) else None)
      requires e.Covers(va) && Cow in e.flags && e.prot.write
      modifies this
      ensures Valid() && tasks == old(tasks) && outside == old(outside)
      ensures FaultNext(old(State()), (t, va), State())
      ensures status == Ok || status == NoMem
      ensures status == Ok ==> (t, va) in pt && pt[(t, va)].writable
      ensures status == NoMem ==> unchanged(this) && free == {}
    {
      hide Inv, CountsOk, FramesOk, ObjectsOk, PageAt, Count, FaultNext;
      ghost var s0 := State();
      InvParts(s0, frames);
      InvMem(s0, frames);
      CountsRefs(refs, pt, objects);
      FaultRefused(s0, (t, va));
      var cur := pt[(t, va)].phys;
      var p := AllocZeroPage();
      if p == 0 {
        return NoMem;
      }
      ghost var r := refs;
      mem := mem[p := mem[cur]];
      pt := pt[(t, va) := Pte(p, e.prot.write)];
      ghost var f := free;
      RetainedRefs(s0.refs, refs, p);
      var _ := ReleasePage(cur);
      CopyCounts(s0, r, refs, p, (t, va), e.prot.write, frames);
      FramesReleased(r, refs, f, frames, cur);
      assert mem == s0.mem[p := s0.mem[cur]];
      CopyDone(s0, (t, va), p, State(), frames);
      return Ok;
    }

    /** A page that is not present: the object's page if it has one, else a fresh page for both. */
    method BringIn(t: TaskId, va: nat, e: Entry) returns (status: Status)
      requires Valid() && (t, va) !in pt && va % PAGE == 0
      requires e.Covers(va) && PageAt(tasks, (t, va)) == Some(ViewOf(e, va))
      modifies this
      ensures Valid() && tasks == old(tasks) && outside == old(outside)
      ensures FaultNext(old(State()), (t, va), State())
      ensures status == Ok || status == NoMem
      ensures status == Ok ==>
                && (t, va) in pt && pt[(t, va)].writable == e.prot.write && pt[(t, va)].phys in mem
                && (ResidentAt(old(tasks), old(objects), (t, va)) == 0 ==>
                      mem[pt[(t, va)].phys] == Filling(old(objects), ViewOf(e, va)))
      ensures status == NoMem ==> unchanged(this) && free == {}
    {
      hide Inv, CountsOk, FramesOk, ObjectsOk, PageAt, FaultNext;
      var idx := (e.offset + (va - e.start)) / PAGE;
      var phys := if e.obj in objects && idx < |objects[e.obj].resident| then objects[e.obj].resident[idx] else 0;
      assert phys == ResidentAt(tasks, objects, (t, va));
      if phys != 0 {
        MapResident(t, va, e, phys);
        status := Ok;
      } else {
        status := MapFresh(t, va, e);
      }
    }

    method MapResident(t: TaskId, va: nat, e: Entry, phys: Phys)
      requires Valid() && (t, va) !in pt && va % PAGE == 0
      requires e.Covers(va) && PageAt(tasks, (t, va)) == Some(ViewOf(e, va))
      requires phys == ResidentAt(tasks, objects, (t, va)) != 0
      modifies this`pt, this`refs
      ensures Valid() && FaultNext(old(State()), (t, va), State())
      ensures pt == old(pt)[(t, va) := Pte(phys, e.prot.write)] && phys in mem
    {
      hide Inv, CountsOk, FramesOk, ObjectsOk, PageAt, Count, FaultNext, Backing, ResidentAt;
      ghost var s0 := State();
      InvPages(s0, frames);
      CountsRefs(refs, pt, objects);
      ResidentFrames(s0, (t, va), frames);
      var _ := RetainPage(phys);
      AddMapping(s0.refs, refs, pt, objects, (t, va), Pte(phys, e.prot.write));
      FramesRetained(s0.refs, refs, free, frames, phys);
      assert free - {phys} == free;
      pt := pt[(t, va) := Pte(phys, e.prot.write)];
      ResidentDone(s0, (t, va), State(), frames);
    }

    method MapFresh(t: TaskId, va: nat, e: Entry) returns (status: Status)
      requires Valid() && (t, va) !in pt && va % PAGE == 0
      requires e.Covers(va) && PageAt(tasks, (t, va)) == Some(ViewOf(e, va))
      requires ResidentAt(tasks, objects, (t, va)) == 0
      modifies this
      ensures Valid() && tasks == old(tasks) && outside == old(outside)
      ensures FaultNext(old(State()), (t, va), State())
      ensures status == Ok || status == NoMem
      ensures status == Ok ==>
                && (t, va) in pt && pt[(t, va)].writable == e.prot.write && pt[(t, va)].phys in mem
                && mem[pt[(t, va)].phys] == Filling(old(objects), ViewOf(e, va))
      ensures status == NoMem ==> unchanged(this) && free == {}
    {
      hide Inv, CountsOk, FramesOk, ObjectsOk, PageAt, Count, FaultNext, FreshMapped, FilePage;
      ghost var s0 := State();
      InvPages(s0, frames);
      CountsRefs(refs, pt, objects);
      var phys := AllocZeroPage();
      if phys == 0 {
        FaultRefused(s0, (t, va));
        return NoMem;
      }
      if e.obj in objects {
        mem := mem[phys := FilePage(objects[e.obj].file, e.offset + (va - e.start))];
      }
      pt := pt[(t, va) := Pte(phys, e.prot.write)];
      AddMapping(s0.refs, refs, s0.pt, objects, (t, va), Pte(phys, e.prot.write));
      var idx := (e.offset + (va - e.start)) / PAGE;
      if e.obj in objects && idx < |objects[e.obj].resident| {
        FillFresh(e.obj, idx, phys, s0);
      }
      assert mem == s0.mem[phys := Filling(s0.objects, ViewOf(e, va))];
      FreshDone(s0, (t, va), phys, Filling(s0.objects, ViewOf(e, va)), State(), frames);
      return Ok;
    }

    /** The object takes its own reference to the fresh page. */
    method FillFresh(o: ObjId, idx: nat, phys: Phys, ghost s0: Vm)
      requires PagesOk() && o in objects && idx < |objects[o].resident| && objects[o].resident[idx] == 0 && phys != 0
      requires FramesOk(s0.refs, s0.free, frames) && phys in s0.free && phys !in free
      modifies this`refs, this`objects
      ensures PagesOk() && objects == WithSlot(old(objects), o, idx, phys)
    {
      hide CountsOk, FramesOk, Count;
      ghost var r := refs;
      CountsRefs(refs, pt, objects);
      var _ := RetainPage(phys);
      FillSlot(r, refs, pt, objects, o, idx, phys);
      FreshFrame(s0, phys, frames);
      FramesRetained(r, refs, free, frames, phys);
      assert free - {phys} == free;
      objects := WithSlot(objects, o, idx, phys);
    }
  }

  /** Whether an access fits the protection of a page; a readable or writable page can be read. */
  predicate Permits(p: Prot, isWrite: bool, isExec: bool) {
    (isExec ==> p.exec) && (isWrite ==> p.write) && (!isWrite && !isExec ==> p.read || p.write)
  }

  /** The first content of a page: zeros, or what the backing file holds there. */
  function Filling(objects: map<ObjId, VmObject>, v: PageView): (p: Page)
    ensures |p| == PAGE
  {
    if v.obj in objects then FilePage(objects[v.obj].file, v.at) else ZeroPage()
  }

  /** What vm_object_create makes: no resident pages, one reference. */
  function NewObject(size: nat, file: seq<byte>): (o: VmObject)
    ensures o.refs == 1 && o.file == file && forall i :: 0 <= i < |o.resident| ==> o.resident[i] == 0
  {
    VmObject(1, seq(AlignUp(if size == 0 then PAGE else size) / PAGE, _ => 0), file)
  }

  /** A new object has a slot for every page of its size, and at least one, unless rounding the size up wraps around. */
  lemma SlotsOfNew(size: nat, file: seq<byte>)
    ensures var n := |NewObject(size, file).resident|;
            if size <= U64 - PAGE then n > 0 && (n - 1) * PAGE < Max(size, 1) <= n * PAGE else size < U64 ==> n == 0
    ensures NewObject(size, file).refs == 1
    ensures forall i :: 0 <= i < |NewObject(size, file).resident| ==> NewObject(size, file).resident[i] == 0
  {
  }

  /** The page of its object that stands behind an entry's page, where the object has n of them. */
  function ObjectPage(e: Entry, va: nat, n: nat): Option<(ObjId, nat)>
    requires e.Covers(va)
  {
    var i: nat := (e.offset + (va - e.start)) / PAGE;
    if i < n then Some((e.obj, i)) else None
  }

  lemma MappedPages(s: Vm, t: TaskId, e: Entry, s': Vm)
    requires MapNext(s, t, e, s') && e.obj in s'.objects
    ensures forall va: nat :: e.Covers(va) ==>
              Backing(s'.tasks, s'.objects, (t, va)) == ObjectPage(e, va, |s'.objects[e.obj].resident|)
  {
    hide MapView;
    var es := s'.tasks[t].entries;
    EarlierEntries(es, |es| - 1);
    assert es[..|es| - 1] == s.tasks[t].entries;
    forall va: nat | e.Covers(va)
      ensures PageAt(s'.tasks, (t, va)) == Some(ViewOf(e, va))
    {
      MapPages(s, t, e, s', (t, va));
    }
  }

  /** Behind new memory there is a page of the new object as far as the object goes: everywhere, if the entry starts at its beginning. */
  lemma NewPages(s: Vm, t: TaskId, e: Entry, s': Vm, file: seq<byte>)
    requires MapNext(s, t, e, s') && e.obj in s'.objects && e.start < e.end && s'.objects[e.obj] == NewObject(e.end - e.start, file)
    ensures forall va: nat :: e.Covers(va) ==>
              Backing(s'.tasks, s'.objects, (t, va)) == ObjectPage(e, va, (e.end - e.start) / PAGE)
    ensures e.offset == 0 ==> forall va: nat :: e.Covers(va) ==>
              Backing(s'.tasks, s'.objects, (t, va)) == Some((e.obj, (va - e.start) / PAGE))
  {
    hide Backing;
    MappedPages(s, t, e, s');
    NewEntryOk(s, t, e, s');
    SlotsOfNew(e.end - e.start, file);
    assert |s'.objects[e.obj].resident| == (e.end - e.start) / PAGE;
  }

  lemma NewEntryOk(s: Vm, t: TaskId, e: Entry, s': Vm)
    requires MapNext(s, t, e, s')
    ensures e.Ok()
  {
    var es := s'.tasks[t].entries;
    assert es[|es| - 1] == e;
  }

  /** The bytes of a fresh page: the file's from the page's place on, and zeros where it has none. */
  lemma FirstBytes(objects: map<ObjId, VmObject>, v: PageView)
    ensures forall i :: 0 <= i < PAGE ==>
              Filling(objects, v)[i] == if v.obj in objects && v.at + i < |objects[v.obj].file| then objects[v.obj].file[v.at + i] else 0
  {
  }

  /** A page of a file object: the bytes of the file from `off` on, zeros behind its end. */
  function FilePage(file: seq<byte>, off: nat): (p: Page)
    ensures |p| == PAGE
  {
    if off >= |file| then ZeroPage()
    else if |file| - off > PAGE then file[off..off + PAGE]
    else file[off..] + seq(PAGE - (|file| - off), _ => 0)
  }

  ghost predicate HitsAny(es: seq<Entry>, lo: nat, hi: nat) {
    exists j :: 0 <= j < |es| && Hits(es[j], lo, hi)
  }

  /** Objects may go; those that stay keep their pages and their outside holders. */
  ghost predicate Shrunk(objects: map<ObjId, VmObject>, outside: map<ObjId, nat>, objects': map<ObjId, VmObject>, outside': map<ObjId, nat>) {
    && objects'.Keys <= objects.Keys && outside'.Keys == objects'.Keys
    && (forall o :: o in objects' ==> objects'[o].resident == objects[o].resident)
    && (forall o :: o in objects' && o in outside ==> outside'[o] == outside[o])
    && (forall o :: o in objects && o in outside && outside[o] > 0 ==> o in objects')
  }

  lemma ObjectOfEntry(tasks: map<TaskId, Task>, objects: map<ObjId, VmObject>, outside: map<ObjId, nat>, t: TaskId, i: nat)
    requires ObjectsOk(tasks, objects, outside) && t in tasks && i < |tasks[t].entries|
    ensures tasks[t].entries[i].obj != 0 ==> tasks[t].entries[i].obj in objects && objects[tasks[t].entries[i].obj].refs > 0
    ensures outside.Keys == objects.Keys && 0 !in objects
  {
    hide EntryRefs;
  }

  /** How the references to o change when entry e of task t is cut. */
  lemma CutCounts(tasks: map<TaskId, Task>, t: TaskId, a: seq<Entry>, e: Entry, b: seq<Entry>, lo: nat, hi: nat, o: ObjId)
    requires t in tasks && tasks[t].entries == a + [e] + b
    ensures var tasks' := tasks[t := tasks[t].(entries := a + Pieces(e, lo, hi) + b)];
            |EntryRefs(tasks', o)| + (if e.obj == o then 1 else 0) ==
            |EntryRefs(tasks, o)| + (if e.obj == o then |Pieces(e, lo, hi)| else 0)
  {
    hide CountObj, EntryRefs;
    EntryRefsChange(tasks, t, tasks[t].(entries := a + Pieces(e, lo, hi) + b), o);
    CutRefs(a, e, Pieces(e, lo, hi), b, o);
    PiecesRefs(e, lo, hi, o);
  }

  lemma CutNames(tasks: map<TaskId, Task>, objects: map<ObjId, VmObject>, outside: map<ObjId, nat>, t: TaskId, a: seq<Entry>, e: Entry, b: seq<Entry>, lo: nat, hi: nat)
    requires ObjectsOk(tasks, objects, outside) && t in tasks && tasks[t].entries == a + [e] + b
    ensures var tasks' := tasks[t := tasks[t].(entries := a + Pieces(e, lo, hi) + b)];
            forall u, i :: u in tasks' && 0 <= i < |tasks'[u].entries| && tasks'[u].entries[i].obj != 0 ==>
                             tasks'[u].entries[i].obj in objects
  {
    hide EntryRefs;
    PiecesRefs(e, lo, hi, 0);
    var r := Pieces(e, lo, hi);
    var es := a + r + b;
    forall i | 0 <= i < |es| && es[i].obj != 0
      ensures es[i].obj in objects
    {
      assert tasks[t].entries[|a|] == e;
      if i < |a| {
        assert tasks[t].entries[i] == es[i];
      } else if i < |a| + |r| {
        assert es[i] in r;
      } else {
        assert tasks[t].entries[i - |r| + 1] == es[i];
      }
    }
  }

  lemma EntryTrimmed(tasks: map<TaskId, Task>, objects: map<ObjId, VmObject>, outside: map<ObjId, nat>, t: TaskId, a: seq<Entry>, e: Entry, b: seq<Entry>, lo: nat, hi: nat)
    requires ObjectsOk(tasks, objects, outside) && t in tasks && tasks[t].entries == a + [e] + b && |Pieces(e, lo, hi)| == 1
    ensures ObjectsOk(tasks[t := tasks[t].(entries := a + Pieces(e, lo, hi) + b)], objects, outside)
    ensures Shrunk(objects, outside, objects, outside)
  {
    hide EntryRefs, Pieces;
    CutNames(tasks, objects, outside, t, a, e, b, lo, hi);
    forall o | o in objects
      ensures |EntryRefs(tasks[t := tasks[t].(entries := a + Pieces(e, lo, hi) + b)], o)| == |EntryRefs(tasks, o)|
    {
      CutCounts(tasks, t, a, e, b, lo, hi, o);
    }
  }

  lemma EntrySplit(tasks: map<TaskId, Task>, objects: map<ObjId, VmObject>, outside: map<ObjId, nat>, t: TaskId, a: seq<Entry>, e: Entry, b: seq<Entry>, lo: nat, hi: nat, objects': map<ObjId, VmObject>)
    requires ObjectsOk(tasks, objects, outside) && t in tasks && tasks[t].entries == a + [e] + b && |Pieces(e, lo, hi)| == 2
    requires e.obj != 0 ==> e.obj in objects && objects' == objects[e.obj := objects[e.obj].(refs := objects[e.obj].refs + 1)]
    requires e.obj == 0 ==> objects' == objects
    ensures ObjectsOk(tasks[t := tasks[t].(entries := a + Pieces(e, lo, hi) + b)], objects', outside)
    ensures Shrunk(objects, outside, objects', outside)
  {
    hide EntryRefs, Pieces;
    CutNames(tasks, objects, outside, t, a, e, b, lo, hi);
    forall o | o in objects
      ensures |EntryRefs(tasks[t := tasks[t].(entries := a + Pieces(e, lo, hi) + b)], o)| ==
              |EntryRefs(tasks, o)| + (if e.obj == o then 1 else 0)
    {
      CutCounts(tasks, t, a, e, b, lo, hi, o);
    }
  }

  /** When the last reference to an object goes, no entry names it any more. */
  lemma EntryDropped(tasks: map<TaskId, Task>, objects: map<ObjId, VmObject>, outside: map<ObjId, nat>, t: TaskId, a: seq<Entry>, e: Entry, b: seq<Entry>, lo: nat, hi: nat, objects': map<ObjId, VmObject>, outside': map<ObjId, nat>)
    requires ObjectsOk(tasks, objects, outside) && t in tasks && tasks[t].entries == a + [e] + b && Pieces(e, lo, hi) == []
    requires e.obj == 0 ==> objects' == objects && outside' == outside
    requires e.obj != 0 ==>
               && e.obj in objects
               && objects' == (if objects[e.obj].refs == 1 then objects - {e.obj}
                               else objects[e.obj := objects[e.obj].(refs := objects[e.obj].refs - 1)])
               && outside' == (if e.obj in objects' then outside else outside - {e.obj})
    ensures ObjectsOk(tasks[t := tasks[t].(entries := a + Pieces(e, lo, hi) + b)], objects', outside')
    ensures Shrunk(objects, outside, objects', outside')
  {
    hide EntryRefs, Pieces;
    var tasks' := tasks[t := tasks[t].(entries := a + Pieces(e, lo, hi) + b)];
    CutNames(tasks, objects, outside, t, a, e, b, lo, hi);
    forall o | o in objects
      ensures |EntryRefs(tasks', o)| + (if e.obj == o then 1 else 0) == |EntryRefs(tasks, o)|
    {
      CutCounts(tasks, t, a, e, b, lo, hi, o);
    }
    assert tasks[t].entries[|a|] == e;
    Named(tasks, t, |a|);
    forall u, i | u in tasks' && 0 <= i < |tasks'[u].entries| && tasks'[u].entries[i].obj != 0
      ensures tasks'[u].entries[i].obj in objects'
    {
      Named(tasks', u, i);
    }
  }

  function ZeroPage(): (p: Page)
    ensures |p| == PAGE
  {
    seq(PAGE, _ => 0)
  }

  lemma CountsRefs(refs: seq<RefNode>, pt: map<Key, Pte>, objects: map<ObjId, VmObject>)
    requires CountsOk(refs, pt, objects)
    ensures RefsOk(refs)
  {
  }

  /** With aligned addresses, clearing one more page is dropping at most one entry. */
  lemma ClearedStep(pt: map<Key, Pte>, t: TaskId, lo: nat, va: nat)
    requires lo <= va && va % PAGE == 0 && forall k :: k in pt ==> k.1 % PAGE == 0
    ensures Cleared(pt, t, lo, va + PAGE) == Cleared(pt, t, lo, va) - {(t, va)}
    ensures (t, va) in pt ==> (t, va) in Cleared(pt, t, lo, va) && Cleared(pt, t, lo, va)[(t, va)] == pt[(t, va)]
  {
    forall k | k in pt && va <= k.1 < va + PAGE
      ensures k.1 == va
    {
    }
  }

  // ------------------------------------------------------- removal, in pieces

  lemma Aligned(v: nat)
    ensures AlignDown(v) % PAGE == 0 && forall u :: AlignUp(u) % PAGE == 0
  {
  }

  /** The page table without the pages of a range that some entry in es covers. */
  ghost function ClearedBy(pt: map<Key, Pte>, t: TaskId, lo: nat, hi: nat, es: seq<Entry>): map<Key, Pte> {
    map k | k in pt && !(k.0 == t && lo <= k.1 < hi && MapView(es, k.1).Some?) :: pt[k]
  }

  lemma InvParts(s: Vm, frames: set<Phys>)
    requires Inv(s, frames)
    ensures CountsOk(s.refs, s.pt, s.objects) && FramesOk(s.refs, s.free, frames)
    ensures ObjectsOk(s.tasks, s.objects, s.outside) && s.outside.Keys == s.objects.Keys
    ensures forall t :: t in s.tasks ==> EntriesOk(s.tasks[t].entries) && PairwiseOk(s.tasks[t].entries) && |s.tasks[t].entries| <= MAX_ENTRIES
    ensures forall k :: k in s.pt ==> k.1 % PAGE == 0 && s.pt[k].phys != 0 && PageAt(s.tasks, k).Some?
  {
    hide CountsOk, FramesOk, PageAt, EntryRefs, Coherent, MemOk;
  }

  lemma RemoveStart(es: seq<Entry>, lo: nat, hi: nat, pt: map<Key, Pte>, t: TaskId, objects: map<ObjId, VmObject>, outside: map<ObjId, nat>)
    requires outside.Keys == objects.Keys
    ensures es[..0] == [] && Punch(es[..0], lo, hi) == [] && Punch(es[..0], lo, hi) + es[0..] == es
    ensures ClearedBy(pt, t, lo, hi, es[..0]) == pt
    ensures Shrunk(objects, outside, objects, outside)
  {
  }

  lemma PunchStep(es: seq<Entry>, lo: nat, hi: nat, k: nat)
    requires k < |es|
    ensures Punch(es[..k + 1], lo, hi) == Punch(es[..k], lo, hi) + Pieces(es[k], lo, hi)
    ensures es[k..] == [es[k]] + es[k + 1..]
    ensures (Punch(es[..k], lo, hi) + es[k..])[|Punch(es[..k], lo, hi)|] == es[k]
    ensures (Punch(es[..k], lo, hi) + es[k..])[..|Punch(es[..k], lo, hi)|] == Punch(es[..k], lo, hi)
    ensures (Punch(es[..k], lo, hi) + es[k..])[|Punch(es[..k], lo, hi)| + 1..] == es[k + 1..]
  {
    assert es[..k + 1][..k] == es[..k];
  }

  lemma NotHit(pt: map<Key, Pte>, t: TaskId, lo: nat, hi: nat, es: seq<Entry>, k: nat)
    requires k < |es| && !Hits(es[k], lo, hi)
    ensures Pieces(es[k], lo, hi) == [es[k]]
    ensures ClearedBy(pt, t, lo, hi, es[..k + 1]) == ClearedBy(pt, t, lo, hi, es[..k])
    ensures Punch(es[..k], lo, hi) + es[k..] == Punch(es[..k], lo, hi) + [es[k]] + es[k + 1..]
  {
    hide MapView, Punch;
    assert es[..k + 1] == es[..k] + [es[k]];
    forall j: Key | j in pt && j.0 == t && lo <= j.1 < hi
      ensures MapView(es[..k + 1], j.1).Some? == MapView(es[..k], j.1).Some?
    {
      MapViewConcat(es[..k], [es[k]], j.1);
      OneView(es[k], j.1);
    }
  }

  lemma ClearedByStep(pt: map<Key, Pte>, t: TaskId, lo: nat, hi: nat, es: seq<Entry>, k: nat)
    requires k < |es|
    ensures ClearedBy(pt, t, lo, hi, es[..k + 1]) ==
            Cleared(ClearedBy(pt, t, lo, hi, es[..k]), t, Max(lo, es[k].start), Min(hi, es[k].end))
  {
    hide MapView;
    assert es[..k + 1] == es[..k] + [es[k]];
    forall j: Key | j in pt && j.0 == t && lo <= j.1 < hi
      ensures MapView(es[..k + 1], j.1).Some? == (MapView(es[..k], j.1).Some? || es[k].Covers(j.1))
    {
      MapViewConcat(es[..k], [es[k]], j.1);
      OneView(es[k], j.1);
    }
  }

  lemma PtAligned(s: Vm, t: TaskId, lo: nat, hi: nat, es: seq<Entry>, k: nat)
    requires forall j :: j in s.pt ==> j.1 % PAGE == 0 && s.pt[j].phys != 0
    requires PairwiseOk(es) && k < |es| && lo % PAGE == 0 && hi % PAGE == 0
    ensures var pt := ClearedBy(s.pt, t, lo, hi, es[..k]); forall j :: j in pt ==> j.1 % PAGE == 0 && pt[j].phys != 0
    ensures Max(lo, es[k].start) % PAGE == 0 && Min(hi, es[k].end) % PAGE == 0
  {
    hide MapView;
    assert es[k].Ok();
  }

  lemma CutFits(e: Entry, lo: nat, hi: nat)
    requires Hits(e, lo, hi)
    ensures |Pieces(e, lo, hi)| == (if e.start < lo then 1 else 0) + (if hi < e.end then 1 else 0)
  {
  }

  lemma ShrunkTransitive(a: map<ObjId, VmObject>, x: map<ObjId, nat>, b: map<ObjId, VmObject>, y: map<ObjId, nat>, c: map<ObjId, VmObject>, z: map<ObjId, nat>)
    requires Shrunk(a, x, b, y) && Shrunk(b, y, c, z)
    ensures Shrunk(a, x, c, z)
  {
  }

  /** Everything of t in the range is covered by some entry, so all of it is cleared. */
  lemma AllCleared(s: Vm, t: TaskId, lo: nat, hi: nat)
    requires t in s.tasks && forall k :: k in s.pt ==> PageAt(s.tasks, k).Some?
    ensures ClearedBy(s.pt, t, lo, hi, s.tasks[t].entries) == Cleared(s.pt, t, lo, hi)
  {
    hide MapView;
  }

  /** Removal needs one entry more exactly if it splits one. */
  lemma PunchGrows(es: seq<Entry>, lo: nat, hi: nat)
    requires PairwiseOk(es)
    ensures if SplitsAny(es, lo, hi) then |Punch(es, lo, hi)| == |es| + 1 else |Punch(es, lo, hi)| <= |es|
  {
    hide Punch, Splits, PairwiseOk;
    if SplitsAny(es, lo, hi) {
      var k :| 0 <= k < |es| && Splits(es[k], lo, hi);
      PunchSplits(es, lo, hi, k);
    } else {
      PunchShrinks(es, lo, hi);
    }
  }

  lemma {:induction false} PunchShrinks(es: seq<Entry>, lo: nat, hi: nat)
    requires forall j :: 0 <= j < |es| ==> !Splits(es[j], lo, hi)
    ensures |Punch(es, lo, hi)| <= |es|
  {
    if es != [] {
      PunchShrinks(es[..|es| - 1], lo, hi);
      assert !Splits(es[|es| - 1], lo, hi);
    }
  }

  lemma {:induction false} PunchSplits(es: seq<Entry>, lo: nat, hi: nat, k: nat)
    requires PairwiseOk(es) && k < |es| && Splits(es[k], lo, hi)
    ensures |Punch(es, lo, hi)| == |es| + 1
  {
    hide Hits;
    SplitIsAlone(es, k, lo, hi);
    var n := |es| - 1;
    if k == n {
      PunchMisses(es[..n], lo, hi);
      SplitPieces(es[k], lo, hi);
    } else {
      PunchSplits(es[..n], lo, hi, k);
    }
  }

  lemma SplitPieces(e: Entry, lo: nat, hi: nat)
    requires Splits(e, lo, hi)
    ensures |Pieces(e, lo, hi)| == 2 && Hits(e, lo, hi)
  {
  }

  /** The walk is over: what it did is the Unmap step. */
  lemma RemoveDone(s: Vm, t: TaskId, lo: nat, hi: nat, s': Vm, frames: set<Phys>)
    requires Inv(s, frames) && t in s.tasks && lo % PAGE == 0 && hi % PAGE == 0
    requires s'.tasks == s.tasks[t := s.tasks[t].(entries := Punch(s.tasks[t].entries, lo, hi))]
    requires |s'.tasks[t].entries| <= MAX_ENTRIES
    requires s'.pt == ClearedBy(s.pt, t, lo, hi, s.tasks[t].entries) && s'.mem == s.mem
    requires Shrunk(s.objects, s.outside, s'.objects, s'.outside) && Counted(s', frames)
    ensures UnmapNext(s, t, lo, hi, s') && Inv(s', frames)
    ensures SplitsAny(s.tasks[t].entries, lo, hi) ==> |s.tasks[t].entries| < MAX_ENTRIES
  {
    hide Inv, Punch, Counted, PageAt, Cleared, ClearedBy, Splits;
    InvParts(s, frames);
    AllCleared(s, t, lo, hi);
    assert UnmapNext(s, t, lo, hi, s');
    StepKeepsInv(s, Unmap(t, lo, hi), s', frames);
    var es := s.tasks[t].entries;
    PunchGrows(es, lo, hi);
  }

  /** A split in a full map is refused, but only after the pages of the range were unmapped. */
  lemma RemoveBusy(s: Vm, t: TaskId, lo: nat, hi: nat, k: nat, s': Vm, frames: set<Phys>)
    requires Inv(s, frames) && t in s.tasks && k < |s.tasks[t].entries|
    requires Splits(s.tasks[t].entries[k], lo, hi)
    requires s'.tasks == s.tasks && s'.objects == s.objects && s'.outside == s.outside && s'.mem == s.mem
    requires s'.pt == ClearedBy(s.pt, t, lo, hi, s.tasks[t].entries[..k + 1]) && Counted(s', frames)
    ensures Inv(s', frames) && s'.pt == Cleared(s.pt, t, lo, hi)
  {
    hide CountsOk, FramesOk, ObjectsOk, MemOk, TasksOk, PageAt, ResidentAt, Backing, MapView;
    var es := s.tasks[t].entries;
    forall j: Key | j in s.pt && j.0 == t && lo <= j.1 < hi
      ensures MapView(es[..k + 1], j.1).Some?
    {
      LookupCovers(es[..k + 1], j.1);
      assert es[..k + 1][k] == es[k] && es[k] in es[..k + 1];
    }
  }

  // ----------------------------------------------------------- faults, in pieces

  lemma FaultRefused(s: Vm, k: Key)
    ensures FaultNext(s, k, s)
  {
  }

  lemma InvMem(s: Vm, frames: set<Phys>)
    requires Inv(s, frames)
    ensures forall k :: k in s.pt ==> s.pt[k].phys in s.mem && s.pt[k].phys in frames && s.pt[k].phys !in s.free
  {
    hide TasksOk, MappingsOk, CountsOk, FramesOk, ObjectsOk, Coherent;
    MappedFrames(s, frames);
  }

  lemma RetainedRefs(refs: seq<RefNode>, refs': seq<RefNode>, p: Phys)
    requires Retained(refs, refs', p)
    ensures RefsOk(refs')
  {
  }

  lemma CopyCounts(s: Vm, r: seq<RefNode>, refs: seq<RefNode>, p: Phys, k: Key, w: bool, frames: set<Phys>)
    requires CountsOk(s.refs, s.pt, s.objects) && k in s.pt && s.pt[k].phys != 0 && Count(s.refs, p) == 0 && p != 0
    requires Retained(s.refs, r, p) && Released(r, refs, s.pt[k].phys)
    ensures CountsOk(refs, s.pt[k := Pte(p, w)], s.objects) && Count(r, s.pt[k].phys) > 0
  {
    hide CountsOk, Count;
    UncountedIsUnheld(s.refs, s.pt, s.objects, p);
    ReplaceMapping(s.refs, r, refs, s.pt, s.objects, k, Pte(p, w));
  }

  lemma CopyDone(s: Vm, k: Key, p: Phys, s': Vm, frames: set<Phys>)
    requires Inv(s, frames) && CowCopied(s, k, p, s') && CountsOk(s'.refs, s'.pt, s'.objects) && FramesOk(s'.refs, s'.free, frames)
    ensures Inv(s', frames) && FaultNext(s, k, s')
  {
    hide TasksOk, MappingsOk, CountsOk, FramesOk, Coherent, MemOk, PageAt, EntryRefs;
    StepKeepsInv(s, Fault(k.0, k.1), s', frames);
  }

  lemma ResidentDone(s: Vm, k: Key, s': Vm, frames: set<Phys>)
    requires Inv(s, frames) && ResidentMapped(s, k, s') && CountsOk(s'.refs, s'.pt, s'.objects) && FramesOk(s'.refs, s'.free, frames)
    ensures Inv(s', frames) && FaultNext(s, k, s')
  {
    hide TasksOk, MappingsOk, CountsOk, FramesOk, Coherent, MemOk, PageAt, EntryRefs, ResidentAt;
    StepKeepsInv(s, Fault(k.0, k.1), s', frames);
  }

  lemma ResidentFrames(s: Vm, k: Key, frames: set<Phys>)
    requires CountsOk(s.refs, s.pt, s.objects) && FramesOk(s.refs, s.free, frames) && ResidentAt(s.tasks, s.objects, k) != 0
    ensures ResidentAt(s.tasks, s.objects, k) in frames && ResidentAt(s.tasks, s.objects, k) !in s.free
    ensures MemOk(s.mem, frames) ==> ResidentAt(s.tasks, s.objects, k) in s.mem
  {
    hide PageAt, Count;
    var (o, i) := Backing(s.tasks, s.objects, k).value;
    assert (o, i) in Slots(s.objects, ResidentAt(s.tasks, s.objects, k));
  }

  lemma FreshFrame(s: Vm, p: Phys, frames: set<Phys>)
    requires FramesOk(s.refs, s.free, frames) && p in s.free
    ensures p in frames
  {
  }

  lemma FreshDone(s: Vm, k: Key, p: Phys, content: Page, s': Vm, frames: set<Phys>)
    requires Inv(s, frames) && |content| == PAGE && s'.mem == s.mem[p := content]
    requires k !in s.pt && k.1 % PAGE == 0 && PageAt(s.tasks, k).Some? && ResidentAt(s.tasks, s.objects, k) == 0 && p in s.free
    requires s'.pt == s.pt[k := Pte(p, PageAt(s.tasks, k).value.prot.write)] && s'.tasks == s.tasks && s'.outside == s.outside
    requires s'.objects == match Backing(s.tasks, s.objects, k)
                           case None => s.objects
                           case Some((o, i)) => WithSlot(s.objects, o, i, p)
    requires CountsOk(s'.refs, s'.pt, s'.objects) && FramesOk(s'.refs, s'.free, frames)
    ensures Inv(s', frames) && FaultNext(s, k, s')
  {
    hide TasksOk, MappingsOk, CountsOk, FramesOk, Coherent, MemOk, PageAt, EntryRefs;
    assert FreshMapped(s, k, p, s');
    StepKeepsInv(s, Fault(k.0, k.1), s', frames);
  }

  // ---------------------------------------------------------- mapping, in pieces

  lemma HeldObject(s: Vm, o: ObjId, frames: set<Phys>)
    requires Inv(s, frames) && o in s.objects
    ensures s.objects[o].refs > 0
  {
    hide TasksOk, MappingsOk, MemOk, CountsOk, FramesOk, Coherent, EntryRefs;
  }

  /** The n bytes at a meet some entry. */
  predicate Taken(es: seq<Entry>, a: nat, n: nat) { Overlaps(es, a, a + n) }

  /** No gap of n bytes starts at a page from lo on and below hi. */
  ghost predicate AllTaken(es: seq<Entry>, lo: nat, hi: int, n: nat) {
    forall a: nat :: lo <= a < hi && a % PAGE == 0 ==> Taken(es, a, n)
  }

  lemma TakenMeans(es: seq<Entry>, lo: nat, n: nat, taken: bool)
    requires taken <==> exists e :: e in es && !(lo + n <= e.start || lo >= e.end)
    ensures taken <==> Taken(es, lo, n)
  {
  }

  lemma NoneTaken(es: seq<Entry>, lo: nat, n: nat)
    ensures AllTaken(es, lo, lo, n)
  {
  }

  lemma OneMoreTaken(es: seq<Entry>, lo: nat, hi: nat, n: nat)
    requires AllTaken(es, lo, hi, n) && Taken(es, hi, n) && hi % PAGE == 0
    ensures AllTaken(es, lo, hi + PAGE, n)
  {
    hide Taken;
  }

  lemma FewerTaken(es: seq<Entry>, lo: nat, hi: nat, hi': int, n: nat)
    requires AllTaken(es, lo, hi, n) && hi' <= hi
    ensures AllTaken(es, lo, hi', n)
  {
    hide Taken;
  }

  lemma SamePage(x: nat, n: nat)
    requires n % PAGE == 0
    ensures AlignDown(x + n) == AlignDown(x) + n
  {
  }

  lemma LowerPage(x: nat, y: nat)
    requires x <= y
    ensures AlignDown(x) <= AlignDown(y)
  {
  }

  lemma AlignUpWraps(hint: nat, len: nat)
    requires hint < U64 && len < U64
    ensures var x := (hint + PAGE - 1) % U64;
            AlignUp(hint) == AlignDown(x) && AlignUp((hint + len) % U64) == AlignDown(if x + len < U64 then x + len else x + len - U64)
  {
    hide AlignUp, AlignDown;
    UpIsDown(hint);
    UpIsDown((hint + len) % U64);
    Wrap(hint + PAGE - 1);
    Wrap(hint + len);
    Wrap((hint + len) % U64 + PAGE - 1);
  }

  lemma Wrap(v: nat)
    requires v < 2 * U64
    ensures v % U64 == if v < U64 then v else v - U64
  {
  }

  lemma UpIsDown(v: nat)
    ensures AlignUp(v) == AlignDown((v + PAGE - 1) % U64)
  {
  }

  /** For whole pages, the rounded ends of a hinted range are as far apart as its length, up to wrapping. */
  lemma GapLength(hint: nat, len: nat)
    requires hint < U64 && len < U64
    ensures AlignUp(hint) % PAGE == 0
    ensures len % PAGE == 0 && AlignUp(hint) < AlignUp((hint + len) % U64) ==> AlignUp((hint + len) % U64) - AlignUp(hint) == len
    ensures len % PAGE == 0 && len > 0 && hint + len + PAGE < U64 ==> AlignUp(hint) < AlignUp((hint + len) % U64)
    ensures len % PAGE == 0 ==> AlignUp(len) == len
  {
    hide AlignUp, AlignDown;
    var x := (hint + PAGE - 1) % U64;
    Aligned(hint);
    AlignUpWraps(hint, len);
    if len % PAGE == 0 {
      SamePage(x, len);
      if x + len >= U64 {
        LowerPage(x + len - U64, x);
      }
      WholePages(len);
    }
  }

  /** A search whose range wraps around starts so far up that nothing would fit there. */
  lemma NoSuchGap(es: seq<Entry>, hint: nat, len: nat)
    requires hint < U64 && len < U64 && AlignUp((hint + len) % U64) <= AlignUp(hint)
    ensures len % PAGE == 0 && len > 0 ==> AllTaken(es, Max(AlignUp(hint), DEFAULT_MMAP), USER_MAX - len, len)
  {
    hide AlignUp, AlignDown, Taken;
    if len % PAGE == 0 && len > 0 {
      var x := (hint + PAGE - 1) % U64;
      Wrap(hint + PAGE - 1);
      AlignUpWraps(hint, len);
      SamePage(x, len);
      assert x + len >= U64;
      LastPage(x);
    }
  }

  lemma LastPage(x: nat)
    ensures x - PAGE < AlignDown(x) <= x
  {
  }

  // ------------------------------------------------------------ when mapping works

  /** What adding an entry from lo to hi comes to. */
  function AddStatus(es: seq<Entry>, lo: nat, hi: nat, len: nat): Status {
    if len == 0 || !RangeValid(lo, hi) then Invalid
    else if |es| >= MAX_ENTRIES || Overlaps(es, lo, hi) then Busy else Ok
  }

  /**
   What a mapping of so many bytes, whole pages, comes to. At a fixed place it
   needs a valid range, and a map that what is left around the range does not
   fill; elsewhere it needs a gap above the hint, and a map that is not full.
   */
  ghost function PlaceStatus(task: Task, hint: nat, len: nat, fixed: bool): Status {
    var from := if hint != 0 then hint else task.hint;
    var at := AlignDown(hint);
    if fixed then
      if at == 0 then NoMem
      else if len == 0 || !RangeValid(at, AlignUp((at + len) % U64)) then Invalid
      else if |Punch(task.entries, at, AlignUp((at + len) % U64))| >= MAX_ENTRIES then Busy else Ok
    else if len == 0 || AllTaken(task.entries, Max(AlignUp(from), DEFAULT_MMAP), USER_MAX - len, len) then NoMem
    else if |task.entries| >= MAX_ENTRIES then Busy else Ok
  }

  lemma FixedStatus(s: Vm, t: TaskId, hint: Word64, len: Word64, es': seq<Entry>, frames: set<Phys>)
    requires Inv(s, frames) && t in s.tasks
    requires var es, lo, hi := s.tasks[t].entries, AlignDown(hint), AlignUp((AlignDown(hint) + len) % U64);
             len > 0 && lo < hi ==> es' == if |es| == MAX_ENTRIES && SplitsAny(es, lo, hi) then es else Punch(es, lo, hi)
    ensures var at := AlignDown(hint);
            PlaceStatus(s.tasks[t], hint, len, true) ==
            if at == 0 then NoMem else AddStatus(es', at, AlignUp((at + len) % U64), len)
  {
    hide Inv, Punch, SplitsAny, AllTaken, EntriesOk, AlignUp, AlignDown;
    var es, lo, hi := s.tasks[t].entries, AlignDown(hint), AlignUp((AlignDown(hint) + len) % U64);
    InvParts(s, frames);
    if len > 0 && RangeValid(lo, hi) {
      Aligned(hint);
      PunchGrows(es, lo, hi);
      PunchOk(es, lo, hi);
      assert forall a :: a in Punch(es, lo, hi) ==> a.Ok() && !Hits(a, lo, hi);
      assert !Overlaps(Punch(es, lo, hi), lo, hi);
    }
  }

  lemma GapStatus(task: Task, hint: Word64, len: Word64, addr: nat)
    requires len % PAGE == 0
    requires var from := Max(AlignUp(if hint != 0 then hint else task.hint), DEFAULT_MMAP);
             if addr == 0 then len > 0 ==> AllTaken(task.entries, from, USER_MAX - len, len)
             else addr % PAGE == 0 && from <= addr && len > 0 && addr + len < USER_MAX && !Taken(task.entries, addr, len)
    ensures PlaceStatus(task, hint, len, false) ==
            if addr == 0 then NoMem else AddStatus(task.entries, addr, AlignUp((addr + len) % U64), len)
  {
    hide Punch, AlignUp, AlignDown, Overlaps;
    if addr != 0 {
      WholePages(addr + len);
      assert addr < USER_MAX - len;
    }
  }

  lemma WholePages(len: nat)
    requires len < U64 && len % PAGE == 0
    ensures AlignUp(len) == len
  {
    SamePage(PAGE - 1, len);
  }

  lemma InvPages(s: Vm, frames: set<Phys>)
    requires Inv(s, frames)
    ensures CountsOk(s.refs, s.pt, s.objects) && FramesOk(s.refs, s.free, frames) && MemOk(s.mem, frames)
  {
    hide TasksOk, MappingsOk, MemOk, CountsOk, FramesOk, Coherent, ObjectsOk;
  }

  lemma AlignUpFits(v: nat)
    ensures AlignUp(v) < U64 && AlignUp(v) % PAGE == 0
  {
  }

  lemma AlignedDown(v: nat)
    ensures AlignDown(AlignDown(v)) == AlignDown(v) <= v
  {
  }

  /** A valid range that starts on a page and is whole pages long ends where it seems to end. */
  lemma EndOfRange(addr: nat, len: nat)
    requires addr % PAGE == 0 && len % PAGE == 0 && addr < U64 && len < U64
    ensures AlignDown(addr) == addr
    ensures addr < AlignUp((addr + len) % U64) ==> AlignUp((addr + len) % U64) == addr + len
  {
    hide AlignUp;
    GapLength(addr, len);
    WholePages(addr);
  }

  /** What clearing a range comes to: it is unmapped, the split it needs is refused, or there was nothing to do. */
  ghost predicate ClearNext(s: Vm, t: TaskId, lo: nat, hi: nat, s': Vm) {
    s' == s || UnmapNext(s, t, lo, hi, s') || RefusedNext(s, t, lo, hi, s')
  }

  lemma UnmapObjects(s: Vm, t: TaskId, lo: nat, hi: nat, s': Vm)
    ensures UnmapNext(s, t, lo, hi, s') || RefusedNext(s, t, lo, hi, s') ==>
              s'.objects.Keys <= s.objects.Keys && t in s'.tasks && HoldersKept(s, s')
  {
    hide SplitsAny, Punch, Cleared;
  }

  /** Making an object, mapping it and letting it go maps a new object. */
  lemma NewMemory(s: Vm, s1: Vm, t: TaskId, e: Entry, s2: Vm, s': Vm)
    requires e.obj !in s.objects && s.outside.Keys == s.objects.Keys && e.obj in s1.objects
    requires s1 == s.(objects := s.objects[e.obj := s1.objects[e.obj]], outside := s.outside[e.obj := 1])
    requires forall i :: 0 <= i < |s1.objects[e.obj].resident| ==> s1.objects[e.obj].resident[i] == 0
    requires MapNext(s1, t, e, s2) && Appended(s1, t, e, s2)
    requires s'.tasks == s2.tasks && s'.pt == s2.pt && s'.mem == s2.mem
    requires s'.objects == s1.objects && s'.outside == s1.outside[e.obj := 0]
    ensures MapNext(s, t, e, s')
  {
    hide EntriesOk;
  }

  /** The rest of the invariant looks at address maps only through the pages and the references in them. */
  lemma SameViews(s: Vm, s': Vm, frames: set<Phys>)
    requires Inv(s, frames) && s' == s.(tasks := s'.tasks) && TasksOk(s'.tasks)
    requires forall k :: PageAt(s'.tasks, k) == PageAt(s.tasks, k)
    requires forall o :: EntryRefs(s'.tasks, o) == EntryRefs(s.tasks, o)
    ensures Inv(s', frames)
  {
    hide MemOk, CountsOk, FramesOk, PageAt, EntryRefs, TasksOk;
    forall t, i | t in s'.tasks && 0 <= i < |s'.tasks[t].entries| && s'.tasks[t].entries[i].obj != 0
      ensures s'.tasks[t].entries[i].obj in s'.objects
    {
      var o := s'.tasks[t].entries[i].obj;
      Named(s'.tasks, t, i);
      HasName(s.tasks, o);
    }
  }

  lemma HasName(tasks: map<TaskId, Task>, o: ObjId)
    requires |EntryRefs(tasks, o)| > 0
    ensures exists t, i :: t in tasks && 0 <= i < |tasks[t].entries| && tasks[t].entries[i].obj == o
  {
    var n :| n in EntryRefs(tasks, o);
  }

  /** The hint and the break of a task are not part of its map. */
  lemma SameEntries(s: Vm, t: TaskId, s': Vm, frames: set<Phys>)
    requires Inv(s, frames) && t in s.tasks && t in s'.tasks
    requires s' == s.(tasks := s.tasks[t := s'.tasks[t]]) && s'.tasks[t].entries == s.tasks[t].entries
    ensures Inv(s', frames)
  {
    hide EntriesOk, MemOk, CountsOk, FramesOk, MapView, Coherent, MappingsOk, ObjectsOk;
    assert forall k :: PageAt(s'.tasks, k) == PageAt(s.tasks, k);
    assert forall o :: EntryRefs(s'.tasks, o) == EntryRefs(s.tasks, o);
    SameViews(s, s', frames);
  }

  /** Nor do the steps look at them. */
  lemma SameSteps(s: Vm, t: TaskId, e: Entry, lo: nat, hi: nat, s1: Vm, s': Vm)
    requires t in s1.tasks && t in s'.tasks && s' == s1.(tasks := s1.tasks[t := s'.tasks[t]]) && s'.tasks[t].entries == s1.tasks[t].entries
    ensures MapNext(s, t, e, s1) ==> MapNext(s, t, e, s')
    ensures UnmapNext(s, t, lo, hi, s1) ==> UnmapNext(s, t, lo, hi, s')
    ensures RefusedNext(s, t, lo, hi, s1) ==> RefusedNext(s, t, lo, hi, s')
  {
    hide EntriesOk, Punch, Cleared, SplitsAny;
  }

  // ---------------------------------------------------- fork and exit, in pieces

  /** A frame that a page-table entry names is managed and not free. */
  lemma HeldFrame(refs: seq<RefNode>, pt: map<Key, Pte>, objects: map<ObjId, VmObject>, free: set<Phys>, frames: set<Phys>, k: Key)
    requires CountsOk(refs, pt, objects) && FramesOk(refs, free, frames) && k in pt && pt[k].phys != 0
    ensures pt[k].phys in frames && pt[k].phys !in free
  {
    hide Count, Slots;
    assert k in Maps(pt, pt[k].phys);
  }

  lemma SameFiles(objects0: map<ObjId, VmObject>, objects: map<ObjId, VmObject>, done: seq<Entry>)
    requires Referenced(objects0, objects, done)
    ensures objects.Keys == objects0.Keys && forall o :: o in objects ==> objects[o].file == objects0[o].file
  {
  }

  lemma ForkStart(s: Vm, t: TaskId, c: TaskId, frames: set<Phys>)
    requires Inv(s, frames) && c !in s.tasks
    ensures forall k :: k in s.pt ==> k.1 % PAGE == 0 && k.0 != c && s.pt[k].phys != 0
  {
    hide TasksOk, MemOk, CountsOk, FramesOk, Coherent, ObjectsOk, MapView;
  }

  lemma ForkBegin(s: Vm, t: TaskId, c: TaskId)
    requires t in s.tasks
    ensures var es := s.tasks[t].entries;
            && es[..0] == [] && CowMarked([]) == [] && CowMarked(es[..0]) + es[0..] == es
            && Forked(s.pt, s.pt, t, c, []) && Referenced(s.objects, s.objects, [])
            && s.tasks == s.tasks[t := s.tasks[t].(entries := es)]
  {
  }

  lemma InvEntries(s: Vm, t: TaskId, frames: set<Phys>)
    requires Inv(s, frames) && t in s.tasks
    ensures EntriesOk(s.tasks[t].entries) && forall i :: 0 <= i < |s.tasks[t].entries| ==> s.tasks[t].entries[i].Ok()
  {
    hide MappingsOk, MemOk, CountsOk, FramesOk, Coherent, ObjectsOk;
  }

  lemma MarkStep(es: seq<Entry>, i: nat)
    requires i < |es|
    ensures CowMarked(es[..i + 1]) == CowMarked(es[..i]) + [CowMark(es[i])]
    ensures (CowMarked(es[..i]) + es[i..])[i] == es[i]
    ensures (CowMarked(es[..i]) + es[i..])[i := CowMark(es[i])] == CowMarked(es[..i]) + [CowMark(es[i])] + es[i + 1..]
  {
    assert es[..i + 1][..i] == es[..i];
  }

  /** While an entry is being worked on, the page at hand is still as it was. */
  lemma ForkedAt(pt0: map<Key, Pte>, pt: map<Key, Pte>, t: TaskId, c: TaskId, done: seq<Entry>, e: Entry, va: nat)
    requires Forked(pt0, pt, t, c, done + [e.(end := va)]) && e.Covers(va) && t != c
    requires forall k :: k in pt0 ==> k.0 != c
    requires forall v: nat :: e.Covers(v) ==> MapView(done, v).None?
    ensures (t, va) in pt <==> (t, va) in pt0
    ensures (t, va) in pt0 ==> pt[(t, va)] == pt0[(t, va)]
    ensures (c, va) !in pt
  {
    hide MapView;
    PartView(done, e, va, va);
  }

  /** Task t is on its way out: of its map and pages only a part is left. */
  ghost predicate Leaving(s: Vm, t: TaskId, s': Vm) {
    && t in s.tasks && t in s'.tasks && s'.tasks == s.tasks[t := s'.tasks[t]]
    && (forall k :: k in s'.pt ==> k in s.pt && s'.pt[k] == s.pt[k])
    && (forall k :: k in s.pt && k.0 != t ==> k in s'.pt)
    && s'.mem == s.mem && ObjectsKept(s, s')
  }

  lemma LeaveBegin(s: Vm, t: TaskId, frames: set<Phys>)
    requires Inv(s, frames) && t in s.tasks
    ensures Leaving(s, t, s)
  {
    SameOutside(s, frames);
  }

  /** The first entry lies alone in its range, and is cut out without a split. */
  lemma FirstEntry(s: Vm, t: TaskId, frames: set<Phys>)
    requires Inv(s, frames) && t in s.tasks && |s.tasks[t].entries| > 0
    ensures var es := s.tasks[t].entries; var e := es[0];
            && e.start < e.end && AlignDown(e.start) == e.start && e.end < U64 && AlignUp(e.end % U64) == e.end
            && Punch(es, e.start, e.end) == es[1..] && !SplitsAny(es, e.start, e.end)
  {
    hide Inv, Punch, AlignUp;
    InvParts(s, frames);
    var es := s.tasks[t].entries;
    assert es[0].Ok();
    WholePages(es[0].end);
    PunchFirst(es);
  }

  lemma {:induction false} PunchFirst(es: seq<Entry>)
    requires PairwiseOk(es) && |es| > 0
    ensures Punch(es, es[0].start, es[0].end) == es[1..]
  {
    var e, n := es[0], |es| - 1;
    if n == 0 {
      assert es[..0] == [] && Punch(es[..0], e.start, e.end) == [];
      assert Pieces(e, e.start, e.end) == [];
    } else {
      PunchFirst(es[..n]);
      assert Disjoint(es[0], es[n]);
      assert Pieces(es[n], e.start, e.end) == [es[n]];
      assert es[1..] == es[..n][1..] + [es[n]];
    }
  }

  lemma LeaveStep(s: Vm, t: TaskId, s1: Vm, lo: nat, hi: nat, s': Vm)
    requires Leaving(s, t, s1) && UnmapNext(s1, t, lo, hi, s')
    ensures Leaving(s, t, s')
  {
    hide Punch;
  }

  lemma LeaveEnd(s: Vm, t: TaskId, s1: Vm, s': Vm, frames: set<Phys>)
    requires Inv(s, frames) && Inv(s1, frames) && Leaving(s, t, s1) && s1.tasks[t].entries == []
    requires s' == s1.(tasks := s1.tasks - {t})
    ensures ExitNext(s, t, s') && Inv(s', frames)
  {
    hide Inv, ObjectsKept;
    NoPages(s1, t, frames);
    assert s'.pt == (map k | k in s.pt && k.0 != t :: s.pt[k]);
    assert s'.tasks == s.tasks - {t};
    KeptAgain(s, s1, s');
    GoneCounted(s1, t, s', frames);
    StepKeepsInv(s, Exit(t), s', frames);
  }

  lemma KeptAgain(s: Vm, s1: Vm, s': Vm)
    requires ObjectsKept(s, s1) && s'.objects == s1.objects && s'.outside == s1.outside
    ensures ObjectsKept(s, s')
  {
  }

  lemma NoPages(s: Vm, t: TaskId, frames: set<Phys>)
    requires Inv(s, frames) && t in s.tasks && s.tasks[t].entries == []
    ensures forall k :: k in s.pt ==> k.0 != t
  {
    hide TasksOk, MemOk, CountsOk, FramesOk, Coherent, ObjectsOk;
  }

  lemma GoneCounted(s: Vm, t: TaskId, s': Vm, frames: set<Phys>)
    requires Inv(s, frames) && t in s.tasks && s.tasks[t].entries == [] && s' == s.(tasks := s.tasks - {t})
    ensures Counted(s', frames)
  {
    hide TasksOk, MappingsOk, MemOk, CountsOk, FramesOk, Coherent;
    forall o
      ensures EntryRefs(s'.tasks, o) == EntryRefs(s.tasks, o)
    {
    }
  }

  lemma StoreFits(s: Vm, k: Key, frames: set<Phys>)
    requires Inv(s, frames) && k in s.pt
    ensures s.pt[k].phys in s.mem && |s.mem[s.pt[k].phys]| == PAGE
  {
    hide TasksOk, CountsOk, FramesOk, Coherent, ObjectsOk, MappingsOk;
    MappedFrames(s, frames);
  }

  lemma InvCounted(s: Vm, s': Vm, frames: set<Phys>)
    requires Inv(s, frames) && s' == s.(mem := s'.mem)
    ensures Counted(s', frames)
  {
    hide TasksOk, MappingsOk, MemOk, CountsOk, FramesOk, Coherent, ObjectsOk;
  }

  // ------------------------------------------------------------------- starting

  lemma NothingYet(s: Vm)
    requires s.tasks == map[] && s.pt == map[] && s.objects == map[] && s.refs == [] && s.outside == map[]
    ensures CountsOk(s.refs, s.pt, s.objects) && ObjectsOk(s.tasks, s.objects, s.outside)
  {
    assert forall p :: Maps(s.pt, p) == {} && Slots(s.objects, p) == {};
  }

  lemma EmptyMap(s: Vm, t: TaskId, s': Vm, frames: set<Phys>)
    requires Inv(s, frames) && t !in s.tasks && t in s'.tasks && s'.tasks[t].entries == []
    requires s' == s.(tasks := s.tasks[t := s'.tasks[t]])
    ensures Inv(s', frames)
  {
    hide EntriesOk, MemOk, CountsOk, FramesOk, Coherent, MappingsOk, ObjectsOk;
    assert EntriesOk([]) by { NoEntries(); }
    assert forall k :: PageAt(s'.tasks, k) == PageAt(s.tasks, k);
    assert forall o :: EntryRefs(s'.tasks, o) == EntryRefs(s.tasks, o);
    SameViews(s, s', frames);
  }
}
