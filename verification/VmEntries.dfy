/**
 Removing a range from an address map: each entry is kept, dropped, trimmed at
 one end or split in two, and page by page that is exactly removal.
 */
module VmEntries {
  import opened Common
  import opened VmState

  function AlignDown(v: nat): nat { v / PAGE * PAGE }

  /** Rounding up, in 64-bit arithmetic. */
  function AlignUp(v: nat): nat { (v + PAGE - 1) % U64 / PAGE * PAGE }

  function Max(a: nat, b: nat): nat { if a > b then a else b }
  function Min(a: nat, b: nat): nat { if a < b then a else b }

  predicate Hits(e: Entry, lo: nat, hi: nat) { Max(lo, e.start) < Min(hi, e.end) }

  /** The range lies inside the entry and touches neither end. */
  predicate Splits(e: Entry, lo: nat, hi: nat) { e.start < lo && hi < e.end && lo < hi }

  ghost predicate SplitsAny(es: seq<Entry>, lo: nat, hi: nat) {
    exists j :: 0 <= j < |es| && Splits(es[j], lo, hi)
  }

  /** What is left of an entry when lo to hi is taken out. */
  function Pieces(e: Entry, lo: nat, hi: nat): seq<Entry> {
    if !Hits(e, lo, hi) then [e]
    else
      (if e.start < lo then [e.(end := lo)] else []) +
      (if hi < e.end then [e.(start := hi, offset := e.offset + (hi - e.start))] else [])
  }

  function Punch(es: seq<Entry>, lo: nat, hi: nat): seq<Entry> {
    if es == [] then [] else Punch(es[..|es| - 1], lo, hi) + Pieces(es[|es| - 1], lo, hi)
  }

  lemma OneView(e: Entry, va: nat)
    ensures MapView([e], va) == if e.Covers(va) then Some(ViewOf(e, va)) else None
  {
    assert [e][1..] == [];
  }

  lemma PiecesView(e: Entry, lo: nat, hi: nat, va: nat)
    ensures MapView(Pieces(e, lo, hi), va) == if lo <= va < hi then None else MapView([e], va)
  {
    OneView(e, va);
    if Hits(e, lo, hi) {
      var front := if e.start < lo then [e.(end := lo)] else [];
      var back := if hi < e.end then [e.(start := hi, offset := e.offset + (hi - e.start))] else [];
      MapViewConcat(front, back, va);
      if e.start < lo {
        OneView(e.(end := lo), va);
      }
      if hi < e.end {
        OneView(e.(start := hi, offset := e.offset + (hi - e.start)), va);
      }
    }
  }

  /** Page by page, punching a hole is removal: nothing inside is left, everything outside stays what it was. */
  lemma {:induction false} PunchView(es: seq<Entry>, lo: nat, hi: nat, va: nat)
    ensures MapView(Punch(es, lo, hi), va) == if lo <= va < hi then None else MapView(es, va)
  {
    if es != [] {
      var init, e := es[..|es| - 1], es[|es| - 1];
      assert es == init + [e];
      PunchView(init, lo, hi, va);
      PiecesView(e, lo, hi, va);
      MapViewConcat(Punch(init, lo, hi), Pieces(e, lo, hi), va);
      MapViewConcat(init, [e], va);
    }
  }

  /** a comes from taking a part of b. */
  predicate PartOf(a: Entry, b: Entry) {
    b.start <= a.start && a.end <= b.end && a.prot == b.prot && a.flags == b.flags && a.obj == b.obj
  }

  lemma {:induction false} PunchParts(es: seq<Entry>, lo: nat, hi: nat, a: Entry)
    requires a in Punch(es, lo, hi)
    ensures exists i :: 0 <= i < |es| && PartOf(a, es[i]) && a in Pieces(es[i], lo, hi)
  {
    var init, e := es[..|es| - 1], es[|es| - 1];
    if a in Pieces(e, lo, hi) {
      assert PartOf(a, es[|es| - 1]);
    } else {
      PunchParts(init, lo, hi, a);
    }
  }

  ghost predicate PairwiseOk(es: seq<Entry>) {
    && (forall i :: 0 <= i < |es| ==> es[i].Ok())
    && (forall i, j :: 0 <= i < j < |es| ==> Disjoint(es[i], es[j]))
  }

  lemma PiecesOk(e: Entry, lo: nat, hi: nat)
    requires e.Ok() && lo % PAGE == 0 && hi % PAGE == 0
    ensures PairwiseOk(Pieces(e, lo, hi))
    ensures forall a :: a in Pieces(e, lo, hi) ==> PartOf(a, e) && !Hits(a, lo, hi)
  {
  }

  /** Entries stay aligned, inside the user range and disjoint. */
  lemma {:induction false} PunchOk(es: seq<Entry>, lo: nat, hi: nat)
    requires PairwiseOk(es) && lo % PAGE == 0 && hi % PAGE == 0
    ensures PairwiseOk(Punch(es, lo, hi))
    ensures forall a :: a in Punch(es, lo, hi) ==> !Hits(a, lo, hi)
  {
    hide Hits, Entry.Ok;
    if es != [] {
      var init, e := es[..|es| - 1], es[|es| - 1];
      PunchOk(init, lo, hi);
      PiecesOk(e, lo, hi);
      var p, q := Punch(init, lo, hi), Pieces(e, lo, hi);
      forall i, j | 0 <= i < |p| && 0 <= j < |q|
        ensures Disjoint(p[i], q[j])
      {
        PunchParts(init, lo, hi, p[i]);
        var k :| 0 <= k < |init| && PartOf(p[i], init[k]) && p[i] in Pieces(init[k], lo, hi);
        assert PartOf(q[j], e) && Disjoint(es[k], es[|es| - 1]);
      }
    }
  }

  lemma {:induction false} PunchMisses(es: seq<Entry>, lo: nat, hi: nat)
    requires forall i :: 0 <= i < |es| ==> !Hits(es[i], lo, hi)
    ensures Punch(es, lo, hi) == es
  {
    if es != [] {
      PunchMisses(es[..|es| - 1], lo, hi);
      assert es == es[..|es| - 1] + [es[|es| - 1]];
    }
  }

  /** An entry that strictly contains the range is the only one the range hits. */
  lemma SplitIsAlone(es: seq<Entry>, k: nat, lo: nat, hi: nat)
    requires PairwiseOk(es) && k < |es| && Splits(es[k], lo, hi)
    ensures forall i :: 0 <= i < |es| && i != k ==> !Hits(es[i], lo, hi)
  {
    forall i | 0 <= i < |es| && i != k
      ensures !Hits(es[i], lo, hi)
    {
      assert if i < k then Disjoint(es[i], es[k]) else Disjoint(es[k], es[i]);
    }
  }

  // ------------------------------------------------------- references to objects

  function CountObj(es: seq<Entry>, o: ObjId): nat {
    if es == [] then 0 else CountObj(es[..|es| - 1], o) + (if es[|es| - 1].obj == o then 1 else 0)
  }

  lemma {:induction false} CountObjConcat(a: seq<Entry>, b: seq<Entry>, o: ObjId)
    ensures CountObj(a + b, o) == CountObj(a, o) + CountObj(b, o)
  {
    if b == [] {
      assert a + b == a;
    } else {
      assert (a + b)[..|a + b| - 1] == a + b[..|b| - 1];
      CountObjConcat(a, b[..|b| - 1], o);
    }
  }

  ghost function Row(t: TaskId, es: seq<Entry>, o: ObjId): set<(TaskId, nat)> {
    set i | 0 <= i < |es| && es[i].obj == o :: (t, i)
  }

  lemma {:induction false} RowSize(t: TaskId, es: seq<Entry>, o: ObjId)
    ensures |Row(t, es, o)| == CountObj(es, o)
  {
    if es == [] {
      assert Row(t, es, o) == {};
    } else {
      var init, k := es[..|es| - 1], |es| - 1;
      RowSize(t, init, o);
      assert Row(t, es, o) == Row(t, init, o) + (if es[k].obj == o then {(t, k as nat)} else {});
    }
  }

  lemma EntryRefsAdd(tasks: map<TaskId, Task>, t: TaskId, task: Task, o: ObjId)
    requires t !in tasks
    ensures |EntryRefs(tasks[t := task], o)| == |EntryRefs(tasks, o)| + CountObj(task.entries, o)
  {
    var b := Row(t, task.entries, o);
    RowSize(t, task.entries, o);
    assert EntryRefs(tasks[t := task], o) == EntryRefs(tasks, o) + b;
    assert EntryRefs(tasks, o) !! b;
  }

  /** When one task's entries change, the references to o change by the difference. */
  lemma EntryRefsChange(tasks: map<TaskId, Task>, t: TaskId, task: Task, o: ObjId)
    requires t in tasks
    ensures |EntryRefs(tasks[t := task], o)| + CountObj(tasks[t].entries, o)
            == |EntryRefs(tasks, o)| + CountObj(task.entries, o)
  {
    hide CountObj, EntryRefs;
    var rest := tasks - {t};
    EntryRefsAdd(rest, t, tasks[t], o);
    EntryRefsAdd(rest, t, task, o);
    assert rest[t := tasks[t]] == tasks && rest[t := task] == tasks[t := task];
  }

  lemma OneObj(e: Entry, o: ObjId)
    ensures CountObj([e], o) == if e.obj == o then 1 else 0
  {
    assert [e][..0] == [];
  }

  /** Replacing entry e by what is left of it changes the references by as much. */
  lemma CutRefs(a: seq<Entry>, e: Entry, mid: seq<Entry>, b: seq<Entry>, o: ObjId)
    ensures CountObj(a + mid + b, o) + (if e.obj == o then 1 else 0) == CountObj(a + [e] + b, o) + CountObj(mid, o)
  {
    hide CountObj;
    CountObjConcat(a + mid, b, o);
    CountObjConcat(a, mid, o);
    CountObjConcat(a + [e], b, o);
    CountObjConcat(a, [e], o);
    OneObj(e, o);
  }

  lemma PiecesRefs(e: Entry, lo: nat, hi: nat, o: ObjId)
    ensures |Pieces(e, lo, hi)| <= 2
    ensures CountObj(Pieces(e, lo, hi), o) == if e.obj == o then |Pieces(e, lo, hi)| else 0
    ensures forall p :: p in Pieces(e, lo, hi) ==> p.obj == e.obj
  {
    var r := Pieces(e, lo, hi);
    if |r| == 1 {
      assert r == [r[0]];
      OneObj(r[0], o);
    } else if |r| == 2 {
      assert r == [r[0]] + [r[1]];
      OneObj(r[0], o);
      OneObj(r[1], o);
      CountObjConcat([r[0]], [r[1]], o);
    }
  }
}
