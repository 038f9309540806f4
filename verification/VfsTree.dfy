/**
 The name space of the VFS: nodes with parents and children, mounts, and the
 walk that resolves a path component by component.
 */
module VfsTree {
  import opened Common

  type Id = nat        // address of a node, 0 for none
  type Name = string

  datatype Node = Node(name: Name, dir: bool, ext2: bool, parent: Id, children: seq<Id>, refs: nat, unlinked: bool)

  /** The tree with this root is attached to the directory `at`. */
  datatype Mount = Mount(at: Id, root: Id)

  datatype Fs = Fs(nodes: map<Id, Node>, root: Id, mounts: seq<Mount>)

  // ------------------------------------------------------------------- walking

  /** The first child in a list that has the name. */
  function FindIn(nodes: map<Id, Node>, cs: seq<Id>, x: Name): Option<Id> {
    if cs == [] then None
    else if cs[0] in nodes && nodes[cs[0]].name == x then Some(cs[0])
    else FindIn(nodes, cs[1..], x)
  }

  function Child(fs: Fs, d: Id, x: Name): Option<Id> {
    if d in fs.nodes && fs.nodes[d].dir then FindIn(fs.nodes, fs.nodes[d].children, x) else None
  }

  function MountAt(ms: seq<Mount>, c: Id): Option<Id> {
    if ms == [] then None else if ms[0].at == c then Some(ms[0].root) else MountAt(ms[1..], c)
  }

  /** Stepping on a directory with a mount leads into the mounted tree. */
  function Hop(fs: Fs, c: Id): Id {
    match MountAt(fs.mounts, c) case None => c case Some(r) => r
  }

  function Step(fs: Fs, d: Id, x: Name): Option<Id> {
    match Child(fs, d, x) case None => None case Some(c) => Some(Hop(fs, c))
  }

  /** The node that a list of components leads to. */
  function Walk(fs: Fs, q: seq<Name>): Option<Id> {
    if q == [] then Some(fs.root)
    else match Walk(fs, q[..|q| - 1])
         case None => None
         case Some(d) => Step(fs, d, q[|q| - 1])
  }

  lemma WalkStep(fs: Fs, q: seq<Name>, x: Name)
    ensures Walk(fs, q + [x]) == match Walk(fs, q) case None => None case Some(d) => Step(fs, d, x)
  {
    assert (q + [x])[..|q|] == q;
  }

  lemma {:induction false} WalkNone(fs: Fs, q: seq<Name>, p: seq<Name>)
    requires Walk(fs, q).None?
    ensures Walk(fs, q + p).None?
  {
    if p == [] {
      assert q + p == q;
    } else {
      WalkNone(fs, q, p[..|p| - 1]);
      assert q + p == (q + p[..|p| - 1]) + [p[|p| - 1]];
      WalkStep(fs, q + p[..|p| - 1], p[|p| - 1]);
    }
  }

  // ----------------------------------------------------------------- invariants

  ghost predicate NoRepeats(cs: seq<Id>) { forall i, j :: 0 <= i < j < |cs| ==> cs[i] != cs[j] }

  ghost predicate LinksAt(nodes: map<Id, Node>, n: Id)
    requires n in nodes
  {
    && (nodes[n].children != [] ==> nodes[n].dir)
    && (forall c :: c in nodes[n].children ==> c in nodes && nodes[c].parent == n)
    && NoRepeats(nodes[n].children)
    && (nodes[n].parent != 0 ==> nodes[n].parent in nodes && n in nodes[nodes[n].parent].children && !nodes[n].unlinked)
    && (nodes[n].unlinked ==> nodes[n].children == [])
  }

  /** Parent pointers and child lists say the same. */
  ghost predicate Links(nodes: map<Id, Node>) {
    0 !in nodes && forall n :: n in nodes ==> LinksAt(nodes, n)
  }

  /** Siblings have different names. */
  ghost predicate Names(nodes: map<Id, Node>) {
    forall a, b :: a in nodes && b in nodes && nodes[a].parent == nodes[b].parent != 0 && nodes[a].name == nodes[b].name ==> a == b
  }

  /** Going to the parent comes closer to a root. */
  ghost predicate Acyclic(nodes: map<Id, Node>, rank: map<Id, nat>) {
    forall n :: n in nodes ==> n in rank && (nodes[n].parent != 0 ==> nodes[n].parent in rank && rank[nodes[n].parent] < rank[n])
  }

  /** A root: a directory outside any directory. */
  ghost predicate TopDir(nodes: map<Id, Node>, r: Id) {
    r in nodes && nodes[r].dir && nodes[r].parent == 0 && !nodes[r].unlinked
  }

  ghost predicate Mounts(fs: Fs) {
    && TopDir(fs.nodes, fs.root)
    && (forall m :: m in fs.mounts ==> TopDir(fs.nodes, m.root) && m.root != fs.root && m.at in fs.nodes && fs.nodes[m.at].dir && !fs.nodes[m.at].unlinked)
    && (forall i, j :: 0 <= i < j < |fs.mounts| ==> fs.mounts[i].at != fs.mounts[j].at && fs.mounts[i].root != fs.mounts[j].root)
  }

  /** A forest of directories with distinct sibling names, hooked together by mounts. */
  ghost predicate Forest(fs: Fs, rank: map<Id, nat>) {
    Links(fs.nodes) && Names(fs.nodes) && Acyclic(fs.nodes, rank) && Mounts(fs)
  }

  // ------------------------------------------------------- what the walk depends on

  lemma {:induction false} FindInSome(nodes: map<Id, Node>, cs: seq<Id>, x: Name)
    ensures FindIn(nodes, cs, x).Some? ==>
              FindIn(nodes, cs, x).value in cs && FindIn(nodes, cs, x).value in nodes && nodes[FindIn(nodes, cs, x).value].name == x
    ensures FindIn(nodes, cs, x).None? ==> forall c :: c in cs && c in nodes ==> nodes[c].name != x
  {
    if cs != [] && !(cs[0] in nodes && nodes[cs[0]].name == x) {
      FindInSome(nodes, cs[1..], x);
    }
  }

  ghost predicate IsChild(nodes: map<Id, Node>, d: Id, x: Name, c: Id) {
    c in nodes && d != 0 && nodes[c].parent == d && nodes[c].name == x
  }

  /** A child is found exactly if its parent and its name say so. */
  lemma ChildIff(fs: Fs, d: Id, x: Name, c: Id)
    requires Links(fs.nodes) && Names(fs.nodes)
    ensures Child(fs, d, x) == Some(c) <==> IsChild(fs.nodes, d, x, c)
  {
    if IsChild(fs.nodes, d, x, c) {
      assert LinksAt(fs.nodes, c);
      assert LinksAt(fs.nodes, d);
    }
    if d in fs.nodes {
      assert LinksAt(fs.nodes, d);
      FindInSome(fs.nodes, fs.nodes[d].children, x);
    }
  }

  lemma {:induction false} MountAtSome(ms: seq<Mount>, c: Id)
    ensures MountAt(ms, c).Some? ==> exists m :: m in ms && m.at == c && m.root == MountAt(ms, c).value
    ensures MountAt(ms, c).None? ==> forall m :: m in ms ==> m.at != c
  {
    if ms != [] && ms[0].at != c {
      MountAtSome(ms[1..], c);
    }
  }

  /** Where a hop ends tells where it began. */
  lemma HopInjective(fs: Fs, a: Id, b: Id)
    requires Mounts(fs) && a in fs.nodes && b in fs.nodes && fs.nodes[a].parent != 0 && fs.nodes[b].parent != 0
    requires Hop(fs, a) == Hop(fs, b)
    ensures a == b && Hop(fs, a) != fs.root
  {
    MountAtSome(fs.mounts, a);
    MountAtSome(fs.mounts, b);
  }

  lemma StepFrom(fs: Fs, d: Id, x: Name, rank: map<Id, nat>)
    requires Forest(fs, rank) && Step(fs, d, x).Some?
    ensures Child(fs, d, x).Some? && IsChild(fs.nodes, d, x, Child(fs, d, x).value)
    ensures Step(fs, d, x).value == Hop(fs, Child(fs, d, x).value) && Step(fs, d, x).value in fs.nodes
  {
    hide Links, Names;
    ChildIff(fs, d, x, Child(fs, d, x).value);
    MountAtSome(fs.mounts, Child(fs, d, x).value);
  }

  /** No node has two paths. */
  lemma {:induction false} OnePath(fs: Fs, rank: map<Id, nat>, p: seq<Name>, q: seq<Name>)
    requires Forest(fs, rank) && Walk(fs, p).Some? && Walk(fs, p) == Walk(fs, q)
    ensures p == q
    decreases |p| + |q|
  {
    hide Forest, Child, Hop;
    if p != [] {
      var d, x := Walk(fs, p[..|p| - 1]).value, p[|p| - 1];
      StepFrom(fs, d, x, rank);
      Into(fs, rank, d, x);
      if q != [] {
        var e, y := Walk(fs, q[..|q| - 1]).value, q[|q| - 1];
        StepFrom(fs, e, y, rank);
        SameStep(fs, rank, d, x, e, y);
        OnePath(fs, rank, p[..|p| - 1], q[..|q| - 1]);
        assert p == p[..|p| - 1] + [x] && q == q[..|q| - 1] + [y];
      }
    } else if q != [] {
      var e, y := Walk(fs, q[..|q| - 1]).value, q[|q| - 1];
      StepFrom(fs, e, y, rank);
      Into(fs, rank, e, y);
    }
  }

  lemma Into(fs: Fs, rank: map<Id, nat>, d: Id, x: Name)
    requires Forest(fs, rank) && Child(fs, d, x).Some? && IsChild(fs.nodes, d, x, Child(fs, d, x).value)
    ensures Step(fs, d, x).Some? && Step(fs, d, x).value != fs.root
  {
    hide Links, Names, Child;
    var c := Child(fs, d, x).value;
    HopInjective(fs, c, c);
  }

  lemma SameStep(fs: Fs, rank: map<Id, nat>, d: Id, x: Name, e: Id, y: Name)
    requires Forest(fs, rank) && Child(fs, d, x).Some? && IsChild(fs.nodes, d, x, Child(fs, d, x).value)
    requires Child(fs, e, y).Some? && IsChild(fs.nodes, e, y, Child(fs, e, y).value)
    requires Step(fs, d, x) == Step(fs, e, y)
    ensures d == e && x == y
  {
    hide Links, Names, Child;
    HopInjective(fs, Child(fs, d, x).value, Child(fs, e, y).value);
  }
}
