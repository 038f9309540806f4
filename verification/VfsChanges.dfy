/** Creating, unlinking and mounting: the forest stays one, and exactly the intended paths change. */
module VfsChanges {
  import opened Common
  import opened VfsTree
  import opened VfsMoves
  import opened VfsPaths

  // -------------------------------------------------------------------- creating

  function NewNode(x: Name, dir: bool): Node { Node(x, dir, false, 0, [], 1, false) }

  function Created(fs: Fs, id: Id, d: Id, x: Name, dir: bool): Fs
    requires d in fs.nodes && id != d
  {
    var nodes := fs.nodes[id := NewNode(x, dir)];
    fs.(nodes := Moved(nodes, id, d, x))
  }

  ghost predicate CanCreate(fs: Fs, rank: map<Id, nat>, id: Id, d: Id, x: Name, to: seq<Name>) {
    && Forest(fs, rank) && id !in fs.nodes && id != 0 && Walk(fs, to) == Some(d)
    && d in fs.nodes && fs.nodes[d].dir && !fs.nodes[d].unlinked && Child(fs, d, x) == None
  }

  ghost function CreatedRank(fs: Fs, rank: map<Id, nat>, id: Id, d: Id, x: Name, dir: bool): map<Id, nat>
    requires Acyclic(fs.nodes[id := NewNode(x, dir)], rank[id := 0]) && Links(fs.nodes[id := NewNode(x, dir)])
  {
    MovedRank(fs.nodes[id := NewNode(x, dir)], rank[id := 0], id, d)
  }

  /** The new node before it is linked into its directory. */
  lemma OrphanForest(fs: Fs, rank: map<Id, nat>, id: Id, x: Name, dir: bool)
    requires Forest(fs, rank) && id !in fs.nodes && id != 0
    ensures Forest(fs.(nodes := fs.nodes[id := NewNode(x, dir)]), rank[id := 0])
    ensures forall q :: Walk(fs.(nodes := fs.nodes[id := NewNode(x, dir)]), q) == Walk(fs, q)
  {
    hide Links, Names, Walk;
    var nodes' := fs.nodes[id := NewNode(x, dir)];
    assert 0 !in fs.nodes by { NoZero(fs.nodes); }
    assert Quiet(fs.nodes, nodes');
    QuietForest(fs, rank, nodes', rank[id := 0]);
    hide Forest, Quiet;
    forall q
      ensures Walk(fs.(nodes := nodes'), q) == Walk(fs, q)
    {
      QuietWalk(fs, rank, nodes', rank[id := 0], q);
    }
  }

  lemma NoZero(nodes: map<Id, Node>)
    requires Links(nodes)
    ensures 0 !in nodes
  {
  }

  lemma OrphanCanMove(fs: Fs, rank: map<Id, nat>, id: Id, d: Id, x: Name, dir: bool, to: seq<Name>)
    requires CanCreate(fs, rank, id, d, x, to)
    ensures var fs1 := fs.(nodes := fs.nodes[id := NewNode(x, dir)]);
            && Forest(fs1, rank[id := 0]) && Places(fs1, rank[id := 0], id, d, x, [], to)
  {
    hide Walk, Acyclic, Links, Names, Moved, Child, MovedRank;
    OrphanForest(fs, rank, id, x, dir);
    var fs1 := fs.(nodes := fs.nodes[id := NewNode(x, dir)]);
    NoneNamed(fs, d, x);
    NoZero(fs.nodes);
    NotUnder(fs1.nodes, rank[id := 0], d, id);
    assert forall c: Id :: IsChild(fs1.nodes, d, x, c) ==> IsChild(fs.nodes, d, x, c);
    assert CanMove(fs1.nodes, id, d, x);
  }

  lemma NoneNamed(fs: Fs, d: Id, x: Name)
    requires Links(fs.nodes) && Names(fs.nodes) && Child(fs, d, x) == None
    ensures forall c: Id :: !IsChild(fs.nodes, d, x, c)
  {
    hide Links, Names, Child, IsChild;
    ChildrenOf(fs);
    forall c: Id
      ensures !IsChild(fs.nodes, d, x, c)
    {
      assert Child(fs, d, x) != Some(c);
    }
  }

  /** Nothing is below a node without children. */
  lemma {:induction false} NotUnder(nodes: map<Id, Node>, rank: map<Id, nat>, k: Id, n: Id)
    requires Acyclic(nodes, rank) && Links(nodes) && k in nodes && n in nodes && nodes[n].children == [] && k != n
    ensures !Under(nodes, rank, k, n)
    decreases rank[k]
  {
    assert LinksAt(nodes, k);
    if nodes[k].parent != 0 {
      NotUnder(nodes, rank, nodes[k].parent, n);
    }
  }

  /** Creating a node makes one new path, and changes no other. */
  lemma CreateTheorem(fs: Fs, rank: map<Id, nat>, id: Id, d: Id, x: Name, dir: bool, to: seq<Name>)
    requires CanCreate(fs, rank, id, d, x, to)
    ensures Acyclic(fs.nodes[id := NewNode(x, dir)], rank[id := 0]) && Links(fs.nodes[id := NewNode(x, dir)])
    ensures Forest(Created(fs, id, d, x, dir), CreatedRank(fs, rank, id, d, x, dir))
    ensures forall q :: Walk(Created(fs, id, d, x, dir), q) == if q == to + [x] then Some(id) else Walk(fs, q)
  {
    hide Walk, Acyclic, Links, Names, Moved, Child, MovedRank, Mounts;
    var fs1, r1 := fs.(nodes := fs.nodes[id := NewNode(x, dir)]), rank[id := 0];
    OrphanCanMove(fs, rank, id, d, x, dir, to);
    OrphanForest(fs, rank, id, x, dir);
    MovedForest(fs1, r1, id, d, x);
    forall q
      ensures Walk(Created(fs, id, d, x, dir), q) == if q == to + [x] then Some(id) else Walk(fs, q)
    {
      CreatedWalk(fs, rank, id, d, x, dir, to, q);
    }
  }

  lemma CreatedWalk(fs: Fs, rank: map<Id, nat>, id: Id, d: Id, x: Name, dir: bool, to: seq<Name>, q: seq<Name>)
    requires CanCreate(fs, rank, id, d, x, to)
    ensures Walk(Created(fs, id, d, x, dir), q) == if q == to + [x] then Some(id) else Walk(fs, q)
  {
    hide Walk, Acyclic, Links, Names, Moved, Child, MovedRank;
    var fs1, r1 := fs.(nodes := fs.nodes[id := NewNode(x, dir)]), rank[id := 0];
    var fs' := Created(fs, id, d, x, dir);
    OrphanCanMove(fs, rank, id, d, x, dir, to);
    OrphanForest(fs, rank, id, x, dir);
    NoZero(fs.nodes);
    if to + [x] <= q {
      OtherPaths(fs1, r1, id, d, x, [], to, to);
      MovedStep(fs1, r1, id, d, x, d, x);
      WalkStep(fs', to, x);
      MountAtSome(fs.mounts, id);
      WalkStep(fs, to, x);
      var rest := q[|to + [x]|..];
      assert q == to + [x] + rest;
      WalkNone(fs, to + [x], rest);
      if rest != [] {
        NothingBelow(fs1, r1, id, d, x, to, rest[0]);
        WalkStep(fs', to + [x], rest[0]);
        WalkNone(fs', to + [x] + [rest[0]], rest[1..]);
        assert q == to + [x] + [rest[0]] + rest[1..];
      } else {
        assert q == to + [x];
      }
    } else {
      OtherPaths(fs1, r1, id, d, x, [], to, q);
    }
  }

  lemma NothingBelow(fs: Fs, rank: map<Id, nat>, id: Id, d: Id, x: Name, to: seq<Name>, y: Name)
    requires Places(fs, rank, id, d, x, [], to) && fs.nodes[id].children == [] && d != 0
    ensures Step(After(fs, id, d, x), id, y) == None
  {
    hide Walk, Acyclic, Names, Moved, Under;
    MovedStep(fs, rank, id, d, x, id, y);
  }

  // ------------------------------------------------------------------- unlinking

  /** n is out of its directory; its node may still be there for those who have it open. */
  function Unlinked(fs: Fs, n: Id): Fs
    requires n in fs.nodes && (fs.nodes[n].parent != 0 ==> fs.nodes[n].parent in fs.nodes)
  {
    var nodes := Moved(fs.nodes, n, 0, fs.nodes[n].name);
    fs.(nodes := nodes[n := nodes[n].(unlinked := true)])
  }

  ghost predicate CanUnlink(fs: Fs, rank: map<Id, nat>, n: Id, from: seq<Name>) {
    && Forest(fs, rank) && n in fs.nodes && fs.nodes[n].parent != 0 && fs.nodes[n].children == []
    && Walk(fs, from) == Some(fs.nodes[n].parent)
    && (forall m :: m in fs.mounts ==> m.at != n)
  }

  lemma UnlinkPlaces(fs: Fs, rank: map<Id, nat>, n: Id, from: seq<Name>)
    requires CanUnlink(fs, rank, n, from)
    ensures Places(fs, rank, n, 0, fs.nodes[n].name, from, [])
  {
    hide Walk, Names, Moved;
    assert LinksAt(fs.nodes, n);
  }

  /** Unlinking removes the path, and changes no other. */
  lemma UnlinkTheorem(fs: Fs, rank: map<Id, nat>, n: Id, from: seq<Name>)
    requires CanUnlink(fs, rank, n, from)
    ensures fs.nodes[n].parent in fs.nodes
    ensures exists r :: Forest(Unlinked(fs, n), r)
    ensures forall q :: Walk(Unlinked(fs, n), q) == if from + [fs.nodes[n].name] <= q then None else Walk(fs, q)
  {
    hide Walk, Acyclic, Links, Names, Moved, Under, MovedRank;
    UnlinkPlaces(fs, rank, n, from);
    var x := fs.nodes[n].name;
    var fs1, r1 := After(fs, n, 0, x), MovedRank(fs.nodes, rank, n, 0);
    MovedForest(fs, rank, n, 0, x);
    MovedFields(fs.nodes, n, 0, x);
    MovedChildren(fs.nodes, n, 0, x, n);
    var nodes' := fs1.nodes[n := fs1.nodes[n].(unlinked := true)];
    NoZero(fs1.nodes);
    assert Loose(nodes'[n]);
    assert Quiet(fs1.nodes, nodes');
    KeysRanked(fs1.nodes, r1);
    QuietForest(fs1, r1, nodes', r1);
    hide Forest, Quiet;
    forall q
      ensures Walk(Unlinked(fs, n), q) == if from + [x] <= q then None else Walk(fs, q)
    {
      QuietWalk(fs1, r1, nodes', r1, q);
      UnlinkedWalk(fs, rank, n, from, q);
    }
  }

  lemma KeysRanked(nodes: map<Id, Node>, rank: map<Id, nat>)
    requires Acyclic(nodes, rank)
    ensures forall k :: k in nodes ==> k in rank
  {
  }

  lemma UnlinkedWalk(fs: Fs, rank: map<Id, nat>, n: Id, from: seq<Name>, q: seq<Name>)
    requires n in fs.nodes && Places(fs, rank, n, 0, fs.nodes[n].name, from, []) && fs.nodes[n].parent != 0
    ensures Walk(After(fs, n, 0, fs.nodes[n].name), q) == if from + [fs.nodes[n].name] <= q then None else Walk(fs, q)
  {
    hide Walk, Forest, Links, Names, Moved, Under, Step;
    var x := fs.nodes[n].name;
    var fs1 := After(fs, n, 0, x);
    if from + [x] <= q {
      OtherPaths(fs, rank, n, 0, x, from, [], from);
      MovedStep(fs, rank, n, 0, x, fs.nodes[n].parent, x);
      WalkStep(fs1, from, x);
      var rest := q[|from + [x]|..];
      assert q == from + [x] + rest;
      WalkNone(fs1, from + [x], rest);
    } else {
      OtherPaths(fs, rank, n, 0, x, from, [], q);
    }
  }

  // -------------------------------------------------------------------- mounting

  /** A tree as a file system driver hands it over. */
  ghost predicate NewTree(sub: map<Id, Node>, ranks: map<Id, nat>, r: Id) {
    Links(sub) && Names(sub) && Acyclic(sub, ranks) && TopDir(sub, r)
  }

  function Mounted(fs: Fs, at: Id, r: Id, sub: map<Id, Node>): Fs {
    fs.(nodes := fs.nodes + sub, mounts := [Mount(at, r)] + fs.mounts)
  }

  ghost function MountedRank(fs: Fs, rank: map<Id, nat>, sub: map<Id, Node>, ranks: map<Id, nat>): map<Id, nat>
    requires Acyclic(fs.nodes, rank) && Acyclic(sub, ranks)
  {
    map k | k in fs.nodes.Keys + sub.Keys :: if k in sub then ranks[k] else rank[k]
  }

  ghost predicate CanMount(fs: Fs, rank: map<Id, nat>, at: Id, r: Id, sub: map<Id, Node>, ranks: map<Id, nat>) {
    && Forest(fs, rank) && NewTree(sub, ranks, r) && fs.nodes.Keys !! sub.Keys
    && at in fs.nodes && fs.nodes[at].dir && !fs.nodes[at].unlinked && MountAt(fs.mounts, at) == None
  }

  lemma UnionLinks(a: map<Id, Node>, b: map<Id, Node>)
    requires Links(a) && Links(b) && a.Keys !! b.Keys
    ensures Links(a + b)
  {
    forall k | k in a + b
      ensures LinksAt(a + b, k)
    {
      if k in a {
        assert LinksAt(a, k);
      } else {
        assert LinksAt(b, k);
      }
    }
  }

  lemma UnionNames(a: map<Id, Node>, b: map<Id, Node>)
    requires Links(a) && Links(b) && Names(a) && Names(b) && a.Keys !! b.Keys
    ensures Names(a + b)
  {
    hide Links;
    forall k | k in a && a[k].parent != 0
      ensures a[k].parent in a
    {
      ParentThere(a, k);
    }
    forall k | k in b && b[k].parent != 0
      ensures b[k].parent in b
    {
      ParentThere(b, k);
    }
  }

  lemma UnionAcyclic(fs: Fs, rank: map<Id, nat>, sub: map<Id, Node>, ranks: map<Id, nat>)
    requires Links(fs.nodes) && Links(sub) && Acyclic(fs.nodes, rank) && Acyclic(sub, ranks) && fs.nodes.Keys !! sub.Keys
    ensures Acyclic(fs.nodes + sub, MountedRank(fs, rank, sub, ranks))
  {
    hide Links;
    forall k | k in fs.nodes + sub
      ensures (fs.nodes + sub)[k].parent != 0 ==>
                (fs.nodes + sub)[k].parent in fs.nodes + sub && ((fs.nodes + sub)[k].parent in sub <==> k in sub)
    {
      if k in sub {
        ParentThere(sub, k);
      } else {
        ParentThere(fs.nodes, k);
      }
    }
  }

  lemma MountForest(fs: Fs, rank: map<Id, nat>, at: Id, r: Id, sub: map<Id, Node>, ranks: map<Id, nat>)
    requires CanMount(fs, rank, at, r, sub, ranks)
    ensures Forest(Mounted(fs, at, r, sub), MountedRank(fs, rank, sub, ranks))
  {
    hide Links, Names, Acyclic, MountAt;
    UnionLinks(fs.nodes, sub);
    UnionNames(fs.nodes, sub);
    UnionAcyclic(fs, rank, sub, ranks);
    MountAtSome(fs.mounts, at);
    var ms := Mounted(fs, at, r, sub).mounts;
    assert forall i :: 0 < i < |ms| ==> ms[i] == fs.mounts[i - 1] && ms[i] in fs.mounts;
  }

  /** In the old part of the forest nobody has other children than before. */
  lemma MountedChild(fs: Fs, rank: map<Id, nat>, at: Id, r: Id, sub: map<Id, Node>, ranks: map<Id, nat>, d: Id, x: Name)
    requires CanMount(fs, rank, at, r, sub, ranks) && d in fs.nodes
    ensures Child(Mounted(fs, at, r, sub), d, x) == Child(fs, d, x)
  {
    hide Links, Names, Acyclic, MountAt, Child;
    MountForest(fs, rank, at, r, sub, ranks);
    var fs' := Mounted(fs, at, r, sub);
    forall c: Id
      ensures IsChild(fs'.nodes, d, x, c) <==> IsChild(fs.nodes, d, x, c)
    {
      if c in sub {
        ParentThere(sub, c);
      }
    }
    ChildrenOf(fs);
    ChildrenOf(fs');
    if Child(fs, d, x).Some? {
      assert IsChild(fs.nodes, d, x, Child(fs, d, x).value);
    }
    if Child(fs', d, x).Some? {
      assert IsChild(fs'.nodes, d, x, Child(fs', d, x).value);
    }
  }

  lemma MountedHop(fs: Fs, at: Id, r: Id, sub: map<Id, Node>, c: Id)
    ensures Hop(Mounted(fs, at, r, sub), c) == if c == at then r else Hop(fs, c)
  {
    assert ([Mount(at, r)] + fs.mounts)[1..] == fs.mounts;
  }

  lemma MountedStep(fs: Fs, rank: map<Id, nat>, at: Id, r: Id, sub: map<Id, Node>, ranks: map<Id, nat>, d: Id, x: Name)
    requires CanMount(fs, rank, at, r, sub, ranks) && d in fs.nodes
    ensures Step(Mounted(fs, at, r, sub), d, x) == if Child(fs, d, x) == Some(at) then Some(r) else Step(fs, d, x)
  {
    hide Forest, NewTree, Child, Hop;
    MountedChild(fs, rank, at, r, sub, ranks, d, x);
    if Child(fs, d, x).Some? {
      MountedHop(fs, at, r, sub, Child(fs, d, x).value);
    }
  }

  lemma {:induction false} WalkInside(fs: Fs, rank: map<Id, nat>, q: seq<Name>)
    requires Forest(fs, rank) && Walk(fs, q).Some?
    ensures Walk(fs, q).value in fs.nodes
  {
    hide Links, Names, Acyclic, Step;
    if q != [] {
      WalkInside(fs, rank, q[..|q| - 1]);
      StepFrom(fs, Walk(fs, q[..|q| - 1]).value, q[|q| - 1], rank);
    }
  }

  /** The root of the name space, or of something mounted into it. */
  ghost predicate TopOfTree(fs: Fs, n: Id) { n == fs.root || exists m :: m in fs.mounts && m.root == n }

  /** What a path leads to is such a root exactly if it has no parent; and a directory that has a mount is one. */
  lemma MountedIsTop(fs: Fs, rank: map<Id, nat>, to: seq<Name>, n: Id)
    requires Forest(fs, rank) && Walk(fs, to) == Some(n)
    ensures n in fs.nodes && (TopOfTree(fs, n) <==> fs.nodes[n].parent == 0)
    ensures MountAt(fs.mounts, n) != None ==> TopOfTree(fs, n)
  {
    hide Links, Names, Acyclic, Child;
    WalkInside(fs, rank, to);
    if to != [] {
      var d, y := Walk(fs, to[..|to| - 1]).value, to[|to| - 1];
      StepFrom(fs, d, y, rank);
      MountAtSome(fs.mounts, Child(fs, d, y).value);
    }
  }

  /** Only paths that lead to or through the mount point change. */
  lemma {:induction false} MountOtherPaths(fs: Fs, rank: map<Id, nat>, at: Id, r: Id, sub: map<Id, Node>, ranks: map<Id, nat>, to: seq<Name>, q: seq<Name>)
    requires CanMount(fs, rank, at, r, sub, ranks) && Walk(fs, to) == Some(at) && (TopOfTree(fs, at) || !(to <= q))
    ensures Walk(Mounted(fs, at, r, sub), q) == Walk(fs, q)
  {
    hide Forest, NewTree, Mounted, Child, MountAt, TopOfTree;
    MountedIsTop(fs, rank, to, at);
    assert Mounted(fs, at, r, sub).root == fs.root by { MountedRoot(fs, at, r, sub); }
    if q != [] {
      var q0, y := q[..|q| - 1], q[|q| - 1];
      assert q == q0 + [y];
      MountOtherPaths(fs, rank, at, r, sub, ranks, to, q0);
      if Walk(fs, q0).Some? {
        WalkInside(fs, rank, q0);
        var d := Walk(fs, q0).value;
        MountedStep(fs, rank, at, r, sub, ranks, d, y);
        if Child(fs, d, y) == Some(at) {
          StepFrom(fs, d, y, rank);
          OnePath(fs, rank, q, to);
        }
      }
    }
  }

  lemma MountedRoot(fs: Fs, at: Id, r: Id, sub: map<Id, Node>)
    ensures Mounted(fs, at, r, sub).root == fs.root
  {
  }

  /** The mount point's path leads to the root of the mounted tree exactly if the mount point is not itself a root. */
  lemma MountTheorem(fs: Fs, rank: map<Id, nat>, at: Id, r: Id, sub: map<Id, Node>, ranks: map<Id, nat>, to: seq<Name>)
    requires CanMount(fs, rank, at, r, sub, ranks) && Walk(fs, to) == Some(at)
    ensures Walk(Mounted(fs, at, r, sub), to) == Some(r) <==> !TopOfTree(fs, at)
  {
    hide NewTree, Mounted, Forest, TopOfTree, Walk;
    MountedIsTop(fs, rank, to, at);
    if TopOfTree(fs, at) {
      MountOtherPaths(fs, rank, at, r, sub, ranks, to, to);
      NewRootIsNew(fs, rank, at, r, sub, ranks);
    } else {
      MountShows(fs, rank, at, r, sub, ranks, to);
    }
  }

  lemma NewRootIsNew(fs: Fs, rank: map<Id, nat>, at: Id, r: Id, sub: map<Id, Node>, ranks: map<Id, nat>)
    requires CanMount(fs, rank, at, r, sub, ranks)
    ensures r != at
  {
    hide Links, Names, Acyclic;
  }

  lemma MountShows(fs: Fs, rank: map<Id, nat>, at: Id, r: Id, sub: map<Id, Node>, ranks: map<Id, nat>, to: seq<Name>)
    requires CanMount(fs, rank, at, r, sub, ranks) && Walk(fs, to) == Some(at) && !TopOfTree(fs, at)
    ensures Walk(Mounted(fs, at, r, sub), to) == Some(r)
  {
    hide NewTree, Mounted, Child, Links, Names, Acyclic;
    var q0, y := to[..|to| - 1], to[|to| - 1];
    assert !(to <= q0) by { assert |q0| < |to|; }
    MountOtherPaths(fs, rank, at, r, sub, ranks, to, q0);
    WalkInside(fs, rank, q0);
    var d := Walk(fs, q0).value;
    StepFrom(fs, d, y, rank);
    MountAtSome(fs.mounts, Child(fs, d, y).value);
    MountedStep(fs, rank, at, r, sub, ranks, d, y);
  }
}
