/** What a rename does to every path, and when the ancestor test before it suffices. */
module VfsPaths {
  import opened Common
  import opened VfsTree
  import opened VfsMoves

  function After(fs: Fs, n: Id, d: Id, x: Name): Fs
    requires n in fs.nodes && (fs.nodes[n].parent != 0 ==> fs.nodes[n].parent in fs.nodes) && (d == 0 || d in fs.nodes)
  {
    fs.(nodes := Moved(fs.nodes, n, d, x))
  }

  /** `from` leads to the parent of n, and `to` leads to d, where they exist. */
  ghost predicate Places(fs: Fs, rank: map<Id, nat>, n: Id, d: Id, x: Name, from: seq<Name>, to: seq<Name>) {
    && MovedOk(fs, rank, n, d, x)
    && (fs.nodes[n].parent != 0 ==> Walk(fs, from) == Some(fs.nodes[n].parent))
    && (d != 0 ==> Walk(fs, to) == Some(d))
  }

  /** Paths that pass neither the old nor the new place of n lead where they led. */
  lemma {:induction false} OtherPaths(fs: Fs, rank: map<Id, nat>, n: Id, d: Id, x: Name, from: seq<Name>, to: seq<Name>, q: seq<Name>)
    requires Places(fs, rank, n, d, x, from, to)
    requires fs.nodes[n].parent != 0 ==> !(from + [fs.nodes[n].name] <= q)
    requires d != 0 ==> !(to + [x] <= q)
    ensures Walk(After(fs, n, d, x), q) == Walk(fs, q)
  {
    hide Forest, Links, Names, Moved, Step, Under;
    if q != [] {
      var q0, y := q[..|q| - 1], q[|q| - 1];
      assert q == q0 + [y];
      OtherPaths(fs, rank, n, d, x, from, to, q0);
      if Walk(fs, q0).Some? {
        var e := Walk(fs, q0).value;
        MovedStep(fs, rank, n, d, x, e, y);
        if d != 0 && e == d {
          OnePath(fs, rank, q0, to);
        }
        if fs.nodes[n].parent != 0 && e == fs.nodes[n].parent {
          OnePath(fs, rank, q0, from);
        }
      }
    }
  }

  // -------------------------------------------------------------------- rename

  ghost predicate Rename(fs: Fs, rank: map<Id, nat>, n: Id, d: Id, x: Name, from: seq<Name>, to: seq<Name>) {
    Places(fs, rank, n, d, x, from, to) && fs.nodes[n].parent != 0 && d != 0
  }

  lemma OldPlace(fs: Fs, rank: map<Id, nat>, n: Id, d: Id, x: Name, from: seq<Name>, to: seq<Name>)
    requires Rename(fs, rank, n, d, x, from, to)
    ensures Walk(fs, from + [fs.nodes[n].name]) == Some(Hop(fs, n))
    ensures Walk(fs, to + [x]) == None
  {
    hide Links, Names, Acyclic, Mounts, Moved, Child, Under;
    ChildIff(fs, fs.nodes[n].parent, fs.nodes[n].name, n);
    WalkStep(fs, from, fs.nodes[n].name);
    WalkStep(fs, to, x);
    var r := Child(fs, d, x);
    if r.Some? {
      ChildIff(fs, d, x, r.value);
    }
  }

  /** The new place is not on the way to the old one, since it did not exist. */
  lemma NewPlaceIsNew(fs: Fs, rank: map<Id, nat>, n: Id, d: Id, x: Name, from: seq<Name>, to: seq<Name>)
    requires Rename(fs, rank, n, d, x, from, to)
    ensures !(to + [x] <= from)
  {
    hide Forest, Links, Names, Moved, Walk, Under;
    OldPlace(fs, rank, n, d, x, from, to);
    var rest := if to + [x] <= from then from[|to + [x]|..] else [];
    assert to + [x] <= from ==> from == to + [x] + rest;
    WalkNone(fs, to + [x], rest);
  }

  /** The old place is gone. */
  lemma OldPathGone(fs: Fs, rank: map<Id, nat>, n: Id, d: Id, x: Name, from: seq<Name>, to: seq<Name>, rest: seq<Name>)
    requires Rename(fs, rank, n, d, x, from, to)
    ensures Walk(After(fs, n, d, x), from + [fs.nodes[n].name] + rest) == None
  {
    hide Forest, Moved, Step, Walk, Under, Links, Names;
    var fs', y := After(fs, n, d, x), fs.nodes[n].name;
    NewPlaceIsNew(fs, rank, n, d, x, from, to);
    OtherPaths(fs, rank, n, d, x, from, to, from);
    MovedStep(fs, rank, n, d, x, fs.nodes[n].parent, y);
    assert !IsChild(fs.nodes, d, x, n);
    WalkStep(fs', from, y);
    WalkNone(fs', from + [y], rest);
  }

  /** What was below the old path is below the new one. */
  lemma {:induction false} NewPathLeads(fs: Fs, rank: map<Id, nat>, n: Id, d: Id, x: Name, from: seq<Name>, to: seq<Name>, rest: seq<Name>)
    requires Rename(fs, rank, n, d, x, from, to) && !(from + [fs.nodes[n].name] <= to)
    ensures Walk(After(fs, n, d, x), to + [x] + rest) == Walk(fs, from + [fs.nodes[n].name] + rest)
  {
    hide Forest, Links, Names, Moved, Step, Walk, Under;
    var fs', y := After(fs, n, d, x), fs.nodes[n].name;
    if rest == [] {
      assert to + [x] + rest == to + [x] && from + [y] + rest == from + [y];
      OldPlace(fs, rank, n, d, x, from, to);
      OtherPaths(fs, rank, n, d, x, from, to, to);
      MovedStep(fs, rank, n, d, x, d, x);
      WalkStep(fs', to, x);
    } else {
      var r0, z := rest[..|rest| - 1], rest[|rest| - 1];
      assert rest == r0 + [z];
      assert to + [x] + rest == (to + [x] + r0) + [z] && from + [y] + rest == (from + [y] + r0) + [z];
      NewPathLeads(fs, rank, n, d, x, from, to, r0);
      WalkStep(fs', to + [x] + r0, z);
      WalkStep(fs, from + [y] + r0, z);
      var w := Walk(fs, from + [y] + r0);
      if w.Some? {
        MovedStep(fs, rank, n, d, x, w.value, z);
        if w.value == d {
          OnePath(fs, rank, from + [y] + r0, to);
        }
        if w.value == fs.nodes[n].parent {
          OnePath(fs, rank, from + [y] + r0, from);
        }
      }
    }
  }

  /**
   Renaming: the old path and all below it are gone, and every other path leads
   where it led. The new path leads where the old one led, with all below it,
   exactly when the new place was not below the old one.
   */
  lemma RenameTheorem(fs: Fs, rank: map<Id, nat>, n: Id, d: Id, x: Name, from: seq<Name>, to: seq<Name>)
    requires Rename(fs, rank, n, d, x, from, to)
    ensures var fs', old', new' := After(fs, n, d, x), from + [fs.nodes[n].name], to + [x];
            && (forall rest :: Walk(fs', old' + rest) == None)
            && (forall q :: !(old' <= q) && !(new' <= q) ==> Walk(fs', q) == Walk(fs, q))
            && (!(old' <= to) <==> forall rest :: Walk(fs', new' + rest) == Walk(fs, old' + rest))
  {
    hide Forest, Links, Names, Moved, Step, Walk, Under;
    var fs', old', new' := After(fs, n, d, x), from + [fs.nodes[n].name], to + [x];
    forall rest
      ensures Walk(fs', old' + rest) == None
    {
      OldPathGone(fs, rank, n, d, x, from, to, rest);
    }
    forall q | !(old' <= q) && !(new' <= q)
      ensures Walk(fs', q) == Walk(fs, q)
    {
      OtherPaths(fs, rank, n, d, x, from, to, q);
    }
    if old' <= to {
      var rest := new'[|old'|..];
      assert new' == old' + rest && new' + [] == new' && old' + [] == old';
      OldPlace(fs, rank, n, d, x, from, to);
      assert Walk(fs', new' + []) != Walk(fs, old' + []);
    } else {
      forall rest
        ensures Walk(fs', new' + rest) == Walk(fs, old' + rest)
      {
        NewPathLeads(fs, rank, n, d, x, from, to, rest);
      }
    }
  }

  /** No directory with a mount is n or below it. */
  ghost predicate NoMountUnder(fs: Fs, rank: map<Id, nat>, n: Id)
    requires Forest(fs, rank)
  {
    forall m :: m in fs.mounts ==> m.at in fs.nodes && !Under(fs.nodes, rank, m.at, n)
  }

  /** Without mounts below n, what its path leads to is below n in the tree too. */
  lemma {:induction false} StaysUnder(fs: Fs, rank: map<Id, nat>, n: Id, q: seq<Name>, rest: seq<Name>)
    requires Forest(fs, rank) && n in fs.nodes && NoMountUnder(fs, rank, n) && Walk(fs, q) == Some(n)
    ensures Walk(fs, q + rest).Some? ==> Walk(fs, q + rest).value in fs.nodes && Under(fs.nodes, rank, Walk(fs, q + rest).value, n)
  {
    hide Links, Names, Walk, Mounts;
    if rest == [] {
      assert q + rest == q;
    } else {
      var r0, z := rest[..|rest| - 1], rest[|rest| - 1];
      assert q + rest == (q + r0) + [z];
      WalkStep(fs, q + r0, z);
      StaysUnder(fs, rank, n, q, r0);
      if Walk(fs, q + rest).Some? {
        var e := Walk(fs, q + r0).value;
        StepFrom(fs, e, z, rank);
        MountAtSome(fs.mounts, Child(fs, e, z).value);
      }
    }
  }

  /** Without mounts below the moved directory, the ancestor test is enough. */
  lemma AncestorTestSuffices(fs: Fs, rank: map<Id, nat>, n: Id, d: Id, x: Name, from: seq<Name>, to: seq<Name>)
    requires Rename(fs, rank, n, d, x, from, to) && NoMountUnder(fs, rank, n)
    ensures !(from + [fs.nodes[n].name] <= to)
  {
    hide Links, Names, Walk, Mounts, Under, Acyclic;
    var old' := from + [fs.nodes[n].name];
    OldPlace(fs, rank, n, d, x, from, to);
    MountAtSome(fs.mounts, n);
    assert Hop(fs, n) == n by { UnderItself(fs.nodes, rank, n); }
    var rest := if old' <= to then to[|old'|..] else [];
    assert old' <= to ==> to == old' + rest;
    StaysUnder(fs, rank, n, old', rest);
  }

  lemma UnderItself(nodes: map<Id, Node>, rank: map<Id, nat>, n: Id)
    requires Acyclic(nodes, rank) && Links(nodes) && n in nodes
    ensures Under(nodes, rank, n, n)
  {
  }

  /** The ancestor test alone is not enough: a directory can be moved below its own mount, and is then lost. */
  lemma MountHidesAncestor()
    ensures exists fs, rank, n, d, x, from, to :: Rename(fs, rank, n, d, x, from, to) && from + [fs.nodes[n].name] <= to
  {
    var dir := (name, parent, children) => Node(name, true, false, parent, children, 1, false);
    var nodes := map[1 := dir("/", 0, [2]), 2 := dir("a", 1, []), 3 := dir("/", 0, [])];
    var fs, rank := Fs(nodes, 1, [Mount(2, 3)]), map[1 := 0, 2 := 1, 3 := 0];
    assert LinksAt(nodes, 1) && LinksAt(nodes, 2) && LinksAt(nodes, 3);
    assert Links(nodes) && Names(nodes) && Acyclic(nodes, rank);
    assert Mounts(fs) by { assert fs.mounts == [Mount(2, 3)]; }
    assert !Under(nodes, rank, 3, 2);
    assert [2][0] == 2;
    assert Walk(fs, []) == Some(1);
    WalkStep(fs, [], "a");
    assert [] + ["a"] == ["a"] && Walk(fs, ["a"]) == Some(3);
    assert MovedOk(fs, rank, 2, 3, "b");
    assert Rename(fs, rank, 2, 3, "b", [], ["a"]);
    assert [] + [fs.nodes[2].name] <= ["a"];
  }

  // ----------------------------------------------- changes that no path notices

  /** Paths depend on parents, names and mounts only. */
  lemma {:induction false} SameWalk(fs: Fs, fs': Fs, q: seq<Name>)
    requires Links(fs.nodes) && Names(fs.nodes) && Links(fs'.nodes) && Names(fs'.nodes)
    requires fs'.root == fs.root && fs'.mounts == fs.mounts
    requires forall d: Id, x: Name, c: Id :: IsChild(fs'.nodes, d, x, c) <==> IsChild(fs.nodes, d, x, c)
    ensures Walk(fs', q) == Walk(fs, q)
  {
    hide Links, Names, Child, IsChild;
    if q != [] {
      SameWalk(fs, fs', q[..|q| - 1]);
      var w, x := Walk(fs, q[..|q| - 1]), q[|q| - 1];
      if w.Some? {
        SameChild(fs, fs', w.value, x);
      }
    }
  }

  lemma SameChild(fs: Fs, fs': Fs, d: Id, x: Name)
    requires Links(fs.nodes) && Names(fs.nodes) && Links(fs'.nodes) && Names(fs'.nodes)
    requires forall d: Id, x: Name, c: Id :: IsChild(fs'.nodes, d, x, c) <==> IsChild(fs.nodes, d, x, c)
    ensures Child(fs', d, x) == Child(fs, d, x)
  {
    hide Links, Names, Child, IsChild;
    ChildrenOf(fs);
    ChildrenOf(fs');
    if Child(fs, d, x).Some? {
      assert IsChild(fs.nodes, d, x, Child(fs, d, x).value);
    }
    if Child(fs', d, x).Some? {
      assert IsChild(fs'.nodes, d, x, Child(fs', d, x).value);
    }
  }

  /** A node that nothing names and that names nothing comes or goes, or nodes change their counts. */
  ghost predicate Quiet(nodes: map<Id, Node>, nodes': map<Id, Node>) {
    && 0 !in nodes'
    && (forall k :: k in nodes && k in nodes' ==>
          nodes'[k].name == nodes[k].name && nodes'[k].dir == nodes[k].dir && nodes'[k].parent == nodes[k].parent
          && nodes'[k].children == nodes[k].children
          && (nodes'[k].unlinked == nodes[k].unlinked || Loose(nodes'[k])))
    && (forall k :: k in nodes && k !in nodes' ==> Loose(nodes[k]))
    && (forall k :: k in nodes' && k !in nodes ==> Loose(nodes'[k]))
  }

  predicate Loose(n: Node) { n.parent == 0 && n.children == [] }

  lemma QuietForest(fs: Fs, rank: map<Id, nat>, nodes': map<Id, Node>, rank': map<Id, nat>)
    requires Forest(fs, rank) && Quiet(fs.nodes, nodes')
    requires forall k :: k in nodes' ==> k in rank' && (k in fs.nodes && k in rank ==> rank'[k] == rank[k])
    requires fs.root in nodes' && !nodes'[fs.root].unlinked
    requires forall m :: m in fs.mounts ==> m.at in nodes' && m.root in nodes' && !nodes'[m.at].unlinked && !nodes'[m.root].unlinked
    ensures Forest(fs.(nodes := nodes'), rank')
  {
    QuietLinks(fs.nodes, nodes');
    hide Links;
    QuietAcyclic(fs.nodes, nodes', rank, rank');
  }

  lemma QuietLinks(nodes: map<Id, Node>, nodes': map<Id, Node>)
    requires Links(nodes) && Quiet(nodes, nodes')
    ensures Links(nodes')
  {
    forall k | k in nodes'
      ensures LinksAt(nodes', k)
    {
      if k in nodes {
        assert LinksAt(nodes, k);
        if nodes[k].parent != 0 {
          assert LinksAt(nodes, nodes[k].parent);
        }
      }
    }
  }

  lemma QuietAcyclic(nodes: map<Id, Node>, nodes': map<Id, Node>, rank: map<Id, nat>, rank': map<Id, nat>)
    requires Links(nodes) && Quiet(nodes, nodes') && Acyclic(nodes, rank) && Links(nodes')
    requires forall k :: k in nodes' ==> k in rank' && (k in nodes && k in rank ==> rank'[k] == rank[k])
    ensures Acyclic(nodes', rank')
  {
    forall k | k in nodes' && nodes'[k].parent != 0
      ensures nodes'[k].parent in rank' && rank'[nodes'[k].parent] < rank'[k]
    {
      assert LinksAt(nodes', k);
    }
  }

  lemma QuietWalk(fs: Fs, rank: map<Id, nat>, nodes': map<Id, Node>, rank': map<Id, nat>, q: seq<Name>)
    requires Forest(fs, rank) && Quiet(fs.nodes, nodes') && Forest(fs.(nodes := nodes'), rank')
    ensures Walk(fs.(nodes := nodes'), q) == Walk(fs, q)
  {
    hide Links, Names, Acyclic, Mounts;
    SameWalk(fs, fs.(nodes := nodes'), q);
  }
}
