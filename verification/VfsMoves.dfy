/**
 Creating, unlinking and renaming are all moves of one node: out of its parent,
 into another one. What a move does to the forest, and to every path.
 */
module VfsMoves {
  import opened Common
  import opened VfsTree

  function Without(cs: seq<Id>, c: Id): seq<Id> {
    if cs == [] then [] else if cs[0] == c then cs[1..] else [cs[0]] + Without(cs[1..], c)
  }

  lemma {:induction false} WithoutMembers(cs: seq<Id>, c: Id)
    requires NoRepeats(cs)
    ensures forall e :: e in Without(cs, c) <==> e in cs && e != c
    ensures NoRepeats(Without(cs, c))
  {
    if cs != [] {
      assert cs == [cs[0]] + cs[1..];
      assert cs[0] !in cs[1..];
      if cs[0] != c {
        WithoutMembers(cs[1..], c);
        InFront(Without(cs[1..], c), cs[0]);
      }
    }
  }

  lemma InFront(cs: seq<Id>, c: Id)
    requires NoRepeats(cs) && c !in cs
    ensures NoRepeats([c] + cs)
  {
  }

  // ---------------------------------------------------------------------- moves

  function Detached(nodes: map<Id, Node>, n: Id): map<Id, Node>
    requires n in nodes && (nodes[n].parent != 0 ==> nodes[n].parent in nodes)
  {
    var p := nodes[n].parent;
    if p == 0 then nodes else nodes[p := nodes[p].(children := Without(nodes[p].children, n))]
  }

  function Attached(nodes: map<Id, Node>, n: Id, d: Id): map<Id, Node>
    requires d == 0 || d in nodes
  {
    if d == 0 then nodes else nodes[d := nodes[d].(children := [n] + nodes[d].children)]
  }

  /** n leaves its parent, if it has one, and becomes the child of d, if d is not 0, under the name x. */
  function Moved(nodes: map<Id, Node>, n: Id, d: Id, x: Name): map<Id, Node>
    requires n in nodes && (nodes[n].parent != 0 ==> nodes[n].parent in nodes) && (d == 0 || d in nodes)
  {
    var m := Attached(Detached(nodes, n), n, d);
    m[n := m[n].(parent := d, name := x)]
  }

  ghost predicate CanMove(nodes: map<Id, Node>, n: Id, d: Id, x: Name) {
    && Links(nodes) && Names(nodes) && n in nodes && nodes[n].parent != n && d != n
    && (nodes[n].parent != 0 ==> nodes[n].parent in nodes)
    && (d != 0 ==> d in nodes && nodes[d].dir && !nodes[d].unlinked && !nodes[n].unlinked)
    && (forall c :: !IsChild(nodes, d, x, c))
  }

  predicate SameKind(a: Node, b: Node) {
    a.dir == b.dir && a.ext2 == b.ext2 && a.refs == b.refs && a.unlinked == b.unlinked
  }

  lemma MovedFields(nodes: map<Id, Node>, n: Id, d: Id, x: Name)
    requires CanMove(nodes, n, d, x)
    ensures var m := Moved(nodes, n, d, x);
            && m.Keys == nodes.Keys && m[n].parent == d && m[n].name == x
            && (forall k :: k in nodes ==> SameKind(m[k], nodes[k]))
            && (forall k :: k in nodes && k != n ==> m[k].parent == nodes[k].parent && m[k].name == nodes[k].name)
  {
    hide Links, Names, IsChild, Without;
  }

  /** Who is in which child list after the move. */
  lemma MovedChildren(nodes: map<Id, Node>, n: Id, d: Id, x: Name, k: Id)
    requires CanMove(nodes, n, d, x) && k in nodes
    ensures var cs := Moved(nodes, n, d, x)[k].children;
            && (forall c :: c in cs <==> (c in nodes[k].children && c != n) || (c == n && k == d))
            && NoRepeats(cs) && (nodes[k].children == [] && k != d ==> cs == [])
            && (cs != [] ==> nodes[k].dir) && (nodes[k].unlinked ==> cs == [])
  {
    hide Names, IsChild;
    assert LinksAt(nodes, k);
    assert LinksAt(nodes, n);
    hide NoRepeats, Without;
    WithoutMembers(nodes[k].children, n);
    var base := if nodes[n].parent == k then Without(nodes[k].children, n) else nodes[k].children;
    assert n !in base;
    InFront(base, n);
  }

  lemma MovedLinks(nodes: map<Id, Node>, n: Id, d: Id, x: Name)
    requires CanMove(nodes, n, d, x)
    ensures Links(Moved(nodes, n, d, x))
  {
    hide Names, IsChild, Moved;
    var m := Moved(nodes, n, d, x);
    MovedFields(nodes, n, d, x);
    forall k | k in m
      ensures LinksAt(m, k)
    {
      assert LinksAt(nodes, k);
      MovedChildren(nodes, n, d, x, k);
      if m[k].parent != 0 {
        MovedChildren(nodes, n, d, x, m[k].parent);
      }
    }
  }

  lemma MovedNames(nodes: map<Id, Node>, n: Id, d: Id, x: Name)
    requires CanMove(nodes, n, d, x)
    ensures Names(Moved(nodes, n, d, x))
  {
    hide Links, Moved;
    MovedFields(nodes, n, d, x);
    var m := Moved(nodes, n, d, x);
    forall c | c in nodes && c != n && nodes[c].parent == d != 0
      ensures nodes[c].name != x
    {
      assert !IsChild(nodes, d, x, c);
    }
  }

  // ------------------------------------------------------------------ ancestors

  /** k is n or lies below it. */
  ghost predicate Under(nodes: map<Id, Node>, rank: map<Id, nat>, k: Id, n: Id)
    requires Acyclic(nodes, rank) && Links(nodes) && k in nodes
    decreases rank[k]
  {
    assert LinksAt(nodes, k);
    k == n || (nodes[k].parent != 0 && Under(nodes, rank, nodes[k].parent, n))
  }

  ghost function MovedRank(nodes: map<Id, Node>, rank: map<Id, nat>, n: Id, d: Id): map<Id, nat>
    requires Acyclic(nodes, rank) && Links(nodes)
  {
    map k | k in nodes :: if d in rank && Under(nodes, rank, k, n) then rank[k] + rank[d] + 1 else rank[k]
  }

  lemma ParentThere(nodes: map<Id, Node>, k: Id)
    requires Links(nodes) && k in nodes
    ensures nodes[k].parent != 0 ==> nodes[k].parent in nodes
  {
    assert LinksAt(nodes, k);
  }

  /** Moving a node anywhere but below itself leaves no cycle. */
  lemma MovedAcyclic(nodes: map<Id, Node>, rank: map<Id, nat>, n: Id, d: Id, x: Name)
    requires CanMove(nodes, n, d, x) && Acyclic(nodes, rank) && (d != 0 ==> !Under(nodes, rank, d, n))
    ensures Acyclic(Moved(nodes, n, d, x), MovedRank(nodes, rank, n, d))
  {
    hide Names, IsChild, Moved, Links;
    var m, r := Moved(nodes, n, d, x), MovedRank(nodes, rank, n, d);
    MovedFields(nodes, n, d, x);
    forall k | k in m
      ensures k in r && (m[k].parent != 0 ==> m[k].parent in r && r[m[k].parent] < r[k])
    {
      ParentThere(nodes, k);
    }
  }

  // ------------------------------------------------------------------ the forest

  ghost predicate MovedOk(fs: Fs, rank: map<Id, nat>, n: Id, d: Id, x: Name) {
    && Forest(fs, rank) && CanMove(fs.nodes, n, d, x) && (d != 0 ==> !Under(fs.nodes, rank, d, n))
    && (fs.nodes[n].parent == 0 ==> n != fs.root && forall m :: m in fs.mounts ==> m.root != n)
  }

  lemma MovedForest(fs: Fs, rank: map<Id, nat>, n: Id, d: Id, x: Name)
    requires MovedOk(fs, rank, n, d, x)
    ensures Forest(fs.(nodes := Moved(fs.nodes, n, d, x)), MovedRank(fs.nodes, rank, n, d))
  {
    hide Links, Names, Moved, Acyclic, MovedRank, Under, IsChild;
    MovedLinks(fs.nodes, n, d, x);
    MovedNames(fs.nodes, n, d, x);
    MovedAcyclic(fs.nodes, rank, n, d, x);
    MovedFields(fs.nodes, n, d, x);
  }

  // ------------------------------------------------------------------- the paths

  lemma MovedIsChild(nodes: map<Id, Node>, n: Id, d: Id, x: Name, e: Id, y: Name, c: Id)
    requires CanMove(nodes, n, d, x)
    ensures IsChild(Moved(nodes, n, d, x), e, y, c) <==>
            if c == n then e == d && y == x && d != 0 else IsChild(nodes, e, y, c)
  {
    hide Links, Names, Moved;
    MovedFields(nodes, n, d, x);
  }

  /** A move changes two places only: where the node was, and where it is. */
  lemma MovedStep(fs: Fs, rank: map<Id, nat>, n: Id, d: Id, x: Name, e: Id, y: Name)
    requires MovedOk(fs, rank, n, d, x)
    ensures Step(fs.(nodes := Moved(fs.nodes, n, d, x)), e, y) ==
            if e == d && y == x && d != 0 then Some(Hop(fs, n))
            else if e == fs.nodes[n].parent && y == fs.nodes[n].name && e != 0 then None
            else Step(fs, e, y)
  {
    hide Links, Names, Moved, Acyclic, Child, Under;
    var fs' := fs.(nodes := Moved(fs.nodes, n, d, x));
    MovedLinks(fs.nodes, n, d, x);
    MovedNames(fs.nodes, n, d, x);
    ChildrenOf(fs);
    ChildrenOf(fs');
    forall c: Id
      ensures IsChild(fs'.nodes, e, y, c) <==> if c == n then e == d && y == x && d != 0 else IsChild(fs.nodes, e, y, c)
    {
      MovedIsChild(fs.nodes, n, d, x, e, y, c);
    }
    MovedChild(fs, n, d, x, e, y);
  }

  lemma ChildrenOf(fs: Fs)
    requires Links(fs.nodes) && Names(fs.nodes)
    ensures forall d: Id, x: Name, c: Id :: Child(fs, d, x) == Some(c) <==> IsChild(fs.nodes, d, x, c)
  {
    hide Links, Names, Child, IsChild;
    forall d: Id, x: Name, c: Id
      ensures Child(fs, d, x) == Some(c) <==> IsChild(fs.nodes, d, x, c)
    {
      ChildIff(fs, d, x, c);
    }
  }

  lemma MovedChild(fs: Fs, n: Id, d: Id, x: Name, e: Id, y: Name)
    requires CanMove(fs.nodes, n, d, x)
    requires forall d: Id, x: Name, c: Id :: Child(fs, d, x) == Some(c) <==> IsChild(fs.nodes, d, x, c)
    requires var fs' := fs.(nodes := Moved(fs.nodes, n, d, x));
             && (forall d: Id, x: Name, c: Id :: Child(fs', d, x) == Some(c) <==> IsChild(fs'.nodes, d, x, c))
             && (forall c: Id :: IsChild(fs'.nodes, e, y, c) <==> if c == n then e == d && y == x && d != 0 else IsChild(fs.nodes, e, y, c))
    ensures Child(fs.(nodes := Moved(fs.nodes, n, d, x)), e, y) ==
            if e == d && y == x && d != 0 then Some(n)
            else if e == fs.nodes[n].parent && y == fs.nodes[n].name && e != 0 then None
            else Child(fs, e, y)
  {
    hide Links, Moved, Child;
    var fs' := fs.(nodes := Moved(fs.nodes, n, d, x));
    var r := Child(fs', e, y);
    if r.Some? {
      assert IsChild(fs'.nodes, e, y, r.value);
    }
    if Child(fs, e, y).Some? {
      assert IsChild(fs.nodes, e, y, Child(fs, e, y).value);
    }
  }
}
