/**
 The VFS as it runs: path lookup through the cache, the changes to the name
 space, and the reference counts that decide when a node is freed.
 */
module Vfs {
  import opened Common
  import opened Status
  import opened VfsTree
  import opened VfsMoves
  import opened VfsPaths
  import opened VfsChanges
  import opened VfsNames

  const CACHE_SIZE := 64

  type Fd = nat   // address of an open file

  // --------------------------------------------------------------- open files

  ghost function OpenOn(files: map<Fd, Id>, n: Id): set<Fd> { set f | f in files && files[f] == n }

  function Linked(n: Node): nat { if n.unlinked then 0 else 1 }

  /** A node is counted once while it is linked, and once for every open file; it is there as long as it is counted. */
  ghost predicate Counted(nodes: map<Id, Node>, files: map<Fd, Id>) {
    && (forall n :: n in nodes ==> nodes[n].refs == Linked(nodes[n]) + |OpenOn(files, n)| && nodes[n].refs > 0)
    && (forall f :: f in files ==> files[f] in nodes && !nodes[files[f]].dir)
  }

  lemma OpenAdd(files: map<Fd, Id>, f: Fd, n: Id, k: Id)
    requires f !in files
    ensures |OpenOn(files[f := n], k)| == |OpenOn(files, k)| + (if k == n then 1 else 0)
  {
    assert OpenOn(files[f := n], k) == if k == n then OpenOn(files, k) + {f} else OpenOn(files, k);
  }

  lemma OpenDrop(files: map<Fd, Id>, f: Fd, k: Id)
    requires f in files
    ensures |OpenOn(files, k)| == |OpenOn(files - {f}, k)| + (if k == files[f] then 1 else 0)
  {
    assert OpenOn(files, k) == if k == files[f] then OpenOn(files - {f}, k) + {f} else OpenOn(files - {f}, k);
  }

  class VfsState {
    var nodes: map<Id, Node>
    const root: Id
    var mounts: seq<Mount>
    const cache: array<Slot>
    var gen: nat
    var turn: nat
    var files: map<Fd, Id>
    ghost var rank: map<Id, nat>

    function Space(): Fs
      reads this
    {
      Fs(nodes, root, mounts)
    }

    /** All but that what the cache remembers is right; the nodes it names are in the name space in any case. */
    ghost predicate Tidy()
      reads this, cache
    {
      && Forest(Space(), rank) && Counted(nodes, files) && cache.Length == CACHE_SIZE
      && (forall i :: 0 <= i < CACHE_SIZE ==> |cache[i].path| <= KEY_MAX)
      && CacheLive(Space(), cache[..], gen)
    }

    ghost predicate Valid()
      reads this, cache
    {
      Tidy() && CacheOk(Space(), cache[..], gen)
    }

    // -------------------------------------------------------------------- cache

    /** Forgets every remembered path. */
    method CacheReset()
      requires cache.Length == CACHE_SIZE
      modifies this`gen, this`turn, cache
      ensures forall i :: 0 <= i < CACHE_SIZE ==> cache[i].path == ""
    {
      gen := (gen + 1) % U32;
      for i := 0 to CACHE_SIZE
        invariant forall j :: 0 <= j < i ==> cache[j].path == ""
      {
        cache[i] := Slot("", 0, 0);
      }
      turn := 0;
    }

    method CacheLookup(path: string) returns (n: Id)
      requires cache.Length == CACHE_SIZE
      ensures n == Hit(cache[..], gen, path)
      ensures CacheOk(Space(), cache[..], gen) && n != 0 ==> Walk(Space(), Parse(path)) == Some(n)
    {
      hide Walk, Parse;
      ghost var slots := cache[..];
      if CacheOk(Space(), slots, gen) {
        HitIsRight(Space(), slots, gen, path);
      }
      for i := 0 to CACHE_SIZE
        invariant Hit(slots, gen, path) == Hit(slots[i..], gen, path)
      {
        assert slots[i..][1..] == slots[i + 1..];
        if cache[i].gen == gen && cache[i].path != "" && cache[i].path == path {
          return cache[i].node;
        }
      }
      return 0;
    }

    /** Remembers a path, of which the slot keeps the first 63 characters. */
    method CacheInsert(path: string, n: Id)
      requires cache.Length == CACHE_SIZE
      modifies this`turn, cache
      ensures cache[..] == old(cache[..])[old(turn) % CACHE_SIZE := Slot(Key(path), n, gen)]
    {
      var slot := turn % CACHE_SIZE;
      turn := (turn + 1) % U32;
      cache[slot] := Slot(Key(path), n, gen);
    }

    // ------------------------------------------------------------------ walking

    method FindChild(d: Id, x: Name) returns (c: Id)
      requires d in nodes && Links(nodes)
      ensures Child(Space(), d, x) == (if c == 0 then None else Some(c))
    {
      hide Links;
      c := 0;
      if !nodes[d].dir {
        return;
      }
      var cs := nodes[d].children;
      for i := 0 to |cs|
        invariant FindIn(nodes, cs, x) == FindIn(nodes, cs[i..], x)
      {
        assert cs[i..][1..] == cs[i + 1..];
        if cs[i] in nodes && nodes[cs[i]].name == x {
          NoZero(nodes);
          return cs[i];
        }
      }
    }

    method FindMountAt(c: Id) returns (r: Option<Id>)
      ensures r == MountAt(mounts, c)
    {
      for i := 0 to |mounts|
        invariant MountAt(mounts, c) == MountAt(mounts[i..], c)
      {
        assert mounts[i..][1..] == mounts[i + 1..];
        if mounts[i].at == c {
          return Some(mounts[i].root);
        }
      }
      return None;
    }

    /** Steps from directory d to its child x, and into what is mounted there; zero if there is none. */
    method StepTo(d: Id, x: Name) returns (e: Id, c: Id)
      requires Forest(Space(), rank) && d in nodes
      ensures Step(Space(), d, x) == (if e == 0 then None else Some(e)) && (e != 0 ==> e in nodes)
      ensures Child(Space(), d, x) == (if e == 0 then None else Some(c)) && (e != 0 ==> c in nodes)
    {
      hide Links, Names, Acyclic, Child;
      c := FindChild(d, x);
      if c == 0 {
        return 0, 0;
      }
      var m := FindMountAt(c);
      e := if m.Some? then m.value else c;
      StepFrom(Space(), d, x, rank);
      NoZero(nodes);
    }

    /**
     Resolves a path, through the cache where it can. What it finds is right if
     the cache is, and the cache stays right exactly if nothing was found or
     the key of the path has the same components.
     */
    method Lookup(path: string) returns (n: Id)
      requires Tidy()
      modifies this`turn, cache
      ensures Tidy() && n == Answer(Space(), old(cache[..]), gen, path)
      ensures n != 0 ==> n in nodes && Reached(Space(), n)
      ensures path != "/" && Hit(old(cache[..]), gen, path) == 0 && n != 0 ==>
                cache[..] == old(cache[..])[old(turn) % CACHE_SIZE := Slot(Key(path), n, gen)]
      ensures path == "/" || Hit(old(cache[..]), gen, path) != 0 || n == 0 ==> cache[..] == old(cache[..])
      ensures old(Valid()) ==> Walk(Space(), Parse(path)) == (if n == 0 then None else Some(n))
      ensures old(Valid()) ==> (Valid() <==> n == 0 || KeyFits(path))
    {
      hide Walk, Parse, Forest, Counted, CacheOk, Hit, KeyFits, Key, CacheLive, Reached;
      RootThere(Space(), rank);
      ghost var slots := cache[..];
      if path == "/" {
        RootPath(Space());
        ReachedBy(Space(), [], root);
        ShortKeyFits(path);
        return root;
      }
      n := CacheLookup(path);
      if n != 0 {
        HitIsLive(Space(), slots, gen, path);
        ReachedNode(Space(), rank, n);
        HitFits(slots, gen, path);
        return;
      }
      n := WalkPath(path);
      if n != 0 {
        if Valid() {
          RememberExactly(Space(), rank, slots, gen, turn % CACHE_SIZE, path, n);
        }
        KeyIsShort(path);
        ReachedBy(Space(), Parse(path), n);
        StillLive(Space(), slots, gen, turn % CACHE_SIZE, Key(path), n);
        CacheInsert(path, n);
      }
    }

    /**
     Looking up a path whose key has other components makes the next lookup of
     that key, if it was not remembered before, return the same node, to which
     the key does not lead.
     */
    method LookupMisled(path: string) returns (n: Id, m: Id)
      requires Valid() && Walk(Space(), Parse(path)).Some? && !KeyFits(path)
      requires forall i :: 0 <= i < CACHE_SIZE ==> !(Live(cache[i], gen) && cache[i].path == Key(path))
      modifies this`turn, cache
      ensures Tidy() && Walk(Space(), Parse(path)) == Some(n) && m == n && Walk(Space(), Parse(Key(path))) != Some(m)
      ensures Answer(Space(), cache[..], gen, Key(path)) == n
    {
      hide Walk, Parse, Forest, Counted, CacheOk, Hit;
      LongKeyOnly(path);
      LongMisses(cache[..], gen, path);
      n := Lookup(path);
      HitInserted(old(cache[..]), gen, old(turn) % CACHE_SIZE, Key(path), n);
      if Walk(Space(), Parse(Key(path))) == Some(n) {
        OnePath(Space(), rank, Parse(Key(path)), Parse(path));
      }
      m := Lookup(Key(path));
    }

    /** The walk itself, component by component. */
    method WalkPath(path: string) returns (n: Id)
      requires Forest(Space(), rank)
      ensures Walk(Space(), Parse(path)) == (if n == 0 then None else Some(n)) && (n != 0 ==> n in nodes)
    {
      hide Walk, Parse, Forest, Step, Child;
      RootThere(Space(), rank);
      var current, p := root, 0;
      ghost var done: seq<Name> := [];
      assert path[0..] == path && [] + Parse(path) == Parse(path);
      while true
        invariant 0 <= p <= |path| && Parse(path) == done + Parse(path[p..])
        invariant current in nodes && current != 0 && Walk(Space(), done) == Some(current)
        decreases |path| - p
      {
        var more, comp, next := NextComponent(path, p);
        if !more {
          assert done + [] == done;
          return current;
        }
        assert done + ([comp] + Parse(path[next..])) == done + [comp] + Parse(path[next..]);
        WalkStep(Space(), done, comp);
        var c;
        current, c := StepTo(current, comp);
        if current == 0 {
          WalkNone(Space(), done + [comp], Parse(path[next..]));
          return 0;
        }
        done, p := done + [comp], next;
      }
    }

    /** The directory that a path's last component is to be found in, and that component; zero if there is none. */
    method ResolveParent(path: string) returns (d: Id, leaf: Name)
      requires Forest(Space(), rank)
      ensures d != 0 ==> Parse(path) != [] && IsParent(Space(), Parse(path), d, leaf)
      ensures d == 0 ==> Parse(path) == [] || NoParent(Space(), Parse(path))
    {
      hide Walk, Parse, Forest, Step, Child;
      RootThere(Space(), rank);
      leaf := "";
      if path == "/" {
        RootPath(Space());
        return 0, leaf;
      }
      var p := 0;
      d := root;
      ghost var done: seq<Name> := [];
      assert path[0..] == path && [] + Parse(path) == Parse(path);
      while true
        invariant 0 <= p <= |path| && Parse(path) == done + Parse(path[p..])
        invariant d in nodes && d != 0 && nodes[d].dir && Walk(Space(), done) == Some(d)
        invariant done != [] ==> Parse(path[p..]) != []
        decreases |path| - p
      {
        var more, comp, next := NextComponent(path, p);
        if !more {
          return 0, leaf;
        }
        assert done + ([comp] + Parse(path[next..])) == done + [comp] + Parse(path[next..]);
        var last := AtEnd(path, next);
        if last {
          assert (done + [comp])[..|done|] == done && done + [comp] + [] == done + [comp];
          return d, comp;
        }
        WalkStep(Space(), done, comp);
        ghost var at := d;
        var c;
        d, c := StepTo(d, comp);
        if d == 0 || !nodes[c].dir {
          BadStep(Space(), rank, done, at, comp, Parse(path[next..]));
          return 0, leaf;
        }
        DirStep(Space(), rank, at, comp);
        done, p := done + [comp], next;
      }
    }

    /** Whether only slashes are left. */
    method AtEnd(path: string, i: nat) returns (r: bool)
      requires i <= |path|
      ensures r <==> Parse(path[i..]) == []
    {
      hide Parse;
      var j := i;
      while j < |path| && path[j] == '/'
        invariant i <= j <= |path| && Parse(path[i..]) == Parse(path[j..])
      {
        SlashSkipped(path, j);
        j := j + 1;
      }
      RestOfPath(path, j);
      return j == |path|;
    }

    // ---------------------------------------------------------- changing the name space

    /** Forgets all paths after a change that left a forest with right counts. */
    method Changed(ghost r: map<Id, nat>)
      requires Forest(Space(), r) && Counted(nodes, files) && cache.Length == CACHE_SIZE
      modifies this`gen, this`turn, this`rank, cache
      ensures Valid()
    {
      hide Forest, Counted, Walk, Parse, Reached;
      CacheReset();
      rank := r;
      assert forall i :: 0 <= i < CACHE_SIZE ==> cache[..][i] == cache[i];
    }

    method AddChild(d: Id, c: Id)
      requires d in nodes && c in nodes && d != c && nodes[d].dir
      modifies this`nodes
      ensures nodes == (var m := old(nodes)[c := old(nodes)[c].(parent := d)];
                        m[d := m[d].(children := [c] + m[d].children)])
    {
      nodes := nodes[c := nodes[c].(parent := d)];
      nodes := nodes[d := nodes[d].(children := [c] + nodes[d].children)];
    }

    /** Takes a node out of a list of children. */
    method DropChild(p: Id, n: Id)
      requires p in nodes
      modifies this`nodes
      ensures nodes == old(nodes)[p := old(nodes)[p].(children := Without(old(nodes)[p].children, n))]
    {
      var cs := ListWithout(nodes[p].children, n);
      nodes := nodes[p := nodes[p].(children := cs)];
    }

    /** A new node in directory d; `id` is the address the heap gave for it. */
    method CreateNode(d: Id, x: Name, dir: bool, id: Id, ghost to: seq<Name>)
      requires Tidy() && CanCreate(Space(), rank, id, d, x, to)
      modifies this`nodes, this`gen, this`turn, this`rank, cache
      ensures Valid() && Space() == Created(old(Space()), id, d, x, dir)
      ensures forall q :: Walk(Space(), q) == if q == to + [x] then Some(id) else Walk(old(Space()), q)
    {
      hide Walk, Forest, Links, Names, Moved, Counted, CreatedRank, Child;
      ghost var fs' := Created(Space(), id, d, x, dir);
      ReachedDir(Space(), rank, to, d);
      CreateTheorem(Space(), rank, id, d, x, dir, to);
      ghost var r := CreatedRank(Space(), rank, id, d, x, dir);
      CreatedNodes(Space(), id, d, x, dir);
      CreatedCounted(Space(), rank, files, id, d, x, dir, to);
      nodes := nodes[id := NewNode(x, dir)];
      AddChild(d, id);
      assert nodes == fs'.nodes;
      Changed(r);
    }

    /** Makes a directory; one that is there already is fine. */
    method Mkdir(path: string, id: Id) returns (status: Status)
      requires Tidy() && id != 0 && id !in nodes
      modifies this`nodes, this`gen, this`turn, this`rank, cache
      ensures Tidy() && (old(Valid()) ==> Valid()) && (status != Ok ==> nodes == old(nodes))
      ensures status == if path == "/" then Ok
                        else match ParentOf(old(Space()), Parse(path))
                             case None => NotFound
                             case Some(d) => if old(nodes)[d].ext2 then Unsupported else Ok
      ensures status == Ok && Parse(path) != [] && Walk(old(Space()), Parse(path)).Some? ==> nodes == old(nodes)
      ensures status == Ok && Parse(path) != [] && Walk(old(Space()), Parse(path)).None? ==>
                && (forall q :: Walk(Space(), q) == if q == Parse(path) then Some(id) else Walk(old(Space()), q))
                && Valid() && nodes.Keys == old(nodes).Keys + {id} && nodes[id].dir && nodes[id].children == [] && !nodes[id].ext2 && nodes[id].parent != 0
    {
      hide Walk, Forest, Parse, Counted, Child, Created, CacheOk, CacheLive, ParentOf;
      if path == "/" {
        RootPath(Space());
        return Ok;
      }
      var d, leaf := ResolveParent(path);
      ParentFound(Space(), Parse(path), d, leaf);
      if d == 0 {
        return NotFound;
      }
      ghost var q := Parse(path);
      ghost var to := q[..|q| - 1];
      assert q == to + [leaf];
      if nodes[d].ext2 {
        return Unsupported;
      }
      var c := FindChildOf(d, leaf);
      WalkStep(Space(), to, leaf);
      if c != 0 {
        return Ok;
      }
      ReachedDir(Space(), rank, to, d);
      CreatedFields(Space(), id, d, leaf, true);
      CreateNode(d, leaf, true, id, to);
      return Ok;
    }

    method FindChildOf(d: Id, x: Name) returns (c: Id)
      requires Forest(Space(), rank) && d in nodes
      ensures Child(Space(), d, x) == (if c == 0 then None else Some(c))
      ensures Step(Space(), d, x).None? <==> c == 0
    {
      c := FindChild(d, x);
    }

    /** One reference to a node less; the last one frees it. */
    method Release(n: Id)
      requires n in nodes
      modifies this`nodes
      ensures nodes == Released(old(nodes), n)
    {
      if nodes[n].refs == 0 {
        return;
      }
      nodes := nodes[n := nodes[n].(refs := nodes[n].refs - 1)];
      if nodes[n].refs == 0 {
        nodes := nodes - {n};
      }
    }

    /**
     Removes a file or an empty directory from the name space: the node that
     the lookup finds, which is where `at` leads. That is the path asked for
     exactly if the cache has no wrong answer for it.
     */
    method Unlink(path: string) returns (status: Status, ghost n: Id, ghost at: seq<Name>)
      requires Tidy()
      modifies this`nodes, this`gen, this`turn, this`rank, cache
      ensures Tidy() && n == Answer(old(Space()), old(cache[..]), old(gen), path)
      ensures status == UnlinkStatus(old(Space()), n) && (status != Ok ==> nodes == old(nodes))
      ensures old(Valid()) ==> (Valid() <==> status == Ok || Walk(old(Space()), Parse(path)).None? || KeyFits(path))
      ensures status == Ok ==>
                && Valid() && Walk(old(Space()), at) == Some(n) && n in old(nodes)
                && (at == Parse(path) <==> AnswersRight(old(Space()), old(cache[..]), old(gen), path))
                && (forall q :: Walk(Space(), q) == if at <= q then None else Walk(old(Space()), q))
                && (n in nodes <==> OpenOn(files, n) != {}) && (n in nodes ==> nodes[n].unlinked)
                && (forall k :: k in old(nodes) && k != n ==> k in nodes && nodes[k].refs == old(nodes)[k].refs)
      ensures old(Valid()) && status == Ok ==> at == Parse(path)
    {
      hide Walk, Forest, Parse, Counted, CacheOk, CacheLive, Without, Moved, CanUnlink, KeyFits, Hit;
      AnswerIsRight(Space(), rank, cache[..], gen, path);
      if Valid() {
        ValidIsRight(Space(), cache[..], gen, path);
      }
      RootThere(Space(), rank);
      var node := Lookup(path);
      n, at := node, [];
      if node == 0 || node == root {
        return NotFound, n, at;
      }
      at :| Walk(Space(), at) == Some(node);
      if nodes[node].ext2 {
        return Unsupported, n, at;
      }
      if nodes[node].dir && nodes[node].children != [] {
        return Busy, n, at;
      }
      var p := nodes[node].parent;
      if p == 0 {
        return Invalid, n, at;
      }
      FoundChild(Space(), rank, at, node);
      SamePath(Space(), rank, at, Parse(path), node);
      Detach(node, p, at);
      return Ok, n, at;
    }

    /** Takes a node that path q leads to out of its directory p. */
    method Detach(node: Id, p: Id, ghost q: seq<Name>)
      requires Tidy() && node in nodes && nodes[node].parent == p != 0 && !(nodes[node].dir && nodes[node].children != [])
      requires q != [] && q[|q| - 1] == nodes[node].name && Walk(Space(), q[..|q| - 1]) == Some(p)
      requires forall m :: m in mounts ==> m.at != node
      modifies this`nodes, this`gen, this`turn, this`rank, cache
      ensures Valid() && (forall k :: Walk(Space(), k) == if q <= k then None else Walk(old(Space()), k))
      ensures (node in nodes <==> OpenOn(files, node) != {}) && (node in nodes ==> nodes[node].unlinked)
      ensures forall k :: k in old(nodes) && k != node ==> k in nodes && nodes[k].refs == old(nodes)[k].refs
    {
      hide Walk, Forest, Counted, CacheOk, CacheLive, Without, Moved, CanUnlink, Unlinked, Released, OpenOn;
      ghost var fs, from, r0 := Space(), q[..|q| - 1], rank;
      assert q == from + [nodes[node].name];
      UnlinkedNodes(fs, r0, node, from);
      DropChild(p, node);
      nodes := nodes[node := nodes[node].(unlinked := true)];
      nodes := nodes[node := nodes[node].(parent := 0)];
      assert nodes == Unlinked(fs, node).nodes;
      CacheReset();
      Release(node);
      rank := UnlinkDone(fs, r0, node, from, files);
      assert forall i :: 0 <= i < CACHE_SIZE ==> cache[..][i] == cache[i];
      NothingCached(Space(), cache[..], gen);
    }

    /** Whether directory a is n or above it, going by parent pointers. */
    method IsAncestor(a: Id, n: Id) returns (r: bool)
      requires Forest(Space(), rank) && n in nodes && a != 0
      ensures r <==> Under(nodes, rank, n, a)
    {
      hide Names, Mounts;
      var cur := n;
      while cur != 0
        invariant cur != 0 ==> cur in nodes && (Under(nodes, rank, n, a) <==> Under(nodes, rank, cur, a))
        invariant cur == 0 ==> !Under(nodes, rank, n, a)
        decreases if cur == 0 then 0 else 1 + rank[cur]
      {
        if cur == a {
          return true;
        }
        ParentThere(nodes, cur);
        cur := nodes[cur].parent;
      }
      return false;
    }

    /** Moves a node to another place in the name space, if that place is free. */
    method Rename(oldPath: string, newPath: string) returns (status: Status, ghost n: Id)
      requires Tidy()
      modifies this`nodes, this`gen, this`turn, this`rank, cache
      ensures Tidy() && (old(Valid()) ==> Valid()) && (status != Ok || oldPath == newPath ==> nodes == old(nodes))
      ensures status == Ok && oldPath != newPath ==>
                && Valid()
                && Parse(oldPath) != [] && Parse(newPath) != [] && n in old(nodes)
                && RenamedPaths(old(Space()), Space(), Parse(oldPath), Parse(newPath))
                && (NoMountUnder(old(Space()), old(rank), n) ==> !(Parse(oldPath) <= AllButLast(Parse(newPath))))
      ensures status == if oldPath == "/" || newPath == "/" then Denied else if oldPath == newPath then Ok
                        else RenameStatus(old(Space()), old(rank), Parse(oldPath), Parse(newPath))
    {
      hide Walk, Forest, Parse, Counted, CacheOk, CacheLive, Without, Moved, Child, NoMountUnder, RenamedPaths, ParentOf;
      n := 0;
      if oldPath == "/" || newPath == "/" {
        return Denied, n;
      }
      if oldPath == newPath {
        return Ok, n;
      }
      var from, oldLeaf := ResolveParent(oldPath);
      var to, newLeaf := ResolveParent(newPath);
      ParentFound(Space(), Parse(oldPath), from, oldLeaf);
      ParentFound(Space(), Parse(newPath), to, newLeaf);
      if from == 0 || to == 0 {
        return NotFound, n;
      }
      var node := FindChildOf(from, oldLeaf);
      if node == 0 {
        return NotFound, n;
      }
      n := node;
      ChildThere(Space(), rank, from, oldLeaf);
      if nodes[node].ext2 || nodes[to].ext2 {
        return Unsupported, n;
      }
      var taken := FindChildOf(to, newLeaf);
      if taken != 0 {
        return Busy, n;
      }
      var below := IsAncestor(node, to);
      if nodes[node].dir && below {
        return Invalid, n;
      }
      ghost var o, t := Parse(oldPath), Parse(newPath);
      RenameReady(Space(), rank, o, t, from, to, node, below);
      MoveNode(from, to, node, newLeaf, o, t);
      return Ok, n;
    }

    /** Takes a node out of directory `from` and puts it into directory `to` under another name. */
    method MoveNode(from: Id, to: Id, node: Id, x: Name, ghost o: seq<Name>, ghost t: seq<Name>)
      requires Tidy() && IsRename(Space(), rank, o, t, to, node) && x == t[|t| - 1] && nodes[node].parent == from
      modifies this`nodes, this`gen, this`turn, this`rank, cache
      ensures Valid() && RenamedPaths(old(Space()), Space(), o, t)
      ensures NoMountUnder(old(Space()), old(rank), node) ==> !(o <= AllButLast(t))
    {
      hide Walk, Forest, Counted, CacheOk, CacheLive, Without, Moved, Child, NoMountUnder, RenamedPaths, VfsPaths.Rename;
      ghost var fs := Space();
      RenameMoves(fs, rank, o, t, to, node);
      ghost var r := RenameDone(fs, rank, o, t, to, node, files);
      Relink(from, to, node, x);
      Changed(r);
    }

    method Relink(from: Id, to: Id, node: Id, x: Name)
      requires CanMove(nodes, node, to, x) && nodes[node].parent == from != 0 && to != 0
      modifies this`nodes
      ensures nodes == Moved(old(nodes), node, to, x)
    {
      hide Links, Names, IsChild, Without, Moved;
      MovedNodes(nodes, node, to, x);
      DropChild(from, node);
      nodes := nodes[to := nodes[to].(children := [node] + nodes[to].children)];
      nodes := nodes[node := nodes[node].(parent := to)];
      nodes := nodes[node := nodes[node].(name := x)];
    }

    /**
     Attaches a new tree to the directory that the lookup finds, which is where
     `to` leads; `driver` is what the file system's own mount reports. The
     lookup has already gone into what is mounted there, so a directory that
     has a mount is not refused: the new tree goes onto the root of the mounted
     one, where no path ever comes by.
     */
    method MountFs(target: string, driver: Status, sub: map<Id, Node>, r: Id, ghost ranks: map<Id, nat>)
      returns (status: Status, ghost at: Id, ghost to: seq<Name>)
      requires Tidy()
      requires NewTree(sub, ranks, r) && sub.Keys !! nodes.Keys && forall k :: k in sub ==> sub[k].refs == 1 && !sub[k].unlinked
      modifies this`nodes, this`mounts, this`gen, this`turn, this`rank, cache
      ensures Tidy() && at == Answer(old(Space()), old(cache[..]), old(gen), target)
      ensures status != Ok ==> nodes == old(nodes) && mounts == old(mounts)
      ensures status == MountStatus(old(Space()), at, driver)
      ensures old(Valid()) ==> (Valid() <==> status == Ok || Walk(old(Space()), Parse(target)).None? || KeyFits(target))
      ensures status == Ok ==>
                && Valid() && Walk(old(Space()), to) == Some(at) && at in old(nodes) && Space() == Mounted(old(Space()), at, r, sub)
                && (to == Parse(target) <==> AnswersRight(old(Space()), old(cache[..]), old(gen), target))
                && (Walk(Space(), to) == Some(r) <==> !TopOfTree(old(Space()), at))
                && (forall q :: TopOfTree(old(Space()), at) || !(to <= q) ==> Walk(Space(), q) == Walk(old(Space()), q))
      ensures status == Ok && TopOfTree(old(Space()), at) ==> forall k :: k in sub ==> !Reached(Space(), k)
      ensures old(Valid()) && status == Ok ==> to == Parse(target)
      ensures at in old(nodes) && MountAt(old(mounts), at) != None ==> TopOfTree(old(Space()), at)
    {
      hide Walk, Forest, Parse, Counted, CacheOk, CacheLive, NewTree, MountAt, KeyFits, Hit, TopOfTree, Reached;
      AnswerIsRight(Space(), rank, cache[..], gen, target);
      if Valid() {
        ValidIsRight(Space(), cache[..], gen, target);
      }
      RootThere(Space(), rank);
      var node := Lookup(target);
      at, to := node, [];
      if node == 0 || !nodes[node].dir {
        FileHasNoMount(Space(), rank, node);
        return NotFound, at, to;
      }
      to := ReachedPath(Space(), node);
      MountedIsTop(Space(), rank, to, node);
      var there := FindMountAt(node);
      if there.Some? {
        return Busy, at, to;
      }
      if driver != Ok {
        return driver, at, to;
      }
      ReachedDir(Space(), rank, to, node);
      SamePath(Space(), rank, to, Parse(target), node);
      ghost var fs := Space();
      ghost var rr := MountDone(fs, rank, node, r, sub, ranks, to, files);
      nodes := nodes + sub;
      mounts := [Mount(node, r)] + mounts;
      Changed(rr);
      return Ok, at, to;
    }

    // ------------------------------------------------------------------ open files

    method Retain(n: Id)
      requires n in nodes
      modifies this`nodes
      ensures nodes == old(nodes)[n := old(nodes)[n].(refs := old(nodes)[n].refs + 1)]
    {
      nodes := nodes[n := nodes[n].(refs := nodes[n].refs + 1)];
    }

    /** A file takes its own reference to the node. */
    method Hold(f: Fd, n: Id)
      requires Tidy() && f !in files && n in nodes && !nodes[n].dir
      modifies this`nodes, this`files
      ensures Tidy() && (Valid() <==> old(Valid())) && files == old(files)[f := n] && nodes == old(nodes)[n := old(nodes)[n].(refs := old(nodes)[n].refs + 1)]
      ensures forall q :: Walk(Space(), q) == Walk(old(Space()), q)
    {
      hide Walk, Forest, Parse, Counted, CacheOk, CacheLive;
      HeldForest(Space(), rank, n);
      SameCache(Space(), Space().(nodes := nodes[n := nodes[n].(refs := nodes[n].refs + 1)]), cache[..], gen);
      HeldCounted(nodes, files, f, n);
      Retain(n);
      files := files[f := n];
    }

    /** A file gives its reference back. */
    method LetGo(f: Fd)
      requires Tidy() && f in files
      modifies this`nodes, this`files
      ensures Tidy() && (Valid() <==> old(Valid())) && files == old(files) - {f} && old(files)[f] in old(nodes) && nodes == Released(old(nodes), old(files)[f])
      ensures forall q :: Walk(Space(), q) == Walk(old(Space()), q)
      ensures var n := old(files)[f]; n in nodes <==> !old(nodes)[n].unlinked || OpenOn(files, n) != {}
    {
      hide Walk, Forest, Parse, Counted, Released, CacheOk, CacheLive;
      DroppedCounted(nodes, files, f);
      var n := files[f];
      ReleasedForest(Space(), rank, n);
      SameCache(Space(), Space().(nodes := Released(nodes, n)), cache[..], gen);
      Release(n);
      files := files - {f};
    }

    /** Opens a file, creating it if asked to; `resize` is what truncating it reports. */
    method Open(path: string, create: bool, truncate: bool, resize: Status, f: Fd, id: Id) returns (status: Status)
      requires Tidy() && f !in files && id != 0 && id !in nodes
      modifies this`nodes, this`gen, this`turn, this`rank, this`files, cache
      ensures Tidy() && (old(Valid()) ==> (Valid() <==> Walk(old(Space()), Parse(path)).None? || KeyFits(path)))
      ensures status == Ok ==>
                && f in files && files == old(files)[f := files[f]]
                && files[f] == (var n := Answer(old(Space()), old(cache[..]), old(gen), path); if n == 0 then id else n)
                && (Walk(Space(), Parse(path)) == Some(files[f]) <==> AnswersRight(old(Space()), old(cache[..]), old(gen), path))
      ensures old(Valid()) && status == Ok ==> Walk(Space(), Parse(path)) == Some(files[f])
      ensures status != Ok ==> files == old(files) && forall k :: k in old(nodes) ==> k in nodes && nodes[k].refs == old(nodes)[k].refs
      ensures status == Ok && Answer(old(Space()), old(cache[..]), old(gen), path) != 0 ==>
                files[f] in old(nodes) && nodes == old(nodes)[files[f] := old(nodes)[files[f]].(refs := old(nodes)[files[f]].refs + 1)]
      ensures forall q :: Walk(Space(), q) == Walk(old(Space()), q) || (create && q == Parse(path) && Walk(Space(), q) == Some(id))
      ensures status == OpenStatus(old(Space()), Answer(old(Space()), old(cache[..]), old(gen), path), Parse(path), create,
                                   if truncate && resize != Ok then resize else Ok)
      ensures nodes.Keys <= old(nodes).Keys + {id} && (id in nodes ==> nodes[id].parent != 0 && !nodes[id].ext2)
    {
      hide Walk, Forest, Parse, Counted, CacheOk, CacheLive, Child, Created, KeyFits, Hit;
      AnswerIsRight(Space(), rank, cache[..], gen, path);
      if Valid() {
        ValidIsRight(Space(), cache[..], gen, path);
      }
      var node := Lookup(path);
      if node == 0 {
        if !create {
          return NotFound;
        }
        var d, leaf := ResolveParent(path);
        if d == 0 {
          return NotFound;
        }
        HasParent(Space(), Parse(path), d, leaf);
        if nodes[d].ext2 {
          return Unsupported;
        }
        ghost var q := Parse(path);
        ghost var to := q[..|q| - 1];
        assert q == to + [leaf];
        WalkStep(Space(), to, leaf);
        NoChildThere(Space(), d, leaf);
        ReachedDir(Space(), rank, to, d);
        CreatedFields(Space(), id, d, leaf, false);
        CreateNode(d, leaf, false, id, to);
        node := id;
      }
      status := OpenNode(node, truncate, resize, f);
    }

    method OpenNode(node: Id, truncate: bool, resize: Status, f: Fd) returns (status: Status)
      requires Tidy() && node in nodes && f !in files
      modifies this`nodes, this`files
      ensures Tidy() && (Valid() <==> old(Valid())) && forall q :: Walk(Space(), q) == Walk(old(Space()), q)
      ensures status == Ok ==> files == old(files)[f := node] && nodes == old(nodes)[node := old(nodes)[node].(refs := old(nodes)[node].refs + 1)]
      ensures status != Ok ==> files == old(files) && nodes == old(nodes)
      ensures status == if nodes[node].dir then Invalid else if truncate && resize != Ok then resize else Ok
    {
      hide Walk, Forest, Parse, Counted;
      if nodes[node].dir {
        return Invalid;
      }
      SomeRefs(nodes, files, node);
      Hold(f, node);
      if truncate && resize != Ok {
        LetGo(f);
        assert files == old(files);
        return resize;
      }
      return Ok;
    }

    method Close(f: Fd)
      requires Tidy() && f in files
      modifies this`nodes, this`files
      ensures Tidy() && (Valid() <==> old(Valid())) && files == old(files) - {f}
      ensures forall q :: Walk(Space(), q) == Walk(old(Space()), q)
      ensures var n := old(files)[f]; n in nodes <==> !old(nodes)[n].unlinked || OpenOn(files, n) != {}
      ensures forall k :: k in old(nodes) && k != old(files)[f] ==> k in nodes && nodes[k] == old(nodes)[k]
    {
      LetGo(f);
    }

    /** A second file on the same node. */
    method Dup(f: Fd, g: Fd)
      requires Tidy() && f in files && g !in files
      modifies this`nodes, this`files
      ensures Tidy() && (Valid() <==> old(Valid())) && files == old(files)[g := old(files)[f]]
      ensures forall q :: Walk(Space(), q) == Walk(old(Space()), q)
    {
      OpenIsThere(nodes, files, f);
      Hold(g, files[f]);
    }

    /** A name space with nothing but a root. */
    constructor (root: Id)
      requires root != 0
      ensures Valid() && this.root == root && fresh(cache) && files == map[] && mounts == []
      ensures nodes == map[root := NewNode("/", true)]
    {
      nodes, this.root, mounts := map[root := NewNode("/", true)], root, [];
      cache := new Slot[CACHE_SIZE](_ => Slot("", 0, 0));
      gen, turn, files, rank := 1, 0, map[], map[root := 0];
      new;
      NewSpace(Space(), rank);
      NothingCached(Space(), cache[..], gen);
    }
  }

  /**
   A file "ab", open once, looked up by a path of 64 characters: from then on
   the cache takes the first 63 of them, which end in "a" and lead nowhere, for
   the name of that file.
   */
  method Spoil() returns (fs: VfsState)
    ensures fresh(fs) && fresh(fs.cache) && fs.Tidy() && fs.files == map[1 := 2] && fs.root == 1 && fs.nodes.Keys <= {1, 2}
    ensures Walk(fs.Space(), ["ab"]) == Some(2) && Walk(fs.Space(), Parse(Slashes(62) + "a")) == None
    ensures Answer(fs.Space(), fs.cache[..], fs.gen, Slashes(62) + "a") == 2
    ensures 2 in fs.nodes && !fs.nodes[2].dir && fs.nodes[2].parent != 0 && !fs.nodes[2].ext2
  {
    hide Walk, Parse, Forest, Counted, CacheOk, CacheLive, Slashes, Key, IsParent, Answer, AnswersRight, KeyFits;
    fs := new VfsState(1);
    NewRoot(fs.Space());
    ValidIsRight(fs.Space(), fs.cache[..], fs.gen, "/ab");
    AnswerIsRight(fs.Space(), fs.rank, fs.cache[..], fs.gen, "/ab");
    var status := fs.Open("/ab", true, false, Ok, 1, 2);
    OpenIsThere(fs.nodes, fs.files, 1);
    LongKey();
    SlashesSkipped(62, "ab");
    SlashesSkipped(62, "a");
    ShortNames();
    KeyOfAb();
    NotRemembered(fs.Space(), fs.cache[..], fs.gen, Slashes(62) + "a");
    assert forall i :: 0 <= i < CACHE_SIZE ==> fs.cache[i] == fs.cache[..][i];
    var n, m := fs.LookupMisled(Slashes(62) + "ab");
  }

  lemma KeyOfAb()
    ensures !KeyFits(Slashes(62) + "ab")
  {
    hide Parse, Key, Slashes;
    LongKey();
    SlashesSkipped(62, "ab");
    SlashesSkipped(62, "a");
    ShortNames();
  }

  /** Looking those 63 characters up finds the file. */
  method MisledByAPrefix() returns (fs: VfsState, m: Id)
    ensures fresh(fs) && m != 0 && Walk(fs.Space(), Parse(Slashes(62) + "a")) == None
  {
    hide Walk, Parse, Forest, Counted, CacheOk, CacheLive, Slashes, Answer;
    fs := Spoil();
    m := fs.Lookup(Slashes(62) + "a");
  }

  /** Opening them opens it. */
  method OpenMisled() returns (fs: VfsState, status: Status)
    ensures fresh(fs) && fs.Tidy() && status == Ok && 7 in fs.files && fs.files[7] == 2
    ensures Walk(fs.Space(), ["ab"]) == Some(2) && Walk(fs.Space(), Parse(Slashes(62) + "a")) == None
  {
    hide Walk, Parse, Forest, Counted, CacheOk, CacheLive, Slashes, Answer, AnswersRight, KeyFits;
    fs := Spoil();
    status := fs.Open(Slashes(62) + "a", false, false, Ok, 7, 3);
  }

  /** Unlinking them removes it. */
  method UnlinkMisled() returns (fs: VfsState, status: Status)
    ensures fresh(fs) && fs.Valid() && status == Ok
    ensures Walk(fs.Space(), ["ab"]) == None && 2 in fs.nodes && fs.nodes[2].unlinked
  {
    hide Walk, Parse, Forest, Counted, CacheOk, CacheLive, Slashes, Answer, AnswersRight, KeyFits;
    fs := Spoil();
    RootThere(fs.Space(), fs.rank);
    ghost var n, at, was, rank := 0, [], fs.Space(), fs.rank;
    status, n, at := fs.Unlink(Slashes(62) + "a");
    SamePath(was, rank, at, ["ab"], 2);
    assert 1 in OpenOn(fs.files, 2);
  }

  /** A tree of nothing but its root. */
  function BareTree(r: Id): map<Id, Node> { map[r := NewNode("/", true)] }

  lemma BareTreeOk(r: Id)
    requires r != 0
    ensures NewTree(BareTree(r), map[r := 0], r)
  {
    assert LinksAt(BareTree(r), r);
  }

  /** A directory "ab" with a mount. */
  method MountOnce() returns (fs: VfsState)
    ensures fresh(fs) && fresh(fs.cache) && fs.Valid() && Parse("/ab") == ["ab"] && Walk(fs.Space(), ["ab"]) == Some(3)
    ensures fs.nodes.Keys == {1, 2, 3} && fs.nodes[3] == NewNode("/", true) && fs.mounts == [Mount(2, 3)]
  {
    hide Walk, Parse, Forest, Counted, CacheOk, CacheLive, IsParent, Answer, AnswersRight, KeyFits, NewTree, Reached;
    fs := new VfsState(1);
    NewRoot(fs.Space());
    var made := fs.Mkdir("/ab", 2);
    BareTreeOk(3);
    ValidAnswer(fs.Space(), fs.rank, fs.cache[..], fs.gen, "/ab");
    var status;
    ghost var at, to;
    status, at, to := fs.MountFs("/ab", Ok, BareTree(3), 3, map[3 := 0]);
  }

  /**
   Three mounts on the directory "ab". The second is not refused, and no path
   ever leads into its tree; only the third is.
   */
  method MountThrice() returns (fs: VfsState, second: Status, third: Status)
    ensures fresh(fs) && fs.Tidy() && second == Ok && third == Busy
    ensures Walk(fs.Space(), ["ab"]) == Some(3) && Mount(3, 4) in fs.mounts && !Reached(fs.Space(), 4)
  {
    hide Walk, Parse, Forest, Counted, CacheOk, CacheLive, Answer, AnswersRight, KeyFits, NewTree, Reached;
    fs := MountOnce();
    BareTreeOk(4);
    BareTreeOk(5);
    ghost var at, to;
    ValidAnswer(fs.Space(), fs.rank, fs.cache[..], fs.gen, "/ab");
    assert [Mount(2, 3)][1..] == [];
    second, at, to := fs.MountFs("/ab", Ok, BareTree(4), 4, map[4 := 0]);
    assert fs.mounts == [Mount(3, 4), Mount(2, 3)];
    ValidAnswer(fs.Space(), fs.rank, fs.cache[..], fs.gen, "/ab");
    third, at, to := fs.MountFs("/ab", Ok, BareTree(5), 5, map[5 := 0]);
  }

  lemma ValidAnswer(fs: Fs, rank: map<Id, nat>, slots: seq<Slot>, gen: nat, path: string)
    requires Forest(fs, rank) && CacheOk(fs, slots, gen) && Walk(fs, Parse(path)).Some?
    ensures Answer(fs, slots, gen, path) == Walk(fs, Parse(path)).value
  {
    hide Walk, Parse, Forest, CacheOk, Answer, AnswersRight;
    ValidIsRight(fs, slots, gen, path);
    AnswerIsRight(fs, rank, slots, gen, path);
  }

  lemma NewRoot(fs: Fs)
    requires fs.nodes == map[fs.root := NewNode("/", true)] && fs.root != 0
    ensures Parse("/ab") == ["ab"] && Walk(fs, ["ab"]) == None && Walk(fs, ["a"]) == None
    ensures Walk(fs, []) == Some(fs.root) && !NoParent(fs, ["ab"])
    ensures CanMake(fs, ["ab"]) && forall d, x :: IsParent(fs, ["ab"], d, x) ==> d == fs.root && !fs.nodes[d].ext2
  {
    ShortNames();
    assert "/ab"[1..] == "ab" && ["ab"][..0] == [] && ["a"][..0] == [];
    assert Walk(fs, ["ab"][..0]) == Some(fs.root) && Walk(fs, ["a"][..0]) == Some(fs.root);
    assert IsParent(fs, ["ab"], fs.root, "ab");
  }

  lemma NotRemembered(fs: Fs, slots: seq<Slot>, gen: nat, path: string)
    requires CacheOk(fs, slots, gen) && Walk(fs, Parse(path)) == None
    ensures forall i :: 0 <= i < |slots| ==> !(Live(slots[i], gen) && slots[i].path == path)
  {
    hide Walk, Parse;
  }

  method ListWithout(cs: seq<Id>, n: Id) returns (r: seq<Id>)
    ensures r == Without(cs, n)
  {
    hide Without;
    var i := 0;
    WithoutFrom(cs, n, 0);
    while i < |cs| && cs[i] != n
      invariant 0 <= i <= |cs| && Without(cs, n) == cs[..i] + Without(cs[i..], n)
    {
      WithoutFrom(cs, n, i);
      i := i + 1;
    }
    WithoutFrom(cs, n, i);
    r := if i < |cs| then cs[..i] + cs[i + 1..] else cs;
  }

  /** Leaving out the first occurrence, seen from position i on. */
  lemma WithoutFrom(cs: seq<Id>, n: Id, i: nat)
    requires i <= |cs|
    ensures i == 0 ==> Without(cs, n) == cs[..i] + Without(cs[i..], n)
    ensures i < |cs| && cs[i] != n ==> cs[..i] + Without(cs[i..], n) == cs[..i + 1] + Without(cs[i + 1..], n)
    ensures i < |cs| && cs[i] == n ==> Without(cs[i..], n) == cs[i + 1..]
    ensures i == |cs| ==> cs[..i] + Without(cs[i..], n) == cs
  {
    if i < |cs| {
      assert cs[i..][1..] == cs[i + 1..];
    }
    if i == 0 {
      assert cs[0..] == cs;
    }
  }

  lemma RestOfPath(path: string, j: nat)
    requires j <= |path| && (j < |path| ==> path[j] != '/')
    ensures Parse(path[j..]) == [] <==> j == |path|
  {
    if j == |path| {
      assert path[j..] == "";
    }
  }

  /** d is the directory in which the last component of q is looked up. */
  ghost predicate IsParent(fs: Fs, q: seq<Name>, d: Id, x: Name)
    requires q != []
  {
    && x == q[|q| - 1] && Walk(fs, q[..|q| - 1]) == Some(d) && d in fs.nodes && fs.nodes[d].dir
  }

  /** There is a place for the last component of q where files can be made. */
  ghost predicate CanMake(fs: Fs, q: seq<Name>) {
    q != [] && exists d, x :: IsParent(fs, q, d, x) && !fs.nodes[d].ext2
  }

  ghost predicate NoParent(fs: Fs, q: seq<Name>)
    requires q != []
  {
    forall d :: Walk(fs, q[..|q| - 1]) == Some(d) ==> d in fs.nodes && !fs.nodes[d].dir
  }

  /** A directory stays a directory when something is mounted on it, and nothing is mounted on a file. */
  lemma DirStep(fs: Fs, rank: map<Id, nat>, d: Id, x: Name)
    requires Forest(fs, rank) && Child(fs, d, x).Some?
    ensures Step(fs, d, x).Some? && Step(fs, d, x).value in fs.nodes && Child(fs, d, x).value in fs.nodes
    ensures fs.nodes[Step(fs, d, x).value].dir == fs.nodes[Child(fs, d, x).value].dir
    ensures !fs.nodes[Child(fs, d, x).value].dir ==> Step(fs, d, x) == Child(fs, d, x)
  {
    hide Links, Names, Acyclic, Child;
    StepFrom(fs, d, x, rank);
    MountAtSome(fs.mounts, Child(fs, d, x).value);
  }

  /** Where a component is missing or no directory, the last component has no place. */
  lemma BadStep(fs: Fs, rank: map<Id, nat>, q: seq<Name>, d: Id, x: Name, rest: seq<Name>)
    requires Forest(fs, rank) && Walk(fs, q) == Some(d) && rest != []
    requires Child(fs, d, x).Some? ==> Child(fs, d, x).value in fs.nodes && !fs.nodes[Child(fs, d, x).value].dir
    ensures NoParent(fs, q + [x] + rest)
  {
    hide Forest, Walk;
    var r0 := rest[..|rest| - 1];
    assert (q + [x] + rest)[..|q + [x] + rest| - 1] == q + [x] + r0;
    WalkStep(fs, q, x);
    if Child(fs, d, x).None? {
      WalkNone(fs, q + [x], r0);
    } else {
      DirStep(fs, rank, d, x);
      if r0 != [] {
        WalkStep(fs, q + [x], r0[0]);
        WalkNone(fs, q + [x] + [r0[0]], r0[1..]);
        assert q + [x] + r0 == q + [x] + [r0[0]] + r0[1..];
      } else {
        assert q + [x] + r0 == q + [x];
      }
    }
  }

  lemma RootThere(fs: Fs, rank: map<Id, nat>)
    requires Forest(fs, rank)
    ensures fs.root in fs.nodes && fs.root != 0 && fs.nodes[fs.root].dir && Walk(fs, []) == Some(fs.root)
    ensures 0 !in fs.nodes
  {
    hide Names, Acyclic;
    NoZero(fs.nodes);
  }

  lemma RootPath(fs: Fs)
    ensures Parse("/") == [] && Walk(fs, []) == Some(fs.root)
  {
    assert "/"[1..] == "";
  }

  /** What unlinking the node n, zero for none, reports. */
  function UnlinkStatus(fs: Fs, n: Id): Status {
    if n !in fs.nodes || n == fs.root then NotFound
    else if fs.nodes[n].ext2 then Unsupported
    else if fs.nodes[n].dir && fs.nodes[n].children != [] then Busy
    else if fs.nodes[n].parent == 0 then Invalid
    else Ok
  }

  /** What mounting on the node at, zero for none, reports. */
  function MountStatus(fs: Fs, at: Id, driver: Status): Status {
    if at !in fs.nodes || !fs.nodes[at].dir then NotFound
    else if MountAt(fs.mounts, at) != None then Busy
    else driver
  }

  /** The directory that the last component of q is to be found in. */
  function ParentOf(fs: Fs, q: seq<Name>): (r: Option<Id>)
    ensures r.Some? ==> q != [] && r.value in fs.nodes
  {
    if q == [] then None
    else match Walk(fs, AllButLast(q))
         case None => None
         case Some(d) => if d in fs.nodes && fs.nodes[d].dir then Some(d) else None
  }

  lemma ParentFound(fs: Fs, q: seq<Name>, d: Id, x: Name)
    requires if d != 0 then q != [] && IsParent(fs, q, d, x) else q == [] || NoParent(fs, q)
    ensures ParentOf(fs, q) == if d != 0 then Some(d) else None
  {
    hide Walk;
  }

  /**
   What renaming o to t reports: both must have a parent directory and o must
   be there, neither may be on ext2, t must be free, and a directory may not go
   below itself, going by parent pointers.
   */
  ghost function RenameStatus(fs: Fs, rank: map<Id, nat>, o: seq<Name>, t: seq<Name>): Status
    requires Forest(fs, rank)
  {
    var from, to := ParentOf(fs, o), ParentOf(fs, t);
    if from.None? || to.None? then NotFound
    else match Child(fs, from.value, o[|o| - 1])
         case None => NotFound
         case Some(n) =>
           if n !in fs.nodes then NotFound
           else if fs.nodes[n].ext2 || fs.nodes[to.value].ext2 then Unsupported
           else if Child(fs, to.value, t[|t| - 1]).Some? then Busy
           else if fs.nodes[n].dir && Under(fs.nodes, rank, to.value, n) then Invalid
           else Ok
  }

  /** What opening reports when the lookup found n, zero for none; `done` is what is left to report once the file is there. */
  ghost function OpenStatus(fs: Fs, n: Id, q: seq<Name>, create: bool, done: Status): Status {
    if n != 0 then if n in fs.nodes && fs.nodes[n].dir then Invalid else done
    else if !create || q == [] || NoParent(fs, q) then NotFound
    else if CanMake(fs, q) then done
    else Unsupported
  }

  lemma FileHasNoMount(fs: Fs, rank: map<Id, nat>, n: Id)
    requires Forest(fs, rank)
    ensures n in fs.nodes && !fs.nodes[n].dir ==> MountAt(fs.mounts, n) == None
  {
    hide Names, Acyclic, Links;
    MountAtSome(fs.mounts, n);
  }

  lemma ReachedBy(fs: Fs, q: seq<Name>, n: Id)
    requires Walk(fs, q) == Some(n)
    ensures Reached(fs, n)
  {
    hide Walk;
  }

  lemma ReachedPath(fs: Fs, n: Id) returns (q: seq<Name>)
    requires Reached(fs, n)
    ensures Walk(fs, q) == Some(n)
  {
    hide Walk;
    q :| Walk(fs, q) == Some(n);
  }

  lemma ReachedNode(fs: Fs, rank: map<Id, nat>, n: Id)
    requires Forest(fs, rank) && Reached(fs, n)
    ensures n in fs.nodes
  {
    hide Walk, Forest;
    var q := ReachedPath(fs, n);
    WalkInside(fs, rank, q);
  }

  lemma StillLive(fs: Fs, slots: seq<Slot>, gen: nat, i: nat, path: string, n: Id)
    requires CacheLive(fs, slots, gen) && i < |slots| && Reached(fs, n)
    ensures CacheLive(fs, slots[i := Slot(path, n, gen)], gen)
  {
    hide Reached;
  }

  /** The lookup finds where the path leads exactly if the cache has no wrong answer for it. */
  lemma AnswerIsRight(fs: Fs, rank: map<Id, nat>, slots: seq<Slot>, gen: nat, path: string)
    requires Forest(fs, rank)
    ensures var n := Answer(fs, slots, gen, path);
            n != 0 ==> (Walk(fs, Parse(path)) == Some(n) <==> AnswersRight(fs, slots, gen, path))
    ensures Answer(fs, slots, gen, path) == 0 ==> AnswersRight(fs, slots, gen, path) && Walk(fs, Parse(path)).None?
  {
    hide Walk, Parse, Forest, Hit;
    RootThere(fs, rank);
    RootPath(fs);
    if Walk(fs, Parse(path)).Some? {
      WalkInside(fs, rank, Parse(path));
    }
  }

  lemma ValidIsRight(fs: Fs, slots: seq<Slot>, gen: nat, path: string)
    requires CacheOk(fs, slots, gen)
    ensures AnswersRight(fs, slots, gen, path)
  {
    hide Walk, Parse;
    HitIsRight(fs, slots, gen, path);
  }

  /** Since no node has two paths, another path leads to n exactly if it is the same one. */
  lemma SamePath(fs: Fs, rank: map<Id, nat>, p: seq<Name>, q: seq<Name>, n: Id)
    requires Forest(fs, rank) && Walk(fs, p) == Some(n)
    ensures p == q <==> Walk(fs, q) == Some(n)
  {
    hide Walk, Forest;
    if Walk(fs, q) == Some(n) {
      OnePath(fs, rank, p, q);
    }
  }

  lemma KeyIsShort(path: string)
    ensures |Key(path)| <= KEY_MAX
  {
  }

  /** Only paths that fit are ever found in the cache. */
  lemma {:induction false} HitFits(slots: seq<Slot>, gen: nat, path: string)
    requires forall i :: 0 <= i < |slots| ==> |slots[i].path| <= KEY_MAX
    requires Hit(slots, gen, path) != 0
    ensures KeyFits(path)
  {
    hide KeyFits;
    if Live(slots[0], gen) && slots[0].path == path {
      ShortKeyFits(path);
    } else {
      HitFits(slots[1..], gen, path);
    }
  }

  lemma LongMisses(slots: seq<Slot>, gen: nat, path: string)
    requires (forall i :: 0 <= i < |slots| ==> |slots[i].path| <= KEY_MAX) && !KeyFits(path)
    ensures Hit(slots, gen, path) == 0
  {
    hide KeyFits, Hit;
    if Hit(slots, gen, path) != 0 {
      HitFits(slots, gen, path);
    }
  }

  lemma LongKeyOnly(path: string)
    requires !KeyFits(path)
    ensures |Key(path)| == KEY_MAX && path != "/" && Key(path) != "/" && Key(path) != ""
  {
    hide Parse;
    if |path| <= KEY_MAX {
      ShortKeyFits(path);
    }
  }

  lemma HasParent(fs: Fs, q: seq<Name>, d: Id, x: Name)
    requires q != [] && IsParent(fs, q, d, x)
    ensures !NoParent(fs, q)
  {
    hide Walk;
  }

  /** What a path leads to is linked. */
  lemma ReachedDir(fs: Fs, rank: map<Id, nat>, q: seq<Name>, d: Id)
    requires Forest(fs, rank) && Walk(fs, q) == Some(d)
    ensures d in fs.nodes && !fs.nodes[d].unlinked && d != 0
  {
    hide Names, Acyclic, Links, Child;
    NoZero(fs.nodes);
    if q != [] {
      var e, x := Walk(fs, q[..|q| - 1]).value, q[|q| - 1];
      StepFrom(fs, e, x, rank);
      var c := Child(fs, e, x).value;
      LinkedChild(fs.nodes, c);
      MountAtSome(fs.mounts, c);
    }
  }

  lemma LinkedChild(nodes: map<Id, Node>, c: Id)
    requires Links(nodes) && c in nodes && nodes[c].parent != 0
    ensures !nodes[c].unlinked
  {
    assert LinksAt(nodes, c);
  }

  lemma CreatedNodes(fs: Fs, id: Id, d: Id, x: Name, dir: bool)
    requires d in fs.nodes && id !in fs.nodes && id != 0 && d != 0
    ensures var m := fs.nodes[id := NewNode(x, dir).(parent := d)];
            Created(fs, id, d, x, dir).nodes == m[d := m[d].(children := [id] + m[d].children)]
  {
  }

  lemma CreatedCounted(fs: Fs, rank: map<Id, nat>, files: map<Fd, Id>, id: Id, d: Id, x: Name, dir: bool, to: seq<Name>)
    requires Counted(fs.nodes, files) && CanCreate(fs, rank, id, d, x, to)
    ensures Counted(Created(fs, id, d, x, dir).nodes, files)
  {
    hide Walk, Forest, Child;
    ReachedDir(fs, rank, to, d);
    CreatedNodes(fs, id, d, x, dir);
    assert OpenOn(files, id) == {};
  }

  function Released(nodes: map<Id, Node>, n: Id): map<Id, Node>
    requires n in nodes
  {
    if nodes[n].refs == 0 then nodes
    else if nodes[n].refs == 1 then nodes - {n}
    else nodes[n := nodes[n].(refs := nodes[n].refs - 1)]
  }

  lemma NothingCached(fs: Fs, slots: seq<Slot>, gen: nat)
    requires forall i :: 0 <= i < |slots| ==> slots[i].path == ""
    ensures CacheOk(fs, slots, gen) && CacheLive(fs, slots, gen)
  {
    hide Walk, Parse, Reached;
  }

  /** A node with a parent that a path leads to is found as that parent's child, and nothing is mounted on it. */
  lemma FoundChild(fs: Fs, rank: map<Id, nat>, q: seq<Name>, n: Id)
    requires Forest(fs, rank) && Walk(fs, q) == Some(n) && n in fs.nodes && fs.nodes[n].parent != 0
    ensures q != [] && q[|q| - 1] == fs.nodes[n].name && Walk(fs, q[..|q| - 1]) == Some(fs.nodes[n].parent)
    ensures forall m :: m in fs.mounts ==> m.at != n
  {
    hide Links, Names, Acyclic, Child;
    var e, x := Walk(fs, q[..|q| - 1]).value, q[|q| - 1];
    StepFrom(fs, e, x, rank);
    MountAtSome(fs.mounts, Child(fs, e, x).value);
  }

  lemma UnlinkedNodes(fs: Fs, rank: map<Id, nat>, n: Id, from: seq<Name>)
    requires Forest(fs, rank) && n in fs.nodes && fs.nodes[n].parent != 0
    requires !(fs.nodes[n].dir && fs.nodes[n].children != []) && Walk(fs, from) == Some(fs.nodes[n].parent)
    requires forall m :: m in fs.mounts ==> m.at != n
    ensures CanUnlink(fs, rank, n, from) && fs.nodes[n].parent in fs.nodes && fs.nodes[n].parent != n
    ensures var p := fs.nodes[n].parent;
            Unlinked(fs, n).nodes ==
            fs.nodes[p := fs.nodes[p].(children := Without(fs.nodes[p].children, n))][n := fs.nodes[n].(unlinked := true, parent := 0)]
  {
    hide Walk, Names, Without;
    assert LinksAt(fs.nodes, n);
  }

  /** After the release, everything is in order again, and the node is there exactly if it is still open. */
  lemma UnlinkDone(fs: Fs, rank: map<Id, nat>, n: Id, from: seq<Name>, files: map<Fd, Id>) returns (r: map<Id, nat>)
    requires CanUnlink(fs, rank, n, from) && fs.nodes[n].parent in fs.nodes && n in Unlinked(fs, n).nodes && Counted(fs.nodes, files)
    ensures var fs' := fs.(nodes := Released(Unlinked(fs, n).nodes, n));
            && Forest(fs', r) && Counted(fs'.nodes, files)
            && (forall q :: Walk(fs', q) == if from + [fs.nodes[n].name] <= q then None else Walk(fs, q))
            && (n in fs'.nodes <==> OpenOn(files, n) != {}) && (n in fs'.nodes ==> fs'.nodes[n].unlinked)
            && (forall k :: k in fs.nodes && k != n ==> k in fs'.nodes && fs'.nodes[k].refs == fs.nodes[k].refs)
  {
    hide Walk, Forest, Moved, Counted;
    UnlinkTheorem(fs, rank, n, from);
    var fs1 := Unlinked(fs, n);
    r :| Forest(fs1, r);
    UnlinkedKinds(fs, rank, n, from);
    ReleasedForest(fs1, r, n);
    UnlinkCounted(fs.nodes, fs1.nodes, n, files);
  }

  lemma UnlinkedKinds(fs: Fs, rank: map<Id, nat>, n: Id, from: seq<Name>)
    requires CanUnlink(fs, rank, n, from) && fs.nodes[n].parent in fs.nodes
    ensures var m := Unlinked(fs, n).nodes;
            && m.Keys == fs.nodes.Keys && m[n].unlinked && m[n].refs == fs.nodes[n].refs && !fs.nodes[n].unlinked
            && (forall k :: k in m ==> m[k].dir == fs.nodes[k].dir)
            && (forall k :: k in m && k != n ==> SameKind(m[k], fs.nodes[k]))
  {
    hide Walk, Forest, Moved;
    UnlinkPlaces(fs, rank, n, from);
    MovedFields(fs.nodes, n, 0, fs.nodes[n].name);
    assert !fs.nodes[n].unlinked by { hide *; LinkedInForest(fs, rank, n); }
  }

  lemma LinkedInForest(fs: Fs, rank: map<Id, nat>, n: Id)
    requires Forest(fs, rank) && n in fs.nodes && fs.nodes[n].parent != 0
    ensures !fs.nodes[n].unlinked
  {
    hide Names, Acyclic, Mounts;
    LinkedChild(fs.nodes, n);
  }

  lemma ReleasedQuiet(nodes: map<Id, Node>, n: Id)
    requires Links(nodes) && n in nodes && (nodes[n].refs == 1 ==> nodes[n].unlinked)
    ensures Quiet(nodes, Released(nodes, n))
  {
    hide LinksAt;
    NoZero(nodes);
    if nodes[n].unlinked {
      UnlinkedIsLoose(nodes, n);
    }
    hide Links;
  }

  lemma UnlinkedIsLoose(nodes: map<Id, Node>, n: Id)
    requires Links(nodes) && n in nodes && nodes[n].unlinked
    ensures Loose(nodes[n])
  {
    assert LinksAt(nodes, n);
  }

  /** Dropping a reference to an unlinked node is noticed by no path. */
  lemma ReleasedForest(fs: Fs, rank: map<Id, nat>, n: Id)
    requires Forest(fs, rank) && n in fs.nodes && (fs.nodes[n].refs == 1 ==> fs.nodes[n].unlinked)
    ensures Forest(fs.(nodes := Released(fs.nodes, n)), rank)
    ensures forall q :: Walk(fs.(nodes := Released(fs.nodes, n)), q) == Walk(fs, q)
  {
    hide Walk, Names, Acyclic, Links, Quiet;
    var nodes' := Released(fs.nodes, n);
    ReleasedQuiet(fs.nodes, n);
    KeysRanked(fs.nodes, rank);
    QuietForest(fs, rank, nodes', rank);
    hide Forest, Quiet, Released;
    forall q
      ensures Walk(fs.(nodes := nodes'), q) == Walk(fs, q)
    {
      QuietWalk(fs, rank, nodes', rank, q);
    }
  }

  lemma UnlinkCounted(nodes: map<Id, Node>, m: map<Id, Node>, n: Id, files: map<Fd, Id>)
    requires Counted(nodes, files) && n in nodes && m.Keys == nodes.Keys && m[n].unlinked && m[n].refs == nodes[n].refs && !nodes[n].unlinked
    requires (forall k :: k in m ==> m[k].dir == nodes[k].dir) && (forall k :: k in m && k != n ==> SameKind(m[k], nodes[k]))
    ensures Counted(Released(m, n), files) && (n in Released(m, n) <==> OpenOn(files, n) != {})
  {
    hide OpenOn;
    NobodyHas(files, n);
  }

  lemma NobodyHas(files: map<Fd, Id>, n: Id)
    ensures |OpenOn(files, n)| == 0 <==> OpenOn(files, n) == {}
    ensures OpenOn(files, n) == {} ==> forall f :: f in files ==> files[f] != n
  {
    assert forall f :: f in files && files[f] == n ==> f in OpenOn(files, n);
  }

  // ------------------------------------------------------------------- renaming

  function AllButLast(q: seq<Name>): seq<Name>
    requires q != []
  {
    q[..|q| - 1]
  }

  /** What renaming path o to path t does to all paths. */
  ghost predicate RenamedPaths(fs: Fs, fs': Fs, o: seq<Name>, t: seq<Name>)
    requires t != []
  {
    && (forall rest :: Walk(fs', o + rest) == None)
    && (forall q :: !(o <= q) && !(t <= q) ==> Walk(fs', q) == Walk(fs, q))
    && (!(o <= AllButLast(t)) <==> forall rest :: Walk(fs', t + rest) == Walk(fs, o + rest))
  }

  lemma ChildThere(fs: Fs, rank: map<Id, nat>, d: Id, x: Name)
    requires Forest(fs, rank) && Child(fs, d, x).Some?
    ensures var c := Child(fs, d, x).value; c in fs.nodes && c != 0 && fs.nodes[c].parent == d != 0 && fs.nodes[c].name == x && c != d
    ensures d in fs.nodes
  {
    hide Mounts, Child;
    var c := Child(fs, d, x).value;
    ChildIff(fs, d, x, c);
    ParentThere(fs.nodes, c);
  }

  /** Renaming path o, which leads to n, to path t, whose directory is `to`. */
  ghost predicate IsRename(fs: Fs, rank: map<Id, nat>, o: seq<Name>, t: seq<Name>, to: Id, n: Id) {
    && o != [] && t != [] && n in fs.nodes && o == AllButLast(o) + [fs.nodes[n].name]
    && VfsPaths.Rename(fs, rank, n, to, t[|t| - 1], AllButLast(o), AllButLast(t))
  }

  lemma RenameMoves(fs: Fs, rank: map<Id, nat>, o: seq<Name>, t: seq<Name>, to: Id, n: Id)
    requires IsRename(fs, rank, o, t, to, n)
    ensures CanMove(fs.nodes, n, to, t[|t| - 1]) && fs.nodes[n].parent != 0 && to != 0
  {
  }

  lemma RenameReady(fs: Fs, rank: map<Id, nat>, o: seq<Name>, t: seq<Name>, from: Id, to: Id, n: Id, below: bool)
    requires Forest(fs, rank) && o != [] && t != [] && from in fs.nodes && to in fs.nodes && fs.nodes[to].dir
    requires Walk(fs, AllButLast(o)) == Some(from) && Walk(fs, AllButLast(t)) == Some(to)
    requires Child(fs, from, o[|o| - 1]) == Some(n) && Child(fs, to, t[|t| - 1]) == None && n in fs.nodes
    requires (below <==> Under(fs.nodes, rank, to, n)) && !(fs.nodes[n].dir && below)
    ensures IsRename(fs, rank, o, t, to, n) && fs.nodes[n].parent == from
  {
    hide Walk, Child, Mounts;
    ChildThere(fs, rank, from, o[|o| - 1]);
    NoneNamed(fs, to, t[|t| - 1]);
    ReachedDir(fs, rank, AllButLast(t), to);
    LinkedChild(fs.nodes, n);
    FilesHoldNothing(fs.nodes, rank, to, n);
  }

  /** Nothing is below a file. */
  lemma FilesHoldNothing(nodes: map<Id, Node>, rank: map<Id, nat>, k: Id, n: Id)
    requires Acyclic(nodes, rank) && Links(nodes) && k in nodes && n in nodes && nodes[k].dir
    ensures !nodes[n].dir ==> !Under(nodes, rank, k, n)
  {
    assert LinksAt(nodes, n);
    if !nodes[n].dir {
      NotUnder(nodes, rank, k, n);
    }
  }

  lemma MovedNodes(nodes: map<Id, Node>, n: Id, d: Id, x: Name)
    requires CanMove(nodes, n, d, x) && nodes[n].parent != 0 && d != 0
    ensures var p := nodes[n].parent; var m := nodes[p := nodes[p].(children := Without(nodes[p].children, n))];
            Moved(nodes, n, d, x) == m[d := m[d].(children := [n] + m[d].children)][n := nodes[n].(parent := d, name := x)]
  {
    hide Links, Names, IsChild, Without;
  }

  lemma RenameDone(fs: Fs, rank: map<Id, nat>, o: seq<Name>, t: seq<Name>, to: Id, n: Id, files: map<Fd, Id>) returns (r: map<Id, nat>)
    requires IsRename(fs, rank, o, t, to, n) && Counted(fs.nodes, files) && CanMove(fs.nodes, n, to, t[|t| - 1])
    ensures var fs' := fs.(nodes := Moved(fs.nodes, n, to, t[|t| - 1]));
            && Forest(fs', r) && Counted(fs'.nodes, files) && RenamedPaths(fs, fs', o, t)
            && (NoMountUnder(fs, rank, n) ==> !(o <= AllButLast(t)))
  {
    hide Walk, Links, Names, Acyclic, Mounts, Moved, Under, Counted;
    var x := t[|t| - 1];
    assert t == AllButLast(t) + [x];
    RenameTheorem(fs, rank, n, to, x, AllButLast(o), AllButLast(t));
    MovedForest(fs, rank, n, to, x);
    MovedFields(fs.nodes, n, to, x);
    SameCounted(fs.nodes, Moved(fs.nodes, n, to, x), files);
    if NoMountUnder(fs, rank, n) {
      AncestorTestSuffices(fs, rank, n, to, x, AllButLast(o), AllButLast(t));
    }
    r := MovedRank(fs.nodes, rank, n, to);
  }

  lemma SameCounted(nodes: map<Id, Node>, nodes': map<Id, Node>, files: map<Fd, Id>)
    requires Counted(nodes, files) && nodes'.Keys == nodes.Keys && forall k :: k in nodes ==> SameKind(nodes'[k], nodes[k])
    ensures Counted(nodes', files)
  {
  }

  // ----------------------------------------------------- mounting and opening

  lemma MountDone(fs: Fs, rank: map<Id, nat>, at: Id, r: Id, sub: map<Id, Node>, ranks: map<Id, nat>, to: seq<Name>, files: map<Fd, Id>) returns (rr: map<Id, nat>)
    requires CanMount(fs, rank, at, r, sub, ranks) && Walk(fs, to) == Some(at) && Counted(fs.nodes, files)
    requires forall k :: k in sub ==> sub[k].refs == 1 && !sub[k].unlinked
    ensures var fs' := Mounted(fs, at, r, sub);
            && Forest(fs', rr) && Counted(fs'.nodes, files)
            && (Walk(fs', to) == Some(r) <==> !TopOfTree(fs, at))
            && (forall q :: TopOfTree(fs, at) || !(to <= q) ==> Walk(fs', q) == Walk(fs, q))
            && (TopOfTree(fs, at) ==> forall k :: k in sub ==> !Reached(fs', k))
  {
    hide Walk, Forest, NewTree, MountedRank, MountAt, Links, Names, Acyclic, TopOfTree, Reached;
    MountForest(fs, rank, at, r, sub, ranks);
    rr := MountedRank(fs, rank, sub, ranks) by { Ranked(fs, rank, sub, ranks, r); }
    MountTheorem(fs, rank, at, r, sub, ranks, to);
    forall q | TopOfTree(fs, at) || !(to <= q)
      ensures Walk(Mounted(fs, at, r, sub), q) == Walk(fs, q)
    {
      MountOtherPaths(fs, rank, at, r, sub, ranks, to, q);
    }
    if TopOfTree(fs, at) {
      NeverShown(fs, rank, Mounted(fs, at, r, sub), sub);
    }
    UnionCounted(fs.nodes, sub, files);
  }

  lemma NeverShown(fs: Fs, rank: map<Id, nat>, fs': Fs, sub: map<Id, Node>)
    requires Forest(fs, rank) && fs.nodes.Keys !! sub.Keys && forall q :: Walk(fs', q) == Walk(fs, q)
    ensures forall k :: k in sub ==> !Reached(fs', k)
  {
    hide Walk, Forest;
    forall q | Walk(fs, q).Some?
      ensures Walk(fs, q).value !in sub
    {
      WalkInside(fs, rank, q);
    }
  }

  lemma Ranked(fs: Fs, rank: map<Id, nat>, sub: map<Id, Node>, ranks: map<Id, nat>, r: Id)
    requires Forest(fs, rank) && NewTree(sub, ranks, r)
    ensures Acyclic(fs.nodes, rank) && Acyclic(sub, ranks)
  {
    hide Links, Names, Acyclic, Mounts;
  }

  lemma UnionCounted(nodes: map<Id, Node>, sub: map<Id, Node>, files: map<Fd, Id>)
    requires Counted(nodes, files) && sub.Keys !! nodes.Keys && forall k :: k in sub ==> sub[k].refs == 1 && !sub[k].unlinked
    ensures Counted(nodes + sub, files)
  {
    forall k | k in sub
      ensures OpenOn(files, k) == {}
    {
    }
  }

  lemma SameCache(fs: Fs, fs': Fs, slots: seq<Slot>, gen: nat)
    requires forall q :: Walk(fs', q) == Walk(fs, q)
    ensures CacheOk(fs', slots, gen) <==> CacheOk(fs, slots, gen)
    ensures CacheLive(fs', slots, gen) <==> CacheLive(fs, slots, gen)
  {
    hide Walk, Parse;
  }

  lemma HeldForest(fs: Fs, rank: map<Id, nat>, n: Id)
    requires Forest(fs, rank) && n in fs.nodes
    ensures var fs' := fs.(nodes := fs.nodes[n := fs.nodes[n].(refs := fs.nodes[n].refs + 1)]);
            Forest(fs', rank) && forall q :: Walk(fs', q) == Walk(fs, q)
  {
    hide Walk, Names, Acyclic, Links;
    var nodes' := fs.nodes[n := fs.nodes[n].(refs := fs.nodes[n].refs + 1)];
    NoZero(fs.nodes);
    assert Quiet(fs.nodes, nodes');
    KeysRanked(fs.nodes, rank);
    QuietForest(fs, rank, nodes', rank);
    hide Forest, Quiet;
    forall q
      ensures Walk(fs.(nodes := nodes'), q) == Walk(fs, q)
    {
      QuietWalk(fs, rank, nodes', rank, q);
    }
  }

  lemma HeldCounted(nodes: map<Id, Node>, files: map<Fd, Id>, f: Fd, n: Id)
    requires Counted(nodes, files) && n in nodes && !nodes[n].dir && f !in files
    ensures Counted(nodes[n := nodes[n].(refs := nodes[n].refs + 1)], files[f := n])
  {
    hide OpenOn;
    forall k | k in nodes
      ensures |OpenOn(files[f := n], k)| == |OpenOn(files, k)| + (if k == n then 1 else 0)
    {
      OpenAdd(files, f, n, k);
    }
  }

  lemma DroppedCounted(nodes: map<Id, Node>, files: map<Fd, Id>, f: Fd)
    requires Counted(nodes, files) && f in files
    ensures files[f] in nodes && Counted(Released(nodes, files[f]), files - {f})
    ensures nodes[files[f]].refs == 1 ==> nodes[files[f]].unlinked
    ensures var n := files[f]; n in Released(nodes, n) <==> !nodes[n].unlinked || OpenOn(files - {f}, n) != {}
  {
    var n := files[f];
    forall k | k in nodes
      ensures |OpenOn(files, k)| == |OpenOn(files - {f}, k)| + (if k == n then 1 else 0)
    {
      OpenDrop(files, f, k);
    }
    forall g | g in files - {f}
      ensures (files - {f})[g] in Released(nodes, n)
    {
      assert g in OpenOn(files - {f}, files[g]);
    }
  }

  lemma SomeRefs(nodes: map<Id, Node>, files: map<Fd, Id>, n: Id)
    requires Counted(nodes, files) && n in nodes
    ensures nodes[n].refs > 0
  {
  }

  lemma OpenIsThere(nodes: map<Id, Node>, files: map<Fd, Id>, f: Fd)
    requires Counted(nodes, files) && f in files
    ensures files[f] in nodes && !nodes[files[f]].dir
  {
  }

  lemma NoChildThere(fs: Fs, d: Id, x: Name)
    requires Step(fs, d, x) == None
    ensures Child(fs, d, x) == None
  {
  }

  lemma CreatedFields(fs: Fs, id: Id, d: Id, x: Name, dir: bool)
    requires d in fs.nodes && id !in fs.nodes && id != 0 && d != 0
    ensures var m := Created(fs, id, d, x, dir).nodes;
            m.Keys == fs.nodes.Keys + {id} && m[id].dir == dir && m[id].children == [] && !m[id].ext2 && m[id].parent == d && forall k :: k in fs.nodes ==> k in m && m[k].refs == fs.nodes[k].refs
  {
    CreatedNodes(fs, id, d, x, dir);
  }

  lemma NewSpace(fs: Fs, rank: map<Id, nat>)
    requires fs.root != 0 && fs.nodes == map[fs.root := NewNode("/", true)] && fs.mounts == [] && rank == map[fs.root := 0]
    ensures Forest(fs, rank) && Counted(fs.nodes, map[])
  {
    assert LinksAt(fs.nodes, fs.root);
    assert OpenOn(map[], fs.root) == {};
  }
}
