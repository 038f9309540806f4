/** Paths as strings, and the cache from path strings to nodes. */
module VfsNames {
  import opened Common
  import opened VfsTree

  const NAME_MAX := 31   // characters of a component that count
  const KEY_MAX := 63    // characters of a path that the cache keeps

  // ------------------------------------------------------------------- components

  /** The part of a path up to the next slash. */
  function Component(p: string): (c: string)
    ensures |c| <= |p|
  {
    if p == "" || p[0] == '/' then "" else [p[0]] + Component(p[1..])
  }

  function Cut(c: string): Name { if |c| > NAME_MAX then c[..NAME_MAX] else c }

  /** The components of a path; empty ones do not count, long ones are cut. */
  function Parse(p: string): seq<Name>
    decreases |p|
  {
    if p == "" then []
    else if p[0] == '/' then Parse(p[1..])
    else [Cut(Component(p))] + Parse(p[|Component(p)|..])
  }

  lemma {:induction false} ComponentSplit(p: string, k: nat)
    requires k <= |p| && forall i :: 0 <= i < k ==> p[i] != '/'
    ensures Component(p) == p[..k] + Component(p[k..])
  {
    if k > 0 {
      ComponentSplit(p[1..], k - 1);
      assert p[1..][k - 1..] == p[k..];
      assert p[..k] == [p[0]] + p[1..][..k - 1];
    } else {
      assert p[0..] == p && p[..0] + Component(p) == Component(p);
    }
  }

  lemma SlashSkipped(path: string, i: nat)
    requires i < |path| && path[i] == '/'
    ensures Parse(path[i..]) == Parse(path[i + 1..])
  {
    assert path[i..][1..] == path[i + 1..];
  }

  lemma EmptyPath()
    ensures Parse("") == []
  {
  }

  /** Cuts the next component off a path from position i on. */
  method NextComponent(path: string, i: nat) returns (more: bool, comp: Name, next: nat)
    requires i <= |path|
    ensures i <= next <= |path| && |comp| <= NAME_MAX
    ensures !more ==> Parse(path[i..]) == []
    ensures more ==> next > i && Parse(path[i..]) == [comp] + Parse(path[next..])
  {
    hide Component, Cut, Parse;
    comp, next := "", i;
    while next < |path| && path[next] == '/'
      invariant i <= next <= |path| && Parse(path[i..]) == Parse(path[next..])
    {
      SlashSkipped(path, next);
      next := next + 1;
    }
    if next == |path| {
      assert path[next..] == "";
      EmptyPath();
      return false, comp, next;
    }
    ghost var start := next;
    while next < |path| && path[next] != '/' && |comp| + 1 < 32
      invariant start <= next <= |path| && comp == path[start..next] && |comp| <= NAME_MAX
      invariant forall k :: start <= k < next ==> path[k] != '/'
    {
      comp := comp + [path[next]];
      next := next + 1;
    }
    ghost var cut := next;
    while next < |path| && path[next] != '/'
      invariant cut <= next <= |path| && (cut < next ==> |comp| == NAME_MAX)
      invariant forall k :: start <= k < next ==> path[k] != '/'
    {
      next := next + 1;
    }
    Found(path, start, cut, next, comp);
    more := true;
  }

  lemma Found(path: string, start: nat, cut: nat, next: nat, comp: Name)
    requires start < |path| && path[start] != '/' && start <= cut <= next <= |path| && comp == path[start..cut]
    requires (next < |path| ==> path[next] == '/') && (forall k :: start <= k < next ==> path[k] != '/') && next > start
    requires |comp| <= NAME_MAX && (cut < next ==> |comp| == NAME_MAX)
    ensures Parse(path[start..]) == [comp] + Parse(path[next..])
  {
    var p := path[start..];
    ComponentSplit(p, next - start);
    assert p[next - start..] == path[next..] && p[..next - start] == path[start..next];
    assert Component(path[next..]) == "";
    assert Component(p) == path[start..next];
    assert Cut(Component(p)) == comp by {
      if cut < next {
        assert path[start..next][..NAME_MAX] == comp;
      }
    }
  }

  // ------------------------------------------------------------------------ cache

  datatype Slot = Slot(path: string, node: Id, gen: nat)

  predicate Live(s: Slot, gen: nat) { s.gen == gen && s.path != "" }

  /** Every live slot tells what the walk would find. */
  ghost predicate CacheOk(fs: Fs, slots: seq<Slot>, gen: nat) {
    forall i :: 0 <= i < |slots| && Live(slots[i], gen) ==> Walk(fs, Parse(slots[i].path)) == Some(slots[i].node)
  }

  /** Some path leads to n. */
  ghost predicate Reached(fs: Fs, n: Id) { exists q :: Walk(fs, q) == Some(n) }

  /** Every live slot names a node that some path leads to, be it another one. */
  ghost predicate CacheLive(fs: Fs, slots: seq<Slot>, gen: nat) {
    forall i :: 0 <= i < |slots| && Live(slots[i], gen) ==> Reached(fs, slots[i].node)
  }

  function Key(path: string): string { if |path| > KEY_MAX then path[..KEY_MAX] else path }

  /** What the cache keeps of a path still has the same components. */
  predicate KeyFits(path: string) { Parse(Key(path)) == Parse(path) }

  lemma ShortKeyFits(path: string)
    requires |path| <= KEY_MAX
    ensures KeyFits(path)
  {
  }

  /** Remembering what a path leads to keeps the cache right exactly if its key has the same components. */
  lemma RememberExactly(fs: Fs, rank: map<Id, nat>, slots: seq<Slot>, gen: nat, i: nat, path: string, n: Id)
    requires Forest(fs, rank) && CacheOk(fs, slots, gen) && i < |slots| && Walk(fs, Parse(path)) == Some(n)
    ensures CacheOk(fs, slots[i := Slot(Key(path), n, gen)], gen) <==> KeyFits(path)
  {
    hide Walk, Parse, Forest;
    var t := slots[i := Slot(Key(path), n, gen)];
    if CacheOk(fs, t, gen) && path != "" {
      assert Live(t[i], gen);
      OnePath(fs, rank, Parse(Key(path)), Parse(path));
    }
  }

  /** What the cache answers: the node of the first live slot with that path, zero if there is none. */
  function Hit(slots: seq<Slot>, gen: nat, path: string): Id {
    if slots == [] then 0
    else if Live(slots[0], gen) && slots[0].path == path then slots[0].node
    else Hit(slots[1..], gen, path)
  }

  lemma {:induction false} HitIsRight(fs: Fs, slots: seq<Slot>, gen: nat, path: string)
    requires CacheOk(fs, slots, gen)
    ensures Hit(slots, gen, path) != 0 ==> Walk(fs, Parse(path)) == Some(Hit(slots, gen, path))
  {
    hide Walk, Parse;
    if slots != [] {
      HitIsRight(fs, slots[1..], gen, path);
    }
  }

  lemma {:induction false} HitIsLive(fs: Fs, slots: seq<Slot>, gen: nat, path: string)
    requires CacheLive(fs, slots, gen)
    ensures Hit(slots, gen, path) != 0 ==> Reached(fs, Hit(slots, gen, path))
  {
    hide Reached;
    if slots != [] {
      HitIsLive(fs, slots[1..], gen, path);
    }
  }

  /** A path that no slot had is answered by the slot that is made to have it. */
  lemma {:induction false} HitInserted(slots: seq<Slot>, gen: nat, i: nat, path: string, n: Id)
    requires i < |slots| && path != "" && forall j :: 0 <= j < |slots| ==> !(Live(slots[j], gen) && slots[j].path == path)
    ensures Hit(slots[i := Slot(path, n, gen)], gen, path) == n
  {
    var t := slots[i := Slot(path, n, gen)];
    if i > 0 {
      assert t[1..] == slots[1..][i - 1 := Slot(path, n, gen)];
      HitInserted(slots[1..], gen, i - 1, path, n);
    }
  }

  /** What a lookup yields, whether or not the cache is right: its answer, else where the walk leads. */
  function Answer(fs: Fs, slots: seq<Slot>, gen: nat, path: string): Id {
    if path == "/" then fs.root
    else if Hit(slots, gen, path) != 0 then Hit(slots, gen, path)
    else match Walk(fs, Parse(path)) case None => 0 case Some(n) => n
  }

  /** The cache has no other answer for this path than where it leads. */
  predicate AnswersRight(fs: Fs, slots: seq<Slot>, gen: nat, path: string) {
    path == "/" || Hit(slots, gen, path) == 0 || Walk(fs, Parse(path)) == Some(Hit(slots, gen, path))
  }

  function Slashes(n: nat): (s: string)
    ensures |s| == n && forall i :: 0 <= i < n ==> s[i] == '/'
  {
    seq(n, _ => '/')
  }

  lemma {:induction false} SlashesSkipped(n: nat, p: string)
    ensures Parse(Slashes(n) + p) == Parse(p)
  {
    if n == 0 {
      assert Slashes(0) + p == p;
    } else {
      SlashesSkipped(n - 1, p);
      assert (Slashes(n) + p)[1..] == Slashes(n - 1) + p;
    }
  }

  /** A path one character too long for the key is remembered under a name that means something else. */
  lemma LongPathMisleads()
    ensures exists fs, rank, path, n :: Forest(fs, rank) && |path| == KEY_MAX + 1 &&
              Walk(fs, Parse(path)) == Some(n) && !KeyFits(path) && Walk(fs, Parse(Key(path))) == None
  {
    hide Parse, Slashes, Walk, Key, Forest;
    var fs, rank := OneFile(), map[1 := 0, 2 := 1];
    var path := Slashes(62) + "ab";
    OneFileForest();
    OneFileWalk();
    LongKey();
    SlashesSkipped(62, "ab");
    SlashesSkipped(62, "a");
    ShortNames();
  }

  /** A root with one file, "ab". */
  function OneFile(): Fs {
    Fs(map[1 := Node("/", true, false, 0, [2], 1, false), 2 := Node("ab", false, false, 1, [], 1, false)], 1, [])
  }

  lemma OneFileForest()
    ensures Forest(OneFile(), map[1 := 0, 2 := 1])
  {
    var nodes := OneFile().nodes;
    assert LinksAt(nodes, 1);
    assert LinksAt(nodes, 2);
    assert Links(nodes);
    assert Acyclic(nodes, map[1 := 0, 2 := 1]);
  }

  lemma OneFileWalk()
    ensures Walk(OneFile(), ["ab"]) == Some(2) && Walk(OneFile(), ["a"]) == None
  {
    hide Forest, Walk;
    var fs := OneFile();
    WalkStep(fs, [], "ab");
    WalkStep(fs, [], "a");
    assert [] + ["ab"] == ["ab"] && [] + ["a"] == ["a"];
    RootWalk(fs);
    OneFileChild("ab");
    OneFileChild("a");
  }

  lemma RootWalk(fs: Fs)
    ensures Walk(fs, []) == Some(fs.root)
  {
  }

  lemma OneFileChild(x: Name)
    ensures Step(OneFile(), 1, x) == if x == "ab" then Some(2) else None
  {
    var nodes := OneFile().nodes;
    assert nodes[1].children == [2] && nodes[2].name == "ab";
    assert FindIn(nodes, [2][1..], x) == None;
    assert FindIn(nodes, [2], x) == if nodes[2].name == x then Some(2) else None;
  }

  lemma LongKey()
    ensures Key(Slashes(62) + "ab") == Slashes(62) + "a" && |Slashes(62) + "ab"| == KEY_MAX + 1
  {
    hide Slashes;
  }

  lemma ShortNames()
    ensures Parse("ab") == ["ab"] && Parse("a") == ["a"]
  {
    assert Component("b") == "b";
    assert "ab"[1..] == "b" && "b"[1..] == "";
    assert Component("ab") == "ab" && Component("a") == "a";
    assert "ab"[2..] == "" && "a"[1..] == "";
  }
}
