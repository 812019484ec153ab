/** Walking a bucket's object tree back into keys, with an explicit stack. */
module Walk {
  import opened Types
  import opened Utf8
  import opened Paths
  import opened Order
  import opened Trees

  /** The walk goes from `dir` into its entry `name`. */
  predicate Follows(nodes: Tree, dir: StrPath, name: Str) {
    && IsDir(nodes, dir + [name])
    && IsUtf8(name) && name != META_FILE && !(RESERVED_PREFIX <= name)
    && DecodedComponent(name).Ok?
  }

  /** `p` is a directory reached from the root through names the walk follows. */
  predicate Walkable(nodes: Tree, p: StrPath)
    decreases |p|
  {
    p == [] || (Walkable(nodes, Parent(p)) && Follows(nodes, Parent(p), p[|p| - 1]))
  }

  predicate HasManifest(nodes: Tree, p: StrPath) {
    p + [META_FILE] in nodes
  }

  /** `p` is an object that the walk finds. */
  predicate Found(nodes: Tree, p: StrPath) {
    p != [] && Walkable(nodes, p) && HasManifest(nodes, p)
  }

  /** No name on disk is empty, `.`, `..`, or holds a slash. */
  ghost predicate DiskNames(nodes: Tree) {
    forall p :: p in nodes && p != [] ==> p[|p| - 1] != "" && p[|p| - 1] != "." && p[|p| - 1] != ".." && '/' !in p[|p| - 1]
  }

  /** Every component of a walked path was decoded on the way down, so the path decodes. */
  lemma {:induction false} WalkableDecodes(nodes: Tree, p: StrPath)
    requires DiskNames(nodes) && Walkable(nodes, p)
    ensures DecodedAll(p).Ok? && PathKey(p).Ok?
    decreases |p|
  {
    hide DecodedComponent, IsUtf8;
    if p != [] {
      WalkableDecodes(nodes, Parent(p));
      assert Parent(p) + [p[|p| - 1]] == p;
    }
  }

  lemma {:induction false} WalkableIsDir(nodes: Tree, p: StrPath, j: nat)
    requires Walkable(nodes, p) && j <= |p|
    ensures Walkable(nodes, p[..j])
    ensures j < |p| ==> Follows(nodes, p[..j], p[j])
    decreases |p|
  {
    if j == |p| {
      assert p[..j] == p;
    } else if j == |p| - 1 {
      assert p[..j] == Parent(p);
    } else {
      WalkableIsDir(nodes, Parent(p), j);
      assert Parent(p)[..j] == p[..j];
    }
  }

  // ----- one directory -----

  predicate Distinct<T(==)>(s: seq<T>) {
    forall i, j :: 0 <= i < j < |s| ==> s[i] != s[j]
  }

  function DecodedName(name: Str): Str {
    var r := DecodedComponent(name);
    if r.Ok? then r.value else ""
  }

  lemma DistinctIsMultiset<T>(a: seq<T>, b: seq<T>)
    requires Distinct(a) && multiset(a) == multiset(b)
    ensures Distinct(b) && forall x :: x in a <==> x in b
  {
    forall x ensures x in a <==> x in b {
      assert x in a <==> x in multiset(a);
      assert x in b <==> x in multiset(b);
    }
    forall i, j | 0 <= i < j < |b| ensures b[i] != b[j] {
      if b[i] == b[j] {
        OnceOnly(a, b[i]);
        Twice(b, i, j);
      }
    }
  }

  lemma {:induction false} OnceOnly<T>(a: seq<T>, x: T)
    requires Distinct(a)
    ensures multiset(a)[x] <= 1
  {
    if a != [] {
      var init := a[..|a| - 1];
      OnceOnly(init, x);
      assert a == init + [a[|a| - 1]];
      if a[|a| - 1] == x {
        assert x !in init;
      }
    }
  }

  lemma Twice<T>(b: seq<T>, i: nat, j: nat)
    requires i < j < |b| && b[i] == b[j]
    ensures multiset(b)[b[i]] >= 2
  {
    assert b == b[..i] + [b[i]] + b[i + 1..j] + [b[j]] + b[j + 1..];
  }

  lemma EntryNames(nodes: Tree, dir: StrPath)
    ensures var entries := set p | p in nodes && ChildOf(p, dir) :: p[|dir|];
            forall n :: n in entries <==> dir + [n] in nodes
  {
    var entries := set p | p in nodes && ChildOf(p, dir) :: p[|dir|];
    forall n: Str ensures n in entries <==> dir + [n] in nodes {
      if n in entries {
        var p :| p in nodes && ChildOf(p, dir) && p[|dir|] == n;
        assert p == dir + [n];
      }
      if dir + [n] in nodes {
        assert ChildOf(dir + [n], dir) && (dir + [n])[|dir|] == n;
      }
    }
  }

  /** Of the entries `seen` of `dir`, `found` are the ones to go into. */
  ghost predicate Read(nodes: Tree, dir: StrPath, seen: set<Str>, found: seq<Str>) {
    Distinct(found) && forall n :: n in found <==> n in seen && Follows(nodes, dir, n)
  }

  lemma ReadNext(nodes: Tree, dir: StrPath, seen: set<Str>, found: seq<Str>, name: Str)
    requires Read(nodes, dir, seen, found) && name !in seen
    ensures Read(nodes, dir, seen + {name}, if Follows(nodes, dir, name) then found + [name] else found)
  {
    hide Follows;
  }

  lemma ReadAll(nodes: Tree, dir: StrPath, seen: set<Str>, found: seq<Str>, children: seq<Str>)
    requires Read(nodes, dir, seen, found) && multiset(children) == multiset(found)
    requires forall n :: n in seen <==> dir + [n] in nodes
    ensures Distinct(children) && forall n :: n in children <==> Follows(nodes, dir, n)
  {
    hide DecodedComponent, IsUtf8;
    DistinctIsMultiset(found, children);
  }

  /** Read one directory: whether it holds a manifest, and the names to go into, ordered by what they decode to. */
  method ReadObjectDir(nodes: Tree, dir: StrPath) returns (hasManifest: bool, children: seq<Str>)
    ensures hasManifest <==> HasManifest(nodes, dir)
    ensures Distinct(children) && SortedBy(children, DecodedName)
    ensures forall n :: n in children <==> Follows(nodes, dir, n)
  {
    hide DecodedComponent, DecodedName, IsUtf8, Less, SortedBy, Distinct;
    hasManifest := false;
    var found: seq<Str> := [];
    var entries := set p | p in nodes && ChildOf(p, dir) :: p[|dir|];
    ghost var seen: set<Str> := {};
    EntryNames(nodes, dir);
    NothingRead(nodes, dir);
    hide ChildOf, Read;
    while entries != {}
      invariant forall n :: n in entries + seen <==> dir + [n] in nodes
      invariant entries !! seen
      invariant hasManifest <==> META_FILE in seen
      invariant Read(nodes, dir, seen, found)
      decreases |entries|
    {
      var name :| name in entries;
      assert dir + [name] in nodes;
      ReadNext(nodes, dir, seen, found, name);
      entries := entries - {name};
      seen := seen + {name};
      if name == META_FILE {
        hasManifest := true;
      } else if IsUtf8(name) && !(RESERVED_PREFIX <= name) && DecodedComponent(name).Ok? && nodes[dir + [name]].Dir? {
        found := found + [name];
      }
    }
    children := Sort(found, DecodedName);
    ReadAll(nodes, dir, seen, found, children);
  }

  lemma NothingRead(nodes: Tree, dir: StrPath)
    ensures Read(nodes, dir, {}, [])
  {
  }

  // ----- the whole tree -----

  /**
   The state of the walk: `done` is behind it, everything under a path on the stack is ahead
   of it, and no path is both or ahead twice.
   */
  ghost predicate Frontier(nodes: Tree, done: set<StrPath>, stack: seq<StrPath>) {
    && (forall i :: 0 <= i < |stack| ==> Walkable(nodes, stack[i]))
    && (forall p :: p in done ==> Walkable(nodes, p))
    && (forall p :: Walkable(nodes, p) && p !in done ==> Ahead(stack, p))
    && (forall p, i :: p in done && 0 <= i < |stack| ==> !(stack[i] <= p))
    && Scattered(stack)
  }

  ghost predicate Ahead(stack: seq<StrPath>, p: StrPath) {
    exists i :: 0 <= i < |stack| && stack[i] <= p
  }

  function ChildPaths(dir: StrPath, names: seq<Str>): (paths: seq<StrPath>)
    ensures |paths| == |names| && forall i :: 0 <= i < |paths| ==> paths[i] == dir + [names[|names| - 1 - i]]
  {
    if names == [] then [] else ChildPaths(dir, names[1..]) + [dir + [names[0]]]
  }

  /** Going into a directory's children keeps everything below it ahead. */
  lemma StillAhead(nodes: Tree, rest: seq<StrPath>, top: StrPath, names: seq<Str>, p: StrPath)
    requires Walkable(nodes, p) && p != top && Ahead(rest + [top], p)
    requires forall n :: n in names <==> Follows(nodes, top, n)
    ensures Ahead(rest + ChildPaths(top, names), p)
  {
    hide Follows, Walkable;
    var stack, stack' := rest + [top], rest + ChildPaths(top, names);
    var i :| 0 <= i < |stack| && stack[i] <= p;
    if i < |rest| {
      assert stack'[i] <= p;
    } else {
      WalkableIsDir(nodes, p, |top|);
      assert p[..|top|] == top;
      var n := p[|top|];
      assert n in names;
      var j :| 0 <= j < |names| && names[j] == n;
      var at := |rest| + |names| - 1 - j;
      assert stack'[at] == top + [n] && top + [n] <= p;
    }
  }

  predicate Apart(a: StrPath, b: StrPath) {
    !(a <= b) && !(b <= a)
  }

  lemma ChildApart(a: StrPath, top: StrPath, n: Str)
    requires Apart(a, top)
    ensures Apart(a, top + [n])
  {
    PrefixOfChild(a, top, n);
  }

  lemma PrefixOfChild(a: StrPath, top: StrPath, n: Str)
    ensures a <= top + [n] ==> a <= top || top <= a
    ensures top + [n] <= a ==> top <= a
  {
    var c := top + [n];
    assert c[..|top|] == top;
    if a <= c && |a| <= |top| {
      assert a == c[..|a|] == top[..|a|];
    }
    if c <= a {
      assert top == c[..|top|] == a[..|top|];
    }
  }

  lemma SiblingsApart(top: StrPath, n: Str, m: Str)
    requires n != m
    ensures Apart(top + [n], top + [m])
  {
    assert (top + [n])[|top|] == n && (top + [m])[|top|] == m;
  }

  ghost predicate Scattered(stack: seq<StrPath>) {
    forall i, j :: 0 <= i < j < |stack| ==> Apart(stack[i], stack[j])
  }

  lemma PairApart(rest: seq<StrPath>, top: StrPath, names: seq<Str>, i: nat, j: nat)
    requires Distinct(names) && Scattered(rest + [top]) && i < j < |rest| + |names|
    ensures var stack := rest + ChildPaths(top, names); Apart(stack[i], stack[j])
  {
    hide Apart, ChildPaths, Distinct, Scattered;
    var prior, stack, n := rest + [top], rest + ChildPaths(top, names), |rest|;
    if j < n {
      assert stack[i] == prior[i] && stack[j] == prior[j];
      ApartAt(prior, i, j);
    } else {
      var y := |names| - 1 - (j - n);
      assert stack[j] == top + [names[y]];
      if i < n {
        assert stack[i] == prior[i] && prior[n] == top;
        ApartAt(prior, i, n);
        ChildApart(stack[i], top, names[y]);
      } else {
        var x := |names| - 1 - (i - n);
        assert stack[i] == top + [names[x]];
        assert names[y] != names[x] by { DistinctAt(names, y, x); }
        SiblingsApart(top, names[x], names[y]);
      }
    }
  }

  lemma ApartAt(stack: seq<StrPath>, i: nat, j: nat)
    requires Scattered(stack) && i < j < |stack|
    ensures Apart(stack[i], stack[j])
  {
  }

  lemma DistinctAt(names: seq<Str>, i: nat, j: nat)
    requires Distinct(names) && i < j < |names|
    ensures names[i] != names[j]
  {
  }

  lemma ChildrenScattered(rest: seq<StrPath>, top: StrPath, names: seq<Str>)
    requires Distinct(names) && Scattered(rest + [top])
    ensures Scattered(rest + ChildPaths(top, names))
  {
    hide Apart, ChildPaths, Distinct;
    var stack := rest + ChildPaths(top, names);
    forall i, j | 0 <= i < j < |stack| ensures Apart(stack[i], stack[j]) {
      hide Scattered;
      PairApart(rest, top, names, i, j);
    }
  }

  lemma FrontierStep(nodes: Tree, done: set<StrPath>, rest: seq<StrPath>, top: StrPath, names: seq<Str>)
    requires Frontier(nodes, done, rest + [top])
    requires Distinct(names) && forall n :: n in names <==> Follows(nodes, top, n)
    ensures Frontier(nodes, done + {top}, rest + ChildPaths(top, names))
    ensures top !in done && Walkable(nodes, top)
  {
    var prior, stack := rest + [top], rest + ChildPaths(top, names);
    assert prior[|rest|] == top;
    forall i | 0 <= i < |stack| ensures Walkable(nodes, stack[i]) {
      if i < |rest| {
        assert prior[i] == stack[i];
      } else {
        assert Parent(stack[i]) == top && Follows(nodes, top, stack[i][|top|]);
      }
    }
    forall p | Walkable(nodes, p) && p !in done + {top} ensures Ahead(stack, p) {
      StillAhead(nodes, rest, top, names, p);
    }
    forall p, i | p in done + {top} && 0 <= i < |stack| ensures !(stack[i] <= p) {
      if i < |rest| {
        assert prior[i] == stack[i] && (p in done ==> !(prior[i] <= p)) && Apart(prior[i], prior[|rest|]);
      } else {
        assert top <= stack[i] && (p in done ==> !(prior[|rest|] <= p));
      }
    }
    ChildrenScattered(rest, top, names);
  }

  /** `keys` are the decoded `paths`, one for one. */
  predicate Decodes(keys: seq<Str>, paths: seq<StrPath>) {
    |keys| == |paths| && forall i :: 0 <= i < |keys| ==> PathKey(paths[i]) == Ok(keys[i])
  }

  ghost predicate Collected(nodes: Tree, done: set<StrPath>, paths: seq<StrPath>) {
    Distinct(paths) && forall p :: p in paths <==> p in done && Found(nodes, p)
  }

  /**
   Every key of the tree, ascending: one for each object found, whatever else the tree holds.
   `paths` lists those objects, each once, in the order they were walked.
   */
  method SortedKeys(nodes: Tree) returns (keys: seq<Str>, ghost paths: seq<StrPath>)
    requires DiskNames(nodes)
    ensures SortedBy(keys, (k: Str) => k)
    ensures Distinct(paths) && forall p :: p in paths <==> Found(nodes, p)
    ensures exists raw :: Decodes(raw, paths) && multiset(raw) == multiset(keys)
  {
    hide Walkable, Follows, Found, DecodedAll, PathKey, DecodedComponent, Less, Frontier, Collected, Decodes,
      HasManifest, ChildPaths, Unwalked, SortedBy, Distinct;
    var raw: seq<Str> := [];
    paths := [];
    var stack: seq<StrPath> := [[]];
    ghost var done: set<StrPath> := {};
    FirstFrontier(nodes);
    NoneCollected(nodes);
    while stack != []
      invariant Frontier(nodes, done, stack)
      invariant done <= nodes.Keys + {[]}
      invariant Collected(nodes, done, paths) && Decodes(raw, paths)
      decreases |Unwalked(nodes, done)|
    {
      var top := stack[|stack| - 1];
      var rest := stack[..|stack| - 1];
      assert stack == rest + [top];
      var hasManifest, children := ReadObjectDir(nodes, top);
      WalkStep(nodes, done, rest, top, children, paths);
      if hasManifest && top != [] {
        WalkableDecodes(nodes, top);
        var key := RelPathToKey(top);
        match key {
          case Ok(k) =>
            DecodesAppend(raw, paths, k, top);
            raw := raw + [k];
            paths := paths + [top];
          case Err(_) =>
            assert false;
        }
      }
      done := done + {top};
      stack := rest + ChildPaths(top, children);
    }
    AllDone(nodes, done, paths);
    keys := Sort(raw, (k: Str) => k);
  }

  function Unwalked(nodes: Tree, done: set<StrPath>): set<StrPath> {
    nodes.Keys + {[]} - done
  }

  /** What walking one directory comes to. */
  lemma WalkStep(nodes: Tree, done: set<StrPath>, rest: seq<StrPath>, top: StrPath, names: seq<Str>, paths: seq<StrPath>)
    requires Frontier(nodes, done, rest + [top]) && done <= nodes.Keys + {[]} && Collected(nodes, done, paths)
    requires Distinct(names) && forall n :: n in names <==> Follows(nodes, top, n)
    ensures Walkable(nodes, top)
    ensures Frontier(nodes, done + {top}, rest + ChildPaths(top, names))
    ensures done + {top} <= nodes.Keys + {[]} && |Unwalked(nodes, done + {top})| < |Unwalked(nodes, done)|
    ensures Collected(nodes, done + {top}, if top != [] && HasManifest(nodes, top) then paths + [top] else paths)
  {
    hide Frontier, Collected, Walkable, Follows;
    FrontierStep(nodes, done, rest, top, names);
    WalkableInTree(nodes, top);
    Shrinks(nodes.Keys + {[]}, done, top);
    FoundOrNot(nodes, top);
    CollectNext(nodes, done, paths, top);
  }

  lemma DecodesAppend(raw: seq<Str>, paths: seq<StrPath>, k: Str, top: StrPath)
    requires Decodes(raw, paths) && PathKey(top) == Ok(k)
    ensures Decodes(raw + [k], paths + [top])
  {
    hide PathKey;
  }

  lemma NoneCollected(nodes: Tree)
    ensures Collected(nodes, {}, []) && Decodes([], [])
  {
  }

  lemma FirstFrontier(nodes: Tree)
    ensures Frontier(nodes, {}, [[]])
  {
    forall p: StrPath ensures Ahead([[]], p) {
      assert [[]][0] <= p;
    }
  }

  lemma WalkableInTree(nodes: Tree, p: StrPath)
    requires Walkable(nodes, p)
    ensures p in nodes.Keys + {[]}
  {
    if p != [] {
      assert Parent(p) + [p[|p| - 1]] == p;
    }
  }

  lemma FoundOrNot(nodes: Tree, p: StrPath)
    requires Walkable(nodes, p)
    ensures Found(nodes, p) <==> p != [] && HasManifest(nodes, p)
  {
  }

  lemma CollectNext(nodes: Tree, done: set<StrPath>, paths: seq<StrPath>, top: StrPath)
    requires Collected(nodes, done, paths) && top !in done
    ensures Collected(nodes, done + {top}, if Found(nodes, top) then paths + [top] else paths)
  {
    hide Found;
  }

  lemma Shrinks(all: set<StrPath>, done: set<StrPath>, top: StrPath)
    requires top in all && top !in done
    ensures |all - (done + {top})| < |all - done|
  {
    assert all - done == (all - (done + {top})) + {top};
  }

  lemma AllDone(nodes: Tree, done: set<StrPath>, paths: seq<StrPath>)
    requires Frontier(nodes, done, []) && Collected(nodes, done, paths)
    ensures Distinct(paths) && forall p :: p in paths <==> Found(nodes, p)
  {
    forall p: StrPath ensures p in paths <==> Found(nodes, p) {
      assert Walkable(nodes, p) ==> p in done || Ahead([], p);
    }
  }
}
