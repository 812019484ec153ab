/** The object tree as a flat map from keys to objects: what the tree of a map looks like, and how it changes. */
module FlatMap {
  import opened Types
  import opened Utf8
  import opened Paths
  import opened Trees

  datatype Obj = Obj(entry: VersionEntry, bytes: Bytes)

  type Objects = map<Str, Obj>

  function MetaPath(k: Str): StrPath { KeyPath(k) + [META_FILE] }

  function DataPath(k: Str): StrPath { KeyPath(k) + [DataName(NULL_VERSION_ID)] }

  predicate FileOf(p: StrPath, k: Str) {
    p == MetaPath(k) || p == DataPath(k)
  }

  /** `p` is on account of `k`: one of its files, or a directory on the way to them. */
  predicate OnAccountOf(p: StrPath, k: Str) {
    FileOf(p, k) || p <= KeyPath(k)
  }

  ghost predicate Needed(m: Objects, p: StrPath) {
    exists k :: k in m && OnAccountOf(p, k)
  }

  ghost predicate HasFiles(nodes: Tree, k: Str, o: Obj) {
    && Lookup(nodes, MetaPath(k)) == Some(Manifest([o.entry]))
    && Lookup(nodes, DataPath(k)) == Some(Data(o.bytes))
  }

  ghost predicate HasDirs(nodes: Tree, k: Str) {
    forall j :: 0 <= j <= |KeyPath(k)| ==> IsDir(nodes, KeyPath(k)[..j])
  }

  ghost predicate ValidObjects(m: Objects) {
    forall k :: k in m ==> IsUtf8(k) && m[k].entry.versionId == NULL_VERSION_ID && !m[k].entry.deleteMarker
  }

  /** The tree holds every object of `m`, the directories they need, and, besides `objects/` itself, nothing more. */
  ghost predicate Represents(nodes: Tree, m: Objects) {
    && ValidObjects(m)
    && (forall k :: k in m ==> HasFiles(nodes, k, m[k]) && HasDirs(nodes, k))
    && (forall p :: p in nodes && p != [] ==> Needed(m, p))
    && WellFormed(nodes)
  }

  lemma ReservedNames()
    ensures RESERVED_PREFIX <= META_FILE && RESERVED_PREFIX <= DataName(NULL_VERSION_ID) && DataName(NULL_VERSION_ID) != META_FILE
  {
    DataNameIsReserved(NULL_VERSION_ID);
  }

  /** Files of different keys are different, and none is a directory of any key. */
  lemma FilesApart(k: Str, l: Str, p: StrPath)
    requires IsUtf8(k) && IsUtf8(l) && FileOf(p, k)
    ensures k != l ==> !FileOf(p, l)
    ensures !(p <= KeyPath(l))
    ensures MetaPath(k) != DataPath(k)
  {
    ReservedNames();
    FilesAreApart(k, META_FILE, l, META_FILE);
    FilesAreApart(k, META_FILE, l, DataName(NULL_VERSION_ID));
    FilesAreApart(k, DataName(NULL_VERSION_ID), l, META_FILE);
    FilesAreApart(k, DataName(NULL_VERSION_ID), l, DataName(NULL_VERSION_ID));
    FilesAreApart(k, META_FILE, k, DataName(NULL_VERSION_ID));
  }

  /** In a representing tree, a key's manifest is there exactly when the key is in the map. */
  lemma OnlyItsOwn(nodes: Tree, m: Objects, k: Str)
    requires Represents(nodes, m) && IsUtf8(k)
    ensures k in m <==> MetaPath(k) in nodes
    ensures k in m <==> DataPath(k) in nodes
  {
    hide KeyPath, DataName, IsUtf8, WellFormed;
    if k in m {
      assert HasFiles(nodes, k, m[k]);
    }
    if k !in m && MetaPath(k) in nodes {
      var l :| l in m && OnAccountOf(MetaPath(k), l);
      FilesApart(k, l, MetaPath(k));
    }
    if k !in m && DataPath(k) in nodes {
      var l :| l in m && OnAccountOf(DataPath(k), l);
      FilesApart(k, l, DataPath(k));
    }
  }

  /** The bucket's emptiness test is exact. */
  lemma EmptyTreeEmptyMap(nodes: Tree, m: Objects)
    requires Represents(nodes, m)
    ensures EmptyDir(nodes, []) <==> m == map[]
  {
    if m != map[] {
      var k :| k in m;
      KeyRoundTrip(k);
      var p := KeyPath(k)[..1];
      assert IsDir(nodes, p) && ChildOf(p, []);
    } else {
      forall p | p in nodes ensures !ChildOf(p, []) {
      }
    }
  }

  // ----- put -----

  function WithFiles(nodes: Tree, k: Str, o: Obj): Tree {
    nodes[DataPath(k) := Data(o.bytes)][MetaPath(k) := Manifest([o.entry])]
  }

  /** A tree that represents `m` up to the directories on the way to `k`. */
  ghost predicate Nearly(nodes: Tree, m: Objects, k: Str, n: nat) {
    && n <= |KeyPath(k)|
    && ValidObjects(m) && IsUtf8(k)
    && (forall l :: l in m ==> HasFiles(nodes, l, m[l]) && HasDirs(nodes, l))
    && (forall p :: p in nodes && p != [] ==> Needed(m, p) || p <= KeyPath(k)[..n])
    && WellFormed(nodes)
  }

  /** Adding something where its parent is a directory, and where no file or other kind of thing was. */
  lemma AddKeepsWellFormed(nodes: Tree, p: StrPath, v: Node)
    requires WellFormed(nodes) && p != [] && IsDir(nodes, Parent(p))
    requires v.Dir? || !IsDir(nodes, p)
    ensures WellFormed(nodes[p := v])
  {
    var nodes' := nodes[p := v];
    forall q | q in nodes' ensures Housed(nodes', q) {
      assert q in nodes ==> Housed(nodes, q);
    }
  }

  lemma AddDirSpares(nodes: Tree, k: Str, n: nat, l: Str, o: Obj)
    requires IsUtf8(k) && IsUtf8(l) && n <= |KeyPath(k)| && HasFiles(nodes, l, o) && HasDirs(nodes, l)
    ensures var nodes' := nodes[KeyPath(k)[..n] := Dir]; HasFiles(nodes', l, o) && HasDirs(nodes', l)
  {
    hide KeyPath, DataName, IsUtf8;
    FilesApart(l, k, MetaPath(l));
    FilesApart(l, k, DataPath(l));
  }

  lemma AddDir(nodes: Tree, m: Objects, k: Str, n: nat)
    requires Nearly(nodes, m, k, n) && n < |KeyPath(k)| && IsDir(nodes, KeyPath(k)[..n])
    ensures Nearly(nodes[KeyPath(k)[..n + 1] := Dir], m, k, n + 1)
  {
    hide KeyPath, DataName, IsUtf8, WellFormed, HasFiles, HasDirs, Needed;
    var here := KeyPath(k)[..n + 1];
    var nodes' := nodes[here := Dir];
    assert Parent(here) == KeyPath(k)[..n];
    AddKeepsWellFormed(nodes, here, Dir);
    forall l | l in m ensures HasFiles(nodes', l, m[l]) && HasDirs(nodes', l) {
      AddDirSpares(nodes, k, n + 1, l, m[l]);
    }
    forall p | p in nodes' && p != [] ensures Needed(m, p) || p <= here {
      if p in nodes && !Needed(m, p) {
        assert p <= KeyPath(k)[..n] && KeyPath(k)[..n] <= here;
      }
    }
  }

  lemma OtherFiles(nodes: Tree, k: Str, o: Obj, l: Str, was: Obj)
    requires IsUtf8(k) && IsUtf8(l) && HasDirs(nodes, l)
    requires k != l ==> HasFiles(nodes, l, was)
    ensures HasFiles(WithFiles(nodes, k, o), l, if k == l then o else was) && HasDirs(WithFiles(nodes, k, o), l)
  {
    hide KeyPath, DataName, IsUtf8;
    FilesApart(k, l, MetaPath(k));
    FilesApart(k, l, DataPath(k));
    forall j | 0 <= j <= |KeyPath(l)| ensures IsDir(WithFiles(nodes, k, o), KeyPath(l)[..j]) {
      assert IsDir(nodes, KeyPath(l)[..j]) && KeyPath(l)[..j] <= KeyPath(l);
    }
  }

  /** A manifest's and a data file's places are never directories. */
  lemma FilesAreNoDirs(nodes: Tree, m: Objects, k: Str)
    requires Nearly(nodes, m, k, |KeyPath(k)|)
    ensures !IsDir(nodes, MetaPath(k)) && !IsDir(nodes, DataPath(k))
  {
    hide KeyPath, DataName, IsUtf8, WellFormed;
    forall p | FileOf(p, k) ensures !IsDir(nodes, p) {
      FilesApart(k, k, p);
      assert KeyPath(k)[..|KeyPath(k)|] == KeyPath(k);
      if p in nodes {
        var l :| l in m && OnAccountOf(p, l);
        FilesApart(k, l, p);
        assert HasFiles(nodes, l, m[l]);
      }
    }
  }

  lemma AddFiles(nodes: Tree, m: Objects, k: Str, o: Obj)
    requires Nearly(nodes, m, k, |KeyPath(k)|) && HasDirs(nodes, k)
    requires o.entry.versionId == NULL_VERSION_ID && !o.entry.deleteMarker
    ensures Represents(WithFiles(nodes, k, o), m[k := o])
  {
    hide KeyPath, DataName, IsUtf8, HasFiles, HasDirs, WellFormed;
    var nodes', m' := WithFiles(nodes, k, o), m[k := o];
    forall l | l in m' ensures HasFiles(nodes', l, m'[l]) && HasDirs(nodes', l) {
      OtherFiles(nodes, k, o, l, m'[l]);
    }
    AddFilesWellFormed(nodes, m, k, o);
    assert KeyPath(k)[..|KeyPath(k)|] == KeyPath(k);
    forall p | p in nodes' && p != [] ensures Needed(m', p) {
      if p in nodes && Needed(m, p) {
        var l :| l in m && OnAccountOf(p, l);
        assert l in m' && OnAccountOf(p, l);
      } else {
        assert k in m' && OnAccountOf(p, k);
      }
    }
  }

  lemma AddFilesWellFormed(nodes: Tree, m: Objects, k: Str, o: Obj)
    requires Nearly(nodes, m, k, |KeyPath(k)|) && HasDirs(nodes, k)
    ensures WellFormed(WithFiles(nodes, k, o))
  {
    FilesAreNoDirs(nodes, m, k);
    FilesApart(k, k, MetaPath(k));
    FilesApart(k, k, DataPath(k));
    hide KeyPath, DataName, IsUtf8, WellFormed;
    assert KeyPath(k)[..|KeyPath(k)|] == KeyPath(k) == Parent(DataPath(k)) == Parent(MetaPath(k));
    assert IsDir(nodes, KeyPath(k)[..|KeyPath(k)|]);
    AddKeepsWellFormed(nodes, DataPath(k), Data(o.bytes));
    AddKeepsWellFormed(nodes[DataPath(k) := Data(o.bytes)], MetaPath(k), Manifest([o.entry]));
  }

  // ----- delete -----

  /** Taking away what is not on account of `l` leaves `l` alone. */
  lemma RemovalSpares(nodes: Tree, gone: set<StrPath>, l: Str, o: Obj)
    requires HasFiles(nodes, l, o) && HasDirs(nodes, l)
    requires forall p :: p in gone ==> !OnAccountOf(p, l)
    ensures HasFiles(nodes - gone, l, o) && HasDirs(nodes - gone, l)
  {
    hide KeyPath, DataName;
    forall j | 0 <= j <= |KeyPath(l)| ensures IsDir(nodes - gone, KeyPath(l)[..j]) {
      assert IsDir(nodes, KeyPath(l)[..j]) && KeyPath(l)[..j] <= KeyPath(l);
    }
  }

  lemma DropFiles(nodes: Tree, m: Objects, k: Str)
    requires Represents(nodes, m) && IsUtf8(k)
    ensures Nearly(nodes - {MetaPath(k), DataPath(k)}, m - {k}, k, |KeyPath(k)|)
  {
    hide KeyPath, DataName, IsUtf8, HasFiles, HasDirs, WellFormed;
    var gone := {MetaPath(k), DataPath(k)};
    var nodes', m' := nodes - gone, m - {k};
    forall l | l in m' ensures HasFiles(nodes', l, m'[l]) && HasDirs(nodes', l) {
      FilesApart(k, l, MetaPath(k));
      FilesApart(k, l, DataPath(k));
      RemovalSpares(nodes, gone, l, m[l]);
    }
    assert KeyPath(k)[..|KeyPath(k)|] == KeyPath(k);
    forall p | p in nodes' && p != [] ensures Needed(m', p) || p <= KeyPath(k) {
      var l :| l in m && OnAccountOf(p, l);
      assert l != k ==> l in m' && OnAccountOf(p, l);
    }
    DropWellFormed(nodes, m, k);
  }

  lemma DropWellFormed(nodes: Tree, m: Objects, k: Str)
    requires Represents(nodes, m) && IsUtf8(k)
    ensures WellFormed(nodes - {MetaPath(k), DataPath(k)})
  {
    OnlyItsOwn(nodes, m, k);
    hide KeyPath, DataName, IsUtf8;
    var nodes' := nodes - {MetaPath(k), DataPath(k)};
    assert forall p :: FileOf(p, k) && p in nodes ==> !nodes[p].Dir? by {
      assert k in m ==> HasFiles(nodes, k, m[k]);
    }
    RemovalKeepsWellFormed(nodes, nodes', k);
  }

  lemma RemovalKeepsWellFormed(nodes: Tree, nodes': Tree, k: Str)
    requires WellFormed(nodes) && nodes' == nodes - {MetaPath(k), DataPath(k)}
    requires forall p :: FileOf(p, k) && p in nodes ==> !nodes[p].Dir?
    ensures WellFormed(nodes')
  {
    hide KeyPath, DataName;
    forall q | q in nodes' ensures Housed(nodes', q) {
      assert Housed(nodes, q);
    }
  }

  /** A directory that some object needs has something in it. */
  lemma NeededIsNotEmpty(nodes: Tree, m: Objects, k: Str, n: nat, l: Str)
    requires Nearly(nodes, m, k, n) && l in m && KeyPath(k)[..n] <= KeyPath(l)
    ensures !EmptyDir(nodes, KeyPath(k)[..n])
  {
    hide KeyPath, DataName, IsUtf8, WellFormed;
    var here := KeyPath(k)[..n];
    assert HasFiles(nodes, l, m[l]) && HasDirs(nodes, l);
    var child := if |KeyPath(l)| == n then MetaPath(l) else KeyPath(l)[..n + 1];
    if |KeyPath(l)| == n {
      assert here == KeyPath(l);
    } else {
      assert IsDir(nodes, KeyPath(l)[..n + 1]);
    }
    assert child in nodes && ChildOf(child, here);
  }

  lemma PrunedIsNotNeeded(nodes: Tree, m: Objects, k: Str, n: nat, l: Str)
    requires Nearly(nodes, m, k, n) && EmptyDir(nodes, KeyPath(k)[..n]) && l in m
    ensures !OnAccountOf(KeyPath(k)[..n], l)
  {
    hide KeyPath, DataName, IsUtf8, WellFormed, HasFiles, HasDirs, EmptyDir;
    var here := KeyPath(k)[..n];
    if here <= KeyPath(l) {
      NeededIsNotEmpty(nodes, m, k, n, l);
    }
    if FileOf(here, l) {
      FilesApart(l, k, here);
    }
  }

  lemma PruneOne(nodes: Tree, m: Objects, k: Str, n: nat)
    requires Nearly(nodes, m, k, n) && 0 < n && EmptyDir(nodes, KeyPath(k)[..n])
    ensures Nearly(nodes - {KeyPath(k)[..n]}, m, k, n - 1)
  {
    hide KeyPath, DataName, IsUtf8, HasFiles, HasDirs, OnAccountOf;
    var here := KeyPath(k)[..n];
    var nodes' := nodes - {here};
    forall l | l in m ensures HasFiles(nodes', l, m[l]) && HasDirs(nodes', l) {
      PrunedIsNotNeeded(nodes, m, k, n, l);
      RemovalSpares(nodes, {here}, l, m[l]);
    }
    forall p | p in nodes' && p != [] ensures Needed(m, p) || p <= KeyPath(k)[..n - 1] {
      if !Needed(m, p) {
        assert p <= here && p != here;
      }
    }
    forall p | p in nodes' ensures Housed(nodes', p) {
      assert Housed(nodes, p) && !ChildOf(p, here);
    }
  }

  /** A directory kept because something is in it is needed, and so are those above it. */
  lemma StopPruning(nodes: Tree, m: Objects, k: Str, n: nat)
    requires Nearly(nodes, m, k, n) && (n == 0 || !EmptyDir(nodes, KeyPath(k)[..n]))
    ensures Represents(nodes, m)
  {
    hide KeyPath, DataName, IsUtf8, WellFormed, HasFiles, HasDirs;
    var here := KeyPath(k)[..n];
    forall p | p in nodes && p != [] ensures Needed(m, p) {
      if n > 0 && p <= here {
        var c :| c in nodes && ChildOf(c, here);
        var l :| l in m && OnAccountOf(c, l);
        assert here <= KeyPath(l) by {
          if FileOf(c, l) { assert c[..n] == KeyPath(l); }
        }
        assert p == here[..|p|] == KeyPath(l)[..|p|];
        assert OnAccountOf(p, l);
      }
    }
  }
}
