/** One bucket of the engine, one request at a time: the directory tree behaves as a map from keys to objects. */
module ObjectTrees {
  import opened Types
  import opened Utf8
  import opened Paths
  import opened Trees
  import opened FlatMap
  import opened Order
  import Meta
  import Walk
  import Listing

  // ----- the walk of a representing tree -----

  predicate OrdinaryName(n: Str) {
    n != "" && n != "." && n != ".." && '/' !in n
  }

  /** A key's components are names the walk follows. */
  lemma KeyNames(k: Str, i: nat)
    requires IsUtf8(k) && i < |KeyPath(k)|
    ensures var n := KeyPath(k)[i];
            OrdinaryName(n) && IsUtf8(n) && !(RESERVED_PREFIX <= n) && n != META_FILE && DecodedComponent(n).Ok?
  {
    hide IsUtf8, EncodedComponent, DecodedComponent;
    KeyRoundTrip(k);
    SplitUtf8(k);
    assert Component(Split(k)[i]) && PlainName(KeyPath(k)[i]);
    ComponentRoundTrip(Split(k)[i]);
    ReservedNames();
  }

  lemma FileNames(n: Str)
    requires n == META_FILE || n == DataName(NULL_VERSION_ID)
    ensures OrdinaryName(n)
  {
    DataNameIsReserved(NULL_VERSION_ID);
    ReservedNames();
    assert |n| >= |RESERVED_PREFIX|;
  }

  lemma {:induction false} PrefixIsWalkable(nodes: Tree, k: Str, j: nat)
    requires HasDirs(nodes, k) && IsUtf8(k) && j <= |KeyPath(k)|
    ensures Walk.Walkable(nodes, KeyPath(k)[..j])
    decreases j
  {
    hide IsUtf8, KeyPath, DecodedComponent;
    if j > 0 {
      PrefixIsWalkable(nodes, k, j - 1);
      KeyNames(k, j - 1);
      var p := KeyPath(k)[..j];
      var name := KeyPath(k)[j - 1];
      assert Parent(p) == KeyPath(k)[..j - 1] && p[|p| - 1] == name && Parent(p) + [name] == p;
      assert IsDir(nodes, KeyPath(k)[..j]);
    }
  }

  /** In a representing tree the walk finds the directories of exactly the map's keys. */
  lemma FoundAreObjects(nodes: Tree, m: Objects, p: StrPath)
    requires Represents(nodes, m)
    ensures Walk.Found(nodes, p) <==> exists k :: k in m && p == KeyPath(k)
  {
    hide IsUtf8, Walk.Walkable, WellFormed;
    if k :| k in m && p == KeyPath(k) {
      assert HasFiles(nodes, k, m[k]) && HasDirs(nodes, k);
      PrefixIsWalkable(nodes, k, |p|);
      assert p[..|p|] == p;
      KeyRoundTrip(k);
    }
    if Walk.HasManifest(nodes, p) {
      ManifestIsSomeones(nodes, m, p);
    }
  }

  lemma ManifestIsSomeones(nodes: Tree, m: Objects, p: StrPath)
    requires Represents(nodes, m) && p + [META_FILE] in nodes
    ensures exists k :: k in m && p == KeyPath(k)
  {
    hide IsUtf8, WellFormed, KeyPath, DataName, HasFiles, HasDirs, DecodedComponent;
    var q := p + [META_FILE];
    assert Needed(m, q);
    var l :| l in m && OnAccountOf(q, l);
    assert q <= KeyPath(l) ==> KeyPath(l)[|p|] == META_FILE;
    if q <= KeyPath(l) {
      KeyNames(l, |p|);
      assert false;
    }
    ReservedNames();
    assert q[..|p|] == p && MetaPath(l)[..|KeyPath(l)|] == KeyPath(l);
    assert q[|q| - 1] == META_FILE && DataPath(l)[|DataPath(l)| - 1] == DataName(NULL_VERSION_ID);
  }

  lemma NamesOnDisk(nodes: Tree, m: Objects)
    requires Represents(nodes, m)
    ensures Walk.DiskNames(nodes)
  {
    hide IsUtf8, WellFormed, KeyPath, DataName, HasFiles, HasDirs, DecodedComponent;
    forall p | p in nodes && p != [] ensures OrdinaryName(p[|p| - 1]) {
      var l :| l in m && OnAccountOf(p, l);
      if p <= KeyPath(l) {
        KeyNames(l, |p| - 1);
      } else {
        FileNames(p[|p| - 1]);
      }
    }
  }

  /** The keys the walk returns are the map's, each once, ascending. */
  lemma KeysOfTheMap(nodes: Tree, m: Objects, keys: seq<Str>, paths: seq<StrPath>, raw: seq<Str>)
    requires Represents(nodes, m)
    requires SortedBy(keys, (k: Str) => k)
    requires Walk.Distinct(paths) && forall p :: p in paths <==> Walk.Found(nodes, p)
    requires Walk.Decodes(raw, paths) && multiset(raw) == multiset(keys)
    ensures Ascending(keys) && forall k :: k in keys <==> k in m
  {
    hide IsUtf8, WellFormed, KeyPath, PathKey, Walk.Found, Less;
    forall i | 0 <= i < |raw| ensures raw[i] in m && KeyPath(raw[i]) == paths[i] {
      assert paths[i] in paths;
      FoundAreObjects(nodes, m, paths[i]);
      var k :| k in m && paths[i] == KeyPath(k);
      KeyRoundTrip(k);
    }
    forall k | k in m ensures k in raw {
      FoundAreObjects(nodes, m, KeyPath(k));
      var i :| 0 <= i < |paths| && paths[i] == KeyPath(k);
      KeyRoundTrip(k);
      assert raw[i] == k;
    }
    assert Walk.Distinct(raw);
    Walk.DistinctIsMultiset(raw, keys);
    forall i, j | 0 <= i < j < |keys| ensures Less(keys[i], keys[j]) {
      var id := (k: Str) => k;
      assert AtMost(id(keys[i]), id(keys[j]));
    }
  }

  function Entries(m: Objects): map<Str, VersionEntry> {
    map k | k in m :: m[k].entry
  }

  class ObjectTree {
    var nodes: Tree
    ghost var objects: Objects

    ghost predicate Valid()
      reads this
    {
      Represents(nodes, objects)
    }

    /** A bucket that has never been written to has no `objects/`. */
    constructor ()
      ensures Valid() && objects == map[]
    {
      nodes := map[];
      objects := map[];
    }

    method LoadManifest(k: Str) returns (r: Option<seq<VersionEntry>>)
      requires Valid() && IsUtf8(k)
      ensures r == if k in objects then Some([objects[k].entry]) else None
    {
      OnlyItsOwn(nodes, objects, k);
      assert k in objects ==> HasFiles(nodes, k, objects[k]);
      var dir := KeyToRelPath(k);
      var p := dir + [META_FILE];
      r := if p in nodes && nodes[p].Manifest? then Some(nodes[p].history) else None;
    }

    method HeadObject(k: Str) returns (r: Option<VersionEntry>)
      requires Valid() && IsUtf8(k)
      ensures r == if k in objects then Some(objects[k].entry) else None
    {
      var found := LoadManifest(k);
      r := if found.Some? && found.value != [] && !found.value[0].deleteMarker then Some(found.value[0]) else None;
    }

    method GetObject(k: Str) returns (r: Option<Obj>)
      requires Valid() && IsUtf8(k)
      ensures r == if k in objects then Some(objects[k]) else None
    {
      var entry := HeadObject(k);
      if entry.None? {
        return None;
      }
      assert HasFiles(nodes, k, objects[k]);
      var dir := KeyToRelPath(k);
      var p := dir + [DataName(entry.value.versionId)];
      r := if p in nodes && nodes[p].Data? then Some(Obj(entry.value, nodes[p].bytes)) else None;
    }

    method PutObject(k: Str, entry: VersionEntry, bytes: Bytes)
      requires Valid() && IsUtf8(k)
      requires entry.versionId == NULL_VERSION_ID && !entry.deleteMarker
      modifies this
      ensures Valid() && objects == old(objects)[k := Obj(entry, bytes)]
    {
      var dir := KeyToRelPath(k);
      var found := LoadManifest(k);
      MakeDirs(k, dir);
      hide KeyPath, DataName, IsUtf8, Represents, Nearly, HasDirs, Meta.Upserted;
      AddFiles(nodes, objects, k, Obj(entry, bytes));
      nodes := nodes[dir + [DataName(NULL_VERSION_ID)] := Data(bytes)];
      var history := Meta.Upserted(if found.Some? then found.value else [], entry);
      Meta.UpsertReplaces(if found.Some? then found.value else [], entry);
      nodes := nodes[dir + [META_FILE] := Manifest(history)];
      objects := objects[k := Obj(entry, bytes)];
    }

    /** `create_dir_all` on the key's directory. */
    method MakeDirs(k: Str, dir: StrPath)
      requires Valid() && IsUtf8(k) && dir == KeyPath(k)
      modifies this`nodes
      ensures Nearly(nodes, objects, k, |dir|) && HasDirs(nodes, k)
    {
      hide KeyPath, DataName, IsUtf8, HasFiles, WellFormed;
      StartDirs(nodes, objects, k);
      nodes := nodes[[] := Dir];
      var n := 0;
      while n < |dir|
        invariant 0 <= n <= |dir|
        invariant Nearly(nodes, objects, k, n)
        invariant forall j :: 0 <= j <= n ==> IsDir(nodes, dir[..j])
      {
        AddDir(nodes, objects, k, n);
        nodes := nodes[dir[..n + 1] := Dir];
        n := n + 1;
      }
    }

    /** Remove the manifest, then the data, then whatever directories that leaves empty. */
    method DeleteObject(k: Str)
      requires Valid() && IsUtf8(k)
      modifies this
      ensures Valid() && objects == old(objects) - {k}
    {
      hide KeyPath, DataName, IsUtf8, HasFiles, HasDirs, WellFormed;
      var dir := KeyToRelPath(k);
      DropFiles(nodes, objects, k);
      FilesWere(nodes, objects, k);
      nodes := nodes - {dir + [META_FILE], dir + [DataName(NULL_VERSION_ID)]};
      objects := objects - {k};
      PruneEmptyDirs(k, dir);
    }

    method PruneEmptyDirs(k: Str, dir: StrPath)
      requires Nearly(nodes, objects, k, |dir|) && dir == KeyPath(k)
      requires dir in nodes || Represents(nodes, objects)
      modifies this`nodes
      ensures Valid()
    {
      hide KeyPath, DataName, IsUtf8, HasFiles, HasDirs, WellFormed, EmptyDir;
      var n := |dir|;
      assert dir[..n] == dir;
      while n > 0
        invariant 0 <= n <= |dir|
        invariant Nearly(nodes, objects, k, n)
        invariant dir[..n] in nodes || Represents(nodes, objects) || n == 0
      {
        if dir[..n] !in nodes {
          return;
        }
        if !EmptyDir(nodes, dir[..n]) {
          StopPruning(nodes, objects, k, n);
          return;
        }
        PruneOne(nodes, objects, k, n);
        ParentIsThere(nodes, dir[..n]);
        assert Parent(dir[..n]) == dir[..n - 1];
        nodes := nodes - {dir[..n]};
        n := n - 1;
      }
      StopPruning(nodes, objects, k, 0);
    }

    /** The test `delete_bucket` makes. */
    method HasAnyEntry() returns (b: bool)
      requires Valid()
      ensures b <==> objects != map[]
    {
      EmptyTreeEmptyMap(nodes, objects);
      b := !EmptyDir(nodes, []);
    }

    /** `page` is the page that the map's own keys, in order, give. */
    ghost predicate IsListing(p: Listing.Params, keys: seq<Str>, page: Listing.Page)
      reads this
    {
      && Ascending(keys) && (forall k :: k in keys <==> k in objects)
      && Listing.Answers(p, keys, Entries(objects), page)
    }

    method ListObjectsV2(p: Listing.Params) returns (page: Listing.Page)
      requires Valid()
      ensures p.maxKeys == 0 ==> page == Listing.Page([], [], false, None)
      ensures p.maxKeys > 0 ==> exists keys :: IsListing(p, keys, page)
    {
      NamesOnDisk(nodes, objects);
      hide Represents, IsUtf8, Listing.PageOf, Listing.Items, Listing.Answers, Walk.Found, Ascending, Walk.Distinct, Walk.Decodes, SortedBy;
      var keys, paths := Walk.SortedKeys(nodes);
      ghost var raw :| Walk.Decodes(raw, paths) && multiset(raw) == multiset(keys);
      KeysOfTheMap(nodes, objects, keys, paths, raw);
      var live := ReadEntries(keys);
      page := Listing.ListObjectsV2(p, keys, live);
      assert p.maxKeys > 0 ==> IsListing(p, keys, page);
    }

    /** The manifests of `keys`, read one by one. */
    method ReadEntries(keys: seq<Str>) returns (live: map<Str, VersionEntry>)
      requires Valid() && forall k :: k in keys <==> k in objects
      ensures live == Entries(objects)
    {
      hide Represents, IsUtf8;
      KeysAreUtf8(nodes, objects);
      live := map[];
      for i := 0 to |keys|
        invariant forall j :: 0 <= j < i ==> keys[j] in live
        invariant forall k :: k in live ==> k in objects && live[k] == objects[k].entry
      {
        assert keys[i] in keys;
        var e := HeadObject(keys[i]);
        live := live[keys[i] := e.value];
      }
      AllRead(objects, keys, live);
    }
  }

  lemma AllRead(m: Objects, keys: seq<Str>, live: map<Str, VersionEntry>)
    requires forall k :: k in m ==> k in keys
    requires forall j :: 0 <= j < |keys| ==> keys[j] in live
    requires forall k :: k in live ==> k in m && live[k] == m[k].entry
    ensures live == Entries(m)
  {
    forall k | k in m ensures k in live {
      var j :| 0 <= j < |keys| && keys[j] == k;
    }
  }

  lemma KeysAreUtf8(nodes: Tree, m: Objects)
    requires Represents(nodes, m)
    ensures forall k :: k in m ==> IsUtf8(k)
  {
  }

  lemma RootSpares(nodes: Tree, k: Str, o: Obj)
    requires IsUtf8(k) && HasFiles(nodes, k, o) && HasDirs(nodes, k)
    ensures HasFiles(nodes[[] := Dir], k, o) && HasDirs(nodes[[] := Dir], k)
  {
    hide KeyPath, DataName, IsUtf8;
  }

  lemma RootKeepsWellFormed(nodes: Tree)
    requires WellFormed(nodes)
    ensures WellFormed(nodes[[] := Dir])
  {
    var nodes' := nodes[[] := Dir];
    forall p | p in nodes' ensures Housed(nodes', p) {
      assert p in nodes ==> Housed(nodes, p);
    }
  }

  lemma StartDirs(nodes: Tree, m: Objects, k: Str)
    requires Represents(nodes, m) && IsUtf8(k)
    ensures Nearly(nodes[[] := Dir], m, k, 0) && IsDir(nodes[[] := Dir], KeyPath(k)[..0])
  {
    hide KeyPath, DataName, IsUtf8, HasFiles, HasDirs, WellFormed, Needed;
    assert KeyPath(k)[..0] == [];
    forall l | l in m ensures HasFiles(nodes[[] := Dir], l, m[l]) && HasDirs(nodes[[] := Dir], l) {
      RootSpares(nodes, l, m[l]);
    }
    RootKeepsWellFormed(nodes);
  }

  lemma NothingToRemove(nodes: Tree, a: StrPath, b: StrPath)
    requires a !in nodes && b !in nodes
    ensures nodes - {a, b} == nodes
  {
  }

  /** A delete leaves the key's directory there to prune, or there was nothing to delete. */
  lemma FilesWere(nodes: Tree, m: Objects, k: Str)
    requires Represents(nodes, m) && IsUtf8(k)
    ensures KeyPath(k) in nodes - {MetaPath(k), DataPath(k)} || Represents(nodes - {MetaPath(k), DataPath(k)}, m - {k})
  {
    OnlyItsOwn(nodes, m, k);
    if k in m {
      DirStays(nodes, m, k);
    } else {
      hide Represents, KeyPath, DataName;
      NothingToRemove(nodes, MetaPath(k), DataPath(k));
      assert m - {k} == m;
    }
  }

  lemma DirStays(nodes: Tree, m: Objects, k: Str)
    requires Represents(nodes, m) && k in m
    ensures KeyPath(k) in nodes - {MetaPath(k), DataPath(k)}
  {
    hide KeyPath, DataName, IsUtf8, HasFiles, WellFormed, ValidObjects, Needed;
    assert HasDirs(nodes, k);
    assert KeyPath(k)[..|KeyPath(k)|] == KeyPath(k) && IsDir(nodes, KeyPath(k)[..|KeyPath(k)|]);
    assert |MetaPath(k)| == |DataPath(k)| == |KeyPath(k)| + 1;
  }

  lemma ParentIsThere(nodes: Tree, p: StrPath)
    requires WellFormed(nodes) && p in nodes && p != []
    ensures Parent(p) in nodes
  {
    assert Housed(nodes, p);
  }
}
