/** A bucket's object tree on disk, as paths relative to `objects/`, whose own path is `[]`. */
module Trees {
  import opened Types
  import opened Utf8
  import opened Paths

  /** A directory; a manifest or a data file; or something the engine did not write. */
  datatype Node = Dir | Manifest(history: seq<VersionEntry>) | Data(bytes: Bytes) | Stray

  type Tree = map<StrPath, Node>

  predicate IsDir(nodes: Tree, p: StrPath) {
    p in nodes && nodes[p].Dir?
  }

  /** Everything is in a directory. */
  ghost predicate WellFormed(nodes: Tree) {
    forall p {:trigger Housed(nodes, p)} :: p in nodes ==> Housed(nodes, p)
  }

  predicate Housed(nodes: Tree, p: StrPath) {
    if p == [] then IsDir(nodes, p) else IsDir(nodes, Parent(p))
  }

  predicate ChildOf(p: StrPath, dir: StrPath) {
    |p| == |dir| + 1 && p[..|dir|] == dir
  }

  predicate EmptyDir(nodes: Tree, dir: StrPath) {
    forall p :: p in nodes ==> !ChildOf(p, dir)
  }
}
