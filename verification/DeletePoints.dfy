/**
 The states a delete takes the disk through, in its order: the manifest goes, then the data,
 then directories left empty, and last the deepest directory left is synced. What each of
 them can become at a power loss is known exactly.
 */
module DeletePoints {
  import opened Types
  import opened Disks
  import opened DurableDelete

  /** The two files of one key, and the directory they are in. */
  datatype ObjectFiles = ObjectFiles(dir: Path, metaName: string, dataName: string) {
    function Meta(): Path { dir + [metaName] }
    function Data(): Path { dir + [dataName] }
    function Names(): set<string> { {metaName, dataName} }

    predicate Holds(q: Path) { q == Meta() || q == Data() }
  }

  /** How far a delete has got; `pruned` counts the directories it has removed. */
  datatype Stage = Intact | ManifestGone | DataGone(pruned: nat) | Synced(pruned: nat)

  function CellOf(now: map<Cell, Entry>, p: Path): Cell
    requires p != [] && GenOf(now, Parent(p)).Some?
  {
    (p, GenOf(now, Parent(p)).value)
  }

  /** The file at `p` removed, if it is there. */
  function Taken(x: Disk, p: Path): Disk {
    if FileAt(x.now, p).Some? then Unset(x, CellOf(x.now, p)) else x
  }

  /** `p` is an empty directory. */
  ghost predicate CanRemove(x: Disk, p: Path) {
    p != [] && GenOf(x.now, p).Some? && GenOf(x.now, Parent(p)).Some? && NoEntries(x.now, p, GenOf(x.now, p).value)
  }

  /** `dir`, then its parent, and so on are removed, `k` in all, each being empty when its turn comes. */
  ghost predicate Prunes(x: Disk, y: Disk, dir: Path, k: nat)
    decreases k
  {
    if k == 0 then y == x else CanRemove(x, dir) && Prunes(Unset(x, CellOf(x.now, dir)), y, Parent(dir), k - 1)
  }

  /** `deep` is the length of the deepest directory that is left on the way to `dir`. */
  ghost predicate Deepest(now: map<Cell, Entry>, dir: Path, deep: nat) {
    && deep <= |dir| && GenOf(now, dir[..deep]).Some?
    && forall j :: deep < j <= |dir| ==> GenOf(now, dir[..j]).None?
  }

  /** No directory is left down to where the search stops, which is no deeper than `low`. */
  ghost predicate NoneLeft(now: map<Cell, Entry>, dir: Path, low: int) {
    exists stop: nat :: stop <= low <= |dir| && NoneFrom(now, dir, stop)
  }

  ghost predicate NoneFrom(now: map<Cell, Entry>, dir: Path, stop: nat) {
    forall j :: stop <= j <= |dir| ==> GenOf(now, dir[..j]).None?
  }

  /** From `x`, the deepest directory left is synced; or none is left. */
  ghost predicate SyncsDeepest(x: Disk, y: Disk, dir: Path, pruned: nat) {
    || (exists deep: nat :: Deepest(x.now, dir, deep) && y == Fsync(x, dir[..deep], GenOf(x.now, dir[..deep]).value))
    || (y == x && NoneLeft(x.now, dir, |dir| - pruned))
  }

  function Unlinked(d: Disk, o: ObjectFiles): Disk {
    Taken(Taken(d, o.Meta()), o.Data())
  }

  ghost predicate AtStage(d: Disk, x: Disk, o: ObjectFiles, stage: Stage) {
    match stage
    case Intact => x == d
    case ManifestGone => x == Taken(d, o.Meta())
    case DataGone(k) => Prunes(Unlinked(d, o), x, o.dir, k)
    case Synced(k) => exists y :: Prunes(Unlinked(d, o), y, o.dir, k) && SyncsDeepest(y, x, o.dir, k)
  }

  /** The two names differ, and neither is a directory. */
  ghost predicate Apart(d: Disk, o: ObjectFiles) {
    o.metaName != o.dataName && GenOf(d.now, o.Meta()).None? && GenOf(d.now, o.Data()).None?
  }

  /** `x` is a state the disk passes through while the files of `o` are deleted. */
  ghost predicate DeletePoint(d: Disk, x: Disk, o: ObjectFiles) {
    Apart(d, o) && exists stage :: AtStage(d, x, o, stage)
  }

  /** A delete ends. */
  ghost predicate DeleteEnds(d: Disk, d': Disk, o: ObjectFiles) {
    Apart(d, o) && exists k: nat :: AtStage(d, d', o, Synced(k))
  }

  // ----- each stage is one of a cut -----

  lemma ChildPath(dir: Path, n: string, m: string)
    ensures Parent(dir + [n]) == dir && (dir + [n])[|dir|] == n
    ensures n != m ==> dir + [n] != dir + [m]
  {
    assert (dir + [n])[|dir|] == n && (dir + [m])[|dir|] == m;
  }

  lemma IsTargetOf(c: Cut, n: string)
    requires n in c.names
    ensures c.IsTarget(c.dir + [n])
  {
    ChildPath(c.dir, n, n);
  }

  lemma TargetsOf(c: Cut, o: ObjectFiles, q: Path)
    requires c.dir == o.dir && c.names == o.Names()
    ensures c.IsTarget(q) <==> o.Holds(q)
  {
    ChildPath(o.dir, o.metaName, o.dataName);
    ChildPath(o.dir, o.dataName, o.metaName);
    if c.IsTarget(q) {
      assert q == c.dir + [q[|q| - 1]];
    }
  }

  /** Taking a file of the directory is a step of any cut that names it. */
  lemma TakenStage(c: Cut, x: Disk, n: string)
    requires InProgress(c, x) && n in c.names
    ensures InProgress(c, Taken(x, c.dir + [n]))
  {
    hide InProgress, GenOf;
    IsTargetOf(c, n);
    if FileAt(x.now, c.dir + [n]).Some? {
      UnsetStage(c, x, CellOf(x.now, c.dir + [n]));
    }
  }

  lemma {:induction false} PrunesStage(c: Cut, x: Disk, y: Disk, k: nat)
    requires InProgress(c, x) && c.low <= |c.dir| && Prunes(x, y, c.dir[..c.low], k)
    ensures k <= c.low && InProgress(c.(low := c.low - k), y)
    decreases k
  {
    hide InProgress, GenOf, NoEntries;
    if k > 0 {
      PruneStage(c, x);
      assert Parent(c.dir[..c.low]) == c.dir[..c.low - 1];
      PrunesStage(c.(low := c.low - 1), Unset(x, CellOf(x.now, c.dir[..c.low])), y, k - 1);
    }
  }

  /** One more directory, at the end. */
  lemma {:induction false} PrunesMore(x: Disk, y: Disk, dir: Path, k: nat)
    requires k <= |dir| && Prunes(x, y, dir, k) && CanRemove(y, dir[..|dir| - k])
    ensures Prunes(x, Unset(y, CellOf(y.now, dir[..|dir| - k])), dir, k + 1)
    decreases k
  {
    hide NoEntries, GenOf;
    if k == 0 {
      assert dir[..|dir|] == dir;
    } else {
      assert Parent(dir)[..|Parent(dir)| - (k - 1)] == dir[..|dir| - k];
      PrunesMore(Unset(x, CellOf(x.now, dir)), y, Parent(dir), k - 1);
    }
  }

  /** The whole cut of a delete, as far as it has got. */
  function CutOf(d: Disk, o: ObjectFiles, pruned: nat): Cut
    requires pruned <= |o.dir|
  {
    Cut(d, o.dir, o.Names(), |o.dir| - pruned)
  }

  lemma BeginCut(d: Disk, o: ObjectFiles)
    requires Durable(d) && Apart(d, o)
    ensures InProgress(CutOf(d, o, 0), d)
  {
    hide Durable, GenOf, InProgress;
    var c := CutOf(d, o, 0);
    forall q | c.IsTarget(q) ensures GenOf(d.now, q).None? {
      TargetsOf(c, o, q);
    }
    BeginDelete(c);
  }

  lemma UnlinkedStage(d: Disk, o: ObjectFiles)
    requires Durable(d) && Apart(d, o)
    ensures InProgress(CutOf(d, o, 0), Taken(d, o.Meta())) && InProgress(CutOf(d, o, 0), Unlinked(d, o))
  {
    hide Durable, Apart, InProgress, Taken;
    BeginCut(d, o);
    TakenStage(CutOf(d, o, 0), d, o.metaName);
    TakenStage(CutOf(d, o, 0), Taken(d, o.Meta()), o.dataName);
  }

  lemma DataGoneStage(d: Disk, x: Disk, o: ObjectFiles, k: nat)
    requires Durable(d) && Apart(d, o) && AtStage(d, x, o, DataGone(k))
    ensures k <= |o.dir| && InProgress(CutOf(d, o, k), x)
  {
    hide Durable, Apart, InProgress, Unlinked;
    UnlinkedStage(d, o);
    assert o.dir[..|o.dir|] == o.dir;
    PrunesStage(CutOf(d, o, 0), Unlinked(d, o), x, k);
  }

  /** Once the deepest directory left is synced, everything that can be reached is durable. */
  lemma SyncedStage(d: Disk, x: Disk, o: ObjectFiles, k: nat)
    requires Durable(d) && Apart(d, o) && AtStage(d, x, o, Synced(k))
    ensures k <= |o.dir| && InProgress(CutOf(d, o, k), x) && Durable(x)
    ensures exists y :: AtStage(d, y, o, DataGone(k)) && x.now == y.now
  {
    hide Durable, Apart, InProgress, Unlinked, Prunes, GenOf;
    var y :| Prunes(Unlinked(d, o), y, o.dir, k) && SyncsDeepest(y, x, o.dir, k);
    assert AtStage(d, y, o, DataGone(k));
    DataGoneStage(d, y, o, k);
    var c := CutOf(d, o, k);
    if deep: nat :| Deepest(y.now, o.dir, deep) && x == Fsync(y, o.dir[..deep], GenOf(y.now, o.dir[..deep]).value) {
      DeleteIsDurable(c, y, deep);
    } else {
      var stop: nat :| stop <= c.low <= |o.dir| && NoneFrom(y.now, o.dir, stop);
      NothingLeft(c, y, stop);
    }
  }

  lemma StageCut(d: Disk, x: Disk, o: ObjectFiles, stage: Stage) returns (k: nat)
    requires Durable(d) && Apart(d, o) && AtStage(d, x, o, stage)
    ensures k <= |o.dir| && InProgress(CutOf(d, o, k), x)
  {
    hide Durable, Apart, InProgress;
    match stage {
      case Intact =>
        BeginCut(d, o);
        k := 0;
      case ManifestGone =>
        UnlinkedStage(d, o);
        k := 0;
      case DataGone(n) =>
        DataGoneStage(d, x, o, n);
        k := n;
      case Synced(n) =>
        SyncedStage(d, x, o, n);
        k := n;
    }
  }

  // ----- what is there, and what is not -----

  lemma {:induction false} PrunesTakes(x: Disk, y: Disk, dir: Path, k: nat, q: Path)
    requires Prunes(x, y, dir, k) && FileAt(x.now, q).None?
    ensures FileAt(y.now, q).None?
    decreases k
  {
    hide FileAt, GenOf, NoEntries;
    if k > 0 {
      UnsetTakes(x.now, CellOf(x.now, dir), q);
      PrunesTakes(Unset(x, CellOf(x.now, dir)), y, Parent(dir), k - 1, q);
    }
  }

  /** Removing an entry makes no file appear. */
  lemma UnsetTakes(now: map<Cell, Entry>, slot: Cell, q: Path)
    ensures FileAt(now, q).None? ==> FileAt(now - {slot}, q).None?
  {
    if q != [] {
      GenOfUnset(now, slot, Parent(q));
    }
  }

  lemma TakenIsGone(x: Disk, p: Path)
    ensures FileAt(Taken(x, p).now, p).None?
  {
    if FileAt(x.now, p).Some? {
      GenOfUnset(x.now, CellOf(x.now, p), Parent(p));
    }
  }

  lemma TakenTakes(x: Disk, p: Path, q: Path)
    ensures FileAt(x.now, q).None? ==> FileAt(Taken(x, p).now, q).None?
  {
    if FileAt(x.now, p).Some? {
      UnsetTakes(x.now, CellOf(x.now, p), q);
    }
  }

  lemma BothGone(d: Disk, x: Disk, o: ObjectFiles, k: nat)
    requires AtStage(d, x, o, DataGone(k))
    ensures FileAt(x.now, o.Meta()).None? && FileAt(x.now, o.Data()).None?
  {
    hide FileAt, Prunes, Taken;
    var one := Taken(d, o.Meta());
    TakenIsGone(d, o.Meta());
    TakenTakes(one, o.Data(), o.Meta());
    TakenIsGone(one, o.Data());
    PrunesTakes(Unlinked(d, o), x, o.dir, k, o.Meta());
    PrunesTakes(Unlinked(d, o), x, o.dir, k, o.Data());
  }

  /** A delete that has ended: the disk is durable, the key's files are gone, and every other file is as it was. */
  lemma DeleteEndMeans(d: Disk, d': Disk, o: ObjectFiles)
    requires Durable(d) && DeleteEnds(d, d', o)
    ensures Durable(d') && forall q :: if o.Holds(q) then FileAt(d'.now, q).None? else FileAt(d'.now, q) == FileAt(d.now, q)
  {
    hide FileAt, Durable, InProgress, AtStage, Apart;
    var k: nat :| AtStage(d, d', o, Synced(k));
    SyncedStage(d, d', o, k);
    var y :| AtStage(d, y, o, DataGone(k)) && d'.now == y.now;
    BothGone(d, y, o, k);
    CutSpares(CutOf(d, o, k), d');
    forall q ensures !o.Holds(q) ==> FileAt(d'.now, q) == FileAt(d.now, q) {
      TargetsOf(CutOf(d, o, k), o, q);
    }
  }

  /**
   A power loss at any point of a delete: the disk is durable and every other file is as it was.
   Each of the two is whole or gone; the data is there for sure until it is unlinked, and both
   are gone for sure once the deepest directory left is synced.
   */
  lemma LostDelete(d: Disk, x: Disk, d': Disk, o: ObjectFiles, stage: Stage)
    requires Durable(d) && Apart(d, o) && AtStage(d, x, o, stage) && CrashesTo(x, d')
    ensures Durable(d')
    ensures forall q :: FileAt(d'.now, q) == FileAt(d.now, q) || (o.Holds(q) && FileAt(d'.now, q) == None)
    ensures stage.Intact? ==> FileAt(d'.now, o.Meta()) == FileAt(d.now, o.Meta())
    ensures stage.Intact? || stage.ManifestGone? ==> FileAt(d'.now, o.Data()) == FileAt(d.now, o.Data())
    ensures stage.Synced? ==> FileAt(d'.now, o.Meta()) == None && FileAt(d'.now, o.Data()) == None
  {
    hide FileAt, Durable, InProgress, Apart, CrashesTo;
    var k := StageCut(d, x, o, stage);
    LostCut(CutOf(d, o, k), x, d');
    forall q: Path ensures FileAt(d'.now, q) == FileAt(d.now, q) || (o.Holds(q) && FileAt(d'.now, q) == None) {
      TargetsOf(CutOf(d, o, k), o, q);
    }
    match stage {
      case Intact => RestSurvives(d, d');
      case ManifestGone => DataStays(d, d', o);
      case DataGone(_) =>
      case Synced(n) =>
        SyncedStage(d, x, o, n);
        var y :| AtStage(d, y, o, DataGone(n)) && x.now == y.now;
        BothGone(d, y, o, n);
        RestSurvives(x, d');
    }
  }

  lemma DataStays(d: Disk, d': Disk, o: ObjectFiles)
    requires Durable(d) && Apart(d, o) && CrashesTo(Taken(d, o.Meta()), d')
    ensures FileAt(d'.now, o.Data()) == FileAt(d.now, o.Data())
  {
    var c := Cut(d, o.dir, {o.metaName}, |o.dir|);
    ChildPath(o.dir, o.metaName, o.dataName);
    ChildPath(o.dir, o.dataName, o.metaName);
    hide FileAt, Durable, InProgress, GenOf, CrashesTo, Taken;
    forall q | c.IsTarget(q) ensures GenOf(d.now, q).None? {
      assert q == c.dir + [q[|q| - 1]];
    }
    BeginDelete(c);
    TakenStage(c, d, o.metaName);
    LostCut(c, Taken(d, o.Meta()), d');
  }

  // ----- the two files together -----

  predicate BothThere(d: Disk, o: ObjectFiles) {
    FileAt(d.now, o.Meta()).Some? && FileAt(d.now, o.Data()).Some?
  }

  /** Of the files in `d`, those said to be kept are in `d'`, whole, and the others are not. */
  predicate Kept(d: Disk, d': Disk, o: ObjectFiles, meta: bool, data: bool) {
    && FileAt(d'.now, o.Meta()) == (if meta then FileAt(d.now, o.Meta()) else None)
    && FileAt(d'.now, o.Data()) == (if data then FileAt(d.now, o.Data()) else None)
  }

  ghost predicate CanLeave(d: Disk, x: Disk, o: ObjectFiles, meta: bool, data: bool) {
    exists d' :: CrashesTo(x, d') && Kept(d, d', o, meta, data)
  }

  /** What a power loss can leave of the two files, by how far the delete has got. */
  predicate Leaves(stage: Stage, meta: bool, data: bool) {
    match stage
    case Intact => meta && data
    case ManifestGone => data
    case DataGone(_) => true
    case Synced(_) => !meta && !data
  }

  function Without(now: map<Cell, Entry>, slot: Cell, kept: bool): map<Cell, Entry> {
    if kept then now else now - {slot}
  }

  /** Removals lose none of what the disk may hold, and bring nothing back. */
  lemma {:induction false} PrunesPossible(x: Disk, y: Disk, dir: Path, k: nat, slot: Cell)
    requires Prunes(x, y, dir, k)
    ensures Possible(x, slot) <= Possible(y, slot) && (slot !in x.now ==> slot !in y.now) && y.next == x.next
    decreases k
  {
    hide GenOf, NoEntries;
    if k > 0 {
      var m := Unset(x, CellOf(x.now, dir));
      assert Possible(x, slot) <= Possible(m, slot);
      PrunesPossible(m, y, Parent(dir), k - 1, slot);
    }
  }

  lemma TakenPossible(x: Disk, p: Path, slot: Cell)
    ensures var y := Taken(x, p); Possible(x, slot) <= Possible(y, slot) && (slot !in x.now ==> slot !in y.now) && y.next == x.next
  {
  }

  /** Where the two files are, and that they are gone from there once taken. */
  lemma Cells(d: Disk, o: ObjectFiles)
    requires BothThere(d, o) && o.metaName != o.dataName
    ensures GenOf(d.now, o.dir).Some?
    ensures var g := GenOf(d.now, o.dir).value;
            && (o.Meta(), g) in d.now && (o.Data(), g) in d.now
            && (o.Meta(), g) !in Taken(d, o.Meta()).now && (o.Data(), g) !in Unlinked(d, o).now
  {
    ChildPath(o.dir, o.metaName, o.dataName);
    ChildPath(o.dir, o.dataName, o.metaName);
    GenOfUnset(d.now, (o.Meta(), GenOf(d.now, o.dir).value), o.dir);
  }

  /** Before the sync, `x` may still hold all that `d` held, and lacks what has been taken. */
  lemma StillPossible(d: Disk, x: Disk, o: ObjectFiles, stage: Stage, slot: Cell)
    requires BothThere(d, o) && o.metaName != o.dataName && AtStage(d, x, o, stage) && !stage.Synced?
    ensures Possible(d, slot) <= Possible(x, slot) && x.next == d.next && GenOf(d.now, o.dir).Some?
    ensures var g := GenOf(d.now, o.dir).value;
            && (!stage.Intact? ==> (o.Meta(), g) !in x.now)
            && (stage.DataGone? ==> (o.Data(), g) !in x.now)
  {
    hide FileAt, GenOf, Possible, Taken, Prunes;
    Cells(d, o);
    var g, one := GenOf(d.now, o.dir).value, Taken(d, o.Meta());
    var ms, ds := (o.Meta(), g), (o.Data(), g);
    TakenPossible(d, o.Meta(), slot);
    TakenPossible(one, o.Data(), slot);
    TakenPossible(one, o.Data(), ms);
    if stage.DataGone? {
      PrunesPossible(Unlinked(d, o), x, o.dir, stage.pruned, slot);
      PrunesPossible(Unlinked(d, o), x, o.dir, stage.pruned, ms);
      PrunesPossible(Unlinked(d, o), x, o.dir, stage.pruned, ds);
    }
  }

  /** The disk on which all but what is not kept has come back. */
  function Back(d: Disk, o: ObjectFiles, meta: bool, data: bool): Disk
    requires GenOf(d.now, o.dir).Some?
  {
    var g := GenOf(d.now, o.dir).value;
    Disk(Without(Without(d.now, (o.Meta(), g), meta), (o.Data(), g), data), map[], d.next)
  }

  lemma BackIsPossible(d: Disk, x: Disk, o: ObjectFiles, stage: Stage, meta: bool, data: bool)
    requires Durable(d) && BothThere(d, o) && o.metaName != o.dataName && AtStage(d, x, o, stage) && !stage.Synced?
    requires Leaves(stage, meta, data)
    ensures GenOf(d.now, o.dir).Some? && CrashesTo(x, Back(d, o, meta, data))
  {
    Cells(d, o);
    var d' := Back(d, o, meta, data);
    StillPossible(d, x, o, stage, ([], 0));
    forall slot: Cell ensures CanBecome(x, slot, Lookup(d'.now, slot)) {
      StillPossible(d, x, o, stage, slot);
      BackCell(d, x, o, stage, meta, data, slot);
    }
  }

  lemma BackCell(d: Disk, x: Disk, o: ObjectFiles, stage: Stage, meta: bool, data: bool, slot: Cell)
    requires WellFormed(d) && GenOf(d.now, o.dir).Some? && Leaves(stage, meta, data) && !stage.Synced?
    requires Possible(d, slot) <= Possible(x, slot)
    requires !stage.Intact? ==> (o.Meta(), GenOf(d.now, o.dir).value) !in x.now
    requires stage.DataGone? ==> (o.Data(), GenOf(d.now, o.dir).value) !in x.now
    ensures CanBecome(x, slot, Lookup(Back(d, o, meta, data).now, slot))
  {
    hide GenOf;
    var v := Lookup(Back(d, o, meta, data).now, slot);
    assert Lookup(d.now, slot) in Possible(d, slot);
    assert v in Possible(x, slot);
    assert Recovers(v, v);
  }

  /** Taking a file away, or not, moves no directory and no other file of its directory. */
  lemma FileTaken(now: map<Cell, Entry>, dir: Path, name: string, kept: bool)
    requires GenOf(now, dir).Some?
    ensures var slot := (dir + [name], GenOf(now, dir).value);
            var now' := Without(now, slot, kept);
            && GenOf(now', dir) == GenOf(now, dir)
            && FileAt(now', dir + [name]) == (if kept then FileAt(now, dir + [name]) else None)
            && forall n :: n != name ==> FileAt(now', dir + [n]) == FileAt(now, dir + [n])
  {
    var slot := (dir + [name], GenOf(now, dir).value);
    GenOfUnset(now, slot, dir);
    assert forall n :: Parent(dir + [n]) == dir && (dir + [n])[|dir|] == n;
  }

  lemma BackIsKept(d: Disk, o: ObjectFiles, meta: bool, data: bool)
    requires o.metaName != o.dataName && GenOf(d.now, o.dir).Some?
    ensures Kept(d, Back(d, o, meta, data), o, meta, data)
  {
    hide FileAt, GenOf;
    var slot := (o.Meta(), GenOf(d.now, o.dir).value);
    FileTaken(d.now, o.dir, o.metaName, meta);
    FileTaken(Without(d.now, slot, meta), o.dir, o.dataName, data);
  }

  lemma RestCrash(x: Disk)
    requires WellFormed(x)
    ensures CrashesTo(x, Disk(x.now, map[], x.next))
  {
    forall slot: Cell ensures CanBecome(x, slot, Lookup(x.now, slot)) {
      assert Lookup(x.now, slot) in Possible(x, slot);
      assert Recovers(Lookup(x.now, slot), Lookup(x.now, slot));
    }
  }

  /** Exactly which of its two files a power loss can leave of a key being deleted, at every point of the delete. */
  lemma PairsLeft(d: Disk, x: Disk, o: ObjectFiles, stage: Stage, meta: bool, data: bool)
    requires Durable(d) && Apart(d, o) && BothThere(d, o) && AtStage(d, x, o, stage)
    ensures CanLeave(d, x, o, meta, data) <==> Leaves(stage, meta, data)
  {
    hide Durable, AtStage, FileAt, GenOf, CrashesTo;
    if CanLeave(d, x, o, meta, data) {
      var d' :| CrashesTo(x, d') && Kept(d, d', o, meta, data);
      LostDelete(d, x, d', o, stage);
    }
    if Leaves(stage, meta, data) {
      if stage.Synced? {
        SyncedLeaves(d, x, o, stage.pruned);
      } else {
        BackIsPossible(d, x, o, stage, meta, data);
        BackIsKept(d, o, meta, data);
      }
    }
  }

  lemma SyncedLeaves(d: Disk, x: Disk, o: ObjectFiles, k: nat)
    requires Durable(d) && Apart(d, o) && AtStage(d, x, o, Synced(k))
    ensures CanLeave(d, x, o, false, false)
  {
    hide AtStage, FileAt, GenOf, CrashesTo, Apart;
    SyncedStage(d, x, o, k);
    var y :| AtStage(d, y, o, DataGone(k)) && x.now == y.now;
    BothGone(d, y, o, k);
    RestCrash(x);
    assert Kept(d, Disk(x.now, map[], x.next), o, false, false);
  }

  // ----- when the manifest can come back alone -----

  /** The deepest directory left on the way to `dir` has an entry that is not synced. */
  ghost predicate Unsynced(x: Disk, dir: Path) {
    exists deep: nat, slot ::
      Deepest(x.now, dir, deep) && slot in x.stale && EntryOf(slot, dir[..deep], GenOf(x.now, dir[..deep]).value)
  }

  lemma UnsyncedIsNotDurable(x: Disk, dir: Path)
    requires Unsynced(x, dir)
    ensures !Durable(x)
  {
    var deep: nat, slot :|
      Deepest(x.now, dir, deep) && slot in x.stale && EntryOf(slot, dir[..deep], GenOf(x.now, dir[..deep]).value);
    assert Live(x.now, slot);
  }

  /** The last thing removed left an entry unsynced in the directory it was in, and that is now the deepest. */
  lemma {:induction false} PrunedIsUnsynced(x: Disk, y: Disk, dir: Path, k: nat, top: Path)
    requires Prunes(x, y, dir, k) && dir <= top && Deepest(x.now, top, |dir|) && Unsynced(x, top)
    ensures Unsynced(y, top)
    decreases k
  {
    hide GenOf, NoEntries, Unsynced;
    if k > 0 {
      var m := Unset(x, CellOf(x.now, dir));
      RemovedIsUnsynced(x, dir, top);
      PrunedIsUnsynced(m, y, Parent(dir), k - 1, top);
    }
  }

  lemma RemovedIsUnsynced(x: Disk, dir: Path, top: Path)
    requires CanRemove(x, dir) && dir <= top && Deepest(x.now, top, |dir|)
    ensures var m := Unset(x, CellOf(x.now, dir)); Parent(dir) <= top && Deepest(m.now, top, |Parent(dir)|) && Unsynced(m, top)
  {
    var slot := CellOf(x.now, dir);
    var m, up := Unset(x, slot), Parent(dir);
    assert top[..|dir|] == dir && top[..|up|] == up;
    GenOfUnset(x.now, slot, up);
    forall j | |up| < j <= |top| ensures GenOf(m.now, top[..j]).None? {
      if j > |dir| {
        GenOfUnset(x.now, slot, top[..j]);
      } else {
        assert top[..j] == dir;
      }
    }
    assert Deepest(m.now, top, |up|) && slot in m.stale && EntryOf(slot, top[..|up|], GenOf(m.now, top[..|up|]).value);
  }

  lemma UnlinkedIsUnsynced(d: Disk, o: ObjectFiles)
    requires BothThere(d, o) && o.metaName != o.dataName
    ensures Deepest(Unlinked(d, o).now, o.dir, |o.dir|) && Unsynced(Unlinked(d, o), o.dir)
  {
    ChildPath(o.dir, o.metaName, o.dataName);
    ChildPath(o.dir, o.dataName, o.metaName);
    var g := GenOf(d.now, o.dir).value;
    var ms, ds := (o.Meta(), g), (o.Data(), g);
    var one, x := Taken(d, o.Meta()), Unlinked(d, o);
    GenOfUnset(d.now, ms, o.dir);
    assert one == Unset(d, ms) && x == Unset(one, ds);
    GenOfUnset(one.now, ds, o.dir);
    assert o.dir[..|o.dir|] == o.dir;
    assert Deepest(x.now, o.dir, |o.dir|) && ds in x.stale && EntryOf(ds, o.dir[..|o.dir|], GenOf(x.now, o.dir[..|o.dir|]).value);
  }

  /**
   The manifest can come back without its data exactly while the data is unlinked and the
   deepest directory left is not synced: not before the data goes, and not after the sync.
   */
  lemma ManifestAlone(d: Disk, x: Disk, o: ObjectFiles, stage: Stage)
    requires Durable(d) && Apart(d, o) && BothThere(d, o) && AtStage(d, x, o, stage)
    ensures CanLeave(d, x, o, true, false) <==> FileAt(x.now, o.Data()).None? && Unsynced(x, o.dir)
  {
    hide Durable, FileAt, GenOf, CanLeave, Prunes, Taken, Unsynced;
    PairsLeft(d, x, o, stage, true, false);
    match stage {
      case Intact =>
      case ManifestGone => DataStillThere(d, o);
      case DataGone(k) =>
        BothGone(d, x, o, k);
        UnlinkedIsUnsynced(d, o);
        PrunedIsUnsynced(Unlinked(d, o), x, o.dir, k, o.dir);
      case Synced(k) =>
        SyncedStage(d, x, o, k);
        if Unsynced(x, o.dir) {
          UnsyncedIsNotDurable(x, o.dir);
        }
    }
  }

  lemma DataStillThere(d: Disk, o: ObjectFiles)
    requires BothThere(d, o) && o.metaName != o.dataName
    ensures FileAt(Taken(d, o.Meta()).now, o.Data()).Some?
  {
    ChildPath(o.dir, o.metaName, o.dataName);
    ChildPath(o.dir, o.dataName, o.metaName);
    FileTaken(d.now, o.dir, o.metaName, false);
  }
}
