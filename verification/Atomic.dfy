/** Crash-safe file writes: stage, fsync, make directories, rename, fsync the chain of directories. */
module Atomic {
  import opened Types
  import opened Disks
  import opened DurableCommit
  import DurableDelete
  import opened DeletePoints
  import opened DurableRuns

  /**
   A disk in use. Any call may fail, and then changes nothing; `faults` counts the calls that
   did, and `trail` is every state the disk has been in, so that a crash at any can be spoken of.
   */
  class Device {
    var disk: Disk
    ghost var trail: seq<Disk>
    ghost var faults: nat

    constructor (d: Disk)
      ensures disk == d && trail == [] && faults == 0
    {
      disk, trail, faults := d, [], 0;
    }

    /** A call has failed, or has taken the disk to `d`. */
    twostate predicate Called(ok: bool, d: Disk)
      reads this
    {
      if ok then disk == d && trail == old(trail) + [d] && faults == old(faults)
      else disk == old(disk) && trail == old(trail) && faults == old(faults) + 1
    }

    method Call(d: Disk) returns (ok: bool)
      modifies this
      ensures Called(ok, d)
    {
      if * {
        disk, trail := d, trail + [d];
        return true;
      }
      faults := faults + 1;
      return false;
    }

    method MakeDir(slot: Cell) returns (ok: bool)
      modifies this
      ensures Called(ok, Disks.MakeDir(old(disk), slot))
    {
      ok := Call(Disks.MakeDir(disk, slot));
    }

    method Put(slot: Cell, e: Entry) returns (ok: bool)
      modifies this
      ensures Called(ok, Set(old(disk), slot, e))
    {
      ok := Call(Set(disk, slot, e));
    }

    method Remove(slot: Cell) returns (ok: bool)
      modifies this
      ensures Called(ok, Unset(old(disk), slot))
    {
      ok := Call(Unset(disk, slot));
    }

    method Fsync(p: Path, g: nat) returns (ok: bool)
      modifies this
      ensures Called(ok, Disks.Fsync(old(disk), p, g))
    {
      ok := Call(Disks.Fsync(disk, p, g));
    }

    /** A call on the staged file alone, which is no entry of the tree. */
    method CallOnTemp() returns (ok: bool)
      modifies this
      ensures disk == old(disk) && trail == old(trail) && faults == old(faults) + if ok then 0 else 1
    {
      if * {
        return true;
      }
      faults := faults + 1;
      return false;
    }
  }

  /** Something, file or directory, is at `p`. */
  predicate Exists(now: map<Cell, Entry>, p: Path) {
    FileAt(now, p).Some? || GenOf(now, p).Some?
  }

  /** No file stands where a directory is needed, and no directory where the file goes. */
  ghost predicate Unobstructed(now: map<Cell, Entry>, dest: Path) {
    GenOf(now, dest).None? && forall j :: 0 < j < |dest| ==> FileAt(now, dest[..j]).None?
  }

  /** The directories whose entries a commit into `dir` must sync, deepest first: up to the first that exists. */
  method DirsToSync(now: map<Cell, Entry>, dir: Path) returns (chain: seq<Path>)
    ensures 1 <= |chain| <= |dir| + 1
    ensures forall i :: 0 <= i < |chain| ==> chain[i] == dir[..|dir| - i]
    ensures Exists(now, chain[|chain| - 1])
    ensures forall i :: 0 <= i < |chain| - 1 ==> !Exists(now, chain[i])
  {
    chain := [];
    var n := |dir|;
    while true
      invariant 0 <= n && n + |chain| == |dir|
      invariant forall i :: 0 <= i < |chain| ==> chain[i] == dir[..|dir| - i]
      invariant forall i :: 0 <= i < |chain| ==> !Exists(now, chain[i])
      decreases n
    {
      chain := chain + [dir[..n]];
      if Exists(now, dir[..n]) {
        return;
      }
      assert dir[..0] == [];
      n := n - 1;
    }
  }

  lemma ObstructedOrNot(now: map<Cell, Entry>, dest: Path, deep: nat)
    requires deep < |dest| && Exists(now, dest[..deep])
    requires forall j :: deep < j < |dest| ==> !Exists(now, dest[..j])
    ensures GenOf(now, dest[..deep]).None? ==> !Unobstructed(now, dest)
    ensures GenOf(now, dest[..deep]).Some? ==> (Unobstructed(now, dest) <==> GenOf(now, dest).None?)
    ensures deep + 1 < |dest| ==> GenOf(now, dest).None?
  {
    if GenOf(now, dest[..deep]).None? {
      assert FileAt(now, dest[..deep]).Some? && deep > 0;
    } else {
      forall j | 0 < j < |dest| ensures FileAt(now, dest[..j]).None? {
        if j <= deep {
          PrefixExists(now, dest[..deep], j);
          assert dest[..deep][..j] == dest[..j];
        }
      }
    }
    if deep + 1 < |dest| {
      NothingBelow(now, dest, deep + 1);
    }
  }

  lemma NothingBelow(now: map<Cell, Entry>, dest: Path, n: nat)
    requires n <= |dest| && !Exists(now, dest[..n])
    ensures GenOf(now, dest).None?
  {
    hide GenOf;
    if GenOf(now, dest).Some? {
      PrefixExists(now, dest, n);
    }
  }

  /** A file being written in the staging directory. */
  class StagedFile {
    var bytes: Bytes
    var synced: bool
    var temp: bool       // the temporary name is there
    var committed: bool

    ghost predicate Valid()
      reads this
    {
      committed ==> !temp
    }

    constructor ()
      ensures Valid() && bytes == [] && temp && !committed
    {
      bytes, synced, temp, committed := [], false, true, false;
    }

    method WriteAll(dev: Device, buf: Bytes) returns (ok: bool)
      requires Valid()
      modifies this, dev
      ensures Valid() && temp == old(temp) && committed == old(committed) && (ok ==> bytes == old(bytes) + buf)
      ensures dev.disk == old(dev.disk) && dev.trail == old(dev.trail) && dev.faults == old(dev.faults) + if ok then 0 else 1
    {
      ok := dev.CallOnTemp();
      if ok {
        bytes, synced := bytes + buf, false;
      }
    }

    /** Dropping a file that was never published takes its temporary name away, unless that very call fails. */
    method Drop(dev: Device)
      requires Valid()
      modifies this, dev
      ensures Valid() && committed == old(committed) && (committed ==> !temp)
      ensures dev.disk == old(dev.disk) && dev.trail == old(dev.trail)
      ensures dev.faults == old(dev.faults) + if temp then 1 else 0
    {
      if !committed && temp {
        var ok := dev.CallOnTemp();
        temp := !ok;
      }
    }

    /**
     Publish at `dest`. It succeeds exactly when nothing obstructs it and no call fails. Every
     state on the way, and the last of a commit that fails, is a point of this commit; and from
     the rename on the file is in place, whatever the result.
     */
    method Commit(dev: Device, dest: Path) returns (ok: bool)
      requires Valid() && temp && dest != [] && Durable(dev.disk)
      modifies this, dev
      ensures Valid() && bytes == old(bytes)
      ensures dev.faults >= old(dev.faults)
      ensures ok <==> Unobstructed(old(dev.disk).now, dest) && dev.faults == old(dev.faults)
      ensures ok ==> committed && CommitEnds(old(dev.disk), dev.disk, dest, bytes)
      ensures CommitPoint(old(dev.disk), dev.disk, dest, bytes)
      ensures committed ==> FileAt(dev.disk.now, dest) == Some(File(bytes, true))
      ensures !committed ==> SameFiles(old(dev.disk).now, dev.disk.now)
      ensures old(dev.trail) <= dev.trail
      ensures forall i :: |old(dev.trail)| <= i < |dev.trail| ==> CommitPoint(old(dev.disk), dev.trail[i], dest, bytes)
    {
      hide InProgress, Durable, GenOf, FileAt, Plan.Valid, AtPoint;
      var flushed := dev.CallOnTemp();
      if !flushed {
        return false;
      }
      synced := true;
      var parent := Parent(dest);
      var chain := DirsToSync(dev.disk.now, parent);
      var deep := |parent| - (|chain| - 1);
      var found := GenOf(dev.disk.now, chain[|chain| - 1]);
      assert forall j :: 0 <= j < |dest| ==> parent[..j] == dest[..j];
      assert forall j :: deep < j < |dest| ==> dest[..j] == chain[|parent| - j];
      ObstructedOrNot(dev.disk.now, dest, deep);
      if found.None? || (deep == |parent| && GenOf(dev.disk.now, dest).Some?) {
        return false;
      }
      ghost var p := Plan(dev.disk, dest, deep, found.value, File(bytes, synced));
      PlanIsValid(p);
      assert Plans(p, old(dev.disk), dest, bytes);
      assert IsChain(chain, p);
      ok, committed := Publish(dev, dest, deep, File(bytes, synced), chain, p);
      temp := !committed;
    }
  }

  /** Make the directories, rename, and sync the chain. `renamed` says whether it got as far as the rename. */
  method Publish(dev: Device, dest: Path, deep: nat, file: Entry, chain: seq<Path>, ghost p: Plan)
    returns (ok: bool, renamed: bool)
    requires p.Valid() && dev.disk == p.d0 && p.dest == dest && p.deep == deep && p.file == file
    requires IsChain(chain, p)
    modifies dev
    ensures dev.faults >= old(dev.faults) && (ok <==> dev.faults == old(dev.faults))
    ensures ok ==> renamed && InProgress(p, dev.disk, p.Missing(), 0)
    ensures AtPoint(p, dev.disk)
    ensures renamed ==> FileAt(dev.disk.now, dest) == Some(file)
    ensures !renamed ==> SameFiles(p.d0.now, dev.disk.now)
    ensures old(dev.trail) <= dev.trail && PointsSince(p, dev.trail, |old(dev.trail)|)
  {
    assert deep < |dest|;
    hide InProgress, Plan.Valid, AtPoint, GenOf, FileAt, PointsSince, SameFiles, IsChain;
    ok := CreateDirAll(dev, dest, deep, p);
    if !ok {
      return false, false;
    }
    LastLink(p, dev.disk);
    RenameStage(p, dev.disk);
    ghost var before := dev.trail;
    ok := dev.Put((dest, GenOf(dev.disk.now, Parent(dest)).value), file);
    if !ok {
      return false, false;
    }
    PointAt(p, dev.disk, p.Missing(), p.Missing() + 1);
    PointsGrow(p, before, dev.disk, |old(dev.trail)|);
    ghost var renaming := dev.trail;
    ok := SyncChain(dev, chain, p);
    PointsJoin(p, renaming, dev.trail, |old(dev.trail)|);
    renamed := true;
  }

  /** `chain` is the directories of the plan, deepest first. */
  ghost predicate IsChain(chain: seq<Path>, p: Plan) {
    && p.deep < |p.dest| && |chain| == p.Missing() + 1
    && forall i :: 0 <= i < |chain| ==> chain[i] == p.dest[..|p.dest| - 1 - i]
  }

  lemma ChainLength(chain: seq<Path>, p: Plan)
    requires IsChain(chain, p)
    ensures |chain| == p.Missing() + 1 && p.deep < |p.dest|
  {
  }

  lemma ChainAt(chain: seq<Path>, p: Plan, k: nat)
    requires IsChain(chain, p) && k < |chain|
    ensures chain[k] == p.dest[..p.deep + (|chain| - k - 1)]
  {
  }

  lemma LastLink(p: Plan, d: Disk)
    requires InProgress(p, d, p.Missing(), p.Missing())
    ensures GenOf(d.now, Parent(p.dest)).Some? && p.Link(p.Missing()) == (p.dest, GenOf(d.now, Parent(p.dest)).value)
  {
    var n := p.Missing();
    assert p.dest[..p.deep + n] == Parent(p.dest) && p.dest[..p.deep + n + 1] == p.dest;
    ChainIsThere(p, d, n, n, n);
  }

  lemma NoneYet(p: Plan, trail: seq<Disk>)
    ensures PointsSince(p, trail, |trail|)
  {
  }

  lemma PointsGrow(p: Plan, trail: seq<Disk>, x: Disk, n: nat)
    requires PointsSince(p, trail, n) && AtPoint(p, x)
    ensures PointsSince(p, trail + [x], n)
  {
    hide AtPoint;
  }

  lemma PointsJoin(p: Plan, trail: seq<Disk>, trail': seq<Disk>, n: nat)
    requires PointsSince(p, trail, n) && trail <= trail' && PointsSince(p, trail', |trail|)
    ensures PointsSince(p, trail', n)
  {
    hide AtPoint;
    forall i | n <= i < |trail'| ensures AtPoint(p, trail'[i]) {
      assert i < |trail| ==> trail'[i] == trail[i];
    }
  }

  lemma PointAt(p: Plan, d: Disk, i: nat, m: nat)
    requires InProgress(p, d, i, m)
    ensures AtPoint(p, d)
  {
  }

  lemma ChainIsThere(p: Plan, d: Disk, i: nat, m: nat, j: nat)
    requires InProgress(p, d, i, m) && j <= i
    ensures GenOf(d.now, p.dest[..p.deep + j]) == Some(p.Gen(j))
  {
    assert ChainHas(p, d, j);
  }

  ghost predicate PointsSince(p: Plan, trail: seq<Disk>, n: nat) {
    forall i :: n <= i < |trail| ==> AtPoint(p, trail[i])
  }

  ghost predicate SameFiles(now: map<Cell, Entry>, now': map<Cell, Entry>) {
    forall q :: FileAt(now', q) == FileAt(now, q)
  }

  lemma MakeDirStep(p: Plan, d: Disk, up: Path, i: nat)
    requires InProgress(p, d, i, i) && i < p.Missing() && up == p.dest[..p.deep + i]
    ensures AtPoint(p, d) && GenOf(d.now, up).Some?
    ensures var d' := Disks.MakeDir(d, (p.dest[..p.deep + i + 1], GenOf(d.now, up).value));
            && InProgress(p, d', i + 1, i + 1) && AtPoint(p, d')
            && (SameFiles(p.d0.now, d.now) ==> SameFiles(p.d0.now, d'.now))
  {
    hide InProgress, AtPoint, GenOf, SameFiles;
    PointAt(p, d, i, i);
    ChainIsThere(p, d, i, i, i);
    MakeDirStage(p, d, i);
    MakeDirFiles(p, d, i);
    PointAt(p, Disks.MakeDir(d, p.Link(i)), i + 1, i + 1);
  }

  /** Make the directories that are missing on the way, from the top down. No file comes or goes. */
  method CreateDirAll(dev: Device, dest: Path, deep: nat, ghost p: Plan) returns (ok: bool)
    requires p.Valid() && dev.disk == p.d0 && p.dest == dest && p.deep == deep
    modifies dev
    ensures dev.faults >= old(dev.faults) && (ok <==> dev.faults == old(dev.faults))
    ensures ok ==> InProgress(p, dev.disk, p.Missing(), p.Missing())
    ensures AtPoint(p, dev.disk) && SameFiles(p.d0.now, dev.disk.now)
    ensures old(dev.trail) <= dev.trail && PointsSince(p, dev.trail, |old(dev.trail)|)
  {
    assert deep < |dest|;
    BeginCommit(p);
    NoneYet(p, dev.trail);
    assert SameFiles(p.d0.now, dev.disk.now);
    hide InProgress, Plan.Valid, AtPoint, GenOf, SameFiles, PointsSince, Disks.MakeDir;
    var made := 0;
    while made < |dest| - 1 - deep
      invariant 0 <= made <= p.Missing()
      invariant InProgress(p, dev.disk, made, made)
      invariant dev.faults == old(dev.faults) && SameFiles(p.d0.now, dev.disk.now)
      invariant old(dev.trail) <= dev.trail && PointsSince(p, dev.trail, |old(dev.trail)|)
    {
      var up := dest[..deep + made];
      MakeDirStep(p, dev.disk, up, made);
      var slot := (dest[..deep + made + 1], GenOf(dev.disk.now, up).value);
      PointsGrow(p, dev.trail, Disks.MakeDir(dev.disk, slot), |old(dev.trail)|);
      ok := dev.MakeDir(slot);
      if !ok {
        return;
      }
      made := made + 1;
    }
    PointAt(p, dev.disk, made, made);
    ok := true;
  }

  /** A directory just made is empty, and changes where no other is. */
  lemma {:induction false} NewDirIsEmpty(d: Disk, slot: Cell, q: Path)
    requires WellFormed(d) && slot !in d.now && slot.1 < d.next
    ensures var now' := d.now[slot := Dir(d.next)];
            GenOf(now', q) == GenOf(d.now, q) || GenOf(now', q) == Some(d.next)
    ensures GenOf(d.now, q).Some? ==> GenOf(d.now[slot := Dir(d.next)], q) == GenOf(d.now, q)
    decreases |q|
  {
    if q != [] {
      NewDirIsEmpty(d, slot, Parent(q));
      NothingOfGen(d, q);
    }
  }

  /** Nothing is in a directory that was never made. */
  lemma NothingOfGen(d: Disk, q: Path)
    requires WellFormed(d)
    ensures (q, d.next) !in d.now
  {
    assert Lookup(d.now, (q, d.next)) in Possible(d, (q, d.next));
  }

  lemma MakeDirFiles(p: Plan, d: Disk, i: nat)
    requires InProgress(p, d, i, i) && i < p.Missing()
    ensures SameFiles(p.d0.now, d.now) ==> SameFiles(p.d0.now, MakeDir(d, p.Link(i)).now)
  {
    LinkIsNew(p, d, i);
    LinkIsOld(p, d, i);
    forall q: Path ensures FileAt(MakeDir(d, p.Link(i)).now, q) == FileAt(d.now, q) {
      if q != [] {
        NewDirIsEmpty(d, p.Link(i), Parent(q));
        NothingOfGen(d, q);
      }
    }
  }

  lemma SyncStep(p: Plan, d: Disk, dir: Path, m: nat)
    requires InProgress(p, d, p.Missing(), m + 1) && m <= p.Missing() && p.deep < |p.dest| && dir == p.dest[..p.deep + m]
    ensures AtPoint(p, d) && GenOf(d.now, dir).Some?
    ensures var d' := Disks.Fsync(d, dir, GenOf(d.now, dir).value);
            InProgress(p, d', p.Missing(), m) && AtPoint(p, d') && d'.now == d.now
  {
    hide InProgress, AtPoint, GenOf;
    PointAt(p, d, p.Missing(), m + 1);
    ChainIsThere(p, d, p.Missing(), m + 1, m);
    FsyncStage(p, d, m);
    PointAt(p, Disks.Fsync(d, dir, p.Gen(m)), p.Missing(), m);
  }

  /** Sync the destination's directory, every directory made, and the one they were made in. */
  method SyncChain(dev: Device, chain: seq<Path>, ghost p: Plan) returns (ok: bool)
    requires InProgress(p, dev.disk, p.Missing(), p.Missing() + 1) && FileAt(dev.disk.now, p.dest) == Some(p.file)
    requires IsChain(chain, p)
    modifies dev
    ensures dev.faults >= old(dev.faults) && (ok <==> dev.faults == old(dev.faults))
    ensures ok ==> InProgress(p, dev.disk, p.Missing(), 0)
    ensures AtPoint(p, dev.disk) && FileAt(dev.disk.now, p.dest) == Some(p.file)
    ensures old(dev.trail) <= dev.trail && PointsSince(p, dev.trail, |old(dev.trail)|)
  {
    assert p.deep < |p.dest|;
    hide InProgress, AtPoint, FileAt, GenOf, PointsSince, Disks.Fsync, IsChain;
    ChainLength(chain, p);
    NoneYet(p, dev.trail);
    var k := 0;
    while k < |chain|
      invariant 0 <= k <= |chain|
      invariant InProgress(p, dev.disk, p.Missing(), |chain| - k)
      invariant dev.faults == old(dev.faults) && FileAt(dev.disk.now, p.dest) == Some(p.file)
      invariant old(dev.trail) <= dev.trail && PointsSince(p, dev.trail, |old(dev.trail)|)
    {
      var dir := chain[k];
      ChainAt(chain, p, k);
      SyncStep(p, dev.disk, dir, |chain| - k - 1);
      var g := GenOf(dev.disk.now, dir).value;
      PointsGrow(p, dev.trail, Disks.Fsync(dev.disk, dir, g), |old(dev.trail)|);
      ok := dev.Fsync(dir, g);
      if !ok {
        return;
      }
      k := k + 1;
    }
    PointAt(p, dev.disk, p.Missing(), 0);
    ok := true;
  }

  lemma PlanIsValid(p: Plan)
    requires Durable(p.d0) && p.deep < |p.dest| && GenOf(p.d0.now, p.dest[..p.deep]) == Some(p.g0)
    requires p.deep + 1 < |p.dest| ==> !Exists(p.d0.now, p.dest[..p.deep + 1])
    requires p.deep + 1 == |p.dest| ==> GenOf(p.d0.now, p.dest).None?
    requires p.file.File? && p.file.synced
    ensures p.Valid()
  {
    var next := p.dest[..p.deep + 1];
    assert Parent(next) == p.dest[..p.deep];
    assert p.deep + 1 == |p.dest| ==> next == p.dest;
  }

  /**
   Write a file: stage the chunks, publish them, and drop what was staged. A temporary name is
   left over only if something failed, its own removal included; then the next start sweeps it.
   */
  method WriteAtomic(dev: Device, dest: Path, chunks: seq<Bytes>) returns (ok: bool, leftover: bool)
    requires dest != [] && Durable(dev.disk)
    modifies dev
    ensures ok <==> Unobstructed(old(dev.disk).now, dest) && dev.faults == old(dev.faults)
    ensures ok ==> Does(old(dev.disk), dev.disk, DurableRuns.Commit(dest, Concat(chunks)))
    ensures leftover ==> !ok && dev.faults > old(dev.faults)
    ensures CommitPoint(old(dev.disk), dev.disk, dest, Concat(chunks))
    ensures old(dev.trail) <= dev.trail
    ensures forall i :: |old(dev.trail)| <= i < |dev.trail| ==> CommitPoint(old(dev.disk), dev.trail[i], dest, Concat(chunks))
  {
    hide Durable, Unobstructed, CommitEnds, CommitPoint, FileAt;
    StartPoint(dev.disk, dest, Concat(chunks));
    ok := dev.CallOnTemp();
    if !ok {
      return false, false;
    }
    var staged := new StagedFile();
    assert chunks[..0] == [];
    for i := 0 to |chunks|
      invariant fresh(staged) && staged.Valid() && staged.temp && !staged.committed
      invariant staged.bytes == Concat(chunks[..i])
      invariant dev.disk == old(dev.disk) && dev.trail == old(dev.trail) && dev.faults == old(dev.faults)
    {
      assert chunks[..i + 1][..i] == chunks[..i];
      ok := staged.WriteAll(dev, chunks[i]);
      if !ok {
        staged.Drop(dev);
        return false, staged.temp;
      }
    }
    assert chunks[..|chunks|] == chunks;
    ok := staged.Commit(dev, dest);
    staged.Drop(dev);
    leftover := staged.temp;
  }

  lemma StartPoint(d: Disk, dest: Path, bytes: Bytes)
    ensures CommitPoint(d, d, dest, bytes)
  {
  }

  // ----- deletes -----

  /** Remove the file at `p`; that it is not there is fine. */
  method RemoveIfPresent(dev: Device, p: Path) returns (ok: bool)
    modifies dev
    ensures dev.faults >= old(dev.faults) && (ok <==> dev.faults == old(dev.faults))
    ensures dev.disk == if ok then Taken(old(dev.disk), p) else old(dev.disk)
    ensures dev.trail == old(dev.trail) || dev.trail == old(dev.trail) + [dev.disk]
  {
    if FileAt(dev.disk.now, p).None? {
      return true;
    }
    ok := dev.Remove(CellOf(dev.disk.now, p));
  }

  ghost predicate PrunesSince(x: Disk, trail: seq<Disk>, n: nat, dir: Path) {
    forall i :: n <= i < |trail| ==> Pruning(x, trail[i], dir)
  }

  ghost predicate Pruning(x: Disk, y: Disk, dir: Path) {
    exists k: nat :: Prunes(x, y, dir, k)
  }

  /**
   Remove `dir` and its parents, as far as they are empty, up to but excluding `stop`. Best
   effort: a failure only ends it. `pruned` counts those that went.
   */
  method PruneEmptyDirs(dev: Device, dir: Path, stop: Path) returns (ghost pruned: nat)
    requires stop <= dir
    modifies dev
    ensures dev.faults >= old(dev.faults)
    ensures pruned <= |dir| - |stop| && Prunes(old(dev.disk), dev.disk, dir, pruned)
    ensures pruned < |dir| - |stop| && dev.faults == old(dev.faults) ==> !CanRemove(dev.disk, dir[..|dir| - pruned])
    ensures old(dev.trail) <= dev.trail && PrunesSince(old(dev.disk), dev.trail, |old(dev.trail)|, dir)
  {
    hide Prunes, DurableDelete.NoEntries, GenOf;
    ghost var x := dev.disk;
    pruned := 0;
    assert Prunes(x, x, dir, 0) by { NonePruned(x, dir); }
    var n: nat := |dir|;
    while n > |stop|
      invariant |stop| <= n <= |dir| && pruned == |dir| - n && Prunes(x, dev.disk, dir, pruned)
      invariant dev.faults == old(dev.faults)
      invariant old(dev.trail) <= dev.trail && PrunesSince(x, dev.trail, |old(dev.trail)|, dir)
    {
      var here := dir[..n];
      var g := GenOf(dev.disk.now, here);
      if g.None? || !DurableDelete.NoEntries(dev.disk.now, here, g.value) {
        return;
      }
      HasParent(dev.disk.now, here);
      PrunesMore(x, dev.disk, dir, pruned);
      var ok := dev.Remove(CellOf(dev.disk.now, here));
      if !ok {
        return;
      }
      n := n - 1;
      pruned := pruned + 1;
      assert Pruning(x, dev.disk, dir);
    }
  }

  lemma NonePruned(x: Disk, dir: Path)
    ensures Prunes(x, x, dir, 0)
  {
  }

  lemma HasParent(now: map<Cell, Entry>, p: Path)
    requires p != [] && GenOf(now, p).Some?
    ensures GenOf(now, Parent(p)).Some?
  {
  }

  /** The deepest of `dir` and its parents, down to `stop`, that still exists. */
  method DeepestExisting(now: map<Cell, Entry>, dir: Path, stop: Path) returns (r: Option<nat>)
    requires stop <= dir
    ensures r.Some? ==> |stop| <= r.value <= |dir| && Exists(now, dir[..r.value])
    ensures forall j :: (if r.Some? then r.value else |stop| - 1) < j <= |dir| ==> !Exists(now, dir[..j])
  {
    var n := |dir|;
    while true
      invariant |stop| <= n <= |dir|
      invariant forall j :: n < j <= |dir| ==> !Exists(now, dir[..j])
      decreases n
    {
      if Exists(now, dir[..n]) {
        return Some(n);
      }
      if n == |stop| {
        return None;
      }
      n := n - 1;
    }
  }

  /** Make the removals durable, by syncing the deepest directory that is left. */
  method SyncDeepest(dev: Device, dir: Path, stop: Path, ghost pruned: nat) returns (ok: bool)
    requires stop <= dir && pruned <= |dir| - |stop|
    requires forall j :: 0 < j <= |dir| ==> FileAt(dev.disk.now, dir[..j]).None?
    modifies dev
    ensures dev.faults >= old(dev.faults) && (ok <==> dev.faults == old(dev.faults))
    ensures if ok then SyncsDeepest(old(dev.disk), dev.disk, dir, pruned) else dev.disk == old(dev.disk)
    ensures dev.trail == old(dev.trail) || dev.trail == old(dev.trail) + [dev.disk]
  {
    hide FileAt, GenOf;
    var deepest := DeepestExisting(dev.disk.now, dir, stop);
    if deepest.None? {
      assert NoneFrom(dev.disk.now, dir, |stop|);
      return true;
    }
    var n := deepest.value;
    assert Exists(dev.disk.now, dir[..n]);
    RootIsNoFile(dev.disk.now);
    assert n == 0 ==> dir[..n] == [];
    assert Deepest(dev.disk.now, dir, n);
    ok := dev.Fsync(dir[..n], GenOf(dev.disk.now, dir[..n]).value);
  }

  lemma RootIsNoFile(now: map<Cell, Entry>)
    ensures FileAt(now, []) == None
  {
  }

  /** A point of the delete, by its stage. */
  lemma PointOf(d: Disk, x: Disk, o: ObjectFiles, stage: Stage)
    requires Apart(d, o) && AtStage(d, x, o, stage)
    ensures DeletePoint(d, x, o)
  {
  }

  ghost predicate DeletesSince(d: Disk, trail: seq<Disk>, n: nat, o: ObjectFiles) {
    forall i :: n <= i < |trail| ==> DeletePoint(d, trail[i], o)
  }

  /**
   Remove a key's manifest, then its data, prune, and sync. Names reserved for the two
   files and plain names for directories keep each from standing in the other's place.
   */
  method DeleteObject(dev: Device, o: ObjectFiles, stop: Path) returns (ok: bool)
    requires Apart(dev.disk, o) && stop <= o.dir
    requires forall j :: 0 < j <= |o.dir| ==> FileAt(dev.disk.now, o.dir[..j]).None?
    modifies dev
    ensures dev.faults == old(dev.faults) ==> ok
    ensures ok ==> Does(old(dev.disk), dev.disk, Delete(o))
    ensures DeletePoint(old(dev.disk), dev.disk, o)
    ensures old(dev.trail) <= dev.trail && DeletesSince(old(dev.disk), dev.trail, |old(dev.trail)|, o)
  {
    hide FileAt, GenOf, Prunes, Taken, SyncsDeepest, CanRemove, DeletePoint, Apart;
    ghost var d := dev.disk;
    PointOf(d, d, o, Intact);
    ok := RemoveIfPresent(dev, o.Meta());
    if !ok {
      return;
    }
    PointOf(d, dev.disk, o, ManifestGone);
    ok := RemoveIfPresent(dev, o.Data());
    if !ok {
      return;
    }
    NonePruned(dev.disk, o.dir);
    PointOf(d, dev.disk, o, DataGone(0));
    ghost var x, before := dev.disk, dev.trail;
    ghost var k := PruneEmptyDirs(dev, o.dir, stop);
    PointOf(d, dev.disk, o, DataGone(k));
    PrunesArePoints(d, x, o, dev.trail, |before|);
    forall j | 0 < j <= |o.dir| ensures FileAt(dev.disk.now, o.dir[..j]).None? {
      StillNoFile(d, dev.disk, o, k, o.dir[..j]);
    }
    ok := SyncDeepest(dev, o.dir, stop, k);
    if ok {
      PointOf(d, dev.disk, o, Synced(k));
    }
  }

  lemma PrunesArePoints(d: Disk, x: Disk, o: ObjectFiles, trail: seq<Disk>, n: nat)
    requires Apart(d, o) && x == Unlinked(d, o) && PrunesSince(x, trail, n, o.dir)
    ensures DeletesSince(d, trail, n, o)
  {
    hide Apart, Prunes, Unlinked;
    forall i | n <= i < |trail| ensures DeletePoint(d, trail[i], o) {
      assert Pruning(x, trail[i], o.dir);
      var k: nat :| Prunes(x, trail[i], o.dir, k);
      PointOf(d, trail[i], o, DataGone(k));
    }
  }

  lemma StillNoFile(d: Disk, x: Disk, o: ObjectFiles, k: nat, q: Path)
    requires AtStage(d, x, o, DataGone(k)) && FileAt(d.now, q).None?
    ensures FileAt(x.now, q).None?
  {
    hide FileAt, Prunes, Taken;
    TakenTakes(d, o.Meta(), q);
    TakenTakes(Taken(d, o.Meta()), o.Data(), q);
    PrunesTakes(Unlinked(d, o), x, o.dir, k, q);
  }
}
