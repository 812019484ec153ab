/** Commits, deletes and power losses one after another, on a disk whose reachable entries are durable to begin with. */
module DurableRuns {
  import opened Types
  import opened Disks
  import opened DurableCommit
  import DurableDelete
  import opened DeletePoints

  // ----- what an operation does to a disk -----

  predicate Plans(p: Plan, d: Disk, dest: Path, bytes: Bytes) {
    p.d0 == d && p.dest == dest && p.file == File(bytes, true)
  }

  /** `x` is a state the disk passes through while `bytes` is committed to `dest`. */
  ghost predicate CommitPoint(d: Disk, x: Disk, dest: Path, bytes: Bytes) {
    x == d || exists p :: Plans(p, d, dest, bytes) && AtPoint(p, x)
  }

  ghost predicate AtPoint(p: Plan, x: Disk) {
    exists i: nat, m: nat :: InProgress(p, x, i, m)
  }

  /** A commit ends: the file is in place, and none of its chain of links is left to sync. */
  ghost predicate CommitEnds(d: Disk, d': Disk, dest: Path, bytes: Bytes) {
    exists p :: Plans(p, d, dest, bytes) && InProgress(p, d', p.Missing(), 0) && FileAt(d'.now, dest) == Some(p.file)
  }

  // ----- what that comes to -----

  lemma CommitEndMeans(d: Disk, d': Disk, dest: Path, bytes: Bytes)
    requires CommitEnds(d, d', dest, bytes)
    ensures Durable(d') && FileAt(d'.now, dest) == Some(File(bytes, true))
    ensures forall q :: q != dest ==> FileAt(d'.now, q) == FileAt(d.now, q)
  {
    hide InProgress, FileAt, Durable;
    var p :| Plans(p, d, dest, bytes) && InProgress(p, d', p.Missing(), 0) && FileAt(d'.now, dest) == Some(p.file);
    CommitIsDurable(p, d');
    IsValid(p, d', p.Missing(), 0);
    forall q: Path ensures q != p.dest ==> FileAt(d'.now, q) == FileAt(d.now, q) {
      OutcomeFiles(p, d'.now, q);
    }
  }

  lemma IsValid(p: Plan, d: Disk, i: nat, m: nat)
    requires InProgress(p, d, i, m)
    ensures p.Valid() && p.Covers(d) && WellFormed(d)
  {
  }

  /**
   After a power loss at any point of a commit the disk is durable, the destination is old, or new
   and whole, and all else is as it was.
   */
  lemma LostCommit(d: Disk, x: Disk, d': Disk, dest: Path, bytes: Bytes)
    requires Durable(d) && CommitPoint(d, x, dest, bytes) && CrashesTo(x, d')
    ensures Durable(d') && forall q :: q != dest ==> FileAt(d'.now, q) == FileAt(d.now, q)
    ensures FileAt(d'.now, dest) == FileAt(d.now, dest) || FileAt(d'.now, dest) == Some(File(bytes, true))
  {
    hide InProgress, FileAt, Durable, CrashesTo;
    if x == d {
      DurableDelete.RestSurvives(d, d');
    } else {
      var p :| Plans(p, d, dest, bytes) && AtPoint(p, x);
      var i: nat, m: nat :| InProgress(p, x, i, m);
      IsValid(p, x, i, m);
      CrashIsDurable(x, d');
      CrashIsOutcome(p, x, d');
      forall q: Path ensures q != p.dest ==> FileAt(d'.now, q) == FileAt(d.now, q) {
        OutcomeFiles(p, d'.now, q);
      }
      OutcomeFiles(p, d'.now, dest);
    }
  }

  // ----- runs -----

  /**
   One entry of a serial history: an acknowledged commit or delete, a power loss at rest, or one at
   some point of an operation.
   */
  datatype Deed =
    | Commit(dest: Path, bytes: Bytes)
    | Delete(files: ObjectFiles)
    | PowerLoss
    | CommitLost(dest: Path, bytes: Bytes)
    | DeleteLost(files: ObjectFiles)

  ghost predicate Does(d: Disk, d': Disk, deed: Deed) {
    match deed
    case Commit(dest, bytes) => CommitEnds(d, d', dest, bytes)
    case Delete(o) => DeleteEnds(d, d', o)
    case PowerLoss => CrashesTo(d, d')
    case CommitLost(dest, bytes) => exists x :: CommitPoint(d, x, dest, bytes) && CrashesTo(x, d')
    case DeleteLost(o) => exists x :: DeletePoint(d, x, o) && CrashesTo(x, d')
  }

  /** `deeds` take the disk, durable at first, through `disks`. */
  ghost predicate Run(disks: seq<Disk>, deeds: seq<Deed>) {
    && |disks| == |deeds| + 1 && Durable(disks[0])
    && forall k :: 0 <= k < |deeds| ==> Does(disks[k], disks[k + 1], deeds[k])
  }

  predicate Touches(deed: Deed, q: Path) {
    match deed
    case Commit(dest, _) => q == dest
    case CommitLost(dest, _) => q == dest
    case PowerLoss => false
    case Delete(o) => o.Holds(q)
    case DeleteLost(o) => o.Holds(q)
  }

  predicate Acknowledged(deed: Deed) {
    deed.Commit? || deed.Delete?
  }

  /** What a deed leaves at a file it touches. */
  predicate Makes(before: Option<Entry>, after: Option<Entry>, deed: Deed) {
    match deed
    case Commit(_, bytes) => after == Some(File(bytes, true))
    case CommitLost(_, bytes) => after == before || after == Some(File(bytes, true))
    case PowerLoss => after == before
    case Delete(_) => after == None
    case DeleteLost(_) => after == before || after == None
  }

  /** Every deed keeps the disk durable, and changes only the files it touches, to what it should. */
  lemma DeedMeans(d: Disk, d': Disk, deed: Deed, q: Path)
    requires Durable(d) && Does(d, d', deed)
    ensures Durable(d')
    ensures if Touches(deed, q) then Makes(FileAt(d.now, q), FileAt(d'.now, q), deed) else FileAt(d'.now, q) == FileAt(d.now, q)
  {
    hide FileAt, Durable, CommitEnds, CommitPoint, DeleteEnds, AtStage, Apart, CrashesTo;
    match deed {
      case Commit(dest, bytes) => CommitEndMeans(d, d', dest, bytes);
      case Delete(o) => DeleteEndMeans(d, d', o);
      case PowerLoss => DurableDelete.RestSurvives(d, d');
      case CommitLost(dest, bytes) =>
        var x :| CommitPoint(d, x, dest, bytes) && CrashesTo(x, d');
        LostCommit(d, x, d', dest, bytes);
      case DeleteLost(o) =>
        var x :| DeletePoint(d, x, o) && CrashesTo(x, d');
        var stage :| AtStage(d, x, o, stage);
        LostDelete(d, x, d', o, stage);
    }
  }

  /** In every run of commits, deletes and power losses the disk is durable after each. */
  lemma {:induction false} RunsStayDurable(disks: seq<Disk>, deeds: seq<Deed>, k: nat)
    requires Run(disks, deeds) && k <= |deeds|
    ensures Durable(disks[k])
  {
    hide Durable, Does;
    if k > 0 {
      RunsStayDurable(disks, deeds, k - 1);
      assert Does(disks[k - 1], disks[k - 1 + 1], deeds[k - 1]);
      DeedMeans(disks[k - 1], disks[k], deeds[k - 1], []);
    }
  }

  /**
   In every such run, what an acknowledged commit or delete did to a file holds, power losses
   and all, until a later deed touches that file.
   */
  lemma {:induction false} AcknowledgedIsDurable(disks: seq<Disk>, deeds: seq<Deed>, i: nat, k: nat, q: Path)
    requires Run(disks, deeds) && i < k <= |deeds| && Acknowledged(deeds[i]) && Touches(deeds[i], q)
    requires forall j :: i < j < k ==> !Touches(deeds[j], q)
    ensures FileAt(disks[k].now, q) == if deeds[i].Commit? then Some(File(deeds[i].bytes, true)) else None
    decreases k
  {
    hide Durable, Does, FileAt;
    RunsStayDurable(disks, deeds, k - 1);
    assert Does(disks[k - 1], disks[k - 1 + 1], deeds[k - 1]);
    DeedMeans(disks[k - 1], disks[k], deeds[k - 1], q);
    if i < k - 1 {
      AcknowledgedIsDurable(disks, deeds, i, k - 1, q);
    }
  }

  predicate Writes(deed: Deed, q: Path, f: Entry) {
    (deed.Commit? || deed.CommitLost?) && deed.dest == q && f == File(deed.bytes, true)
  }

  /** No power loss makes anything up: every file in a run was there at first, or is the whole of what some commit to it wrote. */
  lemma {:induction false} FilesAreWhole(disks: seq<Disk>, deeds: seq<Deed>, k: nat, q: Path)
    requires Run(disks, deeds) && k <= |deeds| && FileAt(disks[k].now, q).Some?
    ensures FileAt(disks[0].now, q) == FileAt(disks[k].now, q)
            || exists j :: 0 <= j < k && Writes(deeds[j], q, FileAt(disks[k].now, q).value)
  {
    hide Durable, Does, FileAt;
    if k > 0 {
      RunsStayDurable(disks, deeds, k - 1);
      assert Does(disks[k - 1], disks[k - 1 + 1], deeds[k - 1]);
      DeedMeans(disks[k - 1], disks[k], deeds[k - 1], q);
      if FileAt(disks[k].now, q) == FileAt(disks[k - 1].now, q) {
        FilesAreWhole(disks, deeds, k - 1, q);
      } else {
        assert Writes(deeds[k - 1], q, FileAt(disks[k].now, q).value);
      }
    }
  }

  // ----- the two files of one key -----

  /** A put commits its data, then its manifest; it ends, or the power fails at some point of either. */
  ghost predicate PutLeaves(d: Disk, d': Disk, data: Path, bytes: Bytes, meta: Path, json: Bytes) {
    || Does(d, d', CommitLost(data, bytes))
    || exists m :: Does(d, m, Commit(data, bytes)) && (Does(m, d', Commit(meta, json)) || Does(m, d', CommitLost(meta, json)))
  }

  /** No power loss leaves a put's new manifest over old or missing data; old over new is all that can come apart. */
  lemma PutUnderPowerLoss(d: Disk, d': Disk, data: Path, bytes: Bytes, meta: Path, json: Bytes)
    requires Durable(d) && data != meta && PutLeaves(d, d', data, bytes, meta, json)
    ensures Durable(d')
    ensures var file, manifest := FileAt(d'.now, data), FileAt(d'.now, meta);
            || (manifest == FileAt(d.now, meta) && (file == FileAt(d.now, data) || file == Some(File(bytes, true))))
            || (manifest == Some(File(json, true)) && file == Some(File(bytes, true)))
  {
    hide Durable, FileAt, Does;
    if Does(d, d', CommitLost(data, bytes)) {
      DeedMeans(d, d', CommitLost(data, bytes), data);
      DeedMeans(d, d', CommitLost(data, bytes), meta);
    } else {
      var m :| Does(d, m, Commit(data, bytes)) && (Does(m, d', Commit(meta, json)) || Does(m, d', CommitLost(meta, json)));
      DeedMeans(d, m, Commit(data, bytes), data);
      DeedMeans(d, m, Commit(data, bytes), meta);
      var last := if Does(m, d', Commit(meta, json)) then Commit(meta, json) else CommitLost(meta, json);
      DeedMeans(m, d', last, data);
      DeedMeans(m, d', last, meta);
    }
  }
}
