/**
 What becomes of a request left alone, with no failing call: whether it succeeds, and what it then
 leaves of the whole tree, for every request and every tree the engine can have got to.
 */
module PublicationAlone {
  import opened Types
  import opened LockTable
  import opened Publication
  import opened PublicationLog
  import opened PublicationInvariant
  import opened PublicationSafety
  import opened PublicationBuckets
  import opened PublicationProgress
  import Meta

  // ----- what a request asks for -----

  /** `dir` is the key's directory or on the way to it, `objects/` included. */
  predicate OnWay(op: Op, dir: Slot) {
    dir.0 == op.bucket && dir.1 <= op.key
  }

  /** The first `n` directories on the way. */
  function Way(op: Op, n: nat): set<Slot>
    requires n <= |op.key| + 1
  {
    set j | 0 <= j < n :: (op.bucket, op.key[..j])
  }

  /** Apart from the key's own files and the next directory on the way to it, `dir` is there and empty. */
  ghost predicate Bare(fs: Fs, op: Op, dir: Slot) {
    && dir in fs.dirs
    && (dir != op.Slot() ==> dir !in fs.manifests && dir !in fs.data)
    && forall d {:trigger ParentOf(d)} :: d in fs.dirs && d != dir && ParentOf(d) == dir ==> OnWay(op, d)
  }

  /** So is everything below it on the way. */
  ghost predicate BareFrom(fs: Fs, op: Op, n: nat) {
    forall i :: n <= i <= |op.key| ==> Bare(fs, op, (op.bucket, op.key[..i]))
  }

  /** The directories a delete leaves: all but those on the way, below `objects/`, that it empties. */
  ghost predicate Pruned(fs: Fs, dirs: set<Slot>, op: Op) {
    forall d :: d in dirs <==> d in fs.dirs && !(OnWay(op, d) && d.1 != [] && BareFrom(fs, op, |d.1|))
  }

  /** `fs'` is what the request makes of `fs`: this, and nothing else at all. */
  ghost predicate Makes(fs: Fs, fs': Fs, t: TaskId, op: Op) {
    var slot := op.Slot();
    match op.kind
    case Put =>
      && slot in fs'.manifests && Records(fs'.manifests[slot], op)
      && fs' == fs.(dirs := fs.dirs + Way(op, |op.key| + 1),
                    manifests := fs.manifests[slot := fs'.manifests[slot]],
                    data := fs.data[slot := Concat(op.chunks)],
                    tmp := fs.tmp - {t})
    case Delete =>
      && Pruned(fs, fs'.dirs, op)
      && fs' == fs.(dirs := fs'.dirs, manifests := fs.manifests - {slot}, data := fs.data - {slot})
    case Create => fs' == fs.(buckets := fs.buckets + {op.bucket})
    case DeleteBucket => fs' == fs.(buckets := fs.buckets - {op.bucket}, dirs := set d | d in fs.dirs && d.0 != op.bucket)
    case List => fs' == fs
  }

  /** The request succeeded, and did what it should, if it could; and otherwise failed and did nothing. */
  ghost predicate Answered(fs: Fs, fs': Fs, t: TaskId, task: Task) {
    if Ready(fs, task.op) then task.progress.Complete? && Makes(fs, fs', t, task.op)
    else task.progress.Before? && fs' == fs
  }

  // ----- on the way there -----

  /** The tree is as it was, but for the task's own staged file. */
  predicate Staged(fs: Fs, fs': Fs, t: TaskId) {
    fs'.tmp - {t} == fs.tmp - {t} && fs' == fs.(tmp := fs'.tmp)
  }

  /** The directories on the way with `n` or more components are gone. */
  function Cut(fs: Fs, op: Op, n: nat): set<Slot> {
    set d | d in fs.dirs && !(OnWay(op, d) && |d.1| >= n)
  }

  /** How many of the bucket, `objects/` and the directories on the way to the key a put has made sure of. */
  function Made(task: Task): nat {
    if task.pc.MakeDirs? && task.pc.depth < |task.op.key| + 2 then task.pc.depth else |task.op.key| + 2
  }

  function WithDirs(fs: Fs, task: Task): Fs {
    fs.(dirs := fs.dirs + if Made(task) == 0 then {} else Way(task.op, Made(task) - 1))
  }

  ghost predicate PutAlong(fs: Fs, fs': Fs, t: TaskId, task: Task) {
    var op, slot := task.op, task.op.Slot();
    && Ready(fs, op)
    && match task.pc
       case Recheck => Staged(fs, fs', t)
       case MakeDirs(_) => Staged(WithDirs(fs, task), fs', t)
       case RenameData => Staged(WithDirs(fs, task), fs', t)
       case LoadManifest => fs' == WithDirs(fs, task).(data := fs.data[slot := op.Body()], tmp := fs.tmp - {t})
       case StoreManifest(_) => fs' == WithDirs(fs, task).(data := fs.data[slot := op.Body()], tmp := fs.tmp - {t})
       case _ => Makes(fs, fs', t, op)
  }

  ghost predicate DeleteAlong(fs: Fs, fs': Fs, task: Task) {
    var op, slot := task.op, task.op.Slot();
    && Ready(fs, op)
    && match task.pc
       case UnlinkManifest => fs' == fs
       case UnlinkData => fs' == fs.(manifests := fs.manifests - {slot})
       case Prune(n) =>
         && BareFrom(fs, op, n + 1)
         && fs' == fs.(manifests := fs.manifests - {slot}, data := fs.data - {slot}, dirs := Cut(fs, op, n + 1))
       case _ =>
         && Pruned(fs, fs'.dirs, op)
         && fs' == fs.(manifests := fs.manifests - {slot}, data := fs.data - {slot}, dirs := fs'.dirs)
  }

  ghost predicate BucketAlong(fs: Fs, fs': Fs, task: Task) {
    var op := task.op;
    match task.pc
    case BucketMeta => Ready(fs, op) && fs' == fs.(buckets := fs.buckets + {op.bucket})
    case SyncCreate => Ready(fs, op) && fs' == fs.(buckets := fs.buckets + {op.bucket})
    case UndoCreate => false
    case RemoveTree => Ready(fs, op) && fs' == fs
    case RemoveBucket => Ready(fs, op) && fs' == fs.(dirs := set d | d in fs.dirs && d.0 != op.bucket)
    case SyncDeleteBucket =>
      Ready(fs, op) && fs' == fs.(buckets := fs.buckets - {op.bucket}, dirs := set d | d in fs.dirs && d.0 != op.bucket)
    case _ => fs' == fs
  }

  /** Where a request that started from `fs`, and is alone, has got to. */
  ghost predicate Along(fs: Fs, fs': Fs, t: TaskId, task: Task) {
    if task.pc.Start? then fs' == fs
    else if task.pc.Stage? || TakesLocks(task.pc) then
      && (if task.op.kind.Put? then Staged(fs, fs', t) else fs' == fs)
      && (task.op.OnKey() ==> Ready(fs, task.op))
    else if IsPutPc(task.pc) then PutAlong(fs, fs', t, task)
    else if IsDeletePc(task.pc) then DeleteAlong(fs, fs', task)
    else if IsBucketPc(task.pc) then BucketAlong(fs, fs', task)
    else Answered(fs, fs', t, task)
  }

  predicate TakesLocks(pc: Pc) {
    pc.WantBucket? || pc.WaitBucket? || pc.WantKey? || pc.WaitKey?
  }

  lemma StageAlong(fs: Fs, fs': Fs, t: TaskId, task: Task)
    requires TaskOk(task) && ViewOk(fs', t, task) && Along(fs, fs', t, task) && IsStagePc(task.pc)
    ensures var e := StageStep(fs', t, task, true); Along(fs, e.fs, t, e.task)
  {
    hide BucketOk, KeyOk, BareTree, Makes;
  }

  lemma WayGrows(op: Op, n: nat)
    requires n <= |op.key|
    ensures Way(op, n + 1) == Way(op, n) + {(op.bucket, op.key[..n])} && Way(op, 0) == {}
  {
  }

  lemma MakeDirsAlong(fs: Fs, fs': Fs, t: TaskId, task: Task)
    requires TaskOk(task) && PutAlong(fs, fs', t, task) && task.pc.MakeDirs?
    ensures var e := MakeDirsStep(fs', t, task, true, task.pc.depth); PutAlong(fs, e.fs, t, e.task) && IsPutPc(e.task.pc)
  {
    hide Makes, Way;
    var op, n := task.op, task.pc.depth;
    if n == 0 {
      assert fs'.buckets + {op.bucket} == fs'.buckets;
      WayGrows(op, 0);
    } else if n <= |op.key| + 1 {
      WayGrows(op, n - 1);
      if n > 1 {
        assert op.key[..n - 1][..n - 2] == op.key[..n - 2];
        WayGrows(op, n - 2);
      }
    }
  }

  lemma WayEnds(op: Op)
    ensures op.Slot() in Way(op, |op.key| + 1)
  {
    assert op.key[..|op.key|] == op.key;
  }

  lemma RenameAlong(fs: Fs, fs': Fs, t: TaskId, task: Task)
    requires TaskOk(task) && ViewOk(fs', t, task) && PutAlong(fs, fs', t, task) && task.pc.RenameData?
    ensures var e := PutStep(fs', t, task, true); PutAlong(fs, e.fs, t, e.task) && IsPutPc(e.task.pc)
  {
    hide Way, Ready, Makes, MakeDirsStep, BucketOk, KeyOk;
    WayEnds(task.op);
  }

  lemma StoreAlong(fs: Fs, fs': Fs, t: TaskId, task: Task)
    requires TaskOk(task) && FsOk(fs') && ViewOk(fs', t, task) && PutAlong(fs, fs', t, task) && task.pc.StoreManifest?
    ensures var e := PutStep(fs', t, task, true); PutAlong(fs, e.fs, t, e.task) && IsPutPc(e.task.pc)
  {
    hide Way, Ready, MakeDirsStep, Meta.Upserted, Records, FsOk, StagedOk, BucketOk;
    WayEnds(task.op);
    StoredHistory(fs', task);
    EntryRecords([task.op.Entry()], task.op);
  }

  lemma PutStepAlong(fs: Fs, fs': Fs, t: TaskId, task: Task)
    requires TaskOk(task) && FsOk(fs') && ViewOk(fs', t, task) && PutAlong(fs, fs', t, task) && IsPutPc(task.pc)
    ensures var e := PutStep(fs', t, task, true); Along(fs, e.fs, t, e.task)
  {
    hide MakeDirsStep, Meta.Upserted, Makes, BareTree, FsOk, ViewOk, Way;
    match task.pc {
      case MakeDirs(_) => MakeDirsAlong(fs, fs', t, task);
      case RenameData => RenameAlong(fs, fs', t, task);
      case StoreManifest(_) => StoreAlong(fs, fs', t, task);
      case _ =>
    }
  }

  /** A directory on the way goes exactly if it is bare, once those below it have gone. */
  lemma PruneIsExact(fs: Fs, fs': Fs, op: Op, n: nat)
    requires 0 < n <= |op.key|
    requires fs' == fs.(manifests := fs.manifests - {op.Slot()}, data := fs.data - {op.Slot()}, dirs := Cut(fs, op, n + 1))
    ensures var dir := (op.bucket, op.key[..n]);
            && (dir in fs'.dirs && Childless(fs', dir) <==> Bare(fs, op, dir))
            && Cut(fs, op, n + 1) - {dir} == Cut(fs, op, n)
  {
    var dir := (op.bucket, op.key[..n]);
    forall d | d in fs.dirs && d != dir && ParentOf(d) == dir ensures d in fs'.dirs <==> !OnWay(op, d) {
      assert d.1 != [] && |ParentOf(d).1| == n;
    }
    forall d: Slot | OnWay(op, d) && |d.1| == n ensures d == dir {
      assert d.1 == op.key[..n];
    }
  }

  lemma PrunedAt(fs: Fs, op: Op, n: nat)
    requires n <= |op.key| && BareFrom(fs, op, n + 1)
    requires n == 0 || !Bare(fs, op, (op.bucket, op.key[..n]))
    ensures Pruned(fs, Cut(fs, op, n + 1), op)
  {
    hide Bare;
    forall d | d in fs.dirs && OnWay(op, d) && d.1 != []
      ensures |d.1| >= n + 1 <==> BareFrom(fs, op, |d.1|)
    {
    }
  }

  lemma PruneStepAlong(fs: Fs, fs': Fs, task: Task)
    requires TaskOk(task) && DeleteAlong(fs, fs', task) && task.pc.Prune?
    ensures var e := DeleteStep(fs', task, true); DeleteAlong(fs, e.fs, e.task) && IsDeletePc(e.task.pc)
  {
    hide Childless, Bare, Pruned, Cut, BareTree;
    var op, n := task.op, task.pc.depth;
    if n > 0 {
      PruneIsExact(fs, fs', op, n);
    }
    if n == 0 || !Bare(fs, op, (op.bucket, op.key[..n])) {
      PrunedAt(fs, op, n);
    }
  }

  lemma NothingCut(fs: Fs, op: Op)
    ensures Cut(fs, op, |op.key| + 1) == fs.dirs
  {
  }

  lemma DeleteStepAlong(fs: Fs, fs': Fs, t: TaskId, task: Task)
    requires TaskOk(task) && DeleteAlong(fs, fs', task) && IsDeletePc(task.pc)
    ensures var e := DeleteStep(fs', task, true); Along(fs, e.fs, t, e.task)
  {
    hide Childless, Bare, Pruned, Cut, BareTree;
    if task.pc.Prune? {
      PruneStepAlong(fs, fs', task);
    } else if task.pc.UnlinkData? {
      NothingCut(fs, task.op);
    }
  }

  lemma EntryIsTree(fs: Fs, b: Bucket)
    requires FsOk(fs)
    ensures HasAnyEntry(fs, b) <==> !BareTree(fs, b)
  {
    if !HasAnyEntry(fs, b) {
      NoEntryNoTree(fs, b);
    }
  }

  lemma TreeRemoved(fs: Fs, b: Bucket)
    requires FsOk(fs) && BareTree(fs, b)
    ensures WithoutBucketTree(fs, b) == fs.(dirs := set d | d in fs.dirs && d.0 != b)
  {
    BareRemoval(fs, b);
  }

  predicate DeletesBucket(pc: Pc) {
    pc.CheckEmpty? || pc.RemoveTree? || pc.RemoveBucket? || pc.SyncDeleteBucket?
  }

  lemma DeleteBucketAlong(fs: Fs, fs': Fs, t: TaskId, task: Task)
    requires task.op.kind.DeleteBucket? && task.progress.Before? && FsOk(fs')
    requires BucketAlong(fs, fs', task) && DeletesBucket(task.pc)
    ensures var e := BucketStep(fs', task, true);
            if e.task.pc.UnlockBucket? then Answered(fs, e.fs, t, e.task)
            else IsBucketPc(e.task.pc) && BucketAlong(fs, e.fs, e.task)
  {
    hide FsOk, HasAnyEntry, BareTree, WithoutBucketTree;
    if task.pc.CheckEmpty? {
      EntryIsTree(fs', task.op.bucket);
    } else if task.pc.RemoveTree? {
      TreeRemoved(fs', task.op.bucket);
    }
  }

  lemma BucketStepAlong(fs: Fs, fs': Fs, t: TaskId, task: Task)
    requires TaskOk(task) && FsOk(fs') && BucketAlong(fs, fs', task) && IsBucketPc(task.pc)
    ensures var e := BucketStep(fs', task, true); Along(fs, e.fs, t, e.task)
  {
    hide FsOk, HasAnyEntry, BareTree, WithoutBucketTree;
    if DeletesBucket(task.pc) {
      hide BucketAlong, Answered, BucketStep;
      DeleteBucketAlong(fs, fs', t, task);
    }
  }

  lemma FsStepAlong(fs: Fs, fs': Fs, t: TaskId, task: Task)
    requires TaskOk(task) && FsOk(fs') && ViewOk(fs', t, task)
    requires Along(fs, fs', t, task) && !IsLockPc(task.pc) && !task.pc.Finished?
    ensures var e := FsStep(fs', t, task, true); Along(fs, e.fs, t, e.task)
  {
    hide TaskOk, FsOk, ViewOk, StageStep, PutStep, DeleteStep, BucketStep, PutAlong, DeleteAlong, BucketAlong, Answered,
      Ready;
    if IsStagePc(task.pc) {
      StageAlong(fs, fs', t, task);
    } else if IsPutPc(task.pc) {
      PutStepAlong(fs, fs', t, task);
    } else if IsDeletePc(task.pc) {
      DeleteStepAlong(fs, fs', t, task);
    } else {
      BucketStepAlong(fs, fs', t, task);
    }
  }

  lemma LockStepAlong(fs: Fs, fs': Fs, t: TaskId, task: Task)
    requires TaskOk(task) && Along(fs, fs', t, task) && IsLockPc(task.pc)
    ensures Along(fs, fs', t, task.(pc := AfterLockStep(task.op, task.pc)))
  {
    hide BareTree, Makes;
  }

  // ----- runs -----

  ghost predicate Alone(s: State, t: TaskId) {
    forall u: TaskId :: u != t ==> !Unfinished(s, u)
  }

  /** A run of `t`'s own steps, none of them failing, that leaves all other tasks as they are. */
  ghost predicate SoloRun(s: State, steps: seq<Step>, t: TaskId) {
    && Legal(s, steps) && (forall i :: 0 <= i < |steps| ==> steps[i] == Go(t, true))
    && t < |s.tasks| && Undisturbed(s, After(s, steps), t)
  }

  predicate Undisturbed(s: State, s': State, t: TaskId) {
    && |s'.tasks| == |s.tasks| && s'.up == s.up
    && (forall u: TaskId :: u < |s.tasks| && u != t ==> s'.tasks[u] == s.tasks[u])
    && (t < |s.tasks| ==> s'.tasks[t].op == s.tasks[t].op && s'.tasks[t].alive == s.tasks[t].alive)
  }

  lemma StepAlong(fs: Fs, s: State, t: TaskId)
    requires Inv(s) && CanGo(s, t) && Along(fs, s.fs, t, s.tasks[t])
    ensures var s' := GoStep(s, t, true);
            Undisturbed(s, s', t) && Along(fs, s'.fs, t, s'.tasks[t]) && Rank(s'.tasks[t]) < Rank(s.tasks[t])
  {
    hide LocksOk, FsOk, SlotsOk, EventsOk, DownOk, TaskOk, ViewOk, Along, FsStep, BucketLockStep, KeyLockStep,
      AfterLockStep, Rank, Record;
    var task := s.tasks[t];
    assert TaskOk(task) && ViewOk(s.fs, t, task);
    if IsLockPc(task.pc) {
      LockStepAlong(fs, s.fs, t, task);
      LockStepRanksDown(task);
    } else {
      FsStepAlong(fs, s.fs, t, task);
      FsStepRanksDown(s.fs, t, task, true);
      FsStepProceeds(s.fs, t, task, true);
    }
  }

  lemma GoesAlone(s: State, t: TaskId)
    requires Inv(s) && Unfinished(s, t) && Alone(s, t)
    ensures CanGo(s, t)
  {
    hide LocksOk, TasksOk, ViewsOk, FsOk, SlotsOk, EventsOk, DownOk;
    var u := SomeoneGoes(s, t);
    assert Unfinished(s, u);
  }

  lemma StaysAlone(s: State, s': State, t: TaskId)
    requires Alone(s, t) && Undisturbed(s, s', t)
    ensures Alone(s', t)
  {
    forall u: TaskId | u != t ensures !Unfinished(s', u) {
      assert !Unfinished(s, u);
    }
  }

  lemma SoloStep(s: State, t: TaskId, rest: seq<Step>)
    requires t < |s.tasks| && CanGo(s, t) && Undisturbed(s, GoStep(s, t, true), t) && SoloRun(GoStep(s, t, true), rest, t)
    ensures SoloRun(s, [Go(t, true)] + rest, t) && After(s, [Go(t, true)] + rest) == After(GoStep(s, t, true), rest)
  {
    hide GoStep, CanGo;
    var steps := [Go(t, true)] + rest;
    assert steps[1..] == rest;
  }

  lemma {:induction false} FinishesAlong(fs: Fs, s: State, t: TaskId) returns (steps: seq<Step>)
    requires Inv(s) && t < |s.tasks| && s.tasks[t].alive && Alone(s, t) && Along(fs, s.fs, t, s.tasks[t])
    ensures SoloRun(s, steps, t)
    ensures var s' := After(s, steps); s'.tasks[t].pc.Finished?
    decreases Rank(s.tasks[t])
  {
    hide Inv, GoStep, Rank, CanGo, Alone, Along;
    if s.tasks[t].pc.Finished? {
      return [];
    }
    GoesAlone(s, t);
    StepAlong(fs, s, t);
    StepKeepsInv(s, Go(t, true));
    StaysAlone(s, GoStep(s, t, true), t);
    var rest := FinishesAlong(fs, GoStep(s, t, true), t);
    SoloStep(s, t, rest);
    steps := [Go(t, true)] + rest;
  }

  lemma {:induction false} RunAlong(fs: Fs, s: State, t: TaskId, steps: seq<Step>)
    requires Inv(s) && t < |s.tasks| && Along(fs, s.fs, t, s.tasks[t])
    requires Legal(s, steps) && forall i :: 0 <= i < |steps| ==> steps[i] == Go(t, true)
    ensures var s' := After(s, steps); Undisturbed(s, s', t) && Along(fs, s'.fs, t, s'.tasks[t])
    decreases |steps|
  {
    hide Inv, GoStep, CanGo, Along;
    if steps != [] {
      StepAlong(fs, s, t);
      StepKeepsInv(s, Go(t, true));
      RunAlong(fs, GoStep(s, t, true), t, steps[1..]);
    }
  }

  /** A request that found what it needs in `fs`, and has been alone since. */
  ghost predicate OnTrack(fs: Fs, s: State, t: TaskId) {
    t < |s.tasks| && s.tasks[t].alive && Alone(s, t) && Ready(fs, s.tasks[t].op) && Along(fs, s.fs, t, s.tasks[t])
  }

  /** A request about to start, with no other about. */
  ghost predicate Starting(s: State, t: TaskId) {
    Reachable(s) && Unfinished(s, t) && Alone(s, t) && s.tasks[t].pc == FirstPc(s.tasks[t].op)
  }

  lemma StartsAlong(s: State, t: TaskId)
    requires Inv(s) && t < |s.tasks| && s.tasks[t].pc == FirstPc(s.tasks[t].op)
    ensures Along(s.fs, s.fs, t, s.tasks[t])
  {
    hide LocksOk, ViewsOk, FsOk, SlotsOk, EventsOk, DownOk;
    assert TaskOk(s.tasks[t]);
  }

  /** A request left alone gets to its end. */
  lemma EndsAlone(s: State, t: TaskId) returns (steps: seq<Step>)
    requires Starting(s, t)
    ensures SoloRun(s, steps, t) && After(s, steps).tasks[t].pc.Finished?
  {
    hide Inv, Along, Alone, Reachable;
    ReachableInv(s);
    StartsAlong(s, t);
    steps := FinishesAlong(s.fs, s, t);
  }

  /**
   And there it has succeeded exactly if it found what it needs: an object request and a listing
   their bucket, a creation its name free, a bucket deletion its bucket with no directory of any key
   in it. Then the tree is what it should make of it, and otherwise exactly what it was.
   */
  lemma AnswersAlone(s: State, t: TaskId, steps: seq<Step>)
    requires Starting(s, t) && Legal(s, steps) && forall i :: 0 <= i < |steps| ==> steps[i] == Go(t, true)
    requires t < |After(s, steps).tasks| && After(s, steps).tasks[t].pc.Finished?
    ensures var s', op := After(s, steps), s.tasks[t].op;
            && (s'.tasks[t].progress.Complete? <==> Ready(s.fs, op))
            && (if Ready(s.fs, op) then Makes(s.fs, s'.fs, t, op) else s'.fs == s.fs)
  {
    hide Inv, Alone, Reachable, Makes, Ready;
    ReachableInv(s);
    StartsAlong(s, t);
    RunAlong(s.fs, s, t, steps);
  }
}
