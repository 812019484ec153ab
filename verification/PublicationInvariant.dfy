/**
 The inductive invariant of the publication protocol, kept by every step of every task,
 by cancellation, and by a kill at any point.
 */
module PublicationInvariant {
  import opened Types
  import opened LockTable
  import opened Publication
  import opened PublicationLog
  import Meta

  // ----- what each task is entitled to -----

  function BucketPhase(task: Task): Option<Phase> {
    if !task.alive then None
    else match task.pc
      case Start => None
      case Stage(_) => None
      case WantBucket => None
      case Finished => None
      case WaitBucket => Some(Waiting)
      case DropBucketClone => Some(Unlocked)
      case RemoveBucketEntry => Some(Dropped)
      case _ => Some(Held)
  }

  function KeyPhase(task: Task): Option<Phase> {
    if !task.alive then None
    else if task.pc.WaitKey? then Some(Waiting)
    else if task.pc.DropKeyClone? then Some(Unlocked)
    else if task.pc.RemoveKeyEntry? then Some(Dropped)
    else if task.pc.UnlockKey? || IsPutPc(task.pc) || IsDeletePc(task.pc) then Some(Held)
    else None
  }

  ghost predicate RefFits<K(!new)>(tab: Table<K>, t: TaskId, phase: Option<Phase>, key: K, exclusive: bool) {
    && (t in tab.refs <==> phase.Some?)
    && (t in tab.refs ==> var r := tab.refs[t]; r.phase == phase.value && r.key == key && r.exclusive == exclusive)
  }

  ghost predicate BucketRefFits(s: State, t: TaskId)
    requires t < |s.tasks|
  {
    var task := s.tasks[t];
    RefFits(s.bucketLocks, t, BucketPhase(task), task.op.bucket, task.op.Exclusive())
  }

  ghost predicate KeyRefFits(s: State, t: TaskId)
    requires t < |s.tasks|
  {
    var task := s.tasks[t];
    RefFits(s.keyLocks, t, KeyPhase(task), task.op.Slot(), true)
  }

  ghost predicate LocksFit(s: State) {
    && (forall t: TaskId :: t < |s.tasks| ==> BucketRefFits(s, t))
    && (forall t: TaskId :: t < |s.tasks| ==> KeyRefFits(s, t))
    && (forall t :: t in s.bucketLocks.refs ==> t < |s.tasks|)
    && (forall t :: t in s.keyLocks.refs ==> t < |s.tasks|)
  }

  ghost predicate LocksOk(s: State) {
    && LocksFit(s)
    && Valid(s.bucketLocks) && Valid(s.keyLocks)
    && Exact(s.bucketLocks) && Exact(s.keyLocks)
  }

  // ----- what each task knows by itself -----

  predicate PcFits(op: Op, pc: Pc) {
    && (pc.Start? ==> op.OnKey())
    && (pc.Stage? ==> op.kind.Put? && pc.written <= |op.chunks|)
    && (IsKeyLockPc(pc) ==> op.OnKey())
    && (IsPutPc(pc) ==> op.kind.Put?)
    && (pc.MakeDirs? ==> pc.depth <= |op.key| + 2)
    && (IsDeletePc(pc) ==> op.kind.Delete?)
    && (pc.Prune? ==> pc.depth <= |op.key|)
    && (pc.MakeBucket? || pc.BucketMeta? || pc.UndoCreate? || pc.SyncCreate? ==> op.kind.Create?)
    && (pc.CheckEmpty? || pc.RemoveTree? || pc.RemoveBucket? || pc.SyncDeleteBucket? ==> op.kind.DeleteBucket?)
    && (pc.Walk? ==> op.kind.List?)
  }

  predicate ProgressFits(pc: Pc, progress: Progress) {
    match pc
    case LoadManifest => progress.Gap?
    case StoreManifest(_) => progress.Gap?
    case UnlinkData => progress.Gap?
    case SyncPut => progress.Published?
    case Prune(_) => progress.Published?
    case SyncDelete => progress.Published?
    case UnlockKey => true
    case DropKeyClone => true
    case RemoveKeyEntry => true
    case UnlockBucket => true
    case DropBucketClone => true
    case RemoveBucketEntry => true
    case Finished => true
    case _ => progress.Before?
  }

  predicate TaskOk(task: Task) {
    && task.op.WellFormed()
    && PcFits(task.op, task.pc)
    && ProgressFits(task.pc, task.progress)
    && (!task.op.OnKey() ==> task.progress.Before? || task.progress.Complete?)
  }

  // ----- what a task knows of the filesystem -----

  /** Before its data rename, a put's staged file holds what it has streamed so far. */
  predicate StagedOk(fs: Fs, t: TaskId, task: Task) {
    && (task.pc.Stage? && task.pc.written <= |task.op.chunks| ==> Lookup(fs.tmp, t) == Some(Concat(task.op.chunks[..task.pc.written])))
    && (task.op.kind.Put? && BodyStaged(task.pc) ==> Lookup(fs.tmp, t) == Some(task.op.Body()))
  }

  /** While it holds the bucket lock, a task may rely on what it found of the bucket. */
  predicate BucketOk(fs: Fs, task: Task) {
    && (ReliesOnBucket(task.pc) ==> task.op.bucket in fs.buckets)
    && (task.pc.SyncDeleteBucket? ==> task.op.bucket !in fs.buckets)
    && (task.pc.BucketMeta? || task.pc.UndoCreate? || task.pc.RemoveBucket? ==> NoTree(fs, task.op.bucket))
    && (task.pc.RemoveTree? ==> BareTree(fs, task.op.bucket))
  }

  predicate ReliesOnBucket(pc: Pc) {
    || (IsPutPc(pc) && !pc.Recheck?)
    || pc.BucketMeta? || pc.UndoCreate? || pc.SyncCreate?
    || pc.RemoveTree? || pc.RemoveBucket?
  }

  predicate NoTree(fs: Fs, b: Bucket) {
    forall d :: d in fs.dirs ==> d.0 != b
  }

  predicate BareTree(fs: Fs, b: Bucket) {
    forall d :: d in fs.dirs && d.0 == b ==> d.1 == []
  }

  /** While it holds the key lock, a task finds the key as it left it. */
  predicate KeyOk(fs: Fs, task: Task) {
    var man, data := Lookup(fs.manifests, task.op.Slot()), Lookup(fs.data, task.op.Slot());
    match task.pc
    case LoadManifest => data == Some(task.op.Body())
    case StoreManifest(found) => data == Some(task.op.Body()) && found == man
    case SyncPut => data == Some(task.op.Body()) && man == Some([task.op.Entry()])
    case UnlinkData => man.None?
    case Prune(_) => man.None? && data.None?
    case SyncDelete => man.None? && data.None?
    case _ => true
  }

  /** A task's view of the filesystem. */
  predicate ViewOk(fs: Fs, t: TaskId, task: Task) {
    StagedOk(fs, t, task) && BucketOk(fs, task) && KeyOk(fs, task)
  }

  ghost predicate TasksOk(s: State) {
    forall t: TaskId :: t < |s.tasks| ==> TaskOk(s.tasks[t])
  }

  ghost predicate ViewsOk(s: State) {
    forall t: TaskId :: t < |s.tasks| && s.tasks[t].alive ==> ViewOk(s.fs, t, s.tasks[t])
  }

  // ----- what is true of the tree -----

  predicate FsOk(fs: Fs) {
    && (forall d :: d in fs.dirs ==> d.0 in fs.buckets)
    && (forall d {:trigger ParentOf(d)} :: d in fs.dirs ==> ParentOf(d) in fs.dirs)
    && (forall k :: k in fs.manifests ==> k in fs.dirs && k.1 != [] && OneVersion(fs.manifests[k]))
    && (forall k :: k in fs.data ==> k in fs.dirs && k.1 != [])
  }

  function ContentOf(fs: Fs, k: Slot): Content {
    Content(Lookup(fs.manifests, k), Lookup(fs.data, k))
  }

  predicate OneVersion(h: seq<VersionEntry>) {
    |h| == 1 && h[0].versionId == NULL_VERSION_ID && !h[0].deleteMarker
  }

  /** Every event is some task's, and the last on a key says how far that task got. */
  ghost predicate EventsOk(s: State) {
    forall e :: e in s.log ==>
      && e.op.OnKey() && !e.progress.Before?
      && e.task < |s.tasks| && s.tasks[e.task].op == e.op
  }

  ghost predicate LastOk(s: State, k: Slot) {
    var last := LastOf(s.log, k);
    last.Some? ==>
      && last.value.task < |s.tasks| && s.tasks[last.value.task].op == last.value.op
      && last.value.op.OnKey() && s.tasks[last.value.task].progress == last.value.progress
  }

  /** A key's files are exactly what the visible steps so far make them. */
  ghost predicate SlotOk(s: State, k: Slot) {
    ContentOf(s.fs, k) == Story(s.log, k) && LastOk(s, k)
  }

  ghost predicate SlotsOk(s: State) {
    forall k: Slot :: SlotOk(s, k)
  }

  /** While the process is down no task is running. */
  ghost predicate DownOk(s: State) {
    !s.up ==> forall t: TaskId :: t < |s.tasks| ==> !s.tasks[t].alive
  }

  ghost predicate Inv(s: State) {
    LocksOk(s) && TasksOk(s) && ViewsOk(s) && FsOk(s.fs) && SlotsOk(s) && EventsOk(s) && DownOk(s)
  }

  // ----- exclusion, in terms of tasks -----

  lemma KeyHoldersDiffer(s: State, t: TaskId, u: TaskId)
    requires LocksOk(s) && t < |s.tasks| && u < |s.tasks| && t != u
    requires KeyPhase(s.tasks[t]) == Some(Held) && KeyPhase(s.tasks[u]) == Some(Held)
    ensures s.tasks[t].op.Slot() != s.tasks[u].op.Slot()
  {
    assert KeyRefFits(s, t) && KeyRefFits(s, u);
    assert !BothHold(s.keyLocks.refs[t], s.keyLocks.refs[u]);
  }

  lemma BucketHoldersShare(s: State, t: TaskId, u: TaskId)
    requires LocksOk(s) && t < |s.tasks| && u < |s.tasks| && t != u
    requires BucketPhase(s.tasks[t]) == Some(Held) && BucketPhase(s.tasks[u]) == Some(Held)
    requires s.tasks[t].op.bucket == s.tasks[u].op.bucket
    ensures !s.tasks[t].op.Exclusive() && !s.tasks[u].op.Exclusive()
  {
    assert BucketRefFits(s, t) && BucketRefFits(s, u);
    assert BothHold(s.bucketLocks.refs[t], s.bucketLocks.refs[u]);
  }

  lemma RefsFit(s: State, t: TaskId)
    requires LocksFit(s) && t < |s.tasks|
    ensures BucketRefFits(s, t) && KeyRefFits(s, t)
  {
  }

  /** Only task `t`'s own row changes, in a way that its new phases match. */
  lemma LocksFitAfter(s: State, s': State, t: TaskId)
    requires LocksFit(s) && t < |s.tasks| == |s'.tasks|
    requires forall u: TaskId :: u < |s.tasks| && u != t ==> s'.tasks[u] == s.tasks[u]
    requires s'.bucketLocks.refs - {t} == s.bucketLocks.refs - {t}
    requires s'.keyLocks.refs - {t} == s.keyLocks.refs - {t}
    requires BucketRefFits(s', t) && KeyRefFits(s', t)
    ensures LocksFit(s')
  {
    forall u: TaskId | u < |s.tasks| ensures BucketRefFits(s', u) && KeyRefFits(s', u) {
      if u != t {
        assert BucketRefFits(s, u) && KeyRefFits(s, u);
        assert u in s'.bucketLocks.refs <==> u in s'.bucketLocks.refs - {t};
        assert u in s.bucketLocks.refs <==> u in s.bucketLocks.refs - {t};
        assert u in s'.keyLocks.refs <==> u in s'.keyLocks.refs - {t};
        assert u in s.keyLocks.refs <==> u in s.keyLocks.refs - {t};
        assert u in s.bucketLocks.refs ==> (s'.bucketLocks.refs - {t})[u] == (s.bucketLocks.refs - {t})[u];
        assert u in s.keyLocks.refs ==> (s'.keyLocks.refs - {t})[u] == (s.keyLocks.refs - {t})[u];
      }
    }
    forall u | u in s'.bucketLocks.refs ensures u < |s'.tasks| {
      assert u == t || u in s'.bucketLocks.refs - {t};
    }
    forall u | u in s'.keyLocks.refs ensures u < |s'.tasks| {
      assert u == t || u in s'.keyLocks.refs - {t};
    }
  }

  // ----- each task's own row under each step -----

  predicate SamePhases(task: Task, task': Task) {
    BucketPhase(task') == BucketPhase(task) && KeyPhase(task') == KeyPhase(task)
  }

  /** A filesystem step leaves the task the same request, fit for its new place, with the same claims to locks. */
  predicate Proceeds(task: Task, task': Task) {
    task'.op == task.op && task'.alive == task.alive && TaskOk(task') && SamePhases(task, task')
  }

  lemma StageProceeds(fs: Fs, t: TaskId, task: Task, io: bool)
    requires TaskOk(task) && IsStagePc(task.pc)
    ensures Proceeds(task, StageStep(fs, t, task, io).task)
  {
  }

  lemma PutProceeds(fs: Fs, t: TaskId, task: Task, io: bool)
    requires TaskOk(task) && IsPutPc(task.pc)
    ensures Proceeds(task, PutStep(fs, t, task, io).task)
  {
  }

  lemma DeleteProceeds(fs: Fs, task: Task, io: bool)
    requires TaskOk(task) && IsDeletePc(task.pc)
    ensures Proceeds(task, DeleteStep(fs, task, io).task)
  {
    hide Childless;
  }

  predicate IsBucketPc(pc: Pc) {
    !IsStagePc(pc) && !IsLockPc(pc) && !IsPutPc(pc) && !IsDeletePc(pc) && !pc.Finished?
  }

  lemma BucketProceeds(fs: Fs, task: Task, io: bool)
    requires TaskOk(task) && IsBucketPc(task.pc)
    ensures Proceeds(task, BucketStep(fs, task, io).task)
  {
    hide WithoutBucketTree, HasAnyEntry;
  }

  lemma FsStepProceeds(fs: Fs, t: TaskId, task: Task, io: bool)
    requires TaskOk(task) && !IsLockPc(task.pc) && !task.pc.Finished?
    ensures Proceeds(task, FsStep(fs, t, task, io).task)
  {
    hide Proceeds, TaskOk, StageStep, PutStep, DeleteStep, BucketStep;
    if IsStagePc(task.pc) {
      StageProceeds(fs, t, task, io);
    } else if IsPutPc(task.pc) {
      PutProceeds(fs, t, task, io);
    } else if IsDeletePc(task.pc) {
      DeleteProceeds(fs, task, io);
    } else {
      BucketProceeds(fs, task, io);
    }
  }

  lemma LockStepTask(task: Task)
    requires TaskOk(task) && IsLockPc(task.pc)
    ensures TaskOk(task.(pc := AfterLockStep(task.op, task.pc)))
  {
  }

  lemma GoKeepsTasks(s: State, t: TaskId, io: bool)
    requires TasksOk(s) && CanGo(s, t)
    ensures TasksOk(GoStep(s, t, io))
  {
    hide TaskOk, FsStep, BucketLockStep, KeyLockStep;
    var task := s.tasks[t];
    assert TaskOk(task);
    if IsLockPc(task.pc) {
      LockStepTask(task);
    } else {
      FsStepProceeds(s.fs, t, task, io);
    }
  }

  // ----- the locks under each step -----

  /** The table stays in order, and nobody else's row of it changes. */
  ghost predicate TableMoves<K(!new)>(tab: Table<K>, tab': Table<K>, t: TaskId) {
    Valid(tab') && (Exact(tab) ==> Exact(tab')) && tab'.refs - {t} == tab.refs - {t}
  }

  lemma BucketTableMoves(tab: Table<Bucket>, t: TaskId, task: Task)
    requires Valid(tab) && RefFits(tab, t, BucketPhase(task), task.op.bucket, task.op.Exclusive())
    requires task.alive && IsBucketLockPc(task.pc) && (task.pc.WaitBucket? ==> CanGrant(tab, t))
    ensures var tab' := BucketLockStep(tab, t, task);
            && TableMoves(tab, tab', t)
            && RefFits(tab', t, BucketPhase(task.(pc := AfterLockStep(task.op, task.pc))), task.op.bucket, task.op.Exclusive())
  {
    hide Valid, Exact, CanGrant;
    match task.pc {
      case WantBucket => EnterKeeps(tab, t, task.op.bucket, task.op.Exclusive());
      case WaitBucket => SetPhaseKeeps(tab, t, Held);
      case UnlockBucket => SetPhaseKeeps(tab, t, Unlocked);
      case DropBucketClone => SetPhaseKeeps(tab, t, Dropped);
      case RemoveBucketEntry => RemoveIfKeeps(tab, t);
    }
  }

  lemma KeyTableMoves(tab: Table<Slot>, t: TaskId, task: Task)
    requires Valid(tab) && RefFits(tab, t, KeyPhase(task), task.op.Slot(), true)
    requires task.alive && IsKeyLockPc(task.pc) && (task.pc.WaitKey? ==> CanGrant(tab, t))
    ensures var tab' := KeyLockStep(tab, t, task);
            && TableMoves(tab, tab', t)
            && RefFits(tab', t, KeyPhase(task.(pc := AfterLockStep(task.op, task.pc))), task.op.Slot(), true)
  {
    hide Valid, Exact, CanGrant;
    match task.pc {
      case WantKey => EnterKeeps(tab, t, task.op.Slot(), true);
      case WaitKey => SetPhaseKeeps(tab, t, Held);
      case UnlockKey => SetPhaseKeeps(tab, t, Unlocked);
      case DropKeyClone => SetPhaseKeeps(tab, t, Dropped);
      case RemoveKeyEntry => RemoveIfKeeps(tab, t);
    }
  }

  lemma GoKeepsLocks(s: State, t: TaskId, io: bool)
    requires LocksOk(s) && CanGo(s, t) && TaskOk(s.tasks[t])
    ensures LocksOk(GoStep(s, t, io))
  {
    hide Valid, Exact, TaskOk, FsStep, BucketLockStep, KeyLockStep, CanGrant, LocksFit, Record;
    var task := s.tasks[t];
    RefsFit(s, t);
    if IsBucketLockPc(task.pc) {
      BucketTableMoves(s.bucketLocks, t, task);
    } else if IsKeyLockPc(task.pc) {
      KeyTableMoves(s.keyLocks, t, task);
    } else {
      FsStepProceeds(s.fs, t, task, io);
    }
    LocksFitAfter(s, GoStep(s, t, io), t);
  }

  lemma CancelMoves<K(!new)>(tab: Table<K>, t: TaskId, key: K, exclusive: bool)
    requires Valid(tab) && RefFits(tab, t, Some(Waiting), key, exclusive)
    ensures TableMoves(tab, Cancel(tab, t), t) && RefFits(Cancel(tab, t), t, None, key, exclusive)
  {
    hide Valid, Exact;
    CancelKeeps(tab, t);
  }

  lemma GiveUpKeepsLocks(s: State, t: TaskId)
    requires LocksOk(s) && TasksOk(s) && Enabled(s, GiveUp(t))
    ensures LocksOk(GiveUpStep(s, t))
  {
    hide Valid, Exact, LocksFit, Cancel;
    RefsFit(s, t);
    var op := s.tasks[t].op;
    if s.tasks[t].pc.WaitBucket? {
      CancelMoves(s.bucketLocks, t, op.bucket, op.Exclusive());
    } else {
      CancelMoves(s.keyLocks, t, op.Slot(), true);
    }
    LocksFitAfter(s, GiveUpStep(s, t), t);
  }

  lemma KillKeepsLocks(s: State)
    ensures LocksOk(KillStep(s))
  {
  }

  lemma BeginKeepsLocks(s: State, op: Op)
    requires LocksOk(s) && Enabled(s, Begin(op))
    ensures LocksOk(Do(s, Begin(op)))
  {
    var s' := Do(s, Begin(op));
    forall u: TaskId | u < |s'.tasks| ensures BucketRefFits(s', u) && KeyRefFits(s', u) {
      if u < |s.tasks| {
        assert BucketRefFits(s, u) && KeyRefFits(s, u);
      }
    }
  }

  // ----- what a filesystem step may touch -----

  /**
   Only the task's own staged file, its own key while it holds the key lock, its own
   bucket's directories while it holds the bucket lock, and its own bucket's existence
   while it holds that exclusively.
   */
  ghost predicate Touches(fs: Fs, fs': Fs, t: TaskId, task: Task) {
    && fs'.tmp - {t} == fs.tmp - {t}
    && (forall k: Slot :: k != task.op.Slot() || KeyPhase(task) != Some(Held) ==> ContentOf(fs', k) == ContentOf(fs, k))
    && (forall d: Slot :: d.0 != task.op.bucket || BucketPhase(task) != Some(Held) ==> (d in fs'.dirs <==> d in fs.dirs))
    && (forall b: Bucket :: b != task.op.bucket || !task.op.Exclusive() || BucketPhase(task) != Some(Held) ==>
          (b in fs'.buckets <==> b in fs.buckets))
  }

  /** Either nothing visible happened to the key, or the operation's next visible step did, or it succeeded. */
  predicate Publishes(fs: Fs, task: Task, e: Effect) {
    var before, after := ContentOf(fs, task.op.Slot()), ContentOf(e.fs, task.op.Slot());
    match e.task.progress
    case Before => task.progress.Before? && after == before
    case Gap => if task.progress.Gap? then after == before else task.progress.Before? && after == HalfWay(task.op, before)
    case Published => if task.progress.Published? then after == before else task.progress.Gap? && after == Left(task.op)
    case Complete => after == before && (task.progress.Complete? || (task.progress.Published? && after == Left(task.op)))
  }

  ghost predicate EffectOk(fs: Fs, t: TaskId, task: Task, e: Effect) {
    && Touches(fs, e.fs, t, task)
    && FsOk(e.fs)
    && ViewOk(e.fs, t, e.task)
    && (task.op.OnKey() ==> Publishes(fs, task, e))
  }

  lemma Untouched(fs: Fs, t: TaskId, task: Task)
    ensures Touches(fs, fs, t, task)
  {
  }

  lemma TmpTouches(fs: Fs, tmp: map<TaskId, Bytes>, t: TaskId, task: Task)
    requires FsOk(fs) && tmp - {t} == fs.tmp - {t}
    ensures Touches(fs, fs.(tmp := tmp), t, task) && FsOk(fs.(tmp := tmp))
  {
  }

  lemma DirTouches(fs: Fs, dirs: set<Slot>, dir: Slot, t: TaskId, task: Task)
    requires dirs == fs.dirs + {dir} || dirs == fs.dirs - {dir}
    requires dir.0 == task.op.bucket && BucketPhase(task) == Some(Held)
    ensures Touches(fs, fs.(dirs := dirs), t, task)
  {
  }

  lemma StageEffect(fs: Fs, t: TaskId, task: Task, io: bool)
    requires TaskOk(task) && task.alive && FsOk(fs) && ViewOk(fs, t, task) && IsStagePc(task.pc)
    ensures EffectOk(fs, t, task, StageStep(fs, t, task, io))
  {
    hide FsOk, Touches;
    var e := StageStep(fs, t, task, io);
    TmpTouches(fs, e.fs.tmp, t, task);
    assert e.fs == fs.(tmp := e.fs.tmp);
    if task.pc.Stage? {
      var op, n := task.op, task.pc.written;
      if n < |op.chunks| {
        assert op.chunks[..n + 1][..n] == op.chunks[..n];
      } else {
        assert op.chunks[..n] == op.chunks;
      }
    }
  }

  lemma MkdirKeepsTree(fs: Fs, dir: Slot)
    requires FsOk(fs) && dir.0 in fs.buckets && (dir.1 == [] || ParentOf(dir) in fs.dirs)
    ensures FsOk(fs.(dirs := fs.dirs + {dir}))
  {
  }

  lemma MakeDirsEffect(fs: Fs, t: TaskId, task: Task, io: bool)
    requires TaskOk(task) && task.alive && FsOk(fs) && ViewOk(fs, t, task) && task.pc.MakeDirs?
    ensures EffectOk(fs, t, task, MakeDirsStep(fs, t, task, io, task.pc.depth))
  {
    hide FsOk, Touches;
    var op, n := task.op, task.pc.depth;
    Untouched(fs, t, task);
    if !io {
      TmpTouches(fs, fs.tmp - {t}, t, task);
    } else if n == 0 {
      assert fs.buckets + {op.bucket} == fs.buckets;
    } else if n <= |op.key| + 1 {
      var dir := (op.bucket, op.key[..n - 1]);
      if n > 1 {
        assert op.key[..n - 1][..n - 2] == op.key[..n - 2];
      }
      TmpTouches(fs, fs.tmp - {t}, t, task);
      if dir !in fs.dirs && (n == 1 || ParentOf(dir) in fs.dirs) {
        MkdirKeepsTree(fs, dir);
        DirTouches(fs, fs.dirs + {dir}, dir, t, task);
      }
    }
  }

  lemma RenameEffect(fs: Fs, t: TaskId, task: Task, io: bool)
    requires TaskOk(task) && task.alive && FsOk(fs) && ViewOk(fs, t, task) && task.pc.RenameData?
    ensures EffectOk(fs, t, task, PutStep(fs, t, task, io))
  {
  }

  lemma StoreTouches(fs: Fs, t: TaskId, task: Task, h: seq<VersionEntry>)
    requires FsOk(fs) && task.alive && task.pc.StoreManifest? && OneVersion(h)
    requires task.op.Slot() in fs.dirs && task.op.key != []
    ensures var fs' := fs.(manifests := fs.manifests[task.op.Slot() := h]);
            Touches(fs, fs', t, task) && FsOk(fs')
  {
  }

  lemma StoredHistory(fs: Fs, task: Task)
    requires FsOk(fs) && KeyOk(fs, task) && task.pc.StoreManifest?
    ensures Meta.Upserted(if task.pc.found.Some? then task.pc.found.value else [], task.op.Entry()) == [task.op.Entry()]
  {
    var found := task.pc.found;
    Meta.UpsertReplaces(if found.Some? then found.value else [], task.op.Entry());
  }

  lemma StoreEffect(fs: Fs, t: TaskId, task: Task, io: bool)
    requires TaskOk(task) && task.alive && FsOk(fs) && ViewOk(fs, t, task) && task.pc.StoreManifest?
    ensures EffectOk(fs, t, task, PutStep(fs, t, task, io))
  {
    hide Meta.Upserted, Touches, FsOk;
    StoredHistory(fs, task);
    if io && task.op.Slot() in fs.dirs {
      StoreTouches(fs, t, task, [task.op.Entry()]);
    } else {
      Untouched(fs, t, task);
    }
  }

  lemma PutReadEffect(fs: Fs, t: TaskId, task: Task, io: bool)
    requires TaskOk(task) && task.alive && FsOk(fs) && ViewOk(fs, t, task)
    requires task.pc.Recheck? || task.pc.LoadManifest? || task.pc.SyncPut?
    ensures EffectOk(fs, t, task, PutStep(fs, t, task, io))
  {
    hide FsOk, Touches, MakeDirsStep, Meta.Upserted;
    var e := PutStep(fs, t, task, io);
    TmpTouches(fs, e.fs.tmp, t, task);
    assert e.fs == fs.(tmp := e.fs.tmp);
  }

  lemma PutEffect(fs: Fs, t: TaskId, task: Task, io: bool)
    requires TaskOk(task) && task.alive && FsOk(fs) && ViewOk(fs, t, task) && IsPutPc(task.pc)
    ensures EffectOk(fs, t, task, PutStep(fs, t, task, io))
  {
    hide MakeDirsStep, Meta.Upserted, TaskOk, FsOk, ViewOk, EffectOk;
    match task.pc {
      case MakeDirs(_) => MakeDirsEffect(fs, t, task, io);
      case RenameData => RenameEffect(fs, t, task, io);
      case StoreManifest(_) => StoreEffect(fs, t, task, io);
      case _ => PutReadEffect(fs, t, task, io);
    }
  }

  lemma RmdirKeepsTree(fs: Fs, dir: Slot)
    requires FsOk(fs) && Childless(fs, dir)
    ensures FsOk(fs.(dirs := fs.dirs - {dir}))
  {
  }

  lemma PruneEffect(fs: Fs, t: TaskId, task: Task, io: bool)
    requires TaskOk(task) && task.alive && FsOk(fs) && ViewOk(fs, t, task) && task.pc.Prune?
    ensures EffectOk(fs, t, task, DeleteStep(fs, task, io))
  {
    hide FsOk, Touches, Childless;
    Untouched(fs, t, task);
    var dir := (task.op.bucket, task.op.key[..task.pc.depth]);
    if Childless(fs, dir) {
      RmdirKeepsTree(fs, dir);
      DirTouches(fs, fs.dirs - {dir}, dir, t, task);
    }
  }

  lemma UnlinkManifestTouches(fs: Fs, t: TaskId, task: Task)
    requires FsOk(fs) && task.alive && task.pc.UnlinkManifest?
    ensures var fs' := fs.(manifests := fs.manifests - {task.op.Slot()}); Touches(fs, fs', t, task) && FsOk(fs')
  {
  }

  lemma UnlinkDataTouches(fs: Fs, t: TaskId, task: Task)
    requires FsOk(fs) && task.alive && task.pc.UnlinkData?
    ensures var fs' := fs.(data := fs.data - {task.op.Slot()}); Touches(fs, fs', t, task) && FsOk(fs')
  {
  }

  lemma UnlinkEffect(fs: Fs, t: TaskId, task: Task, io: bool)
    requires TaskOk(task) && task.alive && FsOk(fs) && ViewOk(fs, t, task) && IsDeletePc(task.pc) && !task.pc.Prune?
    ensures EffectOk(fs, t, task, DeleteStep(fs, task, io))
  {
    hide Childless, Touches, FsOk;
    if io && task.pc.UnlinkManifest? {
      UnlinkManifestTouches(fs, t, task);
    } else if io && task.pc.UnlinkData? {
      UnlinkDataTouches(fs, t, task);
    } else {
      Untouched(fs, t, task);
    }
  }

  lemma DeleteEffect(fs: Fs, t: TaskId, task: Task, io: bool)
    requires TaskOk(task) && task.alive && FsOk(fs) && ViewOk(fs, t, task) && IsDeletePc(task.pc)
    ensures EffectOk(fs, t, task, DeleteStep(fs, task, io))
  {
    hide *;
    if task.pc.Prune? {
      PruneEffect(fs, t, task, io);
    } else {
      UnlinkEffect(fs, t, task, io);
    }
  }

  lemma {:induction false} RootOf(fs: Fs, d: Slot)
    requires FsOk(fs) && d in fs.dirs && d.1 != []
    ensures (d.0, d.1[..1]) in fs.dirs
    decreases |d.1|
  {
    if |d.1| > 1 {
      var up := ParentOf(d);
      RootOf(fs, up);
      assert up.1[..1] == d.1[..1];
    } else {
      assert d.1[..1] == d.1;
    }
  }

  /** An empty `objects/` means no directory of any key, however deep. */
  lemma NoEntryNoTree(fs: Fs, b: Bucket)
    requires FsOk(fs) && !HasAnyEntry(fs, b)
    ensures BareTree(fs, b)
  {
    forall d | d in fs.dirs && d.0 == b ensures d.1 == [] {
      if d.1 != [] {
        RootOf(fs, d);
        assert false;
      }
    }
  }

  lemma NoTreeIsBare(fs: Fs, b: Bucket)
    requires NoTree(fs, b)
    ensures BareTree(fs, b)
  {
  }

  /** Removing a tree with no key directories removes no file. */
  lemma BareRemoval(fs: Fs, b: Bucket)
    requires FsOk(fs) && BareTree(fs, b)
    ensures var fs' := WithoutBucketTree(fs, b);
            && fs'.manifests == fs.manifests && fs'.data == fs.data && fs'.tmp == fs.tmp && fs'.buckets == fs.buckets
            && (forall d :: d in fs'.dirs ==> d in fs.dirs)
            && (forall d :: d in fs.dirs && d.0 != b ==> d in fs'.dirs)
            && FsOk(fs') && NoTree(fs', b)
  {
    assert forall k :: k in fs.manifests ==> k.0 != b;
    assert forall k :: k in fs.data ==> k.0 != b;
  }

  lemma BucketTouches(fs: Fs, fs': Fs, t: TaskId, task: Task)
    requires fs'.tmp == fs.tmp && fs'.manifests == fs.manifests && fs'.data == fs.data
    requires task.op.Exclusive() && BucketPhase(task) == Some(Held)
    requires forall d :: d in fs'.dirs ==> d in fs.dirs
    requires forall d :: d in fs.dirs && d.0 != task.op.bucket ==> d in fs'.dirs
    requires fs'.buckets - {task.op.bucket} == fs.buckets - {task.op.bucket}
    ensures Touches(fs, fs', t, task)
  {
    forall b: Bucket | b != task.op.bucket ensures b in fs'.buckets <==> b in fs.buckets {
      assert b in fs'.buckets <==> b in fs'.buckets - {task.op.bucket};
      assert b in fs.buckets <==> b in fs.buckets - {task.op.bucket};
    }
  }

  lemma BucketsKeepTree(fs: Fs, b: Bucket)
    requires FsOk(fs)
    ensures FsOk(fs.(buckets := fs.buckets + {b}))
    ensures NoTree(fs, b) ==> FsOk(fs.(buckets := fs.buckets - {b}))
  {
  }

  /** A bucket that does not exist has no tree. */
  lemma NoBucketNoTree(fs: Fs, b: Bucket)
    requires FsOk(fs) && b !in fs.buckets
    ensures NoTree(fs.(buckets := fs.buckets + {b}), b)
  {
  }

  lemma BucketEffect(fs: Fs, t: TaskId, task: Task, io: bool)
    requires TaskOk(task) && task.alive && FsOk(fs) && ViewOk(fs, t, task) && IsBucketPc(task.pc)
    ensures EffectOk(fs, t, task, BucketStep(fs, task, io))
  {
    hide FsOk, Touches, HasAnyEntry, WithoutBucketTree, NoTree, BareTree;
    var b, fs' := task.op.bucket, BucketStep(fs, task, io).fs;
    Untouched(fs, t, task);
    BucketsKeepTree(fs, b);
    match task.pc {
      case MakeBucket => if b !in fs.buckets { NoBucketNoTree(fs, b); }
      case CheckEmpty => if !HasAnyEntry(fs, b) { NoEntryNoTree(fs, b); }
      case RemoveTree => BareRemoval(fs, b);
      case UndoCreate =>
        NoTreeIsBare(fs, b);
        BareRemoval(fs, b);
        BucketsKeepTree(WithoutBucketTree(fs, b), b);
      case _ =>
    }
    if fs' != fs {
      BucketTouches(fs, fs', t, task);
    }
  }

  lemma FsStepEffect(fs: Fs, t: TaskId, task: Task, io: bool)
    requires TaskOk(task) && task.alive && FsOk(fs) && ViewOk(fs, t, task) && !IsLockPc(task.pc) && !task.pc.Finished?
    ensures EffectOk(fs, t, task, FsStep(fs, t, task, io))
  {
    hide TaskOk, FsOk, ViewOk, EffectOk, StageStep, PutStep, DeleteStep, BucketStep;
    if IsStagePc(task.pc) {
      StageEffect(fs, t, task, io);
    } else if IsPutPc(task.pc) {
      PutEffect(fs, t, task, io);
    } else if IsDeletePc(task.pc) {
      DeleteEffect(fs, t, task, io);
    } else {
      BucketEffect(fs, t, task, io);
    }
  }

  // ----- other tasks' views -----

  lemma OtherStaged(fs: Fs, fs': Fs, t: TaskId, u: TaskId, task: Task)
    requires StagedOk(fs, u, task) && t != u && fs'.tmp - {t} == fs.tmp - {t}
    ensures StagedOk(fs', u, task)
  {
    assert u in fs'.tmp <==> u in fs'.tmp - {t};
    assert u in fs.tmp <==> u in fs.tmp - {t};
    assert u in fs.tmp ==> (fs'.tmp - {t})[u] == (fs.tmp - {t})[u];
  }

  lemma OtherKey(s: State, fs': Fs, t: TaskId, u: TaskId)
    requires LocksOk(s) && t < |s.tasks| && u < |s.tasks| && t != u && s.tasks[u].alive
    requires Touches(s.fs, fs', t, s.tasks[t]) && KeyOk(s.fs, s.tasks[u])
    ensures KeyOk(fs', s.tasks[u])
  {
    hide LocksOk;
    var slot := s.tasks[u].op.Slot();
    if KeyPhase(s.tasks[u]) == Some(Held) && KeyPhase(s.tasks[t]) == Some(Held) {
      KeyHoldersDiffer(s, t, u);
    }
    assert KeyPhase(s.tasks[u]) == Some(Held) ==> ContentOf(fs', slot) == ContentOf(s.fs, slot);
  }

  lemma OtherBucket(s: State, fs': Fs, t: TaskId, u: TaskId)
    requires LocksOk(s) && t < |s.tasks| && u < |s.tasks| && t != u && s.tasks[u].alive
    requires TaskOk(s.tasks[u])
    requires Touches(s.fs, fs', t, s.tasks[t]) && BucketOk(s.fs, s.tasks[u])
    ensures BucketOk(fs', s.tasks[u])
  {
    hide LocksOk, ContentOf;
    var b := s.tasks[u].op.bucket;
    if BucketPhase(s.tasks[u]) == Some(Held) && BucketPhase(s.tasks[t]) == Some(Held) && s.tasks[t].op.bucket == b {
      BucketHoldersShare(s, t, u);
    }
  }

  lemma OtherView(s: State, fs': Fs, t: TaskId, u: TaskId)
    requires LocksOk(s) && t < |s.tasks| && u < |s.tasks| && t != u && s.tasks[u].alive
    requires TaskOk(s.tasks[u]) && ViewOk(s.fs, u, s.tasks[u])
    requires Touches(s.fs, fs', t, s.tasks[t])
    ensures ViewOk(fs', u, s.tasks[u])
  {
    hide LocksOk, TaskOk, BucketOk, KeyOk, StagedOk, ContentOf;
    OtherStaged(s.fs, fs', t, u, s.tasks[u]);
    OtherKey(s, fs', t, u);
    OtherBucket(s, fs', t, u);
  }

  // ----- the keys -----

  lemma LastIsEvent(log: seq<Event>, e: Event, k: Slot)
    ensures LastOf(log + [e], k) == if e.op.Slot() == k then Some(e) else LastOf(log, k)
    ensures Story(log + [e], k) ==
              if e.op.Slot() != k then Story(log, k) else if e.progress.Gap? then HalfWay(e.op, Story(log, k)) else Left(e.op)
  {
    assert (log + [e])[..|log|] == log;
  }

  /** A task whose step is nothing to `k`, or shows nothing of it, leaves the story of `k` as it was. */
  lemma SlotElsewhere(s: State, s': State, t: TaskId, k: Slot)
    requires SlotOk(s, k) && ContentOf(s'.fs, k) == ContentOf(s.fs, k)
    requires t < |s.tasks| == |s'.tasks| && s'.tasks == s.tasks[t := s'.tasks[t]] && s'.tasks[t].op == s.tasks[t].op
    requires !s.tasks[t].op.OnKey() || s.tasks[t].op.Slot() != k || s'.tasks[t].progress == s.tasks[t].progress
    requires s'.log == Record(s.log, t, s.tasks[t], s'.tasks[t])
    ensures SlotOk(s', k)
  {
    LastIsEvent(s.log, Event(t, s.tasks[t].op, s'.tasks[t].progress), k);
  }

  /** A step that takes its operation further is the next chapter of its key's story. */
  lemma SlotPublished(s: State, s': State, t: TaskId)
    requires t < |s.tasks| == |s'.tasks| && SlotOk(s, s.tasks[t].op.Slot()) && s.tasks[t].op.OnKey()
    requires s'.tasks == s.tasks[t := s'.tasks[t]] && s'.tasks[t].op == s.tasks[t].op
    requires s'.tasks[t].progress != s.tasks[t].progress && s'.log == Record(s.log, t, s.tasks[t], s'.tasks[t])
    requires Publishes(s.fs, s.tasks[t], Effect(s'.fs, s'.tasks[t]))
    ensures SlotOk(s', s.tasks[t].op.Slot())
  {
    LastIsEvent(s.log, Event(t, s.tasks[t].op, s'.tasks[t].progress), s.tasks[t].op.Slot());
  }

  // ----- the steps -----

  lemma LockStepView(fs: Fs, t: TaskId, task: Task)
    requires IsLockPc(task.pc) && ViewOk(fs, t, task)
    ensures ViewOk(fs, t, task.(pc := AfterLockStep(task.op, task.pc)))
  {
  }

  lemma GoKeepsViews(s: State, t: TaskId, io: bool)
    requires LocksOk(s) && TasksOk(s) && ViewsOk(s) && FsOk(s.fs) && CanGo(s, t)
    ensures ViewsOk(GoStep(s, t, io)) && FsOk(GoStep(s, t, io).fs)
  {
    hide LocksOk, TaskOk, ViewOk, FsOk, FsStep, BucketLockStep, KeyLockStep, AfterLockStep, Touches, Publishes, Record;
    var s', task := GoStep(s, t, io), s.tasks[t];
    if IsLockPc(task.pc) {
      LockStepView(s.fs, t, task);
    } else {
      FsStepEffect(s.fs, t, task, io);
      forall u: TaskId | u < |s.tasks| && u != t && s.tasks[u].alive ensures ViewOk(s'.fs, u, s.tasks[u]) {
        OtherView(s, s'.fs, t, u);
      }
    }
  }

  lemma GoKeepsSlot(s: State, t: TaskId, io: bool, k: Slot)
    requires LocksOk(s) && TasksOk(s) && ViewsOk(s) && FsOk(s.fs) && CanGo(s, t) && SlotOk(s, k)
    ensures SlotOk(GoStep(s, t, io), k)
  {
    hide LocksOk, TaskOk, FsOk, FsStep, Touches, Publishes, ViewOk, SlotOk, ContentOf, BucketLockStep, KeyLockStep;
    var s', task := GoStep(s, t, io), s.tasks[t];
    assert TaskOk(task) && ViewOk(s.fs, t, task);
    if IsLockPc(task.pc) {
      SlotElsewhere(s, s', t, k);
    } else {
      FsStepEffect(s.fs, t, task, io);
      FsStepProceeds(s.fs, t, task, io);
      if task.op.OnKey() && task.op.Slot() == k && s'.tasks[t].progress != task.progress {
        SlotPublished(s, s', t);
      } else {
        KeyUnchanged(s.fs, t, task, FsStep(s.fs, t, task, io), k);
        SlotElsewhere(s, s', t, k);
      }
    }
  }

  lemma KeyUnchanged(fs: Fs, t: TaskId, task: Task, e: Effect, k: Slot)
    requires EffectOk(fs, t, task, e) && TaskOk(task)
    requires !task.op.OnKey() || task.op.Slot() != k || e.task.progress == task.progress
    ensures ContentOf(e.fs, k) == ContentOf(fs, k)
  {
    hide ContentOf, Touches, TaskOk, FsOk, ViewOk;
    if !task.op.OnKey() || task.op.Slot() != k {
      TouchesElsewhere(fs, e.fs, t, task, k);
    }
  }

  lemma GoKeepsEvents(s: State, t: TaskId, io: bool)
    requires TasksOk(s) && ViewsOk(s) && FsOk(s.fs) && EventsOk(s) && CanGo(s, t)
    ensures EventsOk(GoStep(s, t, io))
  {
    hide TaskOk, ViewOk, FsOk, FsStep, Touches, ContentOf, BucketLockStep, KeyLockStep;
    if !IsLockPc(s.tasks[t].pc) {
      FsStepEffect(s.fs, t, s.tasks[t], io);
      FsStepProceeds(s.fs, t, s.tasks[t], io);
    }
  }

  lemma TouchesElsewhere(fs: Fs, fs': Fs, t: TaskId, task: Task, k: Slot)
    requires Touches(fs, fs', t, task) && TaskOk(task)
    requires !task.op.OnKey() || task.op.Slot() != k
    ensures ContentOf(fs', k) == ContentOf(fs, k)
  {
    hide ContentOf;
    if !task.op.OnKey() {
      assert KeyPhase(task) != Some(Held);
    }
  }

  lemma GoKeepsInv(s: State, t: TaskId, io: bool)
    requires Inv(s) && CanGo(s, t)
    ensures Inv(GoStep(s, t, io))
  {
    hide LocksOk, TaskOk, FsOk, ViewsOk, SlotOk, EventsOk, FsStep, BucketLockStep, KeyLockStep, Record;
    var s' := GoStep(s, t, io);
    GoKeepsTasks(s, t, io);
    GoKeepsLocks(s, t, io);
    GoKeepsViews(s, t, io);
    GoKeepsEvents(s, t, io);
    forall k: Slot ensures SlotOk(s', k) {
      GoKeepsSlot(s, t, io, k);
    }
  }

  /** Nothing about any key changes with the mere arrival, waiting or death of tasks. */
  lemma SlotsFrame(s: State, s': State)
    requires SlotsOk(s) && EventsOk(s)
    requires |s.tasks| <= |s'.tasks| && s'.log == s.log
    requires s'.fs.manifests == s.fs.manifests && s'.fs.data == s.fs.data
    requires forall t: TaskId :: t < |s.tasks| ==> s'.tasks[t].op == s.tasks[t].op && s'.tasks[t].progress == s.tasks[t].progress
    ensures SlotsOk(s') && EventsOk(s')
  {
    forall k: Slot ensures SlotOk(s', k) {
      assert SlotOk(s, k);
    }
  }

  lemma BeginKeepsInv(s: State, op: Op)
    requires Inv(s) && Enabled(s, Begin(op))
    ensures Inv(Do(s, Begin(op)))
  {
    hide LocksOk, SlotsOk, EventsOk, FsOk;
    BeginKeepsLocks(s, op);
    SlotsFrame(s, Do(s, Begin(op)));
  }

  lemma GaveUpView(fs: Fs, t: TaskId, task: Task, pc: Pc)
    requires TaskOk(task) && ((task.pc.WaitBucket? && pc.Finished?) || (task.pc.WaitKey? && pc.UnlockBucket?))
    ensures TaskOk(task.(pc := pc)) && ViewOk(fs, t, task.(pc := pc))
  {
  }

  lemma GiveUpKeepsViews(s: State, t: TaskId)
    requires LocksOk(s) && TasksOk(s) && ViewsOk(s) && FsOk(s.fs) && Enabled(s, GiveUp(t))
    ensures TasksOk(GiveUpStep(s, t)) && ViewsOk(GiveUpStep(s, t)) && FsOk(GiveUpStep(s, t).fs)
  {
    hide LocksOk, FsOk, Touches, Cancel, TaskOk, ViewOk;
    var s' := GiveUpStep(s, t);
    TmpTouches(s.fs, s'.fs.tmp, t, s.tasks[t]);
    GaveUpView(s'.fs, t, s.tasks[t], s'.tasks[t].pc);
    forall u: TaskId | u < |s.tasks| && s.tasks[u].alive && u != t ensures ViewOk(s'.fs, u, s'.tasks[u]) {
      OtherView(s, s'.fs, t, u);
    }
  }

  lemma GiveUpKeepsInv(s: State, t: TaskId)
    requires Inv(s) && Enabled(s, GiveUp(t))
    ensures Inv(GiveUpStep(s, t))
  {
    hide LocksOk, SlotsOk, EventsOk, TasksOk, ViewsOk, FsOk, Cancel;
    GiveUpKeepsLocks(s, t);
    GiveUpKeepsViews(s, t);
    SlotsFrame(s, GiveUpStep(s, t));
  }

  lemma KillKeepsInv(s: State)
    requires Inv(s)
    ensures Inv(KillStep(s))
  {
    hide LocksOk, SlotsOk, EventsOk, FsOk;
    KillKeepsLocks(s);
    SlotsFrame(s, KillStep(s));
  }

  lemma OpenKeepsInv(s: State)
    requires Inv(s) && Enabled(s, Open)
    ensures Inv(Do(s, Open))
  {
    hide SlotsOk, EventsOk, Valid, Exact;
    var s' := Do(s, Open);
    SlotsFrame(s, s');
    forall u: TaskId | u < |s.tasks| ensures BucketRefFits(s', u) && KeyRefFits(s', u) {
      assert BucketRefFits(s, u) && KeyRefFits(s, u);
    }
  }

  lemma SweptView(fs: Fs, tmp: map<TaskId, Bytes>, t: TaskId, task: Task)
    requires ViewOk(fs, t, task) && !Staging(task.pc)
    ensures ViewOk(fs.(tmp := tmp), t, task)
  {
  }

  lemma SweepKeepsViews(s: State, t: TaskId)
    requires LocksOk(s) && TasksOk(s) && ViewsOk(s) && FsOk(s.fs) && DownOk(s) && Enabled(s, Sweep(t))
    ensures ViewsOk(Do(s, Sweep(t))) && FsOk(Do(s, Sweep(t)).fs)
  {
    hide LocksOk, FsOk, Touches, TaskOk, ViewOk;
    var fs' := s.fs.(tmp := s.fs.tmp - {t});
    if t < |s.tasks| {
      TmpTouches(s.fs, fs'.tmp, t, s.tasks[t]);
      if s.tasks[t].alive {
        SweptView(s.fs, fs'.tmp, t, s.tasks[t]);
      }
      forall u: TaskId | u < |s.tasks| && s.tasks[u].alive && u != t ensures ViewOk(fs', u, s.tasks[u]) {
        OtherView(s, fs', t, u);
      }
    } else {
      TmpKeepsTree(s.fs, fs'.tmp);
    }
  }

  lemma TmpKeepsTree(fs: Fs, tmp: map<TaskId, Bytes>)
    requires FsOk(fs)
    ensures FsOk(fs.(tmp := tmp))
  {
  }

  lemma SweepKeepsInv(s: State, t: TaskId)
    requires Inv(s) && Enabled(s, Sweep(t))
    ensures Inv(Do(s, Sweep(t)))
  {
    hide SlotsOk, EventsOk, Valid, Exact, TasksOk, ViewsOk, FsOk;
    var s' := Do(s, Sweep(t));
    SweepKeepsViews(s, t);
    SlotsFrame(s, s');
    forall u: TaskId | u < |s.tasks| ensures BucketRefFits(s', u) && KeyRefFits(s', u) {
      assert BucketRefFits(s, u) && KeyRefFits(s, u);
    }
    TasksFrame(s, s');
  }

  lemma TasksFrame(s: State, s': State)
    requires TasksOk(s) && s'.tasks == s.tasks
    ensures TasksOk(s')
  {
  }

  /** Every step keeps the invariant. */
  lemma StepKeepsInv(s: State, step: Step)
    requires Inv(s) && Enabled(s, step)
    ensures Inv(Do(s, step))
  {
    hide Inv, GoStep, GiveUpStep, KillStep;
    match step {
      case Begin(op) => BeginKeepsInv(s, op);
      case Go(t, io) => GoKeepsInv(s, t, io);
      case GiveUp(t) => GiveUpKeepsInv(s, t);
      case Kill => KillKeepsInv(s);
      case Sweep(t) => SweepKeepsInv(s, t);
      case Open => OpenKeepsInv(s);
    }
  }

  lemma InitInv()
    ensures Inv(INIT)
  {
  }

  lemma {:induction false} RunKeepsInv(s: State, steps: seq<Step>)
    requires Inv(s) && Legal(s, steps)
    ensures Inv(After(s, steps))
    decreases |steps|
  {
    hide Inv, Do, Enabled;
    if steps != [] {
      StepKeepsInv(s, steps[0]);
      RunKeepsInv(Do(s, steps[0]), steps[1..]);
    }
  }
}
