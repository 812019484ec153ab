/** What the invariant gives for every run of the engine, from an empty data directory. */
module PublicationSafety {
  import opened Types
  import opened LockTable
  import opened Publication
  import opened PublicationLog
  import opened PublicationInvariant

  ghost predicate Reachable(s: State) {
    exists steps :: Legal(INIT, steps) && After(INIT, steps) == s
  }

  lemma ReachableInv(s: State)
    requires Reachable(s)
    ensures Inv(s)
  {
    hide Inv;
    var steps :| Legal(INIT, steps) && After(INIT, steps) == s;
    InitInv();
    RunKeepsInv(INIT, steps);
  }

  // ----- locks -----

  ghost predicate HoldsKey(s: State, t: TaskId, k: Slot) {
    t in s.keyLocks.refs && s.keyLocks.refs[t].phase.Held? && s.keyLocks.refs[t].key == k
  }

  ghost predicate HoldsBucket(s: State, t: TaskId, b: Bucket) {
    t in s.bucketLocks.refs && s.bucketLocks.refs[t].phase.Held? && s.bucketLocks.refs[t].key == b
  }

  /** Whoever holds or waits for a lock has the table's own object, and holders exclude as they should. */
  lemma LocksAreSafe(s: State)
    requires Reachable(s)
    ensures Current(s.bucketLocks) && Current(s.keyLocks)
    ensures forall t, u, k :: HoldsKey(s, t, k) && HoldsKey(s, u, k) ==> t == u
    ensures forall t, u, b :: HoldsBucket(s, t, b) && HoldsBucket(s, u, b) && t != u ==> !s.bucketLocks.refs[t].exclusive
  {
    hide TasksOk, ViewsOk, FsOk, SlotsOk, EventsOk, DownOk;
    ReachableInv(s);
    forall t, u, k | HoldsKey(s, t, k) && HoldsKey(s, u, k) ensures t == u {
      hide LocksOk;
      KeyHoldersExclude(s, t, u, k);
    }
    forall t, u, b | HoldsBucket(s, t, b) && HoldsBucket(s, u, b) && t != u ensures !s.bucketLocks.refs[t].exclusive {
      assert BothHold(s.bucketLocks.refs[t], s.bucketLocks.refs[u]);
    }
  }

  /** Nobody holds, waits for or is letting go of any lock. */
  ghost predicate Idle(s: State) {
    forall t :: !Unfinished(s, t)
  }

  /**
   A name that no task is busy with has an entry left exactly if the last task to let go of it
   was cancelled; so at rest the tables hold the abandoned names and no others.
   */
  lemma EntriesLeft(s: State)
    requires Reachable(s)
    ensures forall b :: !Wanted(s.bucketLocks, b) ==> (b in s.bucketLocks.entries <==> b in s.bucketLocks.abandoned)
    ensures forall k :: !Wanted(s.keyLocks, k) ==> (k in s.keyLocks.entries <==> k in s.keyLocks.abandoned)
    ensures Idle(s) ==> s.bucketLocks.entries.Keys == s.bucketLocks.abandoned && s.keyLocks.entries.Keys == s.keyLocks.abandoned
  {
    hide TasksOk, ViewsOk, FsOk, SlotsOk, EventsOk, DownOk, Valid, Unfinished, LocksFit;
    ReachableInv(s);
    if Idle(s) {
      RefsAreLive(s);
      assert s.bucketLocks.refs == map[] && s.keyLocks.refs == map[];
      assert forall b :: !Wanted(s.bucketLocks, b);
      assert forall k :: !Wanted(s.keyLocks, k);
    }
  }

  /** Without a cancelled wait nothing is ever abandoned. */
  lemma StepAbandonsNothing(s: State, step: Step)
    requires Enabled(s, step) && !step.GiveUp? && s.bucketLocks.abandoned == {} && s.keyLocks.abandoned == {}
    ensures Do(s, step).bucketLocks.abandoned == {} && Do(s, step).keyLocks.abandoned == {}
  {
    hide CanGrant, StrongCount, FsStep;
  }

  lemma {:induction false} RunAbandonsNothing(s: State, steps: seq<Step>)
    requires Legal(s, steps) && (forall i :: 0 <= i < |steps| ==> !steps[i].GiveUp?)
    requires s.bucketLocks.abandoned == {} && s.keyLocks.abandoned == {}
    ensures After(s, steps).bucketLocks.abandoned == {} && After(s, steps).keyLocks.abandoned == {}
    decreases |steps|
  {
    hide Do, Enabled;
    if steps != [] {
      StepAbandonsNothing(s, steps[0]);
      RunAbandonsNothing(Do(s, steps[0]), steps[1..]);
    }
  }

  /** So after any run in which no wait was cancelled, the tables are empty at rest. */
  lemma TablesEmptyAtRest(steps: seq<Step>)
    requires Legal(INIT, steps) && (forall i :: 0 <= i < |steps| ==> !steps[i].GiveUp?) && Idle(After(INIT, steps))
    ensures After(INIT, steps).bucketLocks.entries == map[] && After(INIT, steps).keyLocks.entries == map[]
  {
    hide Legal, After, Idle;
    RunAbandonsNothing(INIT, steps);
    assert Reachable(After(INIT, steps));
    EntriesLeft(After(INIT, steps));
  }

  lemma KeyHoldersExclude(s: State, t: TaskId, u: TaskId, k: Slot)
    requires LocksOk(s) && HoldsKey(s, t, k) && HoldsKey(s, u, k)
    ensures t == u
  {
    assert KeyRefFits(s, t) && KeyRefFits(s, u);
    assert BothHold(s.keyLocks.refs[t], s.keyLocks.refs[u]);
  }

  lemma RefsAreLive(s: State)
    requires LocksFit(s)
    ensures forall t :: t in s.bucketLocks.refs || t in s.keyLocks.refs ==> Unfinished(s, t)
  {
    forall t | t in s.bucketLocks.refs || t in s.keyLocks.refs ensures Unfinished(s, t) {
      assert BucketRefFits(s, t) && KeyRefFits(s, t);
    }
  }

  // ----- manifests and data -----

  /** A put or delete of `k` between its two visible steps, or stopped there. */
  predicate InGap(task: Task, k: Slot) {
    task.op.OnKey() && task.op.Slot() == k && task.progress.Gap?
  }

  /** A put of `k`, in or stopped in its gap, has its bytes on disk under a manifest that does not describe them. */
  predicate Tears(fs: Fs, task: Task, k: Slot)
    requires k in fs.manifests && k in fs.data && fs.manifests[k] != []
  {
    && task.op.kind.Put? && InGap(task, k)
    && fs.data[k] == task.op.Body() && !Describes(fs.manifests[k][0], task.op.Body())
  }

  /**
   A manifest always has its data. It describes it exactly when the last visible step on its key
   was not the data rename of an overwrite with other bytes; and then that overwrite is still in,
   or was stopped in, the gap before its manifest rename, and the data is its whole body.
   */
  lemma ManifestsHaveTheirData(s: State, k: Slot)
    requires Reachable(s) && k in s.fs.manifests
    ensures k in s.fs.data && OneVersion(s.fs.manifests[k])
    ensures Describes(s.fs.manifests[k][0], s.fs.data[k]) <==> !Overwritten(s.log, k, s.fs.manifests[k][0])
    ensures Describes(s.fs.manifests[k][0], s.fs.data[k]) <==> forall t: TaskId :: t < |s.tasks| ==> !Tears(s.fs, s.tasks[t], k)
    ensures Overwritten(s.log, k, s.fs.manifests[k][0]) ==>
              var last := LastOf(s.log, k).value; last.task < |s.tasks| && Tears(s.fs, s.tasks[last.task], k)
  {
    hide LocksOk, TasksOk, ViewsOk, EventsOk, DownOk;
    ReachableInv(s);
    assert SlotOk(s, k);
    DescribedUnlessOverwritten(s.log, k);
    if Overwritten(s.log, k, s.fs.manifests[k][0]) {
      MidGapData(s.log, k);
    }
  }

  /**
   Every manifest is one put's, with all that put came with, and every data file one put's whole
   body, both of that key.
   */
  lemma FilesAreWholePuts(s: State, k: Slot)
    requires Reachable(s)
    ensures k in s.fs.manifests ==>
              exists t: TaskId :: t < |s.tasks| && IsPutOf(s.tasks[t].op, k) && Records(s.fs.manifests[k], s.tasks[t].op)
    ensures k in s.fs.data ==>
              exists t: TaskId :: t < |s.tasks| && IsPutOf(s.tasks[t].op, k) && s.fs.data[k] == Concat(s.tasks[t].op.chunks)
  {
    hide LocksOk, TasksOk, ViewsOk, FsOk, DownOk;
    ReachableInv(s);
    assert SlotOk(s, k);
    WholePuts(s.log, k);
    if k in s.fs.manifests {
      var e :| e in s.log && IsPutOf(e.op, k) && s.fs.manifests[k] == [e.op.Entry()];
      EntryRecords([e.op.Entry()], e.op);
      assert s.tasks[e.task].op == e.op;
    }
    if k in s.fs.data {
      var e :| e in s.log && IsPutOf(e.op, k) && s.fs.data[k] == e.op.Body();
      assert s.tasks[e.task].op == e.op;
    }
  }

  ghost function Orphans(s: State): set<Slot> {
    s.fs.data.Keys - s.fs.manifests.Keys
  }

  ghost function InTheirGap(s: State): set<TaskId> {
    set t: TaskId | t < |s.tasks| && s.tasks[t].op.OnKey() && s.tasks[t].progress.Gap?
  }

  /** Distinct slots need distinct tasks. */
  lemma {:induction false} CoveredIsSmaller(slots: set<Slot>, tasks: set<TaskId>, slot: TaskId -> Slot)
    requires forall k :: k in slots ==> exists t :: t in tasks && slot(t) == k
    ensures |slots| <= |tasks|
    decreases |slots|
  {
    if slots != {} {
      var k :| k in slots;
      var t :| t in tasks && slot(t) == k;
      forall l | l in slots - {k} ensures exists u :: u in tasks - {t} && slot(u) == l {
        var u :| u in tasks && slot(u) == l;
        assert u in tasks - {t};
      }
      CoveredIsSmaller(slots - {k}, tasks - {t}, slot);
    }
  }

  /** Data no manifest names never outnumbers the operations now in, or stopped in, their window. */
  lemma OrphansAreBounded(s: State)
    requires Reachable(s)
    ensures |Orphans(s)| <= |InTheirGap(s)|
  {
    hide LocksOk, TasksOk, ViewsOk, FsOk, DownOk;
    ReachableInv(s);
    var slot := (t: TaskId) => if t < |s.tasks| then s.tasks[t].op.Slot() else ("", []);
    forall k | k in Orphans(s) ensures exists t :: t in InTheirGap(s) && slot(t) == k {
      assert SlotOk(s, k);
      DataComesFirst(s.log, k);
      var t := LastOf(s.log, k).value.task;
      assert t in InTheirGap(s) && slot(t) == k;
    }
    CoveredIsSmaller(Orphans(s), InTheirGap(s), slot);
  }

  // ----- the flat map -----

  /** A key's files are at all times what the visible steps on it, in their order, make them. */
  lemma FilesFollowTheLog(s: State, k: Slot)
    requires Reachable(s)
    ensures ContentOf(s.fs, k) == Story(s.log, k)
  {
    hide LocksOk, TasksOk, ViewsOk, FsOk, EventsOk, DownOk;
    ReachableInv(s);
    assert SlotOk(s, k);
  }

  /** Where the last thing that happened to a key is a success, or nothing, its files are the flat map's value. */
  lemma SettledKeysMatchTheMap(s: State, k: Slot)
    requires Reachable(s) && (LastOf(s.log, k).Some? ==> LastOf(s.log, k).value.progress.Complete?)
    ensures ContentOf(s.fs, k) == Replay(s.log, k)
  {
    FilesFollowTheLog(s, k);
    StoryIsReplay(s.log, k);
  }

  predicate Publishing(task: Task, k: Slot) {
    task.op.OnKey() && task.op.Slot() == k && (task.progress.Gap? || task.progress.Published?)
  }

  /** The operation failed or was killed after its first visible step and before its success. */
  predicate StoppedPublishing(task: Task, k: Slot) {
    Publishing(task, k) && !(task.alive && (IsPutPc(task.pc) || IsDeletePc(task.pc)))
  }

  /**
   With the key's lock free, the tree is the flat map, unless the last operation to show
   anything of the key was stopped half way. What was stopped before that does not matter.
   */
  lemma FreeKeysMatchTheMap(s: State, k: Slot)
    requires Reachable(s)
    requires forall t :: !HoldsKey(s, t, k)
    requires LastOf(s.log, k).Some? ==> var t := LastOf(s.log, k).value.task; t < |s.tasks| ==> !StoppedPublishing(s.tasks[t], k)
    ensures ContentOf(s.fs, k) == Replay(s.log, k)
  {
    hide TasksOk, ViewsOk, FsOk, DownOk, Valid, Exact;
    ReachableInv(s);
    assert SlotOk(s, k);
    var last := LastOf(s.log, k);
    if last.Some? {
      var t := last.value.task;
      assert KeyRefFits(s, t) && !HoldsKey(s, t, k);
      assert !Publishing(s.tasks[t], k);
    }
    SettledKeysMatchTheMap(s, k);
  }

  /** Progress on a key is recorded by whoever holds its lock, so in the order the lock was held. */
  lemma RecordedUnderTheLock(s: State, t: TaskId, io: bool)
    requires Reachable(s) && CanGo(s, t) && GoStep(s, t, io).log != s.log
    ensures HoldsKey(s, t, s.tasks[t].op.Slot())
    ensures GoStep(s, t, io).log == s.log + [Event(t, s.tasks[t].op, GoStep(s, t, io).tasks[t].progress)]
  {
    hide ViewsOk, FsOk, SlotsOk, EventsOk, DownOk, Valid, Exact, WithoutBucketTree, HasAnyEntry, Childless, MakeDirsStep;
    ReachableInv(s);
    assert KeyRefFits(s, t) && TaskOk(s.tasks[t]);
  }

  /** Until its first visible step, and so also if it gives up before that, an operation changes no key. */
  lemma UnpublishedStepsChangeNoKey(s: State, t: TaskId, io: bool, k: Slot)
    requires Reachable(s) && CanGo(s, t) && GoStep(s, t, io).tasks[t].progress.Before?
    ensures ContentOf(GoStep(s, t, io).fs, k) == ContentOf(s.fs, k)
  {
    hide Inv, FsStep, KeyOk, StagedOk, BucketOk, ContentOf, FsOk, Record;
    ReachableInv(s);
    StepFrame(s, t, io, k);
  }

  /** A step changes a key only by starting to publish it or by continuing, under its lock. */
  lemma StepFrame(s: State, t: TaskId, io: bool, k: Slot)
    requires Inv(s) && CanGo(s, t)
    ensures ContentOf(GoStep(s, t, io).fs, k) != ContentOf(s.fs, k) ==>
              && s.tasks[t].op.OnKey() && s.tasks[t].op.Slot() == k
              && (IsPutPc(s.tasks[t].pc) || IsDeletePc(s.tasks[t].pc))
              && (var p, p' := s.tasks[t].progress, GoStep(s, t, io).tasks[t].progress;
                  (p.Before? && p'.Gap?) || (p.Gap? && p'.Published?))
  {
    hide LocksOk, SlotsOk, EventsOk, DownOk, FsStep, KeyOk, StagedOk, BucketOk, ContentOf, FsOk, Record,
      BucketLockStep, KeyLockStep;
    var task := s.tasks[t];
    assert TaskOk(task) && ViewOk(s.fs, t, task);
    if !IsLockPc(task.pc) {
      FsStepEffect(s.fs, t, task, io);
      FsStepProceeds(s.fs, t, task, io);
      if !task.op.OnKey() || task.op.Slot() != k {
        TouchesElsewhere(s.fs, GoStep(s, t, io).fs, t, task, k);
      }
    }
  }

  // ----- acknowledged operations survive -----

  /** This step makes the first visible change of a put of `k`, or of a delete too unless only puts matter. */
  ghost predicate Starts(s: State, step: Step, k: Slot, putsOnly: bool)
    requires Enabled(s, step)
  {
    && step.Go?
    && (var task, task' := s.tasks[step.task], Do(s, step).tasks[step.task];
        Matters(task, k, putsOnly) && task.progress.Before? && task'.progress.Gap?)
  }

  predicate Matters(task: Task, k: Slot, putsOnly: bool) {
    task.op.OnKey() && task.op.Slot() == k && (task.op.kind.Put? || !putsOnly)
  }

  ghost predicate NoneStart(s: State, steps: seq<Step>, k: Slot, putsOnly: bool)
    requires Legal(s, steps)
    decreases |steps|
  {
    steps == [] || (!Starts(s, steps[0], k, putsOnly) && NoneStart(Do(s, steps[0]), steps[1..], k, putsOnly))
  }

  /** No live operation is in its gap on `k`. */
  ghost predicate NoGap(s: State, k: Slot, putsOnly: bool) {
    forall t: TaskId :: t < |s.tasks| ==> !RunsInGap(s.tasks[t], k, putsOnly)
  }

  predicate RunsInGap(task: Task, k: Slot, putsOnly: bool) {
    task.alive && (IsPutPc(task.pc) || IsDeletePc(task.pc)) && task.progress.Gap? && Matters(task, k, putsOnly)
  }

  ghost predicate Settled(s: State, k: Slot, c: Content, putsOnly: bool) {
    ContentOf(s.fs, k) == c && NoGap(s, k, putsOnly) && (putsOnly ==> c == ABSENT)
  }

  /** A step of a delete can only remove. */
  lemma DeleteKeepsAbsent(s: State, t: TaskId, io: bool, k: Slot)
    requires CanGo(s, t) && IsDeletePc(s.tasks[t].pc) && ContentOf(s.fs, k) == ABSENT
    ensures ContentOf(GoStep(s, t, io).fs, k) == ABSENT
  {
    hide Childless;
  }

  lemma GoSettled(s: State, t: TaskId, io: bool, k: Slot, c: Content, putsOnly: bool)
    requires Inv(s) && CanGo(s, t) && Settled(s, k, c, putsOnly) && !Starts(s, Go(t, io), k, putsOnly)
    ensures Settled(GoStep(s, t, io), k, c, putsOnly)
  {
    hide LocksOk, ViewsOk, SlotsOk, EventsOk, DownOk, FsOk, FsStep, ContentOf, Record, BucketLockStep, KeyLockStep, TaskOk;
    var s', task := GoStep(s, t, io), s.tasks[t];
    StepFrame(s, t, io, k);
    GoFits(s, t, io);
    assert !RunsInGap(task, k, putsOnly);
    if ContentOf(s'.fs, k) != ContentOf(s.fs, k) {
      assert putsOnly && IsDeletePc(task.pc);
      DeleteKeepsAbsent(s, t, io, k);
    }
    forall u: TaskId | u < |s'.tasks| ensures !RunsInGap(s'.tasks[u], k, putsOnly) {
      assert !RunsInGap(s.tasks[u], k, putsOnly);
    }
  }

  /** A task enters its gap only from the step before it, and an operation in its gap is publishing. */
  lemma GoFits(s: State, t: TaskId, io: bool)
    requires Inv(s) && CanGo(s, t)
    ensures var task, task' := s.tasks[t], GoStep(s, t, io).tasks[t];
            && GoStep(s, t, io).tasks == s.tasks[t := task'] && task'.op == task.op && task'.alive
            && (IsDeletePc(task.pc) ==> task.op.kind.Delete?) && (IsPutPc(task.pc) ==> task.op.kind.Put?)
            && (task'.progress.Gap? && (IsPutPc(task'.pc) || IsDeletePc(task'.pc)) && !task.progress.Gap? ==> task.progress.Before?)
            && (task'.progress.Gap? && task.progress.Gap? && (IsPutPc(task'.pc) || IsDeletePc(task'.pc)) ==>
                IsPutPc(task.pc) || IsDeletePc(task.pc))
  {
    hide LocksOk, ViewsOk, SlotsOk, EventsOk, DownOk, FsOk, BucketLockStep, KeyLockStep, Record, WithoutBucketTree,
      HasAnyEntry, Childless;
    assert TaskOk(s.tasks[t]);
  }

  lemma StepSettled(s: State, step: Step, k: Slot, c: Content, putsOnly: bool)
    requires Inv(s) && Enabled(s, step) && Settled(s, k, c, putsOnly) && !Starts(s, step, k, putsOnly)
    ensures Settled(Do(s, step), k, c, putsOnly)
  {
    hide Inv, GoStep;
    if step.Go? {
      GoSettled(s, step.task, step.io, k, c, putsOnly);
    } else {
      hide Starts;
      var s' := Do(s, step);
      forall u: TaskId | u < |s'.tasks| ensures !RunsInGap(s'.tasks[u], k, putsOnly) {
        assert u < |s.tasks| ==> !RunsInGap(s.tasks[u], k, putsOnly);
      }
    }
  }

  lemma {:induction false} RunSettled(s: State, steps: seq<Step>, k: Slot, c: Content, putsOnly: bool)
    requires Inv(s) && Legal(s, steps) && Settled(s, k, c, putsOnly) && NoneStart(s, steps, k, putsOnly)
    ensures Settled(After(s, steps), k, c, putsOnly)
    decreases |steps|
  {
    hide Inv, Do, Enabled, Settled, Starts;
    if steps != [] {
      StepKeepsInv(s, steps[0]);
      StepSettled(s, steps[0], k, c, putsOnly);
      RunSettled(Do(s, steps[0]), steps[1..], k, c, putsOnly);
    }
  }

  /** While one operation holds the key's lock outside its gap, nobody else is in a gap on that key. */
  lemma HolderSettles(s: State, t: TaskId, putsOnly: bool)
    requires Inv(s) && t < |s.tasks| && KeyPhase(s.tasks[t]) == Some(Held) && !s.tasks[t].progress.Gap?
    ensures NoGap(s, s.tasks[t].op.Slot(), putsOnly)
  {
    hide LocksOk, TasksOk, ViewsOk, SlotsOk, EventsOk, DownOk, FsOk;
    forall u: TaskId | u < |s.tasks| ensures !RunsInGap(s.tasks[u], s.tasks[t].op.Slot(), putsOnly) {
      if u != t && KeyPhase(s.tasks[u]) == Some(Held) {
        KeyHoldersDiffer(s, t, u);
      }
    }
  }

  /**
   From the rename of its manifest on, and so from before it is acknowledged, a put's entry
   and exact bytes stay in place through any further steps, kills and reopens included,
   until another put or delete of the key starts publishing.
   */
  lemma PutSurvives(s: State, t: TaskId, steps: seq<Step>)
    requires Reachable(s) && t < |s.tasks| && s.tasks[t].alive && s.tasks[t].pc.SyncPut?
    requires Legal(s, steps) && NoneStart(s, steps, s.tasks[t].op.Slot(), false)
    ensures var op := s.tasks[t].op; ContentOf(After(s, steps).fs, op.Slot()) == Left(op)
  {
    hide LocksOk, SlotsOk, EventsOk, DownOk, FsOk, StagedOk, BucketOk;
    ReachableInv(s);
    var op := s.tasks[t].op;
    assert TaskOk(s.tasks[t]) && ViewOk(s.fs, t, s.tasks[t]);
    HolderSettles(s, t, false);
    RunSettled(s, steps, op.Slot(), Left(op), false);
  }

  /** From the removal of its data on, a delete's key stays absent until a put of it starts publishing. */
  lemma DeleteSurvives(s: State, t: TaskId, steps: seq<Step>)
    requires Reachable(s) && t < |s.tasks| && s.tasks[t].alive && (s.tasks[t].pc.Prune? || s.tasks[t].pc.SyncDelete?)
    requires Legal(s, steps) && NoneStart(s, steps, s.tasks[t].op.Slot(), true)
    ensures ContentOf(After(s, steps).fs, s.tasks[t].op.Slot()) == ABSENT
  {
    hide LocksOk, SlotsOk, EventsOk, DownOk, FsOk, StagedOk, BucketOk;
    ReachableInv(s);
    assert TaskOk(s.tasks[t]) && ViewOk(s.fs, t, s.tasks[t]);
    HolderSettles(s, t, true);
    RunSettled(s, steps, s.tasks[t].op.Slot(), ABSENT, true);
  }

  lemma StepKeepsOp(s: State, step: Step, t: TaskId)
    requires Inv(s) && Enabled(s, step) && t < |s.tasks|
    ensures t < |Do(s, step).tasks| && Do(s, step).tasks[t].op == s.tasks[t].op
  {
    hide Inv, GoStep;
    if step.Go? {
      GoFits(s, step.task, step.io);
    }
  }

  lemma {:induction false} RunKeepsOp(s: State, steps: seq<Step>, t: TaskId)
    requires Inv(s) && Legal(s, steps) && t < |s.tasks|
    ensures t < |After(s, steps).tasks| && After(s, steps).tasks[t].op == s.tasks[t].op
    decreases |steps|
  {
    hide Inv, Do, Enabled;
    if steps != [] {
      StepKeepsOp(s, steps[0], t);
      StepKeepsInv(s, steps[0]);
      RunKeepsOp(Do(s, steps[0]), steps[1..], t);
    }
  }

  /** The key holds what the operation came with, or nothing after a delete. */
  predicate KeyHolds(fs: Fs, op: Op) {
    if op.kind.Put? then
      && op.Slot() in fs.manifests && Records(fs.manifests[op.Slot()], op)
      && op.Slot() in fs.data && fs.data[op.Slot()] == Concat(op.chunks)
    else
      op.Slot() !in fs.manifests && op.Slot() !in fs.data
  }

  lemma LeftHolds(fs: Fs, op: Op)
    requires ContentOf(fs, op.Slot()) == Left(op)
    ensures KeyHolds(fs, op)
  {
    EntryRecords([op.Entry()], op);
  }

  predicate AtSuccess(task: Task) {
    task.alive && (task.pc.SyncPut? || task.pc.SyncDelete?)
  }

  ghost predicate Succeeded(s: State, t: TaskId) {
    t < |s.tasks| && s.tasks[t].op.OnKey() && s.tasks[t].progress.Complete?
  }

  lemma SuccessStep(s: State, step: Step, t: TaskId)
    requires Inv(s) && Enabled(s, step) && Succeeded(Do(s, step), t) && !Succeeded(s, t)
    ensures t < |s.tasks| && AtSuccess(s.tasks[t])
  {
    hide LocksOk, ViewsOk, SlotsOk, EventsOk, DownOk, FsOk, Record, WithoutBucketTree, HasAnyEntry, Childless,
      BucketLockStep, KeyLockStep;
    if step.Go? {
      GoFits(s, step.task, step.io);
      assert TaskOk(s.tasks[step.task]);
    }
  }

  lemma PublisherHolds(s: State, t: TaskId)
    requires Inv(s) && t < |s.tasks| && AtSuccess(s.tasks[t])
    ensures HoldsKey(s, t, s.tasks[t].op.Slot())
    ensures s.tasks[t].op.kind.Put? ==> s.tasks[t].op.bucket in s.fs.buckets
  {
    hide SlotsOk, EventsOk, DownOk, FsOk, Valid, Exact, StagedOk, KeyOk;
    assert KeyRefFits(s, t) && TaskOk(s.tasks[t]) && ViewOk(s.fs, t, s.tasks[t]);
  }

  /**
   An operation that succeeds in a run was, at some point of it, about to, with its key's lock held
   and, if it is a put, its bucket there.
   */
  lemma {:induction false} SuccessPoint(s: State, steps: seq<Step>, t: TaskId) returns (i: nat)
    requires Inv(s) && Legal(s, steps) && Succeeded(After(s, steps), t) && !Succeeded(s, t)
    ensures i < |steps| && Legal(s, steps[..i]) && Legal(After(s, steps[..i]), steps[i..])
    ensures After(After(s, steps[..i]), steps[i..]) == After(s, steps)
    ensures var m := After(s, steps[..i]);
            && t < |m.tasks| && AtSuccess(m.tasks[t]) && HoldsKey(m, t, m.tasks[t].op.Slot())
            && (m.tasks[t].op.kind.Put? ==> m.tasks[t].op.bucket in m.fs.buckets)
    decreases |steps|
  {
    hide Inv, Do, Enabled, Succeeded, AtSuccess;
    var next := Do(s, steps[0]);
    StepKeepsInv(s, steps[0]);
    if Succeeded(next, t) {
      SuccessStep(s, steps[0], t);
      PublisherHolds(s, t);
      assert steps[..0] == [] && steps[0..] == steps;
      return 0;
    }
    var j := SuccessPoint(next, steps[1..], t);
    i := j + 1;
    assert steps[..i][0] == steps[0] && steps[..i][1..] == steps[1..][..j];
    assert steps[i..] == steps[1..][j..];
  }

  /**
   Whatever a run leaves of a put or delete that it acknowledged: unless, since the point where
   it was about to succeed, another operation has started to publish on its key, the key holds
   exactly what that operation came with.
   */
  lemma AcknowledgedStays(steps: seq<Step>, t: TaskId) returns (i: nat)
    requires Legal(INIT, steps) && Succeeded(After(INIT, steps), t)
    ensures i < |steps| && Legal(INIT, steps[..i]) && Legal(After(INIT, steps[..i]), steps[i..])
    ensures var m, s := After(INIT, steps[..i]), After(INIT, steps);
            var op := s.tasks[t].op;
            && t < |m.tasks| && AtSuccess(m.tasks[t])
            && (NoneStart(m, steps[i..], op.Slot(), op.kind.Delete?) ==> KeyHolds(s.fs, op))
  {
    hide Inv, Do, Enabled, ContentOf, NoneStart, KeyHolds;
    InitInv();
    i := SuccessPoint(INIT, steps, t);
    var m := After(INIT, steps[..i]);
    assert Reachable(m);
    ReachableInv(m);
    RunKeepsOp(m, steps[i..], t);
    KindAtSuccess(m, t);
    var op := m.tasks[t].op;
    if NoneStart(m, steps[i..], op.Slot(), op.kind.Delete?) {
      if op.kind.Put? {
        PutSurvives(m, t, steps[i..]);
      } else {
        DeleteSurvives(m, t, steps[i..]);
      }
      LeftHolds(After(INIT, steps).fs, op);
    }
  }

  lemma KindAtSuccess(s: State, t: TaskId)
    requires Inv(s) && t < |s.tasks| && AtSuccess(s.tasks[t])
    ensures if s.tasks[t].op.kind.Put? then s.tasks[t].pc.SyncPut? else s.tasks[t].op.kind.Delete? && s.tasks[t].pc.SyncDelete?
  {
    hide LocksOk, ViewsOk, SlotsOk, EventsOk, DownOk, FsOk;
    assert TaskOk(s.tasks[t]);
  }
}
