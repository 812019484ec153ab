/** What the bucket requests promise in every run, and what every request must have found to be acknowledged. */
module PublicationBuckets {
  import opened Types
  import opened LockTable
  import opened Publication
  import opened PublicationLog
  import opened PublicationInvariant
  import opened PublicationSafety
  import Meta

  /** No step of `create_bucket` or `delete_bucket`, failed or not, removes a manifest or data file. */
  lemma BucketRequestsRemoveNoFile(s: State, t: TaskId, io: bool)
    requires Reachable(s) && CanGo(s, t) && !s.tasks[t].op.OnKey()
    ensures GoStep(s, t, io).fs.manifests == s.fs.manifests && GoStep(s, t, io).fs.data == s.fs.data
  {
    hide LocksOk, SlotsOk, EventsOk, DownOk, BucketLockStep, KeyLockStep, Record, HasAnyEntry, WithoutBucketTree;
    ReachableInv(s);
    var task := s.tasks[t];
    assert TaskOk(task) && ViewOk(s.fs, t, task);
    if task.pc.UndoCreate? || task.pc.RemoveTree? {
      BareRemoval(s.fs, task.op.bucket);
    }
  }

  /** At the step that makes a request a success, its bucket is as the request says: gone, or there. */
  lemma BucketAtSuccess(s: State, step: Step, t: TaskId)
    requires Reachable(s) && Enabled(s, step) && t < |s.tasks|
    requires t < |Do(s, step).tasks| && Do(s, step).tasks[t].progress.Complete? && !s.tasks[t].progress.Complete?
    ensures var op, fs := s.tasks[t].op, Do(s, step).fs;
            && (op.kind.Put? || op.kind.Create? || op.kind.List? ==> op.bucket in fs.buckets)
            && (op.kind.DeleteBucket? ==> op.bucket !in fs.buckets)
            && (op.kind.DeleteBucket? ==> forall k: Slot :: k.0 == op.bucket ==> ContentOf(fs, k) == ABSENT)
  {
    hide Reachable, Inv, Do, Enabled, ContentOf;
    ReachableInv(s);
    SuccessOfTask(s, step, t);
    StepKeepsInv(s, step);
    if Do(s, step).tasks[t].op.kind.DeleteBucket? {
      forall k: Slot | k.0 == s.tasks[t].op.bucket ensures ContentOf(Do(s, step).fs, k) == ABSENT {
        GoneIsEmpty(Do(s, step), k);
      }
    }
  }

  lemma SuccessOfTask(s: State, step: Step, t: TaskId)
    requires Inv(s) && Enabled(s, step) && t < |s.tasks|
    requires t < |Do(s, step).tasks| && Do(s, step).tasks[t].progress.Complete? && !s.tasks[t].progress.Complete?
    ensures Do(s, step).tasks[t].op == s.tasks[t].op
    ensures var op, fs := s.tasks[t].op, Do(s, step).fs;
            && (op.kind.Put? || op.kind.Create? || op.kind.List? ==> op.bucket in fs.buckets)
            && (op.kind.DeleteBucket? ==> op.bucket !in fs.buckets)
  {
    hide LocksOk, SlotsOk, EventsOk, DownOk, FsOk, Record, WithoutBucketTree, HasAnyEntry, Childless, StagedOk, KeyOk,
      BucketLockStep, KeyLockStep, NoTree, BareTree;
    if step.Go? {
      assert TaskOk(s.tasks[step.task]) && ViewOk(s.fs, step.task, s.tasks[step.task]);
    }
  }

  lemma GoneIsEmpty(s: State, k: Slot)
    requires Inv(s) && k.0 !in s.fs.buckets
    ensures ContentOf(s.fs, k) == ABSENT
  {
    hide LocksOk, TasksOk, ViewsOk, SlotsOk, EventsOk, DownOk;
  }

  /** What a request needs to find so that it can succeed. */
  predicate Ready(fs: Fs, op: Op) {
    match op.kind
    case Create => op.bucket !in fs.buckets
    case DeleteBucket => op.bucket in fs.buckets && BareTree(fs, op.bucket)
    case _ => op.bucket in fs.buckets
  }

  /** It has yet to look. Only a bucket request and a listing look under their lock. */
  predicate Pending(task: Task) {
    if task.op.OnKey() then task.pc.Start?
    else task.pc.WantBucket? || task.pc.WaitBucket? || task.pc.MakeBucket? || task.pc.CheckEmpty? || task.pc.Walk?
  }

  /** It did not find it, and is on its way out. */
  predicate TurnedAway(task: Task) {
    && task.progress.Before?
    && (task.pc.UnlockBucket? || task.pc.DropBucketClone? || task.pc.RemoveBucketEntry? || task.pc.Finished?)
  }

  lemma LooksOnce(s: State, step: Step, t: TaskId)
    requires Inv(s) && Enabled(s, step) && t < |s.tasks| && (Pending(s.tasks[t]) || TurnedAway(s.tasks[t]))
    ensures var task, task' := s.tasks[t], Do(s, step).tasks[t];
            && task'.op == task.op
            && (TurnedAway(task) ==> TurnedAway(task'))
            && (Pending(task) ==> Pending(task') || TurnedAway(task') || Ready(s.fs, task.op))
  {
    hide LocksOk, ViewsOk, SlotsOk, EventsOk, DownOk, Record, WithoutBucketTree, HasAnyEntry, Childless, BareTree,
      BucketLockStep, KeyLockStep, MakeDirsStep, FsOk;
    assert TaskOk(s.tasks[t]);
    if s.tasks[t].pc.CheckEmpty? && !HasAnyEntry(s.fs, s.tasks[t].op.bucket) {
      NoEntryNoTree(s.fs, s.tasks[t].op.bucket);
    }
  }

  lemma {:induction false} StaysOut(s: State, steps: seq<Step>, t: TaskId)
    requires Inv(s) && Legal(s, steps) && t < |s.tasks| && TurnedAway(s.tasks[t])
    ensures var s' := After(s, steps); t < |s'.tasks| && !s'.tasks[t].progress.Complete?
    decreases |steps|
  {
    hide Inv, Do, Enabled;
    if steps != [] {
      StepKeepsInv(s, steps[0]);
      StepKeepsOp(s, steps[0], t);
      LooksOnce(s, steps[0], t);
      StaysOut(Do(s, steps[0]), steps[1..], t);
    }
  }

  lemma NewIsPending(s: State, step: Step, t: TaskId)
    requires Enabled(s, step) && |s.tasks| <= t < |Do(s, step).tasks|
    ensures Pending(Do(s, step).tasks[t])
  {
  }

  lemma {:induction false} ReadyPoint(s: State, steps: seq<Step>, t: TaskId) returns (i: nat)
    requires Inv(s) && Legal(s, steps) && (t < |s.tasks| ==> Pending(s.tasks[t]))
    requires t < |After(s, steps).tasks| && After(s, steps).tasks[t].progress.Complete?
    ensures i <= |steps| && Legal(s, steps[..i])
    ensures var m := After(s, steps[..i]);
            t < |m.tasks| && m.tasks[t].op == After(s, steps).tasks[t].op && Ready(m.fs, m.tasks[t].op)
    decreases |steps|
  {
    hide Inv, Do, Enabled, Ready, Pending, TurnedAway;
    assert steps[..0] == [];
    if steps == [] {
      NotYetDone(s, t);
      assert false;
    } else {
      var next := Do(s, steps[0]);
      StepKeepsInv(s, steps[0]);
      if t < |s.tasks| {
        LooksOnce(s, steps[0], t);
        StepKeepsOp(s, steps[0], t);
        if Ready(s.fs, s.tasks[t].op) {
          RunKeepsOp(s, steps, t);
          return 0;
        }
        if TurnedAway(next.tasks[t]) {
          StaysOut(next, steps[1..], t);
        }
      } else if t < |next.tasks| {
        NewIsPending(s, steps[0], t);
      }
      var j := ReadyPoint(next, steps[1..], t);
      i := j + 1;
      assert steps[..i][0] == steps[0] && steps[..i][1..] == steps[1..][..j];
    }
  }

  lemma NotYetDone(s: State, t: TaskId)
    requires Inv(s) && t < |s.tasks| && Pending(s.tasks[t])
    ensures !s.tasks[t].progress.Complete?
  {
    hide LocksOk, ViewsOk, SlotsOk, EventsOk, DownOk, FsOk;
    assert TaskOk(s.tasks[t]);
  }

  /**
   Whatever request a run acknowledges had, at some point of the run after it began, what it needs: a
   put, a delete or a listing its bucket, a creation its name free, a bucket deletion its bucket with
   no directory of any key in it.
   */
  lemma AcknowledgedFound(steps: seq<Step>, t: TaskId) returns (i: nat)
    requires Legal(INIT, steps) && t < |After(INIT, steps).tasks| && After(INIT, steps).tasks[t].progress.Complete?
    ensures i <= |steps| && Legal(INIT, steps[..i])
    ensures var m := After(INIT, steps[..i]);
            t < |m.tasks| && m.tasks[t].op == After(INIT, steps).tasks[t].op && Ready(m.fs, m.tasks[t].op)
  {
    hide Inv;
    InitInv();
    i := ReadyPoint(INIT, steps, t);
  }

  /** `delete_bucket` takes away a bucket that is there, with every key of it already absent. */
  lemma DeletedBucketsHoldNothing(s: State, t: TaskId, k: Slot)
    requires Reachable(s) && CanGo(s, t) && s.tasks[t].pc.RemoveBucket? && k.0 == s.tasks[t].op.bucket
    ensures ContentOf(s.fs, k) == ABSENT
    ensures k.0 in s.fs.buckets && k.0 !in GoStep(s, t, true).fs.buckets
  {
    hide LocksOk, TasksOk, SlotsOk, EventsOk, DownOk;
    ReachableInv(s);
    assert ViewOk(s.fs, t, s.tasks[t]);
  }

  /** A put past its second check has its bucket, so it neither publishes into nor re-creates a deleted one. */
  lemma PutsKeepToLiveBuckets(s: State, t: TaskId, io: bool)
    requires Reachable(s) && CanGo(s, t) && IsPutPc(s.tasks[t].pc) && !s.tasks[t].pc.Recheck?
    ensures s.tasks[t].op.bucket in s.fs.buckets
    ensures GoStep(s, t, io).fs.buckets == s.fs.buckets
  {
    hide LocksOk, SlotsOk, EventsOk, DownOk, Record, FsStep, FsOk, StagedOk, KeyOk, ContentOf, Publishes;
    ReachableInv(s);
    assert TaskOk(s.tasks[t]) && ViewOk(s.fs, t, s.tasks[t]);
    FsStepEffect(s.fs, t, s.tasks[t], io);
  }

  lemma DeleteBucketMakesNone(fs: Fs, task: Task, io: bool)
    requires task.op.kind.DeleteBucket? && TaskOk(task) && IsBucketPc(task.pc)
    ensures BucketStep(fs, task, io).fs.buckets <= fs.buckets
  {
    hide HasAnyEntry;
  }

  /**
   A creation that cannot write its metadata goes on to give the name back. That leaves everything
   as it was before the name was taken, unless it fails too, when the bare directory stands; and either
   way the creation is not acknowledged.
   */
  lemma FailedCreateGivesBack(s: State, t: TaskId, io: bool)
    requires Reachable(s) && CanGo(s, t)
    ensures s.tasks[t].pc.BucketMeta? ==>
              GoStep(s, t, false).tasks[t].pc.UndoCreate? && GoStep(s, t, false).fs == s.fs
    ensures s.tasks[t].pc.UndoCreate? ==>
              var b, s' := s.tasks[t].op.bucket, GoStep(s, t, io);
              && b in s.fs.buckets && NoTree(s.fs, b)
              && s'.fs == s.fs.(buckets := if io then s.fs.buckets - {b} else s.fs.buckets)
              && TurnedAway(s'.tasks[t])
  {
    hide LocksOk, SlotsOk, EventsOk, DownOk, Record, FsOk, StagedOk, KeyOk, NoTree, WithoutBucketTree;
    ReachableInv(s);
    assert TaskOk(s.tasks[t]) && ViewOk(s.fs, t, s.tasks[t]);
    if s.tasks[t].pc.UndoCreate? {
      NothingToTake(s.fs, s.tasks[t].op.bucket);
    }
  }

  lemma NothingToTake(fs: Fs, b: Bucket)
    requires FsOk(fs) && NoTree(fs, b)
    ensures WithoutBucketTree(fs, b) == fs
  {
    NoTreeIsBare(fs, b);
    BareRemoval(fs, b);
    assert WithoutBucketTree(fs, b).dirs == fs.dirs;
  }

  /** Only `create_bucket` brings a bucket into being. */
  lemma OnlyCreateMakesBuckets(s: State, step: Step, b: Bucket)
    requires Reachable(s) && Enabled(s, step) && b in Do(s, step).fs.buckets && b !in s.fs.buckets
    ensures step.Go? && s.tasks[step.task].op.kind.Create? && s.tasks[step.task].op.bucket == b
  {
    hide LocksOk, SlotsOk, EventsOk, DownOk, FsOk, Record, StageStep, PutStep, DeleteStep, BucketStep, StagedOk,
      BucketOk, KeyOk, ContentOf, Publishes;
    ReachableInv(s);
    if step.Go? {
      var task := s.tasks[step.task];
      assert TaskOk(task) && ViewOk(s.fs, step.task, task);
      if !IsLockPc(task.pc) {
        FsStepEffect(s.fs, step.task, task, step.io);
        if task.op.kind.DeleteBucket? {
          DeleteBucketMakesNone(s.fs, task, step.io);
        }
      }
    }
  }

  /** Requests that come, wait or die, a kill, the sweep and the reopening touch nothing but staged files. */
  lemma OnlyTasksTouchTheTree(s: State, step: Step)
    requires Enabled(s, step) && !step.Go?
    ensures Do(s, step).fs == s.fs.(tmp := Do(s, step).fs.tmp)
    ensures forall t :: t in Do(s, step).fs.tmp ==> t in s.fs.tmp && Do(s, step).fs.tmp[t] == s.fs.tmp[t]
  {
    hide CanGrant, Cancel;
  }

  /** A bucket is there, and no creation of it is about to undo itself. */
  ghost predicate Standing(s: State, b: Bucket) {
    b in s.fs.buckets && forall t: TaskId :: t < |s.tasks| ==> !MayUndo(s.tasks[t], b)
  }

  predicate MayUndo(task: Task, b: Bucket) {
    task.alive && task.op.bucket == b && (task.pc.BucketMeta? || task.pc.UndoCreate?)
  }

  /** The step is a bucket deletion's removal of `b`, or with `making` a bucket creation's `mkdir` of it. */
  ghost predicate TurnsBucket(s: State, step: Step, b: Bucket, making: bool)
    requires Enabled(s, step)
  {
    && step.Go? && s.tasks[step.task].op.bucket == b
    && if making then s.tasks[step.task].pc.MakeBucket? else s.tasks[step.task].pc.RemoveBucket?
  }

  ghost predicate NoneTurn(s: State, steps: seq<Step>, b: Bucket, making: bool)
    requires Legal(s, steps)
    decreases |steps|
  {
    steps == [] || (!TurnsBucket(s, steps[0], b, making) && NoneTurn(Do(s, steps[0]), steps[1..], b, making))
  }

  lemma FsStepStands(fs: Fs, t: TaskId, task: Task, io: bool, b: Bucket)
    requires TaskOk(task) && !IsLockPc(task.pc) && !task.pc.Finished? && task.alive && b in fs.buckets
    requires !MayUndo(task, b) && !(task.op.bucket == b && task.pc.RemoveBucket?)
    ensures var e := FsStep(fs, t, task, io); b in e.fs.buckets && !MayUndo(e.task, b)
  {
    hide HasAnyEntry, Childless, Meta.Upserted;
  }

  lemma LockStepStands(task: Task, b: Bucket)
    requires IsLockPc(task.pc)
    ensures !MayUndo(task.(pc := AfterLockStep(task.op, task.pc)), b)
  {
  }

  lemma StandsOn(s: State, step: Step, b: Bucket)
    requires Inv(s) && Enabled(s, step) && Standing(s, b) && !TurnsBucket(s, step, b, false)
    ensures Standing(Do(s, step), b)
  {
    hide LocksOk, ViewsOk, SlotsOk, EventsOk, DownOk, FsOk, Record, FsStep, BucketLockStep, KeyLockStep, AfterLockStep,
      TaskOk, Cancel;
    if step.Go? {
      var task := s.tasks[step.task];
      assert TaskOk(task) && !MayUndo(task, b);
      if IsLockPc(task.pc) {
        LockStepStands(task, b);
      } else {
        FsStepStands(s.fs, step.task, task, step.io, b);
      }
    }
    forall t: TaskId | t < |Do(s, step).tasks| ensures !MayUndo(Do(s, step).tasks[t], b) {
      assert t < |s.tasks| ==> !MayUndo(s.tasks[t], b);
    }
  }

  lemma {:induction false} RunStands(s: State, steps: seq<Step>, b: Bucket)
    requires Inv(s) && Legal(s, steps) && Standing(s, b) && NoneTurn(s, steps, b, false)
    ensures b in After(s, steps).fs.buckets
    decreases |steps|
  {
    hide Inv, Do, Enabled, TurnsBucket;
    if steps != [] {
      StandsOn(s, steps[0], b);
      StepKeepsInv(s, steps[0]);
      RunStands(Do(s, steps[0]), steps[1..], b);
    }
  }

  lemma {:induction false} RunStaysGone(s: State, steps: seq<Step>, b: Bucket)
    requires Inv(s) && Legal(s, steps) && b !in s.fs.buckets && NoneTurn(s, steps, b, true)
    ensures b !in After(s, steps).fs.buckets
    decreases |steps|
  {
    hide Inv, Do, Enabled, TurnsBucket;
    if steps != [] {
      StaysGone(s, steps[0], b);
      StepKeepsInv(s, steps[0]);
      RunStaysGone(Do(s, steps[0]), steps[1..], b);
    }
  }

  lemma StaysGone(s: State, step: Step, b: Bucket)
    requires Inv(s) && Enabled(s, step) && b !in s.fs.buckets && !TurnsBucket(s, step, b, true)
    ensures b !in Do(s, step).fs.buckets
  {
    hide LocksOk, SlotsOk, EventsOk, DownOk, FsOk, Record, HasAnyEntry, Childless, BucketLockStep, KeyLockStep, StagedOk,
      KeyOk, NoTree, BareTree;
    if step.Go? {
      assert TaskOk(s.tasks[step.task]) && ViewOk(s.fs, step.task, s.tasks[step.task]);
    }
  }

  /** Whoever is about to succeed in creating a bucket holds its lock, so no other is about to undo it. */
  lemma CreatorIsAlone(s: State, t: TaskId)
    requires Inv(s) && t < |s.tasks| && s.tasks[t].alive && s.tasks[t].pc.SyncCreate?
    ensures Standing(s, s.tasks[t].op.bucket)
  {
    hide LocksOk, SlotsOk, EventsOk, DownOk, FsOk, StagedOk, KeyOk, NoTree, BareTree;
    assert TaskOk(s.tasks[t]) && ViewOk(s.fs, t, s.tasks[t]);
    forall u: TaskId | u < |s.tasks| ensures !MayUndo(s.tasks[u], s.tasks[t].op.bucket) {
      if u != t && MayUndo(s.tasks[u], s.tasks[t].op.bucket) {
        BucketHoldersShare(s, t, u);
      }
    }
  }

  lemma CreationStep(s: State, step: Step, t: TaskId)
    requires Inv(s) && Enabled(s, step) && t < |s.tasks| && t < |Do(s, step).tasks|
    requires Do(s, step).tasks[t].progress.Complete? && !s.tasks[t].progress.Complete? && s.tasks[t].op.kind.Create?
    ensures s.tasks[t].alive && s.tasks[t].pc.SyncCreate? && !TurnsBucket(s, step, s.tasks[t].op.bucket, false)
  {
    hide LocksOk, ViewsOk, SlotsOk, EventsOk, DownOk, FsOk, Record, WithoutBucketTree, HasAnyEntry, Childless,
      BucketLockStep, KeyLockStep;
    if step.Go? {
      assert TaskOk(s.tasks[step.task]);
    }
  }

  /**
   A bucket whose creation was acknowledged is there, through any further steps, kills and reopens
   included, until a bucket deletion removes it; one whose deletion was acknowledged is gone until a
   bucket creation makes it again.
   */
  lemma AcknowledgedBucketStays(s: State, step: Step, t: TaskId, steps: seq<Step>)
    requires Reachable(s) && Enabled(s, step) && t < |s.tasks| && t < |Do(s, step).tasks|
    requires Do(s, step).tasks[t].progress.Complete? && !s.tasks[t].progress.Complete? && s.tasks[t].op.Exclusive()
    requires Legal(Do(s, step), steps)
    requires NoneTurn(Do(s, step), steps, s.tasks[t].op.bucket, s.tasks[t].op.kind.DeleteBucket?)
    ensures s.tasks[t].op.bucket in After(Do(s, step), steps).fs.buckets <==> s.tasks[t].op.kind.Create?
  {
    hide Reachable, Inv, Do, Enabled, Standing, TurnsBucket, NoneTurn;
    ReachableInv(s);
    StepKeepsInv(s, step);
    var b := s.tasks[t].op.bucket;
    if s.tasks[t].op.kind.Create? {
      CreationStep(s, step, t);
      CreatorIsAlone(s, t);
      StandsOn(s, step, b);
      RunStands(Do(s, step), steps, b);
    } else {
      SuccessOfTask(s, step, t);
      RunStaysGone(Do(s, step), steps, b);
    }
  }
}
