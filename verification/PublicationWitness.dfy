/** Reachable states that show how far the engine's promises go. */
module PublicationWitness {
  import opened Types
  import opened LockTable
  import opened Publication
  import opened PublicationLog
  import opened PublicationInvariant
  import opened PublicationSafety
  import opened PublicationBuckets
  import opened PublicationProgress
  import opened PublicationAlone

  // ----- putting runs together -----

  lemma {:induction false} LegalConcat(s: State, a: seq<Step>, b: seq<Step>)
    requires Legal(s, a) && Legal(After(s, a), b)
    ensures Legal(s, a + b) && After(s, a + b) == After(After(s, a), b)
    decreases |a|
  {
    hide Do, Enabled;
    if a == [] {
      assert a + b == b;
    } else {
      assert (a + b)[1..] == a[1..] + b;
      LegalConcat(Do(s, a[0]), a[1..], b);
    }
  }

  lemma ReachableRun(s: State, steps: seq<Step>)
    requires Reachable(s) && Legal(s, steps)
    ensures Reachable(After(s, steps))
  {
    hide Legal, After;
    var before :| Legal(INIT, before) && After(INIT, before) == s;
    LegalConcat(INIT, before, steps);
    assert Legal(INIT, before + steps);
  }

  lemma ReachableStep(s: State, step: Step)
    requires Reachable(s) && Enabled(s, step)
    ensures Reachable(Do(s, step))
  {
    hide Do, Enabled, Reachable;
    assert [step][1..] == [];
    assert Legal(s, [step]) && After(s, [step]) == Do(s, step);
    ReachableRun(s, [step]);
  }

  lemma Arrives(s: State, op: Op)
    requires Reachable(s) && s.up && Idle(s) && op.WellFormed()
    ensures var s', t := Do(s, Begin(op)), |s.tasks|;
            Starting(s', t) && s'.up && s'.fs == s.fs && s'.tasks[t] == Task(op, FirstPc(op), Before, true)
  {
    hide Reachable;
    ReachableStep(s, Begin(op));
    var s', t := Do(s, Begin(op)), |s.tasks|;
    forall u: TaskId | u != t ensures !Unfinished(s', u) {
      assert !Unfinished(s, u);
    }
  }

  lemma StartsOnTrack(s: State, t: TaskId)
    requires Starting(s, t) && Ready(s.fs, s.tasks[t].op)
    ensures Inv(s) && OnTrack(s.fs, s, t)
  {
    hide Inv, Along, Ready, Reachable;
    ReachableInv(s);
    StartsAlong(s, t);
  }

  lemma AloneAndDone(s: State, s': State, t: TaskId)
    requires Alone(s, t) && Undisturbed(s, s', t) && (t < |s'.tasks| ==> s'.tasks[t].pc.Finished?)
    ensures Idle(s')
  {
    StaysAlone(s, s', t);
  }

  /** A request that finds what it needs can be served. */
  lemma Served(s: State, op: Op) returns (s': State)
    requires Reachable(s) && s.up && Idle(s) && op.WellFormed() && Ready(s.fs, op)
    ensures Reachable(s') && s'.up && Idle(s') && |s'.tasks| == |s.tasks| + 1
    ensures s'.tasks[|s.tasks|].op == op && s'.tasks[|s.tasks|].progress.Complete? && Makes(s.fs, s'.fs, |s.tasks|, op)
    ensures forall u: TaskId :: u < |s.tasks| ==> s'.tasks[u] == s.tasks[u]
  {
    hide Reachable, Legal, After, Makes, Ready, Do, Idle, Alone;
    Arrives(s, op);
    var m, t := Do(s, Begin(op)), |s.tasks|;
    var steps := EndsAlone(m, t);
    AnswersAlone(m, t, steps);
    s' := After(m, steps);
    ReachableRun(m, steps);
    AloneAndDone(m, s', t);
    BeginAdds(s, op);
  }

  /** What a put that was served leaves at its key, its bucket being there. */
  lemma PutServed(fs: Fs, fs': Fs, t: TaskId, op: Op)
    requires op.kind.Put? && Ready(fs, op) && Makes(fs, fs', t, op)
    ensures ContentOf(fs', op.Slot()) == Left(op) && op.bucket in fs'.buckets
  {
    hide Way;
    EntryRecords(fs'.manifests[op.Slot()], op);
  }

  lemma BeginAdds(s: State, op: Op)
    requires Enabled(s, Begin(op))
    ensures |Do(s, Begin(op)).tasks| == |s.tasks| + 1
    ensures forall u: TaskId :: u < |s.tasks| ==> Do(s, Begin(op)).tasks[u] == s.tasks[u]
  {
  }

  // ----- a manifest that does not describe its data -----

  /** The steps of a put or delete go one visible step at a time. */
  lemma NextVisible(s: State, t: TaskId)
    requires Inv(s) && CanGo(s, t) && s.tasks[t].op.OnKey() && (s.tasks[t].progress.Before? || s.tasks[t].progress.Gap?)
    ensures var task, task' := s.tasks[t], GoStep(s, t, true).tasks[t];
            var c, c' := ContentOf(s.fs, task.op.Slot()), ContentOf(GoStep(s, t, true).fs, task.op.Slot());
            || (task'.progress == task.progress && c' == c)
            || (task.progress.Before? && task'.progress.Gap? && c' == HalfWay(task.op, c))
            || (task.progress.Gap? && task'.progress.Published? && c' == Left(task.op))
  {
    hide LocksOk, FsOk, SlotsOk, EventsOk, DownOk, TaskOk, ViewOk, FsStep, BucketLockStep, KeyLockStep, AfterLockStep,
      Record, ContentOf, Touches;
    assert TaskOk(s.tasks[t]) && ViewOk(s.fs, t, s.tasks[t]);
    if !IsLockPc(s.tasks[t].pc) {
      FsStepEffect(s.fs, t, s.tasks[t], true);
    }
  }

  lemma NotAnswered(fs: Fs, s: State, t: TaskId)
    requires OnTrack(fs, s, t) && !s.tasks[t].progress.Complete?
    ensures Unfinished(s, t)
  {
    hide Alone, Ready, Makes;
  }

  /** A put or delete left alone gets to any point of its publication. */
  lemma {:induction false} GetsTo(fs: Fs, s: State, t: TaskId, goal: Progress) returns (steps: seq<Step>)
    requires Inv(s) && OnTrack(fs, s, t) && s.tasks[t].op.OnKey()
    requires goal.Gap? || goal.Published?
    requires s.tasks[t].progress == goal || s.tasks[t].progress.Before? || (s.tasks[t].progress.Gap? && goal.Published?)
    ensures SoloRun(s, steps, t) && (s.tasks[t].progress == goal ==> steps == [])
    ensures var s' := After(s, steps);
            var slot := s.tasks[t].op.Slot();
            && Inv(s') && s'.tasks[t].progress == goal && OnTrack(fs, s', t)
            && (s.tasks[t].progress.Before? && goal.Gap? ==> ContentOf(s'.fs, slot) == HalfWay(s.tasks[t].op, ContentOf(s.fs, slot)))
            && (s.tasks[t].progress != goal && goal.Published? ==> ContentOf(s'.fs, slot) == Left(s.tasks[t].op))
    decreases Rank(s.tasks[t])
  {
    hide Inv, GoStep, Rank, CanGo, Alone, ContentOf, HalfWay, Left, Along, Ready;
    if s.tasks[t].progress == goal {
      return [];
    }
    NotAnswered(fs, s, t);
    GoesAlone(s, t);
    NextVisible(s, t);
    StepAlong(fs, s, t);
    StepKeepsInv(s, Go(t, true));
    StaysAlone(s, GoStep(s, t, true), t);
    var rest := GetsTo(fs, GoStep(s, t, true), t, goal);
    SoloStep(s, t, rest);
    steps := [Go(t, true)] + rest;
  }

  lemma Opened()
    ensures Reachable(Do(INIT, Open)) && Do(INIT, Open).up && Idle(Do(INIT, Open)) && Do(INIT, Open).fs.buckets == {}
  {
    assert Legal(INIT, []) && After(INIT, []) == INIT;
    ReachableStep(INIT, Open);
  }

  lemma BucketMade(b: Bucket, stamp: VersionEntry) returns (s: State)
    ensures Reachable(s) && s.up && Idle(s) && b in s.fs.buckets
  {
    Opened();
    var op := Op(Create, b, [], [], stamp);
    hide Reachable, Idle;
    s := Served(Do(INIT, Open), op);
  }

  /**
   Any overwrite with other bytes can be caught by a kill after its data rename: the bytes are
   then all of the new body, under the manifest of the old.
   */
  lemma OverwriteCanTear(prior: Op, next: Op) returns (s: State)
    requires prior.kind.Put? && next.kind.Put? && prior.Slot() == next.Slot() && prior.WellFormed() && next.WellFormed()
    requires prior.Body() != next.Body()
    ensures Reachable(s) && !s.up
    ensures ContentOf(s.fs, next.Slot()) == Content(Some([prior.Entry()]), Some(next.Body()))
    ensures !Describes(prior.Entry(), next.Body())
  {
    hide Reachable, Idle, Legal, After, Do, Alone, Inv, Makes, Along;
    var made := BucketMade(prior.bucket, prior.stamp);
    var first := Served(made, prior);
    PutServed(made.fs, first.fs, |made.tasks|, prior);
    Arrives(first, next);
    var m, t := Do(first, Begin(next)), |first.tasks|;
    StartsOnTrack(m, t);
    var steps := GetsTo(m.fs, m, t, Gap);
    var torn := After(m, steps);
    ReachableRun(m, steps);
    KillKeepsFiles(torn);
    s := Do(torn, Kill);
    ReachableStep(torn, Kill);
  }

  lemma KillKeepsFiles(s: State)
    ensures Enabled(s, Kill) && Do(s, Kill).fs == s.fs && !Do(s, Kill).up
  {
  }

  // ----- a put that fails and has published all the same -----

  predicate Releasing(pc: Pc) {
    || pc.UnlockKey? || pc.DropKeyClone? || pc.RemoveKeyEntry?
    || pc.UnlockBucket? || pc.DropBucketClone? || pc.RemoveBucketEntry? || pc.Finished?
  }

  /** Letting go of its locks changes no file and nothing of what the request returns. */
  lemma {:induction false} ReleasesAlone(s: State, t: TaskId) returns (s': State)
    requires Reachable(s) && t < |s.tasks| && s.tasks[t].alive && Alone(s, t) && Releasing(s.tasks[t].pc)
    ensures Reachable(s') && Idle(s') && s'.fs == s.fs && s'.up == s.up && Undisturbed(s, s', t)
    ensures s'.tasks[t] == s.tasks[t].(pc := Finished)
    decreases PcRank(s.tasks[t].op, s.tasks[t].pc)
  {
    hide Reachable, Inv, CanGo, CanGoFairly;
    if s.tasks[t].pc.Finished? {
      AloneAndDone(s, s, t);
      return s;
    }
    ReachableInv(s);
    GoesAlone(s, t);
    ReleaseStep(s, t);
    ReachableStep(s, Go(t, true));
    StaysAlone(s, GoStep(s, t, true), t);
    s' := ReleasesAlone(GoStep(s, t, true), t);
  }

  lemma ReleaseStep(s: State, t: TaskId)
    requires CanGo(s, t) && Releasing(s.tasks[t].pc)
    ensures var s' := GoStep(s, t, true);
            && s'.fs == s.fs && Undisturbed(s, s', t) && Releasing(s'.tasks[t].pc)
            && s'.tasks[t] == s.tasks[t].(pc := s'.tasks[t].pc)
            && PcRank(s'.tasks[t].op, s'.tasks[t].pc) < PcRank(s.tasks[t].op, s.tasks[t].pc)
  {
    hide BucketLockStep, KeyLockStep, CanGrant;
  }

  lemma FailedSync(fs: Fs, s: State, t: TaskId)
    requires Inv(s) && OnTrack(fs, s, t) && s.tasks[t].op.kind.Put? && s.tasks[t].progress.Published?
    ensures CanGo(s, t)
    ensures var s' := GoStep(s, t, false); s'.fs == s.fs && Undisturbed(s, s', t) && s'.tasks[t] == s.tasks[t].(pc := UnlockKey)
  {
    hide LocksOk, FsOk, ViewsOk, SlotsOk, EventsOk, DownOk, Alone, CanGrant, Ready, Makes;
    assert TaskOk(s.tasks[t]);
    assert s.tasks[t].pc.SyncPut?;
  }

  /** Any put can return an error, its last sync having failed, and have replaced the object all the same. */
  lemma FailedPutCanPublish(op: Op) returns (s: State, t: TaskId)
    requires op.kind.Put? && op.WellFormed()
    ensures Reachable(s) && s.up && Idle(s) && t < |s.tasks| && s.tasks[t].op == op
    ensures s.tasks[t].alive && s.tasks[t].pc.Finished? && !s.tasks[t].progress.Complete?
    ensures ContentOf(s.fs, op.Slot()) == Left(op)
  {
    hide Reachable, Idle, Legal, After, Do, Alone, Inv, GoStep, Along;
    var made := BucketMade(op.bucket, op.stamp);
    Arrives(made, op);
    var m := Do(made, Begin(op));
    t := |made.tasks|;
    StartsOnTrack(m, t);
    var steps := GetsTo(m.fs, m, t, Published);
    var published := After(m, steps);
    ReachableRun(m, steps);
    StaysAlone(m, published, t);
    FailedSync(m.fs, published, t);
    GoIsStep(published, t);
    ReachableStep(published, Go(t, false));
    StaysAlone(published, GoStep(published, t, false), t);
    s := ReleasesAlone(GoStep(published, t, false), t);
  }

  lemma GoIsStep(s: State, t: TaskId)
    requires CanGo(s, t)
    ensures Enabled(s, Go(t, false)) && Do(s, Go(t, false)) == GoStep(s, t, false)
  {
  }

  // ----- a lock entry nobody removes -----

  /** Two requests `c` for a bucket lock, and nothing else. */
  ghost function Two(c: Op, pc0: Pc, pc1: Pc, tab: Table<Bucket>): State {
    INIT.(bucketLocks := tab, tasks := [Task(c, pc0, Before, true), Task(c, pc1, Before, true)], up := true)
  }

  /** One of the two takes a step with the lock table. */
  lemma LockMove(c: Op, pc0: Pc, pc1: Pc, tab: Table<Bucket>, t: TaskId)
    requires Reachable(Two(c, pc0, pc1, tab)) && t < 2
    requires var pc := if t == 0 then pc0 else pc1;
             && IsBucketLockPc(pc) && (pc.WantBucket? || t in tab.refs) && (pc.WaitBucket? ==> CanGrant(tab, t))
    ensures var pc := if t == 0 then pc0 else pc1;
            var tab' := BucketLockStep(tab, t, Task(c, pc, Before, true));
            Reachable(if t == 0 then Two(c, AfterLockStep(c, pc), pc1, tab') else Two(c, pc0, AfterLockStep(c, pc), tab'))
  {
    hide Reachable, CanGrant, BucketLockStep, AfterLockStep;
    var s := Two(c, pc0, pc1, tab);
    ReachableStep(s, Go(t, true));
    var task := s.tasks[t].(pc := AfterLockStep(c, s.tasks[t].pc));
    assert s.tasks[t := task] == if t == 0 then [task, s.tasks[1]] else [s.tasks[0], task];
  }

  /** The table with the first of two holding the name and the second waiting for it. */
  ghost function OneWaits(b: Bucket, phase: Phase): Table<Bucket> {
    Table(map[b := 0], map[0 := Ref(b, 0, true, phase, 0), 1 := Ref(b, 0, true, Waiting, 1)], 2, {})
  }

  lemma OthersOwn(b: Bucket)
    ensures RemoveIf(OneWaits(b, Dropped), 0) == Table(map[b := 0], map[1 := Ref(b, 0, true, Waiting, 1)], 2, {})
  {
    var tab := OneWaits(b, Dropped);
    assert Owners(tab, 0) == {1} && EntriesOf(tab, 0) == {b};
    assert tab.refs - {0} == map[1 := Ref(b, 0, true, Waiting, 1)];
    assert tab.abandoned - {b} == {};
  }

  lemma BothAsk(c: Op)
    requires c.kind.Create? && c.WellFormed()
    ensures Reachable(Two(c, WantBucket, WantBucket, Empty(0)))
  {
    Opened();
    var s := Do(INIT, Open);
    hide Reachable;
    ReachableStep(s, Begin(c));
    var s1 := Do(s, Begin(c));
    ReachableStep(s1, Begin(c));
    assert Do(s1, Begin(c)).tasks == [Task(c, WantBucket, Before, true), Task(c, WantBucket, Before, true)];
  }

  lemma FirstHolds(c: Op)
    requires c.kind.Create? && c.WellFormed()
    ensures Reachable(Two(c, MakeBucket, WaitBucket, OneWaits(c.bucket, Held)))
  {
    hide Reachable, Two;
    var b := c.bucket;
    BothAsk(c);
    LockMove(c, WantBucket, WantBucket, Empty(0), 0);
    var one := Enter(Empty(0), 0, b, true);
    LockMove(c, WaitBucket, WantBucket, one, 1);
    assert Enter(one, 1, b, true) == OneWaits(b, Waiting);
    LockMove(c, WaitBucket, WaitBucket, OneWaits(b, Waiting), 0);
    assert SetPhase(OneWaits(b, Waiting), 0, Held) == OneWaits(b, Held);
  }

  lemma FirstFails(c: Op)
    requires c.kind.Create? && c.WellFormed()
    ensures Reachable(Two(c, UnlockBucket, WaitBucket, OneWaits(c.bucket, Held)))
  {
    FirstHolds(c);
    hide Reachable;
    ReachableStep(Two(c, MakeBucket, WaitBucket, OneWaits(c.bucket, Held)), Go(0, false));
  }

  /** The first lets go while the second still waits, so the entry stays. */
  lemma FirstLeaves(c: Op)
    requires c.kind.Create? && c.WellFormed()
    ensures Reachable(Two(c, Finished, WaitBucket, Table(map[c.bucket := 0], map[1 := Ref(c.bucket, 0, true, Waiting, 1)], 2, {})))
  {
    hide Reachable, Two, RemoveIf;
    var b := c.bucket;
    FirstFails(c);
    LockMove(c, UnlockBucket, WaitBucket, OneWaits(b, Held), 0);
    assert SetPhase(OneWaits(b, Held), 0, Unlocked) == OneWaits(b, Unlocked);
    LockMove(c, DropBucketClone, WaitBucket, OneWaits(b, Unlocked), 0);
    assert SetPhase(OneWaits(b, Unlocked), 0, Dropped) == OneWaits(b, Dropped);
    LockMove(c, RemoveBucketEntry, WaitBucket, OneWaits(b, Dropped), 0);
    OthersOwn(b);
  }

  /** Then the second is cancelled: nobody is left, and the entry for `b` is still there. */
  lemma EntryCanLeak(c: Op) returns (s: State)
    requires c.kind.Create? && c.WellFormed()
    ensures Reachable(s) && Idle(s) && c.bucket in s.bucketLocks.entries
  {
    FirstLeaves(c);
    hide Reachable;
    var s1 := Two(c, Finished, WaitBucket, Table(map[c.bucket := 0], map[1 := Ref(c.bucket, 0, true, Waiting, 1)], 2, {}));
    ReachableStep(s1, GiveUp(1));
    s := Do(s1, GiveUp(1));
  }
}
