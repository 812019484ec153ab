/**
 A request dropped while it awaits a filesystem call lets go of its locks, but the call goes on
 without it. If it has landed by then, or never does, that is a request whose next calls fail,
 and so is part of the protocol. A call that lands after the locks are gone is not.
 */
module PublicationDropped {
  import opened Types
  import opened LockTable
  import opened Publication
  import opened PublicationLog
  import opened PublicationInvariant
  import opened PublicationSafety
  import opened PublicationBuckets
  import opened PublicationProgress
  import opened PublicationAlone
  import opened PublicationWitness
  import Meta

  // ----- a call that never lands -----

  /** What one failing call leaves: nothing changed, and the request letting go or one call from it. */
  lemma CallFails(fs: Fs, t: TaskId, task: Task)
    requires TaskOk(task) && !IsLockPc(task.pc) && !task.pc.Finished?
    ensures var e := FsStep(fs, t, task, false);
            && e.fs == fs && e.task == task.(pc := e.task.pc)
            && (Releasing(e.task.pc) || (task.pc.Prune? && e.task.pc.SyncDelete?) || (task.pc.BucketMeta? && e.task.pc.UndoCreate?))
  {
    hide Childless, HasAnyEntry, WithoutBucketTree, Meta.Upserted;
  }

  lemma GoFails(s: State, t: TaskId)
    requires Inv(s) && CanGo(s, t) && !IsLockPc(s.tasks[t].pc)
    ensures var s', pc := GoStep(s, t, false), s.tasks[t].pc;
            var pc' := s'.tasks[t].pc;
            && s' == s.(tasks := s.tasks[t := s.tasks[t].(pc := pc')])
            && (Releasing(pc') || (pc.Prune? && pc'.SyncDelete?) || (pc.BucketMeta? && pc'.UndoCreate?))
  {
    hide LocksOk, ViewsOk, FsOk, SlotsOk, EventsOk, DownOk, TaskOk, FsStep, Releasing;
    assert TaskOk(s.tasks[t]);
    CallFails(s.fs, t, s.tasks[t]);
  }

  /**
   Dropping a request in any of its filesystem calls, when that call never lands, is a run of the
   protocol: one or two failing calls after which only the letting go of its locks is left.
   */
  lemma DropIsFailure(s: State, t: TaskId) returns (s': State)
    requires Reachable(s) && CanGo(s, t) && !IsLockPc(s.tasks[t].pc)
    ensures Reachable(s') && t < |s'.tasks| && Releasing(s'.tasks[t].pc)
    ensures s' == s.(tasks := s.tasks[t := s.tasks[t].(pc := s'.tasks[t].pc)])
  {
    hide Reachable, Inv, GoStep, Releasing;
    ReachableInv(s);
    GoFails(s, t);
    s' := GoStep(s, t, false);
    GoIsStep(s, t);
    ReachableStep(s, Go(t, false));
    if !Releasing(s'.tasks[t].pc) {
      var m := s';
      ReachableInv(m);
      GoFails(m, t);
      GoIsStep(m, t);
      ReachableStep(m, Go(t, false));
      s' := GoStep(m, t, false);
    }
  }

  // ----- a call that lands late -----

  /** The call that `call` was making is carried out on the tree as it is by now. */
  ghost function Landed(fs: Fs, t: TaskId, call: Task): Fs {
    FsStep(fs, t, call, true).fs
  }

  /** What a put's manifest rename writes. */
  function Written(call: Task): seq<VersionEntry>
    requires call.pc.StoreManifest?
  {
    Meta.Upserted(if call.pc.found.Some? then call.pc.found.value else [], call.op.Entry())
  }

  /**
   The late call finds something of `k` to change. A put's data rename does only if its staged
   file, which dropping it removes, is still there.
   */
  predicate Disturbs(fs: Fs, t: TaskId, call: Task, k: Slot) {
    var slot := call.op.Slot();
    match call.pc
    case RenameData => k == slot && slot in fs.dirs && t in fs.tmp && Lookup(fs.data, k) != Some(fs.tmp[t])
    case StoreManifest(_) => k == slot && slot in fs.dirs && Lookup(fs.manifests, k) != Some(Written(call))
    case UnlinkManifest => k == slot && k in fs.manifests
    case UnlinkData => k == slot && k in fs.data
    case UndoCreate => k.0 == call.op.bucket && (k in fs.manifests || k in fs.data)
    case RemoveTree => k.0 == call.op.bucket && (k in fs.manifests || k in fs.data)
    case _ => false
  }

  /** A call that lands late changes the files of a key exactly if it disturbs them. */
  lemma LateCallChanges(fs: Fs, t: TaskId, call: Task, k: Slot)
    requires TaskOk(call) && !IsLockPc(call.pc) && !call.pc.Finished?
    ensures ContentOf(Landed(fs, t, call), k) != ContentOf(fs, k) <==> Disturbs(fs, t, call, k)
  {
    hide Childless, HasAnyEntry, Meta.Upserted;
    if call.pc.Start? || call.pc.Stage? {
      assert Landed(fs, t, call).manifests == fs.manifests && Landed(fs, t, call).data == fs.data;
    }
  }

  ghost predicate DataForAll(fs: Fs) {
    forall k :: k in fs.manifests ==> k in fs.data
  }

  /** The late call takes the data from under a manifest, or puts a manifest where there is no data. */
  predicate Strips(fs: Fs, call: Task) {
    var slot := call.op.Slot();
    || (call.pc.UnlinkData? && slot in fs.manifests)
    || (call.pc.StoreManifest? && slot in fs.dirs && slot !in fs.data)
  }

  /** From any reachable state, a late call leaves some manifest without its data exactly if it strips one. */
  lemma LateCallStrips(s: State, t: TaskId, call: Task)
    requires Reachable(s) && TaskOk(call) && !IsLockPc(call.pc) && !call.pc.Finished?
    ensures !DataForAll(Landed(s.fs, t, call)) <==> Strips(s.fs, call)
  {
    hide Reachable, Overwritten;
    forall k | k in s.fs.manifests ensures k in s.fs.data {
      ManifestsHaveTheirData(s, k);
    }
    Stripping(s.fs, t, call);
  }

  lemma Stripping(fs: Fs, t: TaskId, call: Task)
    requires DataForAll(fs) && TaskOk(call) && !IsLockPc(call.pc) && !call.pc.Finished?
    ensures !DataForAll(Landed(fs, t, call)) <==> Strips(fs, call)
  {
    hide Childless, HasAnyEntry, Meta.Upserted;
    var fs', slot := Landed(fs, t, call), call.op.Slot();
    if Strips(fs, call) {
      assert slot in fs'.manifests && slot !in fs'.data;
    }
  }

  // ----- and that it can happen -----

  lemma FailedUnlink(fs: Fs, s: State, t: TaskId)
    requires Inv(s) && OnTrack(fs, s, t) && s.tasks[t].op.kind.Delete? && s.tasks[t].progress.Gap?
    ensures CanGo(s, t) && s.tasks[t].pc.UnlinkData? && s.tasks[t].op.bucket in s.fs.buckets
    ensures var s' := GoStep(s, t, false); s'.fs == s.fs && Undisturbed(s, s', t) && s'.tasks[t] == s.tasks[t].(pc := UnlockKey)
  {
    hide LocksOk, FsOk, ViewsOk, SlotsOk, EventsOk, DownOk, Alone, CanGrant, Childless, HasAnyEntry, Makes, Pruned;
    assert TaskOk(s.tasks[t]);
    assert s.tasks[t].pc.UnlinkData?;
  }

  /** A delete is dropped while its data unlink is in flight, and lets go of its locks. */
  lemma DroppedInUnlink(gone: Op) returns (s: State, t: TaskId)
    requires gone.kind.Delete? && gone.WellFormed()
    ensures Reachable(s) && s.up && Idle(s) && gone.bucket in s.fs.buckets
    ensures t < |s.tasks| && s.tasks[t] == Task(gone, Finished, Gap, true)
  {
    hide Reachable, Idle, Legal, After, Do, Alone, Inv, GoStep, Along;
    var made := BucketMade(gone.bucket, gone.stamp);
    Arrives(made, gone);
    var m := Do(made, Begin(gone));
    t := |made.tasks|;
    StartsOnTrack(m, t);
    var steps := GetsTo(m.fs, m, t, Gap);
    var between := After(m, steps);
    ReachableRun(m, steps);
    StaysAlone(m, between, t);
    FailedUnlink(m.fs, between, t);
    GoIsStep(between, t);
    ReachableStep(between, Go(t, false));
    StaysAlone(between, GoStep(between, t, false), t);
    s := ReleasesAlone(GoStep(between, t, false), t);
  }

  /**
   Any put can be acknowledged after such a delete has let go, and then lose its data to the
   unlink that lands only now.
   */
  lemma LateUnlinkStrips(gone: Op, put: Op) returns (s: State, t: TaskId, u: TaskId)
    requires gone.kind.Delete? && gone.WellFormed() && put.kind.Put? && put.WellFormed() && put.Slot() == gone.Slot()
    ensures Reachable(s) && Idle(s) && t < |s.tasks| && s.tasks[t] == Task(gone, Finished, Gap, true)
    ensures u < |s.tasks| && s.tasks[u].op == put && s.tasks[u].progress.Complete? && KeyHolds(s.fs, put)
    ensures var fs' := Landed(s.fs, t, Task(gone, UnlinkData, Gap, true)); put.Slot() in fs'.manifests && put.Slot() !in fs'.data
  {
    hide Reachable, Idle;
    var dropped, at := DroppedInUnlink(gone);
    t, u := at, |dropped.tasks|;
    s := Served(dropped, put);
    PutServed(dropped.fs, s.fs, u, put);
    LeftHolds(s.fs, put);
  }
}
