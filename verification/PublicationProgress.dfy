/** Lock order makes the engine deadlock-free, and every operation takes finitely many steps. */
module PublicationProgress {
  import opened Types
  import opened LockTable
  import opened Publication
  import opened PublicationInvariant
  import opened PublicationSafety

  // ----- somebody can always move -----

  /** No waiter on the same lock object has been waiting longer than `t`. */
  ghost predicate FirstInLine<K>(tab: Table<K>, t: TaskId)
    requires t in tab.refs
  {
    forall u :: u in tab.refs && tab.refs[u].phase.Waiting? && tab.refs[u].id == tab.refs[t].id ==>
      tab.refs[t].ticket <= tab.refs[u].ticket
  }

  /** `t` can take a step, and if that step grants it a lock, first come is first served. */
  ghost predicate CanGoFairly(s: State, t: TaskId) {
    && CanGo(s, t)
    && (s.tasks[t].pc.WaitBucket? ==> FirstInLine(s.bucketLocks, t))
    && (s.tasks[t].pc.WaitKey? ==> FirstInLine(s.keyLocks, t))
  }

  lemma {:induction false} Longest(waiters: set<TaskId>, ticket: map<TaskId, nat>) returns (t: TaskId)
    requires waiters != {} && waiters <= ticket.Keys
    ensures t in waiters && forall u :: u in waiters ==> ticket[t] <= ticket[u]
    decreases |waiters|
  {
    var v :| v in waiters;
    if waiters == {v} {
      return v;
    }
    var rest := waiters - {v};
    assert rest + {v} == waiters;
    var w := Longest(rest, ticket);
    t := if ticket[v] <= ticket[w] then v else w;
  }

  /** A lock object that nobody holds can be granted to the first in line. */
  lemma FreeLockGrants<K>(tab: Table<K>, t: TaskId) returns (u: TaskId)
    requires t in tab.refs && tab.refs[t].phase.Waiting?
    requires forall v :: v in tab.refs && tab.refs[v].id == tab.refs[t].id ==> !tab.refs[v].phase.Held?
    ensures CanGrant(tab, u) && FirstInLine(tab, u)
  {
    var waiters := set v | v in tab.refs && tab.refs[v].phase.Waiting? && tab.refs[v].id == tab.refs[t].id;
    assert t in waiters;
    var ticket := map v | v in tab.refs :: tab.refs[v].ticket;
    u := Longest(waiters, ticket);
    forall v | v in tab.refs && tab.refs[v].phase.Waiting? && tab.refs[v].id == tab.refs[u].id
      ensures tab.refs[u].ticket <= tab.refs[v].ticket
    {
      assert v in waiters && ticket[u] <= ticket[v];
    }
  }

  predicate Waits(pc: Pc) {
    pc.WaitBucket? || pc.WaitKey?
  }

  lemma NonWaiterGoes(s: State, t: TaskId)
    requires LocksOk(s) && Unfinished(s, t) && !Waits(s.tasks[t].pc)
    ensures CanGoFairly(s, t)
  {
    hide Valid, Exact, FirstInLine, CanGrant;
    assert BucketRefFits(s, t) && KeyRefFits(s, t);
  }

  /** A key's lock is only held by tasks that are not waiting for anything. */
  lemma KeyWaiterGoes(s: State, t: TaskId) returns (u: TaskId)
    requires LocksOk(s) && Unfinished(s, t) && s.tasks[t].pc.WaitKey?
    requires forall v: TaskId :: Unfinished(s, v) ==> Waits(s.tasks[v].pc)
    ensures CanGoFairly(s, u)
  {
    hide Valid, Exact, FirstInLine;
    assert KeyRefFits(s, t);
    forall v | v in s.keyLocks.refs ensures !s.keyLocks.refs[v].phase.Held? {
      assert KeyRefFits(s, v);
      assert Unfinished(s, v) ==> Waits(s.tasks[v].pc);
    }
    u := FreeLockGrants(s.keyLocks, t);
    assert KeyRefFits(s, u);
  }

  /** With nobody waiting for a key, a bucket's lock is only held by tasks that are not waiting for anything. */
  lemma BucketWaiterGoes(s: State, t: TaskId) returns (u: TaskId)
    requires LocksOk(s) && Unfinished(s, t)
    requires forall v: TaskId :: Unfinished(s, v) ==> s.tasks[v].pc.WaitBucket?
    ensures CanGoFairly(s, u)
  {
    hide Valid, Exact, FirstInLine;
    assert BucketRefFits(s, t);
    forall v | v in s.bucketLocks.refs ensures !s.bucketLocks.refs[v].phase.Held? {
      assert BucketRefFits(s, v);
      assert Unfinished(s, v) ==> s.tasks[v].pc.WaitBucket?;
    }
    u := FreeLockGrants(s.bucketLocks, t);
    assert BucketRefFits(s, u);
  }

  lemma SomeoneGoes(s: State, t: TaskId) returns (u: TaskId)
    requires LocksOk(s) && Unfinished(s, t)
    ensures CanGoFairly(s, u)
  {
    hide LocksOk, CanGoFairly;
    if v: TaskId :| Unfinished(s, v) && !Waits(s.tasks[v].pc) {
      NonWaiterGoes(s, v);
      u := v;
    } else if v: TaskId :| Unfinished(s, v) && s.tasks[v].pc.WaitKey? {
      u := KeyWaiterGoes(s, v);
    } else {
      u := BucketWaiterGoes(s, t);
    }
  }

  /** In every reachable state with an unfinished operation some task can go on, locks being granted in turn. */
  lemma NoDeadlock(s: State, t: TaskId) returns (u: TaskId)
    requires Reachable(s) && Unfinished(s, t)
    ensures CanGoFairly(s, u)
  {
    hide LocksOk, TasksOk, ViewsOk, FsOk, SlotsOk, EventsOk, DownOk, CanGoFairly;
    ReachableInv(s);
    u := SomeoneGoes(s, t);
  }

  // ----- and not forever -----

  /** A bound on the steps a task at `pc` has left. */
  function PcRank(op: Op, pc: Pc): nat {
    match pc
    case Finished => 0
    case RemoveBucketEntry => 1
    case DropBucketClone => 2
    case UnlockBucket => 3
    case RemoveKeyEntry => 4
    case DropKeyClone => 5
    case UnlockKey => 6
    case SyncPut => 7
    case SyncDelete => 7
    case SyncCreate => 7
    case SyncDeleteBucket => 7
    case Walk => 7
    case UndoCreate => 7
    case BucketMeta => 8
    case MakeBucket => 9
    case RemoveBucket => 8
    case RemoveTree => 9
    case CheckEmpty => 10
    case StoreManifest(_) => 8
    case LoadManifest => 9
    case RenameData => 10
    case MakeDirs(depth) => 11 + if depth <= |op.key| + 2 then |op.key| + 2 - depth else 0
    case Recheck => 14 + |op.key|
    case Prune(depth) => 8 + depth
    case UnlinkData => 9 + |op.key|
    case UnlinkManifest => 10 + |op.key|
    case WaitKey => 15 + |op.key|
    case WantKey => 16 + |op.key|
    case WaitBucket => 17 + |op.key|
    case WantBucket => 18 + |op.key|
    case Stage(n) => 19 + |op.key| + if n <= |op.chunks| then |op.chunks| - n else 0
    case Start => 20 + |op.key| + |op.chunks|
  }

  function Rank(task: Task): nat {
    if task.alive then PcRank(task.op, task.pc) else 0
  }

  function TotalRank(tasks: seq<Task>): nat {
    if tasks == [] then 0 else Rank(tasks[0]) + TotalRank(tasks[1..])
  }

  lemma {:induction false} TotalRankUpdate(tasks: seq<Task>, t: TaskId, task: Task)
    requires t < |tasks|
    ensures TotalRank(tasks[t := task]) == TotalRank(tasks) - Rank(tasks[t]) + Rank(task)
  {
    if t == 0 {
      assert tasks[t := task][1..] == tasks[1..];
    } else {
      assert tasks[t := task][1..] == tasks[1..][t - 1 := task];
      TotalRankUpdate(tasks[1..], t - 1, task);
    }
  }

  lemma FsStepRanksDown(fs: Fs, t: TaskId, task: Task, io: bool)
    requires TaskOk(task) && task.alive && !IsLockPc(task.pc) && !task.pc.Finished?
    ensures Rank(FsStep(fs, t, task, io).task) < Rank(task)
  {
    hide WithoutBucketTree, HasAnyEntry, Childless;
  }

  lemma LockStepRanksDown(task: Task)
    requires TaskOk(task) && task.alive && IsLockPc(task.pc)
    ensures Rank(task.(pc := AfterLockStep(task.op, task.pc))) < Rank(task)
  {
  }

  /** Every step of a task, and its cancellation, uses up some of what it has left. */
  lemma StepRanksDown(s: State, step: Step)
    requires Inv(s) && Enabled(s, step) && (step.Go? || step.GiveUp?)
    ensures TotalRank(Do(s, step).tasks) < TotalRank(s.tasks)
  {
    hide LocksOk, ViewsOk, FsOk, SlotsOk, EventsOk, DownOk, FsStep, BucketLockStep, KeyLockStep, AfterLockStep, TotalRank, PcRank;
    var t := step.task;
    var task := s.tasks[t];
    assert TaskOk(task);
    TotalRankUpdate(s.tasks, t, Do(s, step).tasks[t]);
    if step.Go? && IsLockPc(task.pc) {
      LockStepRanksDown(task);
    } else if step.Go? {
      FsStepRanksDown(s.fs, t, task, step.io);
      FsStepProceeds(s.fs, t, task, step.io);
    } else {
      GiveUpRanksDown(task);
    }
  }

  lemma GiveUpRanksDown(task: Task)
    requires task.alive && Waits(task.pc)
    ensures Rank(task.(pc := Finished)) < Rank(task) && Rank(task.(pc := UnlockBucket)) < Rank(task)
  {
  }

  ghost predicate OnlyTasks(steps: seq<Step>) {
    forall i :: 0 <= i < |steps| ==> steps[i].Go? || steps[i].GiveUp?
  }

  /** However the tasks already begun are interleaved, they take at most their total rank of steps. */
  lemma {:induction false} RunsAreFinite(s: State, steps: seq<Step>)
    requires Inv(s) && Legal(s, steps) && OnlyTasks(steps)
    ensures |steps| + TotalRank(After(s, steps).tasks) <= TotalRank(s.tasks)
    decreases |steps|
  {
    hide Inv, Do, Enabled, TotalRank;
    if steps != [] {
      StepRanksDown(s, steps[0]);
      StepKeepsInv(s, steps[0]);
      RunsAreFinite(Do(s, steps[0]), steps[1..]);
    }
  }

  /**
   So a run of the tasks already begun that cannot be continued, locks being granted in turn, has
   finished every one of them.
   */
  lemma StuckMeansDone(s: State, steps: seq<Step>)
    requires Reachable(s) && Legal(s, steps) && OnlyTasks(steps)
    requires forall t: TaskId :: !CanGoFairly(After(s, steps), t)
    ensures forall t: TaskId :: !Unfinished(After(s, steps), t)
    ensures |steps| <= TotalRank(s.tasks)
  {
    hide LocksOk, TasksOk, ViewsOk, FsOk, SlotsOk, EventsOk, DownOk, CanGoFairly, TotalRank;
    ReachableInv(s);
    RunKeepsInv(s, steps);
    RunsAreFinite(s, steps);
    var end := After(s, steps);
    forall t: TaskId ensures !Unfinished(end, t) {
      if Unfinished(end, t) {
        var u := SomeoneGoes(end, t);
        assert false;
      }
    }
  }
}
