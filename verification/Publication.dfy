/**
 The publication protocol as a transition system. Tasks run the engine's operations one
 filesystem call or lock step at a time, in any interleaving; any filesystem call may
 fail, a waiter may be cancelled, and the process may be killed between any two steps.

 A key is the path of its encoded components, so `Slot` names one key of one bucket; its
 directory is that path under the bucket's `objects/`, whose own path is `[]`.
 */
module Publication {
  import opened Types
  import opened LockTable
  import Meta

  type Bucket = string
  type Slot = (Bucket, Path)

  datatype Kind = Put | Delete | Create | DeleteBucket | List

  /** A request. `key` is `[]` for bucket requests; `chunks` and `stamp` only matter to a put. */
  datatype Op = Op(kind: Kind, bucket: Bucket, key: Path, chunks: seq<Bytes>, stamp: VersionEntry) {
    function Slot(): Slot { (bucket, key) }
    function Body(): Bytes { Concat(chunks) }

    /** The entry a put records: unversioned, and describing the body it streamed. */
    function Entry(): VersionEntry {
      stamp.(versionId := NULL_VERSION_ID, etag := Md5(Body()), size := |Body()|, deleteMarker := false)
    }

    predicate OnKey() { kind.Put? || kind.Delete? }
    predicate Exclusive() { kind.Create? || kind.DeleteBucket? }
    predicate WellFormed() { OnKey() <==> key != [] }
  }

  /** What a task does next. */
  datatype Pc =
    | Start | Stage(written: nat)
    | WantBucket | WaitBucket | WantKey | WaitKey
    | Recheck | MakeDirs(depth: nat) | RenameData | LoadManifest | StoreManifest(found: Option<seq<VersionEntry>>) | SyncPut
    | UnlinkManifest | UnlinkData | Prune(depth: nat) | SyncDelete
    | MakeBucket | BucketMeta | UndoCreate | SyncCreate
    | CheckEmpty | RemoveTree | RemoveBucket | SyncDeleteBucket
    | Walk
    | UnlockKey | DropKeyClone | RemoveKeyEntry
    | UnlockBucket | DropBucketClone | RemoveBucketEntry
    | Finished

  /**
   How far a put or delete has got in publishing: `Gap` lies between its two visible steps
   (data then manifest for a put, manifest then data for a delete). A failure or a kill
   leaves it where it was; only an operation that returns success reaches `Complete`.
   */
  datatype Progress = Before | Gap | Published | Complete

  datatype Task = Task(op: Op, pc: Pc, progress: Progress, alive: bool)

  datatype Fs = Fs(
    buckets: set<Bucket>,
    dirs: set<Slot>,
    manifests: map<Slot, seq<VersionEntry>>,
    data: map<Slot, Bytes>,
    tmp: map<TaskId, Bytes>)

  /** An operation on a key got as far as `progress`. */
  datatype Event = Event(task: TaskId, op: Op, progress: Progress)

  /** `log` is history: the visible steps and successes of puts and deletes, in order. */
  datatype State = State(
    fs: Fs,
    bucketLocks: Table<Bucket>,
    keyLocks: Table<Slot>,
    tasks: seq<Task>,
    up: bool,
    log: seq<Event>)

  datatype Step =
    | Begin(op: Op)               // a request arrives
    | Go(task: TaskId, io: bool)  // a task takes its next step; `io` is false if its filesystem call failed
    | GiveUp(task: TaskId)        // a request waiting for a lock is cancelled
    | Kill                        // the process dies
    | Sweep(task: TaskId)         // a staged file no longer in use is removed
    | Open                        // and is ready

  const INIT := State(Fs({}, {}, map[], map[], map[]), Empty(0), Empty(0), [], false, [])

  function FirstPc(op: Op): Pc {
    if op.OnKey() then Start else WantBucket
  }

  /** What a step makes of the filesystem and of the task that takes it. */
  datatype Effect = Effect(fs: Fs, task: Task)

  function Jump(fs: Fs, task: Task, pc: Pc): Effect {
    Effect(fs, task.(pc := pc))
  }

  function Advance(fs: Fs, task: Task, pc: Pc, progress: Progress): Effect {
    Effect(fs, task.(pc := pc, progress := progress))
  }

  /** The directory holding `d`; `objects/` stands for its own. */
  function ParentOf(d: Slot): Slot {
    if d.1 == [] then d else (d.0, Parent(d.1))
  }

  /** `remove_dir` succeeds only on a directory with nothing in it. */
  ghost predicate Childless(fs: Fs, dir: Slot) {
    && dir !in fs.manifests && dir !in fs.data
    && forall d {:trigger ParentOf(d)} :: d in fs.dirs && d != dir ==> ParentOf(d) != dir
  }

  /** `objects/` holds something. */
  predicate HasAnyEntry(fs: Fs, b: Bucket) {
    exists d :: d in fs.dirs && d.0 == b && |d.1| == 1
  }

  function WithoutBucketTree(fs: Fs, b: Bucket): Fs {
    fs.(dirs := (set d | d in fs.dirs && d.0 != b),
        manifests := (map k | k in fs.manifests && k.0 != b :: fs.manifests[k]),
        data := (map k | k in fs.data && k.0 != b :: fs.data[k]))
  }

  /** The unlocked steps: the first existence check and the streaming of the body. */
  function StageStep(fs: Fs, t: TaskId, task: Task, io: bool): Effect {
    var op := task.op;
    match task.pc
    case Start =>
      if !io || op.bucket !in fs.buckets then Jump(fs, task, Finished)
      else if op.kind.Put? then Jump(fs.(tmp := fs.tmp[t := []]), task, Stage(0))
      else Jump(fs, task, WantBucket)
    case Stage(n) =>
      if !io || t !in fs.tmp then Jump(fs, task, Finished)
      else if n < |op.chunks| then Jump(fs.(tmp := fs.tmp[t := fs.tmp[t] + op.chunks[n]]), task, Stage(n + 1))
      else Jump(fs, task, WantBucket)
    case _ => Effect(fs, task)
  }

  /** `create_dir_all`, one directory at a time: depth 0 is the bucket, 1 is `objects/`. */
  function MakeDirsStep(fs: Fs, t: TaskId, task: Task, io: bool, depth: nat): Effect {
    var op := task.op;
    if !io then Jump(fs, task, UnlockKey)
    else if depth == 0 then Jump(fs.(buckets := fs.buckets + {op.bucket}), task, MakeDirs(1))
    else if depth > |op.key| + 1 then Jump(fs, task, RenameData)
    else
      var dir := (op.bucket, op.key[..depth - 1]);
      var parent := if depth == 1 then op.bucket in fs.buckets else ParentOf(dir) in fs.dirs;
      if dir in fs.dirs then Jump(fs, task, MakeDirs(depth + 1))
      else if parent then Jump(fs.(dirs := fs.dirs + {dir}), task, MakeDirs(depth + 1))
      else Jump(fs, task, UnlockKey)
  }

  function PutStep(fs: Fs, t: TaskId, task: Task, io: bool): Effect {
    var op := task.op;
    var slot := op.Slot();
    match task.pc
    case Recheck =>
      if !io || op.bucket !in fs.buckets then Jump(fs, task, UnlockKey) else Jump(fs, task, MakeDirs(0))
    case MakeDirs(depth) => MakeDirsStep(fs, t, task, io, depth)
    case RenameData =>
      if !io || slot !in fs.dirs || t !in fs.tmp then Jump(fs, task, UnlockKey)
      else Advance(fs.(data := fs.data[slot := fs.tmp[t]], tmp := fs.tmp - {t}), task, LoadManifest, Gap)
    case LoadManifest => Jump(fs, task, if io then StoreManifest(Lookup(fs.manifests, slot)) else UnlockKey)
    case StoreManifest(found) =>
      if !io || slot !in fs.dirs then Jump(fs, task, UnlockKey)
      else
        var history := Meta.Upserted(if found.Some? then found.value else [], op.Entry());
        Advance(fs.(manifests := fs.manifests[slot := history]), task, SyncPut, Published)
    case SyncPut => if io then Advance(fs, task, UnlockKey, Complete) else Jump(fs, task, UnlockKey)
    case _ => Effect(fs, task)
  }

  ghost function DeleteStep(fs: Fs, task: Task, io: bool): Effect {
    var op := task.op;
    var slot := op.Slot();
    match task.pc
    case UnlinkManifest =>
      if !io then Jump(fs, task, UnlockKey)
      else Advance(fs.(manifests := fs.manifests - {slot}), task, UnlinkData, Gap)
    case UnlinkData =>
      if !io then Jump(fs, task, UnlockKey)
      else Advance(fs.(data := fs.data - {slot}), task, Prune(|op.key|), Published)
    case Prune(depth) =>
      if !io || depth == 0 || depth > |op.key| then Jump(fs, task, SyncDelete)
      else
        var dir := (op.bucket, op.key[..depth]);
        if dir in fs.dirs && Childless(fs, dir) then Jump(fs.(dirs := fs.dirs - {dir}), task, Prune(depth - 1))
        else Jump(fs, task, SyncDelete)
    case SyncDelete => if io then Advance(fs, task, UnlockKey, Complete) else Jump(fs, task, UnlockKey)
    case _ => Effect(fs, task)
  }

  function BucketStep(fs: Fs, task: Task, io: bool): Effect {
    var b := task.op.bucket;
    match task.pc
    case MakeBucket =>
      if !io || b in fs.buckets then Jump(fs, task, UnlockBucket)
      else Jump(fs.(buckets := fs.buckets + {b}), task, BucketMeta)
    case BucketMeta => Jump(fs, task, if io then SyncCreate else UndoCreate)
    case UndoCreate =>
      Jump(if io then WithoutBucketTree(fs, b).(buckets := fs.buckets - {b}) else fs, task, UnlockBucket)
    case SyncCreate => Advance(fs, task, UnlockBucket, if io then Complete else Before)
    case CheckEmpty =>
      Jump(fs, task, if !io || b !in fs.buckets || HasAnyEntry(fs, b) then UnlockBucket else RemoveTree)
    case RemoveTree =>
      if !io then Jump(fs, task, UnlockBucket) else Jump(WithoutBucketTree(fs, b), task, RemoveBucket)
    case RemoveBucket =>
      if !io then Jump(fs, task, UnlockBucket) else Jump(fs.(buckets := fs.buckets - {b}), task, SyncDeleteBucket)
    case SyncDeleteBucket => Advance(fs, task, UnlockBucket, if io then Complete else Before)
    case Walk => Advance(fs, task, UnlockBucket, if io && b in fs.buckets then Complete else Before)
    case _ => Effect(fs, task)
  }

  function AfterBucketLock(kind: Kind): Pc {
    match kind
    case Put => WantKey
    case Delete => WantKey
    case Create => MakeBucket
    case DeleteBucket => CheckEmpty
    case List => Walk
  }

  /** Where a task goes from a lock step. The key lock is taken and released while the bucket lock is held. */
  function AfterLockStep(op: Op, pc: Pc): Pc {
    match pc
    case WantBucket => WaitBucket
    case WaitBucket => AfterBucketLock(op.kind)
    case WantKey => WaitKey
    case WaitKey => if op.kind.Put? then Recheck else UnlinkManifest
    case UnlockKey => DropKeyClone
    case DropKeyClone => RemoveKeyEntry
    case RemoveKeyEntry => UnlockBucket
    case UnlockBucket => DropBucketClone
    case DropBucketClone => RemoveBucketEntry
    case RemoveBucketEntry => Finished
    case _ => pc
  }

  /** The bucket lock: shared for object requests and listings, exclusive for bucket requests. */
  ghost function BucketLockStep(tab: Table<Bucket>, t: TaskId, task: Task): Table<Bucket>
    requires task.pc.WantBucket? || t in tab.refs
  {
    match task.pc
    case WantBucket => Enter(tab, t, task.op.bucket, task.op.Exclusive())
    case WaitBucket => SetPhase(tab, t, Held)
    case UnlockBucket => SetPhase(tab, t, Unlocked)
    case DropBucketClone => SetPhase(tab, t, Dropped)
    case RemoveBucketEntry => RemoveIf(tab, t)
    case _ => tab
  }

  ghost function KeyLockStep(tab: Table<Slot>, t: TaskId, task: Task): Table<Slot>
    requires task.pc.WantKey? || t in tab.refs
  {
    match task.pc
    case WantKey => Enter(tab, t, task.op.Slot(), true)
    case WaitKey => SetPhase(tab, t, Held)
    case UnlockKey => SetPhase(tab, t, Unlocked)
    case DropKeyClone => SetPhase(tab, t, Dropped)
    case RemoveKeyEntry => RemoveIf(tab, t)
    case _ => tab
  }

  predicate IsBucketLockPc(pc: Pc) {
    pc.WantBucket? || pc.WaitBucket? || pc.UnlockBucket? || pc.DropBucketClone? || pc.RemoveBucketEntry?
  }

  predicate IsKeyLockPc(pc: Pc) {
    pc.WantKey? || pc.WaitKey? || pc.UnlockKey? || pc.DropKeyClone? || pc.RemoveKeyEntry?
  }

  predicate IsPutPc(pc: Pc) {
    pc.Recheck? || pc.MakeDirs? || pc.RenameData? || pc.LoadManifest? || pc.StoreManifest? || pc.SyncPut?
  }

  predicate IsDeletePc(pc: Pc) {
    pc.UnlinkManifest? || pc.UnlinkData? || pc.Prune? || pc.SyncDelete?
  }

  predicate IsStagePc(pc: Pc) {
    pc.Start? || pc.Stage?
  }

  predicate IsLockPc(pc: Pc) {
    IsBucketLockPc(pc) || IsKeyLockPc(pc)
  }

  /** A step of the request itself, on the filesystem. */
  ghost function FsStep(fs: Fs, t: TaskId, task: Task, io: bool): Effect {
    if IsStagePc(task.pc) then StageStep(fs, t, task, io)
    else if IsPutPc(task.pc) then PutStep(fs, t, task, io)
    else if IsDeletePc(task.pc) then DeleteStep(fs, task, io)
    else BucketStep(fs, task, io)
  }

  /** Progress of a put or delete is recorded as it happens, and so while it holds its key's lock. */
  function Record(log: seq<Event>, t: TaskId, before: Task, after: Task): seq<Event> {
    if before.op.OnKey() && after.progress != before.progress then log + [Event(t, before.op, after.progress)] else log
  }

  ghost function GoStep(s: State, t: TaskId, io: bool): State
    requires CanGo(s, t)
  {
    var task := s.tasks[t];
    if IsBucketLockPc(task.pc) then
      s.(bucketLocks := BucketLockStep(s.bucketLocks, t, task),
         tasks := s.tasks[t := task.(pc := AfterLockStep(task.op, task.pc))])
    else if IsKeyLockPc(task.pc) then
      s.(keyLocks := KeyLockStep(s.keyLocks, t, task),
         tasks := s.tasks[t := task.(pc := AfterLockStep(task.op, task.pc))])
    else
      var e := FsStep(s.fs, t, task, io);
      s.(fs := e.fs, tasks := s.tasks[t := e.task], log := Record(s.log, t, task, e.task))
  }

  ghost predicate Unfinished(s: State, t: TaskId) {
    t < |s.tasks| && s.tasks[t].alive && !s.tasks[t].pc.Finished?
  }

  ghost predicate CanGo(s: State, t: TaskId) {
    && Unfinished(s, t)
    && (var pc := s.tasks[t].pc;
        && (pc.WaitBucket? ==> CanGrant(s.bucketLocks, t))
        && (pc.WaitKey? ==> CanGrant(s.keyLocks, t))
        && (IsBucketLockPc(pc) && !pc.WantBucket? ==> t in s.bucketLocks.refs)
        && (IsKeyLockPc(pc) && !pc.WantKey? ==> t in s.keyLocks.refs))
  }

  ghost predicate CanGiveUp(s: State, t: TaskId) {
    && Unfinished(s, t)
    && ((s.tasks[t].pc.WaitBucket? && t in s.bucketLocks.refs) || (s.tasks[t].pc.WaitKey? && t in s.keyLocks.refs))
  }

  /** The task's body is staged, or being staged, under a temporary name. */
  predicate Staging(pc: Pc) {
    pc.Stage? || BodyStaged(pc)
  }

  predicate BodyStaged(pc: Pc) {
    pc.WantBucket? || pc.WaitBucket? || pc.WantKey? || pc.WaitKey? || pc.Recheck? || pc.MakeDirs? || pc.RenameData?
  }

  /**
   A request that is past its staged file tries to remove it, which need never succeed; what is
   left over is swept by the next process before it is ready.
   */
  ghost predicate CanSweep(s: State, t: TaskId) {
    !s.up || (t < |s.tasks| && s.tasks[t].alive && !Staging(s.tasks[t].pc))
  }

  ghost predicate Enabled(s: State, step: Step) {
    match step
    case Begin(op) => s.up && op.WellFormed()
    case Go(t, _) => CanGo(s, t)
    case GiveUp(t) => CanGiveUp(s, t)
    case Kill => true
    case Sweep(t) => CanSweep(s, t)
    case Open => !s.up
  }

  ghost function GiveUpStep(s: State, t: TaskId): State
    requires CanGiveUp(s, t)
  {
    var task := s.tasks[t];
    if task.pc.WaitBucket? then
      s.(bucketLocks := Cancel(s.bucketLocks, t), tasks := s.tasks[t := task.(pc := Finished)])
    else
      s.(keyLocks := Cancel(s.keyLocks, t), tasks := s.tasks[t := task.(pc := UnlockBucket)])
  }

  function KillStep(s: State): State {
    s.(bucketLocks := Empty(s.bucketLocks.next),
       keyLocks := Empty(s.keyLocks.next),
       tasks := seq(|s.tasks|, i requires 0 <= i < |s.tasks| => s.tasks[i].(alive := false)),
       up := false)
  }

  ghost function Do(s: State, step: Step): State
    requires Enabled(s, step)
  {
    match step
    case Begin(op) => s.(tasks := s.tasks + [Task(op, FirstPc(op), Before, true)])
    case Go(t, io) => GoStep(s, t, io)
    case GiveUp(t) => GiveUpStep(s, t)
    case Kill => KillStep(s)
    case Sweep(t) => s.(fs := s.fs.(tmp := s.fs.tmp - {t}))
    case Open => s.(up := true)
  }

  /** `steps` can be taken one after another from `s`. */
  ghost predicate Legal(s: State, steps: seq<Step>)
    decreases |steps|
  {
    steps == [] || (Enabled(s, steps[0]) && Legal(Do(s, steps[0]), steps[1..]))
  }

  ghost function After(s: State, steps: seq<Step>): State
    requires Legal(s, steps)
    decreases |steps|
  {
    if steps == [] then s else After(Do(s, steps[0]), steps[1..])
  }
}
