/** A commit's effect on a disk that may forget: new or old and whole at its destination, nothing else touched. */
module DurableCommit {
  import opened Types
  import opened Disks

  /**
   A commit to `dest`, from a disk `d0` whose deepest directory on the way is
   `dest[..deep]`, of generation `g0`.
   */
  datatype Plan = Plan(d0: Disk, dest: Path, deep: nat, g0: nat, file: Entry) {
    /** The generation of `dest[..deep + i]`: the existing one, then those the commit makes. */
    function Gen(i: nat): nat { if i == 0 then g0 else d0.next + i - 1 }

    /** Directories to make. */
    function Missing(): nat {
      if deep < |dest| then |dest| - 1 - deep else 0
    }

    /** Entry `i` of the chain: a made directory, and last the file. */
    function Link(i: nat): Cell
      requires deep + i < |dest|
    {
      (dest[..deep + i + 1], Gen(i))
    }

    ghost predicate Valid() {
      && Durable(d0)
      && deep < |dest|
      && GenOf(d0.now, dest[..deep]) == Some(g0)
      && (deep + 1 < |dest| ==> Link(0) !in d0.now)
      && (deep + 1 == |dest| ==> Link(0) in d0.now ==> d0.now[Link(0)].File?)
      && file.File? && file.synced
    }

    /** What the commit may make of a slot: what it was, or its link of the chain. */
    predicate Allows(slot: Cell, v: Option<Entry>) {
      || (slot.1 < d0.next && (v == Lookup(d0.now, slot) || !Live(d0.now, slot)))
      || (slot.1 >= d0.next && v == None)
      || Links(slot, v)
    }

    predicate Links(slot: Cell, v: Option<Entry>) {
      var i := |slot.0| - 1 - deep;
      && 0 <= i && |slot.0| <= |dest|
      && slot == Link(i)
      && v == Some(if |slot.0| == |dest| then file else Dir(Gen(i + 1)))
    }

    ghost predicate Covers(d: Disk) {
      forall slot: Cell, v :: v in Possible(d, slot) ==> Allows(slot, v)
    }

    /** `now` is a tree the commit may leave, at any point, with or without a crash. */
    ghost predicate Outcome(now: map<Cell, Entry>) {
      forall slot: Cell :: Allows(slot, Lookup(now, slot))
    }
  }

  lemma CrashIsOutcome(p: Plan, d: Disk, d': Disk)
    requires p.Valid() && p.Covers(d) && CrashesTo(d, d') && WellFormed(d)
    ensures p.Outcome(d'.now)
  {
    forall slot: Cell ensures p.Allows(slot, Lookup(d'.now, slot)) {
      assert CanBecome(d, slot, Lookup(d'.now, slot));
      var v :| v in Possible(d, slot) && Recovers(v, Lookup(d'.now, slot));
      assert p.Allows(slot, v);
    }
  }

  /** A directory of the outcome was there before, or is one of the made ones. */
  lemma {:induction false} OutcomeDirs(p: Plan, now: map<Cell, Entry>, q: Path)
    requires p.Valid() && p.Outcome(now) && GenOf(now, q).Some?
    ensures var g := GenOf(now, q).value;
            || GenOf(p.d0.now, q) == Some(g)
            || (p.deep < |q| < |p.dest| && q == p.dest[..|q|] && g == p.Gen(|q| - p.deep))
    decreases |q|
  {
    if q != [] {
      var up := Parent(q);
      OutcomeDirs(p, now, up);
      var slot := (q, GenOf(now, up).value);
      assert p.Allows(slot, Lookup(now, slot));
      if GenOf(p.d0.now, up) == Some(slot.1) {
        GenIsOld(p.d0, up);
      }
    }
  }

  /** No directory is lost. */
  lemma {:induction false} OutcomeKeepsDirs(p: Plan, now: map<Cell, Entry>, q: Path)
    requires p.Valid() && p.Outcome(now) && GenOf(p.d0.now, q).Some?
    ensures GenOf(now, q) == GenOf(p.d0.now, q)
    decreases |q|
  {
    if q != [] {
      var up := Parent(q);
      OutcomeKeepsDirs(p, now, up);
      GenIsOld(p.d0, up);
      var slot := (q, GenOf(now, up).value);
      assert p.Allows(slot, Lookup(now, slot));
    }
  }

  /** Every other file is as it was; the destination is as it was or the whole new file. */
  lemma OutcomeFiles(p: Plan, now: map<Cell, Entry>, q: Path)
    requires p.Valid() && p.Outcome(now)
    ensures q != p.dest ==> FileAt(now, q) == FileAt(p.d0.now, q)
    ensures FileAt(now, p.dest) == FileAt(p.d0.now, p.dest) || FileAt(now, p.dest) == Some(p.file)
  {
    OutcomeFile(p, now, q);
    OutcomeFile(p, now, p.dest);
  }

  lemma OutcomeFile(p: Plan, now: map<Cell, Entry>, q: Path)
    requires p.Valid() && p.Outcome(now)
    ensures FileAt(now, q) == FileAt(p.d0.now, q) || (q == p.dest && FileAt(now, q) == Some(p.file))
  {
    if q != [] {
      var up := Parent(q);
      if GenOf(p.d0.now, up).Some? {
        OutcomeKeepsDirs(p, now, up);
        GenIsOld(p.d0, up);
      }
      if GenOf(now, up).Some? {
        OutcomeDirs(p, now, up);
        var slot := (q, GenOf(now, up).value);
        assert p.Allows(slot, Lookup(now, slot));
      }
    }
  }

  // ----- the calls a commit makes -----

  /** `slot` is one of the first `m` links of the chain. */
  predicate IsLink(p: Plan, slot: Cell, m: nat) {
    var i := |slot.0| - 1 - p.deep;
    0 <= i < m && |slot.0| <= |p.dest| && slot == p.Link(i)
  }

  /** After making `i` directories of the chain, with only its first `m` links not yet synced. */
  ghost predicate InProgress(p: Plan, d: Disk, i: nat, m: nat) {
    && p.Valid() && i <= p.Missing()
    && WellFormed(d) && d.next == p.d0.next + i
    && p.Covers(d)
    && (forall j :: 0 <= j <= i ==> ChainHas(p, d, j))
    && (forall slot :: slot in d.stale ==> slot in p.d0.stale || IsLink(p, slot, m))
  }

  predicate ChainHas(p: Plan, d: Disk, j: nat)
    requires p.deep + j < |p.dest|
  {
    GenOf(d.now, p.dest[..p.deep + j]) == Some(p.Gen(j))
  }

  lemma BeginCommit(p: Plan)
    requires p.Valid()
    ensures InProgress(p, p.d0, 0, 0)
  {
    assert p.dest[..p.deep + 0] == p.dest[..p.deep];
    forall slot: Cell, v | v in Possible(p.d0, slot) ensures p.Allows(slot, v) {
      if v.None? && slot.1 < p.d0.next && Live(p.d0.now, slot) {
        assert slot !in p.d0.stale;
      }
    }
  }

  /** Writing a slot that is no directory on the way to `q` leaves `q` where it was. */
  lemma {:induction false} GenOfFrame(now: map<Cell, Entry>, slot: Cell, e: Entry, q: Path)
    requires GenOf(now, q).Some?
    requires slot in now ==> now[slot].File?
    ensures GenOf(now[slot := e], q) == GenOf(now, q)
    decreases |q|
  {
    if q != [] {
      GenOfFrame(now, slot, e, Parent(q));
    }
  }

  lemma LinkIsNew(p: Plan, d: Disk, i: nat)
    requires InProgress(p, d, i, i)
    ensures p.Link(i) in d.now ==> d.now[p.Link(i)].File?
    ensures i < p.Missing() ==> p.Link(i) !in d.now
  {
    var slot := p.Link(i);
    var v := Lookup(d.now, slot);
    assert v in Possible(d, slot) && p.Allows(slot, v);
    assert Parent(slot.0) == p.dest[..p.deep + i];
    if i == 0 {
      GenIsOld(p.d0, p.dest[..p.deep]);
    }
  }

  lemma ChainGrows(p: Plan, d: Disk, i: nat, e: Entry, j: nat)
    requires InProgress(p, d, i, i) && j <= i
    ensures GenOf(d.now[p.Link(i) := e], p.dest[..p.deep + j]) == Some(p.Gen(j))
  {
    LinkIsNew(p, d, i);
    assert ChainHas(p, d, j);
    GenOfFrame(d.now, p.Link(i), e, p.dest[..p.deep + j]);
  }

  lemma MakeDirStage(p: Plan, d: Disk, i: nat)
    requires InProgress(p, d, i, i) && i < p.Missing()
    ensures InProgress(p, MakeDir(d, p.Link(i)), i + 1, i + 1)
  {
    hide WellFormed, Plan.Covers, Plan.Allows, Durable;
    var slot := p.Link(i);
    var d' := MakeDir(d, slot);
    StageCovers(p, d, d', slot, Dir(d.next));
    LinkIsOld(p, d, i);
    GrowWellFormed(d, d', slot, Dir(d.next));
    forall j | 0 <= j <= i + 1 ensures ChainHas(p, d', j) {
      ChainGrows(p, d, i, Dir(d.next), if j <= i then j else i);
      if j == i + 1 {
        assert Parent(p.dest[..p.deep + j]) == p.dest[..p.deep + i];
      }
    }
  }

  lemma LinkIsOld(p: Plan, d: Disk, i: nat)
    requires InProgress(p, d, i, i)
    ensures p.Link(i).1 < d.next
  {
    if i == 0 {
      GenIsOld(p.d0, p.dest[..p.deep]);
    }
  }

  lemma StageCovers(p: Plan, d: Disk, d': Disk, slot: Cell, e: Entry)
    requires p.Covers(d) && p.Links(slot, Some(e)) && d'.now == Set(d, slot, e).now && d'.stale == Set(d, slot, e).stale
    ensures p.Covers(d')
  {
    forall s: Cell, v | v in Possible(d', s) ensures p.Allows(s, v) {
      if v !in Possible(d, s) {
        assert s == slot && v == Some(e);
      }
    }
  }

  lemma GrowWellFormed(d: Disk, d': Disk, slot: Cell, e: Entry)
    requires WellFormed(d) && d'.now == Set(d, slot, e).now && d'.stale == Set(d, slot, e).stale && d'.next >= d.next
    requires slot.1 < d'.next && (e.Dir? ==> e.gen < d'.next) && (e.File? ==> e.synced)
    ensures WellFormed(d')
  {
    forall s: Cell, v | v in Possible(d', s) && v.Some?
      ensures s.1 < d'.next && (v.value.Dir? ==> v.value.gen < d'.next) && (v.value.File? ==> v.value.synced)
    {
      if v !in Possible(d, s) {
        assert s == slot && v == Some(e);
      }
    }
  }

  lemma RenameStage(p: Plan, d: Disk)
    requires InProgress(p, d, p.Missing(), p.Missing())
    ensures var d' := Set(d, p.Link(p.Missing()), p.file);
            InProgress(p, d', p.Missing(), p.Missing() + 1) && FileAt(d'.now, p.dest) == Some(p.file)
  {
    hide WellFormed, Plan.Covers, Plan.Allows, Durable;
    var n := p.Missing();
    var slot := p.Link(n);
    var d' := Set(d, slot, p.file);
    assert slot.0 == p.dest;
    StageCovers(p, d, d', slot, p.file);
    LinkIsOld(p, d, n);
    GrowWellFormed(d, d', slot, p.file);
    forall j | 0 <= j <= n ensures ChainHas(p, d', j) {
      ChainGrows(p, d, n, p.file, j);
    }
    assert Parent(p.dest) == p.dest[..p.deep + n];
    assert ChainHas(p, d', n);
  }

  lemma LinkOf(p: Plan, slot: Cell, m: nat)
    requires p.deep + m < |p.dest|
    ensures IsLink(p, slot, m + 1) && !IsLink(p, slot, m) ==> EntryOf(slot, p.dest[..p.deep + m], p.Gen(m))
  {
  }

  /** Syncing the directory of the last unsynced link leaves one link fewer. */
  lemma FsyncStage(p: Plan, d: Disk, m: nat)
    requires InProgress(p, d, p.Missing(), m + 1) && m <= p.Missing()
    ensures InProgress(p, Fsync(d, p.dest[..p.deep + m], p.Gen(m)), p.Missing(), m)
  {
    var d' := Fsync(d, p.dest[..p.deep + m], p.Gen(m));
    assert forall s: Cell, v :: v in Possible(d', s) ==> v in Possible(d, s);
    forall slot | slot in d'.stale ensures slot in p.d0.stale || IsLink(p, slot, m) {
      assert slot in d.stale;
      LinkOf(p, slot, m);
    }
    forall j | 0 <= j <= p.Missing() ensures ChainHas(p, d', j) {
      assert ChainHas(p, d, j);
    }
  }

  /** With every link synced the disk is durable again. */
  lemma CommitIsDurable(p: Plan, d: Disk)
    requires InProgress(p, d, p.Missing(), 0)
    ensures Durable(d) && p.Outcome(d.now)
  {
    assert p.Outcome(d.now) by {
      forall slot: Cell ensures p.Allows(slot, Lookup(d.now, slot)) {
        assert Lookup(d.now, slot) in Possible(d, slot);
      }
    }
    forall slot | slot in d.stale ensures !Live(d.now, slot) {
      assert slot in p.d0.stale && !Live(p.d0.now, slot);
      if Live(d.now, slot) {
        OutcomeDirs(p, d.now, Parent(slot.0));
      }
    }
  }
}
