/** A delete's effect on a disk that may forget: the key's two files may go, nothing else does. */
module DurableDelete {
  import opened Types
  import opened Disks

  /**
   A delete, from disk `d0`, of the files `names` in directory `dir`, having pruned every
   directory on the way that is longer than `low`.
   */
  datatype Cut = Cut(d0: Disk, dir: Path, names: set<string>, low: nat) {
    predicate IsTarget(q: Path) {
      q != [] && Parent(q) == dir && q[|q| - 1] in names
    }

    /** `q` is one of the pruned directories. */
    predicate Pruned(q: Path) {
      low < |q| <= |dir| && q == dir[..|q|]
    }

    ghost predicate Valid() {
      && Durable(d0)
      && (forall q :: IsTarget(q) ==> GenOf(d0.now, q).None?)
      && (low < |dir| ==> GenOf(d0.now, dir).Some?)
      && (forall slot :: slot in d0.now && Live(d0.now, slot) && Pruned(Parent(slot.0)) ==> Goes(slot))
    }

    predicate Goes(slot: Cell) {
      slot.0 != [] && (IsTarget(slot.0) || Pruned(slot.0))
    }

    predicate Allows(slot: Cell, v: Option<Entry>) {
      v == Lookup(d0.now, slot) || !Live(d0.now, slot) || (v == None && Goes(slot))
    }

    ghost predicate Covers(d: Disk) {
      forall slot: Cell, v :: v in Possible(d, slot) ==> Allows(slot, v)
    }

    ghost predicate Outcome(now: map<Cell, Entry>) {
      forall slot: Cell :: Allows(slot, Lookup(now, slot))
    }
  }

  lemma {:induction false} NoNewDirs(c: Cut, now: map<Cell, Entry>, q: Path)
    requires c.Valid() && c.Outcome(now) && GenOf(now, q).Some?
    ensures GenOf(now, q) == GenOf(c.d0.now, q)
    decreases |q|
  {
    if q != [] {
      var up := Parent(q);
      NoNewDirs(c, now, up);
      var slot := (q, GenOf(now, up).value);
      assert c.Allows(slot, Lookup(now, slot));
    }
  }

  /** A directory goes only if it, or one above it, was pruned. */
  lemma {:induction false} LostDirs(c: Cut, now: map<Cell, Entry>, q: Path)
    requires c.Valid() && c.Outcome(now) && GenOf(c.d0.now, q).Some?
    ensures GenOf(now, q) == GenOf(c.d0.now, q) || (c.low < |q| && c.low < |c.dir| && q[..c.low + 1] == c.dir[..c.low + 1])
    decreases |q|
  {
    if q != [] {
      var up := Parent(q);
      LostDirs(c, now, up);
      var slot := (q, GenOf(c.d0.now, up).value);
      assert c.Allows(slot, Lookup(now, slot));
      if GenOf(now, up) != GenOf(c.d0.now, up) {
        assert up[..c.low + 1] == q[..c.low + 1];
      } else if GenOf(now, q) != GenOf(c.d0.now, q) {
        assert c.Goes(slot) && c.Pruned(q);
        assert q[..c.low + 1] == c.dir[..c.low + 1];
      }
    }
  }

  /** Below the pruned directories there are only the targets. */
  lemma {:induction false} BelowPruned(c: Cut, q: Path, j: nat)
    requires c.Valid() && c.low < j <= |c.dir| && j < |q| && q[..j] == c.dir[..j]
    requires FileAt(c.d0.now, q).Some?
    ensures c.IsTarget(q)
    decreases |c.dir| - j
  {
    var next := q[..j + 1];
    assert Parent(next) == q[..j];
    PrefixExists(c.d0.now, Parent(q), j);
    assert Parent(q)[..j] == q[..j];
    var slot := (next, GenOf(c.d0.now, q[..j]).value);
    if j + 1 == |q| {
      assert next == q;
    } else {
      PrefixExists(c.d0.now, Parent(q), j + 1);
      assert Parent(q)[..j + 1] == next;
    }
    assert c.Pruned(Parent(slot.0)) && c.Goes(slot);
    if c.Pruned(next) {
      if j + 1 == |q| {
        PrefixExists(c.d0.now, c.dir, j + 1);
        assert false;
      } else {
        BelowPruned(c, q, j + 1);
      }
    }
  }

  /** Every file but the targets is as it was; a target is as it was or gone. */
  lemma OutcomeFile(c: Cut, now: map<Cell, Entry>, q: Path)
    requires c.Valid() && c.Outcome(now)
    ensures !c.IsTarget(q) ==> FileAt(now, q) == FileAt(c.d0.now, q)
    ensures FileAt(now, q) == FileAt(c.d0.now, q) || FileAt(now, q) == None
  {
    if q != [] {
      var up := Parent(q);
      if GenOf(now, up).Some? {
        NoNewDirs(c, now, up);
        var slot := (q, GenOf(now, up).value);
        assert c.Allows(slot, Lookup(now, slot));
        if c.Pruned(q) {
          PrefixExists(c.d0.now, c.dir, |q|);
        }
      } else if GenOf(c.d0.now, up).Some? && FileAt(c.d0.now, q).Some? {
        LostDirs(c, now, up);
        assert up[..c.low + 1] == q[..c.low + 1];
        BelowPruned(c, q, c.low + 1);
      }
    }
  }

  // ----- the calls a delete makes -----

  /** The directory at `p`, of generation `g`, has no entries. */
  predicate NoEntries(now: map<Cell, Entry>, p: Path, g: nat) {
    forall slot :: slot in now ==> !EntryOf(slot, p, g)
  }

  ghost predicate InProgress(c: Cut, d: Disk) {
    && c.Valid() && WellFormed(d) && d.next == c.d0.next
    && c.Covers(d)
    && (forall slot :: slot in d.stale ==> slot in c.d0.stale || c.Goes(slot))
    && (c.low < |c.dir| ==> GenOf(d.now, c.dir[..c.low + 1]).None?)
  }

  lemma NowIsOutcome(c: Cut, d: Disk)
    requires c.Covers(d)
    ensures c.Outcome(d.now)
  {
    forall s: Cell ensures c.Allows(s, Lookup(d.now, s)) {
      assert Lookup(d.now, s) in Possible(d, s);
    }
  }

  lemma BeginDelete(c: Cut)
    requires Durable(c.d0) && c.low == |c.dir| && forall q :: c.IsTarget(q) ==> GenOf(c.d0.now, q).None?
    ensures InProgress(c, c.d0)
  {
    forall slot: Cell, v | v in Possible(c.d0, slot) ensures c.Allows(slot, v) {
      if slot in c.d0.stale {
        assert !Live(c.d0.now, slot);
      }
    }
  }

  /** Removing an entry only ever takes directories and files away. */
  lemma {:induction false} GenOfUnset(now: map<Cell, Entry>, slot: Cell, q: Path)
    ensures GenOf(now - {slot}, q) == GenOf(now, q) || GenOf(now - {slot}, q) == None
    ensures slot.0 == [] || |q| < |slot.0| ==> GenOf(now - {slot}, q) == GenOf(now, q)
    decreases |q|
  {
    if q != [] {
      GenOfUnset(now, slot, Parent(q));
    }
  }

  lemma UnsetCovers(c: Cut, d: Disk, slot: Cell)
    requires c.Covers(d) && WellFormed(d) && c.Goes(slot) && slot in d.now
    ensures c.Covers(Unset(d, slot)) && WellFormed(Unset(d, slot))
  {
    var d' := Unset(d, slot);
    assert Lookup(d.now, slot) in Possible(d, slot);
    forall s: Cell, v | v in Possible(d', s) ensures c.Allows(s, v) {
      if v !in Possible(d, s) {
        assert s == slot && v == None;
      }
    }
    forall s: Cell, v | v in Possible(d', s) && v.Some? ensures v in Possible(d, s) {
    }
  }

  lemma UnsetStage(c: Cut, d: Disk, slot: Cell)
    requires InProgress(c, d) && c.Goes(slot) && slot in d.now
    ensures InProgress(c, Unset(d, slot))
  {
    hide Cut.Valid, Cut.Covers, WellFormed;
    UnsetCovers(c, d, slot);
    if c.low < |c.dir| {
      GenOfUnset(d.now, slot, c.dir[..c.low + 1]);
    }
  }

  /** An empty directory held, before the delete, nothing that does not go. */
  lemma CanPrune(c: Cut, d: Disk)
    requires InProgress(c, d) && 0 < c.low <= |c.dir|
    requires var g := GenOf(d.now, c.dir[..c.low]); g.Some? && NoEntries(d.now, c.dir[..c.low], g.value)
    ensures c.(low := c.low - 1).Valid() && c.(low := c.low - 1).Covers(d)
  {
    var c', here := c.(low := c.low - 1), c.dir[..c.low];
    var g := GenOf(d.now, here).value;
    NowIsOutcome(c, d);
    NoNewDirs(c, d.now, here);
    assert c.low == |c.dir| ==> here == c.dir;
    assert forall s: Cell :: c.Goes(s) ==> c'.Goes(s);
    forall slot | slot in c.d0.now && Live(c.d0.now, slot) && c'.Pruned(Parent(slot.0)) ensures c'.Goes(slot) {
      if !c.Pruned(Parent(slot.0)) {
        assert Parent(slot.0) == here && slot.1 == g;
        assert EntryOf(slot, here, g) && slot !in d.now;
        assert c.Allows(slot, Lookup(d.now, slot));
      }
    }
    forall s: Cell, v | v in Possible(d, s) ensures c'.Allows(s, v) {
      assert c.Allows(s, v);
    }
  }

  lemma PruneStage(c: Cut, d: Disk)
    requires InProgress(c, d) && 0 < c.low <= |c.dir|
    requires var g := GenOf(d.now, c.dir[..c.low]); g.Some? && NoEntries(d.now, c.dir[..c.low], g.value)
    ensures GenOf(d.now, Parent(c.dir[..c.low])).Some?
    ensures InProgress(c.(low := c.low - 1), Unset(d, (c.dir[..c.low], GenOf(d.now, Parent(c.dir[..c.low])).value)))
  {
    hide Cut.Valid, Cut.Covers, WellFormed, NoEntries;
    var c', here := c.(low := c.low - 1), c.dir[..c.low];
    var slot := (here, GenOf(d.now, Parent(here)).value);
    CanPrune(c, d);
    assert c'.Pruned(here);
    UnsetCovers(c', d, slot);
    GenOfUnset(d.now, slot, Parent(here));
    assert forall s: Cell :: c.Goes(s) ==> c'.Goes(s);
  }

  /** Once the deepest directory left is synced the disk is durable again. */
  lemma DeleteIsDurable(c: Cut, d: Disk, deep: nat)
    requires InProgress(c, d) && deep <= |c.dir| && GenOf(d.now, c.dir[..deep]).Some?
    requires forall j :: deep < j <= |c.dir| ==> GenOf(d.now, c.dir[..j]).None?
    ensures var d' := Fsync(d, c.dir[..deep], GenOf(d.now, c.dir[..deep]).value);
            InProgress(c, d') && Durable(d') && d'.now == d.now
  {
    var g := GenOf(d.now, c.dir[..deep]).value;
    var d' := Fsync(d, c.dir[..deep], g);
    assert forall s: Cell, v :: v in Possible(d', s) ==> v in Possible(d, s);
    forall slot | slot in d'.stale ensures !Live(d'.now, slot) {
      if Live(d.now, slot) {
        StaleIsSynced(c, d, deep, slot);
        assert false;
      }
    }
  }

  lemma LiveStaleGoes(c: Cut, d: Disk, slot: Cell)
    requires InProgress(c, d) && slot in d.stale && Live(d.now, slot)
    ensures c.Goes(slot)
  {
    NowIsOutcome(c, d);
    NoNewDirs(c, d.now, Parent(slot.0));
  }

  lemma StaleIsSynced(c: Cut, d: Disk, deep: nat, slot: Cell)
    requires InProgress(c, d) && deep <= |c.dir| && GenOf(d.now, c.dir[..deep]).Some?
    requires forall j :: deep < j <= |c.dir| ==> GenOf(d.now, c.dir[..j]).None?
    requires slot in d.stale && Live(d.now, slot)
    ensures EntryOf(slot, c.dir[..deep], GenOf(d.now, c.dir[..deep]).value)
  {
    hide Cut.Valid, Cut.Covers, WellFormed;
    var up := Parent(slot.0);
    LiveStaleGoes(c, d, slot);
    assert c.dir[..|c.dir|] == c.dir;
    if c.Pruned(slot.0) {
      assert up == c.dir[..|slot.0| - 1];
      if deep > c.low {
        assert c.dir[..deep][..c.low + 1] == c.dir[..c.low + 1];
        PrefixExists(d.now, c.dir[..deep], c.low + 1);
      }
    }
  }

  lemma PrunedUp(c: Cut, q: Path)
    ensures c.Pruned(q) ==> Parent(q) == c.dir[..|q| - 1]
  {
  }

  /** If no directory is left to sync, nothing reachable is unsynced. */
  lemma NothingLeft(c: Cut, d: Disk, stop: nat)
    requires InProgress(c, d) && stop <= c.low <= |c.dir|
    requires forall j :: stop <= j <= |c.dir| ==> GenOf(d.now, c.dir[..j]).None?
    ensures Durable(d)
  {
    forall slot | slot in d.stale ensures !Live(d.now, slot) {
      if Live(d.now, slot) {
        assert c.dir[..|c.dir|] == c.dir;
        PrunedUp(c, slot.0);
        LiveStaleGoes(c, d, slot);
        assert false;
      }
    }
  }

  /** A power loss on the way leaves the targets each as they were or gone, and every other file as it was. */
  lemma LostCut(c: Cut, x: Disk, d': Disk)
    requires InProgress(c, x) && CrashesTo(x, d')
    ensures Durable(d')
    ensures forall q :: FileAt(d'.now, q) == FileAt(c.d0.now, q) || (c.IsTarget(q) && FileAt(d'.now, q) == None)
  {
    CrashIsDurable(x, d');
    assert c.Outcome(d'.now) by {
      forall slot: Cell ensures c.Allows(slot, Lookup(d'.now, slot)) {
        assert CanBecome(x, slot, Lookup(d'.now, slot));
        var v :| v in Possible(x, slot) && Recovers(v, Lookup(d'.now, slot));
        assert c.Allows(slot, v);
      }
    }
    forall q: Path ensures FileAt(d'.now, q) == FileAt(c.d0.now, q) || (c.IsTarget(q) && FileAt(d'.now, q) == None) {
      OutcomeFile(c, d'.now, q);
    }
  }

  /** A power loss at rest loses nothing. */
  lemma RestSurvives(d: Disk, d': Disk)
    requires Durable(d) && CrashesTo(d, d')
    ensures Durable(d') && forall q :: FileAt(d'.now, q) == FileAt(d.now, q)
  {
    hide InProgress, FileAt, Durable;
    var c := Cut(d, [], {}, 0);
    BeginDelete(c);
    LostCut(c, d, d');
  }

  lemma CutSpares(c: Cut, d: Disk)
    requires InProgress(c, d)
    ensures forall q :: !c.IsTarget(q) ==> FileAt(d.now, q) == FileAt(c.d0.now, q)
  {
    NowIsOutcome(c, d);
    forall q: Path ensures !c.IsTarget(q) ==> FileAt(d.now, q) == FileAt(c.d0.now, q) {
      OutcomeFile(c, d.now, q);
    }
  }
}
