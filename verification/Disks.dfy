/**
 A filesystem that may forget directory entries at a power loss. Every directory has a
 generation, fresh each time one is made, so a directory made again at the same path is not
 confused with the one it replaced. An entry is a slot: its path, and the generation of
 the directory holding it. Until that directory is fsynced, the disk may hold any value the
 entry has had since the last fsync.
 */
module Disks {
  import opened Types

  type Cell = (Path, nat)

  datatype Entry = Dir(gen: nat) | File(content: Bytes, synced: bool)

  datatype Disk = Disk(now: map<Cell, Entry>, stale: map<Cell, set<Option<Entry>>>, next: nat)

  const ROOT: nat := 0

  /** The generation of the directory at `p`, if there is one. */
  function GenOf(now: map<Cell, Entry>, p: Path): Option<nat>
    decreases |p|
  {
    if p == [] then Some(ROOT)
    else match GenOf(now, Parent(p))
      case None => None
      case Some(g) => if (p, g) in now && now[(p, g)].Dir? then Some(now[(p, g)].gen) else None
  }

  /** The file at `p`, if there is one. */
  function FileAt(now: map<Cell, Entry>, p: Path): Option<Entry> {
    if p == [] then None
    else match GenOf(now, Parent(p))
      case None => None
      case Some(g) => if (p, g) in now && now[(p, g)].File? then Some(now[(p, g)]) else None
  }

  /** What the disk may hold for `slot`. */
  function Possible(d: Disk, slot: Cell): set<Option<Entry>> {
    {Lookup(d.now, slot)} + if slot in d.stale then d.stale[slot] else {}
  }

  // ----- filesystem calls -----

  function Set(d: Disk, slot: Cell, e: Entry): Disk {
    d.(now := d.now[slot := e], stale := d.stale[slot := Possible(d, slot)])
  }

  function Unset(d: Disk, slot: Cell): Disk {
    d.(now := d.now - {slot}, stale := d.stale[slot := Possible(d, slot)])
  }

  function MakeDir(d: Disk, slot: Cell): Disk {
    Set(d, slot, Dir(d.next)).(next := d.next + 1)
  }

  /** `slot` is an entry of the directory at `p` with generation `g`. */
  predicate EntryOf(slot: Cell, p: Path, g: nat) {
    slot.0 != [] && Parent(slot.0) == p && slot.1 == g
  }

  function Fsync(d: Disk, p: Path, g: nat): Disk {
    d.(stale := map s | s in d.stale && !EntryOf(s, p, g) :: d.stale[s])
  }

  // ----- power loss -----

  /** What becomes of an entry the disk held as `v`: a file whose bytes were not synced may come back as anything. */
  predicate Recovers(v: Option<Entry>, v': Option<Entry>) {
    if v.Some? && v.value.File? && !v.value.synced then v'.Some? && v'.value.File? && v'.value.synced else v' == v
  }

  ghost predicate CrashesTo(d: Disk, d': Disk) {
    && d'.stale == map[] && d'.next == d.next
    && forall slot: Cell :: CanBecome(d, slot, Lookup(d'.now, slot))
  }

  ghost predicate CanBecome(d: Disk, slot: Cell, v': Option<Entry>) {
    exists v :: v in Possible(d, slot) && Recovers(v, v')
  }

  // ----- a disk at rest -----

  predicate Live(now: map<Cell, Entry>, slot: Cell) {
    slot.0 != [] && GenOf(now, Parent(slot.0)) == Some(slot.1)
  }

  /** Generations in use were given out, and every file that could come back has its bytes on disk. */
  ghost predicate WellFormed(d: Disk) {
    && d.next > ROOT
    && (forall slot :: slot in d.stale ==> slot.1 < d.next)
    && forall slot: Cell, v :: v in Possible(d, slot) && v.Some? ==>
         && slot.1 < d.next && (v.value.Dir? ==> v.value.gen < d.next) && (v.value.File? ==> v.value.synced)
  }

  /** Every entry that can be reached is durable. */
  ghost predicate Durable(d: Disk) {
    WellFormed(d) && forall slot :: slot in d.stale ==> !Live(d.now, slot)
  }

  lemma {:induction false} GenIsOld(d: Disk, p: Path)
    requires WellFormed(d) && GenOf(d.now, p).Some?
    ensures GenOf(d.now, p).value < d.next
  {
    if p != [] {
      var slot := (p, GenOf(d.now, Parent(p)).value);
      assert Lookup(d.now, slot) in Possible(d, slot);
    }
  }

  lemma {:induction false} PrefixExists(now: map<Cell, Entry>, p: Path, j: nat)
    requires GenOf(now, p).Some? && j <= |p|
    ensures GenOf(now, p[..j]).Some?
    decreases |p|
  {
    if j == |p| {
      assert p[..j] == p;
    } else {
      PrefixExists(now, Parent(p), j);
      assert Parent(p)[..j] == p[..j];
    }
  }

  /** Whatever a power loss leaves is at rest. */
  lemma CrashIsDurable(d: Disk, d': Disk)
    requires WellFormed(d) && CrashesTo(d, d')
    ensures Durable(d')
  {
    forall slot: Cell, v | v in Possible(d', slot) && v.Some?
      ensures slot.1 < d'.next && (v.value.Dir? ==> v.value.gen < d'.next) && (v.value.File? ==> v.value.synced)
    {
      assert CanBecome(d, slot, Lookup(d'.now, slot));
      var u :| u in Possible(d, slot) && Recovers(u, Lookup(d'.now, slot));
    }
  }
}
