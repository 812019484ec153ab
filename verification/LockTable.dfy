/**
 One of the engine's two lock tables: a map from a name to a shared lock object.
 A task clones the object out of the table, waits for it, holds it, and on release
 unlocks it, drops its clone, and removes the entry if the table is the only owner left.
 Each of those is a separate step, so other tasks may run between any two of them.
 */
module LockTable {
  type LockId = nat
  type TaskId = nat

  datatype Phase =
    | Waiting   // owns a clone, queued on the object
    | Held      // the guard owns the clone
    | Unlocked  // guard released, clone not yet dropped
    | Dropped   // clone dropped, `remove_if` still to run

  datatype Ref<K> = Ref(key: K, id: LockId, exclusive: bool, phase: Phase, ticket: nat)

  /**
   `entries` is the table proper; `refs` is what each task is doing with it. `abandoned` is
   history: the names that the last task to let go of them left by being cancelled.
   */
  datatype Table<K> = Table(entries: map<K, LockId>, refs: map<TaskId, Ref<K>>, next: nat, abandoned: set<K>)

  function Empty<K>(next: nat): Table<K> {
    Table(map[], map[], next, {})
  }

  /** The tasks that own a clone of lock object `id`. */
  ghost function Owners<K>(tab: Table<K>, id: LockId): set<TaskId> {
    set t | t in tab.refs && tab.refs[t].id == id && !tab.refs[t].phase.Dropped?
  }

  ghost function EntriesOf<K>(tab: Table<K>, id: LockId): set<K> {
    set k | k in tab.entries && tab.entries[k] == id
  }

  /** The reference count of lock object `id`: its owners, and the table itself. */
  ghost function StrongCount<K>(tab: Table<K>, id: LockId): nat {
    |Owners(tab, id)| + |EntriesOf(tab, id)|
  }

  /** Clone the object named `k`, creating it if the table has none, and start waiting. */
  ghost function Enter<K>(tab: Table<K>, t: TaskId, k: K, exclusive: bool): Table<K> {
    var id := if k in tab.entries then tab.entries[k] else tab.next;
    tab.(entries := tab.entries[k := id], refs := tab.refs[t := Ref(k, id, exclusive, Waiting, tab.next)], next := tab.next + 1)
  }

  /** The lock object, which knows nothing of names, can be granted to the waiter `t`. */
  ghost predicate CanGrant<K>(tab: Table<K>, t: TaskId) {
    && t in tab.refs && tab.refs[t].phase.Waiting?
    && forall u :: u in tab.refs && tab.refs[u].phase.Held? && tab.refs[u].id == tab.refs[t].id ==>
         !tab.refs[u].exclusive && !tab.refs[t].exclusive
  }

  ghost function SetPhase<K>(tab: Table<K>, t: TaskId, phase: Phase): Table<K>
    requires t in tab.refs
  {
    tab.(refs := tab.refs[t := tab.refs[t].(phase := phase)])
  }

  /** A waiter whose request went away: its clone is dropped and nothing else happens. */
  ghost function Cancel<K>(tab: Table<K>, t: TaskId): Table<K>
    requires t in tab.refs
  {
    tab.(refs := tab.refs - {t}, abandoned := tab.abandoned + {tab.refs[t].key})
  }

  /** The conditional removal that ends a release, on whatever entry the name has by then. */
  ghost function RemoveIf<K>(tab: Table<K>, t: TaskId): Table<K>
    requires t in tab.refs
  {
    var k := tab.refs[t].key;
    var sole := k in tab.entries && StrongCount(tab, tab.entries[k]) == 1;
    tab.(entries := if sole then tab.entries - {k} else tab.entries, refs := tab.refs - {t}, abandoned := tab.abandoned - {k})
  }

  /** Whoever holds or waits for a name has the very object the table has for it. */
  ghost predicate Current<K>(tab: Table<K>) {
    forall t :: t in tab.refs && !tab.refs[t].phase.Dropped? ==>
      tab.refs[t].key in tab.entries && tab.entries[tab.refs[t].key] == tab.refs[t].id
  }

  ghost predicate DistinctObjects<K(!new)>(tab: Table<K>) {
    && (forall k :: k in tab.entries ==> tab.entries[k] < tab.next)
    && (forall k, l :: k in tab.entries && l in tab.entries && tab.entries[k] == tab.entries[l] ==> k == l)
  }

  predicate BothHold<K(==)>(r: Ref<K>, q: Ref<K>) {
    r.key == q.key && r.phase.Held? && q.phase.Held?
  }

  /** An exclusive holder of a name excludes every other holder of that name. */
  ghost predicate Exclusion<K>(tab: Table<K>) {
    forall t, u :: t in tab.refs && u in tab.refs && t != u && BothHold(tab.refs[t], tab.refs[u]) ==>
      !tab.refs[t].exclusive && !tab.refs[u].exclusive
  }

  ghost predicate Valid<K(!new)>(tab: Table<K>) {
    Current(tab) && DistinctObjects(tab) && Exclusion(tab)
  }

  /** A name nobody is busy with has an entry left exactly if it was abandoned. */
  ghost predicate Exact<K(!new)>(tab: Table<K>) {
    forall k :: Wanted(tab, k) || (k in tab.entries <==> k in tab.abandoned)
  }

  ghost predicate Wanted<K>(tab: Table<K>, k: K) {
    exists t :: t in tab.refs && tab.refs[t].key == k
  }

  lemma WantedBy<K>(tab: Table<K>, k: K, t: TaskId)
    requires t in tab.refs && tab.refs[t].key == k
    ensures Wanted(tab, k)
  {
  }

  /** A change of one task's reference leaves every name but that reference's wanted as before. */
  lemma WantedElsewhere<K(!new)>(tab: Table<K>, tab': Table<K>, t: TaskId, l: K)
    requires tab.refs - {t} == tab'.refs - {t}
    requires t in tab.refs ==> tab.refs[t].key != l
    requires Wanted(tab, l)
    ensures Wanted(tab', l)
  {
    var u :| u in tab.refs && tab.refs[u].key == l;
    assert u in tab.refs - {t};
    WantedBy(tab', l, u);
  }

  lemma EnterKeeps<K(!new)>(tab: Table<K>, t: TaskId, k: K, exclusive: bool)
    requires Valid(tab) && t !in tab.refs
    ensures Valid(Enter(tab, t, k, exclusive))
    ensures Exact(tab) ==> Exact(Enter(tab, t, k, exclusive))
  {
    var tab' := Enter(tab, t, k, exclusive);
    assert Exclusion(tab') by {
      assert forall u :: u in tab'.refs && tab'.refs[u].phase.Held? ==> u in tab.refs && tab'.refs[u] == tab.refs[u];
    }
    WantedBy(tab', k, t);
    forall l | Wanted(tab, l) ensures Wanted(tab', l) {
      WantedElsewhere(tab, tab', t, l);
    }
  }

  /** A grant checks one object's holders; as names and objects match, that covers the name. */
  lemma SetPhaseExcludes<K(!new)>(tab: Table<K>, t: TaskId, phase: Phase)
    requires Valid(tab) && t in tab.refs && !tab.refs[t].phase.Dropped?
    requires phase.Held? ==> CanGrant(tab, t)
    ensures Exclusion(SetPhase(tab, t, phase))
  {
    var refs, refs' := tab.refs, SetPhase(tab, t, phase).refs;
    forall u, v | u in refs' && v in refs' && u != v && BothHold(refs'[u], refs'[v])
      ensures !refs'[u].exclusive && !refs'[v].exclusive
    {
      if u != t && v != t {
        assert BothHold(refs[u], refs[v]);
      } else {
        var w := if u == t then v else u;
        assert tab.entries[refs[w].key] == refs[w].id;
        assert tab.entries[refs[t].key] == refs[t].id;
      }
    }
  }

  /** Only the grant of a compatible waiter, and any later phase, may follow. */
  lemma SetPhaseKeeps<K(!new)>(tab: Table<K>, t: TaskId, phase: Phase)
    requires Valid(tab) && t in tab.refs && !tab.refs[t].phase.Dropped?
    requires phase.Held? ==> CanGrant(tab, t)
    ensures Valid(SetPhase(tab, t, phase))
    ensures Exact(tab) ==> Exact(SetPhase(tab, t, phase))
  {
    SetPhaseExcludes(tab, t, phase);
    var tab' := SetPhase(tab, t, phase);
    forall l | Wanted(tab, l) ensures Wanted(tab', l) {
      var u :| u in tab.refs && tab.refs[u].key == l;
      WantedBy(tab', l, u);
    }
  }

  /** A waiter that goes away leaves its name's entry where it was, which nobody else may be there to remove. */
  lemma CancelKeeps<K(!new)>(tab: Table<K>, t: TaskId)
    requires Valid(tab) && t in tab.refs && tab.refs[t].phase.Waiting?
    ensures Valid(Cancel(tab, t))
    ensures Exact(tab) ==> Exact(Cancel(tab, t))
    ensures tab.refs[t].key in Cancel(tab, t).entries
  {
    var k, tab' := tab.refs[t].key, Cancel(tab, t);
    forall l | Wanted(tab, l) && l != k ensures Wanted(tab', l) {
      WantedElsewhere(tab, tab', t, l);
    }
  }

  /** A count of one means no task owns a clone, so no task can be left with a stale object. */
  lemma SoleOwner<K>(tab: Table<K>, k: K)
    requires k in tab.entries && StrongCount(tab, tab.entries[k]) == 1
    ensures Owners(tab, tab.entries[k]) == {}
  {
    var es := EntriesOf(tab, tab.entries[k]);
    assert k in es;
    assert es == {k} + (es - {k});
    assert |{k} + (es - {k})| == |{k}| + |es - {k}|;
  }

  /** A count above one means some other task still wants the name. */
  lemma SharedOwner<K(!new)>(tab: Table<K>, k: K, t: TaskId)
    requires Valid(tab) && t in tab.refs && tab.refs[t].phase.Dropped?
    requires k in tab.entries && StrongCount(tab, tab.entries[k]) != 1
    ensures exists u :: u in tab.refs && u != t && tab.refs[u].key == k
  {
    var id := tab.entries[k];
    assert EntriesOf(tab, id) == {k};
    assert |{k}| == 1;
    assert Owners(tab, id) != {};
    var u :| u in Owners(tab, id);
    assert tab.entries[tab.refs[u].key] == id;
  }

  lemma RemoveIfKeeps<K(!new)>(tab: Table<K>, t: TaskId)
    requires Valid(tab) && t in tab.refs && tab.refs[t].phase.Dropped?
    ensures Valid(RemoveIf(tab, t))
    ensures Exact(tab) ==> Exact(RemoveIf(tab, t))
  {
    var k := tab.refs[t].key;
    var tab' := RemoveIf(tab, t);
    var sole := k in tab.entries && StrongCount(tab, tab.entries[k]) == 1;
    if sole {
      SoleOwner(tab, k);
      forall u | u in tab'.refs && !tab'.refs[u].phase.Dropped?
        ensures tab'.refs[u].key != k
      {
        assert u !in Owners(tab, tab.entries[k]);
      }
    } else if k in tab.entries {
      SharedOwner(tab, k, t);
      var u :| u in tab.refs && u != t && tab.refs[u].key == k;
      WantedBy(tab', k, u);
    }
    forall l | Wanted(tab, l) && l != k ensures Wanted(tab', l) {
      WantedElsewhere(tab, tab', t, l);
    }
  }
}
