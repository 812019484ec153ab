/** The per-object version manifest: one entry per version, newest first. */
module Meta {
  import opened Types

  datatype Op = Write(e: VersionEntry) | Drop(versionId: string)

  /** The entries of `vs` that do not carry `id`, in their order. */
  function Without(vs: seq<VersionEntry>, id: string): seq<VersionEntry> {
    if vs == [] then []
    else
      var init := Without(vs[..|vs| - 1], id);
      var last := vs[|vs| - 1];
      if last.versionId == id then init else init + [last]
  }

  function Upserted(vs: seq<VersionEntry>, e: VersionEntry): seq<VersionEntry> {
    [e] + Without(vs, e.versionId)
  }

  /** `vs` without its first entry that carries `id`. */
  function Removed(vs: seq<VersionEntry>, id: string): seq<VersionEntry> {
    if vs == [] then []
    else if vs[0].versionId == id then vs[1..]
    else [vs[0]] + Removed(vs[1..], id)
  }

  /** The history after `ops`, starting from an empty manifest. */
  function History(ops: seq<Op>): seq<VersionEntry> {
    if ops == [] then []
    else
      var before := History(ops[..|ops| - 1]);
      match ops[|ops| - 1]
      case Write(e) => Upserted(before, e)
      case Drop(id) => Removed(before, id)
  }

  /** Position in `ops` of the write that `id` survives from, or -1 if it does not survive. */
  function LastWrite(ops: seq<Op>, id: string): (n: int)
    ensures -1 <= n < |ops|
  {
    if ops == [] then -1
    else
      match ops[|ops| - 1]
      case Write(e) => if e.versionId == id then |ops| - 1 else LastWrite(ops[..|ops| - 1], id)
      case Drop(gone) => if gone == id then -1 else LastWrite(ops[..|ops| - 1], id)
  }

  /** `vs` holds exactly the ids that survive `ops`, each as last written, the newest write first. */
  ghost predicate NewestFirst(ops: seq<Op>, vs: seq<VersionEntry>) {
    && Descending(ops, vs)
    && (forall i :: 0 <= i < |vs| ==> AtItsWrite(ops, vs[i]))
    && (forall id :: LastWrite(ops, id) >= 0 ==> Holds(vs, id))
  }

  ghost predicate Descending(ops: seq<Op>, vs: seq<VersionEntry>) {
    forall i, j :: 0 <= i < j < |vs| ==> LastWrite(ops, vs[i].versionId) > LastWrite(ops, vs[j].versionId)
  }

  predicate AtItsWrite(ops: seq<Op>, e: VersionEntry) {
    var n := LastWrite(ops, e.versionId);
    n >= 0 && ops[n] == Write(e)
  }

  ghost predicate Holds(vs: seq<VersionEntry>, id: string) {
    exists i :: 0 <= i < |vs| && vs[i].versionId == id
  }

  /** `at` lists, in order, the positions of the entries that filtering keeps. */
  lemma {:induction false} WithoutKeepsOrder(vs: seq<VersionEntry>, id: string) returns (at: seq<nat>)
    ensures |at| == |Without(vs, id)|
    ensures forall i :: 0 <= i < |at| ==> at[i] < |vs| && Without(vs, id)[i] == vs[at[i]]
    ensures forall i :: 0 <= i < |at| ==> vs[at[i]].versionId != id
    ensures forall i, j :: 0 <= i < j < |at| ==> at[i] < at[j]
    ensures forall k :: 0 <= k < |vs| && vs[k].versionId != id ==> k in at
  {
    if vs == [] {
      return [];
    }
    var init, n := vs[..|vs| - 1], |vs| - 1;
    var before := WithoutKeepsOrder(init, id);
    assert forall k :: 0 <= k < n ==> init[k] == vs[k];
    if vs[n].versionId == id {
      return before;
    }
    at := before + [n];
    forall k | 0 <= k < |vs| && vs[k].versionId != id ensures k in at {
      if k < n {
        assert init[k].versionId != id;
        assert k in before;
      } else {
        assert at[|before|] == k;
      }
    }
  }

  ghost predicate Distinct(vs: seq<VersionEntry>) {
    forall i, j :: 0 <= i < j < |vs| ==> vs[i].versionId != vs[j].versionId
  }

  /** Where no id repeats, removing its first entry is filtering it out. */
  lemma {:induction false} RemovedIsWithout(vs: seq<VersionEntry>, id: string)
    requires Distinct(vs)
    ensures Removed(vs, id) == Without(vs, id)
  {
    if vs != [] {
      var rest := vs[1..];
      assert forall i :: 0 <= i < |rest| ==> rest[i] == vs[i + 1] && rest[i].versionId != vs[0].versionId;
      WithoutHead(vs, id);
      if vs[0].versionId == id {
        WithoutAbsent(rest, id);
      } else {
        RemovedIsWithout(rest, id);
      }
    }
  }

  lemma {:induction false} WithoutHead(vs: seq<VersionEntry>, id: string)
    requires vs != []
    ensures Without(vs, id) == (if vs[0].versionId == id then [] else [vs[0]]) + Without(vs[1..], id)
  {
    if |vs| > 1 {
      WithoutHead(vs[..|vs| - 1], id);
      assert vs[..|vs| - 1][1..] == vs[1..][..|vs| - 2];
    }
  }

  lemma {:induction false} WithoutAbsent(vs: seq<VersionEntry>, id: string)
    requires forall i :: 0 <= i < |vs| ==> vs[i].versionId != id
    ensures Without(vs, id) == vs
  {
    if vs != [] {
      WithoutAbsent(vs[..|vs| - 1], id);
    }
  }

  function Touched(op: Op): string {
    if op.Write? then op.e.versionId else op.versionId
  }

  /** An operation on one id leaves every other id's last write where it was. */
  lemma LastWriteElsewhere(ops: seq<Op>, op: Op, id: string)
    ensures id != Touched(op) ==> LastWrite(ops + [op], id) == LastWrite(ops, id)
    ensures id == Touched(op) ==> LastWrite(ops + [op], id) == if op.Write? then |ops| else -1
  {
    assert (ops + [op])[..|ops|] == ops;
  }

  lemma RestDescends(ops: seq<Op>, vs: seq<VersionEntry>, op: Op)
    requires NewestFirst(ops, vs)
    ensures var rest := Without(vs, Touched(op));
            && Descending(ops + [op], rest)
            && forall i :: 0 <= i < |rest| ==> rest[i].versionId != Touched(op) && AtItsWrite(ops + [op], rest[i])
  {
    var at := WithoutKeepsOrder(vs, Touched(op));
    var rest := Without(vs, Touched(op));
    forall i | 0 <= i < |rest|
      ensures LastWrite(ops + [op], rest[i].versionId) == LastWrite(ops, vs[at[i]].versionId)
      ensures AtItsWrite(ops + [op], rest[i])
    {
      LastWriteElsewhere(ops, op, rest[i].versionId);
      assert AtItsWrite(ops, vs[at[i]]);
    }
  }

  lemma RestHolds(vs: seq<VersionEntry>, gone: string, id: string)
    requires Holds(vs, id) && id != gone
    ensures Holds(Without(vs, gone), id)
  {
    var at := WithoutKeepsOrder(vs, gone);
    var k :| 0 <= k < |vs| && vs[k].versionId == id;
    var j :| 0 <= j < |at| && at[j] == k;
    assert Without(vs, gone)[j].versionId == id;
  }

  lemma HoldsInTail(e: VersionEntry, vs: seq<VersionEntry>, id: string)
    requires Holds(vs, id)
    ensures Holds([e] + vs, id)
  {
    var i :| 0 <= i < |vs| && vs[i].versionId == id;
    assert ([e] + vs)[i + 1].versionId == id;
  }

  lemma NewestFirstStep(ops: seq<Op>, vs: seq<VersionEntry>, op: Op)
    requires NewestFirst(ops, vs)
    ensures var rest := Without(vs, Touched(op));
            NewestFirst(ops + [op], if op.Write? then [op.e] + rest else rest)
  {
    RestDescends(ops, vs, op);
    var rest := Without(vs, Touched(op));
    var now := if op.Write? then [op.e] + rest else rest;
    forall id | LastWrite(ops + [op], id) >= 0
      ensures Holds(now, id)
    {
      LastWriteElsewhere(ops, op, id);
      if id == Touched(op) {
        assert now[0].versionId == id;
      } else {
        RestHolds(vs, Touched(op), id);
        if op.Write? { HoldsInTail(op.e, rest, id); }
      }
    }
    if op.Write? {
      LastWriteElsewhere(ops, op, Touched(op));
    }
  }

  /** After any upserts and removes: each surviving id once, as last written, newest first. */
  lemma {:induction false} HistoryIsNewestFirst(ops: seq<Op>)
    ensures NewestFirst(ops, History(ops))
  {
    if ops != [] {
      var init, op := ops[..|ops| - 1], ops[|ops| - 1];
      HistoryIsNewestFirst(init);
      NewestFirstStep(init, History(init), op);
      assert init + [op] == ops;
      if op.Drop? {
        assert Distinct(History(init)) by {
          assert Descending(init, History(init));
        }
        RemovedIsWithout(History(init), op.versionId);
      }
    }
  }

  /** An overwrite moves its entry to the head and leaves the history the same length. */
  lemma OverwriteNeverGrows(ops: seq<Op>, e: VersionEntry)
    ensures History(ops + [Write(e)])[0] == e
    ensures |History(ops + [Write(e)])| == |History(ops)| + if LastWrite(ops, e.versionId) >= 0 then 0 else 1
  {
    HistoryIsNewestFirst(ops);
    assert (ops + [Write(e)])[..|ops|] == ops;
    var h := History(ops);
    if LastWrite(ops, e.versionId) >= 0 {
      var i :| 0 <= i < |h| && h[i].versionId == e.versionId;
      WithoutOne(h, i);
    } else {
      WithoutAbsent(h, e.versionId);
    }
  }

  lemma {:induction false} WithoutOne(vs: seq<VersionEntry>, i: nat)
    requires i < |vs|
    requires forall j :: 0 <= j < |vs| && j != i ==> vs[j].versionId != vs[i].versionId
    ensures Without(vs, vs[i].versionId) == vs[..i] + vs[i + 1..]
  {
    if i == |vs| - 1 {
      WithoutAbsent(vs[..i], vs[i].versionId);
    } else {
      WithoutOne(vs[..|vs| - 1], i);
    }
  }

  lemma {:induction false} RemovedAt(vs: seq<VersionEntry>, id: string, at: nat)
    requires at <= |vs| && forall i :: 0 <= i < at ==> vs[i].versionId != id
    ensures at == |vs| ==> Removed(vs, id) == vs
    ensures at < |vs| && vs[at].versionId == id ==> Removed(vs, id) == vs[..at] + vs[at + 1..]
  {
    if at > 0 {
      RemovedAt(vs[1..], id, at - 1);
      assert [vs[0]] + vs[1..] == vs;
    }
  }

  /** Rewriting an unversioned history leaves just the new entry. */
  lemma UpsertReplaces(h: seq<VersionEntry>, e: VersionEntry)
    requires |h| <= 1 && (h != [] ==> h[0].versionId == e.versionId)
    ensures Upserted(h, e) == [e]
  {
    if h != [] {
      assert Without(h[..0], e.versionId) == [];
    }
  }

  predicate FirstAt(vs: seq<VersionEntry>, id: string, at: nat) {
    at < |vs| && vs[at].versionId == id && forall i :: 0 <= i < at ==> vs[i].versionId != id
  }

  lemma HeadIsNewest(ops: seq<Op>)
    ensures var h := History(ops);
            if h == [] then forall id :: LastWrite(ops, id) < 0
            else AtItsWrite(ops, h[0]) && forall id :: LastWrite(ops, id) <= LastWrite(ops, h[0].versionId)
  {
    HistoryIsNewestFirst(ops);
    var h := History(ops);
    forall id ensures if h == [] then LastWrite(ops, id) < 0 else LastWrite(ops, id) <= LastWrite(ops, h[0].versionId) {
      if LastWrite(ops, id) >= 0 {
        var i :| 0 <= i < |h| && h[i].versionId == id;
        assert i > 0 ==> LastWrite(ops, h[0].versionId) > LastWrite(ops, h[i].versionId);
      }
    }
  }

  lemma HistoryGrows(ops: seq<Op>, op: Op)
    ensures History(ops + [op]) == if op.Write? then Upserted(History(ops), op.e) else Removed(History(ops), op.versionId)
  {
    assert (ops + [op])[..|ops|] == ops;
  }

  /** The manifest of one object. `ops` is what has been done to it since it was empty. */
  class VersionManifest {
    var versions: seq<VersionEntry>
    ghost var ops: seq<Op>

    ghost predicate Valid()
      reads this
    {
      versions == History(ops)
    }

    constructor ()
      ensures Valid() && ops == []
    {
      versions := [];
      ops := [];
    }

    /** The entry of the most recent write that no later operation undid, if there is one. */
    method Latest() returns (r: Option<VersionEntry>)
      requires Valid()
      ensures r.None? ==> forall id :: LastWrite(ops, id) < 0
      ensures r.Some? ==> AtItsWrite(ops, r.value) && forall id :: LastWrite(ops, id) <= LastWrite(ops, r.value.versionId)
    {
      HeadIsNewest(ops);
      r := if |versions| > 0 then Some(versions[0]) else None;
    }

    method Upsert(e: VersionEntry)
      modifies this
      ensures versions == Upserted(old(versions), e)
      ensures ops == old(ops) + [Write(e)] && (old(Valid()) ==> Valid())
    {
      var kept := [];
      for i := 0 to |versions|
        invariant versions == old(versions) && ops == old(ops)
        invariant kept == Without(versions[..i], e.versionId)
      {
        assert versions[..i + 1][..i] == versions[..i];
        if versions[i].versionId != e.versionId {
          kept := kept + [versions[i]];
        }
      }
      assert versions[..|versions|] == versions;
      HistoryGrows(ops, Write(e));
      versions := [e] + kept;
      ops := ops + [Write(e)];
    }

    /** The first entry with the id goes and is returned; in a history, that is the id's last write, if it survives. */
    method Remove(id: string) returns (r: Option<VersionEntry>)
      modifies this
      ensures r.None? ==> versions == old(versions) && forall i :: 0 <= i < |old(versions)| ==> old(versions)[i].versionId != id
      ensures r.Some? ==>
                exists at: nat :: FirstAt(old(versions), id, at) && r.value == old(versions)[at]
                                  && versions == old(versions)[..at] + old(versions)[at + 1..]
      ensures ops == old(ops) + [Drop(id)] && (old(Valid()) ==> Valid())
      ensures old(Valid()) ==> (r.Some? <==> LastWrite(old(ops), id) >= 0) && (r.Some? ==> AtItsWrite(old(ops), r.value))
    {
      HistoryIsNewestFirst(ops);
      HistoryGrows(ops, Drop(id));
      var at := 0;
      while at < |versions| && versions[at].versionId != id
        invariant 0 <= at <= |versions|
        invariant forall i :: 0 <= i < at ==> versions[i].versionId != id
      {
        at := at + 1;
      }
      RemovedAt(versions, id, at);
      ops := ops + [Drop(id)];
      if at == |versions| {
        return None;
      }
      assert FirstAt(versions, id, at);
      r := Some(versions[at]);
      versions := versions[..at] + versions[at + 1..];
    }
  }
}
