/**
 What the history of visible steps says a key's files must be. An event is logged whenever a
 put or delete gets further in publishing, so the last event on a key tells where its files stand.
 */
module PublicationLog {
  import opened Types
  import opened LockTable
  import opened Publication

  /** Everything on disk for one key. */
  datatype Content = Content(manifest: Option<seq<VersionEntry>>, data: Option<Bytes>)

  const ABSENT := Content(None, None)

  /** A put's manifest: one version, with no id of its own, that carries what the request came with. */
  predicate Records(h: seq<VersionEntry>, op: Op) {
    && |h| == 1 && h[0].versionId == "null" && !h[0].deleteMarker
    && Describes(h[0], Concat(op.chunks))
    && h[0].contentType == op.stamp.contentType && h[0].userMetadata == op.stamp.userMetadata
    && h[0].mtime == op.stamp.mtime && h[0].checksum == op.stamp.checksum
  }

  /** Which is to say the entry that the protocol's put writes. */
  lemma EntryRecords(h: seq<VersionEntry>, op: Op)
    ensures Records(h, op) <==> h == [op.Entry()]
  {
  }

  /** What an operation leaves at its key when it is through. */
  function Left(op: Op): Content {
    if op.kind.Put? then Content(Some([op.Entry()]), Some(op.Body())) else ABSENT
  }

  /** What lies there after only its first visible step: a put's data, or a delete's manifest gone. */
  function HalfWay(op: Op, before: Content): Content {
    if op.kind.Put? then before.(data := Some(op.Body())) else before.(manifest := None)
  }

  /** The last event on `k`. */
  function LastOf(log: seq<Event>, k: Slot): (last: Option<Event>)
    ensures last.Some? ==> last.value in log && last.value.op.Slot() == k
  {
    if log == [] then None
    else if log[|log| - 1].op.Slot() == k then Some(log[|log| - 1])
    else LastOf(log[..|log| - 1], k)
  }

  /** The files of `k` that the visible steps so far make up. */
  function Story(log: seq<Event>, k: Slot): Content {
    if log == [] then ABSENT
    else
      var init, last := log[..|log| - 1], log[|log| - 1];
      if last.op.Slot() != k then Story(init, k)
      else if last.progress.Gap? then HalfWay(last.op, Story(init, k))
      else Left(last.op)
  }

  /** A flat map's value for `k` after the completed operations, in the order they completed. */
  function Replay(log: seq<Event>, k: Slot): Content {
    if log == [] then ABSENT
    else
      var init, last := log[..|log| - 1], log[|log| - 1];
      if last.op.Slot() != k || !last.progress.Complete? then Replay(init, k) else Left(last.op)
  }

  /** The last visible step on `k` was the first of two. */
  predicate MidGap(log: seq<Event>, k: Slot) {
    LastOf(log, k).Some? && LastOf(log, k).value.progress.Gap?
  }

  /** Where the last event on a key is a success, or there is none, the files are the flat map's. */
  lemma {:induction false} StoryIsReplay(log: seq<Event>, k: Slot)
    requires LastOf(log, k).Some? ==> LastOf(log, k).value.progress.Complete?
    ensures Story(log, k) == Replay(log, k)
  {
    if log != [] && log[|log| - 1].op.Slot() != k {
      StoryIsReplay(log[..|log| - 1], k);
    }
  }

  /** Half-way files are those of an operation in its gap; all others are what the last operation left. */
  lemma {:induction false} StoryOfLast(log: seq<Event>, k: Slot)
    requires LastOf(log, k).Some? && !MidGap(log, k)
    ensures Story(log, k) == Left(LastOf(log, k).value.op)
  {
    if log[|log| - 1].op.Slot() != k {
      StoryOfLast(log[..|log| - 1], k);
    }
  }

  lemma {:induction false} StoryOfNone(log: seq<Event>, k: Slot)
    requires LastOf(log, k).None?
    ensures Story(log, k) == ABSENT
  {
    if log != [] {
      StoryOfNone(log[..|log| - 1], k);
    }
  }

  /** There is never a manifest without data; and data without a manifest only half way through an operation. */
  lemma {:induction false} DataComesFirst(log: seq<Event>, k: Slot)
    ensures Story(log, k).manifest.Some? ==> Story(log, k).data.Some?
    ensures Story(log, k).data.Some? && Story(log, k).manifest.None? ==> MidGap(log, k)
  {
    if log != [] {
      DataComesFirst(log[..|log| - 1], k);
    }
  }

  predicate IsPutOf(op: Op, k: Slot) {
    op.kind.Put? && op.Slot() == k
  }

  /** A manifest is always one put's entry, and data always one put's whole body. */
  lemma {:induction false} WholePuts(log: seq<Event>, k: Slot)
    ensures Story(log, k).manifest.Some? ==>
              exists e :: e in log && IsPutOf(e.op, k) && Story(log, k).manifest.value == [e.op.Entry()]
    ensures Story(log, k).data.Some? ==>
              exists e :: e in log && IsPutOf(e.op, k) && Story(log, k).data.value == e.op.Body()
  {
    if log != [] {
      var init, last := log[..|log| - 1], log[|log| - 1];
      WholePuts(init, k);
      assert last in log && forall e :: e in init ==> e in log;
    }
  }

  /** After the first step of a put the data is its body, whatever the manifest says. */
  lemma {:induction false} MidGapData(log: seq<Event>, k: Slot)
    requires MidGap(log, k) && LastOf(log, k).value.op.kind.Put?
    ensures Story(log, k).data == Some(LastOf(log, k).value.op.Body())
  {
    if log[|log| - 1].op.Slot() != k {
      MidGapData(log[..|log| - 1], k);
    }
  }

  /** The last visible step on `k` gave it data that `e` does not describe. */
  predicate Overwritten(log: seq<Event>, k: Slot, e: VersionEntry) {
    MidGap(log, k) && LastOf(log, k).value.op.kind.Put? && !Describes(e, LastOf(log, k).value.op.Body())
  }

  /** A manifest fails to describe its data exactly when the last visible step was an overwrite's first. */
  lemma {:induction false} DescribedUnlessOverwritten(log: seq<Event>, k: Slot)
    requires Story(log, k).manifest.Some?
    ensures var c := Story(log, k);
            && |c.manifest.value| == 1 && c.data.Some?
            && (Describes(c.manifest.value[0], c.data.value) <==> !Overwritten(log, k, c.manifest.value[0]))
  {
    DataComesFirst(log, k);
    WholePuts(log, k);
    if LastOf(log, k).None? {
      StoryOfNone(log, k);
    } else if !MidGap(log, k) {
      StoryOfLast(log, k);
    } else if LastOf(log, k).value.op.kind.Put? {
      MidGapData(log, k);
    } else {
      MidDelete(log, k);
    }
  }

  lemma {:induction false} MidDelete(log: seq<Event>, k: Slot)
    requires MidGap(log, k) && !LastOf(log, k).value.op.kind.Put?
    ensures Story(log, k).manifest.None?
  {
    if log[|log| - 1].op.Slot() != k {
      MidDelete(log[..|log| - 1], k);
    }
  }
}
