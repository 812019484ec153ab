/** The checksum a put verified and staged is the one its stored manifest carries, beside the bytes it is of. */
module PutIntegrity {
  import opened Types
  import opened Publication
  import opened PublicationLog
  import opened PublicationSafety
  import Checksums

  /** The checksum, if there is one, is the digest of `body` that it says it is. */
  predicate IsOf(lib: Checksums.Library, checksum: Option<StoredChecksum>, body: Bytes) {
    checksum.Some? ==> Checksums.IsDigest(lib, checksum.value.algorithm, body, checksum.value.value)
  }

  /** The put records the checksum of its own body, if it records one. */
  predicate RecordsItsOwn(lib: Checksums.Library, op: Op) {
    IsOf(lib, op.stamp.checksum, Concat(op.chunks))
  }

  /** The publication that a staged body calls for. */
  function PutOf(bucket: Bucket, key: Path, stamp: VersionEntry, staged: Checksums.Staged): Op {
    Op(Put, bucket, key, [staged.bytes], stamp.(checksum := staged.checksum))
  }

  /**
   Staging a body and turning it into a publication: what is then published is the body that was
   sent, and the entry carries its checksum, which is the client's own if the client sent one.
   */
  method StagePut(lib: Checksums.Library, sent: seq<Checksums.Event>, asked: Option<Checksums.PutChecksum>,
                  creates: bool, writes: nat -> bool, bucket: Bucket, key: Path, stamp: VersionEntry)
    returns (r: Option<Op>)
    ensures r.None? <==> Checksums.Refusal(lib, sent, asked, creates, writes).Some?
    ensures r.Some? ==> r.value.kind.Put? && r.value.Slot() == (bucket, key) && r.value.Body() == Checksums.BodyOf(sent)
    ensures r.Some? ==> r.value.stamp == stamp.(checksum := r.value.stamp.checksum)
    ensures r.Some? ==> RecordsItsOwn(lib, r.value) && r.value.stamp.checksum.Some? == asked.Some?
    ensures r.Some? && asked.Some? ==>
              && r.value.stamp.checksum.value.algorithm == asked.value.algorithm
              && Checksums.Named(asked.value.expected, r.value.stamp.checksum.value.value)
  {
    hide Checksums.Value, Checksums.BodyOf, Checksums.Refusal, Checksums.IsDigest, Checksums.Named;
    var outcome := Checksums.StageBody(lib, sent, asked, creates, writes);
    match outcome {
      case Refused(_) => r := None;
      case Accepted(staged) =>
        var op := PutOf(bucket, key, stamp, staged);
        OneChunk(staged.bytes);
        r := Some(op);
    }
  }

  lemma OneChunk(b: Bytes)
    ensures Concat([b]) == b
  {
    assert [b][..0] == [] && Concat([b]) == Concat([b][..0]) + b;
    assert [] + b == b;
  }

  /**
   If every put was staged so, then in every reachable state the checksum in a manifest is that
   of the data beside it, wherever the manifest describes its data at all.
   */
  lemma StoredChecksumsAreTrue(lib: Checksums.Library, s: State, k: Slot)
    requires Reachable(s) && forall t: nat :: t < |s.tasks| && s.tasks[t].op.kind.Put? ==> RecordsItsOwn(lib, s.tasks[t].op)
    requires k in s.fs.manifests && (s.fs.manifests[k] != [] ==> !Overwritten(s.log, k, s.fs.manifests[k][0]))
    ensures k in s.fs.data && s.fs.manifests[k] != []
    ensures IsOf(lib, s.fs.manifests[k][0].checksum, s.fs.data[k])
  {
    hide Reachable, Overwritten, Checksums.IsDigest;
    ManifestsHaveTheirData(s, k);
    FilesAreWholePuts(s, k);
    var t: nat :| t < |s.tasks| && IsPutOf(s.tasks[t].op, k) && Records(s.fs.manifests[k], s.tasks[t].op);
    assert s.tasks[t].op.Body() == s.fs.data[k];
  }
}
