/** Integrity checksums of a put: verified as the body streams, and recorded by the engine that stages it. */
module Checksums {
  import opened Types
  import Crc
  import Crc32c
  import Crc64Nvme

  /** The digests and encodings taken from libraries, as functions of all the bytes. */
  datatype Library = Library(
    crc32: Bytes -> string,
    sha1: Bytes -> string,
    sha256: Bytes -> string,
    base64Of32: bv32 -> string,
    base64Of64: bv64 -> string)

  /** The base64 checksum of a whole body. */
  function Value(lib: Library, algorithm: Algorithm, body: Bytes): string {
    match algorithm
    case Crc32 => lib.crc32(body)
    case Crc32c => lib.base64Of32(Crc.Checksum(Crc32c.REGISTER, body))
    case Sha1 => lib.sha1(body)
    case Sha256 => lib.sha256(body)
    case Crc64Nvme => lib.base64Of64(Crc.Checksum(Crc64Nvme.REGISTER, body))
  }

  /** `value` is the digest of `body` that each algorithm's name stands for. */
  predicate IsDigest(lib: Library, algorithm: Algorithm, body: Bytes, value: string) {
    && (algorithm == Crc32 ==> value == lib.crc32(body))
    && (algorithm == Sha1 ==> value == lib.sha1(body))
    && (algorithm == Sha256 ==> value == lib.sha256(body))
    && (algorithm == Algorithm.Crc32c ==> value == lib.base64Of32(Crc.Checksum(Crc32c.REGISTER, body)))
    && (algorithm == Algorithm.Crc64Nvme ==> value == lib.base64Of64(Crc.Checksum(Crc64Nvme.REGISTER, body)))
  }

  lemma ValueIsDigest(lib: Library, algorithm: Algorithm, body: Bytes, value: string)
    ensures value == Value(lib, algorithm, body) <==> IsDigest(lib, algorithm, body, value)
  {
  }

  /** A running checksum. The two CRCs made here keep a register; a library hasher is what it has been fed. */
  class Checksummer {
    const lib: Library
    const algorithm: Algorithm
    var register32: bv32
    var register64: bv64
    var fed: Bytes
    ghost var body: Bytes

    ghost predicate Valid()
      reads this
    {
      match algorithm
      case Crc32c => register32 == Crc.Fold(Crc32c.REGISTER, Crc32c.ONES, body)
      case Crc64Nvme => register64 == Crc.Fold(Crc64Nvme.REGISTER, Crc64Nvme.ONES, body)
      case _ => fed == body
    }

    constructor (lib: Library, algorithm: Algorithm)
      ensures Valid() && body == [] && this.lib == lib && this.algorithm == algorithm
    {
      this.lib, this.algorithm := lib, algorithm;
      register32, register64, fed := Crc32c.ONES, Crc64Nvme.ONES, [];
      body := [];
    }

    method Update(data: Bytes)
      requires Valid()
      modifies this
      ensures Valid() && body == old(body) + data
    {
      match algorithm {
        case Crc32c =>
          Crc.FoldConcat(Crc32c.REGISTER, Crc32c.ONES, body, data);
          register32 := Crc32c.Update(register32, data);
        case Crc64Nvme =>
          Crc.FoldConcat(Crc64Nvme.REGISTER, Crc64Nvme.ONES, body, data);
          register64 := Crc64Nvme.Update(register64, data);
        case _ =>
          fed := fed + data;
      }
      body := body + data;
    }

    method FinalizeBase64() returns (value: string)
      requires Valid()
      ensures value == Value(lib, algorithm, body)
      ensures IsDigest(lib, algorithm, body, value)
    {
      match algorithm {
        case Crc32 => value := lib.crc32(fed);
        case Crc32c => value := lib.base64Of32(register32 ^ Crc32c.ONES);
        case Sha1 => value := lib.sha1(fed);
        case Sha256 => value := lib.sha256(fed);
        case Crc64Nvme => value := lib.base64Of64(register64 ^ Crc64Nvme.ONES);
      }
    }
  }

  // ----- the client's value -----

  /** Where the expected value comes from; a trailer can be announced and never sent. */
  datatype Expected = Immediate(value: string) | Trailer(sent: Option<string>) {
    function Resolve(): Option<string> {
      match this
      case Immediate(v) => Some(v)
      case Trailer(sent) => sent
    }
  }

  /** The client named `v`, beside the body or in its trailer. */
  predicate Named(expected: Expected, v: string) {
    expected == Immediate(v) || expected == Trailer(Some(v))
  }

  datatype PutChecksum = PutChecksum(algorithm: Algorithm, expected: Expected)

  datatype Error = Inner | WriteFailed | Mismatch(algorithm: Algorithm) | MissingTrailer(algorithm: Algorithm)

  function Evaluate(algorithm: Algorithm, computed: Option<string>, expected: Option<string>): Option<Error> {
    if computed.Some? && expected.Some? && computed.value != expected.value then Some(Mismatch(algorithm))
    else if computed.Some? && expected.None? then Some(MissingTrailer(algorithm))
    else None
  }

  // ----- streams -----

  /** What the transport has for each poll, in order; then the end. */
  datatype Event = NotReady | Arrived(chunk: Bytes) | Broken

  datatype Poll = Pending | Item(chunk: Bytes) | Failed(error: Error) | End

  /** A poll of the transport, and what it has left. */
  function Polled(inner: seq<Event>): (Poll, seq<Event>) {
    if inner == [] then (End, [])
    else match inner[0]
      case NotReady => (Pending, inner[1..])
      case Arrived(chunk) => (Item(chunk), inner[1..])
      case Broken => (Failed(Inner), inner[1..])
  }

  /** The bytes that arrive before the transport ends or breaks. */
  function BodyOf(inner: seq<Event>): Bytes {
    if inner == [] || inner[0].Broken? then []
    else (if inner[0].Arrived? then inner[0].chunk else []) + BodyOf(inner[1..])
  }

  predicate Breaks(inner: seq<Event>) {
    inner != [] && (inner[0].Broken? || Breaks(inner[1..]))
  }

  /** `passed` is what has come of `whole`, with `inner` still to come. */
  ghost predicate Midway(whole: seq<Event>, passed: Bytes, inner: seq<Event>) {
    passed + BodyOf(inner) == BodyOf(whole) && Breaks(inner) == Breaks(whole)
  }

  lemma PollAdvances(whole: seq<Event>, passed: Bytes, inner: seq<Event>)
    requires Midway(whole, passed, inner)
    ensures var (p, rest) := Polled(inner);
            match p
            case Pending => Midway(whole, passed, rest) && |rest| < |inner|
            case Item(chunk) => Midway(whole, passed + chunk, rest) && |rest| < |inner|
            case Failed(e) => Breaks(whole) && e == Inner
            case End => !Breaks(whole) && passed == BodyOf(whole)
  {
    if inner == [] {
      assert passed + [] == passed;
    } else if inner[0].NotReady? {
      assert [] + BodyOf(inner[1..]) == BodyOf(inner[1..]);
    } else if inner[0].Arrived? {
      var chunk := inner[0].chunk;
      assert passed + (chunk + BodyOf(inner[1..])) == passed + chunk + BodyOf(inner[1..]);
    }
  }

  /** Why a put must be refused, if it must: a function of what the client sent alone. */
  function Verdict(lib: Library, sent: seq<Event>, asked: Option<PutChecksum>): Option<Error> {
    if Breaks(sent) then Some(Inner)
    else if asked.None? then None
    else
      var PutChecksum(algorithm, expected) := asked.value;
      match expected.Resolve()
      case None => Some(MissingTrailer(algorithm))
      case Some(v) => if v == Value(lib, algorithm, BodyOf(sent)) then None else Some(Mismatch(algorithm))
  }

  /** Base64 loses nothing. */
  ghost predicate Encodes(lib: Library) {
    && (forall x: bv32, y: bv32 :: lib.base64Of32(x) == lib.base64Of32(y) ==> x == y)
    && (forall x: bv64, y: bv64 :: lib.base64Of64(x) == lib.base64Of64(y) ==> x == y)
  }

  /** How many consecutive bytes can be damaged with no chance of the checksum agreeing. */
  function BurstWidth(algorithm: Algorithm): nat {
    match algorithm
    case Crc32c => 4
    case Crc64Nvme => 8
    case _ => 0
  }

  /** A body the client summed as `before + w + after` and that arrives as `before + v + after` is refused. */
  lemma DamageIsRefused(
    lib: Library, sent: seq<Event>, asked: PutChecksum, before: Bytes, w: Bytes, v: Bytes, after: Bytes)
    requires Encodes(lib)
    requires w != v && |w| == |v| <= BurstWidth(asked.algorithm)
    requires Named(asked.expected, Value(lib, asked.algorithm, before + w + after))
    requires BodyOf(sent) == before + v + after && !Breaks(sent)
    ensures Verdict(lib, sent, Some(asked)) == Some(Mismatch(asked.algorithm))
  {
    hide BodyOf, Breaks, Crc.Checksum, Crc.Lawful;
    if asked.algorithm.Crc32c? {
      Crc32c.IsLawful();
      Crc.BurstIsDetected(Crc32c.REGISTER, before, w, v, after);
    } else if asked.algorithm.Crc64Nvme? {
      Crc64Nvme.IsLawful();
      Crc.BurstIsDetected(Crc64Nvme.REGISTER, before, w, v, after);
    }
  }

  /** A body stream that checks the client's value as the bytes pass. */
  class VerifyingStream {
    const algorithm: Algorithm
    var inner: seq<Event>
    var checksummer: Checksummer?
    var expected: Option<Expected>
    var finished: bool

    ghost const lib: Library
    ghost const whole: seq<Event>
    ghost const asked: PutChecksum
    ghost const hasher: Checksummer

    /** Until the stream finishes, its checksum is of exactly what has passed. */
    ghost predicate Valid()
      reads this, hasher
    {
      !finished ==>
        && checksummer == hasher && hasher.Valid()
        && hasher.algorithm == algorithm == asked.algorithm && hasher.lib == lib
        && expected == Some(asked.expected)
        && Midway(whole, hasher.body, inner)
    }

    constructor (lib: Library, inner: seq<Event>, checksum: PutChecksum)
      ensures Valid() && !finished && fresh(hasher) && hasher.body == []
      ensures this.lib == lib && whole == this.inner == inner && asked == checksum
    {
      algorithm, this.inner, expected, finished := checksum.algorithm, inner, Some(checksum.expected), false;
      this.lib, whole, asked := lib, inner, checksum;
      var c := new Checksummer(lib, checksum.algorithm);
      checksummer, hasher := c, c;
      new;
      assert [] + BodyOf(inner) == BodyOf(inner);
    }

    method PollNext() returns (p: Poll)
      requires Valid()
      modifies this, hasher
      ensures Valid()
      ensures old(finished) ==> p == End && finished && inner == old(inner)
      ensures !old(finished) ==>
                var (raw, rest) := Polled(old(inner));
                && inner == rest && finished == (p.Failed? || p.End?)
                && (raw.End? ==> p == match Verdict(lib, whole, Some(asked)) case Some(e) => Failed(e) case None => End)
                && (!raw.End? ==> p == raw)
                && hasher.body == old(hasher.body) + if p.Item? then p.chunk else []
    {
      hide Value, BodyOf, Breaks, Midway, Checksummer.Valid;
      if finished {
        return End;
      }
      PollAdvances(whole, hasher.body, inner);
      var (raw, rest) := Polled(inner);
      inner := rest;
      match raw {
        case Pending =>
          p := Pending;
        case Item(chunk) =>
          if checksummer != null {
            checksummer.Update(chunk);
          }
          p := Item(chunk);
        case Failed(e) =>
          finished := true;
          p := Failed(e);
        case End =>
          finished := true;
          var computed := None;
          if checksummer != null {
            var value := checksummer.FinalizeBase64();
            computed := Some(value);
          }
          var resolved := if expected.Some? then expected.value.Resolve() else None;
          checksummer, expected := null, None;
          var error := Evaluate(algorithm, computed, resolved);
          p := if error.Some? then Failed(error.value) else End;
      }
    }
  }

  // ----- staging a body -----

  /** What staging leaves to be published. */
  datatype Staged = Staged(bytes: Bytes, etag: Etag, size: nat, checksum: Option<StoredChecksum>)

  datatype Outcome = Refused(error: Error) | Accepted(staged: Staged)

  /** The first thing to go wrong while a body is staged: the transport breaks, or the `i`th write of a chunk fails. */
  function Trouble(sent: seq<Event>, writes: nat -> bool, i: nat): Option<Error> {
    if sent == [] then None
    else match sent[0]
      case NotReady => Trouble(sent[1..], writes, i)
      case Arrived(_) => if writes(i) then Trouble(sent[1..], writes, i + 1) else Some(WriteFailed)
      case Broken => Some(Inner)
  }

  lemma TroubleAdvances(inner: seq<Event>, writes: nat -> bool, i: nat)
    ensures var (p, rest) := Polled(inner);
            Trouble(inner, writes, i) ==
              match p
              case Pending => Trouble(rest, writes, i)
              case Item(_) => if writes(i) then Trouble(rest, writes, i + 1) else Some(WriteFailed)
              case Failed(e) => Some(e)
              case End => None
  {
  }

  /**
   Why staging must be refused, if it must: the staged file cannot be made, something goes wrong on
   the way, or the verdict at the end.
   */
  function Refusal(
    lib: Library, sent: seq<Event>, asked: Option<PutChecksum>, creates: bool, writes: nat -> bool): Option<Error>
  {
    if !creates then Some(WriteFailed)
    else if Trouble(sent, writes, 0).Some? then Trouble(sent, writes, 0)
    else Verdict(lib, sent, asked)
  }

  lemma {:induction false} TroubleKinds(sent: seq<Event>, writes: nat -> bool, i: nat)
    ensures var e := Trouble(sent, writes, i); e.Some? ==> e.value.Inner? || e.value.WriteFailed?
  {
    if sent != [] {
      TroubleKinds(sent[1..], writes, i);
      TroubleKinds(sent[1..], writes, i + 1);
    }
  }

  /** What a refusal over the checksum says of what the client sent, and what there being none says. */
  lemma RefusalNames(lib: Library, sent: seq<Event>, asked: Option<PutChecksum>, creates: bool, writes: nat -> bool)
    ensures var e := Refusal(lib, sent, asked, creates, writes);
            && (e.Some? && e.value.MissingTrailer? ==> asked == Some(PutChecksum(e.value.algorithm, Trailer(None))))
            && (e.Some? && e.value.Mismatch? ==>
                && asked.Some? && asked.value.algorithm == e.value.algorithm
                && exists v :: Named(asked.value.expected, v) && !IsDigest(lib, e.value.algorithm, BodyOf(sent), v))
            && (e.None? && asked.Some? ==> Named(asked.value.expected, Value(lib, asked.value.algorithm, BodyOf(sent))))
  {
    hide Value, IsDigest, BodyOf, Trouble;
    TroubleKinds(sent, writes, 0);
    if asked.Some? && asked.value.expected.Resolve().Some? {
      var v := asked.value.expected.Resolve().value;
      ValueIsDigest(lib, asked.value.algorithm, BodyOf(sent), v);
      assert Named(asked.value.expected, v);
    }
  }

  /**
   The engine's staging loop over a body, verified if the client asked for that, onto a file
   whose creation and writes may fail. The body is refused exactly when `Refusal` says so, as a
   mismatch only if the client named another digest and for a missing trailer only if none was sent;
   otherwise what is staged is exactly what was sent, and the checksum recorded beside it is
   both its own digest and the one the client named.
   */
  method StageBody(lib: Library, sent: seq<Event>, asked: Option<PutChecksum>, creates: bool, writes: nat -> bool)
    returns (r: Outcome)
    ensures Refusal(lib, sent, asked, creates, writes) == if r.Refused? then Some(r.error) else None
    ensures r.Accepted? ==>
              && r.staged.bytes == BodyOf(sent) && r.staged.size == |BodyOf(sent)| && r.staged.etag == Md5(BodyOf(sent))
              && r.staged.checksum.Some? == asked.Some?
    ensures r.Accepted? && asked.Some? ==>
              && r.staged.checksum.value == StoredChecksum(asked.value.algorithm, Value(lib, asked.value.algorithm, BodyOf(sent)))
              && Named(asked.value.expected, r.staged.checksum.value.value)
              && IsDigest(lib, asked.value.algorithm, BodyOf(sent), r.staged.checksum.value.value)
    ensures r.Refused? && r.error.MissingTrailer? ==> asked == Some(PutChecksum(r.error.algorithm, Trailer(None)))
    ensures r.Refused? && r.error.Mismatch? ==>
              && asked.Some? && asked.value.algorithm == r.error.algorithm
              && exists v :: Named(asked.value.expected, v) && !IsDigest(lib, r.error.algorithm, BodyOf(sent), v)
  {
    RefusalNames(lib, sent, asked, creates, writes);
    hide Value, BodyOf, Breaks, Checksummer.Valid, IsDigest, Named;
    if !creates {
      return Refused(WriteFailed);
    }
    var stream: VerifyingStream? := null;
    var checksummer: Checksummer? := null;
    if asked.Some? {
      stream := new VerifyingStream(lib, sent, asked.value);
      checksummer := new Checksummer(lib, asked.value.algorithm);
    }
    var rest, staged, size, written := sent, [], 0, 0;
    assert Midway(sent, staged, rest) by {
      assert [] + BodyOf(sent) == BodyOf(sent);
    }
    hide Midway, Polled, Trouble;
    while true
      invariant Midway(sent, staged, rest) && size == |staged|
      invariant written >= 0 && Trouble(sent, writes, 0) == Trouble(rest, writes, written)
      invariant (stream != null) == (checksummer != null) == asked.Some?
      invariant stream != null ==> fresh(stream) && fresh(stream.hasher) && fresh(checksummer) && stream.hasher != checksummer
      invariant stream != null ==> stream.Valid() && !stream.finished && stream.inner == rest
      invariant stream != null ==> stream.lib == lib && stream.whole == sent && stream.asked == asked.value
      invariant checksummer != null ==> checksummer.Valid() && checksummer.body == staged
      invariant checksummer != null ==> checksummer.lib == lib && checksummer.algorithm == asked.value.algorithm
      decreases |rest|
    {
      PollAdvances(sent, staged, rest);
      TroubleAdvances(rest, writes, written);
      var p;
      if stream != null {
        p := stream.PollNext();
        rest := stream.inner;
      } else {
        var (q, left) := Polled(rest);
        p, rest := q, left;
      }
      match p {
        case Pending =>
        case Failed(e) =>
          return Refused(e);
        case End =>
          break;
        case Item(chunk) =>
          if checksummer != null {
            checksummer.Update(chunk);
          }
          size := size + |chunk|;
          if !writes(written) {
            return Refused(WriteFailed);
          }
          staged := staged + chunk;
          written := written + 1;
      }
    }
    var checksum := None;
    if checksummer != null {
      var value := checksummer.FinalizeBase64();
      checksum := Some(StoredChecksum(checksummer.algorithm, value));
    }
    r := Accepted(Staged(staged, Md5(staged), size, checksum));
  }
}
