/** Reading a span of an object: range resolution and the chunked reader. */
module Ranges {
  import opened Types

  type U64 = x: int | 0 <= x < 0x1_0000_0000_0000_0000

  const READ_CHUNK := 65536

  /** The three forms of a `Range` header, bounds inclusive. */
  datatype ByteRange = FromTo(first: U64, last: U64) | From(first: U64) | Suffix(n: U64)

  /** The offset to read from and the number of bytes to send; `None` is an invalid range. */
  function ResolveRange(range: Option<ByteRange>, size: U64): Option<(U64, U64)> {
    if range.None? then Some((0, size))
    else if size == 0 then None
    else match range.value
      case FromTo(first, last) =>
        if first > last || first >= size then None
        else
          var last': U64 := if last < size - 1 then last else size - 1;
          Some((first, last' - first + 1))
      case From(first) => if first >= size then None else Some((first, size - first))
      case Suffix(n) =>
        if n == 0 then None
        else
          var n': U64 := if n < size then n else size;
          Some((size - n', n'))
  }

  /** Whether byte `i` of an object of `size` bytes is in the range (section 14.1.2 of RFC 9110). */
  predicate Selects(range: Option<ByteRange>, size: nat, i: int) {
    && 0 <= i < size
    && (range.Some? ==>
        match range.value
        case FromTo(first, last) => first <= i <= last
        case From(first) => first <= i
        case Suffix(n) => size - n <= i)
  }

  /** The span holds exactly the selected bytes, and a range is invalid exactly when it selects none. */
  lemma SpanIsSelection(range: Option<ByteRange>, size: U64)
    ensures var r := ResolveRange(range, size);
            && (r.Some? ==>
                  && r.value.0 + r.value.1 <= size
                  && forall i :: Selects(range, size, i) <==> r.value.0 <= i < r.value.0 + r.value.1)
            && (r.None? <==> range.Some? && forall i :: !Selects(range, size, i))
  {
    if range.Some? {
      var at := match range.value case FromTo(first, _) => first case From(first) => first case Suffix(_) => size - 1;
      assert ResolveRange(range, size).Some? ==> Selects(range, size, at);
    }
  }

  /** The bytes of `data` that the range selects, one by one, of its first `n`. */
  function Selection(data: Bytes, range: Option<ByteRange>, size: nat, n: nat): Bytes
    requires n <= |data|
  {
    if n == 0 then []
    else Selection(data, range, size, n - 1) + if Selects(range, size, n - 1) then [data[n - 1]] else []
  }

  lemma {:induction false} SelectionIsSlice(data: Bytes, range: Option<ByteRange>, size: nat, n: nat, lo: nat, hi: nat)
    requires n <= |data| && lo <= hi
    requires forall i :: Selects(range, size, i) <==> lo <= i < hi
    ensures Selection(data, range, size, n) == if n <= lo then [] else data[lo..if n < hi then n else hi]
  {
    if n > 0 {
      SelectionIsSlice(data, range, size, n - 1, lo, hi);
    }
  }

  datatype ReadError = IoError | UnexpectedEof
  datatype Item = Chunk(bytes: Bytes) | Failed(error: ReadError)

  /** What the file has of the span from `lo` to `hi`; a seek past its end finds nothing. */
  function Available(file: Bytes, lo: nat, hi: nat): Bytes
    requires lo <= hi
  {
    if |file| <= lo then [] else file[lo..if |file| < hi then |file| else hi]
  }

  lemma AvailableGrows(file: Bytes, lo: nat, mid: nat, hi: nat)
    requires lo <= mid <= hi <= |file|
    ensures Available(file, lo, hi) == Available(file, lo, mid) + file[mid..hi]
  {
  }

  lemma AvailableAll(file: Bytes, lo: nat, mid: nat, hi: nat)
    requires lo <= mid <= hi
    ensures Available(file, lo, mid) <= Available(file, lo, hi)
    ensures |file| <= mid ==> Available(file, lo, mid) == Available(file, lo, hi)
  {
  }

  /** How a read goes: it fails, or gives up to `n` bytes and at least one, of those there are. */
  datatype Read = Fails | Gives(n: nat)

  /** One of the reads from the `lo`th up to the `hi`th fails. */
  predicate SomeFails(outcomes: nat -> Read, lo: nat, hi: nat) {
    exists i: nat :: lo <= i < hi && outcomes(i).Fails?
  }

  /**
   A body stream over an open file: where it is, how much it still owes, and how many reads it has
   made. How its reads go is up to `outcomes`.
   */
  class FileStream {
    const file: Bytes
    const outcomes: nat -> Read
    var pos: nat
    var remaining: nat
    var made: nat

    constructor (file: Bytes, outcomes: nat -> Read, offset: nat, len: nat)
      ensures this.file == file && this.outcomes == outcomes && pos == offset && remaining == len && made == 0
    {
      this.file, this.outcomes, pos, remaining, made := file, outcomes, offset, len, 0;
    }

    /** One chunk: reads of any length are put together until it is full, the file ends or a read fails. */
    method Next() returns (item: Option<Item>)
      modifies this
      ensures old(made) <= made
      ensures item == Some(Failed(IoError)) <==> SomeFails(outcomes, old(made), made)
      ensures item.None? <==> old(remaining) == 0
      ensures item.None? ==> pos == old(pos) && remaining == old(remaining)
      ensures item.Some? && item.value.Chunk? ==>
                var b := item.value.bytes;
                && 0 < |b| <= 65536 && |b| <= old(remaining)
                && pos == old(pos) + |b| <= |file| && b == file[old(pos)..pos]
                && remaining == old(remaining) - |b|
                && (|b| == 65536 || |b| == old(remaining) || pos == |file|)
      ensures item.Some? && item.value.Failed? ==> remaining == 0 && pos == old(pos)
      ensures item == Some(Failed(UnexpectedEof)) ==> old(pos) >= |file|
      ensures item.Some? ==> made > old(made)
    {
      if remaining == 0 {
        return None;
      }
      var want := if remaining < READ_CHUNK then remaining else READ_CHUNK;
      var buf: Bytes := [];
      var at := pos;
      while |buf| < want
        invariant |buf| <= want && at == pos + |buf|
        invariant buf != [] ==> at <= |file| && buf == file[pos..at]
        invariant pos == old(pos) && remaining == old(remaining)
        invariant old(made) <= made && !SomeFails(outcomes, old(made), made) && (buf != [] ==> made > old(made))
        decreases want - |buf|
      {
        var read := outcomes(made);
        made := made + 1;
        if read.Fails? {
          remaining := 0;
          return Some(Failed(IoError));
        }
        if at >= |file| {
          break;
        }
        var n := Least(if read.n == 0 then 1 else read.n, Least(want - |buf|, |file| - at));
        buf := buf + file[at..at + n];
        at := at + n;
      }
      if buf == [] {
        remaining := 0;
        return Some(Failed(UnexpectedEof));
      }
      pos, remaining := at, remaining - |buf|;
      return Some(Chunk(buf));
    }
  }

  function Least(a: int, b: int): int { if a < b then a else b }

  lemma {:induction false} ConcatAppend<T>(parts: seq<seq<T>>, last: seq<T>)
    ensures Concat(parts + [last]) == Concat(parts) + last
  {
    assert (parts + [last])[..|parts|] == parts;
  }

  lemma FailsSoFar(outcomes: nat -> Read, lo: nat, hi: nat)
    requires lo <= hi
    ensures SomeFails(outcomes, 0, hi) <==> SomeFails(outcomes, 0, lo) || SomeFails(outcomes, lo, hi)
  {
  }

  /**
   Everything a reader of the stream gets: chunks, then at most one error, then the end.
   Without an error that is the whole span; a file that ends early gives all it has and says so.
   `made` counts the reads.
   */
  method Drain(file: Bytes, outcomes: nat -> Read, offset: nat, len: nat)
    returns (chunks: seq<Bytes>, error: Option<ReadError>, made: nat)
    ensures error == Some(IoError) <==> SomeFails(outcomes, 0, made)
    ensures forall i :: 0 <= i < |chunks| ==> 0 < |chunks[i]| <= 65536
    ensures Concat(chunks) <= Available(file, offset, offset + len)
    ensures error.None? ==> Concat(chunks) == Available(file, offset, offset + len) && (len == 0 || offset + len <= |file|)
    ensures error == Some(UnexpectedEof) ==> Concat(chunks) == Available(file, offset, offset + len) && |file| < offset + len
  {
    chunks, error, made := [], None, 0;
    var stream := new FileStream(file, outcomes, offset, len);
    assert Concat(chunks) == Available(file, offset, stream.pos);
    hide Available, Concat;
    while true
      invariant fresh(stream) && stream.file == file && stream.outcomes == outcomes && stream.remaining <= len
      invariant made == stream.made && (error == Some(IoError) <==> SomeFails(outcomes, 0, made))
      invariant forall i :: 0 <= i < |chunks| ==> 0 < |chunks[i]| <= READ_CHUNK
      invariant error.None? ==> stream.pos == offset + len - stream.remaining
      invariant error.None? ==> stream.remaining == len || stream.pos <= |file|
      invariant offset <= stream.pos <= offset + len && Concat(chunks) == Available(file, offset, stream.pos)
      invariant error.Some? ==> stream.remaining == 0
      invariant error == Some(UnexpectedEof) ==> |file| < offset + len && |file| <= stream.pos
      decreases stream.remaining
    {
      ghost var before := stream.pos;
      AvailableAll(file, offset, before, offset + len);
      ghost var reading := made;
      var item := stream.Next();
      made := stream.made;
      FailsSoFar(outcomes, reading, made);
      match item {
        case None => return;
        case Some(Failed(e)) =>
          assert error.None?;
          error := Some(e);
        case Some(Chunk(b)) =>
          ConcatAppend(chunks, b);
          AvailableGrows(file, offset, before, stream.pos);
          chunks := chunks + [b];
      }
    }
  }

  datatype GetResult = InvalidRange | Body(offset: U64, len: U64, chunks: seq<Bytes>, error: Option<ReadError>)

  /**
   A `GET` of an object whose manifest says `size`, from a data file of any length and with reads
   that go in any way: the offset and length are those of the selection, and what comes is exactly
   the selected bytes that the file has, and an error unless that is all of them.
   */
  method Get(file: Bytes, outcomes: nat -> Read, size: U64, range: Option<ByteRange>) returns (r: GetResult, made: nat)
    ensures r.Body? ==> forall i :: Selects(range, size, i) <==> r.offset <= i < r.offset + r.len
    ensures r.Body? && r.error.None? ==> |Concat(r.chunks)| == r.len
    ensures r.Body? ==> (r.error == Some(IoError) <==> SomeFails(outcomes, 0, made))
    ensures r.InvalidRange? <==> range.Some? && forall i :: !Selects(range, size, i)
    ensures r.Body? ==> Concat(r.chunks) <= Selection(file, range, size, |file|)
    ensures r.Body? ==> forall i :: 0 <= i < |r.chunks| ==> 0 < |r.chunks[i]| <= 65536
    ensures r.Body? && r.error.None? ==>
              Concat(r.chunks) == Selection(file, range, size, |file|) && forall i :: Selects(range, size, i) ==> i < |file|
    ensures r.Body? && r.error == Some(UnexpectedEof) ==>
              Concat(r.chunks) == Selection(file, range, size, |file|) && exists i :: Selects(range, size, i) && i >= |file|
  {
    SpanIsSelection(range, size);
    var span := ResolveRange(range, size);
    if span.None? {
      return InvalidRange, 0;
    }
    var (offset, len) := span.value;
    SelectionIsSlice(file, range, size, |file|, offset, offset + len);
    var chunks, error, count := Drain(file, outcomes, offset, len);
    if |file| < offset + len && len > 0 {
      assert Selects(range, size, offset + len - 1);
    }
    r, made := Body(offset, len, chunks, error), count;
  }
}
