/** Values shared by the whole model: bodies, manifest entries and optional results. */
module Types {
  datatype Option<+T> = None | Some(value: T)

  type Bytes = seq<bv8>

  type Path = seq<string>

  /** The directory that holds `p`. */
  function Parent<T>(p: seq<T>): seq<T>
    requires p != []
  {
    p[..|p| - 1]
  }

  /** The five checksum algorithms of `x-amz-checksum-*`. */
  datatype Algorithm = Crc32 | Crc32c | Sha1 | Sha256 | Crc64Nvme

  datatype StoredChecksum = StoredChecksum(algorithm: Algorithm, value: string)

  /** The MD5 digest of a body. A free constructor: two bodies with one digest are one body. */
  datatype Etag = Md5(of: Bytes)

  /** One version of one object. */
  datatype VersionEntry = VersionEntry(
    versionId: string,
    etag: Etag,
    size: nat,
    contentType: string,
    userMetadata: map<string, string>,
    mtime: nat,
    deleteMarker: bool,
    checksum: Option<StoredChecksum>)

  /** Version id of an object written without versioning. */
  const NULL_VERSION_ID := "null"

  /** `e` is an account of exactly the bytes `b`. */
  predicate Describes(e: VersionEntry, b: Bytes) {
    e.etag == Md5(b) && e.size == |b|
  }

  function Lookup<K, V>(m: map<K, V>, k: K): (r: Option<V>)
    ensures r.Some? <==> k in m
    ensures r.Some? ==> r.value == m[k]
  {
    if k in m then Some(m[k]) else None
  }

  function Concat<T>(parts: seq<seq<T>>): seq<T> {
    if parts == [] then [] else Concat(parts[..|parts| - 1]) + parts[|parts| - 1]
  }
}
