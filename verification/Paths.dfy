/** The reversible encoding of S3 keys as relative paths, and of version ids as data file names. */
module Paths {
  import opened Types
  import opened Utf8

  type StrPath = seq<Str>

  const META_FILE: Str := "__aks3.meta.json"
  const RESERVED_PREFIX: Str := "__aks3"

  datatype PathError = BadEscape | NonUtf8
  datatype Result<T> = Ok(value: T) | Err(error: PathError)

  // ----- escapes -----

  predicate NeedsEscape(b: Byte) {
    b == '%' || b < 0x20 as char || b == 0x7F as char || b == '\\'
  }

  function HexDigit(n: nat): Byte
    requires n < 16
  {
    "0123456789ABCDEF"[n]
  }

  function HexVal(b: Byte): (v: Option<nat>)
    ensures v.Some? ==> v.value < 16
  {
    if '0' <= b <= '9' then Some(b as int - '0' as int)
    else if 'a' <= b <= 'f' then Some(b as int - 'a' as int + 10)
    else if 'A' <= b <= 'F' then Some(b as int - 'A' as int + 10)
    else None
  }

  function Escape(b: Byte): (e: Str)
    ensures |e| == 3 && forall i :: 0 <= i < 3 ==> e[i] < 0x80 as char && e[i] != '/' && !(e[i] < 0x20 as char)
  {
    ['%', HexDigit(b as int / 16), HexDigit(b as int % 16)]
  }

  lemma HexRoundTrip(n: nat)
    requires n < 16
    ensures HexVal(HexDigit(n)) == Some(n)
  {
  }

  /** `s` with the bytes that `needs` picks escaped. */
  function Escaped(s: Str, needs: Byte -> bool): Str {
    if s == [] then []
    else (if needs(s[0]) then Escape(s[0]) else [s[0]]) + Escaped(s[1..], needs)
  }

  function Unescaped(s: Str): Option<Str>
    decreases |s|
  {
    if s == [] then Some([])
    else if s[0] == '%' then
      if |s| < 3 || HexVal(s[1]).None? || HexVal(s[2]).None? then None
      else match Unescaped(s[3..])
        case None => None
        case Some(rest) => Some([(HexVal(s[1]).value * 16 + HexVal(s[2]).value) as char] + rest)
    else match Unescaped(s[1..])
      case None => None
      case Some(rest) => Some([s[0]] + rest)
  }

  lemma EscapeUnescaped(b: Byte, rest: Str)
    ensures Unescaped(Escape(b) + rest) == match Unescaped(rest) case None => None case Some(r) => Some([b] + r)
  {
    HexRoundTrip(b as int / 16);
    HexRoundTrip(b as int % 16);
    var s := Escape(b) + rest;
    assert s[3..] == rest;
    assert (b as int / 16) * 16 + b as int % 16 == b as int;
  }

  lemma {:induction false} UnescapedEscaped(s: Str, needs: Byte -> bool)
    requires needs('%')
    ensures Unescaped(Escaped(s, needs)) == Some(s)
  {
    if s != [] {
      var rest := Escaped(s[1..], needs);
      UnescapedEscaped(s[1..], needs);
      assert s == [s[0]] + s[1..];
      if needs(s[0]) {
        EscapeUnescaped(s[0], rest);
      } else {
        assert s[0] != '%';
        assert ([s[0]] + rest)[1..] == rest;
      }
    }
  }

  lemma {:induction false} EscapedBytes(s: Str, needs: Byte -> bool, i: nat)
    requires i < |Escaped(s, needs)|
    ensures var b := Escaped(s, needs)[i];
            (b < 0x80 as char && b != '/' && !(b < 0x20 as char)) || (b in s && !needs(b))
  {
    var head := if needs(s[0]) then Escape(s[0]) else [s[0]];
    if i >= |head| {
      EscapedBytes(s[1..], needs, i - |head|);
    }
  }

  /** Escaping ASCII bytes keeps a string well-formed. */
  lemma {:induction false} EscapedIsUtf8(s: Str, needs: Byte -> bool)
    requires IsUtf8(s) && forall b: Byte :: b >= 0x80 as char ==> !needs(b)
    ensures IsUtf8(Escaped(s, needs))
    decreases |s|
  {
    if s != [] {
      var n := Lead(s);
      EscapedIsUtf8(s[n..], needs);
      var rest := Escaped(s[n..], needs);
      if n == 1 && needs(s[0]) {
        AsciiPrefixIsUtf8(Escape(s[0]), rest);
      } else {
        EscapedPlain(s, needs, n);
        LeadPrefix(s[..n], s, n);
        LeadAppend(s[..n], rest);
        assert (s[..n] + rest)[n..] == rest;
      }
    }
  }

  lemma {:induction false} AsciiPrefixIsUtf8(a: Str, s: Str)
    requires IsUtf8(s) && forall i :: 0 <= i < |a| ==> a[i] < 0x80 as char
    ensures IsUtf8(a + s)
  {
    if a == [] {
      assert a + s == s;
    } else {
      AsciiPrefixIsUtf8(a[1..], s);
      assert (a + s)[1..] == a[1..] + s;
    }
  }

  /** Bytes that need no escape are copied. */
  lemma {:induction false} EscapedPlain(s: Str, needs: Byte -> bool, n: nat)
    requires n <= |s| && forall i :: 0 <= i < n ==> !needs(s[i])
    ensures Escaped(s, needs) == s[..n] + Escaped(s[n..], needs)
  {
    if n > 0 {
      EscapedPlain(s[1..], needs, n - 1);
      assert s[1..][n - 1..] == s[n..];
      assert s[..n] == [s[0]] + s[1..][..n - 1];
    }
  }

  // ----- components -----

  function EncodedComponent(c: Str): Str {
    if c == "" then "%2F"
    else if c == "." then "%2E"
    else if c == ".." then "%2E%2E"
    else if RESERVED_PREFIX <= c then "%5F" + Escaped(c[1..], NeedsEscape)
    else Escaped(c, NeedsEscape)
  }

  function DecodedComponent(name: Str): Result<Str> {
    match Unescaped(name)
    case None => Err(BadEscape)
    case Some(s) =>
      if !IsUtf8(s) then Err(NonUtf8)
      else if s == "/" then Ok("")
      else if '/' in s then Err(BadEscape)
      else Ok(s)
  }

  /** A slash-free slice of a key. */
  predicate Component(c: Str) {
    '/' !in c && IsUtf8(c)
  }

  lemma UnescapedSpecials()
    ensures Unescaped("%2F") == Some("/") && Unescaped("%2E") == Some(".") && Unescaped("%2E%2E") == Some("..")
  {
    var slash: Str, dot: Str, dots: Str := "%2F", "%2E", "%2E%2E";
    assert slash[3..] == [] && dot[3..] == [] && dots[3..] == dot;
    assert HexVal('2') == Some(2) && HexVal('E') == Some(14) && HexVal('F') == Some(15);
    assert [(2 * 16 + 15) as char] + [] == "/" && [(2 * 16 + 14) as char] + [] == ".";
    assert Unescaped(dot) == Some(".");
    assert [(2 * 16 + 14) as char] + "." == "..";
  }

  /** Decoding undoes encoding. */
  lemma ComponentRoundTrip(c: Str)
    requires Component(c)
    ensures DecodedComponent(EncodedComponent(c)) == Ok(c)
  {
    UnescapedSpecials();
    if c == "" || c == "." || c == ".." {
      assert IsUtf8("/"[1..]) && IsUtf8("/");
    } else if RESERVED_PREFIX <= c {
      UnescapedEscaped(c[1..], NeedsEscape);
      EscapeUnescaped('_', Escaped(c[1..], NeedsEscape));
      assert Escape('_') == "%5F";
      assert c[0] == RESERVED_PREFIX[0] && c == [c[0]] + c[1..];
    } else {
      UnescapedEscaped(c, NeedsEscape);
    }
  }

  /** A name that a filesystem takes as one ordinary component, and that is not one of the engine's own. */
  predicate PlainName(n: Str) {
    && n != "" && n != "." && n != ".."
    && '/' !in n && 0 as char !in n
    && IsUtf8(n)
    && !(RESERVED_PREFIX <= n)
  }

  /** Bytes that are not escapes decode to themselves. */
  lemma {:induction false} UnescapedPrefix(plain: Str, s: Str)
    requires '%' !in plain && plain <= s && Unescaped(s).Some?
    ensures plain <= Unescaped(s).value
  {
    if plain != [] {
      assert s[0] == plain[0] && plain[0] in plain;
      assert plain[1..] <= s[1..];
      assert forall b :: b in plain[1..] ==> b in plain;
      UnescapedPrefix(plain[1..], s[1..]);
      assert Unescaped(s).value[1..] == Unescaped(s[1..]).value;
      assert plain == [plain[0]] + plain[1..];
    }
  }

  lemma EscapedIsPlain(c: Str)
    requires Component(c) && c != "" && c != "." && c != ".." && !(RESERVED_PREFIX <= c)
    ensures PlainName(Escaped(c, NeedsEscape))
  {
    var e := Escaped(c, NeedsEscape);
    UnescapedEscaped(c, NeedsEscape);
    EscapedIsUtf8(c, NeedsEscape);
    forall i | 0 <= i < |e| ensures e[i] != '/' && e[i] != 0 as char {
      EscapedBytes(c, NeedsEscape, i);
    }
    if e == "." || e == ".." {
      UnescapedPrefix(e, e);
      UnescapedLength(e);
      assert false;
    }
    if RESERVED_PREFIX <= e {
      UnescapedPrefix(RESERVED_PREFIX, e);
      assert false;
    }
  }

  lemma {:induction false} UnescapedLength(s: Str)
    requires Unescaped(s).Some?
    ensures |Unescaped(s).value| <= |s|
    decreases |s|
  {
    if s != [] {
      UnescapedLength(if s[0] == '%' then s[3..] else s[1..]);
    }
  }

  lemma SpecialsArePlain()
    ensures PlainName("%2F") && PlainName("%2E") && PlainName("%2E%2E")
  {
    hide IsUtf8;
    AsciiPrefixIsUtf8("%2F", []);
    AsciiPrefixIsUtf8("%2E", []);
    AsciiPrefixIsUtf8("%2E%2E", []);
    assert "%2F" + [] == "%2F" && "%2E" + [] == "%2E" && "%2E%2E" + [] == "%2E%2E";
  }

  lemma ReservedIsPlain(c: Str)
    requires Component(c) && RESERVED_PREFIX <= c
    ensures PlainName("%5F" + Escaped(c[1..], NeedsEscape))
  {
    var rest := Escaped(c[1..], NeedsEscape);
    var e := "%5F" + rest;
    assert c[0] == RESERVED_PREFIX[0];
    assert IsUtf8(c[1..]);
    EscapedIsUtf8(c[1..], NeedsEscape);
    AsciiPrefixIsUtf8("%5F", rest);
    forall i | 0 <= i < |e| ensures e[i] != '/' && e[i] != 0 as char {
      if i >= 3 {
        EscapedBytes(c[1..], NeedsEscape, i - 3);
        assert forall b :: b in c[1..] ==> b in c;
      }
    }
    assert e[0] == '%';
  }

  /** No encoded component is empty, `.`, `..`, holds a slash or starts with the reserved prefix. */
  lemma EncodedIsPlain(c: Str)
    requires Component(c)
    ensures PlainName(EncodedComponent(c))
  {
    SpecialsArePlain();
    if c == "" || c == "." || c == ".." {
    } else if RESERVED_PREFIX <= c {
      ReservedIsPlain(c);
    } else {
      EscapedIsPlain(c);
    }
  }

  /** A byte that may stand for itself: no control byte, backslash or percent sign. */
  predicate Tame(b: Byte) {
    0x20 <= b as int && b as int != 0x7F && b != '\\' && b != '%'
  }

  lemma {:induction false} EscapedIsTame(s: Str, i: nat)
    requires i < |Escaped(s, NeedsEscape)|
    ensures var b := Escaped(s, NeedsEscape)[i]; b == '%' || Tame(b)
  {
    var head := if NeedsEscape(s[0]) then Escape(s[0]) else [s[0]];
    if i >= |head| {
      EscapedIsTame(s[1..], i - |head|);
    }
  }

  /** Every other byte is escaped, and a component with none of them, and nothing special about it, is its own name. */
  lemma EncodedIsTame(c: Str)
    ensures forall b :: b in EncodedComponent(c) ==> b == '%' || Tame(b)
    ensures (forall b :: b in c ==> Tame(b)) && c != "" && c != "." && c != ".." && !(RESERVED_PREFIX <= c) ==>
              EncodedComponent(c) == c
  {
    var rest := if RESERVED_PREFIX <= c then c[1..] else c;
    var e := Escaped(rest, NeedsEscape);
    forall i | 0 <= i < |e| ensures e[i] == '%' || Tame(e[i]) {
      EscapedIsTame(rest, i);
    }
    if forall b :: b in c ==> Tame(b) {
      forall i | 0 <= i < |c| ensures !NeedsEscape(c[i]) {
        assert c[i] in c && Tame(c[i]);
      }
      EscapedPlain(c, NeedsEscape, |c|);
      assert c[..|c|] == c && c[|c|..] == [];
    }
  }

  // ----- keys -----

  /** The components of a key: its slices between slashes. */
  function Split(key: Str): seq<Str> {
    if key == [] then [[]]
    else
      var rest := Split(key[1..]);
      if key[0] == '/' then [[]] + rest
      else if rest == [] then [[key[0]]]
      else [[key[0]] + rest[0]] + rest[1..]
  }

  function Join(parts: seq<Str>): Str {
    if parts == [] then [] else if |parts| == 1 then parts[0] else parts[0] + ['/'] + Join(parts[1..])
  }

  lemma {:induction false} SplitShape(key: Str)
    ensures Split(key) != [] && Join(Split(key)) == key
    ensures forall i :: 0 <= i < |Split(key)| ==> '/' !in Split(key)[i]
  {
    if key != [] {
      SplitShape(key[1..]);
      var rest, parts := Split(key[1..]), Split(key);
      assert key == [key[0]] + key[1..];
      assert parts[1..] == (if key[0] == '/' then rest else rest[1..]);
      if key[0] != '/' && |rest| > 1 {
        assert [key[0]] + rest[0] + ['/'] + Join(rest[1..]) == [key[0]] + (rest[0] + ['/'] + Join(rest[1..]));
      }
    }
  }

  lemma {:induction false} SplitJoin(parts: seq<Str>)
    requires parts != [] && forall i :: 0 <= i < |parts| ==> '/' !in parts[i]
    ensures Split(Join(parts)) == parts
    decreases |parts|, if parts == [] then 0 else |parts[0]|
  {
    var key := Join(parts);
    if parts[0] != [] {
      var shorter := [parts[0][1..]] + parts[1..];
      assert forall b :: b in parts[0][1..] ==> b in parts[0];
      SplitJoin(shorter);
      assert parts[0] == [parts[0][0]] + parts[0][1..];
      assert shorter[1..] == parts[1..];
      assert key == [parts[0][0]] + Join(shorter);
      assert key[1..] == Join(shorter) && parts[0][0] in parts[0];
      assert [[parts[0][0]] + shorter[0]] + shorter[1..] == parts;
    } else if |parts| > 1 {
      SplitJoin(parts[1..]);
      assert key == ['/'] + Join(parts[1..]);
      assert key[1..] == Join(parts[1..]);
      assert [[]] + parts[1..] == parts;
    }
  }

  lemma {:induction false} SplitUtf8(key: Str)
    requires IsUtf8(key)
    ensures forall i :: 0 <= i < |Split(key)| ==> Component(Split(key)[i])
    decreases |key|
  {
    SplitShape(key);
    var parts := Split(key);
    if |parts| > 1 {
      SplitAtAscii(parts[0], '/', Join(parts[1..]));
      SplitJoin(parts[1..]);
      SplitUtf8(Join(parts[1..]));
      assert forall i :: 1 <= i < |parts| ==> parts[i] == parts[1..][i - 1];
    }
  }

  function EncodedAll(parts: seq<Str>): (p: StrPath)
    ensures |p| == |parts| && forall i :: 0 <= i < |p| ==> p[i] == EncodedComponent(parts[i])
  {
    if parts == [] then [] else EncodedAll(parts[..|parts| - 1]) + [EncodedComponent(parts[|parts| - 1])]
  }

  /** The relative path of a key's directory. */
  function KeyPath(key: Str): StrPath {
    EncodedAll(Split(key))
  }

  function DecodedAll(p: StrPath): Result<seq<Str>> {
    if p == [] then Ok([])
    else match DecodedAll(p[..|p| - 1])
      case Err(e) => Err(e)
      case Ok(parts) =>
        var name := p[|p| - 1];
        if name == "." || name == ".." || name == "" || '/' in name then Err(BadEscape)
        else if !IsUtf8(name) then Err(NonUtf8)
        else match DecodedComponent(name)
          case Err(e) => Err(e)
          case Ok(c) => Ok(parts + [c])
  }

  /** The key a relative path stands for. */
  function PathKey(p: StrPath): Result<Str> {
    match DecodedAll(p)
    case Err(e) => Err(e)
    case Ok(parts) => Ok(Join(parts))
  }

  lemma {:induction false} DecodedEncoded(parts: seq<Str>)
    requires forall i :: 0 <= i < |parts| ==> Component(parts[i])
    ensures DecodedAll(EncodedAll(parts)) == Ok(parts)
  {
    if parts != [] {
      var init, last := parts[..|parts| - 1], parts[|parts| - 1];
      DecodedEncoded(init);
      ComponentRoundTrip(last);
      EncodedIsPlain(last);
      var p := EncodedAll(parts);
      assert p[..|p| - 1] == EncodedAll(init);
      assert init + [last] == parts;
    }
  }

  /** Every key can be recovered from its path, whose components are all plain names. */
  lemma KeyRoundTrip(key: Str)
    requires IsUtf8(key)
    ensures PathKey(KeyPath(key)) == Ok(key)
    ensures KeyPath(key) != [] && forall i :: 0 <= i < |KeyPath(key)| ==> PlainName(KeyPath(key)[i])
  {
    SplitShape(key);
    SplitUtf8(key);
    DecodedEncoded(Split(key));
    forall i | 0 <= i < |KeyPath(key)| ensures PlainName(KeyPath(key)[i]) {
      EncodedIsPlain(Split(key)[i]);
    }
  }

  /** Distinct keys have distinct paths. */
  lemma KeyPathInjective(k: Str, l: Str)
    requires IsUtf8(k) && IsUtf8(l) && KeyPath(k) == KeyPath(l)
    ensures k == l
  {
    KeyRoundTrip(k);
    KeyRoundTrip(l);
  }

  // ----- data files -----

  const DATA_PREFIX: Str := "__aks3.v."
  const DATA_SUFFIX: Str := ".data"

  predicate Alphanumeric(b: Byte) {
    'A' <= b <= 'Z' || 'a' <= b <= 'z' || '0' <= b <= '9'
  }

  predicate UnsafeInVersion(b: Byte) {
    !Alphanumeric(b) && b != '.' && b != '_' && b != '-'
  }

  predicate ValidVersionId(v: Str) {
    && (forall i :: 0 <= i < |v| - 1 ==> !(v[i] == '.' && v[i + 1] == '.'))
    && (exists i :: 0 <= i < |v| && Alphanumeric(v[i]))
    && (forall i :: 0 <= i < |v| ==> !UnsafeInVersion(v[i]))
  }

  function DataName(version: Str): Str {
    DATA_PREFIX + Escaped(version, UnsafeInVersion) + DATA_SUFFIX
  }

  /** Whatever the version id, a data file's name is one component of the engine's own, and not the manifest's. */
  lemma DataNameIsReserved(version: Str)
    ensures RESERVED_PREFIX <= DataName(version) && '/' !in DataName(version) && '\\' !in DataName(version)
    ensures DataName(version) != META_FILE
  {
    var e, n := Escaped(version, UnsafeInVersion), DataName(version);
    forall i | 0 <= i < |e| ensures e[i] != '/' && e[i] != '\\' {
      EscapedSafe(version, i);
    }
    assert n[7] == DATA_PREFIX[7] != META_FILE[7];
    assert forall i :: 0 <= i < |DATA_PREFIX| ==> n[i] == DATA_PREFIX[i];
  }

  lemma {:induction false} EscapedSafe(v: Str, i: nat)
    requires i < |Escaped(v, UnsafeInVersion)|
    ensures var b := Escaped(v, UnsafeInVersion)[i]; b == '%' || !UnsafeInVersion(b)
  {
    var head := if UnsafeInVersion(v[0]) then Escape(v[0]) else [v[0]];
    if i >= |head| {
      EscapedSafe(v[1..], i - |head|);
    }
  }

  /** Two versions never share a data file, and a valid version id is used as it is. */
  lemma DataNameInjective(v: Str, w: Str)
    ensures DataName(v) == DataName(w) ==> v == w
    ensures ValidVersionId(v) ==> DataName(v) == "__aks3.v." + v + ".data"
  {
    UnescapedEscaped(v, UnsafeInVersion);
    UnescapedEscaped(w, UnsafeInVersion);
    var p, s := |DATA_PREFIX|, |DATA_SUFFIX|;
    var n, m := DataName(v), DataName(w);
    assert n[p..|n| - s] == Escaped(v, UnsafeInVersion) && m[p..|m| - s] == Escaped(w, UnsafeInVersion);
    if ValidVersionId(v) {
      EscapedPlain(v, UnsafeInVersion, |v|);
      assert v[..|v|] == v && Escaped(v[|v|..], UnsafeInVersion) == [];
    }
  }

  lemma ReservedIsNotPlain(k: Str, f: Str, l: Str)
    requires IsUtf8(l) && RESERVED_PREFIX <= f
    ensures !(KeyPath(k) + [f] <= KeyPath(l))
  {
    hide KeyPath, IsUtf8, PlainName;
    var p := KeyPath(k) + [f];
    KeyRoundTrip(l);
    if p <= KeyPath(l) {
      assert KeyPath(l)[|p| - 1] == f;
      PlainIsNotReserved(f);
      assert false;
    }
  }

  lemma PlainIsNotReserved(f: Str)
    ensures PlainName(f) ==> !(RESERVED_PREFIX <= f)
  {
    hide IsUtf8;
  }

  /** A file of one key is never a file of another key, nor a directory on the way to any key. */
  lemma FilesAreApart(k: Str, f: Str, l: Str, g: Str)
    requires IsUtf8(k) && IsUtf8(l) && RESERVED_PREFIX <= f
    ensures KeyPath(k) + [f] == KeyPath(l) + [g] ==> k == l && f == g
    ensures !(KeyPath(k) + [f] <= KeyPath(l))
  {
    hide KeyPath, IsUtf8;
    var p, q := KeyPath(k) + [f], KeyPath(l) + [g];
    if p == q {
      assert p[..|p| - 1] == KeyPath(k) && q[..|q| - 1] == KeyPath(l);
      assert p[|p| - 1] == f && q[|q| - 1] == g;
      KeyPathInjective(k, l);
    }
    ReservedIsNotPlain(k, f, l);
  }

  // ----- the loops that compute all this -----

  method EscapeInto(prefix: Str, s: Str, needs: Byte -> bool) returns (out: Str)
    ensures out == prefix + Escaped(s, needs)
  {
    out := prefix;
    for i := 0 to |s|
      invariant prefix + Escaped(s, needs) == out + Escaped(s[i..], needs)
    {
      assert s[i..][1..] == s[i + 1..];
      if needs(s[i]) {
        out := out + Escape(s[i]);
      } else {
        out := out + [s[i]];
      }
    }
  }

  method EncodeComponent(c: Str) returns (name: Str)
    ensures name == EncodedComponent(c)
  {
    if c == "" { return "%2F"; }
    if c == "." { return "%2E"; }
    if c == ".." { return "%2E%2E"; }
    if RESERVED_PREFIX <= c {
      name := EscapeInto("%5F", c[1..], NeedsEscape);
    } else {
      name := EscapeInto("", c, NeedsEscape);
    }
  }

  method DecodeComponent(name: Str) returns (r: Result<Str>)
    ensures r == DecodedComponent(name)
  {
    var out: Str := [];
    var i := 0;
    assert name[0..] == name;
    assert Unescaped(name).Some? ==> [] + Unescaped(name).value == Unescaped(name).value;
    while i < |name|
      invariant 0 <= i <= |name|
      invariant Unescaped(name) == match Unescaped(name[i..]) case None => None case Some(rest) => Some(out + rest)
      decreases |name| - i
    {
      if name[i] == '%' {
        if i + 2 >= |name| { return Err(BadEscape); }
        var hi, lo := HexVal(name[i + 1]), HexVal(name[i + 2]);
        if hi.None? || lo.None? { return Err(BadEscape); }
        assert name[i..][3..] == name[i + 3..];
        ghost var rest := Unescaped(name[i + 3..]);
        assert rest.Some? ==>
            out + ([(hi.value * 16 + lo.value) as char] + rest.value) == out + [(hi.value * 16 + lo.value) as char] + rest.value;
        out := out + [(hi.value * 16 + lo.value) as char];
        i := i + 3;
      } else {
        assert name[i..][1..] == name[i + 1..];
        ghost var rest := Unescaped(name[i + 1..]);
        assert rest.Some? ==> out + ([name[i]] + rest.value) == out + [name[i]] + rest.value;
        out := out + [name[i]];
        i := i + 1;
      }
    }
    assert out + [] == out;
    if !IsUtf8(out) { return Err(NonUtf8); }
    if out == "/" { return Ok(""); }
    if '/' in out { return Err(BadEscape); }
    return Ok(out);
  }

  method KeyToRelPath(key: Str) returns (path: StrPath)
    ensures path == KeyPath(key)
  {
    path := [];
    var parts := Split(key);
    for i := 0 to |parts|
      invariant path == EncodedAll(parts[..i])
    {
      assert parts[..i + 1][..i] == parts[..i];
      var name := EncodeComponent(parts[i]);
      path := path + [name];
    }
    assert parts[..|parts|] == parts;
  }

  method DataFileName(version: Str) returns (name: Str)
    ensures name == DataName(version)
  {
    name := EscapeInto(DATA_PREFIX, version, UnsafeInVersion);
    name := name + DATA_SUFFIX;
  }

  lemma {:induction false} DecodedAllPrefix(p: StrPath, i: nat)
    requires i <= |p| && DecodedAll(p[..i]).Err?
    ensures DecodedAll(p) == DecodedAll(p[..i])
    decreases |p| - i
  {
    if i < |p| {
      assert p[..i + 1][..i] == p[..i];
      DecodedAllPrefix(p, i + 1);
    } else {
      assert p[..i] == p;
    }
  }

  method RelPathToKey(p: StrPath) returns (r: Result<Str>)
    ensures r == PathKey(p)
  {
    hide IsUtf8, DecodedComponent, Join;
    var parts := [];
    for i := 0 to |p|
      invariant DecodedAll(p[..i]) == Ok(parts)
    {
      assert p[..i + 1][..i] == p[..i];
      var name := p[i];
      if name == "." || name == ".." || name == "" || '/' in name {
        DecodedAllPrefix(p, i + 1);
        return Err(BadEscape);
      }
      if !IsUtf8(name) {
        DecodedAllPrefix(p, i + 1);
        return Err(NonUtf8);
      }
      var c := DecodeComponent(name);
      if c.Err? {
        DecodedAllPrefix(p, i + 1);
        return c;
      }
      parts := parts + [c.value];
    }
    assert p[..|p|] == p;
    return Ok(Join(parts));
  }
}
