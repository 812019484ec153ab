/**
 Strings as the engine sees them: the UTF-8 bytes of a Rust `String`, one `char` below 256
 per byte, so that comparison of strings is comparison of bytes.
 */
module Utf8 {
  type Byte = c: char | c < 256 as char
  type Str = seq<Byte>

  predicate Continuation(b: Byte) {
    0x80 as char <= b <= 0xBF as char
  }

  /** The length of the well-formed sequence `s` starts with (section 4 of RFC 3629), or 0. */
  function Lead(s: Str): (n: nat)
    ensures n <= 4 && n <= |s|
    ensures n > 1 ==> forall i :: 0 <= i < n ==> s[i] >= 0x80 as char
    ensures n == 1 ==> s[0] < 0x80 as char
  {
    if |s| >= 1 && s[0] < 0x80 as char then 1
    else if |s| >= 2 && 0xC2 as char <= s[0] <= 0xDF as char && Continuation(s[1]) then 2
    else if |s| >= 3 && Triple(s[0], s[1]) && Continuation(s[2]) then 3
    else if |s| >= 4 && Quadruple(s[0], s[1]) && Continuation(s[2]) && Continuation(s[3]) then 4
    else 0
  }

  predicate Triple(a: Byte, b: Byte) {
    || (a == 0xE0 as char && 0xA0 as char <= b <= 0xBF as char)
    || (0xE1 as char <= a <= 0xEC as char && Continuation(b))
    || (a == 0xED as char && 0x80 as char <= b <= 0x9F as char)
    || (0xEE as char <= a <= 0xEF as char && Continuation(b))
  }

  predicate Quadruple(a: Byte, b: Byte) {
    || (a == 0xF0 as char && 0x90 as char <= b <= 0xBF as char)
    || (0xF1 as char <= a <= 0xF3 as char && Continuation(b))
    || (a == 0xF4 as char && 0x80 as char <= b <= 0x8F as char)
  }

  predicate IsUtf8(s: Str)
    decreases |s|
  {
    s == [] || (Lead(s) > 0 && IsUtf8(s[Lead(s)..]))
  }

  /** What a string starts with is not affected by what is appended to it. */
  lemma LeadAppend(s: Str, rest: Str)
    requires Lead(s) > 0
    ensures Lead(s + rest) == Lead(s)
  {
  }

  /** A well-formed string split at an ASCII byte splits into well-formed strings. */
  lemma {:induction false} SplitAtAscii(a: Str, c: Byte, b: Str)
    requires c < 0x80 as char && IsUtf8(a + [c] + b)
    ensures IsUtf8(a) && IsUtf8(b)
    decreases |a|
  {
    var s := a + [c] + b;
    var n := Lead(s);
    if a == [] {
      assert s[0] == c && s[1..] == b;
    } else {
      assert s[|a|] == c;
      assert n <= |a|;
      assert a[..n] + a[n..] == a;
      assert s[..n] == a[..n] && s[n..] == a[n..] + [c] + b;
      LeadPrefix(a, s, n);
      SplitAtAscii(a[n..], c, b);
    }
  }

  lemma LeadPrefix(a: Str, s: Str, n: nat)
    requires 0 < n <= |a| <= |s| && Lead(s) == n && s[..n] == a[..n]
    ensures Lead(a) == n
  {
    assert forall i :: 0 <= i < n ==> s[i] == s[..n][i] == a[..n][i] == a[i];
  }
}
