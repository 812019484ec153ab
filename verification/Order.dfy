/** The byte order of strings, and sorting by it. */
module Order {
  import opened Utf8

  predicate Less(a: Str, b: Str) {
    b != [] && (a == [] || a[0] < b[0] || (a[0] == b[0] && Less(a[1..], b[1..])))
  }

  predicate AtMost(a: Str, b: Str) {
    a == b || Less(a, b)
  }

  /** `a` and `b` first differ at `i`, where `a` ends or has the smaller byte. */
  predicate SmallerAt(a: Str, b: Str, i: nat) {
    i <= |a| && i < |b| && a[..i] == b[..i] && (i == |a| || a[i] as int < b[i] as int)
  }

  /** The order is that of the first byte that differs, the end of a string coming before any byte. */
  lemma {:induction false} LessIsByteOrder(a: Str, b: Str)
    ensures Less(a, b) <==> exists i: nat :: SmallerAt(a, b, i)
  {
    if a != [] && b != [] && a[0] == b[0] {
      LessIsByteOrder(a[1..], b[1..]);
      if i: nat :| SmallerAt(a[1..], b[1..], i) {
        assert a[..i + 1] == [a[0]] + a[1..][..i] && b[..i + 1] == [b[0]] + b[1..][..i];
        assert SmallerAt(a, b, i + 1);
      }
      if i: nat :| SmallerAt(a, b, i) {
        assert a[1..][..i - 1] == a[..i][1..] && b[1..][..i - 1] == b[..i][1..];
        assert SmallerAt(a[1..], b[1..], i - 1);
      }
    } else {
      if i: nat :| SmallerAt(a, b, i) {
        SameStart(a, b, i);
      }
      if Less(a, b) {
        assert SmallerAt(a, b, 0);
      }
    }
  }

  lemma SameStart(a: Str, b: Str, i: nat)
    requires i <= |a| && i <= |b| && a[..i] == b[..i]
    ensures i == 0 || a[0] == b[0]
  {
    assert i > 0 ==> a[..i][0] == b[..i][0];
  }

  lemma {:induction false} LessTransitive(a: Str, b: Str, c: Str)
    requires Less(a, b) && Less(b, c)
    ensures Less(a, c)
  {
    if a != [] && a[0] == b[0] == c[0] {
      LessTransitive(a[1..], b[1..], c[1..]);
    }
  }

  lemma {:induction false} LessIrreflexive(a: Str)
    ensures !Less(a, a)
  {
    if a != [] {
      LessIrreflexive(a[1..]);
    }
  }

  lemma {:induction false} LessTotal(a: Str, b: Str)
    ensures Less(a, b) || a == b || Less(b, a)
  {
    if a != [] && b != [] && a[0] == b[0] {
      LessTotal(a[1..], b[1..]);
      assert a == [a[0]] + a[1..] && b == [b[0]] + b[1..];
    }
  }

  lemma LessAsymmetric(a: Str, b: Str)
    requires Less(a, b)
    ensures !Less(b, a) && a != b
  {
    if Less(b, a) {
      LessTransitive(a, b, a);
    }
    LessIrreflexive(a);
  }

  /** A proper prefix comes first. */
  lemma {:induction false} PrefixIsLess(a: Str, b: Str)
    requires a <= b && a != b
    ensures Less(a, b)
  {
    if a != [] {
      assert a[1..] <= b[1..];
      assert a == [a[0]] + a[1..] && b == [b[0]] + b[1..];
      PrefixIsLess(a[1..], b[1..]);
    }
  }

  /** Prefixes of ordered strings are ordered, unless the later one's is the shorter of the two. */
  lemma {:induction false} PrefixesInOrder(a: Str, b: Str, x: Str, y: Str)
    requires Less(a, b) && x <= a && y <= b
    ensures Less(x, y) || y <= x
  {
    if x != [] && y != [] {
      assert x[0] == a[0] && y[0] == b[0];
      if a[0] == b[0] {
        assert x[1..] <= a[1..] && y[1..] <= b[1..];
        PrefixesInOrder(a[1..], b[1..], x[1..], y[1..]);
        if y[1..] <= x[1..] {
          assert y == [y[0]] + y[1..] && x == [x[0]] + x[1..];
        }
      }
    }
  }

  ghost predicate Ascending(s: seq<Str>) {
    forall i, j :: 0 <= i < j < |s| ==> Less(s[i], s[j])
  }

  // ----- sorting -----

  ghost predicate SortedBy<T>(s: seq<T>, key: T -> Str) {
    forall i, j :: 0 <= i < j < |s| ==> AtMost(key(s[i]), key(s[j]))
  }

  method Insert<T>(s: seq<T>, x: T, key: T -> Str) returns (r: seq<T>)
    requires SortedBy(s, key)
    ensures SortedBy(r, key) && multiset(r) == multiset(s) + multiset{x}
  {
    hide Less;
    var i := |s|;
    while i > 0 && Less(key(x), key(s[i - 1]))
      invariant 0 <= i <= |s|
      invariant forall j :: i <= j < |s| ==> Less(key(x), key(s[j]))
    {
      i := i - 1;
      forall j | i <= j < |s| ensures Less(key(x), key(s[j])) {
        if j > i && key(s[i]) != key(s[j]) {
          LessTransitive(key(x), key(s[i]), key(s[j]));
        }
      }
    }
    forall j | 0 <= j < i ensures AtMost(key(s[j]), key(x)) {
      LessTotal(key(s[i - 1]), key(x));
      if j < i - 1 && key(s[j]) != key(s[i - 1]) && key(s[i - 1]) != key(x) {
        LessTransitive(key(s[j]), key(s[i - 1]), key(x));
      }
    }
    r := s[..i] + [x] + s[i..];
    assert s == s[..i] + s[i..];
  }

  /** The library's sort, as far as it matters here: an ascending rearrangement. */
  method Sort<T>(s: seq<T>, key: T -> Str) returns (r: seq<T>)
    ensures SortedBy(r, key) && multiset(r) == multiset(s)
  {
    r := [];
    for i := 0 to |s|
      invariant SortedBy(r, key) && multiset(r) == multiset(s[..i])
    {
      assert s[..i + 1] == s[..i] + [s[i]];
      r := Insert(r, s[i], key);
    }
    assert s[..|s|] == s;
  }
}
