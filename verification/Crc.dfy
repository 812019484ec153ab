/** Reflected CRCs, computed a bit at a time, for a register of any width. */
module Crc {
  import opened Types

  /**
   A register of `bytes` bytes: the shift by one bit that folds the polynomial in, xor, a byte
   as a register, and, to speak of bursts, the plain shift up by a byte and whether that loses nothing.
   */
  datatype Register<!W> = Register(
    bytes: nat,
    bit: W -> W,
    xor: (W, W) -> W,
    widen: bv8 -> W,
    zero: W,
    ones: W,
    up: W -> W,
    topFree: W -> bool)

  function Widened<W>(r: Register<W>, byte: bv8): W { r.widen(byte) }

  function Bits<W>(r: Register<W>, n: nat, x: W): W {
    if n == 0 then x else Bits(r, n - 1, r.bit(x))
  }

  /** One byte folded into the register. */
  function Step<W>(r: Register<W>, x: W, byte: bv8): W {
    Bits(r, 8, r.xor(x, Widened(r, byte)))
  }

  function Fold<W>(r: Register<W>, x: W, data: Bytes): W
    decreases |data|
  {
    if data == [] then x else Fold(r, Step(r, x, data[0]), data[1..])
  }

  function Checksum<W>(r: Register<W>, data: Bytes): W {
    r.xor(Fold(r, r.ones, data), r.ones)
  }

  /** However a body is cut into chunks, the register ends the same. */
  lemma {:induction false} FoldConcat<W>(r: Register<W>, x: W, a: Bytes, b: Bytes)
    ensures Fold(r, x, a + b) == Fold(r, Fold(r, x, a), b)
    decreases |a|
  {
    hide Step;
    if a == [] {
      assert a + b == b;
    } else {
      assert (a + b)[1..] == a[1..] + b;
      FoldConcat(r, Step(r, x, a[0]), a[1..], b);
    }
  }

  /** A run of the register, byte by byte, ends where the fold does. */
  lemma {:induction false} FoldTrace<W>(r: Register<W>, registers: seq<W>, data: Bytes, i: nat)
    requires |registers| == |data| + 1 && i <= |data|
    requires forall k :: 0 <= k < |data| ==> Step(r, registers[k], data[k]) == registers[k + 1]
    ensures Fold(r, registers[i], data[i..]) == registers[|data|]
    decreases |data| - i
  {
    hide Step;
    if i < |data| {
      FoldTrace(r, registers, data, i + 1);
      assert data[i..][1..] == data[i + 1..];
    }
  }

  // ----- what a register must be -----

  ghost predicate XorLaws<W>(r: Register<W>, x: W, y: W, z: W) {
    && r.xor(r.xor(x, y), z) == r.xor(x, r.xor(y, z))
    && r.xor(x, y) == r.xor(y, x)
    && r.xor(x, r.zero) == x && r.xor(x, x) == r.zero
  }

  ghost predicate BitLaws<W>(r: Register<W>, x: W, y: W) {
    && r.bit(r.xor(x, y)) == r.xor(r.bit(x), r.bit(y))
    && (r.bit(x) == r.bit(y) ==> x == y)
  }

  /** Shifting up keeps sums and zeroes, and eight shifts undo it where it lost nothing. */
  ghost predicate UpLaws<W>(r: Register<W>, x: W, y: W) {
    && r.up(r.xor(x, y)) == r.xor(r.up(x), r.up(y))
    && r.up(r.zero) == r.zero && r.topFree(r.zero)
    && (r.topFree(x) && r.topFree(y) ==> r.topFree(r.xor(x, y)))
    && (r.topFree(x) ==> Bits(r, 8, r.up(x)) == x)
  }

  /** A byte is a small register, and can be told from what is shifted up. */
  ghost predicate ByteLaws<W>(r: Register<W>, a: bv8, b: bv8, x: W, y: W) {
    && Widened(r, a ^ b) == r.xor(Widened(r, a), Widened(r, b))
    && r.bytes > 0 && Room(r, r.bytes - 1, Widened(r, a))
    && (r.topFree(x) && r.topFree(y) && r.xor(Widened(r, a), r.up(x)) == r.xor(Widened(r, b), r.up(y)) ==> a == b && x == y)
  }

  /** The top `j` bytes of `x` are zero. */
  predicate Room<W>(r: Register<W>, j: nat, x: W) {
    j == 0 || (r.topFree(x) && Room(r, j - 1, r.up(x)))
  }

  ghost predicate Lawful<W(!new)>(r: Register<W>) {
    && (forall x, y, z :: XorLaws(r, x, y, z))
    && (forall x, y :: BitLaws(r, x, y))
    && (forall x, y :: UpLaws(r, x, y))
    && (forall a, b, x, y :: ByteLaws(r, a, b, x, y))
  }

  lemma Swap<W(!new)>(r: Register<W>, x: W, y: W, a: W, b: W)
    requires Lawful(r)
    ensures r.xor(r.xor(x, y), r.xor(a, b)) == r.xor(r.xor(x, a), r.xor(y, b))
  {
    assert XorLaws(r, y, a, b) && XorLaws(r, a, y, b);
    assert XorLaws(r, x, y, r.xor(a, b)) && XorLaws(r, x, a, r.xor(y, b));
  }

  lemma Cancel<W(!new)>(r: Register<W>, x: W, y: W, c: W)
    requires Lawful(r)
    requires r.xor(x, c) == r.xor(y, c) || r.xor(c, x) == r.xor(c, y)
    ensures x == y
  {
    assert XorLaws(r, x, c, c) && XorLaws(r, y, c, c) && XorLaws(r, c, x, y);
  }

  // ----- linearity -----

  lemma {:induction false} BitsLinear<W(!new)>(r: Register<W>, n: nat, x: W, y: W)
    requires Lawful(r)
    ensures Bits(r, n, r.xor(x, y)) == r.xor(Bits(r, n, x), Bits(r, n, y))
  {
    assert BitLaws(r, x, y);
    if n > 0 {
      BitsLinear(r, n - 1, r.bit(x), r.bit(y));
    }
  }

  lemma StepLinear<W(!new)>(r: Register<W>, x: W, y: W, a: bv8, b: bv8)
    requires Lawful(r)
    ensures Step(r, r.xor(x, y), a ^ b) == r.xor(Step(r, x, a), Step(r, y, b))
  {
    hide Bits;
    assert ByteLaws(r, a, b, x, y);
    Swap(r, x, y, Widened(r, a), Widened(r, b));
    BitsLinear(r, 8, r.xor(x, Widened(r, a)), r.xor(y, Widened(r, b)));
  }

  function XorBytes(a: Bytes, b: Bytes): Bytes
    requires |a| == |b|
  {
    if a == [] then [] else [a[0] ^ b[0]] + XorBytes(a[1..], b[1..])
  }

  /** The register is linear in itself and in the bytes, over xor. */
  lemma {:induction false} FoldLinear<W(!new)>(r: Register<W>, x: W, y: W, a: Bytes, b: Bytes)
    requires Lawful(r) && |a| == |b|
    ensures Fold(r, r.xor(x, y), XorBytes(a, b)) == r.xor(Fold(r, x, a), Fold(r, y, b))
    decreases |a|
  {
    hide Step, Lawful;
    if a != [] {
      StepLinear(r, x, y, a[0], b[0]);
      assert XorBytes(a, b)[1..] == XorBytes(a[1..], b[1..]);
      FoldLinear(r, Step(r, x, a[0]), Step(r, y, b[0]), a[1..], b[1..]);
    }
  }

  // ----- injectivity -----

  lemma {:induction false} BitsInjective<W(!new)>(r: Register<W>, n: nat, x: W, y: W)
    requires Lawful(r) && Bits(r, n, x) == Bits(r, n, y)
    ensures x == y
  {
    assert BitLaws(r, x, y);
    if n > 0 {
      BitsInjective(r, n - 1, r.bit(x), r.bit(y));
    }
  }

  lemma StepInjective<W(!new)>(r: Register<W>, x: W, y: W, byte: bv8)
    requires Lawful(r) && Step(r, x, byte) == Step(r, y, byte)
    ensures x == y
  {
    hide Bits, Lawful;
    var b := Widened(r, byte);
    BitsInjective(r, 8, r.xor(x, b), r.xor(y, b));
    Cancel(r, x, y, b);
  }

  /** Different registers stay different through the same bytes. */
  lemma {:induction false} FoldInjective<W(!new)>(r: Register<W>, x: W, y: W, data: Bytes)
    requires Lawful(r) && Fold(r, x, data) == Fold(r, y, data)
    ensures x == y
    decreases |data|
  {
    hide Step, Lawful;
    if data != [] {
      FoldInjective(r, Step(r, x, data[0]), Step(r, y, data[0]), data[1..]);
      StepInjective(r, x, y, data[0]);
    }
  }

  // ----- bursts -----

  /** As many bytes as the register has, or fewer, as one word, the first lowest. */
  function Word<W>(r: Register<W>, w: Bytes): W {
    if w == [] then r.zero else r.xor(Widened(r, w[0]), r.up(Word(r, w[1..])))
  }

  lemma {:induction false} RoomXor<W(!new)>(r: Register<W>, j: nat, x: W, y: W)
    requires Lawful(r) && Room(r, j, x) && Room(r, j, y)
    ensures Room(r, j, r.xor(x, y))
  {
    assert UpLaws(r, x, y);
    if j > 0 {
      RoomXor(r, j - 1, r.up(x), r.up(y));
    }
  }

  lemma {:induction false} RoomLess<W>(r: Register<W>, j: nat, i: nat, x: W)
    requires i <= j && Room(r, j, x)
    ensures Room(r, i, x)
  {
    if i > 0 {
      RoomLess(r, j - 1, i - 1, r.up(x));
    }
  }

  lemma {:induction false} ZeroRoom<W(!new)>(r: Register<W>, j: nat)
    requires Lawful(r)
    ensures Room(r, j, r.zero)
  {
    assert UpLaws(r, r.zero, r.zero);
    if j > 0 {
      ZeroRoom(r, j - 1);
    }
  }

  lemma {:induction false} WordRoom<W(!new)>(r: Register<W>, w: Bytes)
    requires Lawful(r) && |w| <= r.bytes
    ensures Room(r, r.bytes - |w|, Word(r, w))
  {
    if w == [] {
      ZeroRoom(r, r.bytes);
    } else {
      var j, b, rest := r.bytes - |w|, Widened(r, w[0]), Word(r, w[1..]);
      WordRoom(r, w[1..]);
      assert Room(r, j + 1, rest);
      assert ByteLaws(r, w[0], w[0], rest, rest);
      RoomLess(r, r.bytes - 1, j, b);
      RoomXor(r, j, b, r.up(rest));
    }
  }

  lemma {:induction false} BitsAdd<W>(r: Register<W>, m: nat, n: nat, x: W)
    ensures Bits(r, m + n, x) == Bits(r, n, Bits(r, m, x))
  {
    if m > 0 {
      BitsAdd(r, m - 1, n, r.bit(x));
    }
  }

  /** Eight shifts of a word are one step of its lowest byte, with the rest moved down. */
  lemma WordStep<W(!new)>(r: Register<W>, x: W, w: Bytes)
    requires Lawful(r) && 0 < |w| <= r.bytes
    ensures Bits(r, 8, r.xor(x, Word(r, w))) == r.xor(Step(r, x, w[0]), Word(r, w[1..]))
  {
    hide Bits;
    var b, rest := Widened(r, w[0]), Word(r, w[1..]);
    WordRoom(r, w[1..]);
    assert UpLaws(r, rest, rest);
    assert XorLaws(r, x, b, r.up(rest));
    BitsLinear(r, 8, r.xor(x, b), r.up(rest));
  }

  /** Folding bytes in is one shift of them, as a word, through the register. */
  lemma {:induction false} FoldWord<W(!new)>(r: Register<W>, x: W, w: Bytes)
    requires Lawful(r) && |w| <= r.bytes
    ensures Fold(r, x, w) == Bits(r, 8 * |w|, r.xor(x, Word(r, w)))
    decreases |w|
  {
    hide Step;
    if w == [] {
      assert XorLaws(r, x, x, x);
    } else {
      WordStep(r, x, w);
      FoldWord(r, Step(r, x, w[0]), w[1..]);
      BitsAdd(r, 8, 8 * |w| - 8, r.xor(x, Word(r, w)));
    }
  }

  lemma {:induction false} WordInjective<W(!new)>(r: Register<W>, w: Bytes, v: Bytes)
    requires Lawful(r) && |w| == |v| <= r.bytes && Word(r, w) == Word(r, v)
    ensures w == v
  {
    if w != [] {
      WordRoom(r, w[1..]);
      WordRoom(r, v[1..]);
      assert ByteLaws(r, w[0], v[0], Word(r, w[1..]), Word(r, v[1..]));
      WordInjective(r, w[1..], v[1..]);
      assert w == [w[0]] + w[1..] && v == [v[0]] + v[1..];
    }
  }

  /** From one register, different bytes, no more than it has, lead to different registers. */
  lemma FoldTellsApart<W(!new)>(r: Register<W>, x: W, w: Bytes, v: Bytes)
    requires Lawful(r) && |w| == |v| <= r.bytes && Fold(r, x, w) == Fold(r, x, v)
    ensures w == v
  {
    hide Fold, Bits, Lawful;
    FoldWord(r, x, w);
    FoldWord(r, x, v);
    BitsInjective(r, 8 * |w|, r.xor(x, Word(r, w)), r.xor(x, Word(r, v)));
    Cancel(r, Word(r, w), Word(r, v), x);
    WordInjective(r, w, v);
  }

  /** Two bodies that differ only within as many consecutive bytes as the register has have different checksums. */
  lemma BurstIsDetected<W(!new)>(r: Register<W>, before: Bytes, w: Bytes, v: Bytes, after: Bytes)
    requires Lawful(r) && |w| == |v| <= r.bytes && w != v
    ensures Checksum(r, before + w + after) != Checksum(r, before + v + after)
  {
    hide Fold, Lawful;
    var c := Fold(r, r.ones, before);
    FoldConcat(r, r.ones, before + w, after);
    FoldConcat(r, r.ones, before + v, after);
    FoldConcat(r, r.ones, before, w);
    FoldConcat(r, r.ones, before, v);
    if Checksum(r, before + w + after) == Checksum(r, before + v + after) {
      Cancel(r, Fold(r, Fold(r, c, w), after), Fold(r, Fold(r, c, v), after), r.ones);
      FoldInjective(r, Fold(r, c, w), Fold(r, c, v), after);
      FoldTellsApart(r, c, w, v);
    }
  }
}
