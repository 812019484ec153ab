/** The reflected CRC-32C: its two loops, and the laws of its register. */
module Crc32c {
  import opened Types
  import opened Crc

  /** The reverse of 0x1EDC6F41. */
  const POLY_REV: bv32 := 0x82F6_3B78
  const ONES: bv32 := 0xFFFF_FFFF

  const REGISTER: Register<bv32> := Register(4, Bit, (x, y) => Xor(x, y), Widen, 0, ONES, Shifted, TopFree)

  function Xor(x: bv32, y: bv32): bv32 { x ^ y }

  function Widen(byte: bv8): bv32 { byte as bv32 }

  predicate Odd(x: bv32) { x & 1 != 0 }

  function Half(x: bv32): bv32 { x >> 1 }

  function Bit(x: bv32): bv32 {
    if Odd(x) then Xor(Half(x), POLY_REV) else Half(x)
  }

  function Shifted(x: bv32): bv32 { x << 8 }

  predicate TopFree(x: bv32) { x & 0xFF00_0000 == 0 }

  /** The loop of eight shifts. */
  method ReflectedStep(crc: bv32, byte: bv8) returns (r: bv32)
    ensures r == Step(REGISTER, crc, byte)
  {
    r := crc ^ (byte as bv32);
    for i := 0 to 8
      invariant Bits(REGISTER, 8 - i, r) == Step(REGISTER, crc, byte)
    {
      r := if r & 1 != 0 then (r >> 1) ^ POLY_REV else r >> 1;
    }
  }

  /** The loop over a chunk. */
  method Update(crc: bv32, data: Bytes) returns (r: bv32)
    ensures r == Fold(REGISTER, crc, data)
  {
    hide Step;
    r := crc;
    for i := 0 to |data|
      invariant Fold(REGISTER, r, data[i..]) == Fold(REGISTER, crc, data)
    {
      assert data[i..][1..] == data[i + 1..];
      r := ReflectedStep(r, data[i]);
    }
  }

  // ----- the laws -----

  lemma XorAssociates(a: bv32, b: bv32, c: bv32)
    ensures Xor(Xor(a, b), c) == Xor(a, Xor(b, c))
  {
  }

  lemma XorIsGroup(x: bv32, y: bv32)
    ensures Xor(x, y) == Xor(y, x) && Xor(x, 0) == x && Xor(x, x) == 0
  {
  }

  lemma HalfLinear(x: bv32, y: bv32)
    ensures Half(Xor(x, y)) == Xor(Half(x), Half(y))
  {
  }

  lemma OddLinear(x: bv32, y: bv32)
    ensures Odd(Xor(x, y)) <==> Odd(x) != Odd(y)
  {
  }

  lemma BitIsLinear(x: bv32, y: bv32)
    ensures Bit(Xor(x, y)) == Xor(Bit(x), Bit(y))
  {
    hide Odd, Half, Xor;
    var p, hx, hy := POLY_REV, Half(x), Half(y);
    HalfLinear(x, y);
    OddLinear(x, y);
    XorIsGroup(p, hy);
    XorAssociates(hx, hy, p);
    XorAssociates(hx, p, hy);
    if Odd(x) && Odd(y) {
      XorAssociates(hx, p, Xor(hy, p));
      XorAssociates(p, hy, p);
      XorAssociates(hy, p, p);
      XorIsGroup(hy, hy);
      XorIsGroup(p, p);
    }
  }

  lemma SameParity(x: bv32, y: bv32)
    requires Odd(x) == Odd(y) && Half(x) == Half(y)
    ensures x == y
  {
  }

  /** An odd register takes the polynomial's top bit; an even one has none. */
  lemma BitTellsParity(x: bv32, y: bv32)
    requires !Odd(x) && Odd(y)
    ensures Bit(x) != Bit(y)
  {
  }

  lemma XorCancels(x: bv32, y: bv32, p: bv32)
    requires Xor(x, p) == Xor(y, p)
    ensures x == y
  {
  }

  lemma BitIsInjective(x: bv32, y: bv32)
    requires Bit(x) == Bit(y)
    ensures x == y
  {
    if Odd(x) && !Odd(y) {
      hide *;
      BitTellsParity(y, x);
    } else if Odd(y) && !Odd(x) {
      hide *;
      BitTellsParity(x, y);
    } else {
      hide Odd, Half, Xor;
      if Odd(x) {
        XorCancels(Half(x), Half(y), POLY_REV);
      }
      SameParity(x, y);
    }
  }

  lemma WidenIsLinear(a: bv8, b: bv8)
    ensures Widen(a ^ b) == Xor(Widen(a), Widen(b))
  {
  }

  lemma ShiftedIsLinear(x: bv32, y: bv32)
    ensures Shifted(Xor(x, y)) == Xor(Shifted(x), Shifted(y))
    ensures TopFree(x) && TopFree(y) ==> TopFree(Xor(x, y))
  {
  }

  lemma WidenHasRoom(b: bv8)
    ensures Room(REGISTER, 3, Widen(b))
  {
    var x0 := Widen(b);
    var x1 := Shifted(x0);
    var x2 := Shifted(x1);
    assert TopFree(x0) && TopFree(x1) && TopFree(x2);
    hide TopFree, Shifted, Widen;
    assert Room(REGISTER, 1, x2);
    assert Room(REGISTER, 2, x1);
    assert Room(REGISTER, 3, x0);
  }

  function Double(x: bv32): bv32 { x << 1 }

  predicate BitFree(x: bv32) { x & 0x8000_0000 == 0 }

  lemma BitUndoesDouble(x: bv32)
    requires BitFree(x)
    ensures Bit(Double(x)) == x
  {
  }

  /** A shift up is eight doublings, none of which loses a bit. */
  lemma EightDoubles(x: bv32)
    requires TopFree(x)
    ensures Shifted(x) == Double(Double(Double(Double(Double(Double(Double(Double(x))))))))
    ensures BitFree(x)
    ensures BitFree(Double(x))
    ensures BitFree(Double(Double(x)))
    ensures BitFree(Double(Double(Double(x))))
    ensures BitFree(Double(Double(Double(Double(x)))))
    ensures BitFree(Double(Double(Double(Double(Double(x))))))
    ensures BitFree(Double(Double(Double(Double(Double(Double(x)))))))
    ensures BitFree(Double(Double(Double(Double(Double(Double(Double(x))))))))
  {
  }

  lemma BitsOne(n: nat, x: bv32)
    ensures Bits(REGISTER, n, x) == if n == 0 then x else Bits(REGISTER, n - 1, Bit(x))
  {
  }

  lemma BitsUndoShift(x: bv32)
    requires TopFree(x)
    ensures Bits(REGISTER, 8, Shifted(x)) == x
  {
    hide Bits, Bit, TopFree, BitFree, Double, Shifted;
    EightDoubles(x);
    var x1 := Double(x);
    var x2 := Double(x1);
    var x3 := Double(x2);
    var x4 := Double(x3);
    var x5 := Double(x4);
    var x6 := Double(x5);
    var x7 := Double(x6);
    var x8 := Double(x7);
    BitsOne(0, x);
    BitUndoesDouble(x);
    BitsOne(1, x1);
    BitUndoesDouble(x1);
    BitsOne(2, x2);
    BitUndoesDouble(x2);
    BitsOne(3, x3);
    BitUndoesDouble(x3);
    BitsOne(4, x4);
    BitUndoesDouble(x4);
    BitsOne(5, x5);
    BitUndoesDouble(x5);
    BitsOne(6, x6);
    BitUndoesDouble(x6);
    BitsOne(7, x7);
    BitUndoesDouble(x7);
    BitsOne(8, x8);
  }

  lemma LowByteSplits(a: bv8, b: bv8, x: bv32, y: bv32)
    ensures TopFree(x) && TopFree(y) && Xor(Widen(a), Shifted(x)) == Xor(Widen(b), Shifted(y)) ==> a == b && x == y
  {
  }

  /** So all that is proved of reflected CRCs holds of this one. */
  lemma IsLawful()
    ensures Lawful(REGISTER)
  {
    hide XorLaws, BitLaws, UpLaws, ByteLaws, Xor, Bit;
    forall x: bv32, y: bv32, z: bv32 ensures XorLaws(REGISTER, x, y, z) {
      XorIsLawful(x, y, z);
    }
    forall x: bv32, y: bv32 ensures BitLaws(REGISTER, x, y) && UpLaws(REGISTER, x, y) {
      BitIsLinear(x, y);
      if Bit(x) == Bit(y) {
        BitIsInjective(x, y);
      }
      BitIsLawful(x, y);
      UpIsLawful(x, y);
    }
    forall a: bv8, b: bv8, x: bv32, y: bv32 ensures ByteLaws(REGISTER, a, b, x, y) {
      ByteIsLawful(a, b, x, y);
    }
  }

  lemma XorIsLawful(x: bv32, y: bv32, z: bv32)
    ensures XorLaws(REGISTER, x, y, z)
  {
    hide Xor;
    XorAssociates(x, y, z);
    XorIsGroup(x, y);
  }

  lemma BitIsLawful(x: bv32, y: bv32)
    requires Bit(Xor(x, y)) == Xor(Bit(x), Bit(y)) && (Bit(x) == Bit(y) ==> x == y)
    ensures BitLaws(REGISTER, x, y)
  {
    hide Xor, Bit;
  }

  lemma UpIsLawful(x: bv32, y: bv32)
    ensures UpLaws(REGISTER, x, y)
  {
    assert Shifted(0) == 0 && TopFree(0);
    hide Xor, Shifted, TopFree, Bits;
    ShiftedIsLinear(x, y);
    if TopFree(x) {
      BitsUndoShift(x);
    }
  }

  lemma ByteIsLawful(a: bv8, b: bv8, x: bv32, y: bv32)
    ensures ByteLaws(REGISTER, a, b, x, y)
  {
    hide Xor, Widen, Shifted, TopFree, Room;
    assert Widened(REGISTER, a ^ b) == Widen(a ^ b) && Widened(REGISTER, a) == Widen(a) && Widened(REGISTER, b) == Widen(b);
    hide Widened;
    WidenIsLinear(a, b);
    WidenHasRoom(a);
    LowByteSplits(a, b, x, y);
  }

  function StepWritten(crc: bv32, byte: bv8): bv32 {
    Bit(Bit(Bit(Bit(Bit(Bit(Bit(Bit(Xor(crc, Widen(byte))))))))))
  }

  lemma StepIsWritten(crc: bv32, byte: bv8)
    ensures Step(REGISTER, crc, byte) == StepWritten(crc, byte)
  {
    hide Bits, Bit, Xor, Widen;
    var x0 := Xor(crc, Widen(byte));
    BitsOne(8, x0);
    BitsOne(7, Bit(x0));
    BitsOne(6, Bit(Bit(x0)));
    BitsOne(5, Bit(Bit(Bit(x0))));
    BitsOne(4, Bit(Bit(Bit(Bit(x0)))));
    BitsOne(3, Bit(Bit(Bit(Bit(Bit(x0))))));
    BitsOne(2, Bit(Bit(Bit(Bit(Bit(Bit(x0)))))));
    BitsOne(1, Bit(Bit(Bit(Bit(Bit(Bit(Bit(x0))))))));
    BitsOne(0, Bit(Bit(Bit(Bit(Bit(Bit(Bit(Bit(x0)))))))));
  }

  lemma CheckSteps()
    ensures StepWritten(0xFFFF_FFFF, 0x31) == 0x6F0A_661C
    ensures StepWritten(0x6F0A_661C, 0x32) == 0x8CAA_3B9F
    ensures StepWritten(0x8CAA_3B9F, 0x33) == 0xEF84_D04D
    ensures StepWritten(0xEF84_D04D, 0x34) == 0x09C5_0B11
    ensures StepWritten(0x09C5_0B11, 0x35) == 0xE72E_DCCA
    ensures StepWritten(0xE72E_DCCA, 0x36) == 0xBECA_8E79
    ensures StepWritten(0xBECA_8E79, 0x37) == 0xEDBD_6815
    ensures StepWritten(0xEDBD_6815, 0x38) == 0x9F78_7F65
    ensures StepWritten(0x9F78_7F65, 0x39) == 0x1CF9_6D7C
  {
  }

  /** The published check value, over the digits 1 to 9: it pins the polynomial, the initial register and the final xor. */
  lemma CheckValue()
    ensures Checksum(REGISTER, [0x31, 0x32, 0x33, 0x34, 0x35, 0x36, 0x37, 0x38, 0x39]) == 0xE306_9283
  {
    hide Bits, StepWritten, Step;
    CheckSteps();
    StepIsWritten(0xFFFF_FFFF, 0x31);
    StepIsWritten(0x6F0A_661C, 0x32);
    StepIsWritten(0x8CAA_3B9F, 0x33);
    StepIsWritten(0xEF84_D04D, 0x34);
    StepIsWritten(0x09C5_0B11, 0x35);
    StepIsWritten(0xE72E_DCCA, 0x36);
    StepIsWritten(0xBECA_8E79, 0x37);
    StepIsWritten(0xEDBD_6815, 0x38);
    StepIsWritten(0x9F78_7F65, 0x39);
    var data: Bytes := [0x31, 0x32, 0x33, 0x34, 0x35, 0x36, 0x37, 0x38, 0x39];
    var registers: seq<bv32> := [
      0xFFFF_FFFF,
      0x6F0A_661C,
      0x8CAA_3B9F,
      0xEF84_D04D,
      0x09C5_0B11,
      0xE72E_DCCA,
      0xBECA_8E79,
      0xEDBD_6815,
      0x9F78_7F65,
      0x1CF9_6D7C];
    FoldTrace(REGISTER, registers, data, 0);
    assert data[0..] == data;
  }
}
