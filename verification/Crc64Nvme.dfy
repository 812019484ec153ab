/** The reflected CRC-64/NVME: its two loops, and the laws of its register. */
module Crc64Nvme {
  import opened Types
  import opened Crc

  /** The reverse of 0xAD93D23594C935A9. */
  const POLY_REV: bv64 := 0x9A6C_9329_AC4B_C9B5
  const ONES: bv64 := 0xFFFF_FFFF_FFFF_FFFF

  const REGISTER: Register<bv64> := Register(8, Bit, (x, y) => Xor(x, y), Widen, 0, ONES, Shifted, TopFree)

  function Xor(x: bv64, y: bv64): bv64 { x ^ y }

  function Widen(byte: bv8): bv64 { byte as bv64 }

  predicate Odd(x: bv64) { x & 1 != 0 }

  function Half(x: bv64): bv64 { x >> 1 }

  function Bit(x: bv64): bv64 {
    if Odd(x) then Xor(Half(x), POLY_REV) else Half(x)
  }

  function Shifted(x: bv64): bv64 { x << 8 }

  predicate TopFree(x: bv64) { x & 0xFF00_0000_0000_0000 == 0 }

  /** The loop of eight shifts. */
  method ReflectedStep(crc: bv64, byte: bv8) returns (r: bv64)
    ensures r == Step(REGISTER, crc, byte)
  {
    r := crc ^ (byte as bv64);
    for i := 0 to 8
      invariant Bits(REGISTER, 8 - i, r) == Step(REGISTER, crc, byte)
    {
      r := if r & 1 != 0 then (r >> 1) ^ POLY_REV else r >> 1;
    }
  }

  /** The loop over a chunk. */
  method Update(crc: bv64, data: Bytes) returns (r: bv64)
    ensures r == Fold(REGISTER, crc, data)
  {
    hide Step;
    r := crc;
    for i := 0 to |data|
      invariant Fold(REGISTER, r, data[i..]) == Fold(REGISTER, crc, data)
    {
      assert data[i..][1..] == data[i + 1..];
      r := ReflectedStep(r, data[i]);
    }
  }

  // ----- the laws -----

  lemma XorAssociates(a: bv64, b: bv64, c: bv64)
    ensures Xor(Xor(a, b), c) == Xor(a, Xor(b, c))
  {
  }

  lemma XorIsGroup(x: bv64, y: bv64)
    ensures Xor(x, y) == Xor(y, x) && Xor(x, 0) == x && Xor(x, x) == 0
  {
  }

  lemma HalfLinear(x: bv64, y: bv64)
    ensures Half(Xor(x, y)) == Xor(Half(x), Half(y))
  {
  }

  lemma OddLinear(x: bv64, y: bv64)
    ensures Odd(Xor(x, y)) <==> Odd(x) != Odd(y)
  {
  }

  lemma BitIsLinear(x: bv64, y: bv64)
    ensures Bit(Xor(x, y)) == Xor(Bit(x), Bit(y))
  {
    hide Odd, Half, Xor;
    var p, hx, hy := POLY_REV, Half(x), Half(y);
    HalfLinear(x, y);
    OddLinear(x, y);
    XorIsGroup(p, hy);
    XorAssociates(hx, hy, p);
    XorAssociates(hx, p, hy);
    if Odd(x) && Odd(y) {
      XorAssociates(hx, p, Xor(hy, p));
      XorAssociates(p, hy, p);
      XorAssociates(hy, p, p);
      XorIsGroup(hy, hy);
      XorIsGroup(p, p);
    }
  }

  lemma SameParity(x: bv64, y: bv64)
    requires Odd(x) == Odd(y) && Half(x) == Half(y)
    ensures x == y
  {
  }

  /** An odd register takes the polynomial's top bit; an even one has none. */
  lemma BitTellsParity(x: bv64, y: bv64)
    requires !Odd(x) && Odd(y)
    ensures Bit(x) != Bit(y)
  {
  }

  lemma XorCancels(x: bv64, y: bv64, p: bv64)
    requires Xor(x, p) == Xor(y, p)
    ensures x == y
  {
  }

  lemma BitIsInjective(x: bv64, y: bv64)
    requires Bit(x) == Bit(y)
    ensures x == y
  {
    if Odd(x) && !Odd(y) {
      hide *;
      BitTellsParity(y, x);
    } else if Odd(y) && !Odd(x) {
      hide *;
      BitTellsParity(x, y);
    } else {
      hide Odd, Half, Xor;
      if Odd(x) {
        XorCancels(Half(x), Half(y), POLY_REV);
      }
      SameParity(x, y);
    }
  }

  lemma WidenIsLinear(a: bv8, b: bv8)
    ensures Widen(a ^ b) == Xor(Widen(a), Widen(b))
  {
  }

  lemma ShiftedIsLinear(x: bv64, y: bv64)
    ensures Shifted(Xor(x, y)) == Xor(Shifted(x), Shifted(y))
    ensures TopFree(x) && TopFree(y) ==> TopFree(Xor(x, y))
  {
  }

  lemma WidenHasRoom(b: bv8)
    ensures Room(REGISTER, 7, Widen(b))
  {
    var x0 := Widen(b);
    var x1 := Shifted(x0);
    var x2 := Shifted(x1);
    var x3 := Shifted(x2);
    var x4 := Shifted(x3);
    var x5 := Shifted(x4);
    var x6 := Shifted(x5);
    assert TopFree(x0) && TopFree(x1) && TopFree(x2) && TopFree(x3) && TopFree(x4) && TopFree(x5) && TopFree(x6);
    hide TopFree, Shifted, Widen;
    assert Room(REGISTER, 1, x6);
    assert Room(REGISTER, 2, x5);
    assert Room(REGISTER, 3, x4);
    assert Room(REGISTER, 4, x3);
    assert Room(REGISTER, 5, x2);
    assert Room(REGISTER, 6, x1);
    assert Room(REGISTER, 7, x0);
  }

  function Double(x: bv64): bv64 { x << 1 }

  predicate BitFree(x: bv64) { x & 0x8000_0000_0000_0000 == 0 }

  lemma BitUndoesDouble(x: bv64)
    requires BitFree(x)
    ensures Bit(Double(x)) == x
  {
  }

  /** A shift up is eight doublings, none of which loses a bit. */
  lemma EightDoubles(x: bv64)
    requires TopFree(x)
    ensures Shifted(x) == Double(Double(Double(Double(Double(Double(Double(Double(x))))))))
    ensures BitFree(x)
    ensures BitFree(Double(x))
    ensures BitFree(Double(Double(x)))
    ensures BitFree(Double(Double(Double(x))))
    ensures BitFree(Double(Double(Double(Double(x)))))
    ensures BitFree(Double(Double(Double(Double(Double(x))))))
    ensures BitFree(Double(Double(Double(Double(Double(Double(x)))))))
    ensures BitFree(Double(Double(Double(Double(Double(Double(Double(x))))))))
  {
  }

  lemma BitsOne(n: nat, x: bv64)
    ensures Bits(REGISTER, n, x) == if n == 0 then x else Bits(REGISTER, n - 1, Bit(x))
  {
  }

  lemma BitsUndoShift(x: bv64)
    requires TopFree(x)
    ensures Bits(REGISTER, 8, Shifted(x)) == x
  {
    hide Bits, Bit, TopFree, BitFree, Double, Shifted;
    EightDoubles(x);
    var x1 := Double(x);
    var x2 := Double(x1);
    var x3 := Double(x2);
    var x4 := Double(x3);
    var x5 := Double(x4);
    var x6 := Double(x5);
    var x7 := Double(x6);
    var x8 := Double(x7);
    BitsOne(0, x);
    BitUndoesDouble(x);
    BitsOne(1, x1);
    BitUndoesDouble(x1);
    BitsOne(2, x2);
    BitUndoesDouble(x2);
    BitsOne(3, x3);
    BitUndoesDouble(x3);
    BitsOne(4, x4);
    BitUndoesDouble(x4);
    BitsOne(5, x5);
    BitUndoesDouble(x5);
    BitsOne(6, x6);
    BitUndoesDouble(x6);
    BitsOne(7, x7);
    BitUndoesDouble(x7);
    BitsOne(8, x8);
  }

  lemma LowByteSplits(a: bv8, b: bv8, x: bv64, y: bv64)
    ensures TopFree(x) && TopFree(y) && Xor(Widen(a), Shifted(x)) == Xor(Widen(b), Shifted(y)) ==> a == b && x == y
  {
  }

  /** So all that is proved of reflected CRCs holds of this one. */
  lemma IsLawful()
    ensures Lawful(REGISTER)
  {
    hide XorLaws, BitLaws, UpLaws, ByteLaws, Xor, Bit;
    forall x: bv64, y: bv64, z: bv64 ensures XorLaws(REGISTER, x, y, z) {
      XorIsLawful(x, y, z);
    }
    forall x: bv64, y: bv64 ensures BitLaws(REGISTER, x, y) && UpLaws(REGISTER, x, y) {
      BitIsLinear(x, y);
      if Bit(x) == Bit(y) {
        BitIsInjective(x, y);
      }
      BitIsLawful(x, y);
      UpIsLawful(x, y);
    }
    forall a: bv8, b: bv8, x: bv64, y: bv64 ensures ByteLaws(REGISTER, a, b, x, y) {
      ByteIsLawful(a, b, x, y);
    }
  }

  lemma XorIsLawful(x: bv64, y: bv64, z: bv64)
    ensures XorLaws(REGISTER, x, y, z)
  {
    hide Xor;
    XorAssociates(x, y, z);
    XorIsGroup(x, y);
  }

  lemma BitIsLawful(x: bv64, y: bv64)
    requires Bit(Xor(x, y)) == Xor(Bit(x), Bit(y)) && (Bit(x) == Bit(y) ==> x == y)
    ensures BitLaws(REGISTER, x, y)
  {
    hide Xor, Bit;
  }

  lemma UpIsLawful(x: bv64, y: bv64)
    ensures UpLaws(REGISTER, x, y)
  {
    assert Shifted(0) == 0 && TopFree(0);
    hide Xor, Shifted, TopFree, Bits;
    ShiftedIsLinear(x, y);
    if TopFree(x) {
      BitsUndoShift(x);
    }
  }

  lemma ByteIsLawful(a: bv8, b: bv8, x: bv64, y: bv64)
    ensures ByteLaws(REGISTER, a, b, x, y)
  {
    hide Xor, Widen, Shifted, TopFree, Room;
    assert Widened(REGISTER, a ^ b) == Widen(a ^ b) && Widened(REGISTER, a) == Widen(a) && Widened(REGISTER, b) == Widen(b);
    hide Widened;
    WidenIsLinear(a, b);
    WidenHasRoom(a);
    LowByteSplits(a, b, x, y);
  }

  function StepWritten(crc: bv64, byte: bv8): bv64 {
    Bit(Bit(Bit(Bit(Bit(Bit(Bit(Bit(Xor(crc, Widen(byte))))))))))
  }

  lemma StepIsWritten(crc: bv64, byte: bv8)
    ensures Step(REGISTER, crc, byte) == StepWritten(crc, byte)
  {
    hide Bits, Bit, Xor, Widen;
    var x0 := Xor(crc, Widen(byte));
    BitsOne(8, x0);
    BitsOne(7, Bit(x0));
    BitsOne(6, Bit(Bit(x0)));
    BitsOne(5, Bit(Bit(Bit(x0))));
    BitsOne(4, Bit(Bit(Bit(Bit(x0)))));
    BitsOne(3, Bit(Bit(Bit(Bit(Bit(x0))))));
    BitsOne(2, Bit(Bit(Bit(Bit(Bit(Bit(x0)))))));
    BitsOne(1, Bit(Bit(Bit(Bit(Bit(Bit(Bit(x0))))))));
    BitsOne(0, Bit(Bit(Bit(Bit(Bit(Bit(Bit(Bit(x0)))))))));
  }

  lemma CheckSteps()
    ensures StepWritten(0xFFFF_FFFF_FFFF_FFFF, 0x31) == 0xDC6A_5E3C_B9E4_412D
    ensures StepWritten(0xDC6A_5E3C_B9E4_412D, 0x32) == 0x96F1_8DFA_140C_58B1
    ensures StepWritten(0x96F1_8DFA_140C_58B1, 0x33) == 0x6427_8334_3634_D71F
    ensures StepWritten(0x6427_8334_3634_D71F, 0x34) == 0xD60A_2418_1D00_8E2B
    ensures StepWritten(0xD60A_2418_1D00_8E2B, 0x35) == 0xE995_1D48_009D_3507
    ensures StepWritten(0xE995_1D48_009D_3507, 0x36) == 0xF6A6_6499_E1F7_A4CF
    ensures StepWritten(0xF6A6_6499_E1F7_A4CF, 0x37) == 0x62FD_0208_BE12_5D88
    ensures StepWritten(0x62FD_0208_BE12_5D88, 0x38) == 0x132F_6F67_3D37_6B6B
    ensures StepWritten(0x132F_6F67_3D37_6B6B, 0x39) == 0x5174_EB79_F586_6777
  {
  }

  /** The published check value, over the digits 1 to 9: it pins the polynomial, the initial register and the final xor. */
  lemma CheckValue()
    ensures Checksum(REGISTER, [0x31, 0x32, 0x33, 0x34, 0x35, 0x36, 0x37, 0x38, 0x39]) == 0xAE8B_1486_0A79_9888
  {
    hide Bits, StepWritten, Step;
    CheckSteps();
    StepIsWritten(0xFFFF_FFFF_FFFF_FFFF, 0x31);
    StepIsWritten(0xDC6A_5E3C_B9E4_412D, 0x32);
    StepIsWritten(0x96F1_8DFA_140C_58B1, 0x33);
    StepIsWritten(0x6427_8334_3634_D71F, 0x34);
    StepIsWritten(0xD60A_2418_1D00_8E2B, 0x35);
    StepIsWritten(0xE995_1D48_009D_3507, 0x36);
    StepIsWritten(0xF6A6_6499_E1F7_A4CF, 0x37);
    StepIsWritten(0x62FD_0208_BE12_5D88, 0x38);
    StepIsWritten(0x132F_6F67_3D37_6B6B, 0x39);
    var data: Bytes := [0x31, 0x32, 0x33, 0x34, 0x35, 0x36, 0x37, 0x38, 0x39];
    var registers: seq<bv64> := [
      0xFFFF_FFFF_FFFF_FFFF,
      0xDC6A_5E3C_B9E4_412D,
      0x96F1_8DFA_140C_58B1,
      0x6427_8334_3634_D71F,
      0xD60A_2418_1D00_8E2B,
      0xE995_1D48_009D_3507,
      0xF6A6_6499_E1F7_A4CF,
      0x62FD_0208_BE12_5D88,
      0x132F_6F67_3D37_6B6B,
      0x5174_EB79_F586_6777];
    FoldTrace(REGISTER, registers, data, 0);
    assert data[0..] == data;
  }
}
