// Halfword encodings of the Thumb-2 instructions that jump slots and patchable constants are
// made of, and the bits that their fields hold.
module ThumbWords {
  import opened SignedWords

  const OP_BX: bv16 := 0x4700
  const OP_IT: bv16 := 0xbf00
  const OP_NOP_T1: bv16 := 0xbf00
  const OP_B_T4a: bv16 := 0xf000
  const OP_B_T4b: bv16 := 0x9000
  const OP_MOV_IMM_T3: bv16 := 0xf240
  const OP_MOVT: bv16 := 0xf2c0
  const OP_NOP_T2a: bv16 := 0xf3af
  const OP_NOP_T2b: bv16 := 0x8000

  const IP: bv4 := 12

  function Low16(v: bv32): bv16 { (v & 0xffff) as bv16 }
  function High16(v: bv32): bv16 { (v >> 16) as bv16 }

  // ---- Sixteen-bit immediates: imm4, i, imm3 and imm8 ----------------------------------------

  // twoWordOp5i6Imm4Reg4EncodedImmFirst and Second.
  function ImmFirst(op: bv16, imm: bv16): bv16 { op | (((imm >> 11) & 1) << 10) | ((imm >> 12) & 15) }

  function ImmSecond(rd: bv4, imm: bv16): bv16 { (((imm >> 8) & 7) << 12) | ((rd as bv16) << 8) | (imm & 0xff) }

  // Section A8.6.96 (encoding T3) and A8.6.99 of ARM DDI 0406B: imm4:i:imm3:imm8.
  function ImmOf(first: bv16, second: bv16): bv16
  {
    ((first & 15) << 12) | (((first >> 10) & 1) << 11) | (((second >> 12) & 7) << 8) | (second & 0xff)
  }

  function RdOf(second: bv16): bv4 { ((second >> 8) & 15) as bv4 }

  lemma ImmBits(op: bv16, rd: bv4, imm: bv16)
    requires op & 0xfbf0 == op
    ensures ImmOf(op | (((imm >> 11) & 1) << 10) | ((imm >> 12) & 15),
                  (((imm >> 8) & 7) << 12) | ((rd as bv16) << 8) | (imm & 0xff)) == imm
    ensures RdOf((((imm >> 8) & 7) << 12) | ((rd as bv16) << 8) | (imm & 0xff)) == rd
  {
  }

  // ---- Branches: S, imm10, J1, J2 and imm11 -----------------------------------------------------

  // Arithmetic shift right, as on intptr_t.
  function Sra7(w: bv32): bv32
  {
    if IsNegative(w) then (w >> 7) | 0xfe00_0000 else w >> 7
  }

  // (relative << 7) >> 7 == relative: 25 bits with the sign are enough.
  predicate FitsBranch(relative: bv32) { Sra7(relative << 7) == relative }

  function Peculiar(relative: bv32): bv32
  {
    if IsNegative(relative) then relative else relative ^ 0xc0_0000
  }

  function BFirst(r: bv32): bv16
  {
    OP_B_T4a | ((((r & 0x100_0000) >> 14) | ((r & 0x3f_f000) >> 12)) as bv16)
  }

  function BSecond(r: bv32): bv16
  {
    OP_B_T4b | ((((r & 0x80_0000) >> 10) | ((r & 0x40_0000) >> 11) | ((r & 0xffe) >> 1)) as bv16)
  }

  // Section A8.6.16 (encoding T4): I1 = NOT(J1 EOR S), I2 = NOT(J2 EOR S), and the offset is
  // S:I1:I2:imm10:imm11:'0', sign-extended.
  function BranchOffset(first: bv16, second: bv16): bv32
  {
    var s := ((first as bv32) >> 10) & 1;
    var i1 := (((second as bv32) >> 13) & 1) ^ s ^ 1;
    var i2 := (((second as bv32) >> 11) & 1) ^ s ^ 1;
    (0 - (s << 24)) | (i1 << 23) | (i2 << 22) | (((first as bv32) & 0x3ff) << 12) | (((second as bv32) & 0x7ff) << 1)
  }

  // ---- The recognisers ------------------------------------------------------------------------

  predicate IsB(first: bv16, second: bv16) { first & 0xf800 == OP_B_T4a && second & 0xd000 == OP_B_T4b }
  predicate IsBX(h: bv16) { h & 0xff87 == OP_BX }
  predicate IsMovT3(first: bv16, second: bv16) { first & 0xfbf0 == OP_MOV_IMM_T3 && second & 0x8000 == 0 }
  predicate IsMovt(first: bv16, second: bv16) { first & 0xfbf0 == OP_MOVT && second & 0x8000 == 0 }
  predicate IsNopT1(h: bv16) { h == OP_NOP_T1 }
  predicate IsNopT2(first: bv16, second: bv16) { first == OP_NOP_T2a && second == OP_NOP_T2b }

  function Bx(rm: bv4): bv16 { OP_BX | ((rm as bv16) << 3) }

  // What is recognised is what the encoders make, for some immediate, register or distance.
  lemma RecognisedImmIs(first: bv16, second: bv16)
    ensures IsMovT3(first, second) ==>
      first == ImmFirst(OP_MOV_IMM_T3, ImmOf(first, second)) && second == ImmSecond(RdOf(second), ImmOf(first, second))
    ensures IsMovt(first, second) ==>
      first == ImmFirst(OP_MOVT, ImmOf(first, second)) && second == ImmSecond(RdOf(second), ImmOf(first, second))
  {
    hide ImmOf, ImmFirst, ImmSecond, RdOf;
    if first & 0xfbf0 == OP_MOV_IMM_T3 { FirstBack(OP_MOV_IMM_T3, first, second); }
    if first & 0xfbf0 == OP_MOVT { FirstBack(OP_MOVT, first, second); }
    if second & 0x8000 == 0 { SecondBack(first, second); }
  }

  lemma FirstBack(op: bv16, first: bv16, second: bv16)
    requires first & 0xfbf0 == op
    ensures first == ImmFirst(op, ImmOf(first, second))
  {
  }

  lemma SecondBack(first: bv16, second: bv16)
    requires second & 0x8000 == 0
    ensures second == ImmSecond(RdOf(second), ImmOf(first, second))
  {
  }

  lemma RecognisedBxIs(h: bv16)
    ensures IsBX(h) <==> exists rm: bv4 :: h == Bx(rm)
  {
    if IsBX(h) { assert h == Bx(((h >> 3) & 15) as bv4); }
    forall rm: bv4 ensures IsBX(Bx(rm)) {
      BxIsRecognised(rm);
    }
  }

  lemma RecognisedBranchIs(first: bv16, second: bv16)
    requires IsB(first, second)
    ensures var p := Peculiar(BranchOffset(first, second)); first == BFirst(p) && second == BSecond(p)
  {
  }

  // ---- A branch reaches what it was given ---------------------------------------------------------

  lemma NegativeBranchBits(r: bv32)
    requires r >= 0xff00_0000 && r & 1 == 0
    ensures var f: bv16 := 0xf000 | ((((r & 0x100_0000) >> 14) | ((r & 0x3f_f000) >> 12)) as bv16);
      var g: bv16 := 0x9000 | ((((r & 0x80_0000) >> 10) | ((r & 0x40_0000) >> 11) | ((r & 0xffe) >> 1)) as bv16);
      BranchOffset(f, g) == r && f & 0xf800 == 0xf000 && g & 0xd000 == 0x9000
  {
  }

  lemma PositiveBranchBits(x: bv32)
    requires x < 0x100_0000 && x & 1 == 0
    ensures var r := x ^ 0xc0_0000;
      var f: bv16 := 0xf000 | ((((r & 0x100_0000) >> 14) | ((r & 0x3f_f000) >> 12)) as bv16);
      var g: bv16 := 0x9000 | ((((r & 0x80_0000) >> 10) | ((r & 0x40_0000) >> 11) | ((r & 0xffe) >> 1)) as bv16);
      BranchOffset(f, g) == x && f & 0xf800 == 0xf000 && g & 0xd000 == 0x9000
  {
  }

  lemma FitsRange(r: bv32)
    requires FitsBranch(r)
    ensures if IsNegative(r) then r >= 0xff00_0000 else r < 0x100_0000
  {
    if r & 0x100_0000 != 0 {
      assert (r << 7) & 0x8000_0000 != 0;
      assert ((r << 7) >> 7) | 0xfe00_0000 == r ==> r >= 0xff00_0000;
    } else {
      assert (r << 7) & 0x8000_0000 == 0;
      assert (r << 7) >> 7 == r ==> r < 0x100_0000;
    }
  }

  lemma RangeFits(r: bv32)
    requires if IsNegative(r) then r >= 0xff00_0000 else r < 0x100_0000
    ensures FitsBranch(r)
  {
    if IsNegative(r) {
      assert (r << 7) & 0x8000_0000 != 0;
      assert ((r << 7) >> 7) | 0xfe00_0000 == r;
    } else {
      assert (r << 7) & 0x8000_0000 == 0;
      assert (r << 7) >> 7 == r;
    }
  }

  lemma NegativeReaches(r: bv32)
    requires r >= 0xff00_0000 && r & 1 == 0
    ensures BranchOffset(BFirst(r), BSecond(r)) == r && IsB(BFirst(r), BSecond(r))
  {
    hide BranchOffset;
    NegativeBranchBits(r);
  }

  lemma PositiveReaches(x: bv32)
    requires x < 0x100_0000 && x & 1 == 0
    ensures BranchOffset(BFirst(x ^ 0xc0_0000), BSecond(x ^ 0xc0_0000)) == x
    ensures IsB(BFirst(x ^ 0xc0_0000), BSecond(x ^ 0xc0_0000))
  {
    hide BranchOffset;
    PositiveBranchBits(x);
  }

  // The two halfwords of an even offset in range encode exactly that offset.
  lemma BranchReaches(r: bv32)
    requires FitsBranch(r) && r & 1 == 0
    ensures var p := Peculiar(r); BranchOffset(BFirst(p), BSecond(p)) == r && IsB(BFirst(p), BSecond(p))
  {
    hide FitsBranch, BranchOffset, BFirst, BSecond, IsB, IsNegative;
    FitsRange(r);
    if IsNegative(r) {
      NegativeReaches(r);
    } else {
      PositiveReaches(r);
    }
  }

  // ---- The recognisers know what the encoders made ------------------------------------------------

  lemma ImmIsRecognised(op: bv16, rd: bv4, imm: bv16)
    requires op & 0xfbf0 == op
    ensures ImmFirst(op, imm) & 0xfbf0 == op && ImmSecond(rd, imm) & 0x8000 == 0
    ensures ImmOf(ImmFirst(op, imm), ImmSecond(rd, imm)) == imm && RdOf(ImmSecond(rd, imm)) == rd
  {
    assert (op | (((imm >> 11) & 1) << 10) | ((imm >> 12) & 15)) & 0xfbf0 == op;
    assert ((((imm >> 8) & 7) << 12) | ((rd as bv16) << 8) | (imm & 0xff)) & 0x8000 == 0;
    ImmBits(op, rd, imm);
    hide ImmOf, RdOf;
  }

  lemma BxIsRecognised(rm: bv4)
    ensures IsBX(Bx(rm)) && ((Bx(rm) >> 3) & 15) as bv4 == rm
  {
    assert (0x4700 | ((rm as bv16) << 3)) & 0xff87 == 0x4700;
    assert (((0x4700 | ((rm as bv16) << 3)) >> 3) & 15) as bv4 == rm;
  }

  function Pair(low: bv16, high: bv16): bv32 { ((high as bv32) << 16) | (low as bv32) }

  lemma PairOfHalves(v: bv32)
    ensures Pair(Low16(v), High16(v)) == v
  {
    assert ((((v >> 16) as bv16) as bv32) << 16) | (((v & 0xffff) as bv16) as bv32) == v;
  }
}
