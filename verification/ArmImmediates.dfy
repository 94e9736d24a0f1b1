// ARM operand-2 immediates: one-word encodings, splitting a constant over two instructions, and
// moving or testing any constant at all.
module ArmImmediates {
  import opened SignedWords

  const OP2_IMM: bv32 := 0x0200_0000
  const OP2_INV_IMM: bv32 := 0x0400_0000
  const INVALID_IMM: bv32 := 0xf000_0000

  // ---- Rotations ---------------------------------------------------------------------------

  // Section A5.2.4 of ARM DDI 0406B: an eight-bit value rotated right by twice the field.
  function Decoded(byte: bv32, field: bv32): bv32 { RotateRight(byte, (2 * field) & 31) }

  function Op2(byte: bv32, field: bv32): bv32 { OP2_IMM | byte | ((field & 15) << 8) }

  function Op2Value(w: bv32): bv32 { Decoded(w & 0xff, (w >> 8) & 15) }

  predicate IsOp2(w: bv32) { w & 0xffff_f000 == OP2_IMM }

  ghost predicate IsRotatedByte(v: bv32) { exists byte: bv32, field: bv32 :: byte <= 0xff && field <= 15 && Decoded(byte, field) == v }

  // The number of which imm, with its top byte at rotation rol, is what is left.
  function Turned(imm: bv32, rol: bv32): bv32 { RotateRight(imm, (2 * rol + 24) & 31) }

  lemma Op2Fields(byte: bv32, field: bv32)
    requires byte <= 0xff
    ensures IsOp2(Op2(byte, field)) && Op2Value(Op2(byte, field)) == Decoded(byte, field)
  {
    hide Decoded;
    Op2Bits(byte, field);
    FieldsWrap(byte, field);
  }

  lemma Op2Bits(byte: bv32, field: bv32)
    requires byte <= 0xff
    ensures (0x0200_0000 | byte | ((field & 15) << 8)) & 0xffff_f000 == 0x0200_0000
    ensures (0x0200_0000 | byte | ((field & 15) << 8)) & 0xff == byte
    ensures ((0x0200_0000 | byte | ((field & 15) << 8)) >> 8) & 15 == field & 15
  {
  }

  lemma FieldsWrap(byte: bv32, field: bv32)
    ensures Decoded(byte, field & 15) == Decoded(byte, field)
  {
    assert (2 * (field & 15)) & 31 == (2 * field) & 31;
    hide RotateRight;
  }

  // ---- Normalising -----------------------------------------------------------------------------

  lemma EightLow(x: bv32, n: bv32)
    requires n <= 23 && x & 0xff00_0000 == 0
    ensures ((x << 8) >> (n + 8)) | ((x << 8) << (32 - (n + 8))) == (x >> n) | (x << (32 - n))
  {
  }

  lemma EightHigh(x: bv32, n: bv32)
    requires 24 <= n <= 31 && x & 0xff00_0000 == 0
    ensures ((x << 8) >> (n - 24)) | ((x << 8) << (32 - (n - 24))) == (x >> n) | (x << (32 - n))
  {
  }

  lemma RotateEightLess(x: bv32, n: bv32)
    requires n <= 31 && x & 0xff00_0000 == 0
    ensures RotateRight(x << 8, (n + 8) & 31) == RotateRight(x, n)
  {
    if n <= 23 {
      assert (n + 8) & 31 == n + 8;
      EightLow(x, n);
    } else {
      assert (n + 8) & 31 == n - 24;
      EightHigh(x, n);
    }
  }

  lemma SkipEight(imm: bv32, rol: bv32)
    requires imm & 0xff00_0000 == 0
    ensures Turned(imm << 8, rol + 4) == Turned(imm, rol)
  {
    hide RotateRight;
    assert (2 * (rol + 4) + 24) & 31 == (((2 * rol + 24) & 31) + 8) & 31;
    RotateEightLess(imm, (2 * rol + 24) & 31);
  }

  lemma SkipFour(imm: bv32, rol: bv32)
    requires imm & 0xf000_0000 == 0
    ensures Turned(imm << 4, rol + 2) == Turned(imm, rol)
  {
  }

  lemma SkipTwo(imm: bv32, rol: bv32)
    requires imm & 0xc000_0000 == 0
    ensures Turned(imm << 2, rol + 1) == Turned(imm, rol)
  {
  }

  lemma TopByteOut(imm: bv32, rol: bv32)
    ensures Turned(imm, rol) == Decoded((imm >> 24) & 0xff, rol) | Turned(imm << 8, rol + 4)
  {
  }

  lemma OnlyTopByte(imm: bv32, rol: bv32)
    requires imm & 0x00ff_ffff == 0
    ensures Turned(imm, rol) == Decoded(imm >> 24, rol) && imm >> 24 <= 0xff
  {
  }

  lemma FirstTurns(v: bv32)
    ensures v & 0xff00_0000 == 0 ==> Turned(v << 8, 8) == v
    ensures Turned((v << 24) | (v >> 8), 0) == v
  {
  }

  // ---- getOp2 ------------------------------------------------------------------------------------

  function SkipTop8(imm: bv32, rol: bv32): (bv32, bv32) { if imm & 0xff00_0000 == 0 then (imm << 8, rol + 4) else (imm, rol) }
  function SkipTop4(imm: bv32, rol: bv32): (bv32, bv32) { if imm & 0xf000_0000 == 0 then (imm << 4, rol + 2) else (imm, rol) }
  function SkipTop2(imm: bv32, rol: bv32): (bv32, bv32) { if imm & 0xc000_0000 == 0 then (imm << 2, rol + 1) else (imm, rol) }

  function FirstTurn(imm: bv32): (bv32, bv32)
  {
    if imm & 0xff00_0000 == 0 then (imm << 8, 8) else ((imm << 24) | (imm >> 8), 0)
  }

  function SkipTop(imm: bv32, rol: bv32): (bv32, bv32)
  {
    var (i8, r8) := SkipTop8(imm, rol);
    var (i4, r4) := SkipTop4(i8, r8);
    SkipTop2(i4, r4)
  }

  function TopByte(imm: bv32): bv32 { imm >> 24 }

  predicate LowBitsClear(imm: bv32) { imm & 0x00ff_ffff == 0 }

  function Op2Of(imm: bv32): bv32
  {
    if imm <= 0xff then OP2_IMM | imm
    else
      var (i, r) := FirstTurn(imm);
      var (j, rol) := SkipTop(i, r);
      if LowBitsClear(j) then OP2_IMM | TopByte(j) | (rol << 8) else INVALID_IMM
  }

  lemma SkipTop8Keeps(imm: bv32, rol: bv32)
    ensures var (j, r) := SkipTop8(imm, rol); Turned(j, r) == Turned(imm, rol)
  {
    hide Turned;
    if imm & 0xff00_0000 == 0 { SkipEight(imm, rol); }
  }

  lemma SkipTop4Keeps(imm: bv32, rol: bv32)
    ensures var (j, r) := SkipTop4(imm, rol); Turned(j, r) == Turned(imm, rol)
  {
    hide Turned;
    if imm & 0xf000_0000 == 0 { SkipFour(imm, rol); }
  }

  lemma SkipTop2Keeps(imm: bv32, rol: bv32)
    ensures var (j, r) := SkipTop2(imm, rol); Turned(j, r) == Turned(imm, rol)
  {
    hide Turned;
    if imm & 0xc000_0000 == 0 { SkipTwo(imm, rol); }
  }

  lemma SkipTopKeeps(imm: bv32, rol: bv32)
    ensures var (j, r) := SkipTop(imm, rol); Turned(j, r) == Turned(imm, rol)
  {
    hide Turned, SkipTop8, SkipTop4, SkipTop2;
    SkipTop8Keeps(imm, rol);
    var (i8, r8) := SkipTop8(imm, rol);
    SkipTop4Keeps(i8, r8);
    var (i4, r4) := SkipTop4(i8, r8);
    SkipTop2Keeps(i4, r4);
  }

  lemma FirstTurnKeeps(v: bv32)
    ensures var (i, r) := FirstTurn(v); Turned(i, r) == v && (r == 8 || r == 0)
  {
    hide Turned;
    FirstTurns(v);
  }

  lemma SkipTopRange(imm: bv32, rol: bv32)
    requires rol <= 8
    ensures SkipTop(imm, rol).1 <= 15
  {
    hide SkipTop8, SkipTop4, SkipTop2;
    EachSkipCounts(imm, rol);
    var (i8, r8) := SkipTop8(imm, rol);
    EachSkipCounts(i8, r8);
    var (i4, r4) := SkipTop4(i8, r8);
    EachSkipCounts(i4, r4);
  }

  lemma EachSkipCounts(imm: bv32, rol: bv32)
    ensures rol <= 8 ==> SkipTop8(imm, rol).1 <= 12
    ensures rol <= 12 ==> SkipTop4(imm, rol).1 <= 14
    ensures rol <= 14 ==> SkipTop2(imm, rol).1 <= 15
  {
  }

  lemma SmallValue(v: bv32)
    requires v <= 0xff
    ensures Decoded(v, 0) == v && Op2(v, 0) == OP2_IMM | v
  {
  }

  lemma FieldFits(byte: bv32, rol: bv32)
    requires rol <= 15
    ensures Op2(byte, rol) == OP2_IMM | byte | (rol << 8)
  {
    assert rol & 15 == rol;
  }

  // An encoding that is found decodes to the value.
  lemma Op2IsSound(v: bv32)
    requires Op2Of(v) != INVALID_IMM
    ensures IsOp2(Op2Of(v)) && Op2Value(Op2Of(v)) == v && IsRotatedByte(v)
  {
    hide Turned, SkipTop, FirstTurn, Decoded, Op2, IsOp2, Op2Value;
    if v <= 0xff {
      SmallValue(v);
      Op2Fields(v, 0);
    } else {
      var (i, r) := FirstTurn(v);
      FirstTurnKeeps(v);
      SkipTopKeeps(i, r);
      SkipTopRange(i, r);
      var (j, rol) := SkipTop(i, r);
      OnlyTopByte(j, rol);
      Op2Fields(TopByte(j), rol);
      FieldFits(TopByte(j), rol);
    }
  }

  function FirstTurned(v: bv32): bv32 { if v & 0xff00_0000 == 0 then v << 8 else (v << 24) | (v >> 8) }

  predicate IsFoundAtTop(v: bv32)
  {
    v > 0xff ==> Skipped2(Skipped4(Skipped8(FirstTurned(v)))) & 0x00ff_ffff == 0
  }

  lemma NormalBits(byte: bv32, field: bv32)
    requires byte <= 0xff && field <= 15
    ensures IsFoundAtTop((byte >> (2 * field)) | (byte << (32 - 2 * field)))
  {
  }

  lemma FoundAtTopMeans(v: bv32)
    requires IsFoundAtTop(v) && v > 0xff
    ensures var (i, r) := FirstTurn(v); LowBitsClear(SkipTop(i, r).0)
  {
    hide SkipTop, Skipped8, Skipped4, Skipped2;
    var (i, r) := FirstTurn(v);
    SkipTopIs(i, r);
  }

  lemma Op2IsComplete(v: bv32)
    requires IsRotatedByte(v)
    ensures Op2Of(v) != INVALID_IMM
  {
    var byte: bv32, field: bv32 :| byte <= 0xff && field <= 15 && Decoded(byte, field) == v;
    hide SkipTop, FirstTurn, Decoded, LowBitsClear, TopByte, IsFoundAtTop;
    DecodedInline(byte, field);
    NormalBits(byte, field);
    if v > 0xff { FoundAtTopMeans(v); }
    NotInvalid(v, 0, 0);
    var (i, r) := FirstTurn(v);
    var (j, rol) := SkipTop(i, r);
    NotInvalid(0, TopByte(j), rol);
  }

  lemma NotInvalid(x: bv32, byte: bv32, rol: bv32)
    ensures OP2_IMM | x != INVALID_IMM && OP2_IMM | byte | (rol << 8) != INVALID_IMM
  {
  }

  // getOp2 finds an encoding exactly for the bytes rotated by an even amount.
  lemma Op2Iff(v: bv32)
    ensures Op2Of(v) != INVALID_IMM <==> IsRotatedByte(v)
    ensures IsRotatedByte(v) ==> IsOp2(Op2Of(v)) && Op2Value(Op2Of(v)) == v
  {
    hide Op2Of, IsRotatedByte, IsOp2, Op2Value;
    if Op2Of(v) != INVALID_IMM { Op2IsSound(v); }
    if IsRotatedByte(v) { Op2IsComplete(v); }
  }

  // The same, as the source computes it.
  method ShiftOutZeros(value: bv32, turns: bv32) returns (imm: bv32, rol: bv32)
    ensures (imm, rol) == SkipTop(value, turns)
  {
    imm, rol := value, turns;
    if imm & 0xff00_0000 == 0 {
      imm := imm << 8;
      rol := rol + 4;
    }
    assert (imm, rol) == SkipTop8(value, turns);
    ghost var i8, r8 := imm, rol;
    if imm & 0xf000_0000 == 0 {
      imm := imm << 4;
      rol := rol + 2;
    }
    assert (imm, rol) == SkipTop4(i8, r8);
    ghost var i4, r4 := imm, rol;
    if imm & 0xc000_0000 == 0 {
      imm := imm << 2;
      rol := rol + 1;
    }
    assert (imm, rol) == SkipTop2(i4, r4);
    hide SkipTop8, SkipTop4, SkipTop2;
  }

  method GetOp2(v: bv32) returns (op2: bv32)
    ensures op2 == Op2Of(v)
    ensures op2 != INVALID_IMM <==> IsRotatedByte(v)
    ensures op2 != INVALID_IMM ==> IsOp2(op2) && Op2Value(op2) == v
  {
    hide IsRotatedByte, IsOp2, Op2Value, SkipTop;
    Op2Iff(v);
    if v <= 0xff {
      return OP2_IMM | v;
    }
    var imm, rol := v, 0;
    if imm & 0xff00_0000 == 0 {
      imm := imm << 8;
      rol := 8;
    } else {
      imm := (imm << 24) | (imm >> 8);
      rol := 0;
    }
    imm, rol := ShiftOutZeros(imm, rol);
    if imm & 0x00ff_ffff == 0 {
      return OP2_IMM | (imm >> 24) | (rol << 8);
    }
    return INVALID_IMM;
  }

  // ---- genInt: the search for eight zero bits ------------------------------------------------------

  // The bits tested in the first loop at this rol, and in the second.
  predicate FirstIsClear(v: bv32, rol: bv32) { 8 <= rol <= 30 && v & (0xff00_0000 >> (rol - 8)) == 0 }
  predicate SecondIsClear(v: bv32, rol: bv32) { 24 <= rol <= 30 && v & (0xff00 >> (rol - 24)) == 0 }

  function RotateLeft(v: bv32, rol: bv32): bv32
    requires rol <= 32
  {
    (v << rol) | (v >> (32 - rol))
  }

  predicate LowByteClear(v: bv32) { v & 0xff == 0 }

  lemma FirstFound(v: bv32, rol: bv32)
    requires IsEven(rol) && FirstIsClear(v, rol)
    ensures var i := RotateLeft(v, rol); LowByteClear(i) && Turned(i, 4 + (rol >> 1)) == v
  {
    FirstFoundBits(v, rol);
    FirstTurnedBits(v, rol);
    hide RotateRight;
  }

  lemma FirstFoundBits(v: bv32, rol: bv32)
    requires 8 <= rol <= 30 && rol & 1 == 0 && v & (0xff00_0000 >> (rol - 8)) == 0
    ensures ((v << rol) | (v >> (32 - rol))) & 0xff == 0
  {
  }

  lemma FirstTurnedBits(v: bv32, rol: bv32)
    requires 8 <= rol <= 30 && rol & 1 == 0
    ensures RotateRight((v << rol) | (v >> (32 - rol)), (2 * (4 + (rol >> 1)) + 24) & 31) == v
  {
  }

  lemma SecondFoundBits(v: bv32, rol: bv32)
    requires 24 <= rol <= 30 && rol & 1 == 0 && v & (0xff00 >> (rol - 24)) == 0
    ensures ((v << rol) | (v >> (32 - rol))) & 0xff == 0
  {
  }

  lemma SecondIsFound(v: bv32, rol: bv32)
    requires IsEven(rol) && SecondIsClear(v, rol)
    ensures LowByteClear(RotateLeft(v, rol))
  {
    SecondFoundBits(v, rol);
  }

  lemma SecondTurnedBits(v: bv32, rol: bv32)
    requires 24 <= rol <= 30 && rol & 1 == 0
    ensures Turned(RotateLeft((v << 8) | (v >> 24), rol), (rol >> 1) - 8) == v
  {
    assert var i := (v << 8) | (v >> 24);
      RotateRight((i << rol) | (i >> (32 - rol)), (2 * ((rol >> 1) - 8) + 24) & 31) == v;
    hide RotateRight;
  }

  lemma SecondFound(v: bv32, rol: bv32)
    requires 24 <= rol <= 30 && IsEven(rol) && SecondIsClear(RotateLeft(v, 8), rol)
    ensures var i := RotateLeft(RotateLeft(v, 8), rol); LowByteClear(i) && Turned(i, (rol >> 1) - 8) == v
  {
    assert RotateLeft(v, 8) == (v << 8) | (v >> 24);
    hide RotateLeft, Turned, SecondIsClear, LowByteClear;
    SecondIsFound(RotateLeft(v, 8), rol);
    SecondTurnedBits(v, rol);
  }

  function FirstMask(rol: bv32): bv32
    requires 8 <= rol <= 40
  {
    0xff00_0000 >> (rol - 8)
  }

  function SecondMask(rol: bv32): bv32
    requires 24 <= rol <= 56
  {
    0xff00 >> (rol - 24)
  }

  lemma MaskMoves(rol: bv32)
    requires 8 <= rol <= 30 && IsEven(rol)
    ensures FirstMask(rol) >> 2 == FirstMask(rol + 2)
    ensures FirstMask(rol + 2) & 3 != 0 <==> rol == 30
  {
    FirstMaskBits(rol);
  }

  lemma FirstMaskBits(rol: bv32)
    requires 8 <= rol <= 30 && rol & 1 == 0
    ensures var m: bv32 := 0xff00_0000;
      (m >> (rol - 8)) >> 2 == m >> (rol + 2 - 8) && ((m >> (rol + 2 - 8)) & 3 != 0 <==> rol == 30)
  {
  }

  lemma SecondMaskMoves(rol: bv32)
    requires 24 <= rol <= 30 && IsEven(rol)
    ensures SecondMask(rol) >> 2 == SecondMask(rol + 2)
    ensures SecondMask(rol + 2) & 3 != 0 <==> rol == 30
  {
    SecondMaskBits(rol);
  }

  lemma SecondMaskBits(rol: bv32)
    requires 24 <= rol <= 30 && rol & 1 == 0
    ensures var m: bv32 := 0xff00;
      (m >> (rol - 24)) >> 2 == m >> (rol + 2 - 24) && ((m >> (rol + 2 - 24)) & 3 != 0 <==> rol == 30)
  {
  }

  lemma FirstTest(v: bv32, rol: bv32)
    requires 8 <= rol <= 30
    ensures v & FirstMask(rol) == 0 <==> FirstIsClear(v, rol)
  {
  }

  lemma SecondTest(v: bv32, rol: bv32)
    requires 24 <= rol <= 30
    ensures v & SecondMask(rol) == 0 <==> SecondIsClear(v, rol)
  {
  }

  predicate IsEven(rol: bv32) { rol & 1 == 0 }

  // Nothing was found in the first loop, or in the second, before rol.
  ghost predicate FirstMissed(v: bv32, rol: bv32)
  {
    forall r: bv32 :: 8 <= r < rol && IsEven(r) ==> !FirstIsClear(v, r)
  }

  ghost predicate SecondMissed(v: bv32, rol: bv32)
  {
    forall r: bv32 :: 24 <= r < rol && IsEven(r) ==> !SecondIsClear(v, r)
  }

  lemma MissOne(v: bv32, rol: bv32)
    requires 8 <= rol <= 30 && IsEven(rol)
    ensures FirstMissed(v, rol) && !FirstIsClear(v, rol) ==> FirstMissed(v, rol + 2)
    ensures SecondMissed(v, rol) && !SecondIsClear(v, rol) ==> SecondMissed(v, rol + 2)
  {
    hide FirstIsClear, SecondIsClear;
    forall r: bv32 | r < rol + 2 && IsEven(r) ensures r < rol || r == rol {
      EvenSteps(r, rol);
    }
  }

  lemma EvenSteps(r: bv32, rol: bv32)
    requires 8 <= rol <= 30 && IsEven(rol) && IsEven(r) && r < rol + 2
    ensures r < rol || r == rol
  {
  }

  lemma NextRol(rol: bv32)
    requires 8 <= rol <= 30 && IsEven(rol)
    ensures IsEven(rol + 2) && rol + 2 <= 32 && rol + 2 > rol && (rol != 30 ==> rol + 2 <= 30)
    ensures 32 - (rol + 2) < 32 - rol
  {
  }

  // The loops: the mask belongs to rol, and all rols before it have been tried.
  ghost predicate InFirst(v: bv32, rol: bv32, mask: bv32)
  {
    8 <= rol <= 30 && IsEven(rol) && mask == FirstMask(rol) && FirstMissed(v, rol)
  }

  ghost predicate InSecond(v: bv32, rol: bv32, mask: bv32)
  {
    24 <= rol <= 30 && IsEven(rol) && mask == SecondMask(rol) && SecondMissed(v, rol)
  }

  predicate Meets(v: bv32, mask: bv32) { v & mask != 0 }

  function NextMask(mask: bv32): bv32 { mask >> 2 }
  predicate IsLast(mask: bv32) { mask & 3 != 0 }
  function FirstField(rol: bv32): bv32 { 4 + (rol >> 1) }
  function SecondField(rol: bv32): bv32 { (rol >> 1) - 8 }

  lemma FirstRound(v: bv32, rol: bv32, mask: bv32)
    requires InFirst(v, rol, mask)
    ensures rol <= 30 && rol < rol + 2
    ensures !Meets(v, mask) ==>
      var i := RotateLeft(v, rol); LowByteClear(i) && Turned(i, FirstField(rol)) == v
    ensures Meets(v, mask) && IsLast(NextMask(mask)) ==> FirstMissed(v, 32)
    ensures Meets(v, mask) && !IsLast(NextMask(mask)) ==> InFirst(v, rol + 2, NextMask(mask))
  {
    hide Turned, LowByteClear, RotateLeft, FirstMask, FirstIsClear, FirstMissed, SecondMissed, IsEven;
    FirstTest(v, rol);
    MaskMoves(rol);
    MissOne(v, rol);
    NextRol(rol);
    if FirstIsClear(v, rol) { FirstFound(v, rol); }
  }

  lemma SecondRound(value: bv32, v: bv32, rol: bv32, mask: bv32)
    requires InSecond(v, rol, mask) && v == RotateLeft(value, 8)
    ensures rol <= 30 && rol < rol + 2
    ensures !Meets(v, mask) ==>
      var i := RotateLeft(v, rol); LowByteClear(i) && Turned(i, SecondField(rol)) == value
    ensures Meets(v, mask) && IsLast(NextMask(mask)) ==> SecondMissed(v, 32)
    ensures Meets(v, mask) && !IsLast(NextMask(mask)) ==> InSecond(v, rol + 2, NextMask(mask))
  {
    hide Turned, LowByteClear, RotateLeft, SecondMask, SecondIsClear, FirstMissed, SecondMissed, IsEven;
    SecondTest(v, rol);
    SecondMaskMoves(rol);
    MissOne(v, rol);
    NextRol(rol);
    if SecondIsClear(v, rol) { SecondFound(value, rol); }
  }

  // What is found has its low byte clear and stands for the same number.
  method FindZeroByte(value: bv32) returns (found: bool, imm: bv32, rol: bv32)
    ensures found ==> LowByteClear(imm) && Turned(imm, rol) == value
    ensures !found ==> FirstMissed(value, 32) && SecondMissed(RotateLeft(value, 8), 32)
  {
    hide *;
    imm, rol := value, 8;
    var mask := 0xff00_0000;
    LoopsStart(value);
    while true
      invariant InFirst(value, rol, mask) && imm == value
      decreases 32 - rol
    {
      FirstRound(value, rol, mask);
      if !Meets(imm, mask) {
        return true, RotateLeft(imm, rol), FirstField(rol);
      }
      rol := rol + 2;
      mask := NextMask(mask);
      if IsLast(mask) {
        break;
      }
    }
    imm := RotateLeft(imm, 8);
    LoopsStart(imm);
    mask, rol := 0xff00, 24;
    while true
      invariant InSecond(imm, rol, mask) && imm == RotateLeft(value, 8) && FirstMissed(value, 32)
      decreases 32 - rol
    {
      SecondRound(value, imm, rol, mask);
      if !Meets(imm, mask) {
        return true, RotateLeft(imm, rol), SecondField(rol);
      }
      rol := rol + 2;
      mask := NextMask(mask);
      if IsLast(mask) {
        return false, imm, rol;
      }
    }
  }

  lemma LoopsStart(v: bv32)
    ensures InFirst(v, 8, 0xff00_0000) && InSecond(v, 24, 0xff00)
  {
  }

  // ---- genInt: two bytes -----------------------------------------------------------------------------

  function Or(x: bv32, y: bv32): bv32 { x | y }

  function Both(byte1: bv32, field1: bv32, byte2: bv32, field2: bv32): bv32
  {
    Or(Decoded(byte1, field1), Decoded(byte2, field2))
  }

  predicate AreBytes(byte1: bv32, field1: bv32, byte2: bv32, field2: bv32)
  {
    byte1 <= 0xff && field1 <= 15 && byte2 <= 0xff && field2 <= 15
  }

  // The value is the OR of two bytes, each rotated right by an even amount.
  ghost predicate IsTwoBytes(v: bv32)
  {
    exists b1: bv32, f1: bv32, b2: bv32, f2: bv32 :: AreBytes(b1, f1, b2, f2) && Both(b1, f1, b2, f2) == v
  }

  // Eight zero bits somewhere at an even position.
  predicate HasWindow(v: bv32)
  {
    || v & 0xff00_0000 == 0 || v & 0x3fc0_0000 == 0 || v & 0x0ff0_0000 == 0 || v & 0x03fc_0000 == 0
    || v & 0x00ff_0000 == 0 || v & 0x003f_c000 == 0 || v & 0x000f_f000 == 0 || v & 0x0003_fc00 == 0
    || v & 0x0000_ff00 == 0 || v & 0x0000_3fc0 == 0 || v & 0x0000_0ff0 == 0 || v & 0x0000_03fc == 0
    || v & 0x0000_00ff == 0 || v & 0xc000_003f == 0 || v & 0xf000_000f == 0 || v & 0xfc00_0003 == 0
  }

  lemma SomeWindowBits(a: bv32, f: bv32, b: bv32, g: bv32)
    requires a <= 0xff && b <= 0xff && f <= 15 && g <= 15
    ensures var v := ((a >> (2 * f)) | (a << (32 - 2 * f))) | ((b >> (2 * g)) | (b << (32 - 2 * g)));
      || v & 0xff00_0000 == 0 || v & 0x3fc0_0000 == 0 || v & 0x0ff0_0000 == 0 || v & 0x03fc_0000 == 0
      || v & 0x00ff_0000 == 0 || v & 0x003f_c000 == 0 || v & 0x000f_f000 == 0 || v & 0x0003_fc00 == 0
      || v & 0x0000_ff00 == 0 || v & 0x0000_3fc0 == 0 || v & 0x0000_0ff0 == 0 || v & 0x0000_03fc == 0
      || v & 0x0000_00ff == 0 || v & 0xc000_003f == 0 || v & 0xf000_000f == 0 || v & 0xfc00_0003 == 0
  {
  }

  // Two rotated bytes leave such a window.
  lemma SomeWindowIsClear(a: bv32, f: bv32, b: bv32, g: bv32)
    requires a <= 0xff && b <= 0xff && f <= 15 && g <= 15
    ensures HasWindow(((a >> (2 * f)) | (a << (32 - 2 * f))) | ((b >> (2 * g)) | (b << (32 - 2 * g))))
  {
    SomeWindowBits(a, f, b, g);
  }

  lemma DecodedInline(byte: bv32, field: bv32)
    requires field <= 15
    ensures Decoded(byte, field) == (byte >> (2 * field)) | (byte << (32 - 2 * field))
  {
    assert (2 * field) & 31 == 2 * field;
  }

  lemma BothInline(a: bv32, f: bv32, b: bv32, g: bv32)
    requires f <= 15 && g <= 15
    ensures Both(a, f, b, g) == ((a >> (2 * f)) | (a << (32 - 2 * f))) | ((b >> (2 * g)) | (b << (32 - 2 * g)))
  {
    DecodedInline(a, f);
    DecodedInline(b, g);
    hide Decoded;
  }

  lemma FirstWindows(v: bv32)
    requires FirstMissed(v, 32)
    ensures v & 0xff00_0000 != 0 && v & 0x3fc0_0000 != 0 && v & 0x0ff0_0000 != 0 && v & 0x03fc_0000 != 0
    ensures v & 0x00ff_0000 != 0 && v & 0x003f_c000 != 0 && v & 0x000f_f000 != 0 && v & 0x0003_fc00 != 0
    ensures v & 0x0000_ff00 != 0 && v & 0x0000_3fc0 != 0 && v & 0x0000_0ff0 != 0 && v & 0x0000_03fc != 0
  {
    assert !FirstIsClear(v, 8) && !FirstIsClear(v, 10) && !FirstIsClear(v, 12) && !FirstIsClear(v, 14);
    assert !FirstIsClear(v, 16) && !FirstIsClear(v, 18) && !FirstIsClear(v, 20) && !FirstIsClear(v, 22);
    assert !FirstIsClear(v, 24) && !FirstIsClear(v, 26) && !FirstIsClear(v, 28) && !FirstIsClear(v, 30);
  }

  lemma SecondWindows(v: bv32)
    requires SecondMissed(RotateLeft(v, 8), 32)
    ensures v & 0x0000_00ff != 0 && v & 0xc000_003f != 0 && v & 0xf000_000f != 0 && v & 0xfc00_0003 != 0
  {
    var i := RotateLeft(v, 8);
    assert !SecondIsClear(i, 24) && !SecondIsClear(i, 26) && !SecondIsClear(i, 28) && !SecondIsClear(i, 30);
    assert i & 0xff00 != 0 && i & 0x3fc0 != 0 && i & 0x0ff0 != 0 && i & 0x03fc != 0;
    SecondWindowBits(v);
  }

  lemma SecondWindowBits(v: bv32)
    ensures var i := (v << 8) | (v >> 24);
      && (i & 0xff00 != 0 ==> v & 0x0000_00ff != 0) && (i & 0x3fc0 != 0 ==> v & 0xc000_003f != 0)
      && (i & 0x0ff0 != 0 ==> v & 0xf000_000f != 0) && (i & 0x03fc != 0 ==> v & 0xfc00_0003 != 0)
  {
  }

  lemma NoWindow(v: bv32)
    requires FirstMissed(v, 32) && SecondMissed(RotateLeft(v, 8), 32)
    ensures !HasWindow(v)
  {
    hide FirstMissed, SecondMissed, RotateLeft;
    FirstWindows(v);
    SecondWindows(v);
  }

  // A search that fails means that two bytes are not enough.
  lemma MissedIsNotTwoBytes(v: bv32)
    requires FirstMissed(v, 32) && SecondMissed(RotateLeft(v, 8), 32)
    ensures !IsTwoBytes(v)
  {
    hide HasWindow, FirstMissed, SecondMissed, RotateLeft, Both;
    NoWindow(v);
    if IsTwoBytes(v) {
      var b1: bv32, f1: bv32, b2: bv32, f2: bv32 :| AreBytes(b1, f1, b2, f2) && Both(b1, f1, b2, f2) == v;
      BothInline(b1, f1, b2, f2);
      SomeWindowIsClear(b1, f1, b2, f2);
    }
  }

  // ---- genInt: the split ------------------------------------------------------------------------------

  predicate TopByteClear(imm: bv32) { imm & 0xff00_0000 == 0 }
  predicate TopTwoSet(imm: bv32) { imm & 0xc000_0000 != 0 }

  function ByteAt(imm: bv32, shift: bv32): bv32
    requires shift <= 31
  {
    (imm >> shift) & 0xff
  }

  // Shifting out only four and two zeros.
  function SkipSix(imm: bv32, rol: bv32): (bv32, bv32)
  {
    var (i4, r4) := SkipTop4(imm, rol);
    SkipTop2(i4, r4)
  }

  function ShiftByte(imm: bv32): bv32 { imm << 8 }
  function NextField(rol: bv32): bv32 { rol + 4 }

  datatype Split = NoSplit | Split(imm1: bv32, imm2: bv32)

  function SecondHalf(imm1: bv32, rest: bv32, rol: bv32): Split
  {
    if LowBitsClear(rest) then Split(imm1, Op2(TopByte(rest), rol)) else NoSplit
  }

  // The part of genInt behind the search.
  function SplitOf(imm: bv32, rol: bv32): Split
  {
    if TopByteClear(imm) then
      Split(Op2(ByteAt(imm, 16), NextField(rol)), Op2(ByteAt(imm, 8), NextField(NextField(rol))))
    else if TopTwoSet(imm) then
      var (rest, r) := SkipTop(ShiftByte(imm), NextField(rol));
      SecondHalf(Op2(ByteAt(imm, 24), rol), rest, r)
    else
      var (first, r1) := SkipSix(imm, rol);
      var (rest, r2) := SkipSix(ShiftByte(first), NextField(r1));
      SecondHalf(Op2(ByteAt(first, 24), r1), rest, r2)
  }

  // What two words put together with orr.
  function Joined(s: Split): bv32
    requires s.Split?
  {
    Op2Value(s.imm1) | Op2Value(s.imm2)
  }

  predicate AreOp2(s: Split)
    requires s.Split?
  {
    IsOp2(s.imm1) && IsOp2(s.imm2)
  }

  lemma SkipSixKeeps(imm: bv32, rol: bv32)
    ensures var (j, r) := SkipSix(imm, rol); Turned(j, r) == Turned(imm, rol)
  {
    hide Turned, SkipTop4, SkipTop2;
    SkipTop4Keeps(imm, rol);
    var (i4, r4) := SkipTop4(imm, rol);
    SkipTop2Keeps(i4, r4);
  }

  lemma BytesAreBytes(imm: bv32)
    ensures ByteAt(imm, 8) <= 0xff && ByteAt(imm, 16) <= 0xff && ByteAt(imm, 24) <= 0xff && TopByte(imm) <= 0xff
  {
    assert (imm >> 8) & 0xff <= 0xff && (imm >> 16) & 0xff <= 0xff && (imm >> 24) & 0xff <= 0xff && imm >> 24 <= 0xff;
  }

  lemma ByteOut(imm: bv32, rol: bv32)
    ensures Turned(imm, rol) == Decoded(ByteAt(imm, 24), rol) | Turned(ShiftByte(imm), NextField(rol))
  {
    hide Turned, Decoded;
    TopByteOut(imm, rol);
  }

  lemma LastByte(imm: bv32, rol: bv32)
    requires LowBitsClear(imm)
    ensures Turned(imm, rol) == Decoded(TopByte(imm), rol)
  {
    hide Turned, Decoded;
    OnlyTopByte(imm, rol);
  }

  lemma HalfJoins(imm: bv32, rol: bv32, rest: bv32, r: bv32)
    requires Turned(rest, r) == Turned(ShiftByte(imm), NextField(rol))
    requires LowBitsClear(rest)
    ensures var s := SecondHalf(Op2(ByteAt(imm, 24), rol), rest, r); AreOp2(s) && Joined(s) == Turned(imm, rol)
  {
    hide Turned, Decoded, Op2, IsOp2, Op2Value, ByteAt, ShiftByte, NextField, LowBitsClear, TopByte;
    ByteOut(imm, rol);
    LastByte(rest, r);
    BytesAreBytes(imm);
    BytesAreBytes(rest);
    Op2Fields(ByteAt(imm, 24), rol);
    Op2Fields(TopByte(rest), r);
  }

  lemma ClearByteOut(imm: bv32, rol: bv32)
    requires TopByteClear(imm)
    ensures Turned(ShiftByte(imm), NextField(rol)) == Turned(imm, rol)
  {
    hide Turned;
    SkipEight(imm, rol);
  }

  lemma MiddleBytes(imm: bv32)
    requires TopByteClear(imm) && LowByteClear(imm)
    ensures ByteAt(ShiftByte(imm), 24) == ByteAt(imm, 16) && TopByte(ShiftByte(ShiftByte(imm))) == ByteAt(imm, 8)
    ensures LowBitsClear(ShiftByte(ShiftByte(imm)))
  {
    assert ((imm << 8) >> 24) & 0xff == (imm >> 16) & 0xff;
    assert ((imm << 8) << 8) >> 24 == (imm >> 8) & 0xff;
    assert imm & 0xff == 0 ==> ((imm << 8) << 8) & 0x00ff_ffff == 0;
  }

  lemma ThirdBytesJoin(imm: bv32, rol: bv32)
    requires TopByteClear(imm) && LowByteClear(imm)
    ensures Turned(imm, rol) ==
      Decoded(ByteAt(imm, 16), NextField(rol)) | Decoded(ByteAt(imm, 8), NextField(NextField(rol)))
  {
    hide Turned, Decoded, ByteAt, ShiftByte, NextField, TopByteClear, LowByteClear, LowBitsClear, TopByte;
    ClearByteOut(imm, rol);
    ByteOut(ShiftByte(imm), NextField(rol));
    MiddleBytes(imm);
    LastByte(ShiftByte(ShiftByte(imm)), NextField(NextField(rol)));
  }

  // A split decodes to the number it was made from.
  lemma SplitIsSound(imm: bv32, rol: bv32)
    requires LowByteClear(imm) && SplitOf(imm, rol).Split?
    ensures AreOp2(SplitOf(imm, rol)) && Joined(SplitOf(imm, rol)) == Turned(imm, rol)
  {
    hide Turned, Decoded, Op2, IsOp2, Op2Value, ByteAt, ShiftByte, NextField, SkipTop, SkipSix, TopByteClear, TopTwoSet,
      LowByteClear, LowBitsClear, TopByte;
    if TopByteClear(imm) {
      ThirdBytesJoin(imm, rol);
      BytesAreBytes(imm);
      Op2Fields(ByteAt(imm, 16), NextField(rol));
      Op2Fields(ByteAt(imm, 8), NextField(NextField(rol)));
    } else if TopTwoSet(imm) {
      SkipTopKeeps(ShiftByte(imm), NextField(rol));
      var (rest, r) := SkipTop(ShiftByte(imm), NextField(rol));
      HalfJoins(imm, rol, rest, r);
    } else {
      SkipSixKeeps(imm, rol);
      var (first, r1) := SkipSix(imm, rol);
      SkipSixKeeps(ShiftByte(first), NextField(r1));
      var (rest, r2) := SkipSix(ShiftByte(first), NextField(r1));
      HalfJoins(first, r1, rest, r2);
    }
  }

  // ---- Completeness of the split ----------------------------------------------------------------------

  function Skipped8(i: bv32): bv32 { if i & 0xff00_0000 == 0 then i << 8 else i }
  function Skipped4(i: bv32): bv32 { if i & 0xf000_0000 == 0 then i << 4 else i }
  function Skipped2(i: bv32): bv32 { if i & 0xc000_0000 == 0 then i << 2 else i }

  lemma SkipsAre(imm: bv32, rol: bv32)
    ensures SkipTop8(imm, rol).0 == Skipped8(imm)
    ensures SkipTop4(imm, rol).0 == Skipped4(imm)
    ensures SkipTop2(imm, rol).0 == Skipped2(imm)
  {
  }

  lemma SkipTopIs(imm: bv32, rol: bv32)
    ensures SkipTop(imm, rol).0 == Skipped2(Skipped4(Skipped8(imm)))
    ensures SkipSix(imm, rol).0 == Skipped2(Skipped4(imm))
  {
    hide SkipTop8, SkipTop4, SkipTop2, Skipped8, Skipped4, Skipped2;
    SkipsAre(imm, rol);
    var (i8, r8) := SkipTop8(imm, rol);
    SkipsAre(i8, r8);
    var (i4, r4) := SkipTop4(i8, r8);
    SkipsAre(i4, r4);
    var (j4, s4) := SkipTop4(imm, rol);
    SkipsAre(j4, s4);
  }

  predicate FitsAtTop(v: bv32)
  {
    v & 0xff == 0 && v & 0xc000_0000 != 0 ==> Skipped2(Skipped4(Skipped8(v << 8))) & 0x00ff_ffff == 0
  }

  predicate FitsBelow(v: bv32)
  {
    v & 0xff == 0 && v & 0xc000_0000 == 0 && v & 0xff00_0000 != 0 ==>
      Skipped2(Skipped4(Skipped2(Skipped4(v)) << 8)) & 0x00ff_ffff == 0
  }

  lemma TwoBytesFitAtTop(a: bv32, f: bv32, b: bv32, g: bv32)
    requires a <= 0xff && b <= 0xff && f <= 15 && g <= 15
    ensures FitsAtTop(((a >> (2 * f)) | (a << (32 - 2 * f))) | ((b >> (2 * g)) | (b << (32 - 2 * g))))
  {
  }

  lemma TwoBytesFitBelow(a: bv32, f: bv32, b: bv32, g: bv32)
    requires a <= 0xff && b <= 0xff && f <= 15 && g <= 15
    ensures FitsBelow(((a >> (2 * f)) | (a << (32 - 2 * f))) | ((b >> (2 * g)) | (b << (32 - 2 * g))))
  {
  }

  lemma BothFit(b1: bv32, f1: bv32, b2: bv32, f2: bv32)
    requires AreBytes(b1, f1, b2, f2)
    ensures FitsAtTop(Both(b1, f1, b2, f2)) && FitsBelow(Both(b1, f1, b2, f2))
  {
    hide FitsAtTop, FitsBelow, Both;
    BothInline(b1, f1, b2, f2);
    TwoBytesFitAtTop(b1, f1, b2, f2);
    TwoBytesFitBelow(b1, f1, b2, f2);
  }

  lemma FitsAtTopMeans(v: bv32)
    requires FitsAtTop(v) && LowByteClear(v) && TopTwoSet(v)
    ensures LowBitsClear(Skipped2(Skipped4(Skipped8(ShiftByte(v)))))
  {
    hide Skipped8, Skipped4, Skipped2;
  }

  lemma FitsBelowMeans(v: bv32)
    requires FitsBelow(v) && LowByteClear(v) && !TopTwoSet(v) && !TopByteClear(v)
    ensures LowBitsClear(Skipped2(Skipped4(ShiftByte(Skipped2(Skipped4(v))))))
  {
    hide Skipped8, Skipped4, Skipped2;
  }

  // Two bytes above eight zero bits are always split.
  lemma SplitIsComplete(imm: bv32, rol: bv32)
    requires LowByteClear(imm) && IsTwoBytes(imm)
    ensures SplitOf(imm, rol).Split?
  {
    hide Both, Op2, ByteAt, ShiftByte, NextField, SkipTop, SkipSix, TopByteClear, TopTwoSet, LowByteClear, LowBitsClear,
      TopByte, FitsAtTop, FitsBelow, Skipped8, Skipped4, Skipped2;
    var b1: bv32, f1: bv32, b2: bv32, f2: bv32 :| AreBytes(b1, f1, b2, f2) && Both(b1, f1, b2, f2) == imm;
    BothFit(b1, f1, b2, f2);
    if !TopByteClear(imm) {
      if TopTwoSet(imm) {
        FitsAtTopMeans(imm);
        SkipTopIs(ShiftByte(imm), NextField(rol));
      } else {
        FitsBelowMeans(imm);
        SkipTopIs(imm, rol);
        var (first, r1) := SkipSix(imm, rol);
        SkipTopIs(ShiftByte(first), NextField(r1));
      }
    }
  }

  // ---- Turning keeps two bytes two bytes -----------------------------------------------------------------

  // Rotating back takes away from the rotation, one place at a time.
  lemma {:induction false} RotateBack(x: bv32, k: bv32, n: bv32)
    requires k <= 31 && n <= 31
    ensures RotateLeft(RotateRight(x, k), n) == RotateRight(x, (k - n) & 31)
    decreases n
  {
    hide RotateLeft, RotateRight, TurnOnce;
    if n == 0 {
      RotateByNone(x, k);
    } else {
      RotateBack(x, k, n - 1);
      LeftByOneMore(RotateRight(x, k), n - 1);
      RightByOneLess(x, (k - (n - 1)) & 31);
      AmountsAgree(k, n);
    }
  }

  lemma RotateByNone(x: bv32, k: bv32)
    requires k <= 31
    ensures RotateLeft(RotateRight(x, k), 0) == RotateRight(x, k) && (k - 0) & 31 == k
  {
  }

  function TurnOnce(v: bv32): bv32 { (v << 1) | (v >> 31) }

  lemma LeftByOneMore(v: bv32, n: bv32)
    requires n <= 30
    ensures RotateLeft(v, n + 1) == TurnOnce(RotateLeft(v, n))
  {
    TurnedOnceMore(v, n);
    LeftByNext(v, n);
    hide RotateLeft, TurnOnce, NextLeft;
  }

  function NextLeft(v: bv32, n: bv32): bv32
    requires n <= 30
  {
    (v << (n + 1)) | (v >> (31 - n))
  }

  lemma TurnedOnceMore(v: bv32, n: bv32)
    requires n <= 30
    ensures TurnOnce(RotateLeft(v, n)) == NextLeft(v, n)
  {
  }

  lemma LeftByNext(v: bv32, n: bv32)
    requires n <= 30
    ensures RotateLeft(v, n + 1) == NextLeft(v, n)
  {
  }

  lemma RightByOneLess(x: bv32, m: bv32)
    requires m <= 31
    ensures TurnOnce(RotateRight(x, m)) == RotateRight(x, (m - 1) & 31)
  {
  }

  lemma AmountsAgree(k: bv32, n: bv32)
    ensures (k - (n - 1)) & 31 <= 31 && (((k - (n - 1)) & 31) - 1) & 31 == (k - n) & 31
  {
  }

  function LeftPart(v: bv32, n: bv32): bv32
    requires n <= 32
  {
    v << n
  }

  function RightPart(v: bv32, n: bv32): bv32
    requires n <= 32
  {
    v >> (32 - n)
  }

  lemma LeftPartOfOr(x: bv32, y: bv32, n: bv32)
    requires n <= 32
    ensures LeftPart(x | y, n) == LeftPart(x, n) | LeftPart(y, n)
  {
  }

  lemma RightPartOfOr(x: bv32, y: bv32, n: bv32)
    requires n <= 32
    ensures RightPart(x | y, n) == RightPart(x, n) | RightPart(y, n)
  {
  }

  lemma OrsSwap(a: bv32, b: bv32, c: bv32, d: bv32)
    ensures Or(Or(a, b), Or(c, d)) == Or(Or(a, c), Or(b, d))
  {
    assert (a | b) | (c | d) == (a | c) | (b | d);
  }

  lemma PartsOfOr(x: bv32, y: bv32, n: bv32)
    requires n <= 32
    ensures LeftPart(Or(x, y), n) == Or(LeftPart(x, n), LeftPart(y, n))
    ensures RightPart(Or(x, y), n) == Or(RightPart(x, n), RightPart(y, n))
  {
    hide LeftPart, RightPart;
    LeftPartOfOr(x, y, n);
    RightPartOfOr(x, y, n);
  }

  lemma RotateIsParts(v: bv32, n: bv32)
    requires n <= 32
    ensures RotateLeft(v, n) == Or(LeftPart(v, n), RightPart(v, n))
  {
  }

  lemma RotateOr(x: bv32, y: bv32, n: bv32)
    requires n <= 31
    ensures RotateLeft(Or(x, y), n) == Or(RotateLeft(x, n), RotateLeft(y, n))
  {
    hide RotateLeft, LeftPart, RightPart, Or;
    RotateIsParts(Or(x, y), n);
    RotateIsParts(x, n);
    RotateIsParts(y, n);
    PartsOfOr(x, y, n);
    OrsSwap(LeftPart(x, n), LeftPart(y, n), RightPart(x, n), RightPart(y, n));
  }

  function TurnOf(rol: bv32): bv32 { (2 * rol + 24) & 31 }
  function FieldBack(field: bv32, rol: bv32): bv32 { (field - rol + 4) & 15 }

  lemma FieldsBack(f: bv32, rol: bv32)
    requires f <= 15
    ensures (2 * FieldBack(f, rol)) & 31 == (2 * f - TurnOf(rol)) & 31 && FieldBack(f, rol) <= 15
    ensures TurnOf(rol) & 1 == 0 && TurnOf(rol) <= 31
  {
    assert (2 * ((f - rol + 4) & 15)) & 31 == (2 * f - ((2 * rol + 24) & 31)) & 31;
    assert ((2 * rol + 24) & 31) & 1 == 0;
  }

  lemma ByteTurnsBack(b: bv32, f: bv32, n: bv32)
    requires n <= 31 && f <= 15
    ensures RotateLeft(Decoded(b, f), n) == RotateRight(b, (2 * f - n) & 31)
  {
    RotateBack(b, (2 * f) & 31, n);
    hide RotateLeft, RotateRight;
    assert (2 * f) & 31 == 2 * f;
  }

  lemma DecodedTurnsBack(b: bv32, f: bv32, rol: bv32)
    requires f <= 15 && b <= 0xff
    ensures TurnOf(rol) <= 31 && RotateLeft(Decoded(b, f), TurnOf(rol)) == Decoded(b, FieldBack(f, rol))
  {
    FieldsBack(f, rol);
    ByteTurnsBack(b, f, TurnOf(rol));
    assert Decoded(b, FieldBack(f, rol)) == RotateRight(b, (2 * FieldBack(f, rol)) & 31);
    hide Decoded, RotateRight, RotateLeft, TurnOf, FieldBack;
  }

  lemma TurnedBack(imm: bv32, rol: bv32)
    ensures TurnOf(rol) <= 31 && RotateLeft(Turned(imm, rol), TurnOf(rol)) == imm
  {
    FieldsBack(0, rol);
    RotateBack(imm, TurnOf(rol), TurnOf(rol));
    RotateByNone(imm, 0);
    assert Turned(imm, rol) == RotateRight(imm, TurnOf(rol));
    hide RotateLeft, RotateRight, TurnOf, Turned;
  }

  lemma BothTurnBack(b1: bv32, f1: bv32, b2: bv32, f2: bv32, rol: bv32)
    requires AreBytes(b1, f1, b2, f2)
    ensures TurnOf(rol) <= 31 && AreBytes(b1, FieldBack(f1, rol), b2, FieldBack(f2, rol))
    ensures RotateLeft(Both(b1, f1, b2, f2), TurnOf(rol)) == Both(b1, FieldBack(f1, rol), b2, FieldBack(f2, rol))
  {
    hide Decoded, RotateLeft, TurnOf, FieldBack, Or;
    FieldsBack(f1, rol);
    FieldsBack(f2, rol);
    DecodedTurnsBack(b1, f1, rol);
    DecodedTurnsBack(b2, f2, rol);
    RotateOr(Decoded(b1, f1), Decoded(b2, f2), TurnOf(rol));
  }

  lemma TwoBytesTurn(imm: bv32, rol: bv32)
    requires IsTwoBytes(Turned(imm, rol))
    ensures IsTwoBytes(imm)
  {
    hide Both, AreBytes, Turned, RotateLeft, TurnOf, FieldBack;
    var v := Turned(imm, rol);
    var b1: bv32, f1: bv32, b2: bv32, f2: bv32 :| AreBytes(b1, f1, b2, f2) && Both(b1, f1, b2, f2) == v;
    TurnedBack(imm, rol);
    BothTurnBack(b1, f1, b2, f2, rol);
  }
}
