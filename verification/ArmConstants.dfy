// ARMAssembler's ways of getting a 32-bit constant into a register or an operand, and the
// instructions of MacroAssemblerARM that use them.
module ArmConstants {
  import opened SignedWords
  import opened ArmImmediates

  // Destination registers, operand registers and operand-2 words.
  datatype Insn =
    | Mov(rd: bv4, op2: bv32)
    | Mvn(rd: bv4, op2: bv32)
    | Orr(rd: bv4, rn: bv4, op2: bv32)
    | Bic(rd: bv4, rn: bv4, op2: bv32)
    | And(rd: bv4, rn: bv4, op2: bv32)
    | Add(rd: bv4, rn: bv4, op2: bv32)
    | Sub(rd: bv4, rn: bv4, op2: bv32)
    | AddShifted(rd: bv4, rn: bv4, rm: bv4, shift: bv5)
    | MovW(rd: bv4, field: bv32)
    | MovT(rd: bv4, field: bv32)
    | LdrImm(rd: bv4, constant: bv32)

  type Regs = bv4 -> bv32

  // The scratch register.
  const S0: bv4 := 3

  function Not(v: bv32): bv32 { !v }
  function AndWords(x: bv32, y: bv32): bv32 { x & y }

  predicate HasImm(op2: bv32) { op2 & OP2_IMM != 0 }
  function RegisterOf(op2: bv32): bv4 { (op2 & 15) as bv4 }

  function Operand(op2: bv32, regs: Regs): bv32
  {
    if HasImm(op2) then Op2Value(op2) else regs(RegisterOf(op2))
  }

  // imm4:imm12 of movw and movt.
  function Field16(v: bv32): bv32 { ((v & 0xf000) << 4) | (v & 0xfff) }
  function Imm16(field: bv32): bv32 { ((field >> 4) & 0xf000) | (field & 0xfff) }
  function WithTop(low: bv32, top: bv32): bv32 { (low & 0xffff) | (top << 16) }

  function Write(regs: Regs, r: bv4, v: bv32): Regs { (i: bv4) => if i == r then v else regs(i) }

  // A literal load yields the constant it was given; modules CodeLayout and ArmMachine say why.
  function Exec(i: Insn, regs: Regs): Regs
  {
    match i
    case Mov(rd, op2) => Write(regs, rd, Operand(op2, regs))
    case Mvn(rd, op2) => Write(regs, rd, Not(Operand(op2, regs)))
    case Orr(rd, rn, op2) => Write(regs, rd, Or(regs(rn), Operand(op2, regs)))
    case Bic(rd, rn, op2) => Write(regs, rd, AndWords(regs(rn), Not(Operand(op2, regs))))
    case And(rd, rn, op2) => Write(regs, rd, AndWords(regs(rn), Operand(op2, regs)))
    case Add(rd, rn, op2) => Write(regs, rd, Sum(regs(rn), Operand(op2, regs)))
    case Sub(rd, rn, op2) => Write(regs, rd, Difference(regs(rn), Operand(op2, regs)))
    case AddShifted(rd, rn, rm, shift) => Write(regs, rd, Sum(regs(rn), Shifted(regs(rm), shift)))
    case MovW(rd, field) => Write(regs, rd, Imm16(field))
    case MovT(rd, field) => Write(regs, rd, WithTop(regs(rd), Imm16(field)))
    case LdrImm(rd, constant) => Write(regs, rd, constant)
  }

  function Run(code: seq<Insn>, regs: Regs): Regs
  {
    if code == [] then regs else Run(code[1..], Exec(code[0], regs))
  }

  // Whatever the registers held, the code leaves v in rd and the others alone.
  ghost predicate Moves(code: seq<Insn>, rd: bv4, v: bv32)
  {
    forall regs: Regs :: var r := Run(code, regs); r(rd) == v && forall i :: i != rd ==> r(i) == regs(i)
  }

  predicate UsesPool(code: seq<Insn>) { exists k :: 0 <= k < |code| && code[k].LdrImm? }

  // ---- Steps --------------------------------------------------------------------------------

  lemma ImmOperand(op2: bv32, regs: Regs)
    requires IsOp2(op2)
    ensures Operand(op2, regs) == Op2Value(op2) && HasImm(op2)
  {
    HasImmBit(op2);
    hide Op2Value, HasImm, IsOp2;
  }

  lemma HasImmBit(op2: bv32)
    requires IsOp2(op2)
    ensures HasImm(op2)
  {
  }

  lemma OneMoves(i: Insn, rd: bv4, v: bv32)
    requires forall regs: Regs :: Exec(i, regs) == Write(regs, rd, v)
    ensures Moves([i], rd, v)
  {
    hide Exec;
    forall regs: Regs ensures Run([i], regs) == Write(regs, rd, v) {
      assert Run([i], regs) == Run([], Exec(i, regs));
    }
  }

  lemma TwoMove(i: Insn, j: Insn, rd: bv4, u: bv32, v: bv32)
    requires forall regs: Regs :: Exec(i, regs) == Write(regs, rd, u)
    requires forall regs: Regs :: regs(rd) == u ==> Exec(j, regs) == Write(regs, rd, v)
    ensures Moves([i, j], rd, v)
  {
    hide Exec;
    forall regs: Regs ensures Run([i, j], regs) == Write(Write(regs, rd, u), rd, v) {
      assert Run([i, j], regs) == Run([j], Exec(i, regs));
      assert Run([j], Exec(i, regs)) == Run([], Exec(j, Exec(i, regs)));
    }
  }

  lemma NotNot(v: bv32)
    ensures Not(Not(v)) == v
  {
  }

  lemma DeMorgan(x: bv32, y: bv32)
    ensures AndWords(Not(x), Not(y)) == Not(Or(x, y))
  {
  }

  // ---- genInt ----------------------------------------------------------------------------------

  lemma SplitMoves(reg: bv4, s: Split, v: bv32, positive: bool)
    requires s.Split? && AreOp2(s) && Joined(s) == v
    ensures Moves(if positive then [Mov(reg, s.imm1), Orr(reg, reg, s.imm2)] else [Mvn(reg, s.imm1), Bic(reg, reg, s.imm2)],
                  reg, if positive then v else Not(v))
  {
    hide Op2Value, HasImm, IsOp2, Moves, Or, Not, AndWords, Operand, RegisterOf;
    var d1, d2 := Op2Value(s.imm1), Op2Value(s.imm2);
    forall regs: Regs ensures Operand(s.imm1, regs) == d1 && Operand(s.imm2, regs) == d2 {
      ImmOperand(s.imm1, regs);
      ImmOperand(s.imm2, regs);
    }
    JoinedIs(s);
    if positive {
      TwoMove(Mov(reg, s.imm1), Orr(reg, reg, s.imm2), reg, d1, v);
    } else {
      DeMorgan(d1, d2);
      TwoMove(Mvn(reg, s.imm1), Bic(reg, reg, s.imm2), reg, Not(d1), Not(v));
    }
  }

  lemma JoinedIs(s: Split)
    requires s.Split?
    ensures Joined(s) == Or(Op2Value(s.imm1), Op2Value(s.imm2))
  {
    hide Op2Value;
  }

  // Two instructions exactly if two rotated bytes make up the number; otherwise nothing.
  method GenInt(reg: bv4, imm: bv32, positive: bool) returns (found: bool, code: seq<Insn>)
    ensures found <==> IsTwoBytes(imm)
    ensures found ==> |code| == 2 && !UsesPool(code) && Moves(code, reg, if positive then imm else Not(imm))
    ensures !found ==> code == []
  {
    hide IsTwoBytes, Moves, SplitOf, Turned, FirstMissed, SecondMissed, RotateLeft, LowByteClear, AreOp2, Joined, Not;
    var cleared, turned, rol := FindZeroByte(imm);
    if !cleared {
      MissedIsNotTwoBytes(imm);
      return false, [];
    }
    var s := SplitOf(turned, rol);
    if s.NoSplit? {
      if IsTwoBytes(imm) {
        TwoBytesTurn(turned, rol);
        SplitIsComplete(turned, rol);
      }
      return false, [];
    }
    SplitIsSound(turned, rol);
    SplitIsTwoBytes(turned, rol);
    SplitMoves(reg, s, imm, positive);
    if positive {
      return true, [Mov(reg, s.imm1), Orr(reg, reg, s.imm2)];
    }
    return true, [Mvn(reg, s.imm1), Bic(reg, reg, s.imm2)];
  }

  lemma OperandIsByte(w: bv32)
    ensures w & 0xff <= 0xff && (w >> 8) & 15 <= 15
  {
  }

  lemma SplitIsTwoBytes(imm: bv32, rol: bv32)
    requires SplitOf(imm, rol).Split? && Joined(SplitOf(imm, rol)) == Turned(imm, rol)
    ensures IsTwoBytes(Turned(imm, rol))
  {
    hide SplitOf, Turned, Decoded, Or;
    var s := SplitOf(imm, rol);
    JoinedIs(s);
    OperandIsByte(s.imm1);
    OperandIsByte(s.imm2);
    assert AreBytes(s.imm1 & 0xff, (s.imm1 >> 8) & 15, s.imm2 & 0xff, (s.imm2 >> 8) & 15);
    assert Both(s.imm1 & 0xff, (s.imm1 >> 8) & 15, s.imm2 & 0xff, (s.imm2 >> 8) & 15) == Turned(imm, rol);
  }

  // ---- moveImm -----------------------------------------------------------------------------------

  lemma MovMoves(rd: bv4, v: bv32)
    requires IsRotatedByte(v)
    ensures Op2Of(v) != INVALID_IMM && Moves([Mov(rd, Op2Of(v))], rd, v)
  {
    hide Op2Value, HasImm, IsOp2, Moves, Operand, RegisterOf, Op2Of, IsRotatedByte, Write;
    Op2Iff(v);
    forall regs: Regs ensures Exec(Mov(rd, Op2Of(v)), regs) == Write(regs, rd, v) { ImmOperand(Op2Of(v), regs); }
    OneMoves(Mov(rd, Op2Of(v)), rd, v);
  }

  lemma MvnMoves(rd: bv4, v: bv32)
    requires IsRotatedByte(Not(v))
    ensures Op2Of(Not(v)) != INVALID_IMM && Moves([Mvn(rd, Op2Of(Not(v)))], rd, v)
  {
    hide Op2Value, HasImm, IsOp2, Moves, Operand, RegisterOf, Op2Of, IsRotatedByte, Write, Not;
    Op2Iff(Not(v));
    NotNot(v);
    var w := Op2Of(Not(v));
    forall regs: Regs ensures Exec(Mvn(rd, w), regs) == Write(regs, rd, v) { ImmOperand(w, regs); }
    OneMoves(Mvn(rd, w), rd, v);
  }

  lemma LdrMoves(rd: bv4, v: bv32)
    ensures Moves([LdrImm(rd, v)], rd, v)
  {
    hide Moves, Write;
    OneMoves(LdrImm(rd, v), rd, v);
  }

  function LowHalf(v: bv32): bv32 { v & 0xffff }
  function TopHalf(v: bv32): bv32 { v >> 16 }

  lemma Field16Bits(v: bv32)
    requires v <= 0xffff
    ensures Imm16(((v & 0xf000) << 4) | (v & 0xfff)) == v
  {
  }

  lemma Field16RoundTrips(v: bv32)
    requires v <= 0xffff
    ensures Imm16(Field16(v)) == v
  {
    hide Imm16;
    Field16Bits(v);
  }

  lemma HalvesAreSmall(v: bv32)
    ensures LowHalf(v) <= 0xffff && TopHalf(v) <= 0xffff && WithTop(LowHalf(v), TopHalf(v)) == v
  {
    assert v & 0xffff <= 0xffff && v >> 16 <= 0xffff;
    assert ((v & 0xffff) & 0xffff) | ((v >> 16) << 16) == v;
  }

  lemma MovwMoves(rd: bv4, v: bv32)
    requires v <= 0xffff
    ensures Moves([MovW(rd, Field16(v))], rd, v)
  {
    hide Moves, Write, Imm16, Field16;
    Field16RoundTrips(v);
    OneMoves(MovW(rd, Field16(v)), rd, v);
  }

  lemma MovwMovtMove(rd: bv4, v: bv32)
    ensures Moves([MovW(rd, Field16(LowHalf(v))), MovT(rd, Field16(TopHalf(v)))], rd, v)
  {
    hide Moves, Write, Imm16, Field16, LowHalf, TopHalf, WithTop;
    HalvesAreSmall(v);
    Field16RoundTrips(LowHalf(v));
    Field16RoundTrips(TopHalf(v));
    TwoMove(MovW(rd, Field16(LowHalf(v))), MovT(rd, Field16(TopHalf(v))), rd, LowHalf(v), v);
  }

  // What needs a constant from the pool, where there is no movw.
  ghost predicate IsComplex(imm: bv32) { !IsTwoBytes(imm) && !IsTwoBytes(Not(imm)) }

  // encodeComplexImm, for ARMv7 and for older cores.
  method EncodeComplexImm(imm: bv32, dest: bv4, armv7: bool) returns (code: seq<Insn>)
    ensures Moves(code, dest, imm)
    ensures |code| == if (if armv7 then imm <= 0xffff else IsComplex(imm)) then 1 else 2
    ensures UsesPool(code) <==> !armv7 && IsComplex(imm)
  {
    hide Moves, IsTwoBytes, Not, Field16;
    if armv7 {
      if imm <= 0xffff {
        MovwMoves(dest, imm);
        return [MovW(dest, Field16(imm))];
      }
      MovwMovtMove(dest, imm);
      return [MovW(dest, Field16(LowHalf(imm))), MovT(dest, Field16(TopHalf(imm)))];
    }
    var found: bool;
    found, code := GenInt(dest, imm, true);
    if found {
      return code;
    }
    NotNot(imm);
    found, code := GenInt(dest, Not(imm), false);
    if found {
      return code;
    }
    LdrMoves(dest, imm);
    code := [LdrImm(dest, imm)];
    assert code[0].LdrImm?;
  }

  // moveImm leaves exactly the constant, whatever it is, in at most two instructions; the pool
  // is used only if neither the number nor its complement has a shorter form.
  method MoveImm(imm: bv32, dest: bv4, armv7: bool) returns (code: seq<Insn>)
    ensures Moves(code, dest, imm)
    ensures |code| == if IsRotatedByte(imm) || IsRotatedByte(Not(imm)) || (if armv7 then imm <= 0xffff else IsComplex(imm))
                      then 1 else 2
    ensures UsesPool(code) <==> !armv7 && !IsRotatedByte(imm) && !IsRotatedByte(Not(imm)) && IsComplex(imm)
  {
    hide Moves, IsComplex, Not, IsRotatedByte, Op2Of, IsOp2, Op2Value;
    var tmp := GetOp2(imm);
    if tmp != INVALID_IMM {
      MovMoves(dest, imm);
      return [Mov(dest, tmp)];
    }
    tmp := GetOp2(Not(imm));
    if tmp != INVALID_IMM {
      MvnMoves(dest, imm);
      return [Mvn(dest, tmp)];
    }
    code := EncodeComplexImm(imm, dest, armv7);
  }

  // ---- getImm and its clients -------------------------------------------------------------------

  predicate IsInverted(w: bv32) { w & OP2_INV_IMM != 0 }
  function Inverted(w: bv32): bv32 { w | OP2_INV_IMM }
  function Uninverted(w: bv32): bv32 { w & !OP2_INV_IMM }
  function RegisterWord(r: bv4): bv32 { r as bv32 }

  lemma InvertedBits(w: bv32)
    requires w & 0xffff_f000 == 0x0200_0000
    ensures IsInverted(w | 0x0400_0000) && Uninverted(w | 0x0400_0000) == w && !IsInverted(w)
  {
  }

  lemma InvertedRoundTrips(w: bv32)
    requires IsOp2(w)
    ensures IsInverted(Inverted(w)) && Uninverted(Inverted(w)) == w && !IsInverted(w)
  {
    hide IsInverted, Uninverted;
    InvertedBits(w);
  }

  lemma RegisterWords(r: bv4)
    ensures !HasImm(RegisterWord(r)) && !IsInverted(RegisterWord(r)) && RegisterOf(RegisterWord(r)) == r
  {
  }

  // An operand word for imm: an immediate; the marked immediate of its complement, if the
  // caller can invert; or the register that the code loads.
  ghost predicate StandsFor(w: bv32, code: seq<Insn>, imm: bv32, tmp: bv4, invert: bool)
  {
    if IsInverted(w) then invert && code == [] && IsOp2(Uninverted(w)) && Op2Value(Uninverted(w)) == Not(imm)
    else if HasImm(w) then code == [] && IsOp2(w) && Op2Value(w) == imm
    else w == RegisterWord(tmp) && Moves(code, tmp, imm)
  }

  method GetImm(imm: bv32, tmpReg: bv4, invert: bool, armv7: bool) returns (w: bv32, code: seq<Insn>)
    ensures StandsFor(w, code, imm, tmpReg, invert)
    ensures HasImm(w) && !IsInverted(w) <==> IsRotatedByte(imm)
    ensures IsInverted(w) <==> invert && !IsRotatedByte(imm) && IsRotatedByte(Not(imm))
  {
    hide Moves, IsComplex, Not, IsRotatedByte, Op2Of, IsOp2, Op2Value, HasImm, IsInverted, Inverted, Uninverted,
      RegisterWord, RegisterOf;
    RegisterWords(tmpReg);
    var tmp := GetOp2(imm);
    if tmp != INVALID_IMM {
      HasImmBit(tmp);
      InvertedRoundTrips(tmp);
      return tmp, [];
    }
    tmp := GetOp2(Not(imm));
    if tmp != INVALID_IMM {
      if invert {
        InvertedRoundTrips(tmp);
        return Inverted(tmp), [];
      }
      MvnMoves(tmpReg, imm);
      return RegisterWord(tmpReg), [Mvn(tmpReg, tmp)];
    }
    code := EncodeComplexImm(imm, tmpReg, armv7);
    return RegisterWord(tmpReg), code;
  }

  lemma AndMasks(x: bv32, imm: bv32)
    ensures AndWords(x, Not(Not(imm))) == AndWords(x, imm)
  {
    NotNot(imm);
    hide Not;
  }

  lemma {:induction false} RunAppend(code: seq<Insn>, i: Insn, regs: Regs)
    ensures Run(code + [i], regs) == Exec(i, Run(code, regs))
    decreases |code|
  {
    hide Exec;
    if code == [] {
      assert code + [i] == [i];
      assert Run([i], regs) == Run([], Exec(i, regs));
    } else {
      assert (code + [i])[1..] == code[1..] + [i];
      RunAppend(code[1..], i, Exec(code[0], regs));
    }
  }

  // The operand of ands, tst and, complemented, of bics: always the mask.
  lemma MaskOperand(w: bv32, code: seq<Insn>, imm: bv32, tmp: bv4, x: bv32, regs: Regs)
    requires StandsFor(w, code, imm, tmp, true)
    ensures if IsInverted(w) then AndWords(x, Not(Operand(Uninverted(w), Run(code, regs)))) == AndWords(x, imm)
            else AndWords(x, Operand(w, Run(code, regs))) == AndWords(x, imm)
    ensures forall r :: r != tmp ==> Run(code, regs)(r) == regs(r)
  {
    hide Not, AndWords, HasImm, IsInverted, Uninverted, RegisterWord, RegisterOf, IsOp2, Op2Value;
    RegisterWords(tmp);
    AndMasks(x, imm);
    if IsInverted(w) {
      ImmOperand(Uninverted(w), Run(code, regs));
    } else if HasImm(w) {
      ImmOperand(w, Run(code, regs));
    }
  }

  // and32: the destination is masked, and only S0 may have been used.
  method And32(imm: bv32, dest: bv4, armv7: bool) returns (code: seq<Insn>)
    requires dest != S0
    ensures forall regs: Regs :: var r := Run(code, regs);
      r(dest) == AndWords(regs(dest), imm) && forall i :: i != dest && i != S0 ==> r(i) == regs(i)
  {
    hide StandsFor, Not, AndWords, HasImm, IsInverted, Uninverted, Operand;
    var w, before := GetImm(imm, S0, true, armv7);
    var last := if IsInverted(w) then Bic(dest, dest, Uninverted(w)) else And(dest, dest, w);
    code := before + [last];
    forall regs: Regs
      ensures Run(code, regs)(dest) == AndWords(regs(dest), imm)
      ensures forall i :: i != dest && i != S0 ==> Run(code, regs)(i) == regs(i)
    {
      RunAppend(before, last, regs);
      MaskOperand(w, before, imm, S0, regs(dest), regs);
    }
  }

  // What sets the flags of branchTest32.
  datatype Test = Bics(rn: bv4, op2: bv32) | Tst(rn: bv4, op2: bv32)

  function Tested(t: Test, regs: Regs): bv32
  {
    match t
    case Bics(rn, op2) => AndWords(regs(rn), Not(Operand(op2, regs)))
    case Tst(rn, op2) => AndWords(regs(rn), Operand(op2, regs))
  }

  // branchTest32: the flags are those of the masked register, in either form.
  method BranchTest32(reg: bv4, mask: bv32, armv7: bool) returns (code: seq<Insn>, test: Test)
    requires reg != S0
    ensures forall regs: Regs :: Tested(test, Run(code, regs)) == AndWords(regs(reg), mask)
    ensures forall regs: Regs, i :: i != S0 ==> Run(code, regs)(i) == regs(i)
  {
    hide StandsFor, Not, AndWords, HasImm, IsInverted, Uninverted, Operand;
    var w: bv32;
    w, code := GetImm(mask, S0, true, armv7);
    test := if IsInverted(w) then Bics(reg, Uninverted(w)) else Tst(reg, w);
    forall regs: Regs
      ensures Tested(test, Run(code, regs)) == AndWords(regs(reg), mask)
      ensures forall i :: i != S0 ==> Run(code, regs)(i) == regs(i)
    {
      MaskOperand(w, code, mask, S0, regs(reg), regs);
    }
  }
}
