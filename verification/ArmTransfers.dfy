// The address arithmetic of ARMAssembler's loads and stores.
module ArmTransfers {
  import opened Options
  import opened SignedWords
  import opened ArmImmediates
  import opened ArmConstants

  // dtr_u, dtr_d, dtr_ur and dtr_dr.  The last two take a register with a shift, of which the
  // word has the encoding.
  datatype Access =
    | Up(rn: bv4, offset: bv32)
    | Down(rn: bv4, offset: bv32)
    | UpRegister(rn: bv4, rm: bv32)
    | DownRegister(rn: bv4, rm: bv32)

  function Negated(x: bv32): bv32 { 0 - x }

  // The shifts of section A8.4 of ARM DDI 0406B.
  function ShiftedBy(kind: bv32, n: bv32, v: bv32, carry: bool): bv32
    requires n <= 31
  {
    if kind == 0 then v << n
    else if kind == 1 then if n == 0 then 0 else v >> n
    else if kind == 2 then
      if n == 0 then Sra31(v) else (v >> n) | (if IsNegative(v) then !(0xffff_ffff >> n) else 0)
    else if n == 0 then (v >> 1) | (if carry then 0x8000_0000 else 0)
    else RotateRight(v, n)
  }

  // With bit 4 set the word is no load or store.
  function RegisterOffset(rm: bv32, regs: Regs, carry: bool): Option<bv32>
  {
    assert (rm >> 7) & 31 <= 31;
    if rm & 16 != 0 then None else Some(ShiftedBy((rm >> 5) & 3, (rm >> 7) & 31, regs(RegisterOf(rm)), carry))
  }

  function Address(a: Access, regs: Regs, carry: bool): Option<bv32>
  {
    match a
    case Up(rn, offset) => Some(Sum(regs(rn), offset))
    case Down(rn, offset) => Some(Difference(regs(rn), offset))
    case UpRegister(rn, rm) =>
      (match RegisterOffset(rm, regs, carry) case Some(o) => Some(Sum(regs(rn), o)) case None => None)
    case DownRegister(rn, rm) =>
      (match RegisterOffset(rm, regs, carry) case Some(o) => Some(Difference(regs(rn), o)) case None => None)
  }

  // A load into register rt, or a store of it, of a word or a byte.
  datatype Transfer = Transfer(isLoad: bool, bytes: bool, rt: bv4, access: Access)

  datatype Effect = LoadInto(rt: bv4, bytes: bool, address: bv32) | StoreOf(value: bv32, bytes: bool, address: bv32)

  function EffectAt(t: Transfer, regs: Regs, address: bv32): Effect
  {
    if t.isLoad then LoadInto(t.rt, t.bytes, address) else StoreOf(regs(t.rt), t.bytes, address)
  }

  function Performs(t: Transfer, regs: Regs, carry: bool): Option<Effect>
  {
    match Address(t.access, regs, carry)
    case Some(a) => Some(EffectAt(t, regs, a))
    case None => None
  }

  lemma PlainRegister(r: bv4, regs: Regs, carry: bool)
    ensures RegisterOffset(RegisterWord(r), regs, carry) == Some(regs(r))
  {
    PlainFields(r);
    RegisterWords(r);
    assert regs(r) << 0 == regs(r);
    hide RegisterOf, RegisterWord;
  }

  lemma PlainFields(r: bv4)
    ensures RegisterWord(r) & 16 == 0 && (RegisterWord(r) >> 5) & 3 == 0 && (RegisterWord(r) >> 7) & 31 == 0
  {
  }

  lemma ZeroStaysZero(kind: bv32, n: bv32)
    requires n <= 31
    ensures ShiftedBy(kind, n, 0, false) == 0
  {
    assert !(0 as bv32 & 0x8000_0000 != 0);
  }

  lemma RunOne(i: Insn, regs: Regs)
    ensures Run([i], regs) == Exec(i, regs)
  {
    hide Exec;
    assert Run([i], regs) == Run([], Exec(i, regs));
  }

  lemma RunTwo(i: Insn, j: Insn, regs: Regs)
    ensures Run([i, j], regs) == Exec(j, Exec(i, regs))
  {
    hide Exec;
    assert Run([i, j], regs) == Run([j], Exec(i, regs));
    RunOne(j, Exec(i, regs));
  }

  // ---- Base and offset ----------------------------------------------------------------------

  // An offset of at most twenty bits: its upper eight as a rotated byte, and its lower twelve.
  function UpperPart(offset: bv32): bv32 { OP2_IMM | (offset >> 12) | (10 << 8) }
  function LowerPart(offset: bv32): bv32 { offset & 0xfff }

  lemma UpperPartBits(offset: bv32)
    requires offset <= 0xf_ffff
    ensures (0x0200_0000 | (offset >> 12) | (10 << 8)) & 0xff == offset >> 12
    ensures ((0x0200_0000 | (offset >> 12) | (10 << 8)) >> 8) & 15 == 10
    ensures ((offset >> 12) >> 20) | ((offset >> 12) << 12) == offset & 0xf_f000
  {
  }

  function UpperBits(offset: bv32): bv32 { offset & 0xf_f000 }

  lemma UpperValue(offset: bv32)
    requires offset <= 0xf_ffff
    ensures Op2Value(UpperPart(offset)) == UpperBits(offset)
  {
    UpperPartBits(offset);
    assert Decoded(offset >> 12, 10) == ((offset >> 12) >> 20) | ((offset >> 12) << 12);
    hide Decoded;
  }

  lemma PartsAdd(offset: bv32)
    requires offset <= 0xf_ffff
    ensures Sum(UpperBits(offset), LowerPart(offset)) == offset
  {
    assert (offset & 0xf_f000) + (offset & 0xfff) == offset;
  }

  lemma SumsAssociate(x: bv32, u: bv32, l: bv32)
    ensures Sum(Sum(x, u), l) == Sum(x, Sum(u, l))
    ensures Difference(Difference(x, u), l) == Difference(x, Sum(u, l))
  {
    hide Sum, Difference;
    SumsAre(x, u, l);
    DifferencesAre(x, u, l);
    DifferenceIs(x, u);
  }

  lemma SumsAre(x: bv32, u: bv32, l: bv32)
    ensures Sum(x + u, l) == Sum(x, u + l) && Sum(x, u) == x + u && Sum(u, l) == u + l
  {
  }

  lemma DifferencesAre(x: bv32, u: bv32, l: bv32)
    ensures Difference(x - u, l) == Difference(x, u + l)
  {
  }

  lemma DifferenceIs(x: bv32, u: bv32)
    ensures Difference(x, u) == x - u
  {
  }

  lemma UpperIsOp2(offset: bv32)
    requires offset <= 0xf_ffff
    ensures IsOp2(UpperPart(offset))
  {
    assert (0x0200_0000 | (offset >> 12) | (10 << 8)) & 0xffff_f000 == 0x0200_0000;
  }

  lemma PartsReach(x: bv32, offset: bv32, regs: Regs)
    requires offset <= 0xf_ffff
    ensures Sum(Sum(x, Operand(UpperPart(offset), regs)), LowerPart(offset)) == Sum(x, offset)
    ensures Difference(Difference(x, Operand(UpperPart(offset), regs)), LowerPart(offset)) == Difference(x, offset)
  {
    hide Sum, Difference, Op2Value, UpperPart, LowerPart, UpperBits, Operand, IsOp2;
    UpperIsOp2(offset);
    ImmOperand(UpperPart(offset), regs);
    UpperValue(offset);
    PartsAdd(offset);
    SumsAssociate(x, UpperBits(offset), LowerPart(offset));
  }

  lemma SubtractNegated(x: bv32, offset: bv32)
    ensures Difference(x, Negated(offset)) == Sum(x, offset)
  {
    assert x - (0 - offset) == x + offset;
    NegatedIs(x, offset);
    hide Sum, Difference, Negated;
  }

  lemma NegatedIs(x: bv32, offset: bv32)
    ensures Difference(x, 0 - offset) == x - (0 - offset) && Negated(offset) == 0 - offset && Sum(x, offset) == x + offset
  {
  }

  predicate TwelveBits(m: bv32) { m <= 0xfff }
  predicate TwentyBits(m: bv32) { m <= 0xf_ffff }

  function Magnitude(offset: bv32): bv32 { if IsNegative(offset) then Negated(offset) else offset }

  // The access goes to base + offset, whatever the registers and the carry flag hold.
  ghost predicate ReachesOffset(code: seq<Insn>, access: Access, base: bv4, offset: bv32)
  {
    forall regs: Regs, carry: bool :: Address(access, Run(code, regs), carry) == Some(Sum(regs(base), offset))
  }

  function OffsetFrom(base: bv4, offset: bv32): Regs -> bv32 { (regs: Regs) => Sum(regs(base), offset) }

  lemma ReachesOffsetIs(code: seq<Insn>, access: Access, base: bv4, offset: bv32)
    ensures ReachesTarget(code, access, OffsetFrom(base, offset)) <==> ReachesOffset(code, access, base, offset)
  {
    hide Run, Address, Sum;
    var target := OffsetFrom(base, offset);
    assert forall regs: Regs :: target(regs) == Sum(regs(base), offset);
    if ReachesTarget(code, access, target) {
      forall regs: Regs, carry: bool ensures Address(access, Run(code, regs), carry) == Some(Sum(regs(base), offset)) {
        assert Address(access, Run(code, regs), carry) == Some(target(regs));
      }
    }
    if ReachesOffset(code, access, base, offset) {
      forall regs: Regs, carry: bool ensures Address(access, Run(code, regs), carry) == Some(target(regs)) {
        assert Address(access, Run(code, regs), carry) == Some(Sum(regs(base), offset));
      }
    }
  }

  // Code and transfer do what was asked, whatever the registers and the carry flag hold.
  ghost predicate Transfers(
      code: seq<Insn>, t: Transfer, isLoad: bool, bytes: bool, srcDst: bv4, target: Regs -> bv32)
  {
    forall regs: Regs, carry: bool :: Performs(t, Run(code, regs), carry)
      == Some(if isLoad then LoadInto(srcDst, bytes, target(regs)) else StoreOf(regs(srcDst), bytes, target(regs)))
  }

  ghost predicate ReachesTarget(code: seq<Insn>, access: Access, target: Regs -> bv32)
  {
    forall regs: Regs, carry: bool :: Address(access, Run(code, regs), carry) == Some(target(regs))
  }

  ghost predicate Keeps(code: seq<Insn>, r: bv4) { forall regs: Regs :: Run(code, regs)(r) == regs(r) }

  lemma TransfersIff(code: seq<Insn>, access: Access, isLoad: bool, bytes: bool, srcDst: bv4, target: Regs -> bv32)
    ensures Transfers(code, Transfer(isLoad, bytes, srcDst, access), isLoad, bytes, srcDst, target)
      <==> ReachesTarget(code, access, target) && (isLoad || Keeps(code, srcDst))
  {
    hide Run, Address;
    var t := Transfer(isLoad, bytes, srcDst, access);
    if Transfers(code, t, isLoad, bytes, srcDst, target) {
      forall regs: Regs, carry: bool ensures Address(access, Run(code, regs), carry) == Some(target(regs)) {
        assert Performs(t, Run(code, regs), carry).Some?;
      }
      forall regs: Regs ensures isLoad || Run(code, regs)(srcDst) == regs(srcDst) {
        assert Performs(t, Run(code, regs), false).Some?;
      }
    }
    if ReachesTarget(code, access, target) && (isLoad || Keeps(code, srcDst)) {
      forall regs: Regs, carry: bool
        ensures Performs(t, Run(code, regs), carry)
          == Some(if isLoad then LoadInto(srcDst, bytes, target(regs)) else StoreOf(regs(srcDst), bytes, target(regs)))
      {
        assert Address(access, Run(code, regs), carry) == Some(target(regs));
      }
    }
  }

  // All registers zero but the scratch register.
  function OnlyScratch(x: bv32): Regs { (i: bv4) => if i == S0 then x else 0 }

  // Code that gives the scratch register a value that does not depend on it does not keep it.
  lemma ScratchIsLost(code: seq<Insn>, c: bv32)
    requires forall x :: Run(code, OnlyScratch(x))(S0) == c
    ensures !Keeps(code, S0)
  {
    hide Run;
    NextIsOther(c);
    assert OnlyScratch(c + 1)(S0) == c + 1;
    assert Run(code, OnlyScratch(c + 1))(S0) == c;
  }

  lemma NextIsOther(c: bv32)
    ensures c + 1 != c
  {
  }

  ghost predicate LeavesOthers(code: seq<Insn>)
  {
    forall regs: Regs, i :: i != S0 ==> Run(code, regs)(i) == regs(i)
  }

  function Signed(up: bool, x: bv32, m: bv32): bv32 { if up then Sum(x, m) else Difference(x, m) }

  lemma SignedMagnitude(x: bv32, offset: bv32)
    ensures Signed(!IsNegative(offset), x, Magnitude(offset)) == Sum(x, offset)
  {
    hide Sum, Difference, Negated, IsNegative;
    SubtractNegated(x, offset);
  }

  function ImmediateAccess(up: bool, rn: bv4, m: bv32): Access { if up then Up(rn, m) else Down(rn, m) }
  function RegisterAccess(up: bool, rn: bv4, rm: bv32): Access { if up then UpRegister(rn, rm) else DownRegister(rn, rm) }
  function AddOrSub(up: bool, rd: bv4, rn: bv4, op2: bv32): Insn { if up then Add(rd, rn, op2) else Sub(rd, rn, op2) }

  lemma ShortAccessReaches(base: bv4, offset: bv32)
    ensures ReachesOffset([], ImmediateAccess(!IsNegative(offset), base, Magnitude(offset)), base, offset)
    ensures LeavesOthers([])
  {
    hide Sum, Difference, Magnitude, IsNegative;
    var access := ImmediateAccess(!IsNegative(offset), base, Magnitude(offset));
    forall regs: Regs, carry: bool ensures Address(access, Run([], regs), carry) == Some(Sum(regs(base), offset)) {
      SignedMagnitude(regs(base), offset);
    }
  }

  lemma MiddleAccessReaches(base: bv4, offset: bv32)
    requires TwentyBits(Magnitude(offset))
    ensures var up, m := !IsNegative(offset), Magnitude(offset); var code := MiddleCode(up, base, m);
      ReachesOffset(code, ImmediateAccess(up, S0, LowerPart(m)), base, offset) && LeavesOthers(code)
  {
    hide Sum, Difference, Magnitude, IsNegative, UpperPart, LowerPart, Operand, Run;
    var up, m := !IsNegative(offset), Magnitude(offset);
    var code := MiddleCode(up, base, m);
    forall regs: Regs, carry: bool
      ensures Address(ImmediateAccess(up, S0, LowerPart(m)), Run(code, regs), carry) == Some(Sum(regs(base), offset))
    {
      RunOne(code[0], regs);
      PartsReach(regs(base), m, regs);
      SignedMagnitude(regs(base), offset);
    }
    forall regs: Regs, i | i != S0 ensures Run(code, regs)(i) == regs(i) {
      RunOne(code[0], regs);
    }
  }

  const ZEROS: Regs := (i: bv4) => 0

  lemma NotZero(offset: bv32)
    requires Magnitude(offset) > 0xf_ffff
    ensures !IsNegative(offset) ==> Sum(0, offset) == Magnitude(offset)
    ensures Sum(0, offset) != 0 && Sum(0, 0) == 0 && Difference(0, 0) == 0
    ensures Sum(Magnitude(offset), Magnitude(offset)) != Magnitude(offset)
    ensures Difference(Magnitude(offset), Magnitude(offset)) == 0
  {
  }

  lemma LongAccess(w: bv32, code: seq<Insn>, base: bv4, offset: bv32)
    requires StandsFor(w, code, Magnitude(offset), S0, false) && !HasImm(w) && base != S0
    ensures ReachesOffset(code, RegisterAccess(!IsNegative(offset), base, w), base, offset)
  {
    hide Sum, Difference, Magnitude, IsNegative, HasImm, RegisterWord, Run, IsInverted, RegisterOffset;
    RegisterWords(S0);
    var access := RegisterAccess(!IsNegative(offset), base, w);
    forall regs: Regs, carry: bool ensures Address(access, Run(code, regs), carry) == Some(Sum(regs(base), offset)) {
      PlainRegister(S0, Run(code, regs), carry);
      SignedMagnitude(regs(base), offset);
    }
  }

  // The base is overwritten before it is used.
  lemma LongAccessFromScratch(w: bv32, code: seq<Insn>, offset: bv32)
    requires StandsFor(w, code, Magnitude(offset), S0, false) && !HasImm(w) && !TwentyBits(Magnitude(offset))
    ensures !ReachesOffset(code, RegisterAccess(!IsNegative(offset), S0, w), S0, offset)
  {
    hide Sum, Difference, Magnitude, IsNegative, HasImm, RegisterWord, Run, IsInverted, RegisterOffset;
    RegisterWords(S0);
    PlainRegister(S0, Run(code, ZEROS), false);
    NotZero(offset);
    SignedMagnitude(0, offset);
    assert ZEROS(S0) == 0;
    assert Address(RegisterAccess(!IsNegative(offset), S0, w), Run(code, ZEROS), false) != Some(Sum(ZEROS(S0), offset));
  }

  // The number is taken for a register.
  lemma LongAccessByNumber(w: bv32, base: bv4, offset: bv32)
    requires !TwentyBits(Magnitude(offset))
    ensures !ReachesOffset([], RegisterAccess(!IsNegative(offset), base, w), base, offset)
  {
    hide Sum, Difference, Magnitude, IsNegative, ShiftedBy;
    assert (w >> 7) & 31 <= 31;
    ZeroStaysZero((w >> 5) & 3, (w >> 7) & 31);
    NotZero(offset);
    NoCode();
    assert Address(RegisterAccess(!IsNegative(offset), base, w), Run([], ZEROS), false) != Some(Sum(ZEROS(base), offset));
  }

  function MiddleCode(up: bool, base: bv4, m: bv32): seq<Insn> { [AddOrSub(up, S0, base, UpperPart(m))] }

  lemma MiddleGives(up: bool, base: bv4, m: bv32, regs: Regs)
    requires m <= 0xf_ffff
    ensures Run(MiddleCode(up, base, m), regs)(S0) == Signed(up, regs(base), UpperBits(m))
  {
    hide UpperPart, Run, UpperBits, Sum, Difference, IsOp2, Op2Value, HasImm, RegisterOf;
    UpperIsOp2(m);
    UpperValue(m);
    RunOne(AddOrSub(up, S0, base, UpperPart(m)), regs);
    ImmOperand(UpperPart(m), regs);
  }

  // The middle form puts a sum into the scratch register.
  lemma MiddleLosesScratch(up: bool, base: bv4, m: bv32)
    requires !TwelveBits(m) && TwentyBits(m)
    ensures !Keeps(MiddleCode(up, base, m), S0)
  {
    hide Run, UpperBits, Sum, Difference, MiddleCode, Signed;
    var code := MiddleCode(up, base, m);
    if base == S0 {
      MiddleGives(up, base, m, ZEROS);
      UpperCounts(up, m);
      assert Run(code, ZEROS)(S0) != ZEROS(S0);
    } else {
      forall x ensures Run(code, OnlyScratch(x))(S0) == Signed(up, 0, UpperBits(m)) {
        MiddleGives(up, base, m, OnlyScratch(x));
      }
      ScratchIsLost(code, Signed(up, 0, UpperBits(m)));
    }
  }

  lemma UpperCounts(up: bool, m: bv32)
    requires 0xfff < m <= 0xf_ffff
    ensures Signed(up, 0, UpperBits(m)) != 0
  {
  }

  lemma LongLosesScratch(code: seq<Insn>, m: bv32)
    requires Moves(code, S0, m)
    ensures !Keeps(code, S0)
  {
    hide Run;
    ScratchIsLost(code, m);
  }

  lemma OthersAreKept(code: seq<Insn>, r: bv4)
    requires LeavesOthers(code) && r != S0
    ensures Keeps(code, r)
  {
    hide Run;
  }

  lemma EmptyKeeps(r: bv4)
    ensures Keeps([], r)
  {
  }

  lemma Conclude(code: seq<Insn>, t: Transfer, base: bv4, offset: bv32, reaches: bool, keeps: bool)
    requires ReachesOffset(code, t.access, base, offset) <==> reaches
    requires (Keeps(code, S0) <==> keeps) && LeavesOthers(code)
    ensures Transfers(code, t, t.isLoad, t.bytes, t.rt, OffsetFrom(base, offset))
      <==> reaches && (t.isLoad || t.rt != S0 || keeps)
  {
    hide Run, ReachesOffset, ReachesTarget, Keeps, Transfers, LeavesOthers, OffsetFrom;
    if t.rt != S0 { OthersAreKept(code, t.rt); }
    ReachesOffsetIs(code, t.access, base, offset);
    TransfersIff(code, t.access, t.isLoad, t.bytes, t.rt, OffsetFrom(base, offset));
  }

  lemma TwelveAreTwenty(m: bv32)
    ensures TwelveBits(m) ==> TwentyBits(m)
  {
  }

  // The code and the access for an offset of magnitude m, upwards or downwards.
  method AccessOffset(up: bool, base: bv4, m: bv32, ghost offset: bv32, armv7: bool)
    returns (code: seq<Insn>, access: Access)
    requires m == Magnitude(offset) && up == !IsNegative(offset)
    ensures ReachesOffset(code, access, base, offset) <==> TwentyBits(m) || (!IsRotatedByte(m) && base != S0)
    ensures TwentyBits(m) || !IsRotatedByte(m) ==> (Keeps(code, S0) <==> TwelveBits(m))
    ensures LeavesOthers(code)
  {
    hide Magnitude, IsNegative, Run, ReachesOffset, LeavesOthers, IsRotatedByte, StandsFor, HasImm, IsInverted, UpperPart,
      LowerPart, RegisterAccess, ImmediateAccess, AddOrSub, Keeps, Moves, MiddleCode, TwelveBits, TwentyBits;
    TwelveAreTwenty(m);
    if TwelveBits(m) {
      ShortAccessReaches(base, offset);
      EmptyKeeps(S0);
      return [], ImmediateAccess(up, base, m);
    }
    if TwentyBits(m) {
      MiddleAccessReaches(base, offset);
      MiddleLosesScratch(up, base, m);
      return MiddleCode(up, base, m), ImmediateAccess(up, S0, LowerPart(m));
    }
    var w;
    w, code := GetImm(m, S0, false, armv7);
    access := RegisterAccess(up, base, w);
    StandInsLeaveOthers(w, code, m);
    if HasImm(w) {
      LongAccessByNumber(w, base, offset);
    } else {
      LongLosesScratch(code, m);
      if base == S0 {
        LongAccessFromScratch(w, code, offset);
      } else {
        LongAccess(w, code, base, offset);
      }
    }
  }

  // dataTransfer32: a load or store of a word or byte at base + offset.  Beyond twenty bits, getImm
  // is asked for the offset, and what it returns is used as a register: right only if it is one,
  // and not the base.  Beyond twelve, the scratch register is overwritten before it could be stored.
  // The smallest offset has no negation, and is left out.
  method DataTransfer32(isLoad: bool, srcDst: bv4, base: bv4, offset: bv32, bytes: bool, armv7: bool)
    returns (code: seq<Insn>, t: Transfer)
    requires offset != 0x8000_0000
    ensures Transfers(code, t, isLoad, bytes, srcDst, OffsetFrom(base, offset)) <==>
      && (TwentyBits(Magnitude(offset)) || (!IsRotatedByte(Magnitude(offset)) && base != S0))
      && (isLoad || srcDst != S0 || TwelveBits(Magnitude(offset)))
    ensures LeavesOthers(code)
  {
    hide Magnitude, IsNegative, Run, ReachesOffset, LeavesOthers, IsRotatedByte, Keeps, Transfers, OffsetFrom,
      TwelveBits, TwentyBits;
    var access: Access;
    var m := Magnitude(offset);
    TwelveAreTwenty(m);
    code, access := AccessOffset(!IsNegative(offset), base, m, offset, armv7);
    t := Transfer(isLoad, bytes, srcDst, access);
    if IsRotatedByte(m) && !TwentyBits(m) {
      ConcludeWrong(code, t, base, offset);
    } else {
      Conclude(code, t, base, offset, TwentyBits(m) || base != S0, TwelveBits(m));
    }
  }

  lemma ConcludeWrong(code: seq<Insn>, t: Transfer, base: bv4, offset: bv32)
    requires !ReachesOffset(code, t.access, base, offset)
    ensures !Transfers(code, t, t.isLoad, t.bytes, t.rt, OffsetFrom(base, offset))
  {
    hide Run, ReachesOffset, ReachesTarget, Keeps, Transfers, OffsetFrom;
    ReachesOffsetIs(code, t.access, base, offset);
    TransfersIff(code, t.access, t.isLoad, t.bytes, t.rt, OffsetFrom(base, offset));
  }

  lemma StandInsLeaveOthers(w: bv32, code: seq<Insn>, m: bv32)
    requires StandsFor(w, code, m, S0, false)
    ensures LeavesOthers(code) && !IsInverted(w) && if HasImm(w) then code == [] else Moves(code, S0, m)
  {
    hide Run, IsInverted, HasImm, RegisterWord;
    NoCode();
  }

  // 0x0010_0000 is such an offset: it is an operand-2 immediate.
  lemma LongOffsetExample()
    ensures Magnitude(0x0010_0000) > 0xf_ffff && IsRotatedByte(0x0010_0000)
  {
    assert Decoded(1, 6) == 0x0010_0000;
  }

  lemma NoCode()
    ensures forall regs: Regs :: Run([], regs) == regs
  {
  }

  // ---- Base, index and offset ---------------------------------------------------------------------

  lemma Reorder(x: bv32, y: bv32, z: bv32)
    ensures Sum(x, Sum(z, y)) == Sum(Sum(x, y), z)
  {
    SumsAre(x, y, z);
    SumsAre(z, y, x);
    Commute(z, y);
    hide Sum;
  }

  lemma Commute(x: bv32, y: bv32)
    ensures Sum(x, y) == Sum(y, x)
  {
  }

  ghost predicate ReachesIndexed(code: seq<Insn>, access: Access, base: bv4, index: bv4, scale: bv5, offset: bv32)
  {
    forall regs: Regs, carry: bool :: Address(access, Run(code, regs), carry)
      == Some(Sum(Sum(regs(base), Shifted(regs(index), scale)), offset))
  }

  function IndexedFrom(base: bv4, index: bv4, scale: bv5, offset: bv32): Regs -> bv32
  {
    (regs: Regs) => Sum(Sum(regs(base), Shifted(regs(index), scale)), offset)
  }

  lemma ReachesIndexedIs(code: seq<Insn>, access: Access, base: bv4, index: bv4, scale: bv5, offset: bv32)
    ensures ReachesTarget(code, access, IndexedFrom(base, index, scale, offset))
      <==> ReachesIndexed(code, access, base, index, scale, offset)
  {
    hide Run, Address, Sum, Shifted;
    var target := IndexedFrom(base, index, scale, offset);
    assert forall regs: Regs :: target(regs) == Sum(Sum(regs(base), Shifted(regs(index), scale)), offset);
    if ReachesTarget(code, access, target) {
      forall regs: Regs, carry: bool ensures Address(access, Run(code, regs), carry)
        == Some(Sum(Sum(regs(base), Shifted(regs(index), scale)), offset))
      {
        assert Address(access, Run(code, regs), carry) == Some(target(regs));
      }
    }
    if ReachesIndexed(code, access, base, index, scale, offset) {
      forall regs: Regs, carry: bool ensures Address(access, Run(code, regs), carry) == Some(target(regs)) {
        assert Address(access, Run(code, regs), carry)
            == Some(Sum(Sum(regs(base), Shifted(regs(index), scale)), offset));
      }
    }
  }

  predicate FitsTwelve(offset: bv32) { TwelveBits(Magnitude(offset)) }

  lemma NearIndexed(base: bv4, index: bv4, scale: bv5, offset: bv32)
    ensures var code := [AddShifted(S0, base, index, scale)];
      && ReachesIndexed(code, ImmediateAccess(!IsNegative(offset), S0, Magnitude(offset)), base, index, scale, offset)
      && LeavesOthers(code)
  {
    hide Sum, Difference, Shifted, Magnitude, IsNegative, Run;
    var code := [AddShifted(S0, base, index, scale)];
    var access := ImmediateAccess(!IsNegative(offset), S0, Magnitude(offset));
    forall regs: Regs, carry: bool
      ensures Address(access, Run(code, regs), carry)
           == Some(Sum(Sum(regs(base), Shifted(regs(index), scale)), offset))
    {
      RunOne(code[0], regs);
      SignedMagnitude(Sum(regs(base), Shifted(regs(index), scale)), offset);
    }
    forall regs: Regs, i | i != S0 ensures Run(code, regs)(i) == regs(i) {
      RunOne(code[0], regs);
    }
  }

  function FarCode(index: bv4, scale: bv5, offset: bv32): seq<Insn>
  {
    [LdrImm(S0, offset), AddShifted(S0, S0, index, scale)]
  }

  lemma FarCodeRuns(index: bv4, scale: bv5, offset: bv32, regs: Regs)
    ensures var r := Run(FarCode(index, scale, offset), regs);
      && r(S0) == Sum(offset, Shifted(if index == S0 then offset else regs(index), scale))
      && forall i :: i != S0 ==> r(i) == regs(i)
  {
    hide Sum, Shifted, Run;
    RunTwo(LdrImm(S0, offset), AddShifted(S0, S0, index, scale), regs);
  }

  lemma FarIndexed(base: bv4, index: bv4, scale: bv5, offset: bv32)
    requires base != S0 && index != S0
    ensures ReachesIndexed(FarCode(index, scale, offset), UpRegister(base, RegisterWord(S0)), base, index, scale, offset)
  {
    hide Sum, Shifted, Run, FarCode, RegisterOffset, RegisterWord;
    var code := FarCode(index, scale, offset);
    forall regs: Regs, carry: bool
      ensures Address(UpRegister(base, RegisterWord(S0)), Run(code, regs), carry)
           == Some(Sum(Sum(regs(base), Shifted(regs(index), scale)), offset))
    {
      FarCodeRuns(index, scale, offset, regs);
      PlainRegister(S0, Run(code, regs), carry);
      Reorder(regs(base), Shifted(regs(index), scale), offset);
    }
  }

  lemma ScratchCounts(base: bool, index: bool, scale: bv5, offset: bv32)
    requires scale <= 3 && (base || index)
    ensures Sum(Sum(0, Shifted(0, scale)), offset)
         != Sum(Sum(if base then 1 else 0, Shifted(if index then 1 else 0, scale)), offset)
  {
  }

  // The address does not depend on what the scratch register held, but it should.
  lemma FarFromScratch(base: bv4, index: bv4, scale: bv5, offset: bv32)
    requires scale <= 3 && (base == S0 || index == S0)
    ensures !ReachesIndexed(FarCode(index, scale, offset), UpRegister(base, RegisterWord(S0)), base, index, scale, offset)
  {
    hide Sum, Shifted, Run, FarCode, RegisterOffset, RegisterWord;
    var code, access := FarCode(index, scale, offset), UpRegister(base, RegisterWord(S0));
    var p, q := OnlyScratch(0), OnlyScratch(1);
    FarCodeRuns(index, scale, offset, p);
    FarCodeRuns(index, scale, offset, q);
    PlainRegister(S0, Run(code, p), false);
    PlainRegister(S0, Run(code, q), false);
    assert Address(access, Run(code, p), false) == Address(access, Run(code, q), false);
    ScratchCounts(base == S0, index == S0, scale, offset);
  }

  lemma FarLeavesOthers(index: bv4, scale: bv5, offset: bv32)
    ensures LeavesOthers(FarCode(index, scale, offset))
  {
    hide Run, FarCode, Sum, Shifted;
    var code := FarCode(index, scale, offset);
    forall regs: Regs, i | i != S0 ensures Run(code, regs)(i) == regs(i) {
      FarCodeRuns(index, scale, offset, regs);
    }
  }

  // All registers one.
  const ONES: Regs := (i: bv4) => 1

  lemma NearLosesScratch(base: bv4, index: bv4, scale: bv5)
    requires scale <= 3
    ensures !Keeps([AddShifted(S0, base, index, scale)], S0)
  {
    OneAndShifted(scale);
    hide Run, Sum, Shifted;
    var code := [AddShifted(S0, base, index, scale)];
    RunOne(code[0], ONES);
    assert Run(code, ONES)(S0) != ONES(S0);
  }

  lemma OneAndShifted(scale: bv5)
    requires scale <= 3
    ensures Sum(1, Shifted(1, scale)) != 1
  {
  }

  lemma FarLosesScratch(index: bv4, scale: bv5, offset: bv32)
    ensures !Keeps(FarCode(index, scale, offset), S0)
  {
    hide Run, Sum, Shifted, FarCode;
    var c := Sum(offset, Shifted(if index == S0 then offset else 0, scale));
    forall x ensures Run(FarCode(index, scale, offset), OnlyScratch(x))(S0) == c {
      FarCodeRuns(index, scale, offset, OnlyScratch(x));
    }
    ScratchIsLost(FarCode(index, scale, offset), c);
  }

  lemma ConcludeIndexed(
      code: seq<Insn>, t: Transfer, base: bv4, index: bv4, scale: bv5, offset: bv32, reaches: bool)
    requires ReachesIndexed(code, t.access, base, index, scale, offset) <==> reaches
    requires !Keeps(code, S0) && LeavesOthers(code)
    ensures Transfers(code, t, t.isLoad, t.bytes, t.rt, IndexedFrom(base, index, scale, offset))
      <==> reaches && (t.isLoad || t.rt != S0)
  {
    hide Run, ReachesIndexed, ReachesTarget, Keeps, Transfers, LeavesOthers, IndexedFrom;
    if t.rt != S0 { OthersAreKept(code, t.rt); }
    ReachesIndexedIs(code, t.access, base, index, scale, offset);
    TransfersIff(code, t.access, t.isLoad, t.bytes, t.rt, IndexedFrom(base, index, scale, offset));
  }

  lemma NearAccess(offset: bv32)
    ensures var a := ImmediateAccess(!IsNegative(offset), S0, Magnitude(offset));
      if !IsNegative(offset) && TwelveBits(offset) then FitsTwelve(offset) && a == Up(S0, offset)
      else if IsNegative(offset) && TwelveBits(Negated(offset)) then FitsTwelve(offset) && a == Down(S0, Negated(offset))
      else !FitsTwelve(offset)
  {
    hide IsNegative, Negated, TwelveBits;
  }

  lemma ZeroIsNear()
    ensures !IsNegative(0) && TwelveBits(0)
  {
  }

  method AccessIndexed(base: bv4, index: bv4, scale: bv5, offset: bv32) returns (code: seq<Insn>, access: Access)
    requires scale <= 3
    ensures ReachesIndexed(code, access, base, index, scale, offset)
      <==> FitsTwelve(offset) || (base != S0 && index != S0)
    ensures LeavesOthers(code) && !Keeps(code, S0)
  {
    hide Run, ReachesIndexed, LeavesOthers, FarCode, RegisterWord, Keeps, FitsTwelve, IsNegative, Magnitude, Negated,
      ImmediateAccess, TwelveBits;
    NearAccess(offset);
    ZeroIsNear();
    NearIndexed(base, index, scale, offset);
    NearLosesScratch(base, index, scale);
    if !IsNegative(offset) && TwelveBits(offset) {
      return [AddShifted(S0, base, index, scale)], Up(S0, offset);
    }
    if offset == 0 || (IsNegative(offset) && TwelveBits(Negated(offset))) {
      return [AddShifted(S0, base, index, scale)], Down(S0, Negated(offset));
    }
    code, access := FarCode(index, scale, offset), UpRegister(base, RegisterWord(S0));
    FarLeavesOthers(index, scale, offset);
    FarLosesScratch(index, scale, offset);
    if base == S0 || index == S0 {
      FarFromScratch(base, index, scale, offset);
    } else {
      FarIndexed(base, index, scale, offset);
    }
  }

  // baseIndexTransfer32: a base, a shifted index and any offset.  Beyond twelve bits the scratch
  // register holds the offset before base and index are read; it is always overwritten before it
  // could be stored.
  method BaseIndexTransfer32(isLoad: bool, srcDst: bv4, base: bv4, index: bv4, scale: bv5, offset: bv32)
    returns (code: seq<Insn>, t: Transfer)
    requires scale <= 3
    ensures Transfers(code, t, isLoad, false, srcDst, IndexedFrom(base, index, scale, offset)) <==>
      (FitsTwelve(offset) || (base != S0 && index != S0)) && (isLoad || srcDst != S0)
    ensures LeavesOthers(code)
  {
    hide Run, ReachesIndexed, LeavesOthers, Keeps, Transfers, IndexedFrom, FitsTwelve;
    var access: Access;
    code, access := AccessIndexed(base, index, scale, offset);
    t := Transfer(isLoad, false, srcDst, access);
    ConcludeIndexed(code, t, base, index, scale, offset, FitsTwelve(offset) || (base != S0 && index != S0));
  }
}
