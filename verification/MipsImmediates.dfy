// Immediates of MacroAssemblerMIPS: moving a constant into a register in one or two
// instructions, repatching a two-instruction move, and the split of large load offsets.
module MipsImmediates {
  import opened Options
  import opened SignedWords
  import opened MipsMachine
  import opened MipsSlots
  import opened MipsCalls
  import opened MipsLayout
  import opened MipsOverflow

  const T0: bv5 := 8    // immTempRegister

  function Addiu(rt: bv5, rs: bv5, imm: bv32): bv32 { IType(0x2400_0000, rs, rt, imm) }
  function Lw(rt: bv5, rs: bv5, offset: bv32): bv32 { IType(0x8c00_0000, rs, rt, offset) }
  function Sw(rt: bv5, rs: bv5, offset: bv32): bv32 { IType(0xac00_0000, rs, rt, offset) }
  function Sll(rd: bv5, rt: bv5, shamt: bv5): bv32 { RType((shamt as bv32) << 6, rd, ZERO, rt) }

  function UpperHalf(v: bv32): bv32 { v >> 16 }
  function RoundedUpper(v: bv32): bv32 { (v + 0x8000) >> 16 }

  // li.
  function Li(dest: bv5, imm: bv32): seq<bv32>
  {
    if Fits16(imm) then [Addiu(dest, ZERO, imm)]
    else if imm <= 0xffff then [Ori(dest, ZERO, imm)]
    else [Lui(dest, UpperHalf(imm))] + if LowerHalf(imm) != 0 then [Ori(dest, dest, imm)] else []
  }

  // move of an immediate; a pointer, or any immediate in fixed-width code, takes two words.
  function MoveImmediate(imm: bv32, isPointer: bool, fixedWidth: bool, dest: bv5): seq<bv32>
  {
    if !isPointer && imm == 0 && !fixedWidth then [Move(dest, ZERO)]
    else if isPointer || fixedWidth then [Lui(dest, UpperHalf(imm)), Ori(dest, dest, imm)]
    else Li(dest, imm)
  }

  // ---- Single instructions -----------------------------------------------------------------

  lemma ITypeBits(op: bv32, rs: bv5, rt: bv5, imm: bv32)
    requires op & 0xfc00_0000 == op
    ensures Op(op | ((rs as bv32) << 21) | ((rt as bv32) << 16) | (imm & 0xffff)) == op >> 26
    ensures Rs(op | ((rs as bv32) << 21) | ((rt as bv32) << 16) | (imm & 0xffff)) == rs
    ensures Rt(op | ((rs as bv32) << 21) | ((rt as bv32) << 16) | (imm & 0xffff)) == rt
    ensures LowerHalf(op | ((rs as bv32) << 21) | ((rt as bv32) << 16) | (imm & 0xffff)) == imm & 0xffff
  {
  }

  lemma ITypeFields(op: bv32, rs: bv5, rt: bv5, imm: bv32)
    requires op & 0xfc00_0000 == op
    ensures var w := IType(op, rs, rt, imm);
      Op(w) == op >> 26 && Rs(w) == rs && Rt(w) == rt && LowerHalf(w) == LowerHalf(imm)
  {
    ITypeBits(op, rs, rt, imm);
    hide Op, Rs, Rt;
  }

  lemma SignOfHalf(w: bv32, v: bv32)
    requires LowerHalf(w) == LowerHalf(v)
    ensures SignExtend16(w) == SignExtend16(v)
  {
  }

  lemma SameHalfSameValue(w: bv32, v: bv32, x: bv32)
    requires LowerHalf(w) == LowerHalf(v)
    ensures Joined(x, w) == Joined(x, v) && Upper(w) == Upper(v)
  {
    hide LowerHalf;
  }

  lemma AddiuRuns(rt: bv5, rs: bv5, imm: bv32, m: Machine)
    ensures Execute(Addiu(rt, rs, imm), m) == Set(Advance(m), rt, Sum(Reg(m, rs), SignExtend16(imm)))
  {
    ITypeFields(0x2400_0000, rs, rt, imm);
    hide Op, Rs, Rt, IType, SignExtend16, Sum, Reg, Set, Advance, LowerHalf, Branch;
    SignOfHalf(Addiu(rt, rs, imm), imm);
  }

  lemma OriRuns(rt: bv5, rs: bv5, imm: bv32, m: Machine)
    ensures Execute(Ori(rt, rs, imm), m) == Set(Advance(m), rt, Joined(Reg(m, rs), imm))
  {
    ITypeFields(0x3400_0000, rs, rt, imm);
    hide Op, Rs, Rt, IType, SignExtend16, Sum, Reg, Set, Advance, Branch, Joined, LowerHalf;
    SameHalfSameValue(Ori(rt, rs, imm), imm, Reg(m, rs));
  }

  lemma LuiRuns(rt: bv5, imm: bv32, m: Machine)
    ensures Execute(Lui(rt, imm), m) == Set(Advance(m), rt, Upper(imm))
  {
    ITypeFields(0x3c00_0000, 0, rt, imm);
    hide Op, Rs, Rt, IType, SignExtend16, Sum, Reg, Set, Advance, Branch, Upper, LowerHalf;
    SameHalfSameValue(Lui(rt, imm), imm, 0);
  }

  lemma ShiftFunct(shamt: bv5)
    ensures ((shamt as bv32) << 6) & 0x7ff == (shamt as bv32) << 6
    ensures ((shamt as bv32) << 6) & 63 == 0
    ensures ((((shamt as bv32) << 6) >> 6) & 31) as bv5 == shamt
  {
  }

  lemma SllRuns(rd: bv5, rt: bv5, shamt: bv5, m: Machine)
    ensures Execute(Sll(rd, rt, shamt), m) == Set(Advance(m), rd, Shifted(Reg(m, rt), shamt))
  {
    ShiftFunct(shamt);
    RTypeFields((shamt as bv32) << 6, rd, ZERO, rt);
    hide Op, Rs, Rt, Rd, Shamt, RType, SignExtend16, Sum, Reg, Set, Advance, Branch, Shifted;
  }

  // ---- Constants ---------------------------------------------------------------------------

  lemma NegativeHalf(v: bv32)
    requires v >= 0xffff_8000
    ensures v & 0x8000 != 0 && v | 0xffff_0000 == v
  {
  }

  lemma PositiveHalf(v: bv32)
    requires v <= 0x7fff
    ensures v & 0x8000 == 0 && v & 0xffff == v
  {
  }

  lemma SmallConstants(v: bv32)
    requires Fits16(v)
    ensures SignExtend16(v) == v
  {
    if IsNegative(v) {
      NegativeHalf(v);
    } else {
      PositiveHalf(v);
    }
  }

  lemma UnsignedConstants(v: bv32)
    requires v <= 0xffff
    ensures Joined(0, v) == v
  {
    assert 0 | (v & 0xffff) == v;
  }

  lemma HalvesJoin(v: bv32)
    ensures Joined(Upper(UpperHalf(v)), v) == v
    ensures LowerHalf(v) == 0 ==> Upper(UpperHalf(v)) == v
  {
  }

  lemma ZeroSum(x: bv32)
    ensures Sum(0, x) == x && Sum(x, 0) == x
  {
  }

  // ---- Moving a constant -----------------------------------------------------------------------

  // n steps have set register i to v, changed no other, and come to word k.
  ghost predicate Gives(mem: bv32 -> bv32, m: Machine, n: nat, i: bv5, v: bv32, a: bv32)
  {
    var e := Steps(mem, m, n);
    IsAt(e, a) && Reg(e, i) == v && SameBut(m, e, {i})
  }

  lemma OneGives(mem: bv32 -> bv32, code: seq<bv32>, base: bv32, k: nat, m: Machine, i: bv5, v: bv32)
    requires Loaded(mem, code, base) && k < |code| < MAX_WORDS - 2 && IsAt(m, Addr(base, k)) && i != ZERO
    requires Execute(code[k], m) == Set(Advance(m), i, v)
    ensures Gives(mem, m, 1, i, v, Addr(base, k + 1))
  {
    hide Execute, Addr, Next, Step, Reg, Set, Advance, Loaded;
    StepAt(mem, code, base, k, m);
    NextAddr(base, k);
    Written(m, i, v);
    StepsOne(mem, m, 0);
    StepsOne(mem, Step(mem, m), 0);
  }

  lemma TwoGive(mem: bv32 -> bv32, m: Machine, i: bv5, v: bv32, w: bv32, a: bv32, b: bv32)
    requires Gives(mem, m, 1, i, v, a) && Gives(mem, Steps(mem, m, 1), 1, i, w, b)
    ensures Gives(mem, m, 2, i, w, b)
  {
    hide Reg, Steps, Next;
    StepsAdd(mem, m, 1, 1);
  }

  lemma LuiOriGives(mem: bv32 -> bv32, base: bv32, imm: bv32, dest: bv5, m: Machine)
    requires Loaded(mem, [Lui(dest, UpperHalf(imm)), Ori(dest, dest, imm)], base)
    requires IsAt(m, Addr(base, 0)) && dest != ZERO
    ensures Gives(mem, m, 2, dest, imm, Addr(base, 2))
  {
    var code := [Lui(dest, UpperHalf(imm)), Ori(dest, dest, imm)];
    HalvesJoin(imm);
    hide Execute, Addr, Next, Reg, Set, Advance, Loaded, Lui, Ori, UpperHalf, Upper, Joined, Steps;
    LuiRuns(dest, UpperHalf(imm), m);
    OneGives(mem, code, base, 0, m, dest, Upper(UpperHalf(imm)));
    var m1 := Steps(mem, m, 1);
    OriRuns(dest, dest, imm, m1);
    OneGives(mem, code, base, 1, m1, dest, imm);
    TwoGive(mem, m, dest, Upper(UpperHalf(imm)), imm, Addr(base, 1), Addr(base, 2));
  }

  // addiu or ori from the zero register.
  lemma ShortGives(mem: bv32 -> bv32, base: bv32, imm: bv32, dest: bv5, m: Machine)
    requires Loaded(mem, Li(dest, imm), base) && IsAt(m, Addr(base, 0)) && dest != ZERO
    requires Fits16(imm) || imm <= 0xffff
    ensures Gives(mem, m, 1, dest, imm, Addr(base, 1))
  {
    var code := Li(dest, imm);
    assert Reg(m, ZERO) == 0;
    hide Execute, Addr, Next, Reg, Set, Advance, Loaded, Lui, Ori, Addiu, UpperHalf, Joined, Fits16, Sum,
      SignExtend16, LowerHalf, Gives;
    if Fits16(imm) {
      ZeroSum(imm);
      SmallConstants(imm);
      AddiuRuns(dest, ZERO, imm, m);
    } else {
      UnsignedConstants(imm);
      OriRuns(dest, ZERO, imm, m);
    }
    OneGives(mem, code, base, 0, m, dest, imm);
  }

  lemma LuiGives(mem: bv32 -> bv32, base: bv32, imm: bv32, dest: bv5, m: Machine)
    requires Loaded(mem, [Lui(dest, UpperHalf(imm))], base) && IsAt(m, Addr(base, 0)) && dest != ZERO
    requires LowerHalf(imm) == 0
    ensures Gives(mem, m, 1, dest, imm, Addr(base, 1))
  {
    hide Execute, Addr, Next, Reg, Set, Advance, Loaded, Lui, UpperHalf, Joined, LowerHalf, Upper, Gives;
    HalvesJoin(imm);
    LuiRuns(dest, UpperHalf(imm), m);
    OneGives(mem, [Lui(dest, UpperHalf(imm))], base, 0, m, dest, imm);
  }

  lemma LiGives(mem: bv32 -> bv32, base: bv32, imm: bv32, dest: bv5, m: Machine)
    requires Loaded(mem, Li(dest, imm), base) && IsAt(m, Addr(base, 0)) && dest != ZERO
    ensures Gives(mem, m, |Li(dest, imm)|, dest, imm, Addr(base, |Li(dest, imm)|))
  {
    hide Addr, Next, Reg, Loaded, Lui, Ori, Addiu, UpperHalf, Fits16, LowerHalf, Gives;
    if Fits16(imm) || imm <= 0xffff {
      ShortGives(mem, base, imm, dest, m);
    } else if LowerHalf(imm) != 0 {
      assert Li(dest, imm) == [Lui(dest, UpperHalf(imm)), Ori(dest, dest, imm)];
      LuiOriGives(mem, base, imm, dest, m);
    } else {
      assert Li(dest, imm) == [Lui(dest, UpperHalf(imm))];
      LuiGives(mem, base, imm, dest, m);
    }
  }

  // Whatever the constant, and in whichever of the four ways it is moved, the register holds
  // it afterwards and nothing else has changed.
  lemma MoveImmediateGives(
      mem: bv32 -> bv32, base: bv32, imm: bv32, isPointer: bool, fixedWidth: bool, dest: bv5, m: Machine)
    requires Loaded(mem, MoveImmediate(imm, isPointer, fixedWidth, dest), base)
    requires IsAt(m, Addr(base, 0)) && dest != ZERO
    ensures var n := |MoveImmediate(imm, isPointer, fixedWidth, dest)|;
      && Gives(mem, m, n, dest, imm, Addr(base, n))
      && n == if isPointer || fixedWidth || (0xffff < imm < 0xffff_8000 && imm & 0xffff != 0) then 2 else 1
  {
    ShortIsSigned(imm);
    var code := MoveImmediate(imm, isPointer, fixedWidth, dest);
    assert Reg(m, ZERO) == 0;
    ZeroSum(0);
    hide Execute, Addr, Next, Reg, Set, Advance, Loaded, Lui, Ori, Addiu, Addu, RType, UpperHalf, Sum, Gives, Fits16, LowerHalf;
    if !isPointer && imm == 0 && !fixedWidth {
      assert code[0] == Move(dest, ZERO) == Addu(dest, ZERO, ZERO) by { MoveIsAddu(dest); }
      AdduExecutes(dest, ZERO, ZERO, m);
      OneGives(mem, code, base, 0, m, dest, 0);
    } else if isPointer || fixedWidth {
      LuiOriGives(mem, base, imm, dest, m);
    } else {
      LiGives(mem, base, imm, dest, m);
    }
  }

  lemma MoveIsAddu(rd: bv5)
    ensures Move(rd, ZERO) == Addu(rd, ZERO, ZERO)
  {
    hide RType;
  }

  // ---- Repatching ----------------------------------------------------------------------------------

  // repatchInt32 and linkPointer, on a lui and the ori behind it.
  function Repatch(words: seq<bv32>, to: bv32): seq<bv32>
    requires |words| == 2
  {
    [WithHighImm(words[0], to), WithLowImm(words[1], to)]
  }

  lemma RepatchBits(op: bv32, rs: bv5, rt: bv5, v: bv32, to: bv32)
    requires op & 0xfc00_0000 == op
    ensures WithHighImm(op | ((rs as bv32) << 21) | ((rt as bv32) << 16) | ((v >> 16) & 0xffff), to)
         == op | ((rs as bv32) << 21) | ((rt as bv32) << 16) | ((to >> 16) & 0xffff)
    ensures WithLowImm(op | ((rs as bv32) << 21) | ((rt as bv32) << 16) | (v & 0xffff), to)
         == op | ((rs as bv32) << 21) | ((rt as bv32) << 16) | (to & 0xffff)
  {
  }

  lemma RepatchIType(op: bv32, rs: bv5, rt: bv5, v: bv32, to: bv32)
    requires op & 0xfc00_0000 == op
    ensures WithHighImm(IType(op, rs, rt, v >> 16), to) == IType(op, rs, rt, to >> 16)
    ensures WithLowImm(IType(op, rs, rt, v), to) == IType(op, rs, rt, to)
  {
    RepatchBits(op, rs, rt, v, to);
    hide WithHighImm, WithLowImm;
  }

  lemma RepatchedLui(dest: bv5, v: bv32, to: bv32)
    ensures WithHighImm(Lui(dest, UpperHalf(v)), to) == Lui(dest, UpperHalf(to))
  {
    RepatchIType(0x3c00_0000, 0, dest, v, to);
    hide WithHighImm, WithLowImm, IType;
  }

  lemma RepatchedOri(dest: bv5, v: bv32, to: bv32)
    ensures WithLowImm(Ori(dest, dest, v), to) == Ori(dest, dest, to)
  {
    RepatchIType(0x3400_0000, dest, dest, v, to);
    hide WithHighImm, WithLowImm, IType;
  }

  // A repatched move is the move of the new constant: the pointer form can be repatched for
  // ever, and by MoveImmediateGives always yields the last constant it was given.
  lemma RepatchedMove(v: bv32, to: bv32, dest: bv5)
    ensures Repatch(MoveImmediate(v, true, false, dest), to) == MoveImmediate(to, true, false, dest)
  {
    hide WithHighImm, WithLowImm, Lui, Ori, UpperHalf;
    RepatchedLui(dest, v, to);
    RepatchedOri(dest, v, to);
  }

  // ---- Loads and stores of any offset ----------------------------------------------------------------

  // All words but the load or store itself, of load32 and store32 of an ImplicitAddress.
  function AddressWords(offset: bv32, b: bv5, fixedWidth: bool): seq<bv32>
  {
    if Fits16(offset) && !fixedWidth then [] else [Lui(T2, RoundedUpper(offset)), Addu(T2, T2, b)]
  }

  function AddressBase(offset: bv32, b: bv5, fixedWidth: bool): bv5
  {
    if Fits16(offset) && !fixedWidth then b else T2
  }

  // The same of a BaseIndex.
  function IndexWords(offset: bv32, b: bv5, index: bv5, scale: bv5, fixedWidth: bool): seq<bv32>
  {
    [Sll(T2, index, scale), Addu(T2, T2, b)]
    + if Fits16(offset) && !fixedWidth then [] else [Lui(T0, RoundedUpper(offset)), Addu(T2, T2, T0)]
  }

  function LoadWords(offset: bv32, b: bv5, fixedWidth: bool, dest: bv5): seq<bv32>
  {
    AddressWords(offset, b, fixedWidth) + [Lw(dest, AddressBase(offset, b, fixedWidth), offset)]
  }

  function StoreWords(offset: bv32, b: bv5, fixedWidth: bool, src: bv5): seq<bv32>
  {
    AddressWords(offset, b, fixedWidth) + [Sw(src, AddressBase(offset, b, fixedWidth), offset)]
  }

  function IndexLoadWords(offset: bv32, b: bv5, index: bv5, scale: bv5, fixedWidth: bool, dest: bv5): seq<bv32>
  {
    IndexWords(offset, b, index, scale, fixedWidth) + [Lw(dest, T2, offset)]
  }

  function IndexStoreWords(offset: bv32, b: bv5, index: bv5, scale: bv5, fixedWidth: bool, src: bv5): seq<bv32>
  {
    IndexWords(offset, b, index, scale, fixedWidth) + [Sw(src, T2, offset)]
  }

  lemma LwRuns(rt: bv5, rs: bv5, offset: bv32, m: Machine)
    ensures Execute(Lw(rt, rs, offset), m) == Set(Advance(m), rt, m.data(Sum(Reg(m, rs), SignExtend16(offset))))
  {
    ITypeFields(0x8c00_0000, rs, rt, offset);
    hide Op, Rs, Rt, IType, SignExtend16, Sum, Reg, Set, Advance, Branch, LowerHalf;
    SignOfHalf(Lw(rt, rs, offset), offset);
  }

  lemma SwRuns(rt: bv5, rs: bv5, offset: bv32, m: Machine)
    ensures Execute(Sw(rt, rs, offset), m)
         == Store(Advance(m), Sum(Reg(m, rs), SignExtend16(offset)), Reg(m, rt))
  {
    ITypeFields(0xac00_0000, rs, rt, offset);
    hide Op, Rs, Rt, IType, SignExtend16, Sum, Reg, Set, Store, Advance, Branch, LowerHalf;
    SignOfHalf(Sw(rt, rs, offset), offset);
  }

  // The machine after one store.
  ghost predicate Stores(m: Machine, e: Machine, a: bv32, v: bv32, changed: set<bv5>)
  {
    && e.hi == m.hi && e.lo == m.lo && e.fcc == m.fcc
    && (forall i :: i !in changed ==> Reg(e, i) == Reg(m, i))
    && forall x :: e.data(x) == if x == a then v else m.data(x)
  }

  // What one load does at the end of some words that only changed the temporaries.
  lemma LoadEnds(mem: bv32 -> bv32, code: seq<bv32>, base: bv32, m: Machine, n: nat, dest: bv5, rs: bv5, offset: bv32,
                 temps: set<bv5>, a: bv32)
    requires Loaded(mem, code, base) && n + 1 == |code| < MAX_WORDS - 2 && code[n] == Lw(dest, rs, offset)
    requires IsAt(Steps(mem, m, n), Addr(base, n)) && SameBut(m, Steps(mem, m, n), temps) && dest != ZERO
    requires Sum(Reg(Steps(mem, m, n), rs), SignExtend16(offset)) == a
    ensures var e := Steps(mem, m, n + 1);
      IsAt(e, Addr(base, n + 1)) && Reg(e, dest) == m.data(a) && SameBut(m, e, temps + {dest})
  {
    hide Execute, Addr, Next, Reg, Set, Advance, Loaded, Lw, Sum, SignExtend16, Steps;
    var e := Steps(mem, m, n);
    LwRuns(dest, rs, offset, e);
    OneGives(mem, code, base, n, e, dest, m.data(a));
    StepsAdd(mem, m, n, 1);
  }

  lemma StoreEnds(mem: bv32 -> bv32, code: seq<bv32>, base: bv32, m: Machine, n: nat, src: bv5, rs: bv5, offset: bv32,
                  temps: set<bv5>, a: bv32)
    requires Loaded(mem, code, base) && n + 1 == |code| < MAX_WORDS - 2 && code[n] == Sw(src, rs, offset)
    requires IsAt(Steps(mem, m, n), Addr(base, n)) && SameBut(m, Steps(mem, m, n), temps) && src !in temps
    requires Sum(Reg(Steps(mem, m, n), rs), SignExtend16(offset)) == a
    ensures var e := Steps(mem, m, n + 1);
      IsAt(e, Addr(base, n + 1)) && Stores(m, e, a, Reg(m, src), temps)
  {
    hide Execute, Addr, Next, Loaded, Sw, Sum, SignExtend16, Steps, Step;
    var e := Steps(mem, m, n);
    SwRuns(src, rs, offset, e);
    StepAt(mem, code, base, n, e);
    NextAddr(base, n);
    StepsOne(mem, e, 0);
    StepsOne(mem, Step(mem, e), 0);
    StepsAdd(mem, m, n, 1);
  }

  lemma NegativeSplit(v: bv32)
    requires v & 0x8000 != 0
    ensures ((v + 0x8000) & 0xffff_0000) + (v | 0xffff_0000) == v
  {
  }

  lemma PositiveSplit(v: bv32)
    requires v & 0x8000 == 0
    ensures ((v + 0x8000) & 0xffff_0000) + (v & 0xffff) == v
  {
  }

  lemma UpperOfRounded(v: bv32)
    ensures (((v + 0x8000) >> 16) & 0xffff) << 16 == (v + 0x8000) & 0xffff_0000
  {
  }

  lemma RoundedIs(v: bv32)
    ensures Upper(RoundedUpper(v)) == (v + 0x8000) & 0xffff_0000
  {
    UpperOfRounded(v);
  }

  // Rounding the upper half makes up for the sign of the lower.
  lemma SplitJoins(v: bv32)
    ensures Sum(Upper(RoundedUpper(v)), SignExtend16(v)) == v
  {
    RoundedIs(v);
    hide Upper, RoundedUpper;
    if v & 0x8000 != 0 {
      NegativeSplit(v);
    } else {
      PositiveSplit(v);
    }
  }

  lemma SumsReorder(u: bv32, b: bv32, s: bv32)
    ensures Sum(Sum(u, b), s) == Sum(b, Sum(u, s)) && Sum(b, u) == Sum(u, b)
  {
  }

  // The words before the load or store leave addrTemp such that base + offset is reached, for
  // every offset.
  lemma AddressIsExact(mem: bv32 -> bv32, a: bv32, offset: bv32, b: bv5, fixedWidth: bool, m: Machine)
    requires Loaded(mem, AddressWords(offset, b, fixedWidth), a) && IsAt(m, Addr(a, 0)) && b != T2
    ensures var n := |AddressWords(offset, b, fixedWidth)|; var e := Steps(mem, m, n);
      && IsAt(e, Addr(a, n)) && SameBut(m, e, if n == 0 then {} else {T2})
      && Sum(Reg(e, AddressBase(offset, b, fixedWidth)), SignExtend16(offset)) == Sum(Reg(m, b), offset)
  {
    var code := AddressWords(offset, b, fixedWidth);
    hide Execute, Addr, Next, Reg, Set, Advance, Loaded, Lui, Addu, RoundedUpper, Upper, Fits16, Sum, SignExtend16;
    if Fits16(offset) && !fixedWidth {
      SmallConstants(offset);
      StepsOne(mem, m, 0);
    } else {
      var x, u := Reg(m, b), Upper(RoundedUpper(offset));
      SplitJoins(offset);
      SumsReorder(u, x, SignExtend16(offset));
      LuiRuns(T2, RoundedUpper(offset), m);
      OneGives(mem, code, a, 0, m, T2, u);
      var m1 := Steps(mem, m, 1);
      AdduExecutes(T2, T2, b, m1);
      OneGives(mem, code, a, 1, m1, T2, Sum(u, x));
      StepsAdd(mem, m, 1, 1);
    }
  }

  lemma PrefixIsLoaded(mem: bv32 -> bv32, code: seq<bv32>, last: bv32, a: bv32)
    requires Loaded(mem, code + [last], a)
    ensures Loaded(mem, code, a)
  {
    hide Addr;
    forall k | 0 <= k < |code| ensures mem(Addr(a, k)) == code[k] {
      assert (code + [last])[k] == code[k];
    }
  }

  // load32: dest holds the word at base + offset, in one instruction or three; three exactly
  // if the offset is no signed 16-bit number or the width is fixed.
  lemma LoadRuns(mem: bv32 -> bv32, a: bv32, offset: bv32, b: bv5, fixedWidth: bool, dest: bv5, m: Machine)
    requires Loaded(mem, LoadWords(offset, b, fixedWidth, dest), a) && IsAt(m, Addr(a, 0)) && b != T2 && dest != ZERO
    ensures var n := |LoadWords(offset, b, fixedWidth, dest)|; var e := Steps(mem, m, n);
      && n == (if (offset <= 0x7fff || offset >= 0xffff_8000) && !fixedWidth then 1 else 3)
      && IsAt(e, Addr(a, n)) && Reg(e, dest) == m.data(Sum(Reg(m, b), offset))
      && SameBut(m, e, if n == 1 then {dest} else {T2, dest})
  {
    ShortIsSigned(offset);
    hide Addr, Next, Reg, Loaded, Lui, Addu, Lw, RoundedUpper, Fits16, Sum, SignExtend16, Steps;
    var words, last := AddressWords(offset, b, fixedWidth), Lw(dest, AddressBase(offset, b, fixedWidth), offset);
    PrefixIsLoaded(mem, words, last, a);
    AddressIsExact(mem, a, offset, b, fixedWidth, m);
    LoadEnds(mem, words + [last], a, m, |words|, dest, AddressBase(offset, b, fixedWidth), offset,
             if |words| == 0 then {} else {T2}, Sum(Reg(m, b), offset));
  }

  lemma ShortIsSigned(offset: bv32)
    ensures Fits16(offset) <==> offset <= 0x7fff || offset >= 0xffff_8000
  {
  }

  // store32 of a register: the word at base + offset is the register's, all others stay.
  lemma StoreRuns(mem: bv32 -> bv32, a: bv32, offset: bv32, b: bv5, fixedWidth: bool, src: bv5, m: Machine)
    requires Loaded(mem, StoreWords(offset, b, fixedWidth, src), a) && IsAt(m, Addr(a, 0)) && b != T2 && src != T2
    ensures var n := |StoreWords(offset, b, fixedWidth, src)|; var e := Steps(mem, m, n);
      && n == (if (offset <= 0x7fff || offset >= 0xffff_8000) && !fixedWidth then 1 else 3)
      && IsAt(e, Addr(a, n))
      && Stores(m, e, Sum(Reg(m, b), offset), Reg(m, src), if n == 1 then {} else {T2})
  {
    ShortIsSigned(offset);
    hide Addr, Next, Reg, Loaded, Lui, Addu, Sw, RoundedUpper, Fits16, Sum, SignExtend16, Steps, Stores;
    var words, last := AddressWords(offset, b, fixedWidth), Sw(src, AddressBase(offset, b, fixedWidth), offset);
    PrefixIsLoaded(mem, words, last, a);
    AddressIsExact(mem, a, offset, b, fixedWidth, m);
    StoreEnds(mem, words + [last], a, m, |words|, src, AddressBase(offset, b, fixedWidth), offset,
              if |words| == 0 then {} else {T2}, Sum(Reg(m, b), offset));
  }

  lemma IndexIsAdded(
      mem: bv32 -> bv32, a: bv32, offset: bv32, b: bv5, index: bv5, scale: bv5, fixedWidth: bool, m: Machine)
    requires Loaded(mem, IndexWords(offset, b, index, scale, fixedWidth), a) && IsAt(m, Addr(a, 0)) && b != T2
    ensures Gives(mem, m, 2, T2, Sum(Shifted(Reg(m, index), scale), Reg(m, b)), Addr(a, 2))
  {
    var code, s := IndexWords(offset, b, index, scale, fixedWidth), Shifted(Reg(m, index), scale);
    hide Execute, Addr, Next, Reg, Set, Advance, Loaded, Lui, Addu, Sll, RoundedUpper, Fits16, Sum, Shifted;
    SllRuns(T2, index, scale, m);
    OneGives(mem, code, a, 0, m, T2, s);
    var m1 := Steps(mem, m, 1);
    AdduExecutes(T2, T2, b, m1);
    OneGives(mem, code, a, 1, m1, T2, Sum(s, Reg(m, b)));
    TwoGive(mem, m, T2, s, Sum(s, Reg(m, b)), Addr(a, 1), Addr(a, 2));
  }

  lemma OffsetIsAdded(
      mem: bv32 -> bv32, a: bv32, offset: bv32, b: bv5, index: bv5, scale: bv5, m: Machine, x: bv32)
    requires Loaded(mem, IndexWords(offset, b, index, scale, true), a) && IsAt(m, Addr(a, 2)) && Reg(m, T2) == x
    ensures var e := Steps(mem, m, 2);
      && IsAt(e, Addr(a, 4)) && SameBut(m, e, {T0, T2}) && Reg(e, T2) == Sum(x, Upper(RoundedUpper(offset)))
  {
    var code, u := IndexWords(offset, b, index, scale, true), Upper(RoundedUpper(offset));
    hide Execute, Addr, Next, Reg, Set, Advance, Loaded, Lui, Addu, Sll, RoundedUpper, Upper, Fits16, Sum;
    LuiRuns(T0, RoundedUpper(offset), m);
    OneGives(mem, code, a, 2, m, T0, u);
    var m1 := Steps(mem, m, 1);
    AdduExecutes(T2, T2, T0, m1);
    OneGives(mem, code, a, 3, m1, T2, Sum(x, u));
    StepsAdd(mem, m, 1, 1);
  }

  // The same with a scaled index.
  lemma IndexedAddressIsExact(
      mem: bv32 -> bv32, a: bv32, offset: bv32, b: bv5, index: bv5, scale: bv5, fixedWidth: bool, m: Machine)
    requires Loaded(mem, IndexWords(offset, b, index, scale, fixedWidth), a) && IsAt(m, Addr(a, 0)) && b != T2
    ensures var n := |IndexWords(offset, b, index, scale, fixedWidth)|; var e := Steps(mem, m, n);
      && IsAt(e, Addr(a, n)) && SameBut(m, e, {T0, T2})
      && Sum(Reg(e, T2), SignExtend16(offset)) == Sum(Sum(Shifted(Reg(m, index), scale), Reg(m, b)), offset)
  {
    hide Execute, Addr, Next, Reg, Loaded, Lui, Addu, Sll, RoundedUpper, Upper, Fits16, Sum, SignExtend16, Shifted, Steps;
    var x, u := Sum(Shifted(Reg(m, index), scale), Reg(m, b)), Upper(RoundedUpper(offset));
    IndexIsAdded(mem, a, offset, b, index, scale, fixedWidth, m);
    if Fits16(offset) && !fixedWidth {
      SmallConstants(offset);
    } else {
      SplitJoins(offset);
      SumsReorder(u, x, SignExtend16(offset));
      OffsetIsAdded(mem, a, offset, b, index, scale, Steps(mem, m, 2), x);
      StepsAdd(mem, m, 2, 2);
    }
  }

  lemma IndexedLoadRuns(
      mem: bv32 -> bv32, a: bv32, offset: bv32, b: bv5, index: bv5, scale: bv5, fixedWidth: bool, dest: bv5, m: Machine)
    requires Loaded(mem, IndexLoadWords(offset, b, index, scale, fixedWidth, dest), a) && IsAt(m, Addr(a, 0))
    requires b != T2 && dest != ZERO
    ensures var n := |IndexLoadWords(offset, b, index, scale, fixedWidth, dest)|; var e := Steps(mem, m, n);
      && n == (if (offset <= 0x7fff || offset >= 0xffff_8000) && !fixedWidth then 3 else 5)
      && IsAt(e, Addr(a, n)) && SameBut(m, e, {T0, T2, dest})
      && Reg(e, dest) == m.data(Sum(Sum(Shifted(Reg(m, index), scale), Reg(m, b)), offset))
  {
    ShortIsSigned(offset);
    hide Addr, Next, Reg, Loaded, Lui, Addu, Sll, Lw, RoundedUpper, Fits16, Sum, SignExtend16, Shifted, Steps;
    var words := IndexWords(offset, b, index, scale, fixedWidth);
    PrefixIsLoaded(mem, words, Lw(dest, T2, offset), a);
    IndexedAddressIsExact(mem, a, offset, b, index, scale, fixedWidth, m);
    LoadEnds(mem, words + [Lw(dest, T2, offset)], a, m, |words|, dest, T2, offset, {T0, T2},
             Sum(Sum(Shifted(Reg(m, index), scale), Reg(m, b)), offset));
  }

  lemma IndexedStoreRuns(
      mem: bv32 -> bv32, a: bv32, offset: bv32, b: bv5, index: bv5, scale: bv5, fixedWidth: bool, src: bv5, m: Machine)
    requires Loaded(mem, IndexStoreWords(offset, b, index, scale, fixedWidth, src), a) && IsAt(m, Addr(a, 0))
    requires b != T2 && src != T0 && src != T2
    ensures var n := |IndexStoreWords(offset, b, index, scale, fixedWidth, src)|; var e := Steps(mem, m, n);
      && n == (if (offset <= 0x7fff || offset >= 0xffff_8000) && !fixedWidth then 3 else 5)
      && IsAt(e, Addr(a, n))
      && Stores(m, e, Sum(Sum(Shifted(Reg(m, index), scale), Reg(m, b)), offset), Reg(m, src), {T0, T2})
  {
    ShortIsSigned(offset);
    hide Addr, Next, Reg, Loaded, Lui, Addu, Sll, Sw, RoundedUpper, Fits16, Sum, SignExtend16, Shifted, Steps, Stores;
    var words := IndexWords(offset, b, index, scale, fixedWidth);
    PrefixIsLoaded(mem, words, Sw(src, T2, offset), a);
    IndexedAddressIsExact(mem, a, offset, b, index, scale, fixedWidth, m);
    StoreEnds(mem, words + [Sw(src, T2, offset)], a, m, |words|, src, T2, offset, {T0, T2},
              Sum(Sum(Shifted(Reg(m, index), scale), Reg(m, b)), offset));
  }
}
