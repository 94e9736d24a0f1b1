// The overflow branches of MacroAssemblerMIPS: a few instructions that compute the result
// and decide, then a jump slot that is reached exactly if the operation overflowed.
module MipsOverflow {
  import opened Options
  import opened SignedWords
  import opened MipsMachine
  import opened MipsSlots
  import opened MipsLayout

  const T1: bv5 := 9    // dataTempRegister
  const T2: bv5 := 10   // addrTempRegister
  const T3: bv5 := 11   // cmpTempRegister
  const ZERO: bv5 := 0

  // ---- The words --------------------------------------------------------------------------

  function Move(rd: bv5, rs: bv5): bv32 { RType(0x21, rd, rs, ZERO) }
  function Addu(rd: bv5, rs: bv5, rt: bv5): bv32 { RType(0x21, rd, rs, rt) }
  function Subu(rd: bv5, rs: bv5, rt: bv5): bv32 { RType(0x23, rd, rs, rt) }
  function XorInsn(rd: bv5, rs: bv5, rt: bv5): bv32 { RType(0x26, rd, rs, rt) }
  function Mult(rs: bv5, rt: bv5): bv32 { RType(0x18, ZERO, rs, rt) }
  function Mfhi(rd: bv5): bv32 { RType(0x10, rd, ZERO, ZERO) }
  function Mflo(rd: bv5): bv32 { RType(0x12, rd, ZERO, ZERO) }
  function SraBy31(rd: bv5, rt: bv5): bv32 { RType(0x7c3, rd, ZERO, rt) }

  // branchAdd32, branchSub32 and branchMul32 for Overflow, and branch32 for it, up to the slot.
  function AddCheck(src: bv5, dest: bv5): seq<bv32>
  {
    [Move(T1, dest), XorInsn(T3, T1, src), Bltz(T3, 10), Addu(dest, T1, src),
     XorInsn(T3, dest, T1), Bgez(T3, 7), NOP]
  }

  function SubCheck(src: bv5, dest: bv5): seq<bv32>
  {
    [Move(T1, dest), XorInsn(T3, T1, src), Bgez(T3, 10), Subu(dest, T1, src),
     XorInsn(T3, dest, T1), Bgez(T3, 7), NOP]
  }

  function MulCheck(src: bv5, dest: bv5): seq<bv32>
  {
    [Mult(src, dest), Mfhi(T1), Mflo(dest), SraBy31(T2, dest), Beq(T1, T2, 7), NOP]
  }

  function CompareCheck(left: bv5, right: bv5): seq<bv32>
  {
    [XorInsn(T3, left, right), Bgez(T3, 11), NOP, Subu(T3, left, right),
     XorInsn(T3, T3, left), Bgez(T3, 7), NOP]
  }

  // ---- What the words do -----------------------------------------------------------------------

  lemma FieldsOf(funct: bv32, rd: bv5, rs: bv5, rt: bv5)
    requires funct & 0x7ff == funct
    ensures Op(funct | ((rd as bv32) << 11) | ((rs as bv32) << 21) | ((rt as bv32) << 16)) == 0
    ensures Rs(funct | ((rd as bv32) << 11) | ((rs as bv32) << 21) | ((rt as bv32) << 16)) == rs
    ensures Rt(funct | ((rd as bv32) << 11) | ((rs as bv32) << 21) | ((rt as bv32) << 16)) == rt
    ensures Rd(funct | ((rd as bv32) << 11) | ((rs as bv32) << 21) | ((rt as bv32) << 16)) == rd
    ensures (funct | ((rd as bv32) << 11) | ((rs as bv32) << 21) | ((rt as bv32) << 16)) & 63 == funct & 63
    ensures Shamt(funct | ((rd as bv32) << 11) | ((rs as bv32) << 21) | ((rt as bv32) << 16)) == ((funct >> 6) & 31) as bv5
  {
  }

  lemma RTypeFields(funct: bv32, rd: bv5, rs: bv5, rt: bv5)
    requires funct & 0x7ff == funct
    ensures var w := RType(funct, rd, rs, rt);
      Op(w) == 0 && w & 63 == funct & 63 && Rs(w) == rs && Rt(w) == rt && Rd(w) == rd
      && Shamt(w) == ((funct >> 6) & 31) as bv5
  {
    FieldsOf(funct, rd, rs, rt);
    hide Op, Rs, Rt, Rd, Shamt;
  }

  lemma AdduExecutes(rd: bv5, rs: bv5, rt: bv5, m: Machine)
    ensures Execute(Addu(rd, rs, rt), m) == Set(Advance(m), rd, Sum(Reg(m, rs), Reg(m, rt)))
  {
    RTypeFields(0x21, rd, rs, rt);
    hide RType, Op, Rs, Rt, Rd, Shamt, Set, Reg, Advance, Sum, Difference, Xor, Product, Branch;
  }

  lemma SubuExecutes(rd: bv5, rs: bv5, rt: bv5, m: Machine)
    ensures Execute(Subu(rd, rs, rt), m) == Set(Advance(m), rd, Difference(Reg(m, rs), Reg(m, rt)))
  {
    RTypeFields(0x23, rd, rs, rt);
    hide RType, Op, Rs, Rt, Rd, Shamt, Set, Reg, Advance, Sum, Difference, Xor, Product, Branch;
  }

  lemma XorExecutes(rd: bv5, rs: bv5, rt: bv5, m: Machine)
    ensures Execute(XorInsn(rd, rs, rt), m) == Set(Advance(m), rd, Xor(Reg(m, rs), Reg(m, rt)))
  {
    RTypeFields(0x26, rd, rs, rt);
    hide RType, Op, Rs, Rt, Rd, Shamt, Set, Reg, Advance, Sum, Difference, Xor, Product, Branch;
  }

  lemma MultExecutes(rs: bv5, rt: bv5, m: Machine)
    ensures Execute(Mult(rs, rt), m)
         == Advance(m).(hi := High32(Product(Reg(m, rs), Reg(m, rt))), lo := Low32(Product(Reg(m, rs), Reg(m, rt))))
  {
    RTypeFields(0x18, ZERO, rs, rt);
    hide RType, Op, Rs, Rt, Rd, Shamt, Set, Reg, Advance, Sum, Difference, Xor, Product, Branch, High32, Low32;
  }

  lemma MfhiExecutes(rd: bv5, m: Machine)
    ensures Execute(Mfhi(rd), m) == Set(Advance(m), rd, m.hi)
  {
    RTypeFields(0x10, rd, ZERO, ZERO);
    hide RType, Op, Rs, Rt, Rd, Shamt, Set, Reg, Advance, Sum, Difference, Xor, Product, Branch;
  }

  lemma MfloExecutes(rd: bv5, m: Machine)
    ensures Execute(Mflo(rd), m) == Set(Advance(m), rd, m.lo)
  {
    RTypeFields(0x12, rd, ZERO, ZERO);
    hide RType, Op, Rs, Rt, Rd, Shamt, Set, Reg, Advance, Sum, Difference, Xor, Product, Branch;
  }

  lemma SraExecutes(rd: bv5, rt: bv5, m: Machine)
    ensures Execute(SraBy31(rd, rt), m) == Set(Advance(m), rd, Sra31(Reg(m, rt)))
  {
    RTypeFields(0x7c3, rd, ZERO, rt);
    hide RType, Op, Rs, Rt, Rd, Shamt, Set, Reg, Advance, Sum, Difference, Xor, Product, Branch, Sra31;
  }

  // ---- Branches over words ---------------------------------------------------------------------------

  lemma RegimmFields(op: bv32, rs: bv5, imm: bv32)
    requires op & 0x001f_0000 == op && imm & 0x7fff == imm
    ensures Op(0x0400_0000 | op | ((rs as bv32) << 21) | ((0 as bv32) << 16) | (imm & 0xffff)) == 1
    ensures Rs(0x0400_0000 | op | ((rs as bv32) << 21) | ((0 as bv32) << 16) | (imm & 0xffff)) == rs
    ensures Rt(0x0400_0000 | op | ((rs as bv32) << 21) | ((0 as bv32) << 16) | (imm & 0xffff)) == (op >> 16) as bv5
    ensures SignExtend16(0x0400_0000 | op | ((rs as bv32) << 21) | ((0 as bv32) << 16) | (imm & 0xffff)) == imm
  {
  }

  lemma BltzFields(rs: bv5, imm: bv32)
    requires imm & 0x7fff == imm
    ensures var w := Bltz(rs, imm); Op(w) == 1 && Rs(w) == rs && Rt(w) == 0 && SignExtend16(w) == imm
  {
    RegimmFields(0, rs, imm);
    hide Op, Rs, Rt, SignExtend16;
  }

  lemma BgezFields(rs: bv5, imm: bv32)
    requires imm & 0x7fff == imm
    ensures var w := Bgez(rs, imm); Op(w) == 1 && Rs(w) == rs && Rt(w) == 1 && SignExtend16(w) == imm
  {
    RegimmFields(0x0001_0000, rs, imm);
    hide Op, Rs, Rt, SignExtend16;
  }

  lemma BeqWord(imm: bv32)
    requires imm & 0x7fff == imm
    ensures var w := Beq(T1, T2, imm); Op(w) == 4 && Rs(w) == T1 && Rt(w) == T2 && SignExtend16(w) == imm
  {
  }

  lemma {:induction false} OffsetsAdd(i: nat, n: nat)
    ensures WordOffset(i + n) == Plus(WordOffset(i), WordOffset(n))
    decreases n
  {
    if n > 0 {
      OffsetsAdd(i, n - 1);
      NextOfSum(WordOffset(i), WordOffset(n - 1));
      hide Next, Plus;
      assert WordOffset(i + n) == Next(WordOffset(i + n - 1));
    } else {
      hide Next;
    }
  }

  lemma BehindSum(base: bv32, x: bv32, d: bv32)
    ensures Behind(base + x, d) == base + (x + d + 4)
  {
  }

  lemma NextPlus(x: bv32, d: bv32)
    ensures Next(x + d) == x + d + 4 && Plus(x, d) == x + d
  {
  }

  // A branch of n words at word i lands on word i + n + 1.
  lemma BranchLands(base: bv32, i: nat, n: nat)
    requires i + n + 1 < MAX_WORDS
    ensures Behind(Addr(base, i), WordOffset(n)) == Addr(base, i + n + 1)
  {
    OffsetsAdd(i, n);
    BehindSum(base, WordOffset(i), WordOffset(n));
    NextPlus(WordOffset(i), WordOffset(n));
    NextPlus(base, WordOffset(i));
    NextPlus(base, Next(WordOffset(i + n)));
    hide Next, Behind, Plus;
  }

  lemma Distances()
    ensures WordOffset(7) == 28 && WordOffset(10) == 40 && WordOffset(11) == 44
  {
    assert WordOffset(3) == 12;
    assert WordOffset(6) == 24;
    assert WordOffset(9) == 36;
  }

  lemma RegimmExecutes(w: bv32, m: Machine, rs: bv5, imm: bv32)
    requires Op(w) == 1 && Rs(w) == rs && SignExtend16(w) == imm && (Rt(w) == 0 || Rt(w) == 1)
    ensures Execute(w, m) == Branch(m, IsNegative(Reg(m, rs)) == (Rt(w) == 0), Behind(m.pc, imm << 2))
  {
    hide Op, Rs, Rt, Top, SignExtend16, IsNegative, Reg, Behind, Branch, StepSpecial, JumpTarget, Taken, Set, Advance,
      ReturnAddress, Joined, Upper, Sum;
  }

  // bltz and bgez at word i, over n words.
  lemma SignBranchExecutes(negative: bool, rs: bv5, imm: bv32, m: Machine, base: bv32, i: nat, n: nat)
    requires i + n + 1 < MAX_WORDS && m.pc == Addr(base, i) && imm & 0x7fff == imm && imm << 2 == WordOffset(n)
    ensures Execute(if negative then Bltz(rs, imm) else Bgez(rs, imm), m)
         == Branch(m, IsNegative(Reg(m, rs)) == negative, Addr(base, i + n + 1))
  {
    BltzFields(rs, imm);
    BgezFields(rs, imm);
    BranchLands(base, i, n);
    hide Op, Rs, Rt, SignExtend16, IsNegative, Reg, Behind, Branch, Bltz, Bgez, Addr, WordOffset, Execute;
    RegimmExecutes(if negative then Bltz(rs, imm) else Bgez(rs, imm), m, rs, imm);
  }

  lemma BeqExecutes(m: Machine, base: bv32, i: nat)
    requires i + 8 < MAX_WORDS && m.pc == Addr(base, i)
    ensures Execute(Beq(T1, T2, 7), m) == Branch(m, Reg(m, T1) == Reg(m, T2), Addr(base, i + 8))
  {
    BeqWord(7);
    Distances();
    BranchLands(base, i, 7);
    hide Op, Rs, Rt, SignExtend16, Reg, Behind, Branch, Beq, Addr, WordOffset;
  }

  // ---- Running the sequences ---------------------------------------------------------------------------

  ghost predicate SameRegsBut(m: Machine, e: Machine, changed: set<bv5>)
  {
    e.fcc == m.fcc && e.data == m.data && forall i :: i !in changed ==> Reg(e, i) == Reg(m, i)
  }

  ghost predicate SameBut(m: Machine, e: Machine, changed: set<bv5>)
  {
    SameRegsBut(m, e, changed) && e.hi == m.hi && e.lo == m.lo
  }

  lemma StepAt(mem: bv32 -> bv32, code: seq<bv32>, base: bv32, i: nat, m: Machine)
    requires Loaded(mem, code, base) && i < |code| && i + 2 < MAX_WORDS && m.pc == Addr(base, i)
    ensures Step(mem, m) == Execute(code[i], m)
    ensures m.npc == Next(m.pc) ==> Advance(m).pc == Addr(base, i + 1) && Advance(m).npc == Next(Addr(base, i + 1))
  {
    NextAddr(base, i);
    hide Execute, Addr, Next;
  }

  lemma SumZero(x: bv32)
    ensures Sum(x, 0) == x
  {
  }

  lemma StepsOne(mem: bv32 -> bv32, m: Machine, n: nat)
    ensures Steps(mem, m, n + 1) == Steps(mem, Step(mem, m), n) && Steps(mem, m, 0) == m
  {
    hide Step;
  }

  function Check(add: bool, src: bv5, dest: bv5): seq<bv32>
  {
    if add then AddCheck(src, dest) else SubCheck(src, dest)
  }

  function Result(add: bool, x: bv32, y: bv32): bv32 { if add then Sum(x, y) else Difference(x, y) }

  predicate Overflows(add: bool, x: bv32, y: bv32)
  {
    if add then AddOverflows(x, y) else SubOverflows(x, y)
  }

  lemma OperationExecutes(add: bool, rd: bv5, rs: bv5, rt: bv5, m: Machine)
    ensures Execute(if add then Addu(rd, rs, rt) else Subu(rd, rs, rt), m)
         == Set(Advance(m), rd, Result(add, Reg(m, rs), Reg(m, rt)))
  {
    AdduExecutes(rd, rs, rt, m);
    SubuExecutes(rd, rs, rt, m);
    hide Execute, Addu, Subu, Sum, Difference, Set, Reg, Advance;
  }

  // What an instruction that writes register i leaves.
  lemma Written(m: Machine, i: bv5, v: bv32)
    requires i != ZERO
    ensures var e := Set(Advance(m), i, v);
      && e.pc == m.npc && e.npc == Next(m.npc) && e.hi == m.hi && e.lo == m.lo && e.fcc == m.fcc
      && e.data == m.data && Reg(e, i) == v && forall j :: j != i ==> Reg(e, j) == Reg(m, j)
  {
    hide Next;
  }

  // bgez on the scratch register, and the nop in its delay slot.
  lemma BgezAndNop(mem: bv32 -> bv32, code: seq<bv32>, base: bv32, i: nat, imm: bv32, n: nat, m: Machine)
    requires i + n + 3 < MAX_WORDS && imm & 0x7fff == imm && imm << 2 == WordOffset(n)
    requires Loaded(mem, code, base) && i + 1 < |code| && code[i] == Bgez(T3, imm) && code[i + 1] == NOP
    requires IsAt(m, Addr(base, i))
    ensures var e := Steps(mem, m, 2);
      SameBut(m, e, {}) && IsAt(e, Addr(base, if IsNegative(Reg(m, T3)) then i + 2 else i + n + 1))
  {
    hide Execute, Addr, Next, IsNegative, Steps, Step, Loaded, Bltz, Bgez, WordOffset;
    StepAt(mem, code, base, i, m);
    SignBranchExecutes(false, T3, imm, m, base, i, n);
    var m1 := Step(mem, m);
    StepAt(mem, code, base, i + 1, m1);
    NopSteps(m1);
    NextAddr(base, i + 1);
    StepsOne(mem, m, 1);
    StepsOne(mem, m1, 0);
    StepsOne(mem, Step(mem, m1), 0);
  }

  lemma CheckWords(add: bool, src: bv5, dest: bv5)
    ensures var c := Check(add, src, dest);
      && |c| == 7 && c[0] == Addu(T1, dest, ZERO) && c[1] == XorInsn(T3, T1, src)
      && c[2] == (if add then Bltz(T3, 10) else Bgez(T3, 10))
      && c[3] == (if add then Addu(dest, T1, src) else Subu(dest, T1, src))
      && c[4] == XorInsn(T3, dest, T1) && c[5] == Bgez(T3, 7) && c[6] == NOP
  {
    hide RType, Bltz, Bgez;
  }

  lemma FirstTwo(mem: bv32 -> bv32, base: bv32, add: bool, src: bv5, dest: bv5, m: Machine)
    requires Loaded(mem, Check(add, src, dest), base) && IsAt(m, Addr(base, 0)) && src != T1
    ensures var e := Steps(mem, m, 2);
      && Reg(e, T1) == Reg(m, dest) && Reg(e, T3) == Xor(Reg(m, dest), Reg(m, src))
      && SameBut(m, e, {T1, T3}) && IsAt(e, Addr(base, 2))
  {
    var code := Check(add, src, dest);
    CheckWords(add, src, dest);
    SumZero(Reg(m, dest));
    assert Reg(m, ZERO) == 0;
    hide Check, Addu, XorInsn, Execute, Addr, Next, Sum, Xor, Steps, Step, Loaded, Bltz, Bgez, RType, Reg, Set, Advance;
    StepAt(mem, code, base, 0, m);
    AdduExecutes(T1, dest, ZERO, m);
    Written(m, T1, Reg(m, dest));
    var m1 := Step(mem, m);
    StepAt(mem, code, base, 1, m1);
    XorExecutes(T3, T1, src, m1);
    Written(m1, T3, Xor(Reg(m, dest), Reg(m, src)));
    NextAddr(base, 0);
    NextAddr(base, 1);
    StepsOne(mem, m, 1);
    StepsOne(mem, m1, 0);
    StepsOne(mem, Step(mem, m1), 0);
  }

  lemma BranchAndOperate(mem: bv32 -> bv32, base: bv32, add: bool, src: bv5, dest: bv5, m: Machine)
    requires Loaded(mem, Check(add, src, dest), base) && IsAt(m, Addr(base, 2)) && dest != ZERO
    ensures var e := Steps(mem, m, 2);
      && Reg(e, dest) == Result(add, Reg(m, T1), Reg(m, src)) && SameBut(m, e, {dest})
      && IsAt(e, Addr(base, if IsNegative(Reg(m, T3)) == add then 13 else 4))
  {
    var code := Check(add, src, dest);
    CheckWords(add, src, dest);
    Distances();
    hide Check, Addu, Subu, XorInsn, Execute, Addr, Next, IsNegative, Result, Steps, Step, Loaded, Bltz, Bgez, WordOffset, RType;
    StepAt(mem, code, base, 2, m);
    SignBranchExecutes(add, T3, 10, m, base, 2, 10);
    var m1 := Step(mem, m);
    assert forall i :: Reg(m1, i) == Reg(m, i);
    hide Reg, Set, Advance, Branch;
    StepAt(mem, code, base, 3, m1);
    NextAddr(base, 3);
    OperationExecutes(add, dest, T1, src, m1);
    Written(m1, dest, Result(add, Reg(m, T1), Reg(m, src)));
    StepsOne(mem, m, 1);
    StepsOne(mem, m1, 0);
    StepsOne(mem, Step(mem, m1), 0);
  }

  // A copy of the destination, the signs, a branch on them, and the operation in its delay slot.
  lemma FirstFour(mem: bv32 -> bv32, base: bv32, add: bool, src: bv5, dest: bv5, m: Machine)
    requires Loaded(mem, Check(add, src, dest), base) && IsAt(m, Addr(base, 0))
    requires dest !in {ZERO, T1, T3} && src !in {T1, T3}
    ensures var e := Steps(mem, m, 4); var x, y := Reg(m, dest), Reg(m, src);
      && Reg(e, dest) == Result(add, x, y) && Reg(e, T1) == x && SameBut(m, e, {dest, T1, T3})
      && IsAt(e, Addr(base, if IsNegative(Xor(x, y)) == add then 13 else 4))
  {
    hide Addr, Next, Xor, IsNegative, Result, Steps, Loaded, Check, Reg;
    FirstTwo(mem, base, add, src, dest, m);
    BranchAndOperate(mem, base, add, src, dest, Steps(mem, m, 2));
    StepsAdd(mem, m, 2, 2);
  }

  // The sign of the result, and a branch around the slot.
  lemma LastThree(mem: bv32 -> bv32, base: bv32, add: bool, src: bv5, dest: bv5, m: Machine)
    requires Loaded(mem, Check(add, src, dest), base) && IsAt(m, Addr(base, 4)) && dest != T3
    ensures var e := Steps(mem, m, 3);
      && SameBut(m, e, {T3})
      && IsAt(e, Addr(base, if IsNegative(Xor(Reg(m, dest), Reg(m, T1))) then 7 else 13))
  {
    var code := Check(add, src, dest);
    CheckWords(add, src, dest);
    Distances();
    hide Check, Addu, Subu, XorInsn, Execute, Addr, Next, Xor, IsNegative, Steps, Step, Loaded, Bltz, Bgez, WordOffset, RType;
    StepAt(mem, code, base, 4, m);
    XorExecutes(T3, dest, T1, m);
    var m1 := Step(mem, m);
    StepsOne(mem, m, 2);
    BgezAndNop(mem, code, base, 5, 7, 7, m1);
  }

  // dest ends up with the wrapped sum or difference, and the slot behind the seven words is
  // reached exactly if it overflowed; otherwise control comes out behind the slot.
  lemma AddOrSubRuns(mem: bv32 -> bv32, base: bv32, add: bool, src: bv5, dest: bv5, m: Machine) returns (n: nat)
    requires Loaded(mem, Check(add, src, dest), base) && IsAt(m, Addr(base, 0))
    requires dest !in {ZERO, T1, T3} && src !in {T1, T3}
    ensures var e := Steps(mem, m, n); var x, y := Reg(m, dest), Reg(m, src);
      && Reg(e, dest) == Result(add, x, y) && SameBut(m, e, {dest, T1, T3})
      && IsAt(e, Addr(base, if Overflows(add, x, y) then 7 else 13))
  {
    var x, y := Reg(m, dest), Reg(m, src);
    AddOverflowsIff(x, y);
    SubOverflowsIff(x, y);
    hide Addr, Next, Sum, Difference, Xor, IsNegative, AddOverflows, SubOverflows, Steps, Loaded, Check, Reg;
    FirstFour(mem, base, add, src, dest, m);
    if IsNegative(Xor(x, y)) == add {
      return 4;
    }
    LastThree(mem, base, add, src, dest, Steps(mem, m, 4));
    StepsAdd(mem, m, 4, 3);
    return 7;
  }

  lemma MulWords(src: bv5, dest: bv5)
    ensures var c := MulCheck(src, dest);
      && |c| == 6 && c[0] == Mult(src, dest) && c[1] == Mfhi(T1) && c[2] == Mflo(dest)
      && c[3] == SraBy31(T2, dest) && c[4] == Beq(T1, T2, 7) && c[5] == NOP
  {
    hide RType, Beq;
  }

  lemma CompareWords(left: bv5, right: bv5)
    ensures var c := CompareCheck(left, right);
      && |c| == 7 && c[0] == XorInsn(T3, left, right) && c[1] == Bgez(T3, 11) && c[2] == NOP
      && c[3] == Subu(T3, left, right) && c[4] == XorInsn(T3, T3, left) && c[5] == Bgez(T3, 7) && c[6] == NOP
  {
    hide RType, Bgez;
  }

  // mult, mfhi and mflo.
  lemma Multiply(mem: bv32 -> bv32, base: bv32, src: bv5, dest: bv5, m: Machine)
    requires Loaded(mem, MulCheck(src, dest), base) && IsAt(m, Addr(base, 0))
    requires dest !in {ZERO, T1}
    ensures var e := Steps(mem, m, 3); var p := Product(Reg(m, src), Reg(m, dest));
      && Reg(e, T1) == High32(p) && Reg(e, dest) == Low32(p)
      && SameRegsBut(m, e, {dest, T1}) && e.hi == High32(p) && e.lo == Low32(p) && IsAt(e, Addr(base, 3))
  {
    var code := MulCheck(src, dest);
    MulWords(src, dest);
    hide MulCheck, Mult, Mfhi, Mflo, SraBy31, Execute, Addr, Next, Product, High32, Low32, Steps, Step, Loaded, RType, Beq;
    StepAt(mem, code, base, 0, m);
    MultExecutes(src, dest, m);
    var m1 := Step(mem, m);
    StepAt(mem, code, base, 1, m1);
    MfhiExecutes(T1, m1);
    var m2 := Step(mem, m1);
    StepAt(mem, code, base, 2, m2);
    MfloExecutes(dest, m2);
    StepsOne(mem, m, 2);
    StepsOne(mem, m1, 1);
    StepsOne(mem, m2, 0);
    StepsOne(mem, Step(mem, m2), 0);
  }

  lemma BeqAndNop(mem: bv32 -> bv32, base: bv32, src: bv5, dest: bv5, m: Machine)
    requires Loaded(mem, MulCheck(src, dest), base) && IsAt(m, Addr(base, 4))
    ensures var e := Steps(mem, m, 2);
      SameBut(m, e, {}) && IsAt(e, Addr(base, if Reg(m, T1) == Reg(m, T2) then 12 else 6))
  {
    var code := MulCheck(src, dest);
    MulWords(src, dest);
    hide MulCheck, SraBy31, Execute, Addr, Next, Steps, Step, Loaded, RType, Beq;
    StepAt(mem, code, base, 4, m);
    BeqExecutes(m, base, 4);
    var m1 := Step(mem, m);
    StepAt(mem, code, base, 5, m1);
    NextAddr(base, 5);
    NopSteps(m1);
    StepsOne(mem, m, 1);
    StepsOne(mem, m1, 0);
    StepsOne(mem, Step(mem, m1), 0);
  }

  // sra, and beq with its delay slot.
  lemma CompareHigh(mem: bv32 -> bv32, base: bv32, src: bv5, dest: bv5, m: Machine)
    requires Loaded(mem, MulCheck(src, dest), base) && IsAt(m, Addr(base, 3)) && dest != T2
    ensures var e := Steps(mem, m, 3);
      && SameBut(m, e, {T2})
      && IsAt(e, Addr(base, if Reg(m, T1) != Sra31(Reg(m, dest)) then 6 else 12))
  {
    var code := MulCheck(src, dest);
    MulWords(src, dest);
    hide MulCheck, Mult, Mfhi, Mflo, SraBy31, Execute, Addr, Next, Sra31, Steps, Step, Loaded, RType, Beq, Reg, Set, Advance;
    StepAt(mem, code, base, 3, m);
    SraExecutes(T2, dest, m);
    Written(m, T2, Sra31(Reg(m, dest)));
    NextAddr(base, 3);
    StepsOne(mem, m, 2);
    BeqAndNop(mem, base, src, dest, Step(mem, m));
  }

  // The same for the product, whose operands may be one register.
  lemma MulRuns(mem: bv32 -> bv32, base: bv32, src: bv5, dest: bv5, m: Machine)
    requires Loaded(mem, MulCheck(src, dest), base) && IsAt(m, Addr(base, 0))
    requires dest !in {ZERO, T1, T2}
    ensures var e := Steps(mem, m, 6); var x, y := Reg(m, src), Reg(m, dest);
      && Reg(e, dest) == Low32(Product(x, y)) && SameRegsBut(m, e, {dest, T1, T2})
      && e.hi == High32(Product(x, y)) && e.lo == Low32(Product(x, y))
      && IsAt(e, Addr(base, if MulOverflows(x, y) then 6 else 12))
  {
    MulOverflowsIff(Reg(m, src), Reg(m, dest));
    hide Addr, Next, Product, High32, Low32, Sra31, MulOverflows, Steps, Loaded, MulCheck, Reg;
    Multiply(mem, base, src, dest, m);
    CompareHigh(mem, base, src, dest, Steps(mem, m, 3));
    StepsAdd(mem, m, 3, 3);
  }

  lemma CompareSigns(mem: bv32 -> bv32, base: bv32, left: bv5, right: bv5, m: Machine)
    requires Loaded(mem, CompareCheck(left, right), base) && IsAt(m, Addr(base, 0))
    ensures var e := Steps(mem, m, 3);
      && SameBut(m, e, {T3})
      && IsAt(e, Addr(base, if IsNegative(Xor(Reg(m, left), Reg(m, right))) then 3 else 13))
  {
    var code := CompareCheck(left, right);
    CompareWords(left, right);
    Distances();
    hide CompareCheck, Subu, XorInsn, Execute, Addr, Next, Xor, IsNegative, Steps, Step, Loaded, Bltz, Bgez, WordOffset, RType;
    StepAt(mem, code, base, 0, m);
    XorExecutes(T3, left, right, m);
    var m1 := Step(mem, m);
    StepsOne(mem, m, 2);
    BgezAndNop(mem, code, base, 1, 11, 11, m1);
  }

  lemma SubtractAndXor(mem: bv32 -> bv32, base: bv32, left: bv5, right: bv5, m: Machine)
    requires Loaded(mem, CompareCheck(left, right), base) && IsAt(m, Addr(base, 3)) && left != T3
    ensures var e := Steps(mem, m, 2);
      && Reg(e, T3) == Xor(Difference(Reg(m, left), Reg(m, right)), Reg(m, left))
      && SameBut(m, e, {T3}) && IsAt(e, Addr(base, 5))
  {
    var code := CompareCheck(left, right);
    CompareWords(left, right);
    hide CompareCheck, Subu, XorInsn, Execute, Addr, Next, Xor, Difference, Steps, Step, Loaded, Bgez, RType,
      Reg, Set, Advance;
    StepAt(mem, code, base, 3, m);
    SubuExecutes(T3, left, right, m);
    Written(m, T3, Difference(Reg(m, left), Reg(m, right)));
    var m1 := Step(mem, m);
    NextAddr(base, 3);
    StepAt(mem, code, base, 4, m1);
    XorExecutes(T3, T3, left, m1);
    Written(m1, T3, Xor(Reg(m1, T3), Reg(m1, left)));
    NextAddr(base, 4);
    StepsOne(mem, m, 1);
    StepsOne(mem, m1, 0);
    StepsOne(mem, Step(mem, m1), 0);
  }

  lemma CompareDifference(mem: bv32 -> bv32, base: bv32, left: bv5, right: bv5, m: Machine)
    requires Loaded(mem, CompareCheck(left, right), base) && IsAt(m, Addr(base, 3)) && left != T3
    ensures var e := Steps(mem, m, 4);
      && SameBut(m, e, {T3})
      && IsAt(e, Addr(base, if IsNegative(Xor(Difference(Reg(m, left), Reg(m, right)), Reg(m, left))) then 7 else 13))
  {
    CompareWords(left, right);
    Distances();
    hide CompareCheck, Addr, Next, Xor, Difference, IsNegative, Steps, Loaded, Bgez, WordOffset, RType, Reg;
    SubtractAndXor(mem, base, left, right, m);
    BgezAndNop(mem, CompareCheck(left, right), base, 5, 7, 7, Steps(mem, m, 2));
    StepsAdd(mem, m, 2, 2);
  }

  // branch32: two signs, then the sign of the difference; only the scratch register changes.
  lemma CompareRuns(mem: bv32 -> bv32, base: bv32, left: bv5, right: bv5, m: Machine) returns (n: nat)
    requires Loaded(mem, CompareCheck(left, right), base) && IsAt(m, Addr(base, 0))
    requires left != T3 && right != T3
    ensures var e := Steps(mem, m, n);
      && SameBut(m, e, {T3})
      && IsAt(e, Addr(base, if SubOverflows(Reg(m, left), Reg(m, right)) then 7 else 13))
  {
    var x, y := Reg(m, left), Reg(m, right);
    SubOverflowsIff(x, y);
    hide Addr, Next, Xor, Difference, IsNegative, SubOverflows, Steps, Loaded, CompareCheck, Reg;
    CompareSigns(mem, base, left, right, m);
    if !IsNegative(Xor(x, y)) {
      return 3;
    }
    CompareDifference(mem, base, left, right, Steps(mem, m, 3));
    StepsAdd(mem, m, 3, 4);
    return 7;
  }

  // ---- Check and slot together -------------------------------------------------------------------------

  // jump() is branchEqual(zero, zero).
  const ALWAYS: bv32 := 0x1000_0000

  lemma AlwaysIsTaken(m: Machine)
    ensures Taken(ALWAYS, m) && IsCondition(ALWAYS)
  {
    assert Op(ALWAYS) == 4 && Rs(ALWAYS) == 0 && Rt(ALWAYS) == 0;
  }

  function SlotWords(s: Slot): seq<bv32> { [s.w0, s.w1, s.w2, s.w3, s.w4, s.w5] }

  // A check of k words and then a slot linked to target, in whatever form.
  ghost predicate CheckAndSlot(mem: bv32 -> bv32, check: seq<bv32>, s: Slot, base: bv32, target: bv32)
  {
    |check| < 16 && Loaded(mem, check + SlotWords(s), base) && SlotOk(s, Addr(base, |check|), ALWAYS, Some(target))
  }

  lemma SlotRuns(mem: bv32 -> bv32, check: seq<bv32>, s: Slot, base: bv32, target: bv32, m: Machine) returns (n: nat)
    requires CheckAndSlot(mem, check, s, base, target) && IsAt(m, Addr(base, |check|))
    ensures IsAt(Steps(mem, m, n), target) && SameButT9(m, Steps(mem, m, n))
  {
    hide SlotOk, Addr, Steps, Loaded, Taken, Next, InMemory;
    AlwaysIsTaken(m);
    var code := check + SlotWords(s);
    SlotIsLoaded(mem, code, base, |check|);
    assert SlotAt(code, |check|) == s;
    n := SlotExecutes(mem, s, Addr(base, |check|), ALWAYS, Some(target), m);
  }

  lemma CheckIsLoaded(mem: bv32 -> bv32, check: seq<bv32>, s: Slot, base: bv32, target: bv32)
    requires CheckAndSlot(mem, check, s, base, target)
    ensures Loaded(mem, check, base)
  {
    hide Addr, SlotOk;
    var code := check + SlotWords(s);
    forall k | 0 <= k < |check| ensures mem(Addr(base, k)) == check[k] {
      assert code[k] == check[k];
    }
  }

  // branchAdd32 and branchSub32 as wholes: the target exactly on overflow, the word behind
  // the slot otherwise, and the wrapped result either way.
  lemma BranchAddOrSubRuns(mem: bv32 -> bv32, base: bv32, add: bool, src: bv5, dest: bv5, s: Slot, target: bv32, m: Machine)
    returns (n: nat)
    requires CheckAndSlot(mem, Check(add, src, dest), s, base, target) && IsAt(m, Addr(base, 0))
    requires dest !in {ZERO, T1, T3, T9} && src !in {T1, T3}
    ensures var e := Steps(mem, m, n); var x, y := Reg(m, dest), Reg(m, src);
      && Reg(e, dest) == Result(add, x, y) && SameBut(m, e, {dest, T1, T3, T9})
      && IsAt(e, if Overflows(add, x, y) then target else Addr(base, 13))
  {
    hide Addr, Next, Result, Overflows, Steps, Reg, SlotOk, Loaded;
    CheckIsLoaded(mem, Check(add, src, dest), s, base, target);
    n := AddOrSubRuns(mem, base, add, src, dest, m);
    if Overflows(add, Reg(m, dest), Reg(m, src)) {
      var k := SlotRuns(mem, Check(add, src, dest), s, base, target, Steps(mem, m, n));
      StepsAdd(mem, m, n, k);
      n := n + k;
    }
  }

  lemma BranchMulRuns(mem: bv32 -> bv32, base: bv32, src: bv5, dest: bv5, s: Slot, target: bv32, m: Machine)
    returns (n: nat)
    requires CheckAndSlot(mem, MulCheck(src, dest), s, base, target) && IsAt(m, Addr(base, 0))
    requires dest !in {ZERO, T1, T2, T9}
    ensures var e := Steps(mem, m, n); var x, y := Reg(m, src), Reg(m, dest);
      && Reg(e, dest) == Low32(Product(x, y)) && SameRegsBut(m, e, {dest, T1, T2, T9})
      && e.hi == High32(Product(x, y)) && e.lo == Low32(Product(x, y))
      && IsAt(e, if MulOverflows(x, y) then target else Addr(base, 12))
  {
    hide Addr, Next, High32, Low32, Product, MulOverflows, Steps, Reg, SlotOk, Loaded;
    CheckIsLoaded(mem, MulCheck(src, dest), s, base, target);
    MulRuns(mem, base, src, dest, m);
    n := 6;
    if MulOverflows(Reg(m, src), Reg(m, dest)) {
      var k := SlotRuns(mem, MulCheck(src, dest), s, base, target, Steps(mem, m, n));
      StepsAdd(mem, m, n, k);
      n := n + k;
    }
  }

  lemma BranchOverflowRuns(mem: bv32 -> bv32, base: bv32, left: bv5, right: bv5, s: Slot, target: bv32, m: Machine)
    returns (n: nat)
    requires CheckAndSlot(mem, CompareCheck(left, right), s, base, target) && IsAt(m, Addr(base, 0))
    requires left != T3 && right != T3
    ensures var e := Steps(mem, m, n);
      && SameBut(m, e, {T3, T9})
      && IsAt(e, if SubOverflows(Reg(m, left), Reg(m, right)) then target else Addr(base, 13))
  {
    hide Addr, Next, SubOverflows, Steps, Reg, SlotOk, Loaded;
    CheckIsLoaded(mem, CompareCheck(left, right), s, base, target);
    n := CompareRuns(mem, base, left, right, m);
    if SubOverflows(Reg(m, left), Reg(m, right)) {
      var k := SlotRuns(mem, CompareCheck(left, right), s, base, target, Steps(mem, m, n));
      StepsAdd(mem, m, n, k);
      n := n + k;
    }
  }
}
