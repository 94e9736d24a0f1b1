// A Thumb-2 core with IT blocks: the instructions of jump slots, calls and patchable constants.
module ThumbMachine {
  import opened ThumbWords

  datatype Cpu = Cpu(pc: bv32, regs: bv4 -> bv32, it: bv8, thumb: bool)

  datatype Insn =
    | It(state: bv8)
    | Nop(size: bv32)
    | MovW(rd: bv4, imm: bv16)
    | MovT(rd: bv4, imm: bv16)
    | BX(rm: bv4)
    | BLX(rm: bv4)
    | B(offset: bv32)
    | Other

  function At(a: bv32, n: bv32): bv32 { a + n }

  function RmOf(h: bv16): bv4 { ((h >> 3) & 15) as bv4 }

  function ItState(h: bv16): bv8 { (h & 0xff) as bv8 }

  predicate IsIt(h: bv16) { h & 0xff00 == OP_IT && h & 15 != 0 }

  predicate IsBLX(h: bv16) { h & 0xff87 == 0x4780 }

  function Decode(first: bv16, second: bv16): Insn
  {
    if IsNopT1(first) then Nop(2)
    else if IsIt(first) then It(ItState(first))
    else if IsBX(first) then BX(RmOf(first))
    else if IsBLX(first) then BLX(RmOf(first))
    else if IsMovT3(first, second) then MovW(RdOf(second), ImmOf(first, second))
    else if IsMovt(first, second) then MovT(RdOf(second), ImmOf(first, second))
    else if IsNopT2(first, second) then Nop(4)
    else if IsB(first, second) then B(BranchOffset(first, second))
    else Other
  }

  function Size(i: Insn): bv32
  {
    match i
    case It(_) => 2
    case BX(_) => 2
    case BLX(_) => 2
    case Nop(n) => n
    case _ => 4
  }

  // Section A2.5.2 of ARM DDI 0406B: the condition of the next instruction, and ITAdvance().
  predicate InItBlock(it: bv8) { it & 15 != 0 }
  function Condition(it: bv8): bv4 { (it >> 4) as bv4 }
  function ItAdvance(it: bv8): bv8 { if it & 7 == 0 then 0 else (it & 0xe0) | ((it << 1) & 0x1f) }

  predicate Passes(flags: bv4 -> bool, it: bv8) { InItBlock(it) ==> flags(Condition(it)) }

  function SetReg(c: Cpu, r: bv4, v: bv32): Cpu { c.(regs := (j: bv4) => if j == r then v else c.regs(j)) }

  function Even(v: bv32): bv32 { v & 0xffff_fffe }
  predicate IsOdd(v: bv32) { v & 1 != 0 }
  function ReturnTo(v: bv32): bv32 { v | 1 }
  function LowHalf(v: bv32): bv16 { (v & 0xffff) as bv16 }

  function Goto(c: Cpu, v: bv32): Cpu { c.(pc := Even(v), thumb := IsOdd(v)) }

  // What an instruction does if its condition passes; the IT state has been taken care of.
  function Perform(i: Insn, c: Cpu): Cpu
  {
    match i
    case It(_) => c.(pc := At(c.pc, 2))
    case Nop(n) => c.(pc := At(c.pc, n))
    case MovW(rd, imm) => SetReg(c, rd, Pair(imm, 0)).(pc := At(c.pc, 4))
    case MovT(rd, imm) => SetReg(c, rd, Pair(LowHalf(c.regs(rd)), imm)).(pc := At(c.pc, 4))
    case BX(rm) => Goto(c, c.regs(rm))
    case BLX(rm) => Goto(SetReg(c, 14, ReturnTo(At(c.pc, 2))), c.regs(rm))
    case B(offset) => c.(pc := At(At(c.pc, 4), offset))
    case Other => c
  }

  function Step(mem: bv32 -> bv16, flags: bv4 -> bool, c: Cpu): Cpu
  {
    var i := Decode(mem(c.pc), mem(At(c.pc, 2)));
    if i.It? then Perform(i, c.(it := i.state))
    else if Passes(flags, c.it) then Perform(i, c.(it := ItAdvance(c.it)))
    else c.(pc := At(c.pc, Size(i)), it := ItAdvance(c.it))
  }

  function Steps(mem: bv32 -> bv16, flags: bv4 -> bool, c: Cpu, n: nat): Cpu
    decreases n
  {
    if n == 0 then c else Steps(mem, flags, Step(mem, flags, c), n - 1)
  }

  // ---- IT blocks ----------------------------------------------------------------------------------

  // ifThenElseConditionBit, and ifThenElse for one to four instructions.
  function ConditionBit(cond: bv4, isIf: bool): bv8
  {
    if isIf then (cond as bv8) & 1 else ((cond as bv8) & 1) ^ 1
  }

  function IfThenElse1(cond: bv4): bv8 { ((cond as bv8) << 4) | 8 }

  function IfThenElse2(cond: bv4, if2: bool): bv8
  {
    ((cond as bv8) << 4) | (ConditionBit(cond, if2) << 3) | 4
  }

  function IfThenElse3(cond: bv4, if2: bool, if3: bool): bv8
  {
    ((cond as bv8) << 4) | (ConditionBit(cond, if2) << 3) | (ConditionBit(cond, if3) << 2) | 2
  }

  function IfThenElse4(cond: bv4, if2: bool, if3: bool, if4: bool): bv8
  {
    ((cond as bv8) << 4) | (ConditionBit(cond, if2) << 3) | (ConditionBit(cond, if3) << 2)
      | (ConditionBit(cond, if4) << 1) | 1
  }

  // The condition itself, or its opposite.
  function Wanted(cond: bv4, isIf: bool): bv4 { if isIf then cond else cond ^ 1 }

  // Every instruction of the block, and no more, runs under the condition it was given.
  lemma IfThenElse1Predicates(cond: bv4)
    ensures var s := IfThenElse1(cond); InItBlock(s) && Condition(s) == cond && ItAdvance(s) == 0
  {
  }

  lemma IfThenElse2Predicates(cond: bv4, if2: bool)
    ensures var s := IfThenElse2(cond, if2); var s1 := ItAdvance(s);
      && InItBlock(s) && Condition(s) == cond
      && InItBlock(s1) && Condition(s1) == Wanted(cond, if2) && ItAdvance(s1) == 0
  {
  }

  lemma IfThenElse3Predicates(cond: bv4, if2: bool, if3: bool)
    ensures var s := IfThenElse3(cond, if2, if3); var s1 := ItAdvance(s); var s2 := ItAdvance(s1);
      && InItBlock(s) && Condition(s) == cond && InItBlock(s1) && Condition(s1) == Wanted(cond, if2)
      && InItBlock(s2) && Condition(s2) == Wanted(cond, if3) && ItAdvance(s2) == 0
  {
  }

  lemma IfThenElse4Predicates(cond: bv4, if2: bool, if3: bool, if4: bool)
    ensures var s := IfThenElse4(cond, if2, if3, if4);
      var s1 := ItAdvance(s); var s2 := ItAdvance(s1); var s3 := ItAdvance(s2);
      && InItBlock(s) && Condition(s) == cond && InItBlock(s1) && Condition(s1) == Wanted(cond, if2)
      && InItBlock(s2) && Condition(s2) == Wanted(cond, if3)
      && InItBlock(s3) && Condition(s3) == Wanted(cond, if4) && ItAdvance(s3) == 0
  {
  }
}
