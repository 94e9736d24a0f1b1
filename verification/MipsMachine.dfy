// A MIPS32 integer core with branch delay slots: the instructions that jump slots, call
// slots and the overflow checks are made of.
module MipsMachine {
  import opened SignedWords

  // pc is the instruction to execute, npc the one after it; a branch replaces the npc of the
  // machine that executes its delay slot.  data is the memory of loads and stores, by the address
  // of a word; code is executed from elsewhere.
  datatype Machine = Machine(
    pc: bv32, npc: bv32, regs: bv5 -> bv32, hi: bv32, lo: bv32, fcc: bool, data: bv32 -> bv32)

  // ---- Fields -------------------------------------------------------------------------

  function Op(w: bv32): bv32 { w >> 26 }
  function Top(w: bv32): bv32 { w >> 16 }
  function Rs(w: bv32): bv5 { ((w >> 21) & 31) as bv5 }
  function Rt(w: bv32): bv5 { ((w >> 16) & 31) as bv5 }
  function Rd(w: bv32): bv5 { ((w >> 11) & 31) as bv5 }
  function Shamt(w: bv32): bv5 { ((w >> 6) & 31) as bv5 }

  function SignExtend16(w: bv32): bv32
  {
    if w & 0x8000 != 0 then w | 0xffff_0000 else w & 0xffff
  }

  // Arithmetic shift right by two, as C++ does on intptr_t.
  function Sra2(w: bv32): bv32
  {
    if IsNegative(w) then (w >> 2) | 0xc000_0000 else w >> 2
  }

  function LowerHalf(v: bv32): bv32 { v & 0xffff }
  function Joined(x: bv32, v: bv32): bv32 { x | LowerHalf(v) }
  function Upper(v: bv32): bv32 { LowerHalf(v) << 16 }

  // ---- Registers -------------------------------------------------------------------------

  function Reg(m: Machine, i: bv5): bv32 { if i == 0 then 0 else m.regs(i) }

  function Set(m: Machine, i: bv5, v: bv32): Machine
  {
    if i == 0 then m else m.(regs := (j: bv5) => if j == i then v else m.regs(j))
  }

  // ---- One instruction ----------------------------------------------------------------------

  // The condition of beq, bne, bc1t and bc1f.
  function Taken(w: bv32, m: Machine): bool
  {
    if Op(w) == 4 then Reg(m, Rs(w)) == Reg(m, Rt(w))
    else if Op(w) == 5 then Reg(m, Rs(w)) != Reg(m, Rt(w))
    else if Top(w) == 0x4501 then m.fcc
    else Top(w) == 0x4500 && !m.fcc
  }

  function Behind(pc: bv32, distance: bv32): bv32 { pc + 4 + distance }

  function BranchTarget(w: bv32, pc: bv32): bv32 { Behind(pc, SignExtend16(w) << 2) }

  function JumpTarget(w: bv32, npc: bv32): bv32 { (npc & 0xf000_0000) | ((w & 0x3ff_ffff) << 2) }

  function Next(a: bv32): bv32 { a + 4 }

  // Behind a jump and its delay slot.
  function ReturnAddress(pc: bv32): bv32 { pc + 8 }

  function Advance(m: Machine): Machine { m.(pc := m.npc, npc := Next(m.npc)) }

  function Branch(m: Machine, taken: bool, target: bv32): Machine
  {
    m.(pc := m.npc, npc := if taken then target else Next(m.npc))
  }

  function StepSpecial(w: bv32, m: Machine): Machine
  {
    var a, b := Reg(m, Rs(w)), Reg(m, Rt(w));
    var f := w & 63;
    if f == 0x00 then Set(Advance(m), Rd(w), Shifted(b, Shamt(w)))
    else if f == 0x03 && Shamt(w) == 31 then Set(Advance(m), Rd(w), Sra31(b))
    else if f == 0x08 then Branch(m, true, a)
    else if f == 0x09 then Set(Branch(m, true, a), Rd(w), ReturnAddress(m.pc))
    else if f == 0x10 then Set(Advance(m), Rd(w), m.hi)
    else if f == 0x12 then Set(Advance(m), Rd(w), m.lo)
    else if f == 0x18 then
      Advance(m).(hi := High32(Product(a, b)), lo := Low32(Product(a, b)))
    else if f == 0x21 then Set(Advance(m), Rd(w), Sum(a, b))
    else if f == 0x23 then Set(Advance(m), Rd(w), Difference(a, b))
    else if f == 0x26 then Set(Advance(m), Rd(w), Xor(a, b))
    else Advance(m)
  }

  // The address of a load or store.
  function EffectiveAddress(w: bv32, m: Machine): bv32 { Sum(Reg(m, Rs(w)), SignExtend16(w)) }

  function Store(m: Machine, a: bv32, v: bv32): Machine { m.(data := (b: bv32) => if b == a then v else m.data(b)) }

  // Words outside this core only advance; no statement below executes one.
  function Execute(w: bv32, m: Machine): Machine
  {
    var op := Op(w);
    if op == 0 then StepSpecial(w, m)
    else if op == 1 then
      if Rt(w) == 0 then Branch(m, IsNegative(Reg(m, Rs(w))), BranchTarget(w, m.pc))
      else if Rt(w) == 1 then Branch(m, !IsNegative(Reg(m, Rs(w))), BranchTarget(w, m.pc))
      else Advance(m)
    else if op == 2 then Branch(m, true, JumpTarget(w, m.npc))
    else if op == 3 then Set(Branch(m, true, JumpTarget(w, m.npc)), 31, ReturnAddress(m.pc))
    else if op == 4 || op == 5 || Top(w) == 0x4501 || Top(w) == 0x4500 then
      Branch(m, Taken(w, m), BranchTarget(w, m.pc))
    else if op == 9 then Set(Advance(m), Rt(w), Sum(Reg(m, Rs(w)), SignExtend16(w)))
    else if op == 13 then Set(Advance(m), Rt(w), Joined(Reg(m, Rs(w)), w))
    else if op == 15 then Set(Advance(m), Rt(w), Upper(w))
    else if op == 35 then Set(Advance(m), Rt(w), m.data(EffectiveAddress(w, m)))
    else if op == 43 then Store(Advance(m), EffectiveAddress(w, m), Reg(m, Rt(w)))
    else Advance(m)
  }

  function Step(mem: bv32 -> bv32, m: Machine): Machine { Execute(mem(m.pc), m) }

  function Steps(mem: bv32 -> bv32, m: Machine, n: nat): Machine
    decreases n
  {
    if n == 0 then m else Steps(mem, Step(mem, m), n - 1)
  }

  // ---- The encoders of MIPSAssembler.h -----------------------------------------------------

  const NOP: bv32 := 0
  const T9: bv5 := 25
  const RA: bv5 := 31

  function RType(funct: bv32, rd: bv5, rs: bv5, rt: bv5): bv32
  {
    funct | ((rd as bv32) << 11) | ((rs as bv32) << 21) | ((rt as bv32) << 16)
  }

  function IType(op: bv32, rs: bv5, rt: bv5, imm: bv32): bv32
  {
    op | ((rs as bv32) << 21) | ((rt as bv32) << 16) | (imm & 0xffff)
  }

  function Lui(rt: bv5, imm: bv32): bv32 { IType(0x3c00_0000, 0, rt, imm) }
  function Ori(rt: bv5, rs: bv5, imm: bv32): bv32 { IType(0x3400_0000, rs, rt, imm) }
  function Beq(rs: bv5, rt: bv5, imm: bv32): bv32 { IType(0x1000_0000, rs, rt, imm) }
  function Bgez(rs: bv5, imm: bv32): bv32 { IType(0x0401_0000, rs, 0, imm) }
  function Bltz(rs: bv5, imm: bv32): bv32 { IType(0x0400_0000, rs, 0, imm) }
  function Jr(rs: bv5): bv32 { RType(0x08, 0, rs, 0) }

  const LUI_T9: bv32 := 0x3c19_0000
  const ORI_T9: bv32 := 0x3739_0000
  const JR_T9: bv32 := 0x0320_0008
  const JALR_T9: bv32 := 0x0320_f809

  lemma T9Words()
    ensures LUI_T9 == Lui(T9, 0) && ORI_T9 == Ori(T9, T9, 0) && JR_T9 == Jr(T9)
    ensures JALR_T9 == 0xf809 | ((T9 as bv32) << 21)
  {
  }

  // ---- What each instruction does ------------------------------------------------------------

  lemma NopSteps(m: Machine)
    ensures Execute(NOP, m) == Advance(m)
  {
  }
}
