// The five-halfword jump slots of ARMv7Assembler: movw, movt and bx, or two nops and a branch.
module ThumbSlots {
  import opened Options
  import opened SignedWords
  import opened ThumbWords
  import opened ThumbMachine

  datatype Slot = Slot(h0: bv16, h1: bv16, h2: bv16, h3: bv16, h4: bv16)

  predicate IsEven(a: bv32) { a & 1 == 0 }

  function Distance(target: bv32, from: bv32): bv32 { target - from }
  function WithThumbBit(target: bv32): bv32 { target + 1 }

  // What linkJumpAbsolute asserts of a slot before it rewrites it.
  predicate Recognised(s: Slot)
  {
    || (IsMovT3(s.h0, s.h1) && IsMovt(s.h2, s.h3) && IsBX(s.h4))
    || (IsNopT1(s.h0) && IsNopT2(s.h1, s.h2) && IsB(s.h3, s.h4))
  }

  function MoveForm(value: bv32): Slot
  {
    Slot(ImmFirst(OP_MOV_IMM_T3, Low16(value)), ImmSecond(IP, Low16(value)),
         ImmFirst(OP_MOVT, High16(value)), ImmSecond(IP, High16(value)), Bx(IP))
  }

  function BranchForm(relative: bv32): Slot
  {
    Slot(OP_NOP_T1, OP_NOP_T2a, OP_NOP_T2b, BFirst(Peculiar(relative)), BSecond(Peculiar(relative)))
  }

  // makeJump, and makeBranch behind its it: moveFixedWidthEncoding of zero, and bx.
  const NEW_SLOT := MoveForm(0)

  // The slot that ends at `instruction`.
  function LinkJumpAbsolute(instruction: bv32, target: bv32): Slot
  {
    var relative := Distance(target, instruction);
    if FitsBranch(relative) then BranchForm(relative)
    else
      var lo16, hi16 := Low16(WithThumbBit(target)), High16(target);
      Slot(ImmFirst(OP_MOV_IMM_T3, lo16), ImmSecond(IP, lo16), ImmFirst(OP_MOVT, hi16), ImmSecond(IP, hi16), Bx(IP))
  }

  // ---- The invariant -----------------------------------------------------------------------

  predicate IsBranchTo(s: Slot, instruction: bv32, target: bv32)
  {
    && IsNopT1(s.h0) && IsNopT2(s.h1, s.h2) && IsB(s.h3, s.h4)
    && At(instruction, BranchOffset(s.h3, s.h4)) == target
  }

  predicate IsMoveOf(s: Slot, value: bv32)
  {
    && IsMovT3(s.h0, s.h1) && RdOf(s.h1) == IP && IsMovt(s.h2, s.h3) && RdOf(s.h3) == IP
    && Pair(ImmOf(s.h0, s.h1), ImmOf(s.h2, s.h3)) == value && s.h4 == Bx(IP)
  }

  predicate JumpsTo(s: Slot, instruction: bv32, target: bv32)
  {
    IsEven(target) && (IsBranchTo(s, instruction, target) || IsMoveOf(s, WithThumbBit(target)))
  }

  lemma MoveFormIsMove(value: bv32)
    ensures IsMoveOf(MoveForm(value), value) && Recognised(MoveForm(value))
  {
    hide ImmOf, RdOf, ImmFirst, ImmSecond, Low16, High16, Pair, Bx, IsBX;
    ImmIsRecognised(OP_MOV_IMM_T3, IP, Low16(value));
    ImmIsRecognised(OP_MOVT, IP, High16(value));
    PairOfHalves(value);
    BxIsRecognised(IP);
  }

  lemma AddThumbBit(target: bv32)
    requires IsEven(target)
    ensures WithThumbBit(target) == target | 1
  {
  }

  lemma HighHalfIgnoresIt(target: bv32)
    ensures High16(target | 1) == High16(target)
  {
  }

  // The high half of an even target needs no correction for the Thumb bit.
  lemma SameHighHalf(target: bv32)
    requires IsEven(target)
    ensures High16(target) == High16(WithThumbBit(target))
  {
    hide High16, WithThumbBit;
    AddThumbBit(target);
    HighHalfIgnoresIt(target);
  }

  lemma DistanceIsEven(instruction: bv32, target: bv32)
    requires IsEven(instruction) && IsEven(target)
    ensures Distance(target, instruction) & 1 == 0
  {
  }

  lemma DistanceReaches(instruction: bv32, target: bv32)
    ensures At(instruction, target - instruction) == target && Distance(target, instruction) == target - instruction
  {
  }

  // Linking establishes what the next link asserts, and the slot jumps to its target.
  lemma LinkIsRecognised(instruction: bv32, target: bv32)
    requires IsEven(instruction) && IsEven(target)
    ensures var s := LinkJumpAbsolute(instruction, target);
      Recognised(s) && JumpsTo(s, instruction, target)
  {
    hide FitsBranch, BranchOffset, BFirst, BSecond, Peculiar, IsB, IsMoveOf, Distance, At, WithThumbBit, IsEven, Low16,
      High16, ImmFirst, ImmSecond, Bx, IsBX, IsMovT3, IsMovt;
    var relative := Distance(target, instruction);
    if FitsBranch(relative) {
      DistanceIsEven(instruction, target);
      DistanceReaches(instruction, target);
      BranchReaches(relative);
    } else {
      SameHighHalf(target);
      MoveFormIsMove(WithThumbBit(target));
    }
  }

  // The range of the short form, as signed numbers: from -2^24 to 2^24 - 1.
  lemma ShortIff(instruction: bv32, target: bv32)
    ensures var d := Distance(target, instruction);
      FitsBranch(d) <==> (if IsNegative(d) then d >= 0xff00_0000 else d < 0x100_0000)
  {
    var d := Distance(target, instruction);
    hide FitsBranch, IsNegative, Distance;
    if FitsBranch(d) { FitsRange(d); }
    if (if IsNegative(d) then d >= 0xff00_0000 else d < 0x100_0000) { RangeFits(d); }
  }

  // The slot takes the branch form exactly if the distance is in its range, and else the form
  // of movw, movt and bx.
  lemma LinkTakesForm(instruction: bv32, target: bv32)
    requires IsEven(instruction) && IsEven(target)
    ensures var s := LinkJumpAbsolute(instruction, target); var d := Distance(target, instruction);
      if (if IsNegative(d) then d >= 0xff00_0000 else d < 0x100_0000)
      then IsBranchTo(s, instruction, target)
      else IsMoveOf(s, WithThumbBit(target))
  {
    hide FitsBranch, BranchOffset, BFirst, BSecond, Peculiar, IsB, IsMoveOf, Distance, At, WithThumbBit, IsEven, Low16,
      High16, ImmFirst, ImmSecond, Bx, IsBX, IsMovT3, IsMovt, IsNegative;
    ShortIff(instruction, target);
    var relative := Distance(target, instruction);
    if FitsBranch(relative) {
      DistanceIsEven(instruction, target);
      DistanceReaches(instruction, target);
      BranchReaches(relative);
    } else {
      SameHighHalf(target);
      MoveFormIsMove(WithThumbBit(target));
    }
  }

  // A slot linked to one target after another; None if an assertion fails on the way.
  function RelinkAll(s: Slot, instruction: bv32, targets: seq<bv32>): Option<Slot>
  {
    if targets == [] then Some(s)
    else
      match RelinkAll(s, instruction, targets[..|targets| - 1])
      case None => None
      case Some(p) => if Recognised(p) then Some(LinkJumpAbsolute(instruction, targets[|targets| - 1])) else None
  }

  // A new slot can be linked and relinked for ever, and jumps to its last target.
  lemma {:induction false} EveryRelinking(instruction: bv32, targets: seq<bv32>)
    requires IsEven(instruction) && forall i :: 0 <= i < |targets| ==> IsEven(targets[i])
    ensures var r := RelinkAll(NEW_SLOT, instruction, targets);
      && r.Some? && Recognised(r.value)
      && (targets != [] ==> JumpsTo(r.value, instruction, targets[|targets| - 1]))
  {
    hide Recognised, JumpsTo, LinkJumpAbsolute, IsEven, MoveForm;
    if targets == [] {
      MoveFormIsMove(0);
    } else {
      EveryRelinking(instruction, targets[..|targets| - 1]);
      LinkIsRecognised(instruction, targets[|targets| - 1]);
    }
  }

  // ---- Execution ------------------------------------------------------------------------------

  predicate InMemory(mem: bv32 -> bv16, a: bv32, s: Slot)
  {
    mem(a) == s.h0 && mem(At(a, 2)) == s.h1 && mem(At(a, 4)) == s.h2 && mem(At(a, 6)) == s.h3 && mem(At(a, 8)) == s.h4
  }

  function End(a: bv32): bv32 { At(a, 10) }

  lemma DecodeMovW(first: bv16, second: bv16)
    requires IsMovT3(first, second)
    ensures Decode(first, second) == MovW(RdOf(second), ImmOf(first, second))
  {
    hide ImmOf, RdOf;
  }

  lemma DecodeMovT(first: bv16, second: bv16)
    requires IsMovt(first, second)
    ensures Decode(first, second) == MovT(RdOf(second), ImmOf(first, second))
  {
    hide ImmOf, RdOf;
  }

  lemma DecodeBx(second: bv16)
    ensures Decode(Bx(IP), second) == BX(IP)
  {
  }

  lemma DecodeNops(second: bv16)
    ensures Decode(OP_NOP_T1, second) == Nop(2) && Decode(OP_NOP_T2a, OP_NOP_T2b) == Nop(4)
  {
  }

  lemma DecodeB(first: bv16, second: bv16)
    requires IsB(first, second)
    ensures Decode(first, second) == B(BranchOffset(first, second))
  {
    hide BranchOffset;
  }

  lemma Addresses(a: bv32)
    ensures At(At(a, 2), 2) == At(a, 4) && At(At(a, 2), 4) == At(a, 6) && At(At(a, 4), 2) == At(a, 6)
    ensures At(At(a, 4), 4) == At(a, 8) && At(At(a, 8), 2) == At(a, 10) && At(At(a, 6), 2) == At(a, 8)
    ensures At(At(a, 6), 4) == At(a, 10)
  {
    InlineAddresses(a);
    hide At;
  }

  lemma InlineAddresses(a: bv32)
    ensures At(a + 2, 2) == a + 4 && At(a + 2, 4) == a + 6 && At(a + 4, 2) == a + 6 && At(a + 4, 4) == a + 8
    ensures At(a + 8, 2) == a + 10 && At(a + 6, 2) == a + 8 && At(a + 6, 4) == a + 10
    ensures At(a, 2) == a + 2 && At(a, 4) == a + 4 && At(a, 6) == a + 6 && At(a, 8) == a + 8 && At(a, 10) == a + 10
  {
  }

  // One instruction at address a, decoded as i.
  lemma StepIs(mem: bv32 -> bv16, flags: bv4 -> bool, c: Cpu, a: bv32, i: Insn)
    requires c.pc == a && Decode(mem(a), mem(At(a, 2))) == i && !i.It?
    ensures Step(mem, flags, c) ==
      if Passes(flags, c.it) then Perform(i, c.(it := ItAdvance(c.it)))
      else c.(pc := At(a, Size(i)), it := ItAdvance(c.it))
  {
    hide Decode, Perform, Passes, ItAdvance, At;
  }

  lemma ThreeSteps(mem: bv32 -> bv16, flags: bv4 -> bool, c: Cpu)
    ensures Steps(mem, flags, c, 3) == Step(mem, flags, Step(mem, flags, Step(mem, flags, c)))
  {
    hide Step;
    var c1 := Step(mem, flags, c);
    var c2 := Step(mem, flags, c1);
    assert Steps(mem, flags, c, 3) == Steps(mem, flags, c1, 2) == Steps(mem, flags, c2, 1);
  }

  // The three instructions of a slot all run, or none does.
  ghost predicate AllOrNone(flags: bv4 -> bool, it: bv8, run: bool)
  {
    Passes(flags, it) == run && Passes(flags, ItAdvance(it)) == run && Passes(flags, ItAdvance(ItAdvance(it))) == run
  }

  ghost predicate SameButIp(c: Cpu, d: Cpu) { forall r :: r != IP ==> d.regs(r) == c.regs(r) }

  function AfterThree(it: bv8): bv8 { ItAdvance(ItAdvance(ItAdvance(it))) }

  lemma BranchSlotRuns(mem: bv32 -> bv16, flags: bv4 -> bool, s: Slot, a: bv32, target: bv32, c: Cpu, run: bool)
    requires InMemory(mem, a, s) && IsBranchTo(s, End(a), target) && c.pc == a && AllOrNone(flags, c.it, run)
    ensures Steps(mem, flags, c, 3) == c.(pc := if run then target else End(a), it := AfterThree(c.it))
  {
    hide Decode, Passes, ItAdvance, At, BranchOffset, IsB, Step, Steps;
    Addresses(a);
    DecodeNops(s.h1);
    DecodeB(s.h3, s.h4);
    StepIs(mem, flags, c, a, Nop(2));
    var c1 := Step(mem, flags, c);
    StepIs(mem, flags, c1, At(a, 2), Nop(4));
    var c2 := Step(mem, flags, c1);
    StepIs(mem, flags, c2, At(a, 6), B(BranchOffset(s.h3, s.h4)));
    ThreeSteps(mem, flags, c);
  }

  lemma LowOfPair(low: bv16, high: bv16)
    ensures LowHalf(Pair(low, high)) == low
  {
    assert ((((high as bv32) << 16) | (low as bv32)) & 0xffff) as bv16 == low;
  }

  lemma ThumbBitIsDropped(target: bv32)
    requires IsEven(target)
    ensures Even(WithThumbBit(target)) == target && IsOdd(WithThumbBit(target))
  {
    AddThumbBit(target);
    assert (target | 1) & 1 != 0;
    assert target & 1 == 0 ==> (target | 1) & 0xffff_fffe == target;
    hide WithThumbBit;
  }

  lemma MoveSlotRuns(mem: bv32 -> bv16, flags: bv4 -> bool, s: Slot, a: bv32, value: bv32, c: Cpu, run: bool)
    requires InMemory(mem, a, s) && IsMoveOf(s, value) && c.pc == a && AllOrNone(flags, c.it, run)
    ensures var d := Steps(mem, flags, c, 3);
      && SameButIp(c, d) && d.it == AfterThree(c.it)
      && d.pc == (if run then Even(value) else End(a)) && d.thumb == (if run then IsOdd(value) else c.thumb)
  {
    hide Decode, Passes, ItAdvance, At, ImmOf, RdOf, IsMovT3, IsMovt, Pair, LowHalf, Even, IsOdd, Bx, Step, Steps;
    Addresses(a);
    DecodeMovW(s.h0, s.h1);
    DecodeMovT(s.h2, s.h3);
    DecodeBx(mem(At(a, 10)));
    LowOfPair(ImmOf(s.h0, s.h1), 0);
    StepIs(mem, flags, c, a, MovW(IP, ImmOf(s.h0, s.h1)));
    var c1 := Step(mem, flags, c);
    StepIs(mem, flags, c1, At(a, 4), MovT(IP, ImmOf(s.h2, s.h3)));
    var c2 := Step(mem, flags, c1);
    StepIs(mem, flags, c2, At(a, 8), BX(IP));
    ThreeSteps(mem, flags, c);
  }

  // Either form takes exactly three steps, to the target or past the end of the slot.
  lemma SlotRuns(mem: bv32 -> bv16, flags: bv4 -> bool, s: Slot, a: bv32, target: bv32, c: Cpu, run: bool)
    requires InMemory(mem, a, s) && JumpsTo(s, End(a), target) && c.pc == a && c.thumb && AllOrNone(flags, c.it, run)
    ensures var d := Steps(mem, flags, c, 3);
      SameButIp(c, d) && d.it == AfterThree(c.it) && d.thumb && d.pc == (if run then target else End(a))
  {
    hide InMemory, IsBranchTo, IsMoveOf, AllOrNone, Even, IsOdd, WithThumbBit, IsEven, End, AfterThree, Steps;
    if IsBranchTo(s, End(a), target) {
      BranchSlotRuns(mem, flags, s, a, target, c, run);
    } else {
      MoveSlotRuns(mem, flags, s, a, WithThumbBit(target), c, run);
      ThumbBitIsDropped(target);
    }
  }

  // makeJump: outside an IT block, the slot always jumps.
  lemma JumpRuns(mem: bv32 -> bv16, flags: bv4 -> bool, s: Slot, a: bv32, target: bv32, c: Cpu)
    requires InMemory(mem, a, s) && JumpsTo(s, End(a), target) && c.pc == a && c.thumb && c.it == 0
    ensures var d := Steps(mem, flags, c, 3);
      SameButIp(c, d) && d.it == 0 && d.thumb && d.pc == target
  {
    assert ItAdvance(0) == 0 && !InItBlock(0);
    hide InMemory, JumpsTo, End, Steps, ItAdvance, InItBlock;
    SlotRuns(mem, flags, s, a, target, c, true);
  }

  function ItWord(state: bv8): bv16 { OP_IT | (state as bv16) }

  lemma DecodeIt(state: bv8, second: bv16)
    requires state & 15 != 0
    ensures Decode(ItWord(state), second) == It(state)
  {
    assert (0xbf00 | (state as bv16)) & 0xff00 == 0xbf00;
    assert (0xbf00 | (state as bv16)) & 15 == (state as bv16) & 15;
    assert (state as bv16) & 15 != 0;
    assert ((0xbf00 | (state as bv16)) & 0xff) as bv8 == state;
  }

  // makeBranch: it predicates all three instructions of the slot behind it, in either form,
  // so that the branch is taken exactly under its condition.
  lemma BranchRuns(
      mem: bv32 -> bv16, flags: bv4 -> bool, cond: bv4, s: Slot, a: bv32, target: bv32, c: Cpu)
    requires mem(a) == ItWord(IfThenElse3(cond, true, true))
    requires InMemory(mem, At(a, 2), s) && JumpsTo(s, End(At(a, 2)), target)
    requires c.pc == a && c.thumb && c.it == 0
    ensures var d := Steps(mem, flags, c, 4);
      SameButIp(c, d) && d.it == 0 && d.thumb && d.pc == (if flags(cond) then target else End(At(a, 2)))
  {
    var state := IfThenElse3(cond, true, true);
    IfThenElse3Predicates(cond, true, true);
    assert InItBlock(state) ==> state & 15 != 0;
    hide InMemory, JumpsTo, End, ItAdvance, InItBlock, Condition, IfThenElse3, Decode, At, ItWord;
    DecodeIt(state, mem(At(a, 2)));
    var c1 := Step(mem, flags, c);
    assert c1 == c.(it := state, pc := At(a, 2));
    SlotRuns(mem, flags, s, At(a, 2), target, c1, flags(cond));
    assert Steps(mem, flags, c, 4) == Steps(mem, flags, c1, 3);
  }

  // ---- Patchable constants and calls -------------------------------------------------------------

  // movw and movt.
  datatype Constant = Constant(k0: bv16, k1: bv16, k2: bv16, k3: bv16)

  predicate Loads(k: Constant, rd: bv4, value: bv32)
  {
    && IsMovT3(k.k0, k.k1) && RdOf(k.k1) == rd && IsMovt(k.k2, k.k3) && RdOf(k.k3) == rd
    && Pair(ImmOf(k.k0, k.k1), ImmOf(k.k2, k.k3)) == value
  }

  // setInt32 keeps the registers it finds.
  function SetInt32(k: Constant, value: bv32): Constant
  {
    var lo16, hi16 := Low16(value), High16(value);
    Constant(ImmFirst(OP_MOV_IMM_T3, lo16), ImmSecond(RdOf(k.k1), lo16),
             ImmFirst(OP_MOVT, hi16), ImmSecond(RdOf(k.k3), hi16))
  }

  lemma SetInt32Loads(k: Constant, rd: bv4, was: bv32, value: bv32)
    requires Loads(k, rd, was)
    ensures Loads(SetInt32(k, value), rd, value)
  {
    hide ImmOf, RdOf, ImmFirst, ImmSecond, Low16, High16, Pair;
    ImmIsRecognised(OP_MOV_IMM_T3, rd, Low16(value));
    ImmIsRecognised(OP_MOVT, rd, High16(value));
    PairOfHalves(value);
  }

  const BLX_IP: bv16 := 0x47e0

  predicate ConstantInMemory(mem: bv32 -> bv16, a: bv32, k: Constant)
  {
    mem(a) == k.k0 && mem(At(a, 2)) == k.k1 && mem(At(a, 4)) == k.k2 && mem(At(a, 6)) == k.k3
  }

  lemma ConstantRuns(mem: bv32 -> bv16, flags: bv4 -> bool, k: Constant, rd: bv4, value: bv32, a: bv32, c: Cpu)
    requires ConstantInMemory(mem, a, k) && Loads(k, rd, value) && c.pc == a && c.it == 0
    ensures Step(mem, flags, Step(mem, flags, c)).pc == At(a, 8)
    ensures var d := Step(mem, flags, Step(mem, flags, c));
      && d.regs(rd) == value && d.it == 0 && d.thumb == c.thumb && forall r :: r != rd ==> d.regs(r) == c.regs(r)
  {
    assert ItAdvance(0) == 0 && Passes(flags, 0);
    hide Decode, Passes, ItAdvance, At, ImmOf, RdOf, IsMovT3, IsMovt, Pair, LowHalf, Step;
    Addresses(a);
    DecodeMovW(k.k0, k.k1);
    DecodeMovT(k.k2, k.k3);
    LowOfPair(ImmOf(k.k0, k.k1), 0);
    StepIs(mem, flags, c, a, MovW(rd, ImmOf(k.k0, k.k1)));
    StepIs(mem, flags, Step(mem, flags, c), At(a, 4), MovT(rd, ImmOf(k.k2, k.k3)));
  }

  lemma DecodeBlx(second: bv16)
    ensures Decode(BLX_IP, second) == BLX(IP)
  {
  }

  // A call: the constant is the callee with its Thumb bit, and the return address is behind blx.
  lemma CallRuns(mem: bv32 -> bv16, flags: bv4 -> bool, k: Constant, to: bv32, a: bv32, c: Cpu)
    requires ConstantInMemory(mem, a, k) && mem(At(a, 8)) == BLX_IP && Loads(k, IP, to) && IsOdd(to)
    requires c.pc == a && c.it == 0
    ensures var d := Steps(mem, flags, c, 3);
      d.pc == Even(to) && d.thumb && d.it == 0 && d.regs(14) == ReturnTo(At(a, 10))
  {
    assert ItAdvance(0) == 0 && Passes(flags, 0);
    hide Decode, Passes, ItAdvance, At, Loads, ConstantInMemory, Even, IsOdd, ReturnTo, Step, Steps;
    Addresses(a);
    ConstantRuns(mem, flags, k, IP, to, a, c);
    DecodeBlx(mem(At(a, 10)));
    var c2 := Step(mem, flags, Step(mem, flags, c));
    StepIs(mem, flags, c2, At(a, 8), BLX(IP));
    ThreeSteps(mem, flags, c);
  }

  // linkCall and then the call: whatever the constant was, the callee is reached.
  lemma LinkedCallRuns(
      mem: bv32 -> bv16, flags: bv4 -> bool, k: Constant, was: bv32, to: bv32, a: bv32, c: Cpu)
    requires Loads(k, IP, was) && ConstantInMemory(mem, a, SetInt32(k, to)) && mem(At(a, 8)) == BLX_IP && IsOdd(to)
    requires c.pc == a && c.it == 0
    ensures var d := Steps(mem, flags, c, 3);
      d.pc == Even(to) && d.thumb && d.it == 0 && d.regs(14) == ReturnTo(At(a, 10))
  {
    hide Decode, At, Loads, ConstantInMemory, Even, IsOdd, ReturnTo, Step, Steps, SetInt32;
    SetInt32Loads(k, IP, was, to);
    CallRuns(mem, flags, SetInt32(k, to), to, a, c);
  }
}
