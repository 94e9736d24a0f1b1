// The four-word call slots of MIPSAssembler: jal, or lui/ori/jalr through t9.
module MipsCalls {
  import opened Options
  import opened SignedWords
  import opened MipsMachine
  import opened MipsSlots

  datatype Call = Call(c0: bv32, c1: bv32, c2: bv32, c3: bv32)

  const JAL: bv32 := 0x0c00_0000

  // What nearCall and call emit.
  const NEAR_CALL := Call(NOP, NOP, JAL, NOP)
  const FAR_CALL := Call(LUI_T9, ORI_T9, JALR_T9, NOP)

  predicate IsJalWord(w: bv32) { w & 0xfc00_0000 == JAL }

  function JalTo(to: bv32): bv32 { JAL | ((to >> 2) & 0x3ff_ffff) }

  // The delay slot of a call, and the word behind it.
  function DelayOf(from: bv32): bv32 { from - 4 }
  function CallEnd(a: bv32): bv32 { a + 16 }

  function WithHighImm(w: bv32, to: bv32): bv32 { (w & 0xffff_0000) | ((to >> 16) & 0xffff) }
  function WithLowImm(w: bv32, to: bv32): bv32 { (w & 0xffff_0000) | (to & 0xffff) }

  // linkCallInternal; `from` is the return address, the word behind the slot.
  function LinkCall(c: Call, from: bv32, to: bv32): Call
  {
    if IsJalWord(c.c2) then
      if SameRegion(DelayOf(from), to) then c.(c2 := JalTo(to))
      else Call(LuiT9(to), OriT9(to), JALR_T9, c.c3)
    else
      c.(c0 := WithHighImm(c.c0, to), c1 := WithLowImm(c.c1, to))
  }

  // The slot before `from` calls target; a near one is not linked before its first link.
  predicate CallOk(c: Call, from: bv32, target: Option<bv32>)
  {
    && c.c3 == NOP
    && (|| (c.c0 == NOP && c.c1 == NOP && IsJalWord(c.c2)
            && (target.Some? ==> JumpTarget(c.c2, DelayOf(from)) == target.value && Aligned(target.value)))
        || (c.c2 == JALR_T9 && target.Some? && c.c0 == LuiT9(target.value) && c.c1 == OriT9(target.value)))
  }

  predicate IsFar(c: Call) { c.c2 == JALR_T9 }

  lemma NewCallsAreOk(from: bv32)
    ensures CallOk(NEAR_CALL, from, None) && CallOk(FAR_CALL, from, Some(0)) && IsFar(FAR_CALL)
  {
  }

  lemma JalReaches(npc: bv32, to: bv32)
    requires Aligned(to) && SameRegion(npc, to)
    ensures JumpTarget(JalTo(to), npc) == to && IsJalWord(JalTo(to))
  {
  }

  lemma Retargeted(v: bv32, to: bv32)
    ensures WithHighImm(LuiT9(v), to) == LuiT9(to) && WithLowImm(OriT9(v), to) == OriT9(to)
  {
  }

  lemma JalIsJal(to: bv32)
    ensures IsJalWord(JalTo(to))
  {
  }

  lemma FarIsNotJal()
    ensures !IsJalWord(JALR_T9)
  {
  }

  // Every link retargets the call.  It becomes far exactly if the target lies outside the region of
  // its delay slot, and never near again.
  lemma LinkCallKeepsCall(c: Call, from: bv32, target: Option<bv32>, to: bv32)
    requires CallOk(c, from, target) && Aligned(to)
    ensures CallOk(LinkCall(c, from, to), from, Some(to))
    ensures IsFar(LinkCall(c, from, to)) <==> IsFar(c) || !SameRegion(DelayOf(from), to)
  {
    FarIsNotJal();
    if target.Some? { Retargeted(target.value, to); }
    hide Aligned, SameRegion, JumpTarget, IsJalWord, JalTo, LuiT9, OriT9, DelayOf, WithHighImm, WithLowImm;
    if SameRegion(DelayOf(from), to) { JalReaches(DelayOf(from), to); }
  }

  function CallAt(code: seq<bv32>, p: nat): Call
    requires p + 4 <= |code|
  {
    Call(code[p], code[p + 1], code[p + 2], code[p + 3])
  }

  // linkCallInternal on words in place, with the byte count it returns.
  method LinkCallInternal(code: array<bv32>, p: nat, from: bv32, to: bv32) returns (size: nat)
    requires p + 4 <= code.Length
    modifies code
    ensures CallAt(code[..], p) == LinkCall(CallAt(old(code[..]), p), from, to)
    ensures forall k :: 0 <= k < code.Length && (k < p || p + 4 <= k) ==> code[k] == old(code[k])
    ensures code[p + 3] == old(code[p + 3])
    ensures size == if IsJalWord(code[p + 2]) then 4 else if IsJalWord(old(code[p + 2])) then 12 else 8
    ensures size == 4 ==> code[p] == old(code[p]) && code[p + 1] == old(code[p + 1])
    ensures size == 8 ==> code[p + 2] == old(code[p + 2])
  {
    JalIsJal(to);
    FarIsNotJal();
    hide IsJalWord, SameRegion, DelayOf, JalTo, LuiT9, OriT9, WithHighImm, WithLowImm;
    if IsJalWord(code[p + 2]) {
      if SameRegion(DelayOf(from), to) {
        code[p + 2] := JalTo(to);
        return 4;
      }
      code[p], code[p + 1], code[p + 2] := LuiT9(to), OriT9(to), JALR_T9;
      return 12;
    }
    code[p] := WithHighImm(code[p], to);
    code[p + 1] := WithLowImm(code[p + 1], to);
    return 8;
  }

  // relinkCall: the flushed bytes, from the third word for a jal and from the first
  // otherwise, hold every word that changed.
  method RelinkCall(code: array<bv32>, p: nat, from: bv32, to: bv32, ghost target: Option<bv32>)
    returns (start: nat, size: nat)
    requires p + 4 <= code.Length && CallOk(CallAt(code[..], p), from, target) && Aligned(to)
    modifies code
    ensures CallOk(CallAt(code[..], p), from, Some(to))
    ensures forall k :: 0 <= k < code.Length && !(start <= k < start + size / 4) ==> code[k] == old(code[k])
  {
    hide CallOk, LinkCall, Aligned;
    LinkCallKeepsCall(CallAt(code[..], p), from, target, to);
    size := LinkCallInternal(code, p, from, to);
    start := if size == 4 then p + 2 else p;
  }

  function LinkCalls(c: Call, from: bv32, tos: seq<bv32>): Call
  {
    if tos == [] then c else LinkCall(LinkCalls(c, from, tos[..|tos| - 1]), from, tos[|tos| - 1])
  }

  lemma {:induction false} EveryCallHistory(c: Call, from: bv32, target: Option<bv32>, tos: seq<bv32>)
    requires CallOk(c, from, target) && tos != [] && forall i :: 0 <= i < |tos| ==> Aligned(tos[i])
    ensures CallOk(LinkCalls(c, from, tos), from, Some(tos[|tos| - 1]))
    ensures IsFar(c) ==> IsFar(LinkCalls(c, from, tos))
  {
    hide CallOk, LinkCall, Aligned, IsFar;
    var n := |tos| - 1;
    if n == 0 {
      assert LinkCalls(c, from, tos[..0]) == c;
      LinkCallKeepsCall(c, from, target, tos[0]);
    } else {
      EveryCallHistory(c, from, target, tos[..n]);
      LinkCallKeepsCall(LinkCalls(c, from, tos[..n]), from, Some(tos[n - 1]), tos[n]);
    }
  }

  // ---- Execution ------------------------------------------------------------------------------

  predicate CallInMemory(mem: bv32 -> bv32, a: bv32, c: Call)
  {
    mem(a) == c.c0 && mem(Next(a)) == c.c1 && mem(Next(Next(a))) == c.c2 && mem(Next(Next(Next(a)))) == c.c3
  }

  lemma JalExecutes(w: bv32, m: Machine)
    requires IsJalWord(w)
    ensures Execute(w, m) == Set(Branch(m, true, JumpTarget(w, m.npc)), RA, ReturnAddress(m.pc))
  {
  }

  lemma JalrExecutes(m: Machine)
    ensures Execute(JALR_T9, m) == Set(Branch(m, true, Reg(m, T9)), RA, ReturnAddress(m.pc))
  {
  }

  lemma CallAddresses(a: bv32)
    ensures Next(Next(Next(a))) == DelayOf(CallEnd(a)) && ReturnAddress(Next(Next(a))) == CallEnd(a)
  {
    assert Next(a + 4) == a + 8 && Next(a + 8) == a + 12;
    assert DelayOf(a + 16) == a + 12 && ReturnAddress(a + 8) == a + 16;
  }

  ghost predicate Called(m: Machine, e: Machine, a: bv32, t: bv32)
  {
    IsAt(e, t) && Reg(e, RA) == CallEnd(a) && e.data == m.data && e.hi == m.hi && e.lo == m.lo && e.fcc == m.fcc && forall i :: i != RA && i != T9 ==> Reg(e, i) == Reg(m, i)
  }

  // The jump in the third word and its delay slot.
  lemma JumpAndNop(mem: bv32 -> bv32, m: Machine, a: bv32, t: bv32)
    requires IsAt(m, Next(Next(a))) && mem(Next(Next(Next(a)))) == NOP
    requires Step(mem, m) == Set(Branch(m, true, t), RA, ReturnAddress(m.pc))
    ensures Called(m, Steps(mem, m, 2), a, t)
  {
    CallAddresses(a);
    hide Next, Execute, CallEnd, ReturnAddress, Step;
    var m1 := Step(mem, m);
    NopSteps(m1);
    assert Step(mem, m1) == Execute(mem(m1.pc), m1) by { StepIs(mem, m1); }
    assert Steps(mem, m, 2) == Steps(mem, m1, 1) == Step(mem, m1);
  }

  lemma StepIs(mem: bv32 -> bv32, m: Machine)
    ensures Step(mem, m) == Execute(mem(m.pc), m)
  {
    hide Execute;
  }

  lemma NearExecutes(mem: bv32 -> bv32, c: Call, a: bv32, m: Machine)
    requires c.c0 == NOP && c.c1 == NOP && IsJalWord(c.c2) && c.c3 == NOP
    requires CallInMemory(mem, a, c) && IsAt(m, a)
    ensures Called(m, Steps(mem, m, 4), a, JumpTarget(c.c2, DelayOf(CallEnd(a))))
  {
    CallAddresses(a);
    hide Next, Execute, JumpTarget, IsJalWord, DelayOf, CallEnd, ReturnAddress;
    NopSteps(m);
    var m1 := Step(mem, m);
    NopSteps(m1);
    var m2 := Step(mem, m1);
    assert Steps(mem, m, 4) == Steps(mem, m1, 3) == Steps(mem, m2, 2);
    JalExecutes(c.c2, m2);
    JumpAndNop(mem, m2, a, JumpTarget(c.c2, DelayOf(CallEnd(a))));
  }

  lemma FarExecutes(mem: bv32 -> bv32, c: Call, a: bv32, t: bv32, m: Machine)
    requires c == Call(LuiT9(t), OriT9(t), JALR_T9, NOP)
    requires CallInMemory(mem, a, c) && IsAt(m, a)
    ensures Called(m, Steps(mem, m, 4), a, t)
  {
    hide Next, Execute, LuiT9, OriT9, HighPart, WithLow, CallEnd, ReturnAddress;
    LuiExecutes(t, m);
    var m1 := Step(mem, m);
    OriExecutes(t, m1);
    var m2 := Step(mem, m1);
    PartsJoin(t);
    assert Steps(mem, m, 4) == Steps(mem, m1, 3) == Steps(mem, m2, 2);
    JalrExecutes(m2);
    JumpAndNop(mem, m2, a, t);
  }

  // Executed from its first word, the call reaches its target in four steps, with the
  // return address behind its delay slot.
  lemma CallExecutes(mem: bv32 -> bv32, c: Call, a: bv32, t: bv32, m: Machine)
    requires CallOk(c, CallEnd(a), Some(t)) && CallInMemory(mem, a, c) && IsAt(m, a)
    ensures Called(m, Steps(mem, m, 4), a, t)
  {
    hide Next, JumpTarget, IsJalWord, LuiT9, OriT9, DelayOf, CallEnd, Aligned, Steps, Called, CallInMemory;
    if c == Call(LuiT9(t), OriT9(t), JALR_T9, NOP) {
      FarExecutes(mem, c, a, t, m);
    } else {
      NearExecutes(mem, c, a, m);
    }
  }
}
