// The six-word jump slots and the four-word call slots of MIPSAssembler: what they do when
// executed, and what linking, relinking and relocating keep true of them.
module MipsSlots {
  import opened Options
  import opened SignedWords
  import opened MipsMachine

  // ---- Jump slots -----------------------------------------------------------------------

  // Six consecutive words: branch, delay slot, and four words of room.
  datatype Slot = Slot(w0: bv32, w1: bv32, w2: bv32, w3: bv32, w4: bv32, w5: bv32)

  // beq $0, $0, 3 jumps over the three words behind it.
  const SKIP: bv32 := 0x1000_0003

  // A conditional branch word with its offset field cleared.
  predicate IsCondition(c: bv32)
  {
    c & 0xffff == 0 && (Op(c) == 4 || Op(c) == 5 || c == 0x4501_0000 || c == 0x4500_0000)
  }

  // What branchEqual, branchNotEqual, branchTrue and branchFalse emit.
  function NewSlot(cond: bv32): Slot { Slot(cond, NOP, SKIP, NOP, NOP, NOP) }

  // The opposite condition, jumping to the end of the slot.
  function Inverted(w: bv32): bv32
  {
    if w & 0xfc00_0000 == 0x1000_0000 then (w & 0x03ff_0000) | 0x1400_0005
    else if w & 0xfc00_0000 == 0x1400_0000 then (w & 0x03ff_0000) | 0x1000_0005
    else if w & 0xffff_0000 == 0x4501_0000 then 0x4500_0005
    else if w & 0xffff_0000 == 0x4500_0000 then 0x4501_0005
    else w
  }

  predicate Aligned(a: bv32) { a & 3 == 0 }

  function High(w: bv32): bv32 { w & 0xffff_0000 }

  function WithOffset(w: bv32, diff: bv32): bv32 { (w & 0xffff_0000) | (diff & 0xffff) }

  // The branch offset, in words, from the instruction at a to `to`.
  function Offset(a: bv32, to: bv32): bv32 { Sra2(to - a - 4) }

  // -32768 <= diff <= 32767, as a signed number.
  predicate Fits16(diff: bv32)
  {
    if IsNegative(diff) then diff >= 0xffff_8000 else diff <= 0x7fff
  }

  // The delay slot of the jump in the third word of a slot.
  function JumpDelay(a: bv32): bv32 { a + 12 }

  predicate SameRegion(x: bv32, y: bv32) { x >> 28 == y >> 28 }

  function LuiT9(v: bv32): bv32 { LUI_T9 | ((v >> 16) & 0xffff) }
  function OriT9(v: bv32): bv32 { ORI_T9 | (v & 0xffff) }
  function J(v: bv32): bv32 { 0x0800_0000 | ((v >> 2) & 0x3ff_ffff) }

  predicate IsJWord(w: bv32) { w & 0xfc00_0000 == 0x0800_0000 }
  predicate IsLuiWord(w: bv32) { w & 0xffe0_0000 == 0x3c00_0000 }

  function LuiOriValue(lui: bv32, ori: bv32): bv32 { ((lui & 0xffff) << 16) | (ori & 0xffff) }

  // An address inside the code, after the code has moved from base a to base b.
  function Moved(t: bv32, a: bv32, b: bv32): bv32 { t - a + b }

  // linkWithOffset on the slot at address a.
  function Link(s: Slot, a: bv32, to: bv32): Slot
  {
    var diff := Offset(a, to);
    if !Fits16(diff) || s.w2 != SKIP then
      var t := if s.w2 == SKIP then s.(w0 := Inverted(s.w0)) else s;
      if SameRegion(JumpDelay(a), to) then t.(w2 := J(to), w3 := NOP)
      else t.(w2 := LuiT9(to), w3 := OriT9(to), w4 := JR_T9)
    else s.(w0 := WithOffset(s.w0, diff))
  }

  // The body of the loop in relocateJumps, on the slot that has moved from address a to b.
  function Relocate(s: Slot, a: bv32, b: bv32): Slot
  {
    if IsJWord(s.w2) then
      var target := Moved(JumpTarget(s.w2, JumpDelay(a)), a, b);
      if SameRegion(JumpDelay(b), target) then s.(w2 := J(target))
      else s.(w2 := LuiT9(target), w3 := OriT9(target), w4 := JR_T9)
    else if IsLuiWord(s.w2) then
      var target := Moved(LuiOriValue(s.w2, s.w3), a, b);
      s.(w2 := LuiT9(target), w3 := OriT9(target))
    else s
  }

  // ---- The invariant of a slot ---------------------------------------------------------------

  // The slot at address a jumps to target under cond, in one of its three forms; one that
  // was never linked jumps nowhere.
  predicate SlotOk(s: Slot, a: bv32, cond: bv32, target: Option<bv32>)
  {
    && IsCondition(cond) && s.w1 == NOP && s.w5 == NOP
    && match target
       case None => s == NewSlot(cond)
       case Some(t) => Aligned(t) && (IsShort(s, a, cond, t) || IsJ(s, a, cond, t) || IsLui(s, cond, t))
  }

  predicate IsShort(s: Slot, a: bv32, cond: bv32, t: bv32)
  {
    High(s.w0) == cond && BranchTarget(s.w0, a) == t && s.w2 == SKIP && s.w3 == NOP && s.w4 == NOP
  }

  predicate IsJ(s: Slot, a: bv32, cond: bv32, t: bv32)
  {
    s.w0 == Inverted(cond) && IsJWord(s.w2) && JumpTarget(s.w2, JumpDelay(a)) == t && s.w3 == NOP
  }

  predicate IsLui(s: Slot, cond: bv32, t: bv32)
  {
    s.w0 == Inverted(cond) && s.w2 == LuiT9(t) && s.w3 == OriT9(t) && s.w4 == JR_T9
  }

  lemma NewSlotIsOk(cond: bv32, a: bv32)
    requires IsCondition(cond)
    ensures SlotOk(NewSlot(cond), a, cond, None)
  {
  }

  // ---- Bits ------------------------------------------------------------------------------------

  lemma MovedIsAligned(t: bv32, a: bv32, b: bv32)
    requires Aligned(a) && Aligned(b) && Aligned(t)
    ensures Aligned(Moved(t, a, b))
  {
  }

  lemma PositiveRoundTrips(d: bv32)
    requires d & 3 == 0 && d & 0x8000_0000 == 0 && d >> 2 <= 0x7fff
    ensures (d >> 2) & 0x8000 == 0 && ((d >> 2) & 0xffff) << 2 == d
  {
  }

  lemma NegativeRoundTrips(d: bv32)
    requires d & 3 == 0 && d & 0x8000_0000 != 0 && ((d >> 2) | 0xc000_0000) >= 0xffff_8000
    ensures ((d >> 2) | 0xc000_0000) & 0x8000 != 0
    ensures (((d >> 2) | 0xc000_0000) | 0xffff_0000) << 2 == d
  {
  }

  lemma OffsetRoundTrips(d: bv32)
    requires d & 3 == 0 && Fits16(Sra2(d))
    ensures SignExtend16(Sra2(d)) << 2 == d
  {
    if IsNegative(d) {
      NegativeRoundTrips(d);
    } else {
      PositiveRoundTrips(d);
    }
  }

  lemma WithOffsetFields(w: bv32, x: bv32)
    ensures High(WithOffset(w, x)) == High(w) && SignExtend16(WithOffset(w, x)) == SignExtend16(x)
  {
  }

  lemma DistanceIsAligned(a: bv32, to: bv32)
    requires Aligned(a) && Aligned(to)
    ensures (to - a - 4) & 3 == 0
  {
  }

  lemma DistanceReaches(a: bv32, to: bv32)
    ensures Behind(a, to - a - 4) == to
  {
  }

  lemma ShortReaches(w: bv32, a: bv32, to: bv32)
    requires Aligned(a) && Aligned(to) && Fits16(Offset(a, to))
    ensures High(WithOffset(w, Offset(a, to))) == High(w)
    ensures BranchTarget(WithOffset(w, Offset(a, to)), a) == to
  {
    hide Fits16, Sra2, SignExtend16, WithOffset, High, Aligned, Behind;
    DistanceIsAligned(a, to);
    OffsetRoundTrips(to - a - 4);
    DistanceReaches(a, to);
    WithOffsetFields(w, Offset(a, to));
  }

  lemma JReaches(npc: bv32, to: bv32)
    requires Aligned(to) && SameRegion(npc, to)
    ensures JumpTarget(J(to), npc) == to && IsJWord(J(to))
  {
  }

  // The third words tell the forms apart.
  lemma FormsDiffer(v: bv32)
    ensures J(v) != SKIP && LuiT9(v) != SKIP && IsJWord(J(v))
    ensures !IsJWord(LuiT9(v)) && IsLuiWord(LuiT9(v)) && !IsJWord(SKIP) && !IsLuiWord(SKIP)
    ensures LuiOriValue(LuiT9(v), OriT9(v)) == v
  {
  }

  lemma InvertedIgnoresOffset(w: bv32, cond: bv32)
    requires IsCondition(cond) && High(w) == cond
    ensures Inverted(w) == Inverted(cond)
  {
  }

  lemma ConditionIsHigh(cond: bv32)
    requires IsCondition(cond)
    ensures High(cond) == cond
  {
  }

  lemma MovedSum(a: bv32, b: bv32, x: bv32)
    ensures Moved(a + 4 + x, a, b) == b + 4 + x
  {
  }

  lemma BehindMoves(a: bv32, b: bv32, x: bv32)
    ensures Moved(Behind(a, x), a, b) == Behind(b, x)
  {
    hide Moved;
    MovedSum(a, b, x);
  }

  lemma BranchMoves(w: bv32, a: bv32, b: bv32)
    ensures BranchTarget(w, b) == Moved(BranchTarget(w, a), a, b)
  {
    hide SignExtend16, Moved, Behind;
    BehindMoves(a, b, SignExtend16(w) << 2);
  }

  // ---- Linking and relocating keep the invariant -------------------------------------------------

  lemma LongFormIsOk(s: Slot, a: bv32, cond: bv32, to: bv32)
    requires IsCondition(cond) && s.w1 == NOP && s.w5 == NOP && s.w0 == Inverted(cond) && Aligned(to)
    ensures SameRegion(JumpDelay(a), to) ==> SlotOk(s.(w2 := J(to), w3 := NOP), a, cond, Some(to))
    ensures SlotOk(s.(w2 := LuiT9(to), w3 := OriT9(to), w4 := JR_T9), a, cond, Some(to))
  {
    hide J, LuiT9, OriT9, JumpTarget, Inverted, IsCondition, BranchTarget, Aligned, SameRegion, JumpDelay, IsJWord;
    if SameRegion(JumpDelay(a), to) { JReaches(JumpDelay(a), to); }
  }

  // A slot is short as long as its third word is the skip.
  lemma SkipMeansShort(s: Slot, a: bv32, cond: bv32, target: Option<bv32>)
    requires SlotOk(s, a, cond, target)
    ensures s.w2 != SKIP ==> s.w0 == Inverted(cond)
    ensures s.w2 == SKIP ==> High(s.w0) == cond && s.w3 == NOP && s.w4 == NOP
  {
    hide Inverted, BranchTarget, JumpTarget, High, Aligned, JumpDelay, IsJWord, LuiT9, OriT9, IsCondition;
    ConditionIsHigh(cond);
    FormsDiffer(0);
    if target.Some? { FormsDiffer(target.value); }
  }

  // Linking, the first time or again, sets the target and keeps the condition: it is
  // inverted when the slot leaves its short form, and never again.
  lemma LinkKeepsSlot(s: Slot, a: bv32, cond: bv32, target: Option<bv32>, to: bv32)
    requires SlotOk(s, a, cond, target) && Aligned(a) && Aligned(to)
    ensures SlotOk(Link(s, a, to), a, cond, Some(to))
  {
    SkipMeansShort(s, a, cond, target);
    assert IsCondition(cond) && s.w1 == NOP && s.w5 == NOP;
    hide J, LuiT9, OriT9, JumpTarget, Inverted, IsCondition, BranchTarget, Aligned, SameRegion, JumpDelay, IsJWord,
      High, WithOffset, Offset, Fits16;
    if s.w2 == SKIP {
      InvertedIgnoresOffset(s.w0, cond);
      LongFormIsOk(s.(w0 := Inverted(s.w0)), a, cond, to);
      if Fits16(Offset(a, to)) { ShortReaches(s.w0, a, to); }
    } else {
      LongFormIsOk(s, a, cond, to);
    }
  }

  // Relocation moves an internal target along with the slot.
  lemma RelocateKeepsSlot(s: Slot, a: bv32, b: bv32, cond: bv32, target: Option<bv32>)
    requires SlotOk(s, a, cond, target) && Aligned(a) && Aligned(b)
    ensures SlotOk(Relocate(s, a, b), b, cond,
                   match target case None => None case Some(t) => Some(Moved(t, a, b)))
  {
    hide J, LuiT9, OriT9, JumpTarget, Inverted, IsCondition, BranchTarget, Aligned, SameRegion, JumpDelay, IsJWord,
      High, IsLuiWord, LuiOriValue, Moved;
    FormsDiffer(0);
    match target
    case None =>
    case Some(t) =>
      MovedIsAligned(t, a, b);
      BranchMoves(s.w0, a, b);
      FormsDiffer(t);
      if !IsShort(s, a, cond, t) {
        LongFormIsOk(s, b, cond, Moved(t, a, b));
      }
  }

  // ---- Which form a slot takes --------------------------------------------------------------------

  // A distance in bytes that the 16-bit branch offset, in words, can hold.
  predicate IsNear(d: bv32)
  {
    if d & 0x8000_0000 != 0 then d >= 0xfffe_0000 else d <= 0x1_ffff
  }

  lemma NearIff(a: bv32, to: bv32)
    requires Aligned(a) && Aligned(to)
    ensures Fits16(Offset(a, to)) <==> IsNear(to - a - 4)
  {
    DistanceIsAligned(a, to);
    NearBits(to - a - 4);
    hide Fits16, IsNear, Sra2;
  }

  lemma NearBits(d: bv32)
    requires d & 3 == 0
    ensures Fits16(Sra2(d)) <==> IsNear(d)
  {
  }

  // A slot that has not left its short form stays there while the target is near.  Otherwise it
  // takes the j form if the target lies in the 256 megabytes of the delay slot, and the lui form
  // if not.
  lemma LinkTakesForm(s: Slot, a: bv32, cond: bv32, target: Option<bv32>, to: bv32)
    requires SlotOk(s, a, cond, target) && Aligned(a) && Aligned(to)
    ensures var r := Link(s, a, to);
      if s.w2 == SKIP && IsNear(to - a - 4) then IsShort(r, a, cond, to)
      else if SameRegion(JumpDelay(a), to) then IsJ(r, a, cond, to)
      else IsLui(r, cond, to)
  {
    hide J, LuiT9, OriT9, JumpTarget, Inverted, IsCondition, BranchTarget, Aligned, SameRegion, JumpDelay, IsJWord,
      High, WithOffset, Offset, Fits16, IsNear, SlotOk, IsJ, IsLui;
    SlotHasCondition(s, a, cond, target);
    SkipMeansShort(s, a, cond, target);
    NearIff(a, to);
    if s.w2 == SKIP {
      InvertedIgnoresOffset(s.w0, cond);
      LongForms(s.(w0 := Inverted(s.w0)), a, cond, to);
      if Fits16(Offset(a, to)) { ShortReaches(s.w0, a, to); }
    } else {
      LongForms(s, a, cond, to);
    }
  }

  lemma SlotHasCondition(s: Slot, a: bv32, cond: bv32, target: Option<bv32>)
    requires SlotOk(s, a, cond, target)
    ensures IsCondition(cond)
  {
  }

  lemma LongForms(s: Slot, a: bv32, cond: bv32, to: bv32)
    requires s.w0 == Inverted(cond) && Aligned(to)
    ensures SameRegion(JumpDelay(a), to) ==> IsJ(s.(w2 := J(to), w3 := NOP), a, cond, to)
    ensures IsLui(s.(w2 := LuiT9(to), w3 := OriT9(to), w4 := JR_T9), cond, to)
  {
    hide J, LuiT9, OriT9, JumpTarget, Inverted, Aligned, SameRegion, JumpDelay, IsJWord;
    if SameRegion(JumpDelay(a), to) { JReaches(JumpDelay(a), to); }
  }

  // Relocation changes the form only from j to lui, where the target has left the region.
  lemma RelocateTakesForm(s: Slot, a: bv32, b: bv32, cond: bv32, t: bv32)
    requires SlotOk(s, a, cond, Some(t)) && Aligned(a) && Aligned(b)
    ensures var r := Relocate(s, a, b); var u := Moved(t, a, b);
      && (IsShort(s, a, cond, t) ==> r == s && IsShort(r, b, cond, u))
      && (IsJ(s, a, cond, t) ==> if SameRegion(JumpDelay(b), u) then IsJ(r, b, cond, u) else IsLui(r, cond, u))
      && (IsLui(s, cond, t) ==> IsLui(r, cond, u))
  {
    hide J, LuiT9, OriT9, JumpTarget, Inverted, IsCondition, BranchTarget, Aligned, SameRegion, JumpDelay, IsJWord,
      High, IsLuiWord, LuiOriValue, Moved, IsNear, Fits16;
    FormsDiffer(t);
    FormsDiffer(0);
    MovedIsAligned(t, a, b);
    BranchMoves(s.w0, a, b);
    if s.w0 == Inverted(cond) { LongForms(s, b, cond, Moved(t, a, b)); }
  }

  // ---- What a slot does when it is executed ----------------------------------------------------------

  function End(a: bv32): bv32 { a + 24 }

  predicate InMemory(mem: bv32 -> bv32, a: bv32, s: Slot)
  {
    var a1 := Next(a); var a2 := Next(a1); var a3 := Next(a2); var a4 := Next(a3);
    && mem(a) == s.w0 && mem(a1) == s.w1 && mem(a2) == s.w2
    && mem(a3) == s.w3 && mem(a4) == s.w4 && mem(Next(a4)) == s.w5
  }

  // At an instruction whose successor is the next word.
  predicate IsAt(m: Machine, a: bv32) { m.pc == a && m.npc == Next(a) }

  // Nothing but the position and t9 has changed.
  ghost predicate SameButT9(m: Machine, n: Machine)
  {
    n.hi == m.hi && n.lo == m.lo && n.fcc == m.fcc && n.data == m.data && forall i :: i != T9 ==> Reg(n, i) == Reg(m, i)
  }

  lemma OffsetWords(cond: bv32)
    requires IsCondition(cond)
    ensures SignExtend16(Inverted(cond)) << 2 == 20 && SignExtend16(SKIP) << 2 == 12 && SignExtend16(cond) << 2 == 0
  {
  }

  lemma SlotAddresses(a: bv32, cond: bv32)
    requires IsCondition(cond)
    ensures Next(Next(Next(a))) == JumpDelay(a)
    ensures BranchTarget(Inverted(cond), a) == End(a)
    ensures BranchTarget(SKIP, Next(Next(a))) == End(a)
    ensures BranchTarget(cond, a) == Next(a)
  {
    OffsetWords(cond);
    hide SignExtend16, Inverted, IsCondition;
    assert Next(a + 4) == a + 8 && Next(a + 8) == a + 12;
    assert Behind(a, 20) == a + 24 && Behind(a + 8, 12) == a + 24 && Behind(a, 0) == a + 4;
  }

  lemma BranchExecutes(w: bv32, m: Machine)
    requires IsCondition(High(w))
    ensures Execute(w, m) == Branch(m, Taken(w, m), BranchTarget(w, m.pc))
  {
  }

  lemma HighHasOpcode(w: bv32)
    ensures Op(w) == Op(High(w))
    ensures Top(w) == Top(High(w))
  {
  }

  lemma HighHasRs(w: bv32)
    ensures Rs(w) == Rs(High(w))
  {
  }

  lemma HighHasRt(w: bv32)
    ensures Rt(w) == Rt(High(w))
  {
  }

  lemma InvertedBeq(c: bv32)
    requires Op(c) == 4
    ensures Inverted(c) == (c & 0x03ff_0000) | 0x1400_0005
    ensures Op(Inverted(c)) == 5
  {
  }

  lemma InvertedBne(c: bv32)
    requires Op(c) == 5
    ensures Inverted(c) == (c & 0x03ff_0000) | 0x1000_0005
    ensures Op(Inverted(c)) == 4
  {
  }

  lemma RegistersStay(c: bv32, x: bv32)
    requires x & 0x03ff_0000 == 0
    ensures Rs((c & 0x03ff_0000) | x) == Rs(c)
    ensures Rt((c & 0x03ff_0000) | x) == Rt(c)
  {
  }

  lemma InvertedBc1(c: bv32)
    ensures c == 0x4501_0000 ==> Top(Inverted(c)) == 0x4500 && Top(c) == 0x4501
    ensures c == 0x4500_0000 ==> Top(Inverted(c)) == 0x4501 && Top(c) == 0x4500
  {
  }

  lemma InvertedFields(c: bv32)
    requires IsCondition(c)
    ensures Op(c) == 4 ==> Op(Inverted(c)) == 5
    ensures Op(c) == 5 ==> Op(Inverted(c)) == 4
    ensures Op(c) == 4 || Op(c) == 5 ==> Rs(Inverted(c)) == Rs(c) && Rt(Inverted(c)) == Rt(c)
    ensures c == 0x4501_0000 ==> Top(Inverted(c)) == 0x4500 && Top(c) == 0x4501
    ensures c == 0x4500_0000 ==> Top(Inverted(c)) == 0x4501 && Top(c) == 0x4500
  {
    InvertedBc1(c);
    RegistersStay(c, 0x1400_0005);
    RegistersStay(c, 0x1000_0005);
    hide Inverted, Op, Top, Rs, Rt;
    if Op(c) == 4 {
      InvertedBeq(c);
    } else if Op(c) == 5 {
      InvertedBne(c);
    }
  }

  lemma InvertedIsCondition(c: bv32)
    requires IsCondition(c)
    ensures IsCondition(High(Inverted(c)))
  {
    hide Inverted, High, Op;
    InvertedFields(c);
    HighHasOpcode(Inverted(c));
    HighIsClear(Inverted(c));
    InvertedBc1High();
  }

  lemma HighIsClear(w: bv32)
    ensures High(w) & 0xffff == 0
  {
  }

  lemma InvertedBc1High()
    ensures High(Inverted(0x4501_0000)) == 0x4500_0000 && High(Inverted(0x4500_0000)) == 0x4501_0000
  {
  }

  lemma ConditionKinds(w: bv32)
    ensures Top(w) == 0x4501 ==> Op(w) == 17
    ensures Top(w) == 0x4500 ==> Op(w) == 17
  {
  }

  lemma SameHighSameTaken(w: bv32, v: bv32, m: Machine)
    requires High(w) == High(v)
    ensures Taken(w, m) == Taken(v, m)
  {
    hide High, Taken;
    HighIsEnough(w, m);
    HighIsEnough(v, m);
  }

  lemma HighIsEnough(w: bv32, m: Machine)
    ensures Taken(w, m) == Taken(High(w), m)
  {
    hide Op, Top, High, Rs, Rt;
    HighHasOpcode(w);
    HighHasRs(w);
    HighHasRt(w);
  }

  lemma InvertedIsNotTaken(c: bv32, m: Machine)
    requires IsCondition(c)
    ensures Taken(Inverted(c), m) == !Taken(c, m) && IsCondition(High(Inverted(c)))
  {
    InvertedFields(c);
    InvertedIsCondition(c);
    ConditionKinds(c);
    ConditionKinds(Inverted(c));
    hide Op, Top, High, Rs, Rt, Inverted;
  }

  lemma SkipIsTaken(m: Machine)
    ensures Taken(SKIP, m) && IsCondition(High(SKIP))
  {
    assert Op(SKIP) == 4 && Rs(SKIP) == 0 && Rt(SKIP) == 0;
  }

  lemma JExecutes(w: bv32, m: Machine)
    requires IsJWord(w)
    ensures Execute(w, m) == Branch(m, true, JumpTarget(w, m.npc))
  {
  }

  function HighPart(v: bv32): bv32 { ((v >> 16) & 0xffff) << 16 }

  function WithLow(h: bv32, v: bv32): bv32 { h | (v & 0xffff) }

  lemma LuiExecutes(v: bv32, m: Machine)
    ensures Execute(LuiT9(v), m) == Set(Advance(m), T9, HighPart(v))
  {
  }

  lemma OriExecutes(v: bv32, m: Machine)
    ensures Execute(OriT9(v), m) == Set(Advance(m), T9, WithLow(Reg(m, T9), v))
  {
  }

  lemma JrExecutes(m: Machine)
    ensures Execute(JR_T9, m) == Branch(m, true, Reg(m, T9))
  {
  }

  lemma PartsJoin(v: bv32)
    ensures WithLow(HighPart(v), v) == v
  {
  }

  // Two steps: a branch and the nop in its delay slot.
  lemma BranchAndNop(mem: bv32 -> bv32, m: Machine, a: bv32, taken: bool)
    requires IsAt(m, a) && mem(Next(a)) == NOP && IsCondition(High(mem(a))) && Taken(mem(a), m) == taken
    ensures Steps(mem, m, 2) == m.(
      pc := if taken then BranchTarget(mem(a), a) else Next(Next(a)),
      npc := Next(if taken then BranchTarget(mem(a), a) else Next(Next(a))))
  {
    hide IsCondition, BranchTarget, Taken, Next, High, Execute;
    BranchExecutes(mem(a), m);
    var m1 := Step(mem, m);
    NopSteps(m1);
    assert Steps(mem, m, 2) == Steps(mem, m1, 1) == Step(mem, m1);
  }

  lemma {:induction false} StepsAdd(mem: bv32 -> bv32, m: Machine, i: nat, j: nat)
    ensures Steps(mem, m, i + j) == Steps(mem, Steps(mem, m, i), j)
    decreases i
  {
    hide Step;
    if i > 0 { StepsAdd(mem, Step(mem, m), i - 1, j); }
  }

  // The skip in the third word, and its nop, come to the end of the slot.
  lemma SkipExecutes(mem: bv32 -> bv32, m: Machine, a: bv32)
    requires IsAt(m, Next(Next(a))) && mem(Next(Next(a))) == SKIP && mem(Next(Next(Next(a)))) == NOP
    ensures Steps(mem, m, 2) == m.(pc := End(a), npc := Next(End(a)))
  {
    SkipIsTaken(m);
    SlotAddresses(a, 0x4501_0000);
    hide IsCondition, Inverted, BranchTarget, Taken, Next, End, High, JumpDelay, Steps;
    BranchAndNop(mem, m, Next(Next(a)), true);
  }

  lemma OnlyMoved(m: Machine, pc: bv32, npc: bv32)
    ensures SameButT9(m, m.(pc := pc, npc := npc))
  {
  }

  lemma ShortExecutes(mem: bv32 -> bv32, s: Slot, a: bv32, cond: bv32, t: bv32, m: Machine) returns (n: nat)
    requires InMemory(mem, a, s) && IsAt(m, a) && IsCondition(cond) && s.w1 == NOP
    requires IsShort(s, a, cond, t)
    ensures n <= 4
    ensures var e := Steps(mem, m, n); SameButT9(m, e) && IsAt(e, if Taken(cond, m) then t else End(a))
  {
    hide IsCondition, BranchTarget, Taken, Next, End, High, Steps, SameButT9;
    HighOfCondition(s.w0, cond);
    SameHighSameTaken(s.w0, cond, m);
    BranchAndNop(mem, m, a, Taken(cond, m));
    var m2 := Steps(mem, m, 2);
    if Taken(cond, m) {
      OnlyMoved(m, m2.pc, m2.npc);
      return 2;
    }
    SkipExecutes(mem, m2, a);
    StepsAdd(mem, m, 2, 2);
    OnlyMoved(m, End(a), Next(End(a)));
    return 4;
  }

  lemma HighOfCondition(w: bv32, cond: bv32)
    requires IsCondition(cond) && High(w) == cond
    ensures High(w) == High(cond) && IsCondition(High(w))
  {
    ConditionIsHigh(cond);
  }

  lemma NewSlotExecutes(mem: bv32 -> bv32, s: Slot, a: bv32, cond: bv32, m: Machine) returns (n: nat)
    requires InMemory(mem, a, s) && IsAt(m, a) && IsCondition(cond) && s == NewSlot(cond)
    ensures n <= 5
    ensures var e := Steps(mem, m, n); SameButT9(m, e) && IsAt(e, End(a))
  {
    ConditionIsHigh(cond);
    SlotAddresses(a, cond);
    hide IsCondition, Inverted, BranchTarget, Taken, Next, End, High, JumpDelay, Execute;
    BranchAndNop(mem, m, a, Taken(cond, m));
    var m2 := Steps(mem, m, 2);
    if !Taken(cond, m) {
      SkipExecutes(mem, m2, a);
      StepsAdd(mem, m, 2, 2);
      return 4;
    }
    NopSteps(m2);
    var m3 := Step(mem, m2);
    assert Steps(mem, m2, 1) == m3;
    StepsAdd(mem, m, 2, 1);
    SkipExecutes(mem, m3, a);
    StepsAdd(mem, m, 3, 2);
    return 5;
  }

  lemma JAndNop(mem: bv32 -> bv32, m: Machine, p: bv32)
    requires IsAt(m, p) && IsJWord(mem(p)) && mem(Next(p)) == NOP
    ensures Steps(mem, m, 2) == m.(pc := JumpTarget(mem(p), Next(p)), npc := Next(JumpTarget(mem(p), Next(p))))
  {
    hide IsJWord, JumpTarget, Next, Execute;
    JExecutes(mem(p), m);
    var m1 := Step(mem, m);
    NopSteps(m1);
    assert Steps(mem, m, 2) == Steps(mem, m1, 1) == Step(mem, m1);
  }

  lemma JSlotExecutes(mem: bv32 -> bv32, s: Slot, a: bv32, cond: bv32, t: bv32, m: Machine) returns (n: nat)
    requires InMemory(mem, a, s) && IsAt(m, a) && IsCondition(cond) && s.w1 == NOP
    requires IsJ(s, a, cond, t)
    ensures n <= 4
    ensures var e := Steps(mem, m, n); SameButT9(m, e) && IsAt(e, if Taken(cond, m) then t else End(a))
  {
    InvertedIsNotTaken(cond, m);
    SlotAddresses(a, cond);
    hide IsCondition, Inverted, BranchTarget, JumpTarget, Taken, Next, End, High, JumpDelay, IsJWord, Steps;
    BranchAndNop(mem, m, a, !Taken(cond, m));
    if !Taken(cond, m) {
      return 2;
    }
    JAndNop(mem, Steps(mem, m, 2), Next(Next(a)));
    StepsAdd(mem, m, 2, 2);
    return 4;
  }

  lemma LuiOriJr(mem: bv32 -> bv32, m: Machine, p: bv32, v: bv32)
    requires IsAt(m, p) && mem(p) == LuiT9(v) && mem(Next(p)) == OriT9(v) && mem(Next(Next(p))) == JR_T9
    requires mem(Next(Next(Next(p)))) == NOP
    ensures var e := Steps(mem, m, 4); SameButT9(m, e) && IsAt(e, v)
  {
    hide LuiT9, OriT9, Next, Execute, HighPart, WithLow;
    LuiExecutes(v, m);
    var m1 := Step(mem, m);
    OriExecutes(v, m1);
    var m2 := Step(mem, m1);
    PartsJoin(v);
    assert Reg(m2, T9) == v;
    JrExecutes(m2);
    var m3 := Step(mem, m2);
    NopSteps(m3);
    var m4 := Step(mem, m3);
    assert Steps(mem, m, 4) == Steps(mem, m1, 3) == Steps(mem, m2, 2) == Steps(mem, m3, 1) == m4;
  }

  lemma LuiSlotExecutes(mem: bv32 -> bv32, s: Slot, a: bv32, cond: bv32, t: bv32, m: Machine) returns (n: nat)
    requires InMemory(mem, a, s) && IsAt(m, a) && IsCondition(cond) && s.w1 == NOP && s.w5 == NOP
    requires IsLui(s, cond, t)
    ensures n <= 6
    ensures var e := Steps(mem, m, n); SameButT9(m, e) && IsAt(e, if Taken(cond, m) then t else End(a))
  {
    InvertedIsNotTaken(cond, m);
    SlotAddresses(a, cond);
    hide IsCondition, Inverted, BranchTarget, Taken, Next, End, High, JumpDelay, LuiT9, OriT9, Steps;
    BranchAndNop(mem, m, a, !Taken(cond, m));
    if !Taken(cond, m) {
      return 2;
    }
    LuiOriJr(mem, Steps(mem, m, 2), Next(Next(a)), t);
    StepsAdd(mem, m, 2, 4);
    return 6;
  }

  // Executed from its first word, a slot takes at most six steps to its target, if the
  // condition holds, or to its end.
  lemma SlotExecutes(mem: bv32 -> bv32, s: Slot, a: bv32, cond: bv32, target: Option<bv32>, m: Machine)
    returns (n: nat)
    requires SlotOk(s, a, cond, target) && InMemory(mem, a, s) && IsAt(m, a)
    ensures n <= 6
    ensures var e := Steps(mem, m, n);
      SameButT9(m, e) && IsAt(e, if target.Some? && Taken(cond, m) then target.value else End(a))
  {
    hide IsCondition, Inverted, BranchTarget, JumpTarget, Taken, Next, End, High, JumpDelay, IsJWord, LuiT9, OriT9, Aligned, Steps, InMemory;
    assert IsCondition(cond) && s.w1 == NOP && s.w5 == NOP;
    match target
    case None => n := NewSlotExecutes(mem, s, a, cond, m);
    case Some(t) =>
      if IsShort(s, a, cond, t) {
        n := ShortExecutes(mem, s, a, cond, t, m);
      } else if IsJ(s, a, cond, t) {
        n := JSlotExecutes(mem, s, a, cond, t, m);
      } else {
        n := LuiSlotExecutes(mem, s, a, cond, t, m);
      }
  }

  // ---- The whole life of a slot --------------------------------------------------------------------

  // What can happen to a slot: it is linked to an address, or its code moves.
  datatype Happening = LinkTo(to: bv32) | MoveTo(b: bv32)

  datatype Placed = Placed(s: Slot, a: bv32, target: Option<bv32>)

  predicate IsAligned(h: Happening)
  {
    match h
    case LinkTo(to) => Aligned(to)
    case MoveTo(b) => Aligned(b)
  }

  function Happen(p: Placed, h: Happening): Placed
  {
    match h
    case LinkTo(to) => Placed(Link(p.s, p.a, to), p.a, Some(to))
    case MoveTo(b) =>
      Placed(Relocate(p.s, p.a, b), b, match p.target case None => None case Some(t) => Some(Moved(t, p.a, b)))
  }

  function Live(p: Placed, hs: seq<Happening>): Placed
  {
    if hs == [] then p else Happen(Live(p, hs[..|hs| - 1]), hs[|hs| - 1])
  }

  // After any history of links, relinks and moves, the slot transfers to the last target it
  // was linked to, moved as often as the code was, exactly if its first condition holds.
  lemma {:induction false} EverySlotHistory(cond: bv32, a: bv32, hs: seq<Happening>)
    requires IsCondition(cond) && Aligned(a) && forall i :: 0 <= i < |hs| ==> IsAligned(hs[i])
    ensures var p := Live(Placed(NewSlot(cond), a, None), hs);
      SlotOk(p.s, p.a, cond, p.target) && Aligned(p.a)
  {
    hide SlotOk, Link, Relocate, Aligned, IsCondition;
    if hs == [] {
      NewSlotIsOk(cond, a);
    } else {
      EverySlotHistory(cond, a, hs[..|hs| - 1]);
      var p := Live(Placed(NewSlot(cond), a, None), hs[..|hs| - 1]);
      match hs[|hs| - 1]
      case LinkTo(to) => LinkKeepsSlot(p.s, p.a, cond, p.target, to);
      case MoveTo(b) => RelocateKeepsSlot(p.s, p.a, b, cond, p.target);
    }
  }
}
