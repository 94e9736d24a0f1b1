// MIPSAssembler: code that moves whenever its buffer grows, and again when it is copied to
// executable memory, with every recorded jump slot relocated each time.
module MipsAssembler {
  import opened Options
  import opened SignedWords
  import opened MipsMachine
  import opened MipsSlots
  import opened MipsLayout

  const INLINE_CAPACITY := 256

  // m_jumps holds the byte offsets of the slots.
  predicate Recorded(jumps: seq<nat>, infos: seq<Info>)
  {
    |jumps| == |infos| && forall i :: 0 <= i < |jumps| ==> jumps[i] == 4 * infos[i].pos
  }

  lemma SetInPrefix(code: seq<bv32>, size: nat, p: nat, s: Slot)
    requires p + 6 <= size <= |code|
    ensures SetSlot(code, p, s)[..size] == SetSlot(code[..size], p, s)
  {
  }

  // ---- The arithmetic of relocateJumps ------------------------------------------------------------

  function InsnAddress(slot: bv32): bv32 { slot + 8 }

  function FollowingWord(insn: bv32): bv32 { insn + 4 }

  function OldTargetAddress(w: bv32, insn: bv32, oldBase: bv32, newBase: bv32): bv32
  {
    var topFourBits := FollowingWord(Moved(insn, newBase, oldBase)) >> 28;
    (topFourBits << 28) | ((w & 0x3ff_ffff) << 2)
  }

  lemma InsnMoves(oldBase: bv32, newBase: bv32, x: bv32)
    ensures InsnAddress(newBase + x) == newBase + x + 8
    ensures Moved(newBase + x + 8, newBase, oldBase) == oldBase + x + 8
    ensures FollowingWord(oldBase + x + 8) == JumpDelay(oldBase + x)
  {
  }

  lemma OldInsnAddress(oldBase: bv32, newBase: bv32, x: bv32)
    ensures FollowingWord(Moved(InsnAddress(Plus(newBase, x)), newBase, oldBase)) == JumpDelay(Plus(oldBase, x))
  {
    InsnMoves(oldBase, newBase, x);
    hide FollowingWord, Moved, InsnAddress, JumpDelay;
  }

  lemma TopFourBits(w: bv32, npc: bv32)
    ensures ((npc >> 28) << 28) | ((w & 0x3ff_ffff) << 2) == JumpTarget(w, npc)
  {
  }

  lemma OldTargetIsJumpTarget(w: bv32, oldBase: bv32, newBase: bv32, x: bv32)
    ensures OldTargetAddress(w, InsnAddress(Plus(newBase, x)), oldBase, newBase)
         == JumpTarget(w, JumpDelay(Plus(oldBase, x)))
  {
    hide Plus, InsnAddress, FollowingWord, Moved, JumpDelay, JumpTarget;
    OldInsnAddress(oldBase, newBase, x);
    TopFourBits(w, JumpDelay(Plus(oldBase, x)));
  }

  lemma SumWithBases(t: bv32, oldBase: bv32, newBase: bv32, x: bv32)
    ensures Moved(t, oldBase + x, newBase + x) == Moved(t, oldBase, newBase)
  {
  }

  lemma MovedWithBases(t: bv32, oldBase: bv32, newBase: bv32, x: bv32)
    ensures Moved(t, Plus(oldBase, x), Plus(newBase, x)) == Moved(t, oldBase, newBase)
  {
    SumWithBases(t, oldBase, newBase, x);
    hide Moved;
  }

  lemma InsnDelay(a: bv32)
    ensures FollowingWord(InsnAddress(a)) == JumpDelay(a)
  {
  }

  // The loop body computes with the address of the third word; Relocate, with that of the slot.
  function NewTargetAddress(s: Slot, insn: bv32, oldBase: bv32, newBase: bv32): bv32
  {
    if IsJWord(s.w2) then Moved(OldTargetAddress(s.w2, insn, oldBase, newBase), oldBase, newBase)
    else Moved(LuiOriValue(s.w2, s.w3), oldBase, newBase)
  }

  lemma RelocateIsTheLoopBody(s: Slot, p: nat, oldBase: bv32, newBase: bv32)
    requires p < MAX_WORDS
    ensures var insn := InsnAddress(Addr(newBase, p));
      var target := NewTargetAddress(s, insn, oldBase, newBase);
      Relocate(s, Addr(oldBase, p), Addr(newBase, p)) ==
        if IsJWord(s.w2) then
          if SameRegion(FollowingWord(insn), target) then s.(w2 := J(target))
          else s.(w2 := LuiT9(target), w3 := OriT9(target), w4 := JR_T9)
        else if IsLuiWord(s.w2) then s.(w2 := LuiT9(target), w3 := OriT9(target))
        else s
  {
    hide Plus, WordOffset, IsJWord, IsLuiWord, OldTargetAddress, LuiOriValue, SameRegion, JumpTarget, JumpDelay, Moved,
      FollowingWord, InsnAddress, J, LuiT9, OriT9;
    OldTargetIsJumpTarget(s.w2, oldBase, newBase, WordOffset(p));
    InsnDelay(Addr(newBase, p));
    MovedWithBases(OldTargetAddress(s.w2, InsnAddress(Addr(newBase, p)), oldBase, newBase), oldBase, newBase, WordOffset(p));
    MovedWithBases(LuiOriValue(s.w2, s.w3), oldBase, newBase, WordOffset(p));
  }

  lemma SlotIsSet(c: seq<bv32>, d: seq<bv32>, p: nat, s: Slot)
    requires |d| == |c| && p + 6 <= |c| && SlotAt(d, p) == s
    requires forall k :: 0 <= k < |c| && (k < p || p + 6 <= k) ==> d[k] == c[k]
    ensures d == SetSlot(c, p, s)
  {
    var r := SetSlot(c, p, s);
    assert r[p] == s.w0 && r[p + 1] == s.w1 && r[p + 2] == s.w2 && r[p + 3] == s.w3 && r[p + 4] == s.w4 && r[p + 5] == s.w5;
    assert d[p] == s.w0 && d[p + 1] == s.w1 && d[p + 2] == s.w2 && d[p + 3] == s.w3 && d[p + 4] == s.w4 && d[p + 5] == s.w5;
    forall k | 0 <= k < |c| ensures d[k] == r[k] {
      assert k < p || p + 6 <= k || k == p || k == p + 1 || k == p + 2 || k == p + 3 || k == p + 4 || k == p + 5;
    }
  }

  // The body of the loop, on words in place.
  method RelocateSlot(code: array<bv32>, p: nat, oldBase: bv32, newBase: bv32)
    requires p + 6 <= code.Length && p < MAX_WORDS
    modifies code
    ensures code[..] == SetSlot(old(code[..]), p,
              Relocate(SlotAt(old(code[..]), p), Addr(oldBase, p), Addr(newBase, p)))
  {
    hide Plus, WordOffset, Addr, IsJWord, IsLuiWord, OldTargetAddress, LuiOriValue, SameRegion, Moved,
      FollowingWord, InsnAddress, J, LuiT9, OriT9, Relocate, SetSlot;
    ghost var s := SlotAt(code[..], p);
    RelocateIsTheLoopBody(s, p, oldBase, newBase);
    var insn := p + 2;
    var address := InsnAddress(Addr(newBase, p));
    if IsJWord(code[insn]) {
      var oldTarget := OldTargetAddress(code[insn], address, oldBase, newBase);
      var newTarget := Moved(oldTarget, oldBase, newBase);
      if SameRegion(FollowingWord(address), newTarget) {
        code[insn] := J(newTarget);
      } else {
        code[insn] := LuiT9(newTarget);
        code[insn + 1] := OriT9(newTarget);
        code[insn + 2] := JR_T9;
      }
    } else if IsLuiWord(code[insn]) {
      var oldTarget := LuiOriValue(code[insn], code[insn + 1]);
      var newTarget := Moved(oldTarget, oldBase, newBase);
      code[insn] := LuiT9(newTarget);
      code[insn + 1] := OriT9(newTarget);
    }
    SlotIsSet(old(code[..]), code[..], p, Relocate(s, Addr(oldBase, p), Addr(newBase, p)));
  }

  lemma RelocatedInPrefix(code: seq<bv32>, size: nat, p: nat, oldBase: bv32, newBase: bv32)
    requires p + 6 <= size <= |code| && size <= MAX_WORDS
    ensures SetSlot(code, p, Relocate(SlotAt(code, p), Addr(oldBase, p), Addr(newBase, p)))[..size]
         == RelocateAt(code[..size], p, oldBase, newBase)
  {
    hide Relocate, SetSlot, Addr;
    assert SlotAt(code, p) == SlotAt(code[..size], p);
    SetInPrefix(code, size, p, Relocate(SlotAt(code, p), Addr(oldBase, p), Addr(newBase, p)));
  }

  // The loop over the recorded jumps of code that has moved from oldBase to newBase.
  method RelocateAll(code: array<bv32>, size: nat, jumps: seq<nat>, ghost infos: seq<Info>, oldBase: bv32, newBase: bv32)
    requires size <= code.Length && size <= MAX_WORDS && Recorded(jumps, infos)
    requires 5 <= size || AllComplete(code[..size], infos)
    modifies code
    ensures code[..size] == MipsLayout.RelocateJumps(old(code[..size]), Positions(infos), |infos|, oldBase, newBase)
  {
    hide Relocate, SetSlot, Addr, Skipped, SlotAt, AllComplete;
    for i := 0 to |jumps|
      invariant code[..size] == MipsLayout.RelocateJumps(old(code[..size]), Positions(infos), i, oldBase, newBase)
    {
      var p := jumps[i] / 4;
      VisitedIffComplete(p, size, old(code[..size]), infos, i);
      if Skipped(p, size) {
        continue;
      }
      RelocatedInPrefix(code[..], size, p, oldBase, newBase);
      RelocateSlot(code, p, oldBase, newBase);
    }
  }

  lemma VisitedIffComplete(p: nat, size: nat, code: seq<bv32>, infos: seq<Info>, i: nat)
    requires |code| == size <= MAX_WORDS && i < |infos| && p == infos[i].pos
    requires 5 <= size || AllComplete(code, infos)
    ensures !Skipped(p, size) <==> p + 6 <= size
  {
    if 5 <= size { CompleteSlotsAreVisited(p, size); }
  }

  // linkWithOffset, on the slot at word p, address `insn`.  All that changed lies within
  // flushSize bytes of the slot's first word.
  method LinkWithOffset(code: array<bv32>, p: nat, insn: bv32, to: bv32) returns (flushSize: nat)
    requires p + 6 <= code.Length
    modifies code
    ensures code[..] == SetSlot(old(code[..]), p, Link(SlotAt(old(code[..]), p), insn, to))
    ensures flushSize == if code[p + 2] == SKIP then 4 else if IsJWord(code[p + 2]) then 16 else 20
    ensures forall k :: p + flushSize / 4 <= k < code.Length ==> code[k] == old(code[k])
  {
    FormsDiffer(to);
    hide Offset, Fits16, Inverted, SameRegion, JumpDelay, J, LuiT9, OriT9, WithOffset, SetSlot, IsJWord, IsLuiWord, LuiOriValue;
    ghost var s := SlotAt(code[..], p);
    var diff := Offset(insn, to);
    if !Fits16(diff) || code[p + 2] != SKIP {
      if code[p + 2] == SKIP {
        code[p] := Inverted(code[p]);
      }
      if SameRegion(JumpDelay(insn), to) {
        code[p + 2] := J(to);
        code[p + 3] := NOP;
        flushSize := 16;
      } else {
        code[p + 2] := LuiT9(to);
        code[p + 3] := OriT9(to);
        code[p + 4] := JR_T9;
        flushSize := 20;
      }
    } else {
      code[p] := WithOffset(code[p], diff);
      flushSize := 4;
    }
    SlotIsSet(old(code[..]), code[..], p, Link(s, insn, to));
  }

  lemma EmptySlotIsOk(code: seq<bv32>, base: bv32, infos: seq<Info>, i: Info)
    requires LayoutOk(code, base, infos) && AllComplete(code, infos) && |code| < MAX_WORDS
    requires i == Info(|code|, i.cond, None) && IsCondition(i.cond)
    ensures LayoutOk(code, base, infos + [i]) && Settled(code, infos + [i])
  {
    hide SlotOk, Addr, IsCondition;
  }

  lemma SlotGoesOn(code: seq<bv32>, i: Info)
    requires OnItsWay(code, i) && |code| < i.pos + 6
    ensures OnItsWay(code + [SlotWord(i.cond, |code| - i.pos)], i)
  {
  }

  lemma LinkKeepsSettled(code: seq<bv32>, base: bv32, infos: seq<Info>, i: nat, t: nat)
    requires |code| <= MAX_WORDS && t < MAX_WORDS && Settled(code, infos) && Disjoint(infos)
    requires i < |infos| && infos[i].pos + 6 <= |code|
    ensures Settled(LinkAt(code, base, infos[i].pos, t), infos[i := infos[i].(target := Some(t))])
  {
    hide Link, Addr;
  }

  class Assembler {
    var code: array<bv32>
    var capacity: nat
    var size: nat
    var base: bv32
    var jumps: seq<nat>
    ghost var infos: seq<Info>

    // capacity is in bytes, as m_capacity; size and the array are in words.
    ghost predicate Valid()
      reads this, code
    {
      && code.Length == capacity / 4 && INLINE_CAPACITY <= capacity && size <= code.Length
      && LayoutOk(code[..size], base, infos) && Settled(code[..size], infos) && Recorded(jumps, infos)
    }

    ghost function Code(): (c: seq<bv32>)
      reads this, code
      requires size <= code.Length
    {
      code[..size]
    }

    constructor (base: bv32)
      requires Aligned(base)
      ensures Valid() && fresh(code) && Code() == [] && infos == [] && this.base == base
    {
      code := new bv32[INLINE_CAPACITY / 4](_ => 0);
      capacity := INLINE_CAPACITY;
      size := 0;
      this.base := base;
      jumps := [];
      infos := [];
    }

    // AssemblerBuffer::putInt; a buffer that grows may go to a new base.
    method PutInt(op: bv32, newBase: bv32)
      requires size <= code.Length == capacity / 4 && INLINE_CAPACITY <= capacity
      modifies this`code, this`capacity, this`size, this`base, code
      ensures size <= code.Length == capacity / 4 && INLINE_CAPACITY <= capacity
      ensures (code == old(code) || fresh(code)) && Code() == old(Code()) + [op]
      ensures base == (if 4 * old(size) > old(capacity) - 4 then newBase else old(base))
      ensures capacity == old(capacity) + if 4 * old(size) > old(capacity) - 4 then old(capacity) / 2 else 0
    {
      if 4 * size > capacity - 4 {
        capacity := capacity + capacity / 2;
        var newBuffer := new bv32[capacity / 4](_ => 0);
        forall i | 0 <= i < size {
          newBuffer[i] := code[i];
        }
        code := newBuffer;
        base := newBase;
      }
      code[size] := op;
      size := size + 1;
    }

    // emitInst: if the buffer has moved, every complete slot in it moves along, the word
    // just emitted included.
    method EmitInst(op: bv32, newBase: bv32)
      requires Valid() && size < MAX_WORDS && Aligned(newBase)
      requires AllComplete(Code(), infos) || OnItsWay(Code() + [op], infos[|infos| - 1])
      modifies this, code
      ensures Valid() && (code == old(code) || fresh(code)) && infos == old(infos) && jumps == old(jumps)
      ensures size == old(size) + 1 && base in {old(base), newBase}
      ensures SamePlain(old(Code()) + [op], infos, Code())
      ensures base == old(base) ==> Code() == old(Code()) + [op]
      ensures base != old(base) ==>
        Code() == MipsLayout.RelocateJumps(old(Code()) + [op], Positions(infos), |infos|, old(base), base)
    {
      hide InfoOk, Settled, MipsLayout.RelocateJumps;
      var oldBase := base;
      AppendKeepsLayout(Code(), base, infos, op);
      PutInt(op, newBase);
      if oldBase != base {
        RelocationKeepsLayout(Code(), oldBase, base, infos);
        RelocationKeepsSettled(Code(), oldBase, base, infos);
        RelocationKeepsPlain(Code(), oldBase, base, infos);
        RelocateAll(code, size, jumps, infos, oldBase, base);
      }
    }

    // The next word of the slot that is on its way.
    method EmitSlotWord(op: bv32, newBase: bv32)
      requires Valid() && infos != [] && size < infos[|infos| - 1].pos + 6 <= MAX_WORDS && Aligned(newBase)
      requires infos[|infos| - 1].pos <= size && op == SlotWord(infos[|infos| - 1].cond, size - infos[|infos| - 1].pos)
      modifies this, code
      ensures Valid() && (code == old(code) || fresh(code)) && infos == old(infos) && jumps == old(jumps)
      ensures size == old(size) + 1 && SamePlain(old(Code()), infos, Code())
    {
      hide InfoOk, Aligned, SlotWord, IsCondition;
      SlotGoesOn(Code(), infos[|infos| - 1]);
      EmitInst(op, newBase);
    }

    // Four words of room: a branch over the other three.
    method InsertRelaxationWords(newBase: bv32)
      requires Valid() && infos != [] && size == infos[|infos| - 1].pos + 2 <= MAX_WORDS - 4 && Aligned(newBase)
      modifies this, code
      ensures Valid() && (code == old(code) || fresh(code)) && infos == old(infos) && jumps == old(jumps)
      ensures size == old(size) + 4 && SamePlain(old(Code()), infos, Code())
    {
      hide LayoutOk, Settled, Aligned, Recorded;
      EmitSlotWord(SKIP, newBase);
      EmitSlotWord(NOP, newBase);
      EmitSlotWord(NOP, newBase);
      EmitSlotWord(NOP, newBase);
    }

    // branchEqual, branchNotEqual, branchTrue and branchFalse: record the jump, then emit
    // its slot.  Growing adds room for far more than six words, so one new base is enough.
    method Branch(cond: bv32, newBase: bv32) returns (source: nat)
      requires Valid() && AllComplete(Code(), infos) && size + 6 <= MAX_WORDS
      requires IsCondition(cond) && Aligned(newBase)
      modifies this, code
      ensures Valid() && (code == old(code) || fresh(code)) && AllComplete(Code(), infos)
      ensures infos == old(infos) + [Info(old(size), cond, None)] && source == 4 * size == 4 * old(size) + 24
      ensures SamePlain(old(Code()), old(infos), Code())
    {
      hide InfoOk, Aligned, IsCondition;
      EmptySlotIsOk(Code(), base, infos, Info(size, cond, None));
      jumps := jumps + [4 * size];
      infos := infos + [Info(size, cond, None)];
      EmitSlotWord(cond, newBase);
      EmitSlotWord(NOP, newBase);
      InsertRelaxationWords(newBase);
      source := 4 * size;
    }

    // linkJump inside the buffer; the words it requires to be zero are those the source
    // asserts to be.
    method LinkJump(from: nat, to: nat, ghost i: nat)
      requires Valid() && i < |infos| && from == 4 * (infos[i].pos + 6) <= 4 * size
      requires to % 4 == 0 && to < 4 * MAX_WORDS
      requires code[from / 4 - 1] == 0 && code[from / 4 - 2] == 0 && code[from / 4 - 3] == 0 && code[from / 4 - 5] == 0
      modifies this`infos, code
      ensures Valid() && infos == old(infos)[i := old(infos)[i].(target := Some(to / 4))]
      ensures Code() == LinkAt(old(Code()), base, old(infos)[i].pos, to / 4)
    {
      hide InfoOk, Aligned, Link, SetSlot, Addr;
      var p := from / 4 - 6;
      LinkKeepsLayout(Code(), base, infos, i, to / 4);
      LinkKeepsSettled(Code(), base, infos, i, to / 4);
      SetInPrefix(code[..], size, p, Link(SlotAt(code[..], p), Addr(base, p), Addr(base, to / 4)));
      assert SlotAt(code[..], p) == SlotAt(Code(), p);
      var _ := LinkWithOffset(code, p, Addr(base, p), Addr(base, to / 4));
      infos := infos[i := infos[i].(target := Some(to / 4))];
    }

    // The copy at newBase is the code with every slot moved; there is none of empty code.
    method ExecutableCopy(newBase: bv32) returns (result: array?<bv32>)
      requires Valid() && AllComplete(Code(), infos) && Aligned(newBase)
      ensures result == null <==> size == 0
      ensures result != null ==> fresh(result) && LayoutOk(result[..], newBase, infos)
      ensures result != null ==>
        result[..] == MipsLayout.RelocateJumps(Code(), Positions(infos), |infos|, base, newBase)
    {
      hide InfoOk, MipsLayout.RelocateJumps, Aligned;
      if size == 0 { return null; }
      result := new bv32[size](i requires 0 <= i < size && size <= code.Length reads this, code => code[i]);
      assert result[..size] == Code();
      RelocationKeepsLayout(Code(), base, newBase, infos);
      RelocateAll(result, size, jumps, infos, base, newBase);
      assert result[..] == result[..size];
    }
  }

  // relinkJump, on code already in place: the flushed bytes hold every word that changed.
  method RelinkJump(code: array<bv32>, p: nat, insn: bv32, to: bv32, ghost cond: bv32, ghost target: Option<bv32>)
    returns (flushSize: nat)
    requires p + 6 <= code.Length && Aligned(insn) && Aligned(to)
    requires SlotOk(SlotAt(code[..], p), insn, cond, target)
    modifies code
    ensures SlotOk(SlotAt(code[..], p), insn, cond, Some(to))
    ensures flushSize % 4 == 0 && flushSize <= 20
    ensures forall k :: 0 <= k < code.Length && !(p <= k < p + flushSize / 4) ==> code[k] == old(code[k])
  {
    hide SlotOk, Link, Aligned;
    LinkKeepsSlot(SlotAt(code[..], p), insn, cond, target, to);
    flushSize := LinkWithOffset(code, p, insn, to);
  }
}
