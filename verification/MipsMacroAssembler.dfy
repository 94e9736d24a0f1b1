// What MacroAssemblerMIPS emits: branches, loads and stores, constants and the overflow branches;
// and what the overflow branches do in the finished code, wherever it has moved and however
// their slots were linked.
module MipsMacroAssembler {
  import opened Options
  import opened SignedWords
  import opened MipsMachine
  import opened MipsSlots
  import opened MipsLayout
  import opened MipsAssembler
  import opened MipsOverflow
  import opened MipsImmediates

  // Words emitted behind the code c; its own plain words have stayed.
  predicate Emitted(c: seq<bv32>, infos: seq<Info>, words: seq<bv32>, code: seq<bv32>)
  {
    && |code| == |c| + |words| && code[|c|..] == words
    && AllComplete(c, infos) && SamePlain(c, infos, code)
  }

  lemma EmittedOneMore(c: seq<bv32>, infos: seq<Info>, words: seq<bv32>, code: seq<bv32>, op: bv32, after: seq<bv32>)
    requires Emitted(c, infos, words, code) && SamePlain(code + [op], infos, after) && |after| == |code| + 1
    ensures Emitted(c, infos, words + [op], after)
  {
    forall k | |c| <= k < |after| ensures Outside(infos, k) {
    }
  }

  lemma EmittedThenSlot(c: seq<bv32>, infos: seq<Info>, words: seq<bv32>, code: seq<bv32>, after: seq<bv32>)
    requires Emitted(c, infos, words, code) && SamePlain(code, infos, after)
    ensures SamePlain(c, infos, after) && after[|c|..|c| + |words|] == words
  {
    forall k | |c| <= k < |code| ensures Outside(infos, k) && after[k] == words[k - |c|] {
    }
  }

  // a had the code c, and has emitted the first k of words behind it.
  ghost predicate Emitting(a: Assembler, c: seq<bv32>, infos: seq<Info>, words: seq<bv32>, k: nat)
    reads a, a.code
  {
    a.Valid() && a.infos == infos && k <= |words| && Emitted(c, infos, words[..k], a.Code())
  }

  lemma NothingEmitted(a: Assembler, words: seq<bv32>)
    requires a.Valid() && AllComplete(a.Code(), a.infos)
    ensures Emitting(a, a.Code(), a.infos, words, 0)
  {
  }

  method Emit(a: Assembler, op: bv32, newBase: bv32, ghost c: seq<bv32>, ghost infos: seq<Info>, ghost words: seq<bv32>, ghost k: nat)
    requires Emitting(a, c, infos, words, k) && k < |words| && op == words[k]
    requires |c| + |words| <= MAX_WORDS && Aligned(newBase)
    modifies a, a.code
    ensures (a.code == old(a.code) || fresh(a.code)) && Emitting(a, c, infos, words, k + 1)
  {
    hide LayoutOk, Settled, Aligned, SamePlain;
    a.EmitInst(op, newBase);
    EmittedOneMore(c, a.infos, words[..k], old(a.Code()), op, a.Code());
    assert words[..k] + [op] == words[..k + 1];
  }

  // jump(): a slot that always jumps.
  method Jump(a: Assembler, newBase: bv32, ghost c: seq<bv32>, ghost infos: seq<Info>, ghost words: seq<bv32>)
    returns (source: nat)
    requires Emitting(a, c, infos, words, |words|) && |c| + |words| + 6 <= MAX_WORDS && Aligned(newBase)
    modifies a, a.code
    ensures a.Valid() && (a.code == old(a.code) || fresh(a.code)) && AllComplete(a.Code(), a.infos)
    ensures a.infos == infos + [Info(|c| + |words|, ALWAYS, None)] && source == 4 * a.size
    ensures a.size == |c| + |words| + 6 && SamePlain(c, infos, a.Code())
    ensures a.Code()[|c|..|c| + |words|] == words
  {
    hide LayoutOk, Settled, Aligned, SamePlain, IsCondition;
    AlwaysIsCondition();
    assert words[..|words|] == words;
    source := a.Branch(ALWAYS, newBase);
    EmittedThenSlot(c, infos, words, old(a.Code()), a.Code());
  }

  lemma AlwaysIsCondition()
    ensures IsCondition(ALWAYS)
  {
  }

  method EmitAll(a: Assembler, words: seq<bv32>, newBase: bv32, ghost c: seq<bv32>, ghost infos: seq<Info>)
    requires a.Valid() && AllComplete(a.Code(), a.infos) && c == a.Code() && infos == a.infos
    requires |c| + |words| <= MAX_WORDS && Aligned(newBase)
    modifies a, a.code
    ensures (a.code == old(a.code) || fresh(a.code)) && Emitting(a, c, infos, words, |words|)
  {
    hide Assembler.Valid, Assembler.Code, Aligned, AllComplete, Emitting;
    NothingEmitted(a, words);
    for k := 0 to |words|
      invariant (a.code == old(a.code) || fresh(a.code)) && Emitting(a, c, infos, words, k)
    {
      Emit(a, words[k], newBase, c, infos, words, k);
    }
  }

  // The instructions of a check, in order, and then the jump.
  method EmitThenJump(a: Assembler, words: seq<bv32>, newBase: bv32) returns (source: nat)
    requires a.Valid() && AllComplete(a.Code(), a.infos) && a.size + |words| + 6 <= MAX_WORDS && Aligned(newBase)
    modifies a, a.code
    ensures a.Valid() && (a.code == old(a.code) || fresh(a.code)) && AllComplete(a.Code(), a.infos)
    ensures a.infos == old(a.infos) + [Info(old(a.size) + |words|, ALWAYS, None)] && source == 4 * a.size
    ensures a.size == old(a.size) + |words| + 6 && SamePlain(old(a.Code()), old(a.infos), a.Code())
    ensures a.Code()[old(a.size)..old(a.size) + |words|] == words
  {
    ghost var c, infos := a.Code(), a.infos;
    hide *;
    EmitAll(a, words, newBase, c, infos);
    source := Jump(a, newBase, c, infos, words);
  }

  // Instructions without a slot, in order.
  method EmitWords(a: Assembler, words: seq<bv32>, newBase: bv32)
    requires a.Valid() && AllComplete(a.Code(), a.infos) && a.size + |words| <= MAX_WORDS && Aligned(newBase)
    modifies a, a.code
    ensures a.Valid() && (a.code == old(a.code) || fresh(a.code)) && AllComplete(a.Code(), a.infos)
    ensures a.infos == old(a.infos) && a.size == old(a.size) + |words|
    ensures SamePlain(old(a.Code()), old(a.infos), a.Code()) && a.Code()[old(a.size)..] == words
  {
    ghost var c, infos := a.Code(), a.infos;
    hide Assembler.Valid, Assembler.Code, Aligned, SamePlain, AllComplete, Emitting, LayoutOk, Settled, Recorded;
    EmitAll(a, words, newBase, c, infos);
    AllEmitted(a, c, infos, words);
  }

  lemma AllEmitted(a: Assembler, c: seq<bv32>, infos: seq<Info>, words: seq<bv32>)
    requires Emitting(a, c, infos, words, |words|)
    ensures a.Valid() && a.infos == infos && a.size == |c| + |words| && AllComplete(a.Code(), a.infos)
    ensures SamePlain(c, infos, a.Code()) && a.Code()[|c|..] == words
  {
    assert words[..|words|] == words;
  }

  // ---- Loads, stores and constants -------------------------------------------------------------

  // load32 of an ImplicitAddress.
  method Load32(a: Assembler, offset: bv32, b: bv5, fixedWidth: bool, dest: bv5, newBase: bv32)
    requires a.Valid() && AllComplete(a.Code(), a.infos) && a.size + 3 <= MAX_WORDS && Aligned(newBase)
    modifies a, a.code
    ensures a.Valid() && (a.code == old(a.code) || fresh(a.code)) && AllComplete(a.Code(), a.infos)
    ensures a.infos == old(a.infos) && SamePlain(old(a.Code()), old(a.infos), a.Code())
    ensures old(a.size) <= a.size && a.Code()[old(a.size)..] == LoadWords(offset, b, fixedWidth, dest)
  {
    hide Assembler.Valid, Assembler.Code, Aligned, SamePlain, AllComplete, Fits16;
    if Fits16(offset) && !fixedWidth {
      EmitWords(a, [Lw(dest, b, offset)], newBase);
    } else {
      EmitWords(a, [Lui(T2, RoundedUpper(offset)), Addu(T2, T2, b), Lw(dest, T2, offset)], newBase);
    }
  }

  // store32 of a register to an ImplicitAddress.
  method Store32(a: Assembler, src: bv5, offset: bv32, b: bv5, fixedWidth: bool, newBase: bv32)
    requires a.Valid() && AllComplete(a.Code(), a.infos) && a.size + 3 <= MAX_WORDS && Aligned(newBase)
    modifies a, a.code
    ensures a.Valid() && (a.code == old(a.code) || fresh(a.code)) && AllComplete(a.Code(), a.infos)
    ensures a.infos == old(a.infos) && SamePlain(old(a.Code()), old(a.infos), a.Code())
    ensures old(a.size) <= a.size && a.Code()[old(a.size)..] == StoreWords(offset, b, fixedWidth, src)
  {
    hide Assembler.Valid, Assembler.Code, Aligned, SamePlain, AllComplete, Fits16;
    if Fits16(offset) && !fixedWidth {
      EmitWords(a, [Sw(src, b, offset)], newBase);
    } else {
      EmitWords(a, [Lui(T2, RoundedUpper(offset)), Addu(T2, T2, b), Sw(src, T2, offset)], newBase);
    }
  }

  // load32 of a BaseIndex.
  method Load32Indexed(
      a: Assembler, offset: bv32, b: bv5, index: bv5, scale: bv5, fixedWidth: bool, dest: bv5, newBase: bv32)
    requires a.Valid() && AllComplete(a.Code(), a.infos) && a.size + 5 <= MAX_WORDS && Aligned(newBase)
    modifies a, a.code
    ensures a.Valid() && (a.code == old(a.code) || fresh(a.code)) && AllComplete(a.Code(), a.infos)
    ensures a.infos == old(a.infos) && SamePlain(old(a.Code()), old(a.infos), a.Code())
    ensures old(a.size) <= a.size && a.Code()[old(a.size)..] == IndexLoadWords(offset, b, index, scale, fixedWidth, dest)
  {
    hide Assembler.Valid, Assembler.Code, Aligned, SamePlain, AllComplete, Fits16;
    if Fits16(offset) && !fixedWidth {
      EmitWords(a, [Sll(T2, index, scale), Addu(T2, T2, b), Lw(dest, T2, offset)], newBase);
    } else {
      EmitWords(a, [Sll(T2, index, scale), Addu(T2, T2, b), Lui(T0, RoundedUpper(offset)), Addu(T2, T2, T0),
                    Lw(dest, T2, offset)], newBase);
    }
  }

  // store32 of a register to a BaseIndex.
  method Store32Indexed(
      a: Assembler, src: bv5, offset: bv32, b: bv5, index: bv5, scale: bv5, fixedWidth: bool, newBase: bv32)
    requires a.Valid() && AllComplete(a.Code(), a.infos) && a.size + 5 <= MAX_WORDS && Aligned(newBase)
    modifies a, a.code
    ensures a.Valid() && (a.code == old(a.code) || fresh(a.code)) && AllComplete(a.Code(), a.infos)
    ensures a.infos == old(a.infos) && SamePlain(old(a.Code()), old(a.infos), a.Code())
    ensures old(a.size) <= a.size && a.Code()[old(a.size)..] == IndexStoreWords(offset, b, index, scale, fixedWidth, src)
  {
    hide Assembler.Valid, Assembler.Code, Aligned, SamePlain, AllComplete, Fits16;
    if Fits16(offset) && !fixedWidth {
      EmitWords(a, [Sll(T2, index, scale), Addu(T2, T2, b), Sw(src, T2, offset)], newBase);
    } else {
      EmitWords(a, [Sll(T2, index, scale), Addu(T2, T2, b), Lui(T0, RoundedUpper(offset)), Addu(T2, T2, T0),
                    Sw(src, T2, offset)], newBase);
    }
  }

  // move of a constant.
  method Move(a: Assembler, imm: bv32, isPointer: bool, fixedWidth: bool, dest: bv5, newBase: bv32)
    requires a.Valid() && AllComplete(a.Code(), a.infos) && a.size + 2 <= MAX_WORDS && Aligned(newBase)
    modifies a, a.code
    ensures a.Valid() && (a.code == old(a.code) || fresh(a.code)) && AllComplete(a.Code(), a.infos)
    ensures a.infos == old(a.infos) && SamePlain(old(a.Code()), old(a.infos), a.Code())
    ensures old(a.size) <= a.size && a.Code()[old(a.size)..] == MoveImmediate(imm, isPointer, fixedWidth, dest)
  {
    hide Assembler.Valid, Assembler.Code, Aligned, SamePlain, AllComplete, Fits16;
    if !isPointer && imm == 0 && !fixedWidth {
      EmitWords(a, [MipsOverflow.Move(dest, ZERO)], newBase);
    } else if isPointer || fixedWidth {
      EmitWords(a, [Lui(dest, UpperHalf(imm)), Ori(dest, dest, imm)], newBase);
    } else {
      EmitWords(a, Li(dest, imm), newBase);
    }
  }

  // ---- Branches --------------------------------------------------------------------------------

  function Bne(rs: bv5, rt: bv5, imm: bv32): bv32 { IType(0x1400_0000, rs, rt, imm) }

  const BC1T: bv32 := 0x4501_0000
  const BC1F: bv32 := 0x4500_0000

  // The conditions that slots are recorded with, and by which EveryJumpRuns says when they jump.
  lemma ConditionsMean(rs: bv5, rt: bv5, m: Machine)
    ensures IsCondition(Beq(rs, rt, 0)) && (Taken(Beq(rs, rt, 0), m) <==> Reg(m, rs) == Reg(m, rt))
    ensures IsCondition(Bne(rs, rt, 0)) && (Taken(Bne(rs, rt, 0), m) <==> Reg(m, rs) != Reg(m, rt))
    ensures IsCondition(BC1T) && (Taken(BC1T, m) <==> m.fcc)
    ensures IsCondition(BC1F) && (Taken(BC1F, m) <==> !m.fcc)
  {
    ITypeFields(0x1000_0000, rs, rt, 0);
    ITypeFields(0x1400_0000, rs, rt, 0);
    assert Op(BC1T) == 17 && Op(BC1F) == 17 && Top(BC1T) == 0x4501 && Top(BC1F) == 0x4500;
    hide Op, Top, Rs, Rt, IType, Reg;
  }

  method BranchEqual(a: Assembler, rs: bv5, rt: bv5, newBase: bv32) returns (source: nat)
    requires a.Valid() && AllComplete(a.Code(), a.infos) && a.size + 6 <= MAX_WORDS && Aligned(newBase)
    modifies a, a.code
    ensures a.Valid() && (a.code == old(a.code) || fresh(a.code)) && AllComplete(a.Code(), a.infos)
    ensures a.infos == old(a.infos) + [Info(old(a.size), Beq(rs, rt, 0), None)] && source == 4 * old(a.size) + 24
    ensures SamePlain(old(a.Code()), old(a.infos), a.Code())
  {
    BranchWords(rs, rt);
    hide Assembler.Valid, Assembler.Code, Aligned, SamePlain, AllComplete, IsCondition;
    source := a.Branch(Beq(rs, rt, 0), newBase);
  }

  method BranchNotEqual(a: Assembler, rs: bv5, rt: bv5, newBase: bv32) returns (source: nat)
    requires a.Valid() && AllComplete(a.Code(), a.infos) && a.size + 6 <= MAX_WORDS && Aligned(newBase)
    modifies a, a.code
    ensures a.Valid() && (a.code == old(a.code) || fresh(a.code)) && AllComplete(a.Code(), a.infos)
    ensures a.infos == old(a.infos) + [Info(old(a.size), Bne(rs, rt, 0), None)] && source == 4 * old(a.size) + 24
    ensures SamePlain(old(a.Code()), old(a.infos), a.Code())
  {
    BranchWords(rs, rt);
    hide Assembler.Valid, Assembler.Code, Aligned, SamePlain, AllComplete, IsCondition;
    source := a.Branch(Bne(rs, rt, 0), newBase);
  }

  // branchTrue and branchFalse.
  method BranchOnFlag(a: Assembler, flag: bool, newBase: bv32) returns (source: nat)
    requires a.Valid() && AllComplete(a.Code(), a.infos) && a.size + 6 <= MAX_WORDS && Aligned(newBase)
    modifies a, a.code
    ensures a.Valid() && (a.code == old(a.code) || fresh(a.code)) && AllComplete(a.Code(), a.infos)
    ensures a.infos == old(a.infos) + [Info(old(a.size), if flag then BC1T else BC1F, None)]
    ensures source == 4 * old(a.size) + 24 && SamePlain(old(a.Code()), old(a.infos), a.Code())
  {
    BranchWords(ZERO, ZERO);
    hide Assembler.Valid, Assembler.Code, Aligned, SamePlain, AllComplete, IsCondition;
    source := a.Branch(if flag then BC1T else BC1F, newBase);
  }

  lemma BranchWords(rs: bv5, rt: bv5)
    ensures IsCondition(Beq(rs, rt, 0)) && IsCondition(Bne(rs, rt, 0)) && IsCondition(BC1T) && IsCondition(BC1F)
  {
  }

  // ---- Overflow branches -----------------------------------------------------------------------

  // branchAdd32 for Overflow.
  method BranchAdd32(a: Assembler, src: bv5, dest: bv5, newBase: bv32) returns (source: nat)
    requires a.Valid() && AllComplete(a.Code(), a.infos) && a.size + 13 <= MAX_WORDS && Aligned(newBase)
    modifies a, a.code
    ensures a.Valid() && (a.code == old(a.code) || fresh(a.code)) && AllComplete(a.Code(), a.infos)
    ensures a.infos == old(a.infos) + [Info(old(a.size) + 7, ALWAYS, None)] && source == 4 * a.size
    ensures a.size == old(a.size) + 13 && SamePlain(old(a.Code()), old(a.infos), a.Code())
    ensures a.Code()[old(a.size)..old(a.size) + 7] == AddCheck(src, dest)
  {
    source := EmitThenJump(a, AddCheck(src, dest), newBase);
  }

  // branchSub32 for Overflow.
  method BranchSub32(a: Assembler, src: bv5, dest: bv5, newBase: bv32) returns (source: nat)
    requires a.Valid() && AllComplete(a.Code(), a.infos) && a.size + 13 <= MAX_WORDS && Aligned(newBase)
    modifies a, a.code
    ensures a.Valid() && (a.code == old(a.code) || fresh(a.code)) && AllComplete(a.Code(), a.infos)
    ensures a.infos == old(a.infos) + [Info(old(a.size) + 7, ALWAYS, None)] && source == 4 * a.size
    ensures a.size == old(a.size) + 13 && SamePlain(old(a.Code()), old(a.infos), a.Code())
    ensures a.Code()[old(a.size)..old(a.size) + 7] == SubCheck(src, dest)
  {
    source := EmitThenJump(a, SubCheck(src, dest), newBase);
  }

  // branchMul32 for Overflow.
  method BranchMul32(a: Assembler, src: bv5, dest: bv5, newBase: bv32) returns (source: nat)
    requires a.Valid() && AllComplete(a.Code(), a.infos) && a.size + 12 <= MAX_WORDS && Aligned(newBase)
    modifies a, a.code
    ensures a.Valid() && (a.code == old(a.code) || fresh(a.code)) && AllComplete(a.Code(), a.infos)
    ensures a.infos == old(a.infos) + [Info(old(a.size) + 6, ALWAYS, None)] && source == 4 * a.size
    ensures a.size == old(a.size) + 12 && SamePlain(old(a.Code()), old(a.infos), a.Code())
    ensures a.Code()[old(a.size)..old(a.size) + 6] == MulCheck(src, dest)
  {
    source := EmitThenJump(a, MulCheck(src, dest), newBase);
  }

  // branch32 for Overflow.
  method BranchOverflow32(a: Assembler, left: bv5, right: bv5, newBase: bv32) returns (source: nat)
    requires a.Valid() && AllComplete(a.Code(), a.infos) && a.size + 13 <= MAX_WORDS && Aligned(newBase)
    modifies a, a.code
    ensures a.Valid() && (a.code == old(a.code) || fresh(a.code)) && AllComplete(a.Code(), a.infos)
    ensures a.infos == old(a.infos) + [Info(old(a.size) + 7, ALWAYS, None)] && source == 4 * a.size
    ensures a.size == old(a.size) + 13 && SamePlain(old(a.Code()), old(a.infos), a.Code())
    ensures a.Code()[old(a.size)..old(a.size) + 7] == CompareCheck(left, right)
  {
    source := EmitThenJump(a, CompareCheck(left, right), newBase);
  }

  // ---- In the finished code ------------------------------------------------------------------------

  lemma AddrInAddr(base: bv32, p: nat, k: nat)
    requires p + k < MAX_WORDS
    ensures Addr(Addr(base, p), k) == Addr(base, p + k)
  {
    OffsetsAdd(p, k);
    PlusAssociates(base, WordOffset(p), WordOffset(k));
    hide Plus;
  }

  lemma PlusAssociates(x: bv32, y: bv32, z: bv32)
    ensures Plus(x + y, z) == Plus(x, y + z) && Plus(x, y) == x + y && Plus(y, z) == y + z
  {
  }

  lemma PartIsLoaded(mem: bv32 -> bv32, code: seq<bv32>, base: bv32, p: nat, q: nat)
    requires Loaded(mem, code, base) && p <= q <= |code| < MAX_WORDS
    ensures Loaded(mem, code[p..q], Addr(base, p))
  {
    hide Addr;
    forall k | 0 <= k < q - p ensures mem(Addr(Addr(base, p), k)) == code[p..q][k] {
      AddrInAddr(base, p, k);
    }
  }

  // A check at word p of good code, its slot recorded behind it and linked to word t.
  ghost predicate CheckInCode(code: seq<bv32>, base: bv32, infos: seq<Info>, i: nat, check: seq<bv32>, p: nat, t: nat)
  {
    && LayoutOk(code, base, infos) && i < |infos| && |check| < 16
    && infos[i] == Info(p + |check|, ALWAYS, Some(t)) && p + |check| + 6 <= |code| < MAX_WORDS
    && code[p..p + |check|] == check
  }

  lemma CheckIsReady(mem: bv32 -> bv32, code: seq<bv32>, base: bv32, infos: seq<Info>, i: nat, check: seq<bv32>, p: nat, t: nat)
    requires CheckInCode(code, base, infos, i, check, p, t) && Loaded(mem, code, base)
    ensures t < MAX_WORDS
    ensures CheckAndSlot(mem, check, SlotAt(code, p + |check|), Addr(base, p), Addr(base, t))
    ensures forall k :: 0 <= k <= |check| + 6 ==> Addr(Addr(base, p), k) == Addr(base, p + k)
  {
    hide SlotOk, Addr, Aligned, IsCondition, Loaded;
    var n := |check|;
    assert InfoOk(code, base, infos[i]);
    PartIsLoaded(mem, code, base, p, p + n + 6);
    assert code[p..p + n + 6] == check + SlotWords(SlotAt(code, p + n));
    forall k | 0 <= k <= n + 6 ensures Addr(Addr(base, p), k) == Addr(base, p + k) {
      AddrInAddr(base, p, k);
    }
  }

  // branchAdd32 and branchSub32 in the finished code: to word t exactly on overflow.
  lemma AddOrSubInCode(
      mem: bv32 -> bv32, code: seq<bv32>, base: bv32, infos: seq<Info>, i: nat, p: nat, t: nat,
      add: bool, src: bv5, dest: bv5, m: Machine)
    returns (n: nat)
    requires CheckInCode(code, base, infos, i, Check(add, src, dest), p, t) && Loaded(mem, code, base)
    requires IsAt(m, Addr(base, p)) && dest !in {ZERO, T1, T3, T9} && src !in {T1, T3}
    ensures t < MAX_WORDS
    ensures var e := Steps(mem, m, n); var x, y := Reg(m, dest), Reg(m, src);
      && Reg(e, dest) == Result(add, x, y) && SameBut(m, e, {dest, T1, T3, T9})
      && IsAt(e, Addr(base, if Overflows(add, x, y) then t else p + 13))
  {
    hide Addr, Loaded, CheckAndSlot, Steps, Result, Overflows, Reg, LayoutOk, Next, RType, Bltz, Bgez;
    CheckIsReady(mem, code, base, infos, i, Check(add, src, dest), p, t);
    assert |Check(add, src, dest)| == 7;
    assert Addr(Addr(base, p), 0) == Addr(base, p);
    assert Addr(Addr(base, p), 13) == Addr(base, p + 13);
    n := BranchAddOrSubRuns(mem, Addr(base, p), add, src, dest, SlotAt(code, p + 7), Addr(base, t), m);
  }

  lemma MulInCode(
      mem: bv32 -> bv32, code: seq<bv32>, base: bv32, infos: seq<Info>, i: nat, p: nat, t: nat,
      src: bv5, dest: bv5, m: Machine)
    returns (n: nat)
    requires CheckInCode(code, base, infos, i, MulCheck(src, dest), p, t) && Loaded(mem, code, base)
    requires IsAt(m, Addr(base, p)) && dest !in {ZERO, T1, T2, T9}
    ensures t < MAX_WORDS
    ensures var e := Steps(mem, m, n); var x, y := Reg(m, src), Reg(m, dest);
      && Reg(e, dest) == Low32(Product(x, y)) && SameRegsBut(m, e, {dest, T1, T2, T9})
      && e.hi == High32(Product(x, y)) && e.lo == Low32(Product(x, y))
      && IsAt(e, Addr(base, if MulOverflows(x, y) then t else p + 12))
  {
    hide Addr, Loaded, CheckAndSlot, Steps, High32, Low32, Product, MulOverflows, Reg, LayoutOk, Next, RType, Beq;
    CheckIsReady(mem, code, base, infos, i, MulCheck(src, dest), p, t);
    assert Addr(Addr(base, p), 0) == Addr(base, p);
    assert Addr(Addr(base, p), 12) == Addr(base, p + 12);
    n := BranchMulRuns(mem, Addr(base, p), src, dest, SlotAt(code, p + 6), Addr(base, t), m);
  }

  lemma CompareInCode(
      mem: bv32 -> bv32, code: seq<bv32>, base: bv32, infos: seq<Info>, i: nat, p: nat, t: nat,
      left: bv5, right: bv5, m: Machine)
    returns (n: nat)
    requires CheckInCode(code, base, infos, i, CompareCheck(left, right), p, t) && Loaded(mem, code, base)
    requires IsAt(m, Addr(base, p)) && left != T3 && right != T3
    ensures t < MAX_WORDS
    ensures var e := Steps(mem, m, n);
      && SameBut(m, e, {T3, T9})
      && IsAt(e, Addr(base, if SubOverflows(Reg(m, left), Reg(m, right)) then t else p + 13))
  {
    hide Addr, Loaded, CheckAndSlot, Steps, SubOverflows, Reg, LayoutOk, Next, RType, Bgez;
    CheckIsReady(mem, code, base, infos, i, CompareCheck(left, right), p, t);
    assert Addr(Addr(base, p), 0) == Addr(base, p);
    assert Addr(Addr(base, p), 13) == Addr(base, p + 13);
    n := BranchOverflowRuns(mem, Addr(base, p), left, right, SlotAt(code, p + 7), Addr(base, t), m);
  }
}
