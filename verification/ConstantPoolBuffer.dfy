// The assembler buffer with its constant pools, updated in place.  Each method is proved
// to take the state of module ConstantPool to what the function of the same name says.
module ConstantPoolBuffer {
  import opened Options
  import opened ArmWords
  import opened AssemblerBuffer
  import opened ConstantPool

  const POOL_ENTRIES := 512   // maxPoolSize / sizeof(uint32_t)

  function InWords(offsets: seq<nat>): (r: seq<nat>)
    ensures |r| == |offsets|
  {
    seq(|offsets|, (i: nat) requires i < |offsets| => offsets[i] / 4)
  }

  class PoolBuffer {
    const base: Buffer             // the base class: m_buffer, m_capacity, m_size
    const pool: array<Word>        // m_pool
    const mask: array<Kind>        // m_mask
    var loadOffsets: seq<nat>      // m_loadOffsets, in bytes
    var numConsts: nat
    var maxDistance: int
    var lastConstDelta: int

    ghost predicate Shaped()
      reads this, base, base.buffer, pool, mask
    {
      && base.Valid() && base.size % 4 == 0
      && pool.Length == POOL_ENTRIES && mask.Length == POOL_ENTRIES
      && numConsts <= POOL_ENTRIES
      && (forall i :: 0 <= i < |loadOffsets| ==> loadOffsets[i] % 4 == 0)
    }

    ghost function Model(): State
      reads this, base, base.buffer, pool, mask
      requires Shaped()
    {
      State(Words(base.Contents()), pool[..numConsts], mask[..numConsts],
                  InWords(loadOffsets), maxDistance, lastConstDelta)
    }

    ghost predicate Valid()
      reads this, base, base.buffer, pool, mask
    {
      Shaped() && Budget(Model())
    }

    // The fields through which a method works; the byte buffer may be replaced when it grows.
    ghost function Footprint(): set<object>
      reads this, base
    {
      {this, base, base.buffer, pool, mask}
    }

    constructor ()
      ensures Valid() && fresh(Footprint()) && Model() == EMPTY
    {
      base := new Buffer();
      pool := new Word[POOL_ENTRIES](_ => MOV_R0_R0);
      mask := new Kind[POOL_ENTRIES](_ => UniqueConst);
      loadOffsets := [];
      numConsts := 0;
      maxDistance := MAX_POOL_SIZE;
      lastConstDelta := 0;
    }

    // Appending one word to the buffer, with the deltas not yet corrected.
    method AppendWord(w: Word)
      requires Shaped()
      modifies Footprint()
      ensures Shaped() && fresh(Footprint() - old(Footprint()))
      ensures Model() == old(Model()).(code := old(Model()).code + [w])
      ensures pool[..] == old(pool[..]) && mask[..] == old(mask[..])
      ensures base.size == old(base.size) + 4
      ensures loadOffsets == old(loadOffsets) && numConsts == old(numConsts)
    {
      WordsOfPut(base.Contents(), w);
      base.PutInt(w);
    }

    method CorrectDeltas(insnSize: nat)
      requires Shaped()
      modifies this`maxDistance, this`lastConstDelta
      ensures Shaped() && maxDistance == old(maxDistance) - insnSize
      ensures lastConstDelta == if old(lastConstDelta) > insnSize then old(lastConstDelta) - insnSize else 0
    {
      maxDistance := maxDistance - insnSize;
      lastConstDelta := lastConstDelta - insnSize;
      if lastConstDelta < 0 {
        lastConstDelta := 0;
      }
    }

    method CorrectDeltasForConst(insnSize: nat, constSize: nat)
      requires Shaped()
      modifies this`maxDistance, this`lastConstDelta
      ensures Shaped() && lastConstDelta == constSize
      ensures maxDistance == old(maxDistance) - insnSize
                - (if old(lastConstDelta) > insnSize then old(lastConstDelta) - insnSize else 0)
    {
      CorrectDeltas(insnSize);
      maxDistance := maxDistance - lastConstDelta;
      lastConstDelta := constSize;
    }

    // The pool itself goes behind the code.
    method AppendPool()
      requires Shaped()
      modifies Footprint()
      ensures Shaped() && fresh(Footprint() - old(Footprint()))
      ensures Model() == old(Model()).(code := old(Model()).code + old(Model()).pool)
      ensures loadOffsets == old(loadOffsets) && numConsts == old(numConsts)
    {
      WordsOfAppend(base.Contents(), pool[..numConsts]);
      base.Append(AllBytes(pool[..numConsts]));
    }

    // The words, as executableCopy copies them.
    method CopyCode() returns (data: array<Word>)
      requires Shaped()
      ensures fresh(data) && data[..] == Model().code
    {
      hide Model, Shaped;
      Sizes();
      data := new Word[base.size / 4](_ => MOV_R0_R0);
      var i := 0;
      while i < data.Length
        invariant 0 <= i <= data.Length == |Model().code|
        invariant data[..i] == Model().code[..i]
      {
        data[i] := GetCode(i);
        i := i + 1;
      }
    }

    method GetCode(k: nat) returns (w: Word)
      requires Shaped() && k < |Model().code|
      ensures w == Model().code[k]
    {
      w := base.GetWord(k);
    }

    method SetCode(k: nat, w: Word)
      requires Shaped() && k < |Model().code|
      modifies base.buffer
      ensures Shaped() && Model() == old(Model()).(code := old(Model()).code[k := w])
    {
      WordsOfOverwrite(base.Contents(), k, w);
      base.SetWord(k, w);
    }

    method ClearPool()
      requires Shaped()
      modifies this
      ensures Shaped() && base.buffer == old(base.buffer) && unchanged(base) 
      ensures Model() == State(old(Model()).code, [], [], [], MAX_POOL_SIZE, old(Model()).lastConstDelta)
    {
      loadOffsets := [];
      numConsts := 0;
      maxDistance := MAX_POOL_SIZE;
    }

    // The fields and the state they stand for.
    lemma Sizes()
      requires Shaped()
      ensures |Model().pool| == |Model().kinds| == numConsts
      ensures Model().pool == pool[..numConsts] && Model().kinds == mask[..numConsts]
      ensures 4 * |Model().code| == base.size
      ensures Model().loads == InWords(loadOffsets)
      ensures Model().maxDistance == maxDistance && Model().lastConstDelta == lastConstDelta
    {
    }

    // Barrier, padding and pool go behind the code; then each waiting load is patched.
    method FlushConstantPool(useBarrier: bool := true)
      requires Valid()
      modifies Footprint()
      ensures Valid() && fresh(Footprint() - old(Footprint()))
      ensures Model() == Flush(old(Model()), useBarrier)
    {
      hide Budget, Flush, Tail, PoolStart, PadWords, Model, Shaped;
      Sizes();
      if numConsts == 0 {
        assert Model() == Flush(Model(), useBarrier) by { EmptyFlush(Model(), useBarrier); }
        return;
      }
      ghost var st := Model();
      var alignPool := (base.size + if useBarrier then BARRIER_SIZE else 0) % 8;
      if alignPool != 0 {
        alignPool := 8 - alignPool;
      }
      AppendTail(useBarrier, alignPool);
      Sizes();
      var start := base.size / 4 - numConsts;
      assert start == PoolStart(st, useBarrier) by { PoolIsBounded(st); }
      PatchWaitingLoads(start, st, useBarrier);
      ClearPool();
      FlushResult(st, useBarrier);
    }

    method AppendTail(useBarrier: bool, alignPool: nat)
      requires Shaped() && Budget(Model()) && numConsts > 0
      requires alignPool == AlignPool(4 * |Model().code|, useBarrier)
      modifies Footprint()
      ensures Shaped() && fresh(Footprint() - old(Footprint()))
      ensures 0 < |old(Model()).pool| <= 508
      ensures Model() == old(Model()).(code := old(Model()).code + Tail(old(Model()), useBarrier))
      ensures numConsts == old(numConsts)
    {
      hide Budget, PadWords, AlignPool, Barrier, InWords, Model, Shaped, BarrierWords, Padding, Tail;
      ghost var st := Model();
      Sizes();
      PoolIsBounded(st);
      BarrierAndPadding(st, useBarrier);
      AppendBarrier(useBarrier, alignPool, st);
      AppendPool();
      TailIs(st, useBarrier);
    }

    // The barrier is asked for, the padding found necessary.
    method AppendBarrier(useBarrier: bool, alignPool: nat, ghost st: State)
      requires Shaped() && Model() == st && 0 < numConsts == |st.pool| <= 508
      requires alignPool == 0 || alignPool == 4
      requires BarrierWords(st, useBarrier) == if useBarrier then [Barrier((numConsts * 4 + alignPool) / 4)] else []
      requires Padding(st, useBarrier) == if alignPool != 0 then [PAD_FOR_ALIGN_32] else []
      modifies Footprint()
      ensures Shaped() && fresh(Footprint() - old(Footprint())) && numConsts == old(numConsts)
      ensures Model() == st.(code := st.code + BarrierWords(st, useBarrier) + Padding(st, useBarrier))
    {
      hide Barrier, Model, Shaped, BarrierWords, Padding;
      if useBarrier {
        AppendWord(Barrier((numConsts * 4 + alignPool) / 4));
      }
      if alignPool != 0 {
        AppendWord(PAD_FOR_ALIGN_32);
      }
    }

    // The loop over m_loadOffsets.
    method PatchWaitingLoads(start: nat, ghost st: State, ghost useBarrier: bool)
      requires Budget(st) && st.pool != [] && start == PoolStart(st, useBarrier)
      requires Shaped() && Model() == st.(code := st.code + Tail(st, useBarrier))
      modifies base.buffer
      ensures Shaped() && Model() == st.(code := Flush(st, useBarrier).code)
    {
      hide Budget, Tail, PoolStart, PatchAddress, Model, Shaped, PatchedUpTo, Patchable, Flush;
      PoolIsBounded(st);
      ghost var body := st.code + Tail(st, useBarrier);
      FlushIsPatchable(st, useBarrier);
      LoadsAreInCode(st);
      LoadsDiffer(st);
      Sizes();
      NothingPatched(body, start);
      assert st.loads[..0] == [];
      var i := 0;
      while i < |loadOffsets|
        invariant 0 <= i <= |loadOffsets| == |st.loads|
        invariant Shaped()
        invariant Model() == st.(code := Model().code) && |Model().code| == |body|
        invariant PatchedUpTo(Model().code, body, st.loads[..i], start)
      {
        var k := loadOffsets[i] / 4;
        assert k == st.loads[i] && k in st.loads;
        OneMorePatched(Model().code, body, st.loads, i, start);
        var w := GetCode(k);
        SetCode(k, PatchAddress(w, start - k));
        i := i + 1;
      }
      assert st.loads[..i] == st.loads;
      AllPatched(Model().code, body, st.loads, start);
      assert Model().code == Flush(st, useBarrier).code by { FlushedCode(st, useBarrier); }
    }

    // ---- Room, puts and loads -------------------------------------------------------------

    method FlushIfNoSpaceForInsn(nextInsnSize: nat)
      requires Valid()
      modifies Footprint()
      ensures Valid() && fresh(Footprint() - old(Footprint()))
      ensures Model() == FlushForInsn(old(Model()), nextInsnSize)
    {
      hide Budget, Flush, Model, Shaped;
      Sizes();
      if numConsts == 0 {
        return;
      }
      var delta := if lastConstDelta > nextInsnSize then lastConstDelta - nextInsnSize else 0;
      if maxDistance < nextInsnSize + delta + BARRIER_SIZE + 4 {
        FlushConstantPool();
      }
    }

    method FlushIfNoSpaceForConst(nextInsnSize: nat, nextConstSize: nat)
      requires Valid()
      modifies Footprint()
      ensures Valid() && fresh(Footprint() - old(Footprint()))
      ensures Model() == FlushForConst(old(Model()), nextInsnSize, nextConstSize)
      ensures !NoSpaceForConst(old(Model()), nextInsnSize, nextConstSize) ==> base.capacity == old(base.capacity)
    {
      hide Budget, Flush, Model, Shaped;
      Sizes();
      if numConsts == 0 {
        return;
      }
      if maxDistance < nextInsnSize + lastConstDelta + nextConstSize + BARRIER_SIZE + 4
         || numConsts * 4 + nextConstSize >= MAX_POOL_SIZE {
        FlushConstantPool();
      }
    }

    // After the put itself: the deltas of one more instruction word.
    method CorrectForWord()
      requires Shaped()
      modifies this`maxDistance, this`lastConstDelta
      ensures Shaped() && Model() == Advance(old(Model()))
    {
      CorrectDeltas(4);
    }

    method PutInt(w: Word)
      requires Valid()
      modifies Footprint()
      ensures Valid() && fresh(Footprint() - old(Footprint()))
      ensures Model() == ConstantPool.PutInt(old(Model()), w)
    {
      hide Budget, FlushForInsn, Model, Shaped, Advance;
      FlushIfNoSpaceForInsn(4);
      AppendWord(w);
      CorrectForWord();
      assert Model() == ConstantPool.PutInt(old(Model()), w);
    }

    // The loop of putIntWithConstantInt over m_mask and m_pool.
    method FindReusableConst(c: Word) returns (hit: Option<nat>)
      requires Shaped()
      ensures hit == FindReusable(pool[..numConsts], mask[..numConsts], c, 0)
    {
      var i := 0;
      while i < numConsts
        invariant 0 <= i <= numConsts
        invariant FindReusable(pool[..numConsts], mask[..numConsts], c, 0)
               == FindReusable(pool[..numConsts], mask[..numConsts], c, i)
      {
        if mask[i] == ReusableConst && pool[i] == c {
          return Some(i);
        }
        i := i + 1;
      }
      return None;
    }

    method PutIntWithConstantInt(load: Word, c: Word, isReusable: bool := false)
      requires Valid() && IsLoadTemplate(load)
      modifies Footprint()
      ensures Valid() && fresh(Footprint() - old(Footprint()))
      ensures Model() == PutConstant(old(Model()), load, c, isReusable)
    {
      hide Budget, FlushForConst, FindReusable, Model, Shaped, NoSpaceForConst, Advance, PutReused, PutNew;
      FlushIfNoSpaceForConst(4, 4);
      ghost var s := Model();
      Sizes();
      PoolIsBounded(s);
      var hit := None;
      if isReusable {
        hit := FindReusableConst(c);
      }
      match hit {
        case Some(i) => PutKnownLoad(load, i);
        case None => PutNewLoad(load, c, if isReusable then ReusableConst else UniqueConst);
      }
    }

    method PutKnownLoad(load: Word, i: nat)
      requires Valid() && IsLoadTemplate(load) && !NoSpaceForConst(Model(), 4, 4) && i < |Model().pool|
      modifies Footprint()
      ensures Valid() && fresh(Footprint() - old(Footprint()))
      ensures Model() == PutReused(old(Model()), load, i)
    {
      hide Budget, Model, Shaped, NoSpaceForConst, Advance, IsLoadTemplate, PatchIndex, InWords;
      ghost var s := Model();
      PoolIsBounded(s);
      AddLoadOffset();
      AppendWord(PatchIndex(load, i));
      CorrectForWord();
      assert Model() == PutReused(s, load, i);
    }

    // m_loadOffsets.append(size())
    method AddLoadOffset()
      requires Shaped()
      modifies this`loadOffsets
      ensures Shaped() && Model() == old(Model()).(loads := old(Model()).loads + [|old(Model()).code|])
    {
      loadOffsets := loadOffsets + [base.size];
      assert InWords(loadOffsets) == old(InWords(loadOffsets)) + [base.size / 4];
    }

    method AddConstant(c: Word, kind: Kind)
      requires Shaped() && numConsts < POOL_ENTRIES
      modifies this`numConsts, pool, mask
      ensures Shaped()
      ensures Model() == old(Model()).(pool := old(Model()).pool + [c], kinds := old(Model()).kinds + [kind])
    {
      pool[numConsts] := c;
      mask[numConsts] := kind;
      numConsts := numConsts + 1;
    }

    method PutNewLoad(load: Word, c: Word, kind: Kind)
      requires Valid() && IsLoadTemplate(load) && !NoSpaceForConst(Model(), 4, 4)
      modifies Footprint()
      ensures Valid() && fresh(Footprint() - old(Footprint()))
      ensures Model() == PutNew(old(Model()), load, c, kind)
    {
      hide Budget, Model, Shaped, NoSpaceForConst, IsLoadTemplate, PatchIndex, InWords;
      ghost var s := Model();
      Sizes();
      PoolIsBounded(s);
      AddLoadOffset();
      var n := numConsts;
      AppendWord(PatchIndex(load, n));
      AddConstant(c, kind);
      CorrectForConst();
      assert Model() == PutNew(s, load, c, kind);
    }

    method CorrectForConst()
      requires Shaped()
      modifies this`maxDistance, this`lastConstDelta
      ensures Shaped()
      ensures var a := Advance(old(Model()));
        Model() == a.(maxDistance := a.maxDistance - a.lastConstDelta, lastConstDelta := 4)
    {
      CorrectDeltasForConst(4, 4);
    }

    method EnsureSpace(insnSpace: nat, constSpace: nat)
      requires Valid()
      modifies Footprint()
      ensures Valid() && fresh(Footprint() - old(Footprint()))
      ensures Model() == FlushForConst(old(Model()), insnSpace, constSpace)
      ensures insnSpace <= INLINE_CAPACITY / 2 ==> base.size + insnSpace <= base.capacity
      ensures !NoSpaceForConst(old(Model()), insnSpace, constSpace) ==>
        (base.size + insnSpace <= base.capacity <==>
         base.size + insnSpace <= old(base.capacity) + old(base.capacity) / 2)
    {
      FlushIfNoSpaceForConst(insnSpace, constSpace);
      ghost var st := Model();
      base.EnsureSpace(insnSpace);
      assert Model() == st;
    }

    method IsAligned(alignment: nat) returns (b: bool)
      requires Valid() && alignment > 0
      modifies Footprint()
      ensures Valid() && fresh(Footprint() - old(Footprint()))
      ensures Model() == FlushForInsn(old(Model()), alignment)
      ensures b == (4 * |Model().code| % alignment == 0)
    {
      hide Budget, FlushForInsn, Model, Shaped;
      FlushIfNoSpaceForInsn(alignment);
      Sizes();
      b := base.IsAligned(alignment);
    }

    method Size() returns (n: nat)
      requires Valid()
      modifies Footprint()
      ensures Valid() && fresh(Footprint() - old(Footprint()))
      ensures Model() == FlushForConst(old(Model()), MAX_INSTRUCTION_SIZE, 8) && n == 4 * |Model().code|
    {
      FlushIfNoSpaceForConst(MAX_INSTRUCTION_SIZE, 8);
      n := base.size;
    }

    function UncheckedSize(): (n: nat)
      requires Valid()
      reads this, base, base.buffer, pool, mask
      ensures n == 4 * |Model().code|
    {
      base.size
    }

    method FlushWithoutBarrier(isForced: bool := false)
      requires Valid()
      modifies Footprint()
      ensures Valid() && fresh(Footprint() - old(Footprint()))
      ensures Model() == if isForced || 5 * |old(Model()).pool| > 3 * MAX_POOL_SIZE / 4
                         then Flush(old(Model()), false) else old(Model())
    {
      Sizes();
      if isForced || 5 * numConsts > 3 * MAX_POOL_SIZE / 4 {
        FlushConstantPool(false);
      }
    }

    // Writing an entry through poolAddress().
    method SetPool(i: nat, v: Word)
      requires Shaped() && i < numConsts
      modifies pool
      ensures Shaped() && Model() == old(Model()).(pool := old(Model()).pool[i := v])
    {
      pool[i] := v;
    }
  }

  lemma NothingPatched(body: seq<Word>, start: nat)
    ensures PatchedUpTo(body, body, [], start)
  {
  }

  lemma OneMorePatched(code: seq<Word>, body: seq<Word>, loads: seq<nat>, i: nat, start: nat)
    requires i < |loads| && loads[i] < |body| == |code| && Patchable(body, loads, start)
    requires PatchedUpTo(code, body, loads[..i], start)
    requires forall i, j :: 0 <= i < j < |loads| ==> loads[i] != loads[j]
    ensures var k := loads[i];
      && k < start && (start - k + IndexOf(code[k]) - 2) * 4 <= 0xfff
      && PatchedUpTo(code[k := PatchAddress(code[k], start - k)], body, loads[..i + 1], start)
  {
    var k := loads[i];
    assert k in loads && k !in loads[..i] && code[k] == body[k];
    assert loads[..i + 1] == loads[..i] + [k];
  }

  lemma AllPatched(code: seq<Word>, body: seq<Word>, loads: seq<nat>, start: nat)
    requires |code| == |body| && Patchable(body, loads, start) && PatchedUpTo(code, body, loads, start)
    ensures code == PatchLoads(body, loads, start)
  {
  }

  lemma FlushedCode(st: State, useBarrier: bool)
    requires Budget(st) && st.pool != []
    ensures |st.pool| <= 508
    ensures var body := st.code + Tail(st, useBarrier); var start := PoolStart(st, useBarrier);
      Patchable(body, st.loads, start) && Flush(st, useBarrier).code == PatchLoads(body, st.loads, start)
  {
    FlushIsPatchable(st, useBarrier);
  }

  lemma TailIs(st: State, useBarrier: bool)
    requires 0 < |st.pool| <= 508
    ensures st.code + Tail(st, useBarrier) == st.code + BarrierWords(st, useBarrier) + Padding(st, useBarrier) + st.pool
  {
    hide BarrierWords, Padding, PoolStart, Barrier;
  }

  lemma BarrierAndPadding(st: State, useBarrier: bool)
    requires 0 < |st.pool| <= 508
    ensures var pad := AlignPool(4 * |st.code|, useBarrier);
      && (pad == 0 || pad == 4)
      && Padding(st, useBarrier) == (if pad != 0 then [PAD_FOR_ALIGN_32] else [])
      && BarrierWords(st, useBarrier) == (if useBarrier then [Barrier((|st.pool| * 4 + pad) / 4)] else [])
  {
    hide AlignPool, Barrier;
    assert AlignPool(4 * |st.code|, useBarrier) == 4 * PadWords(|st.code|, useBarrier);
  }

  lemma LoadsDiffer(st: State)
    requires Budget(st)
    ensures forall i, j :: 0 <= i < j < |st.loads| ==> st.loads[i] != st.loads[j]
  {
  }

  lemma EmptyFlush(st: State, useBarrier: bool)
    requires Budget(st) && st.pool == []
    ensures Flush(st, useBarrier) == st
  {
  }

  lemma FlushResult(st: State, useBarrier: bool)
    requires Budget(st) && st.pool != []
    ensures Flush(st, useBarrier) ==
      State(Flush(st, useBarrier).code, [], [], [], MAX_POOL_SIZE, st.lastConstDelta)
  {
  }

  ghost predicate PatchedUpTo(code: seq<Word>, body: seq<Word>, done: seq<nat>, start: nat)
    requires |code| == |body|
  {
    && Patchable(body, done, start)
    && forall k :: 0 <= k < |body| ==>
         code[k] == if k in done then PatchAddress(body[k], start - k) else body[k]
  }
}
