// AssemblerBufferWithConstantPool<2048, 4, 4, ARMAssembler> as a function of its state.
// The class PoolBuffer is proved to compute these functions in place.
//
// Code positions are counted in words: ARM only ever puts whole words into the buffer.
module ConstantPool {
  import opened Options
  import opened ArmWords

  const MAX_POOL_SIZE := 2048
  const BARRIER_SIZE := 4
  const MAX_INSTRUCTION_SIZE := 4

  datatype Kind = UniqueConst | ReusableConst

  // code is what the buffer holds; pool and kinds are m_pool and m_mask up to m_numConsts;
  // loads are the positions of the loads that wait for the next flush.
  datatype State = State(
    code: seq<Word>,
    pool: seq<Word>,
    kinds: seq<Kind>,
    loads: seq<nat>,
    maxDistance: int,
    lastConstDelta: int)

  const EMPTY := State([], [], [], [], MAX_POOL_SIZE, 0)

  // ---- The invariant behind the distance budget ---------------------------------

  // The words put since the last flush, and where that flush ended.  The budget
  // maxDistance is nothing but this distance, in bytes, taken from 2048.
  function Since(st: State): int { (MAX_POOL_SIZE - st.maxDistance) / 4 }

  function Flushed(st: State): int { |st.code| - Since(st) }

  // A load waiting for its constant: it carries the pool index, and at least index words
  // separate it from the last flush.
  predicate PendingLoad(st: State, at: nat)
  {
    && at < |st.code|
    && IsLoadTemplate(st.code[at].(low := 0)) && IsWaiting(st.code[at])
    && IndexOf(st.code[at]) < |st.pool|
    && Flushed(st) + IndexOf(st.code[at]) <= at
  }

  // The budget may have been spent, even overspent, while the pool was empty.  Then the
  // first constant is the only one, and its load is the last instruction.
  predicate InReach(st: State)
  {
    st.pool != [] ==>
      st.maxDistance >= 8 || (|st.pool| == 1 && st.loads == [|st.code| - 1])
  }

  predicate Budget(st: State)
  {
    && |st.kinds| == |st.pool| <= 508
    && (st.loads == [] <==> st.pool == [])
    && 0 <= st.lastConstDelta <= 4
    && st.maxDistance == MAX_POOL_SIZE - 4 * Since(st) && 0 <= Since(st) <= |st.code|
    && (st.pool != [] ==> 4 * |st.pool| + 4 - st.lastConstDelta <= 4 * Since(st))
    && InReach(st)
    && (forall i :: 0 <= i < |st.loads| ==> PendingLoad(st, st.loads[i]))
    && (forall i, j :: 0 <= i < j < |st.loads| ==> st.loads[i] < st.loads[j])
  }

  // ---- Flushing -------------------------------------------------------------------

  // The padding, in bytes, that puts the pool on a multiple of eight.
  function AlignPool(size: nat, useBarrier: bool): nat
  {
    var r := (size + if useBarrier then BARRIER_SIZE else 0) % 8;
    if r != 0 then 8 - r else 0
  }

  // For a buffer of any size, also one of odd bytes, the pads that are put (a byte, a
  // short and a word, as the bits of alignPool say) bring the pool to a multiple of eight.
  lemma PoolIsAligned(size: nat, useBarrier: bool)
    ensures var pad := AlignPool(size, useBarrier);
            && pad < 8
            && (pad % 2) + 2 * (pad / 2 % 2) + 4 * (pad / 4 % 2) == pad
            && (size + (if useBarrier then BARRIER_SIZE else 0) + pad) % 8 == 0
  {
  }

  // On whole words the padding is one word or none.
  function PadWords(words: nat, useBarrier: bool): (n: nat)
    ensures n <= 1 && AlignPool(4 * words, useBarrier) == 4 * n
    ensures (words + (if useBarrier then 1 else 0) + n) % 2 == 0
  {
    WholeWordPads(words + if useBarrier then 1 else 0);
    AlignPool(4 * words, useBarrier) / 4
  }

  lemma WholeWordPads(x: nat)
    ensures 4 * x % 8 == if x % 2 == 0 then 0 else 4
  {
    assert x == 2 * (x / 2) + x % 2;
    assert 4 * x == 8 * (x / 2) + 4 * (x % 2);
  }

  function PoolStart(st: State, useBarrier: bool): nat
  {
    |st.code| + (if useBarrier then 1 else 0) + PadWords(|st.code|, useBarrier)
  }

  function BarrierWords(st: State, useBarrier: bool): seq<Word>
    requires 0 < |st.pool| <= 508
  {
    if useBarrier then [Barrier(|st.pool| + PadWords(|st.code|, useBarrier))] else []
  }

  function Padding(st: State, useBarrier: bool): seq<Word>
  {
    if PadWords(|st.code|, useBarrier) == 1 then [PAD_FOR_ALIGN_32] else []
  }

  // What a flush appends to the code: barrier, padding, pool.
  function Tail(st: State, useBarrier: bool): (t: seq<Word>)
    requires 0 < |st.pool| <= 508
    ensures |st.code| + |t| == PoolStart(st, useBarrier) + |st.pool|
    ensures t[PoolStart(st, useBarrier) - |st.code|..] == st.pool
    ensures useBarrier ==> t[0] == Barrier(|t| - 1)
  {
    BarrierWords(st, useBarrier) + Padding(st, useBarrier) + st.pool
  }

  // Every waiting load lies before the pool, and its offset fits: the two assertions in
  // ARMAssembler::patchConstantPoolLoad.
  predicate Patchable(code: seq<Word>, loads: seq<nat>, start: nat)
  {
    forall k :: 0 <= k < |code| && k in loads ==>
      k < start && (start - k + IndexOf(code[k]) - 2) * 4 <= 0xfff
  }

  function PatchLoads(code: seq<Word>, loads: seq<nat>, start: nat): (r: seq<Word>)
    requires Patchable(code, loads, start)
    ensures |r| == |code|
  {
    seq(|code|, (k: nat) requires k < |code| =>
      if k in loads then PatchAddress(code[k], start - k) else code[k])
  }

  // No pending load is ever out of reach: its final offset is at most 2040 bytes.
  lemma PendingLoadsStayInReach(st: State, useBarrier: bool, k: nat)
    requires Budget(st) && k in st.loads
    ensures var start := PoolStart(st, useBarrier);
            k < start && (start - k + IndexOf(st.code[k]) - 2) * 4 <= 2040
  {
    var i :| 0 <= i < |st.loads| && st.loads[i] == k;
    assert PendingLoad(st, st.loads[i]);
  }

  lemma FlushIsPatchable(st: State, useBarrier: bool)
    requires Budget(st) && st.pool != []
    ensures Patchable(st.code + Tail(st, useBarrier), st.loads, PoolStart(st, useBarrier))
  {
    var body := st.code + Tail(st, useBarrier);
    forall k | 0 <= k < |body| && k in st.loads
      ensures k < PoolStart(st, useBarrier)
      ensures (PoolStart(st, useBarrier) - k + IndexOf(body[k]) - 2) * 4 <= 0xfff
    {
      PendingLoadsStayInReach(st, useBarrier, k);
      assert PendingLoad(st, k);
    }
  }

  function Flush(st: State, useBarrier: bool): (r: State)
    requires Budget(st)
    ensures Budget(r) && r.pool == [] && |st.code| <= |r.code|
    ensures r.lastConstDelta == st.lastConstDelta
    ensures r.maxDistance == if st.pool == [] then st.maxDistance else MAX_POOL_SIZE
  {
    if st.pool == [] then st
    else
      FlushIsPatchable(st, useBarrier);
      State(PatchLoads(st.code + Tail(st, useBarrier), st.loads, PoolStart(st, useBarrier)),
            [], [], [], MAX_POOL_SIZE, st.lastConstDelta)
  }

  // ---- Making room ------------------------------------------------------------------

  predicate NoSpaceForInsn(st: State, insn: nat)
  {
    st.pool != [] &&
    st.maxDistance < insn + (if st.lastConstDelta > insn then st.lastConstDelta - insn else 0) + BARRIER_SIZE + 4
  }

  predicate NoSpaceForConst(st: State, insn: nat, constant: nat)
  {
    st.pool != [] &&
    (|| st.maxDistance < insn + st.lastConstDelta + constant + BARRIER_SIZE + 4
     || 4 * |st.pool| + constant >= MAX_POOL_SIZE)
  }

  function FlushForInsn(st: State, insn: nat): (r: State)
    requires Budget(st)
    ensures Budget(r) && !NoSpaceForInsn(r, insn)
  {
    if NoSpaceForInsn(st, insn) then Flush(st, true) else st
  }

  function FlushForConst(st: State, insn: nat, constant: nat): (r: State)
    requires Budget(st)
    ensures Budget(r) && !NoSpaceForConst(r, insn, constant)
  {
    if NoSpaceForConst(st, insn, constant) then Flush(st, true) else st
  }

  // ---- Putting words ------------------------------------------------------------------

  // correctDeltas(4): one more instruction word.
  function Advance(st: State): State
  {
    st.(maxDistance := st.maxDistance - 4,
        lastConstDelta := if st.lastConstDelta > 4 then st.lastConstDelta - 4 else 0)
  }

  function PutInt(st: State, w: Word): (r: State)
    requires Budget(st)
    ensures Budget(r) && r.code == FlushForInsn(st, 4).code + [w] && r.pool == FlushForInsn(st, 4).pool
  {
    var s := FlushForInsn(st, 4);
    var r := Advance(s.(code := s.code + [w]));
    AppendKeepsPending(s, r);
    r
  }

  // Appending to the code, and spending the budget for it, keeps every waiting load.
  lemma AppendKeepsPending(s: State, r: State)
    requires Budget(s) && s.code <= r.code && |r.code| == |s.code| + 1
    requires r.maxDistance == s.maxDistance - 4 && s.pool <= r.pool
    ensures Flushed(r) == Flushed(s)
    ensures forall i :: 0 <= i < |s.loads| ==> PendingLoad(r, s.loads[i])
  {
    assert Since(r) == Since(s) + 1;
    forall i | 0 <= i < |s.loads|
      ensures PendingLoad(r, s.loads[i])
    {
      assert PendingLoad(s, s.loads[i]);
    }
  }

  // The first reusable entry, from `from` on, that already holds c.
  function FindReusable(pool: seq<Word>, kinds: seq<Kind>, c: Word, from: nat): (r: Option<nat>)
    requires |pool| == |kinds| && from <= |pool|
    ensures r.Some? ==> from <= r.value < |pool| && kinds[r.value].ReusableConst? && pool[r.value] == c
    ensures r.None? ==> forall i :: from <= i < |pool| ==> kinds[i].UniqueConst? || pool[i] != c
    decreases |pool| - from
  {
    if from == |pool| then None
    else if kinds[from].ReusableConst? && pool[from] == c then Some(from)
    else FindReusable(pool, kinds, c, from + 1)
  }

  // A load of a constant that the pool already holds at index i.
  function PutReused(s: State, load: Word, i: nat): (r: State)
    requires Budget(s) && !NoSpaceForConst(s, 4, 4) && IsLoadTemplate(load) && i < |s.pool|
    ensures Budget(r)
  {
    var r := Advance(s.(code := s.code + [PatchIndex(load, i)], loads := s.loads + [|s.code|]));
    AppendKeepsPending(s, r);
    assert PendingLoad(r, |s.code|);
    r
  }

  // A load of a constant that is added to the pool.
  function PutNew(s: State, load: Word, c: Word, kind: Kind): (r: State)
    requires Budget(s) && !NoSpaceForConst(s, 4, 4) && IsLoadTemplate(load)
    ensures Budget(r)
  {
    var a := Advance(s);
    var r := State(
      s.code + [PatchIndex(load, |s.pool|)], s.pool + [c], s.kinds + [kind], s.loads + [|s.code|],
      a.maxDistance - a.lastConstDelta, 4);
    AppendKeepsPending(s, r);
    assert PendingLoad(r, |s.code|);
    r
  }

  function PutConstant(st: State, load: Word, c: Word, reusable: bool): (r: State)
    requires Budget(st) && IsLoadTemplate(load)
    ensures Budget(r)
  {
    var s := FlushForConst(st, 4, 4);
    var hit := if reusable then FindReusable(s.pool, s.kinds, c, 0) else None;
    match hit
    case Some(i) => PutReused(s, load, i)
    case None => PutNew(s, load, c, if reusable then ReusableConst else UniqueConst)
  }

  predicate HoldsReusable(s: State, c: Word)
  {
    exists k :: 0 <= k < |s.pool| && k < |s.kinds| && s.kinds[k].ReusableConst? && s.pool[k] == c
  }

  // The load waits for an entry that holds its constant: an old one exactly if both are
  // reusable, otherwise a new one of its own.
  lemma ConstantIsPut(st: State, load: Word, c: Word, reusable: bool)
    requires Budget(st) && IsLoadTemplate(load)
    ensures var s := FlushForConst(st, 4, 4); var r := PutConstant(st, load, c, reusable); var n := |s.code|;
      && |r.code| == n + 1 && r.code[..n] == s.code && r.loads == s.loads + [n]
      && SameLoad(r.code[n], load) && IsWaiting(r.code[n])
      && r.pool == (if reusable && HoldsReusable(s, c) then s.pool else s.pool + [c])
      && var i := IndexOf(r.code[n]);
         && i < |r.pool| == |r.kinds| && r.pool[i] == c && (r.kinds[i].ReusableConst? <==> reusable)
         && (i < |s.pool| <==> reusable && HoldsReusable(s, c))
  {
    hide Flush, PendingLoad, FromValue;
  }

  // ---- What a flush does to single words --------------------------------------------

  lemma PoolIsBounded(st: State)
    requires Budget(st)
    ensures |st.pool| <= 508 && (st.loads == [] <==> st.pool == [])
  {
  }

  lemma FlushedSize(st: State, useBarrier: bool)
    requires Budget(st) && st.pool != []
    ensures var f := Flush(st, useBarrier);
      |f.code| == PoolStart(st, useBarrier) + |st.pool| && Flushed(f) == |f.code|
  {
  }

  lemma LoadsAreInCode(st: State)
    requires Budget(st)
    ensures forall k :: k in st.loads ==> k < |st.code| && Flushed(st) <= k
  {
    forall k | k in st.loads ensures k < |st.code| && Flushed(st) <= k {
      assert PendingLoad(st, k);
    }
  }

  lemma FlushKeepsWord(st: State, useBarrier: bool, k: nat)
    requires Budget(st) && st.pool != []
    requires k < |st.code| && k !in st.loads
    ensures k < |Flush(st, useBarrier).code| && Flush(st, useBarrier).code[k] == st.code[k]
  {
    FlushedSize(st, useBarrier);
  }

  lemma FlushedCodeIs(st: State, useBarrier: bool)
    requires Budget(st) && st.pool != []
    ensures 0 < |st.pool| <= 508
    ensures var body := st.code + Tail(st, useBarrier); var start := PoolStart(st, useBarrier);
      Patchable(body, st.loads, start) && Flush(st, useBarrier).code == PatchLoads(body, st.loads, start)
  {
    FlushIsPatchable(st, useBarrier);
    hide Tail, PatchLoads, Patchable, PoolStart, PendingLoad;
  }

  lemma PatchingKeeps(code: seq<Word>, loads: seq<nat>, start: nat, k: nat)
    requires Patchable(code, loads, start) && k < |code| && k !in loads
    ensures PatchLoads(code, loads, start)[k] == code[k]
  {
    hide PatchAddress, IndexOf;
  }

  lemma FlushedConstant(st: State, useBarrier: bool, i: nat)
    requires Budget(st) && i < |st.pool|
    ensures var f := Flush(st, useBarrier); var a := PoolStart(st, useBarrier) + i;
      a < |f.code| && f.code[a] == st.pool[i]
  {
    LoadsAreInCode(st);
    FlushedCodeIs(st, useBarrier);
    hide Tail, PatchLoads, Patchable, PoolStart, Budget, Flush;
    var start, t := PoolStart(st, useBarrier), Tail(st, useBarrier);
    assert t[start - |st.code|..][i] == st.pool[i];
    assert (st.code + t)[start + i] == st.pool[i];
    PatchingKeeps(st.code + t, st.loads, start, start + i);
  }

  lemma FlushedBarrier(st: State)
    requires Budget(st) && st.pool != []
    ensures var f := Flush(st, true); var words := |f.code| - |st.code| - 1;
      1 <= words <= 0x1000 && f.code[|st.code|] == Barrier(words)
  {
    hide Barrier, PatchAddress;
    FlushedSize(st, true);
    LoadsAreInCode(st);
  }

  // Where a word of padding is put, it is the undefined instruction of the source.
  lemma FlushedPadding(st: State, useBarrier: bool, k: nat)
    requires Budget(st) && st.pool != [] && |st.code| + (if useBarrier then 1 else 0) <= k < PoolStart(st, useBarrier)
    ensures var f := Flush(st, useBarrier);
      && k < |f.code| && Value(f.code[k]) == 0xee12_0070
      && k == PoolStart(st, useBarrier) - 1 && PoolStart(st, useBarrier) % 2 == 0
  {
    hide Barrier, PatchAddress, PendingLoad;
    FlushedSize(st, useBarrier);
    LoadsAreInCode(st);
    ConstantWords();
  }

  lemma FlushPatchesLoad(st: State, useBarrier: bool, k: nat)
    requires Budget(st) && k in st.loads
    ensures k < |st.code| && k < |Flush(st, useBarrier).code| && k < PoolStart(st, useBarrier)
    ensures (PoolStart(st, useBarrier) - k + IndexOf(st.code[k]) - 2) * 4 <= 0xfff
    ensures Flush(st, useBarrier).code[k] == PatchAddress(st.code[k], PoolStart(st, useBarrier) - k)
  {
    hide Tail, AlignPool, PadWords, PendingLoad;
    PoolIsBounded(st);
    LoadsAreInCode(st);
    FlushedSize(st, useBarrier);
    PendingLoadsStayInReach(st, useBarrier, k);
  }
}
