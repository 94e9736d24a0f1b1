// The 32-bit words of the traditional ARM instruction set, as far as the constant
// pools, the jumps and their patching look inside them.
//
// A word is given by its bit fields, from the top: the condition (31-28), the instruction
// group (27-24), the up bit (23, DT_UP), bits 22-16, the register Rd (15-12) and the low
// twelve bits.  Value and FromValue are the bijection with the numbers below 2^32.
module ArmWords {

  const WORD_LIMIT := 0x1_0000_0000

  type U4 = x: int | 0 <= x < 0x10
  type U7 = x: int | 0 <= x < 0x80
  type U12 = x: int | 0 <= x < 0x1000
  type U24 = x: int | 0 <= x < 0x100_0000
  type U32 = x: int | 0 <= x < WORD_LIMIT

  datatype Word = Word(cond: U4, group: U4, up: bool, mid: U7, rd: U4, low: U12)

  const INVALID_BRANCH_TARGET: U32 := 0xffff_ffff
  const BOFFSET_MIN := -0x0080_0000
  const BOFFSET_MAX := 0x007f_ffff
  const AL: U4 := 14
  const PC: U4 := 15
  const S1: U4 := 8

  // ---- Words as numbers --------------------------------------------------------

  // The low 24 bits, the offset field of a branch.
  function Low24(w: Word): (n: U24)
  {
    (if w.up then 0x80_0000 else 0) + w.mid * 0x1_0000 + w.rd * 0x1000 + w.low
  }

  function Value(w: Word): (n: U32)
  {
    w.cond * 0x1000_0000 + w.group * 0x100_0000 + Low24(w)
  }

  function WithLow24(cond: U4, group: U4, n: U24): (w: Word)
    ensures w.cond == cond && w.group == group && Low24(w) == n
  {
    Word(cond, group, n / 0x80_0000 == 1, n / 0x1_0000 % 0x80, n / 0x1000 % 0x10, n % 0x1000)
  }

  function FromValue(n: U32): (w: Word)
    ensures Value(w) == n
  {
    WithLow24(n / 0x1000_0000, n / 0x100_0000 % 0x10, n % 0x100_0000)
  }

  lemma Low24IsInjective(v: Word, w: Word)
    requires v.cond == w.cond && v.group == w.group && Low24(v) == Low24(w)
    ensures v == w
  {
  }

  // No two words have the same value, so a word and its value are the same thing.
  lemma ValueIsInjective(v: Word, w: Word)
    requires Value(v) == Value(w)
    ensures v == w
  {
    Low24IsInjective(v, w);
  }

  const PAD_FOR_ALIGN_32 := Word(14, 0xe, false, 0x12, 0, 0x070)
  const BKPT := Word(0, 0xe, false, 0x12, 0, 0x070)
  const MOV_R0_R0 := Word(14, 1, true, 0x20, 0, 0)               // mov r0, r0
  const BLX_S1 := Word(14, 1, false, 0x2f, 0xf, 0xf38)           // blx S1

  lemma ConstantWords()
    ensures Value(PAD_FOR_ALIGN_32) == 0xee12_0070 && Value(BKPT) == 0x0e12_0070
    ensures Value(MOV_R0_R0) == 0xe1a0_0000 && Value(BLX_S1) == 0xe12f_ff38
    ensures Value(LoadTemplate(AL, S1)) == 0xe59f_8000
  {
  }

  // ---- Literal loads and branches ------------------------------------------------

  // (w & 0x0f7f0000) == 0x051f0000: ldr rd, [pc, #+/-imm]
  predicate IsLiteralLoad(w: Word) { w.group == 5 && w.mid == 0x1f }

  // DTR | DT_LOAD | DT_UP | RN(pc) | RD(rd) under a condition other than NV.
  function LoadTemplate(cond: U4, rd: U4): Word { Word(cond, 5, true, 0x1f, rd, 0) }

  // The bits of a load template, under the condition and into the register it was asked for.
  lemma TemplateValue(cond: U4, rd: U4)
    ensures var w := LoadTemplate(cond, rd);
      Value(w) == cond * 0x1000_0000 + 0x059f_0000 + rd * 0x1000 && w.cond == cond && w.rd == rd
  {
  }

  lemma LiteralLoadValue(w: Word)
    requires IsLiteralLoad(w)
    ensures Value(w)
      == w.cond * 0x1000_0000 + 0x051f_0000 + (if w.up then 0x80_0000 else 0) + w.rd * 0x1000 + w.low
  {
  }

  predicate IsLoadTemplate(w: Word) { IsLiteralLoad(w) && w.up && w.cond < 15 }

  // The same instruction, but for where it loads from.
  predicate SameLoad(v: Word, w: Word)
  {
    IsLiteralLoad(v) && IsLiteralLoad(w) && v.cond == w.cond && v.rd == w.rd
  }

  // The byte offset a literal load at word i reads.
  function LiteralByte(w: Word, i: int): int
  {
    if w.up then 4 * i + 8 + w.low else 4 * i + 8 - w.low
  }

  predicate IsBranch(w: Word) { w.group == 0xa }

  // Where the branch at word i goes when it is taken: a signed offset from two words on.
  function BranchTarget(w: Word, i: int): int
  {
    i + 2 + if w.up then Low24(w) - 0x100_0000 else Low24(w)
  }

  lemma BranchValue(w: Word)
    requires IsBranch(w)
    ensures Value(w) == w.cond * 0x1000_0000 + 0x0a00_0000 + Low24(w)
  {
  }

  // ---- Encoders ----------------------------------------------------------------

  // First phase: the pool index is parked in the low twelve bits, tagged odd.
  function PatchIndex(load: Word, index: nat): Word
    requires 2 * index + 1 <= 0xfff
  {
    load.(low := 2 * index + 1)
  }

  // The index that a waiting load carries.
  function IndexOf(w: Word): nat { w.low / 2 }

  predicate IsWaiting(w: Word) { w.low % 2 == 1 }

  // Second phase: diff is the distance in words from the load to the pool.
  function PatchAddress(load: Word, diff: nat): Word
    requires diff >= 1
    requires (diff + IndexOf(load) - 2) * 4 <= 0xfff
  {
    if diff >= 2 || IndexOf(load) > 0 then
      load.(low := (diff + IndexOf(load) - 2) * 4)
    else
      load.(low := 4, up := false)
  }

  // placeConstantPoolBarrier: an unconditional branch over the `words` words behind it.
  function Barrier(words: nat): Word
    requires 1 <= words <= 0x1000
  {
    WithLow24(AL, 0xa, (4 * words - 4) / 4)
  }

  function DirectBranch(cond: U4, diff: int): Word
    requires BOFFSET_MIN <= diff <= BOFFSET_MAX
  {
    WithLow24(cond, 0xa, if diff < 0 then diff + 0x100_0000 else diff)
  }

  // ---- What the encodings mean ---------------------------------------------------

  // The two phases compose: the load ends up reading exactly pool + 4 * index, also
  // when the pool starts right behind it and the offset has to be negative.
  lemma PatchingRoundTrips(load: Word, index: nat, at: nat, pool: nat)
    requires IsLoadTemplate(load)
    requires 2 * index + 1 <= 0xfff
    requires at < pool && (pool - at + index - 2) * 4 <= 0xfff
    ensures var p := PatchIndex(load, index);
            IsWaiting(p) && IndexOf(p) == index && SameLoad(p, load) && p.up
    ensures var w := PatchAddress(PatchIndex(load, index), pool - at);
            SameLoad(w, load) && LiteralByte(w, at) == 4 * (pool + index) && !IsWaiting(w)
  {
    assert IndexOf(PatchIndex(load, index)) == index;
  }

  lemma BarrierSkips(words: nat, i: nat)
    requires 1 <= words <= 0x1000
    ensures var w := Barrier(words);
            IsBranch(w) && w.cond == AL && BranchTarget(w, i) == i + 1 + words && Value(w) == 0xea00_0000 + words - 1
  {
  }

  lemma DirectBranchReaches(cond: U4, diff: int, i: int)
    requires BOFFSET_MIN <= diff <= BOFFSET_MAX
    ensures var w := DirectBranch(cond, diff);
            IsBranch(w) && w.cond == cond && BranchTarget(w, i) == i + 2 + diff
  {
  }
}
