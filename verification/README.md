# JIT assembler back ends and the JS-to-CF converter: a verified model

This project models the parts of JavaScriptCore's assemblers that rewrite code after emitting
it, and the recursive value converter of JavaScriptGlue, and proves what they are for. Run
`dafny verify dfyconfig.toml` to check it.

**Constant pools on ARM.** Instructions go into a growing buffer; constants queue up and are
flushed into the instruction stream as pools, guarded by a branch, when a distance budget runs
low. A load first carries a pool index, which the flush turns into a PC-relative offset. Jumps
are loads of a pool slot, and the final copy relocates each slot or replaces the load by a
direct branch.
`ArmWords` has the words, `ConstantPool` the buffer as a function of its state,
`CodeLayout` the program that a sequence of assembler calls asks for and the invariant that the
buffer holds exactly it, `ExecutableCode` the final copy, and `ArmMachine` the theorem that
executing the copy does what the program means. `CallsAndLabels` says when a call's two words
stay together and when an aligned label is aligned. `AssemblerBuffer`, `ConstantPoolBuffer` and
`ArmAssembler` are the classes that change state in place, each proved against the functions.

**Constants and addresses on ARM.** `ArmImmediates` and `ArmConstants` cover operand-2
immediates, the split of a constant over two instructions, moves of any constant, and the
clients that may use an inverted immediate; `ArmTransfers` the address arithmetic.

**Slots on MIPS.** A six-word jump slot moves between a short form, a `j` form and a
`lui/ori/jr` form as it is linked, relinked and relocated. `MipsMachine` executes the
instructions with delay slots; `MipsSlots`, `MipsCalls` and `MipsLayout` have the invariants of
one slot, one call and a whole buffer, `MipsAssembler` the class, `SignedWords` and
`MipsOverflow` the overflow branches, `MipsMacroAssembler` their emission and their behaviour in
finished code, `MipsImmediates` constants and load offsets.

**Slots on Thumb-2.** A five-halfword slot is `movw/movt/bx` or two nops and a branch.
`ThumbWords` has the encodings, `ThumbMachine` a core with IT blocks, `ThumbSlots` and
`ThumbAssembler` the slot and the assembler, `ThumbImmediates` the modified immediates.

**JS to CF.** `JsToCf` converts a possibly cyclic object graph, cutting it where an object is
met again on the path.

## Where the code does not do what it seems to promise

The model follows the code, and a theorem says exactly when the promise holds.

- A near call reserves room so that no pool falls between its load and its `blx`. The check
  does nothing while the pool is empty, and the budget goes on shrinking, so the pool can fall
  there. `CallIsAdjacentIff`: the two words are adjacent exactly if constants were waiting or
  sixteen bytes of distance were left. `SplitCallExample` is a run that splits them.
- The label that `align(8)` returns need not be aligned, because `label()` may flush once more.
  `EightAlignedIff` gives the condition on the state before the call, `MisalignedLabelExample` a
  run that meets it; from sixteen bytes on it cannot happen (`AlignedLabelsAreAligned`).
- Beyond twenty bits, `dataTransfer32` uses what `getImm` returns as a register, even where it is
  an immediate. `DataTransfer32` states exactly when the address is right; `LongOffsetExample` is
  an offset for which it is not. `BaseIndexTransfer32` is right exactly if the offset is short or
  the scratch register is neither base nor index. Neither can store the scratch register once
  it holds a part of the address.
- `makeEncodedImm` stores the wrong byte for 0xXY00XY00. `EncodingExpandsIff` shows that these
  are the only values that go wrong, and `HighPatternExample` is one of them.
- The ARM breakpoint constant is written with seven hexadecimal digits, so its top digit is the
  condition `eq`. The model keeps the value 0x0e120070 (`ConstantWords`).

## Reading the statements

- ARM words are records of bit fields; `Value` is their number. MIPS and Thumb words and all
  immediates are bit vectors, so wrap-around is the hardware's.
- Code positions are counted in words (ARM, MIPS) or halfwords (Thumb), as the assemblers only
  ever put whole ones. `AssemblerBuffer` works on bytes, in little-endian order.
- An allocator's answer is a parameter: the base of the executable copy, and on MIPS the base a
  growing buffer moves to.
- Data memory on MIPS is by the address of a word, apart from the code; addresses are taken to be
  aligned, as a load or store of a word needs them.
- On MIPS a base is word-aligned, on Thumb even. ARM code and its base stay below 2^32, and
  labels below 2^28 words, the largest offset `JmpDst` can keep.
- A plain ARM word is neither a literal load nor a branch: the assembler never emits a
  PC-relative word of its own outside the pool mechanism. A recorded jump into another register
  than pc asks for a pool constant, as every caller does.
- An unguarded flush is sound only behind code that never falls through. `Sealed` says so, and
  it is a premise of the machine theorems; the source states it in a comment.
- Scratch registers are not operands: the preconditions of the MIPS checks and of the ARM masks
  exclude the temporaries that the macro assembler keeps for itself.
- The names dataTempRegister, addrTempRegister, cmpTempRegister and immTempRegister of the MIPS
  macro assembler are T1, T2, T3 and T0 here.

## Model

| member | source | states |
|---|---|---|
| `ArmWords.ValueIsInjective` | JavaScriptCore/assembler/ARMAssembler.h:711-716 | words given by bit fields and words given as 32-bit numbers are the same thing, so patching fields is patching numbers |
| `ArmWords.TemplateValue` | JavaScriptCore/assembler/ARMAssembler.h:435-443 | the word of a load of a constant carries exactly the condition and the register that were asked for, with the bits of ldr rd, [pc, #+0] |
| `ArmWords.LiteralLoadValue` | JavaScriptCore/assembler/ARMAssembler.h:679-686 | a word recognised as a literal load has the bits 0x051f0000, and besides them only a condition, a direction, a register and an offset |
| `ArmWords.BranchValue` | JavaScriptCore/assembler/ARMAssembler.cpp:364-365 | a word recognised as a branch has the bits 0x0a000000, and besides them only a condition and a distance |
| `ArmWords.PatchingRoundTrips` | JavaScriptCore/assembler/ARMAssembler.cpp:37-50 | a pool index parked in a load and then patched at the flush makes the load read exactly pool + 4 * index, also in the negative case of a pool right behind the load; condition and register stay |
| `ArmWords.BarrierSkips` | JavaScriptCore/assembler/ARMAssembler.h:836-840 | the barrier is the unconditional branch 0xea000000 with a distance, and lands exactly behind the words it protects |
| `ArmWords.DirectBranchReaches` | JavaScriptCore/assembler/ARMAssembler.cpp:364-367 | a distance in range, encoded in the low 24 bits, decodes to the branch target it was made for, under the same condition |
| `ConstantPool.PoolIsAligned` | JavaScriptCore/assembler/AssemblerBufferWithConstantPool.h:253-269 | for a buffer of any byte size, the byte, short and word pads bring the pool to a multiple of eight |
| `ConstantPool.PendingLoadsStayInReach` | JavaScriptCore/assembler/AssemblerBufferWithConstantPool.h:233-301 | in every state that meets the budget each waiting load lies before the pool and gets an offset of at most 2040, even if the budget was overspent while the pool was empty |
| `ConstantPool.FlushIsPatchable` | JavaScriptCore/assembler/ARMAssembler.cpp:43-48 | both assertions of the patching code hold for every load of every flush |
| `ConstantPool.Flush` | JavaScriptCore/assembler/AssemblerBufferWithConstantPool.h:249-283 | a flush keeps the budget invariant, empties the pool and restores the distance exactly if there was something to flush |
| `ConstantPool.FlushForInsn` | JavaScriptCore/assembler/AssemblerBufferWithConstantPool.h:285-292 | after the check there is room, and the budget invariant holds |
| `ConstantPool.FlushForConst` | JavaScriptCore/assembler/AssemblerBufferWithConstantPool.h:294-301 | after the check there is room for the instruction and the constant, and the budget invariant holds |
| `ConstantPool.PutInt` | JavaScriptCore/assembler/AssemblerBufferWithConstantPool.h:161-166 | a word put appends that word behind the code the check leaves, and keeps the invariant that the distance left is 2048 less what was put since the last flush, with every waiting load in reach and at most 508 constants |
| `ConstantPool.FindReusable` | JavaScriptCore/assembler/AssemblerBufferWithConstantPool.h:196-203 | the search returns an entry that is reusable and equal, or there is none |
| `ConstantPool.ConstantIsPut` | JavaScriptCore/assembler/AssemblerBufferWithConstantPool.h:191-212 | the load is appended and waits for an entry that holds its constant: an old one exactly if both are reusable and equal, otherwise a new one of its own |
| `ConstantPool.FlushedSize` | JavaScriptCore/assembler/AssemblerBufferWithConstantPool.h:271-272 | the code ends with the pool, which starts where the padding ended |
| `ConstantPool.FlushKeepsWord` | JavaScriptCore/assembler/AssemblerBufferWithConstantPool.h:275-278 | a flush changes no word but the waiting loads |
| `ConstantPool.FlushedConstant` | JavaScriptCore/assembler/AssemblerBufferWithConstantPool.h:272 | constant i of the pool stands i words behind the start of the flushed pool |
| `ConstantPool.FlushedBarrier` | JavaScriptCore/assembler/AssemblerBufferWithConstantPool.h:258-260 | the barrier in front of the pool jumps exactly to the new end of the code |
| `ConstantPool.FlushedPadding` | JavaScriptCore/assembler/AssemblerBufferWithConstantPool.h:262-269 | the padding is at most one word, the one right before the pool, and it is 0xee120070 |
| `ConstantPool.FlushPatchesLoad` | JavaScriptCore/assembler/AssemblerBufferWithConstantPool.h:274-278 | each waiting load is patched once, with its distance to the pool |
| `CodeLayout.FlushKeepsGood` | JavaScriptCore/assembler/AssemblerBufferWithConstantPool.h:249-283 | a flush keeps the layout: every instruction where it was, every waiting constant now at its slot, a guarded gap behind the last instruction |
| `CodeLayout.EmitKeepsGood` | JavaScriptCore/assembler/AssemblerBufferWithConstantPool.h:161-166 | putting a plain word keeps the layout |
| `CodeLayout.EmitLoadKeepsGood` | JavaScriptCore/assembler/AssemblerBufferWithConstantPool.h:191-212 | putting a constant load keeps the layout; constants are shared only by reusable loads of one value |
| `CodeLayout.TakeLabelKeepsGood` | JavaScriptCore/assembler/ARMAssembler.h:644-647 | a label names the instruction put next, or the barrier in front of it |
| `CodeLayout.LabelsAreExact` | JavaScriptCore/assembler/ARMAssembler.h:644-647 | the word or constant load put right after label() stands at the offset of the label |
| `CodeLayout.LinkFindsHome` | JavaScriptCore/assembler/ARMAssembler.h:694-703 | whether a jump's constant still waits in the pool or has been flushed, linkJump writes that constant and nothing else |
| `CodeLayout.JumpsShareNothing` | JavaScriptCore/assembler/AssemblerBufferWithConstantPool.h:195-209 | no instruction shares a constant with a recorded jump |
| `CodeLayout.SharingMeansSame` | JavaScriptCore/assembler/AssemblerBufferWithConstantPool.h:195-209 | two instructions read one slot only if both are reusable loads of the same constant |
| `CodeLayout.LinkKeepsGood` | JavaScriptCore/assembler/ARMAssembler.h:750-755 | linking changes only where that one jump goes |
| `CodeLayout.StepKeepsGood` | JavaScriptCore/assembler/AssemblerBufferWithConstantPool.h:111-230 | every operation of the pooled buffer keeps the layout |
| `CodeLayout.EveryRunIsGood` | JavaScriptCore/assembler/AssemblerBufferWithConstantPool.h:86-310 | after any sequence of puts, loads, jumps, labels, links, reservations, alignment tests and flushes the buffer holds its layout, and the instructions, recorded jumps and labels of the layout are exactly the program that the sequence asks for |
| `CodeLayout.MaybeFlushIff` | JavaScriptCore/assembler/AssemblerBufferWithConstantPool.h:214-220 | an unforced flush without a barrier is done exactly from 308 waiting constants on |
| `CodeLayout.StepBuildsProgram` | JavaScriptCore/assembler/ARMAssembler.h:235-239 | each operation does to the program what it says, and pools leave it alone |
| `ExecutableCode.FinishKeepsGood` | JavaScriptCore/assembler/ARMAssembler.cpp:346-352 | the last, unguarded flush and the padding to eight bytes keep the layout and leave no constant waiting |
| `ExecutableCode.FinishAligns` | JavaScriptCore/assembler/ARMAssembler.cpp:348-351 | the finished code is a multiple of eight bytes; a breakpoint is put behind an odd number of words and nothing behind an even one |
| `ExecutableCode.RelocatedJumpIsDone` | JavaScriptCore/assembler/ARMAssembler.cpp:357-371 | one round turns a linked jump that need not keep its constant and has its label in range into a direct branch under its own condition, and relocates the constant of any other; either way it goes to data + label |
| `ExecutableCode.RelocationKeepsEntry` | JavaScriptCore/assembler/ARMAssembler.cpp:357-371 | a round changes neither another instruction nor its constant |
| `ExecutableCode.RelocationKeepsBarrier` | JavaScriptCore/assembler/ARMAssembler.cpp:357-371 | a round changes no barrier |
| `ExecutableCode.RelocateNext` | JavaScriptCore/assembler/ARMAssembler.cpp:355-371 | the loop keeps: the jumps seen are done, the others and everything else as before |
| `ExecutableCode.CopyImplements` | JavaScriptCore/assembler/ARMAssembler.cpp:346-374 | the copy implements the instruction list at its new base: every linked jump goes to its label, directly exactly if it may lose its constant and the label is in range; each slot is relocated at most once |
| `ExecutableCode.JumpsAreFinished` | JavaScriptCore/assembler/ARMAssembler.cpp:355-371 | in the finished code a jump that must keep its constant, or whose label is out of range, is still the load of its slot, which holds base + label; a jump never linked keeps its mark; every other one is a direct branch to its label; all under the condition asked for |
| `ArmMachine.ExecuteIsMeaning` | JavaScriptCore/assembler/ARMAssembler.cpp:357-371 | the word of an instruction, executed in the copy, does what the instruction means with immediate constants and symbolic labels |
| `ArmMachine.StepOverPool` | JavaScriptCore/assembler/AssemblerBufferWithConstantPool.h:258-260 | execution that comes to a barrier is at the next instruction one step later |
| `ArmMachine.LinksAreNamed` | JavaScriptCore/assembler/ARMAssembler.h:644-647 | in a good layout the offset of every linked label is where the instruction stands that the label was taken in front of, or the barrier before it |
| `ArmMachine.LinkedAddressNames` | JavaScriptCore/assembler/ARMAssembler.cpp:357-371 | the address that a linked jump loads, into pc or into the register of a call, stands for the instruction its label was taken in front of and for no other |
| `ArmMachine.OneStepAgrees` | JavaScriptCore/assembler/AssemblerBufferWithConstantPool.h:191-283 | one step of the instruction list is one or two steps of the machine |
| `ArmMachine.EveryRunAgrees` | JavaScriptCore/assembler/AssemblerBufferWithConstantPool.h:191-283 | pool insertion preserves meaning: whatever the list does in n steps, the code does in at most 2n, each load yielding its constant and each linked jump going to the instruction its label was taken in front of; unguarded pools only behind instructions that jump |
| `ArmMachine.NextPlaceIsUnique` | JavaScriptCore/assembler/AssemblerBufferWithConstantPool.h:191-283 | the instruction list is deterministic, so agreement with one of its runs is agreement with the only one |
| `ArmMachine.ConditionalJumpGoes` | JavaScriptCore/assembler/ARMAssembler.h:657-669 | a jump emitted under a condition and linked goes to its label exactly if the condition passes, and to the next instruction otherwise |
| `ArmMachine.ConditionalLoadGives` | JavaScriptCore/assembler/ARMAssembler.h:435-443 | a load of a constant, or of a label into a register, gives the register that value exactly if its condition passes |
| `ArmMachine.FinishedProgram` | JavaScriptCore/assembler/ARMAssembler.cpp:346-352 | finishing the code adds to the program a breakpoint if the flushed code has an odd number of words, and else nothing; the finished code has an even number of words |
| `ArmMachine.AssembledCodeRuns` | JavaScriptCore/assembler/ARMAssembler.cpp:346-374 | from the empty buffer to the executable copy: for every sequence of events the finished list is the program asked for, with a breakpoint exactly where the size needs it, the copy is a multiple of eight bytes, and every run of the list is a run of the copy |
| `CallsAndLabels.CallIsAdjacentIff` | JavaScriptCore/assembler/MacroAssemblerARM.h:589-599 | the recorded call is the blx with its load right before it exactly if constants were waiting or sixteen bytes of distance were left |
| `CallsAndLabels.SplitCallExample` | JavaScriptCore/assembler/MacroAssemblerARM.h:589-599 | a call after 509 words without a constant is recorded at a word that is not its blx |
| `CallsAndLabels.NearCallIsAsked` | JavaScriptCore/assembler/MacroAssemblerARM.h:589-599 | a call asks for one recorded jump into S1 and the blx and for nothing else, wherever the pool falls |
| `CallsAndLabels.PaddingGoesOn` | JavaScriptCore/assembler/ARMAssembler.h:649-655 | each round of align flushes the only pool there is or brings the code a word closer, so the loop ends |
| `CallsAndLabels.Pad` | JavaScriptCore/assembler/ARMAssembler.h:649-652 | after the loop the code is aligned and the next test cannot flush |
| `CallsAndLabels.AlignedLabelsAreAligned` | JavaScriptCore/assembler/ARMAssembler.h:649-655 | for alignments of sixteen bytes and more the label that align returns is aligned |
| `CallsAndLabels.EightAlignedIff` | JavaScriptCore/assembler/ARMAssembler.h:649-655 | for eight bytes it is misaligned exactly if, before the call, the pool holds an odd number of constants and the distance left is 16, or 20 behind a recent constant, at an even word, or 20 at an odd one |
| `CallsAndLabels.MisalignedLabelExample` | JavaScriptCore/assembler/ARMAssembler.h:649-655 | after one constant and 507 plain words the label that align(8) returns is no multiple of eight |
| `CallsAndLabels.PadIsAsked` | JavaScriptCore/assembler/ARMAssembler.h:649-652 | the loop asks for alignment tests and words that do nothing and for nothing else, for fewer than two rounds of them |
| `AssemblerBuffer.Buffer.Grow` | JavaScriptCore/assembler/AssemblerBuffer.h:150-159 | growing keeps every byte and gives the capacity the source computes |
| `AssemblerBuffer.Buffer.EnsureSpace` | JavaScriptCore/assembler/AssemblerBuffer.h:55-59 | the contents stay, and the bytes asked for fit afterwards exactly if they fit after one growth by half |
| `AssemblerBuffer.Buffer.PutByte` | JavaScriptCore/assembler/AssemblerBuffer.h:66-78 | the contents are the old ones and the byte; size never passes capacity |
| `AssemblerBuffer.Buffer.PutShort` | JavaScriptCore/assembler/AssemblerBuffer.h:80-92 | the contents are the old ones and the two low bytes of the value, the lowest first |
| `AssemblerBuffer.Buffer.PutInt` | JavaScriptCore/assembler/AssemblerBuffer.h:94-113 | the contents are the old ones and the four bytes of the word, the lowest first; size never passes capacity |
| `AssemblerBuffer.Buffer.Append` | JavaScriptCore/assembler/AssemblerBuffer.h:141-148 | the contents are the old ones and all the new bytes, for any number of them; they fit after at most one growth |
| `AssemblerBuffer.WordsOfPut` | JavaScriptCore/assembler/AssemblerBuffer.h:94-113 | reading the bytes back as words, a put appended exactly that word |
| `AssemblerBuffer.BytesAreLittleEndian` | JavaScriptCore/assembler/AssemblerBuffer.h:94-99 | the four bytes of a word make up its value, the lowest byte first |
| `AssemblerBuffer.WordsOfAppend` | JavaScriptCore/assembler/AssemblerBuffer.h:141-148 | reading the bytes back as words, an append appended exactly those words |
| `AssemblerBuffer.WordsOfOverwrite` | JavaScriptCore/assembler/ARMAssembler.h:705-709 | writing a word through a pointer replaces exactly that word |
| `ConstantPoolBuffer.PoolBuffer.FlushConstantPool` | JavaScriptCore/assembler/AssemblerBufferWithConstantPool.h:249-283 | the in-place flush computes the flush of the abstract state: barrier, pads, pool, and the patch loop |
| `ConstantPoolBuffer.PoolBuffer.PatchWaitingLoads` | JavaScriptCore/assembler/AssemblerBufferWithConstantPool.h:274-278 | the loop patches every waiting load once and nothing else |
| `ConstantPoolBuffer.PoolBuffer.FlushIfNoSpaceForInsn` | JavaScriptCore/assembler/AssemblerBufferWithConstantPool.h:285-292 | flushes exactly when the abstract state does, and leaves the state of that flush in the fields and the bytes |
| `ConstantPoolBuffer.PoolBuffer.FlushIfNoSpaceForConst` | JavaScriptCore/assembler/AssemblerBufferWithConstantPool.h:294-301 | the check for an instruction and a constant flushes exactly when the abstract state does, with the same outcome |
| `ConstantPoolBuffer.PoolBuffer.PutInt` | JavaScriptCore/assembler/AssemblerBufferWithConstantPool.h:161-166 | the fields, waiting loads and bytes after a word put are those of the abstract put |
| `ConstantPoolBuffer.PoolBuffer.FindReusableConst` | JavaScriptCore/assembler/AssemblerBufferWithConstantPool.h:196-203 | the search loop finds the first reusable equal entry, or none |
| `ConstantPoolBuffer.PoolBuffer.PutIntWithConstantInt` | JavaScriptCore/assembler/AssemblerBufferWithConstantPool.h:191-212 | the fields, pool, masks and bytes after a constant load are those of the abstract one, so a reusable constant is shared and any other gets its own slot |
| `ConstantPoolBuffer.PoolBuffer.EnsureSpace` | JavaScriptCore/assembler/AssemblerBufferWithConstantPool.h:117-121 | flushes as the abstract reservation does; requests of up to half the inline capacity fit afterwards, and without a flush exactly those that fit after one growth by half |
| `ConstantPoolBuffer.PoolBuffer.IsAligned` | JavaScriptCore/assembler/AssemblerBufferWithConstantPool.h:123-127 | may flush, then answers for the size after the flush |
| `ConstantPoolBuffer.PoolBuffer.Size` | JavaScriptCore/assembler/AssemblerBufferWithConstantPool.h:174-178 | may flush, then returns the size after the flush |
| `ConstantPoolBuffer.PoolBuffer.FlushWithoutBarrier` | JavaScriptCore/assembler/AssemblerBufferWithConstantPool.h:215-220 | flushes without a barrier exactly if forced or three fifths full |
| `ConstantPoolBuffer.PoolBuffer.SetPool` | JavaScriptCore/assembler/ARMAssembler.h:694-703 | writing through an address in the pool replaces that waiting constant and nothing else |
| `ArmAssembler.Assembler.Put` | JavaScriptCore/assembler/ARMAssembler.h:235-239 | steps the layout by one plain word |
| `ArmAssembler.Assembler.LoadConstant` | JavaScriptCore/assembler/ARMAssembler.h:435-443 | steps the layout by one load of that constant, under the condition and into the register asked for |
| `ArmAssembler.Assembler.MoveWithPatch` | JavaScriptCore/assembler/MacroAssemblerARM.h:731-736 | the label returned is the offset of the load, and the load has a constant of its own under no condition |
| `ArmAssembler.Assembler.LoadBranchTarget` | JavaScriptCore/assembler/ARMAssembler.h:657-664 | steps the layout by one unlinked jump under the condition and into the register asked for, recorded with its pool flag, and returns the offset of its load |
| `ArmAssembler.Assembler.TakeLabel` | JavaScriptCore/assembler/ARMAssembler.h:644-647 | returns the offset the layout gives the label |
| `ArmAssembler.Assembler.LinkJump` | JavaScriptCore/assembler/ARMAssembler.h:750-755 | writes the slot of that jump, pending or flushed, and steps the layout |
| `ArmAssembler.Assembler.TestAlignment` | JavaScriptCore/assembler/ARMAssembler.h:649-652 | may flush, keeps the layout, and answers for the size after the flush |
| `ArmAssembler.Assembler.PadTo` | JavaScriptCore/assembler/ARMAssembler.h:649-652 | the loop ends with the code aligned; the instruction list and the buffer are those of the abstract padding |
| `ArmAssembler.Assembler.Align` | JavaScriptCore/assembler/ARMAssembler.h:649-655 | pads and takes a label, which is a multiple of the alignment from sixteen bytes on; the layout is stepped by both |
| `ArmAssembler.Assembler.NearCall` | JavaScriptCore/assembler/MacroAssemblerARM.h:589-599 | steps the layout by the load of the target and the blx, and returns the recorded call as the abstract call says |
| `ArmAssembler.Assembler.ExecutableCopy` | JavaScriptCore/assembler/ARMAssembler.cpp:346-374 | the flush, the padding, the copy and the loop over the jumps produce the finished code that AssembledCodeRuns and JumpsAreFinished are about, a multiple of eight bytes |
| `ArmAssembler.RelocateJumps` | JavaScriptCore/assembler/ARMAssembler.cpp:355-371 | the in-place loop over m_jumps leaves the words of the round-by-round relocation that CopyImplements is about |
| `ArmImmediates.Op2Iff` | JavaScriptCore/assembler/ARMAssembler.cpp:54-89 | getOp2 finds an encoding exactly for eight-bit values rotated right by an even amount, and the encoding decodes to the value |
| `ArmImmediates.GetOp2` | JavaScriptCore/assembler/ARMAssembler.cpp:54-89 | the shifting code returns an encoding exactly for rotated bytes, one that decodes to the word, and otherwise INVALID_IMM |
| `ArmImmediates.FindZeroByte` | JavaScriptCore/assembler/ARMAssembler.cpp:99-133 | both search loops end; a hit has its low byte clear and stands for the same number, a miss means that no eight bits at an even position are zero |
| `ArmImmediates.MissedIsNotTwoBytes` | JavaScriptCore/assembler/ARMAssembler.cpp:99-133 | a miss means that the number is not the OR of two rotated bytes |
| `ArmImmediates.SplitIsSound` | JavaScriptCore/assembler/ARMAssembler.cpp:129-187 | the two encodings decode to numbers whose OR is the argument |
| `ArmImmediates.SplitIsComplete` | JavaScriptCore/assembler/ARMAssembler.cpp:129-187 | two rotated bytes above eight zero bits are always split, in each of the three branches |
| `ArmImmediates.TwoBytesTurn` | JavaScriptCore/assembler/ARMAssembler.cpp:99-120 | turning a number keeps it an OR of two rotated bytes |
| `ArmConstants.GenInt` | JavaScriptCore/assembler/ARMAssembler.cpp:91-198 | genInt returns 1 exactly if the number is the OR of two rotated bytes; then mov/orr leave it, or mvn/bic its complement, in the register; otherwise nothing is emitted |
| `ArmConstants.EncodeComplexImm` | JavaScriptCore/assembler/ARMAssembler.cpp:240-261 | for both kinds of core the constant ends up in the register; with movw in one instruction exactly for sixteen bits and else two; without it by the pool exactly if there is no two-instruction form |
| `ArmConstants.MoveImm` | JavaScriptCore/assembler/ARMAssembler.cpp:220-238 | for every constant the code leaves exactly it in the destination and changes no other register; it is one instruction exactly if an operand-2 form, a movw or, as the last resort, a pool load is |
| `ArmConstants.GetImm` | JavaScriptCore/assembler/ARMAssembler.cpp:200-218 | the word returned is an immediate of the value exactly for rotated bytes, a marked immediate of its complement exactly if inversion was allowed and only the complement is one, and else the register that the code loaded |
| `ArmConstants.And32` | JavaScriptCore/assembler/MacroAssemblerARM.h:110-117 | whatever getImm returned, the destination is masked with the immediate and only the scratch register may have changed |
| `ArmConstants.BranchTest32` | JavaScriptCore/assembler/MacroAssemblerARM.h:469-478 | whatever getImm returned, the flags are those of the masked register |
| `ArmTransfers.DataTransfer32` | JavaScriptCore/assembler/ARMAssembler.cpp:265-290 | the load or store of the word or byte at base + offset, from or into the register asked for, for all registers exactly if the offset has at most twenty bits, or is no operand-2 immediate with a base other than the scratch register, and a stored scratch register has an offset of at most twelve bits; no other register changes |
| `ArmTransfers.LongOffsetExample` | JavaScriptCore/assembler/ARMAssembler.cpp:274-277 | 0x00100000 is an offset for which the access goes wrong |
| `ArmTransfers.BaseIndexTransfer32` | JavaScriptCore/assembler/ARMAssembler.cpp:292-313 | the load or store of the word at base + (index << scale) + offset for all registers exactly if the offset has at most twelve bits or the scratch register is neither base nor index, and it is not stored |
| `MipsMachine.T9Words` | JavaScriptCore/assembler/MIPSAssembler.h:809-814 | the constants that slots are made of are lui, ori, jr and jalr through t9 |
| `MipsSlots.LinkKeepsSlot` | JavaScriptCore/assembler/MIPSAssembler.h:829-903 | linking a slot in any form, first or again, makes it jump to the new target; the condition is inverted at most once |
| `MipsSlots.RelocateKeepsSlot` | JavaScriptCore/assembler/MIPSAssembler.h:798-826 | relocating a slot moves its internal target along, also when the j form must become the lui form |
| `MipsSlots.LinkTakesForm` | JavaScriptCore/assembler/MIPSAssembler.h:835-902 | a slot that never left its short form stays in it exactly for distances of 131072 bytes either way; else it takes the j form exactly if the target lies in the region of its delay slot, and the lui form otherwise |
| `MipsSlots.RelocateTakesForm` | JavaScriptCore/assembler/MIPSAssembler.h:799-825 | relocation leaves a short slot alone, keeps a lui slot one, and turns a j slot into a lui slot exactly if the target has left the region |
| `MipsSlots.SlotExecutes` | JavaScriptCore/assembler/MacroAssemblerMIPS.h:1575-1618 | executed with delay slots, a slot in any form reaches its target exactly if the original condition holds and otherwise its end, in at most six steps, changing only t9 |
| `MipsSlots.EverySlotHistory` | JavaScriptCore/assembler/MIPSAssembler.h:788-903 | after any sequence of links, relinks and moves the slot jumps to the last target, moved as often as the code |
| `MipsCalls.LinkCallKeepsCall` | JavaScriptCore/assembler/MIPSAssembler.h:905-934 | linking retargets a call in either form; it is far afterwards exactly if it was, or the target lies outside the region of its delay slot |
| `MipsCalls.NewCallsAreOk` | JavaScriptCore/assembler/MacroAssemblerMIPS.h:1269-1286 | a near call is emitted unlinked, a far one with target zero, both in the form that linking keeps |
| `MipsCalls.EveryCallHistory` | JavaScriptCore/assembler/MIPSAssembler.h:718-755 | after any sequence of links the call goes to the last word-aligned target and never goes back to jal |
| `MipsCalls.CallExecutes` | JavaScriptCore/assembler/MIPSAssembler.h:905-934 | executed, the call reaches its target in four steps with the return address behind its delay slot |
| `MipsCalls.LinkCallInternal` | JavaScriptCore/assembler/MIPSAssembler.h:905-934 | relinks the call in place and changes no other word; the byte count returned is 4 for a jal, 12 for one that becomes far and 8 for a far one |
| `MipsCalls.RelinkCall` | JavaScriptCore/assembler/MIPSAssembler.h:745-755 | the flushed range holds every word that changed |
| `MipsLayout.CompleteSlotsAreVisited` | JavaScriptCore/assembler/MIPSAssembler.h:795-797 | the unsigned skip test of relocateJumps passes over exactly the slots that are not complete, given twenty bytes of code |
| `MipsLayout.ShortCodeIsNotSkipped` | JavaScriptCore/assembler/MIPSAssembler.h:795-797 | below twenty bytes of code the unsigned limit wraps round, and only positions at the top of the address space are skipped |
| `MipsLayout.RelocationKeepsLayout` | JavaScriptCore/assembler/MIPSAssembler.h:788-827 | after relocateJumps every complete slot jumps to where its label has gone |
| `MipsLayout.RelocationKeepsPlain` | JavaScriptCore/assembler/MIPSAssembler.h:788-827 | words outside the slots never change |
| `MipsLayout.LinkKeepsLayout` | JavaScriptCore/assembler/MIPSAssembler.h:696-706 | linking one slot changes no other |
| `MipsLayout.AppendKeepsLayout` | JavaScriptCore/assembler/MIPSAssembler.h:209-218 | one more word keeps the layout, also in the middle of a new slot |
| `MipsLayout.EveryJumpRuns` | JavaScriptCore/assembler/MIPSAssembler.h:672-680 | in good code at any base every recorded jump runs to the word it was linked to exactly under its condition |
| `MipsAssembler.RelocateSlot` | JavaScriptCore/assembler/MIPSAssembler.h:798-826 | the loop body, with the addresses the source computes, refines the slot relocation |
| `MipsAssembler.RelocateAll` | JavaScriptCore/assembler/MIPSAssembler.h:788-827 | the loop over m_jumps refines the relocation of the layout |
| `MipsAssembler.LinkWithOffset` | JavaScriptCore/assembler/MIPSAssembler.h:829-903 | in place, and every word that changed lies within the size returned, which is that of the form taken |
| `MipsAssembler.RelinkJump` | JavaScriptCore/assembler/MIPSAssembler.h:734-743 | keeps the slot invariant on code already in place, and the flushed range holds every word that changed |
| `MipsAssembler.Assembler.PutInt` | JavaScriptCore/assembler/AssemblerBuffer.h:108-113 | the word is appended; the base changes exactly if the buffer had to grow |
| `MipsAssembler.Assembler.EmitInst` | JavaScriptCore/assembler/MIPSAssembler.h:209-218 | if the buffer moved, every complete slot moved with it, the half-emitted one untouched |
| `MipsAssembler.Assembler.Branch` | JavaScriptCore/assembler/MacroAssemblerMIPS.h:1575-1618 | records a jump and emits its slot, though the buffer may move in between |
| `MipsAssembler.Assembler.LinkJump` | JavaScriptCore/assembler/MIPSAssembler.h:696-706 | links one recorded jump to a label and keeps the layout |
| `MipsAssembler.Assembler.ExecutableCopy` | JavaScriptCore/assembler/MIPSAssembler.h:672-680 | the copy is the code with every slot moved to the new base |
| `SignedWords.AddOverflowsIff` | JavaScriptCore/assembler/MacroAssemblerMIPS.h:1107-1131 | the signs of the operands and of the sum decide whether the 32-bit sum differs from the exact one |
| `SignedWords.SubOverflowsIff` | JavaScriptCore/assembler/MacroAssemblerMIPS.h:1212-1236 | the signs of the operands and of the difference decide whether the 32-bit difference differs from the exact one |
| `SignedWords.MulOverflowsIff` | JavaScriptCore/assembler/MacroAssemblerMIPS.h:1160-1182 | the high word and the sign of the low one decide whether the product differs from the exact one |
| `MipsOverflow.AddOrSubRuns` | JavaScriptCore/assembler/MacroAssemblerMIPS.h:1104-1239 | executed, the add and sub checks leave the wrapped result, also for src == dest, and come to the slot exactly on overflow, else behind it |
| `MipsOverflow.MulRuns` | JavaScriptCore/assembler/MacroAssemblerMIPS.h:1157-1185 | executed, the multiply check leaves the low word of the product, also for src == dest, and comes to the slot exactly if the product overflows, else behind it; hi and lo hold the product |
| `MipsOverflow.CompareRuns` | JavaScriptCore/assembler/MacroAssemblerMIPS.h:924-949 | the overflow comparison comes to its slot exactly if the difference overflows, changing only a scratch register, and neither hi nor lo |
| `MipsOverflow.BranchAddOrSubRuns` | JavaScriptCore/assembler/MacroAssemblerMIPS.h:1104-1239 | check and slot together: to the target exactly on overflow, past the slot otherwise, in any of its forms |
| `MipsOverflow.BranchMulRuns` | JavaScriptCore/assembler/MacroAssemblerMIPS.h:1157-1185 | multiply check and slot together: to the target exactly if the product overflows, past the slot otherwise, in any form of the slot |
| `MipsOverflow.BranchOverflowRuns` | JavaScriptCore/assembler/MacroAssemblerMIPS.h:924-949 | overflow comparison and slot together: to the target exactly if the difference overflows, past the slot otherwise, in any form of the slot |
| `MipsMacroAssembler.ConditionsMean` | JavaScriptCore/assembler/MacroAssemblerMIPS.h:1584-1618 | the four conditions that slots are recorded with hold exactly if the registers are equal, differ, or the floating-point flag is set or clear |
| `MipsMacroAssembler.BranchEqual` | JavaScriptCore/assembler/MacroAssemblerMIPS.h:1602-1609 | records a slot under the equality of the two registers behind the code |
| `MipsMacroAssembler.BranchNotEqual` | JavaScriptCore/assembler/MacroAssemblerMIPS.h:1611-1618 | records a slot under the difference of the two registers behind the code |
| `MipsMacroAssembler.BranchOnFlag` | JavaScriptCore/assembler/MacroAssemblerMIPS.h:1584-1600 | records a slot under the floating-point flag or its opposite behind the code |
| `MipsMacroAssembler.Load32` | JavaScriptCore/assembler/MacroAssemblerMIPS.h:463-478 | emits the words of LoadRuns behind the code and changes no word outside the slots |
| `MipsMacroAssembler.Store32` | JavaScriptCore/assembler/MacroAssemblerMIPS.h:659-674 | emits the words of StoreRuns behind the code and changes no word outside the slots |
| `MipsMacroAssembler.Load32Indexed` | JavaScriptCore/assembler/MacroAssemblerMIPS.h:480-507 | emits the words of IndexedLoadRuns behind the code and changes no word outside the slots |
| `MipsMacroAssembler.Store32Indexed` | JavaScriptCore/assembler/MacroAssemblerMIPS.h:676-703 | emits the words of IndexedStoreRuns behind the code and changes no word outside the slots |
| `MipsMacroAssembler.Move` | JavaScriptCore/assembler/MacroAssemblerMIPS.h:818-827 | emits the words of MoveImmediateGives behind the code and changes no word outside the slots |
| `MipsMacroAssembler.BranchAdd32` | JavaScriptCore/assembler/MacroAssemblerMIPS.h:1107-1131 | emits the add check and its slot behind the code, records the slot, and changes no word outside the slots even if the buffer moves |
| `MipsMacroAssembler.BranchSub32` | JavaScriptCore/assembler/MacroAssemblerMIPS.h:1212-1236 | emits the subtract check and its slot behind the code, records the slot, and changes no word outside the slots even if the buffer moves |
| `MipsMacroAssembler.BranchMul32` | JavaScriptCore/assembler/MacroAssemblerMIPS.h:1160-1182 | emits the multiply check and its slot behind the code, records the slot, and changes no word outside the slots even if the buffer moves |
| `MipsMacroAssembler.BranchOverflow32` | JavaScriptCore/assembler/MacroAssemblerMIPS.h:924-949 | emits the overflow comparison and its slot behind the code, records the slot, and changes no word outside the slots even if the buffer moves |
| `MipsMacroAssembler.AddOrSubInCode` | JavaScriptCore/assembler/MacroAssemblerMIPS.h:1104-1239 | in finished code at any base, linked to any word, the branch is taken exactly on overflow |
| `MipsMacroAssembler.MulInCode` | JavaScriptCore/assembler/MacroAssemblerMIPS.h:1157-1185 | in finished code at any base, linked to any word, the multiply branch is taken exactly if the product overflows, with the low word in dest |
| `MipsMacroAssembler.CompareInCode` | JavaScriptCore/assembler/MacroAssemblerMIPS.h:924-949 | in finished code at any base, linked to any word, the comparison branch is taken exactly if the difference overflows |
| `MipsImmediates.MoveImmediateGives` | JavaScriptCore/assembler/MacroAssemblerMIPS.h:818-827 | for every constant, pointer or not, fixed width or not, the register holds it afterwards and nothing else changed; two words exactly for pointers, fixed width and constants that are neither signed nor unsigned sixteen bits and have a lower half |
| `MipsImmediates.LiGives` | JavaScriptCore/assembler/MIPSAssembler.h:249-260 | li leaves its constant in each of its four forms |
| `MipsImmediates.RepatchedMove` | JavaScriptCore/assembler/MIPSAssembler.h:757-767 | repatching a pointer move gives the move of the new pointer |
| `MipsImmediates.AddressIsExact` | JavaScriptCore/assembler/MacroAssemblerMIPS.h:463-478 | for every offset the words before the load or store, none for a short one, make its address base + offset, though the lower half is sign-extended |
| `MipsImmediates.LoadRuns` | JavaScriptCore/assembler/MacroAssemblerMIPS.h:463-478 | executed, load32 leaves in dest the word that the data memory holds at base + offset, changing only dest and, in the form of three instructions, addrTemp |
| `MipsImmediates.StoreRuns` | JavaScriptCore/assembler/MacroAssemblerMIPS.h:659-674 | executed, store32 puts the register into the data memory at base + offset and leaves every other word and all registers but addrTemp |
| `MipsImmediates.IndexedAddressIsExact` | JavaScriptCore/assembler/MacroAssemblerMIPS.h:480-507 | the words before an indexed load or store make its address base + (index << scale) + offset, for every offset and scale |
| `MipsImmediates.IndexedLoadRuns` | JavaScriptCore/assembler/MacroAssemblerMIPS.h:480-507 | executed, load32 of a scaled index leaves in dest the word at base + (index << scale) + offset, changing besides it only the two temporaries |
| `MipsImmediates.IndexedStoreRuns` | JavaScriptCore/assembler/MacroAssemblerMIPS.h:676-703 | executed, store32 to a scaled index changes exactly the word at base + (index << scale) + offset, and no register but the two temporaries |
| `ThumbWords.BranchReaches` | JavaScriptCore/assembler/ARMv7Assembler.h:1757-1773 | every even distance in range, encoded with the peculiar top bits, decodes by encoding T4 to itself, and the recogniser accepts it |
| `ThumbWords.ImmIsRecognised` | JavaScriptCore/assembler/ARMv7Assembler.h:1785-1792 | a sixteen-bit immediate and a register survive encoding, and the recognisers accept the halfwords |
| `ThumbWords.RecognisedImmIs` | JavaScriptCore/assembler/ARMv7Assembler.h:1721-1731 | halfwords recognised as movw or movt are what the encoders make of their immediate and register |
| `ThumbWords.RecognisedBxIs` | JavaScriptCore/assembler/ARMv7Assembler.h:1715-1719 | a halfword is recognised as bx exactly if it is one of some register |
| `ThumbWords.RecognisedBranchIs` | JavaScriptCore/assembler/ARMv7Assembler.h:1709-1713 | halfwords recognised as a branch are what the encoder makes of their distance |
| `ThumbMachine.IfThenElse1Predicates` | JavaScriptCore/assembler/ARMv7Assembler.h:711-716 | an it for one instruction predicates it and ends |
| `ThumbMachine.IfThenElse2Predicates` | JavaScriptCore/assembler/ARMv7Assembler.h:703-709 | an it for two instructions predicates the second under the condition or its opposite as asked, and ends |
| `ThumbMachine.IfThenElse3Predicates` | JavaScriptCore/assembler/ARMv7Assembler.h:695-702 | an it for three instructions predicates each under the condition or its opposite as asked, and ends |
| `ThumbMachine.IfThenElse4Predicates` | JavaScriptCore/assembler/ARMv7Assembler.h:686-694 | an it for four instructions predicates each under the condition or its opposite as asked, and ends |
| `ThumbSlots.LinkIsRecognised` | JavaScriptCore/assembler/ARMv7Assembler.h:1745-1783 | linkJumpAbsolute re-establishes what it asserts, and the slot jumps to the target in either form |
| `ThumbSlots.EveryRelinking` | JavaScriptCore/assembler/ARMv7Assembler.h:1616-1624 | a new slot can be linked for ever, never failing an assertion, and jumps to its last even target |
| `ThumbSlots.LinkTakesForm` | JavaScriptCore/assembler/ARMv7Assembler.h:1757-1782 | the slot takes the branch form exactly for distances of twenty-five signed bits, and else the form of movw, movt and bx |
| `ThumbSlots.ShortIff` | JavaScriptCore/assembler/ARMv7Assembler.h:1757-1758 | the shift test accepts exactly the distances of twenty-five signed bits |
| `ThumbSlots.SlotRuns` | JavaScriptCore/assembler/ARMv7Assembler.h:1745-1783 | either form takes exactly three instructions, to the target or past the end |
| `ThumbSlots.JumpRuns` | JavaScriptCore/assembler/MacroAssemblerARMv7.h:1110-1114 | a jump outside an IT block goes to its target in Thumb state, changing only ip |
| `ThumbSlots.BranchRuns` | JavaScriptCore/assembler/MacroAssemblerARMv7.h:1116-1121 | the it in front predicates the whole slot in either form, so the branch is taken exactly under its condition |
| `ThumbSlots.SetInt32Loads` | JavaScriptCore/assembler/ARMv7Assembler.h:1689-1702 | patching a movw/movt pair keeps its registers and makes it load the new value |
| `ThumbSlots.LinkedCallRuns` | JavaScriptCore/assembler/ARMv7Assembler.h:1602-1609 | once linked, whatever its constant was, a call reaches the callee in Thumb state with the return address behind the blx |
| `ThumbAssembler.LinkAllLinks` | JavaScriptCore/assembler/ARMv7Assembler.h:1559-1565 | after the loop every slot jumps to what it was linked to last, and all can be relinked |
| `ThumbAssembler.LinkAllFrame` | JavaScriptCore/assembler/ARMv7Assembler.h:1559-1565 | the loop changes nothing but slots |
| `ThumbAssembler.LinkInPlace` | JavaScriptCore/assembler/ARMv7Assembler.h:1745-1783 | the five halfwords written in place jump to the target and are recognised again; no other halfword changes |
| `ThumbAssembler.RelinkJump` | JavaScriptCore/assembler/ARMv7Assembler.h:1616-1624 | relinks one slot and touches nothing else |
| `ThumbAssembler.SetInt32InPlace` | JavaScriptCore/assembler/ARMv7Assembler.h:1689-1702 | patches one constant and touches nothing else |
| `ThumbAssembler.Assembler.MakeJump` | JavaScriptCore/assembler/MacroAssemblerARMv7.h:1110-1114 | emits a slot that linkJumpAbsolute recognises |
| `ThumbAssembler.Assembler.MakeBranch` | JavaScriptCore/assembler/MacroAssemblerARMv7.h:1116-1121 | emits an it for three instructions and a slot that linkJumpAbsolute recognises |
| `ThumbAssembler.Assembler.LinkJump` | JavaScriptCore/assembler/ARMv7Assembler.h:1585-1590 | appends the link to the records and leaves the code alone |
| `ThumbAssembler.Assembler.ExecutableCopy` | JavaScriptCore/assembler/ARMv7Assembler.h:1555-1569 | links every record in the copy and forgets the records |
| `ThumbAssembler.LinkedJumpRuns` | JavaScriptCore/assembler/ARMv7Assembler.h:1555-1569 | in the copy, a linked jump runs to its label |
| `ThumbAssembler.LinkedBranchRuns` | JavaScriptCore/assembler/ARMv7Assembler.h:1555-1569 | in the copy, a linked branch runs to its label exactly under its condition |
| `ThumbImmediates.ZeroIsAllZeros` | JavaScriptCore/assembler/ARMv7Assembler.h:211-212 | zero has thirty-two leading zeros |
| `ThumbImmediates.LeadingZerosAreCounted` | JavaScriptCore/assembler/ARMv7Assembler.h:201-221 | the halving count is the number of zero bits above the highest set bit |
| `ThumbImmediates.EncodingExpandsIff` | JavaScriptCore/assembler/ARMv7Assembler.h:247-298 | an encoding expands back to the value exactly if the value is not 0xXY00XY00 with XY not zero |
| `ThumbImmediates.ValidIffConstant` | JavaScriptCore/assembler/ARMv7Assembler.h:247-298 | makeEncodedImm is valid exactly for the constants of section A6.3.2 |
| `ThumbImmediates.HighPatternExample` | JavaScriptCore/assembler/ARMv7Assembler.h:291-295 | 0xab00ab00 is such a constant, and its encoding expands to zero |
| `JsToCf.ConvertInternal` | JavaScriptGlue/JSUtils.cpp:200-360 | the recursive conversion ends on every finite graph and computes the function it is specified by |
| `JsToCf.ConvertArray` | JavaScriptGlue/JSUtils.cpp:300-314 | the append loop gives the conversions of all elements in order |
| `JsToCf.ConvertDictionary` | JavaScriptGlue/JSUtils.cpp:315-347 | the loop over property names gives exactly the entries whose property exists and converts to a value, the first of a repeated name |
| `JsToCf.FindIsArray` | JavaScriptGlue/JSUtils.cpp:273-298 | true exactly if the class name is Array and, when associative arrays are converted, every character of every property name is a digit |
| `JsToCf.LeavesConvert` | JavaScriptGlue/JSUtils.cpp:202-248 | each value that is no object converts to its own kind, and only empty values and user objects without a copy to nothing |
| `JsToCf.ArraysConvert` | JavaScriptGlue/JSUtils.cpp:273-314 | off the path, an object of class Array becomes an array of its length, each element the conversion of what stands at its index, unless associative arrays are converted and a name has a character that is no digit |
| `JsToCf.OthersConvert` | JavaScriptGlue/JSUtils.cpp:315-347 | off the path, every other object becomes a dictionary of exactly the properties that exist and convert to a value |
| `JsToCf.IsOnPath` | JavaScriptGlue/JSUtils.cpp:254-262 | the walk over the list finds exactly the objects being converted |
| `JsToCf.PathIsShort` | JavaScriptGlue/JSUtils.cpp:254-266 | the recursion is never deeper than there are objects |
| `JsToCf.CycleNullIffOnPath` | JavaScriptGlue/JSUtils.cpp:254-262 | an object converts to null exactly if it is already on the path |
| `JsToCf.TruncatesIffCycle` | JavaScriptGlue/JSUtils.cpp:254-266 | an object is met again below itself exactly if a cycle can be reached |
| `JsToCf.UnfoldsIffAcyclic` | JavaScriptGlue/JSUtils.cpp:200-360 | the converted value is the plain unfolding exactly if no cycle can be reached |
| `JsToCf.CutIsNotUnfolded` | JavaScriptGlue/JSUtils.cpp:254-262 | a null put for a cycle makes the converted value differ from the unfolding to any depth |
| `JsToCf.EntriesAre` | JavaScriptGlue/JSUtils.cpp:315-347 | a dictionary has an entry for exactly the properties that exist and convert to a value, and it is that value |
| `JsToCf.AcyclicConversionIsUnfolding` | JavaScriptGlue/JSUtils.cpp:200-360 | on an acyclic graph the result is the plain unfolding |
| `JsToCf.AcyclicIsUnfolded` | JavaScriptGlue/JSUtils.cpp:200-360 | on an acyclic graph shared objects are copied, each as if it stood alone, and none is nulled |
| `JsToCf.ResultIsShallow` | JavaScriptGlue/JSUtils.cpp:200-360 | arrays and dictionaries nest no deeper than there are objects |

## Left out

- Executable memory, cache flushing, allocation failure and reference counts: platform calls.
  The flush ranges that MIPS relinking computes are modelled.
- LinkBuffer, RepatchBuffer and the code-location wrappers: they only forward.
- x86: its encoder is not part of this model.
- Most of instruction selection, VFP encodings and floating-point transfers: long tables with
  shallow properties.
- ArmTransfers.DataTransfer32: the offset -0x80000000 is excluded, because its negation
  overflows a signed int in the source.
- Repatching pool constants of ARM code after the copy (`patchPointerInternal`): the layout
  invariant is stated up to the copy.
- Byte, short and 64-bit puts on the pooled buffer: ARM never uses them, and they skip the check.
- Call sequences of ARM cores before version 5, and the `Signed`, `Zero` and `NonZero` forms of
  the MIPS arithmetic branches, which test a result register.
- Condition flags of ARM and Thumb are an arbitrary predicate on conditions, which the modelled
  instructions do not change.
- ArmMachine.AssembledCodeRuns: instructions other than loads and branches are an arbitrary
  function of word, address and state, so nothing is said about what they compute.
- ConstantPool.Flush: its contract is about the budget; which words the flush leaves is stated by
  FlushedSize, FlushKeepsWord, FlushedConstant, FlushedBarrier and FlushPatchesLoad.
- AssemblerBuffer.Buffer.IsAligned: takes the remainder where the source masks with the alignment
  less one; they agree at powers of two, the only alignments in use. So do
  ConstantPoolBuffer.PoolBuffer.IsAligned and CallsAndLabels.Pad.
- ConstantPoolBuffer.PoolBuffer.EnsureSpace: when a pool is flushed first, the growth that
  the flush may cause is not accounted for beyond half the inline capacity.
- ArmConstants.BranchTest32: states the word that is tested; the conditional jump behind it is
  LoadBranchTarget.
- JsToCf.ConvertInternal: getters are pure lookups, allocation of CF objects succeeds, and strings,
  numbers and the copies of user objects are opaque leaves. A missing array element stays
  missing, where the source passes a null to CFArrayAppendValue.
- MipsAssembler.Assembler: the buffer is an array of words; its bytes are those of
  AssemblerBuffer.
- ThumbAssembler.Assembler: the buffer is a sequence of halfwords; growth is that of
  AssemblerBuffer, and Thumb code is not relocated when it grows.
