// ARMAssembler over its pooled buffer.  The ghost field evs lists what was asked for so far, and
// run is the layout that it leads to; every method steps both as module CodeLayout says.
module ArmAssembler {
  import opened Options
  import opened ArmWords
  import opened ConstantPool
  import opened CodeLayout
  import opened CallsAndLabels
  import ExecutableCode
  import opened ArmMachine
  import opened ConstantPoolBuffer

  // What m_jumps records: the offset of the load, its last bit set if the jump must keep
  // its constant.
  function JumpRecord(e: Entry): nat
    requires e.op.Jump?
  {
    4 * e.at + if e.op.usePool then 1 else 0
  }

  predicate Records(jumps: seq<nat>, r: Run)
    requires JumpsOk(r)
  {
    |jumps| == |r.jumps| && forall d :: 0 <= d < |jumps| ==> jumps[d] == JumpRecord(r.trace[r.jumps[d]])
  }

  // The buffer and the recorded jumps stand for the layout.
  ghost predicate Holds(st: State, jumps: seq<nat>, r: Run)
  {
    st == r.st && Good(r) && Records(jumps, r)
  }

  class Assembler {
    const buffer: PoolBuffer
    var jumps: seq<nat>
    ghost var evs: seq<Event>
    ghost var run: Run

    ghost function Footprint(): set<object>
      reads this, buffer, buffer.base
    {
      {this} + buffer.Footprint()
    }

    ghost predicate Valid()
      reads this, buffer, buffer.base, buffer.base.buffer, buffer.pool, buffer.mask
    {
      this !in buffer.Footprint() && buffer.Valid() && Holds(buffer.Model(), jumps, run) && Reaches(evs, run)
    }

    constructor ()
      ensures Valid() && fresh(Footprint()) && run == START && evs == []
    {
      buffer := new PoolBuffer();
      jumps := [];
      run := START;
      evs := [];
      new;
      StartIsGood();
    }

    // emitInst and every other use of putInt.
    method Put(w: Word)
      requires Valid() && IsPlain(w)
      modifies Footprint()
      ensures Valid() && fresh(Footprint() - old(Footprint()))
      ensures Budget(old(run).st) && run == Emit(old(run), w) && evs == old(evs) + [PutWord(w)]
      ensures Budget(old(buffer.Model())) && buffer.Model() == ConstantPool.PutInt(old(buffer.Model()), w)
    {
      hide Holds, Budget, IsPlain, Emit, ConstantPool.PutInt, PoolBuffer.Model, PoolBuffer.Shaped, Reaches;
      EmitHolds(buffer.Model(), jumps, run, w);
      StepReaches(evs, run, PutWord(w));
      buffer.PutInt(w);
      evs := evs + [PutWord(w)];
      run := Emit(run, w);
    }

    // ldr_imm (reusable) and ldr_un_imm.
    method LoadConstant(rd: U4, cond: U4, c: Word, reusable: bool)
      requires Valid() && cond < 15
      modifies Footprint()
      ensures Valid() && fresh(Footprint() - old(Footprint()))
      ensures Budget(old(run).st) && run == EmitLoad(old(run), Load(LoadTemplate(cond, rd), c, reusable))
      ensures evs == old(evs) + [PutLoad(LoadTemplate(cond, rd), c, reusable)]
      ensures run.trace != [] && var op := run.trace[|run.trace| - 1].op;
        && op.Load? && op.c == c && op.reusable == reusable && op.w.cond == cond && op.w.rd == rd
        && Value(op.w) == cond * 0x1000_0000 + 0x059f_0000 + rd * 0x1000
    {
      hide Holds, Budget, EmitLoad, PutConstant, LoadTemplate, PoolBuffer.Model, PoolBuffer.Shaped, Reaches, Value;
      TemplateIsTemplate(cond, rd);
      TemplateValue(cond, rd);
      var op := Load(LoadTemplate(cond, rd), c, reusable);
      EmitLoadHolds(buffer.Model(), jumps, run, op);
      StepReaches(evs, run, PutLoad(op.w, c, reusable));
      buffer.PutIntWithConstantInt(op.w, c, reusable);
      evs := evs + [PutLoad(op.w, c, reusable)];
      run := EmitLoad(run, op);
    }

    method EnsureSpace(insnSpace: nat, constSpace: nat)
      requires Valid()
      modifies Footprint()
      ensures Valid() && fresh(Footprint() - old(Footprint()))
      ensures Budget(old(run).st) && run == RoomForConst(old(run), insnSpace, constSpace) && jumps == old(jumps)
      ensures evs == old(evs) + [Reserve(insnSpace, constSpace)]
      ensures buffer.Model() == FlushForConst(old(buffer.Model()), insnSpace, constSpace)
    {
      hide Holds, Budget, RoomForConst, FlushForConst, PoolBuffer.Model, PoolBuffer.Shaped, Reaches;
      RoomHolds(buffer.Model(), jumps, run, insnSpace, constSpace);
      StepReaches(evs, run, Reserve(insnSpace, constSpace));
      buffer.EnsureSpace(insnSpace, constSpace);
      evs := evs + [Reserve(insnSpace, constSpace)];
      run := RoomForConst(run, insnSpace, constSpace);
    }

    // jmp, and the load of a call.  The recorded source is the offset of the load itself.
    method LoadBranchTarget(rd: U4, cond: U4, usePool: bool) returns (source: nat)
      requires Valid() && cond < 15 && (rd != PC ==> usePool)
      modifies Footprint()
      ensures Valid() && fresh(Footprint() - old(Footprint()))
      ensures Budget(old(run).st) && IsLoadTemplate(LoadTemplate(cond, rd))
      ensures buffer.Model() == PutConstant(FlushForConst(old(buffer.Model()), 4, 4), LoadTemplate(cond, rd),
                                            FromValue(INVALID_BRANCH_TARGET), false)
      ensures run == EmitLoad(RoomForConst(old(run), 4, 4), Jump(LoadTemplate(cond, rd), None, usePool))
      ensures evs == old(evs) + [Event.PutTarget(LoadTemplate(cond, rd), usePool)]
      ensures run.trace != [] && var op := run.trace[|run.trace| - 1].op;
        && op.Jump? && op.link.None? && op.usePool == usePool && op.w.cond == cond && op.w.rd == rd
        && Value(op.w) == cond * 0x1000_0000 + 0x059f_0000 + rd * 0x1000
      ensures run.trace != [] && source == 4 * run.trace[|run.trace| - 1].at
    {
      hide Holds, Budget, EmitLoad, LoadTemplate, IsLoadTemplate, NoSpaceForConst, RoomForConst, PutConstant, FromValue, FlushForConst, PoolBuffer.Model, PoolBuffer.Shaped, Reaches;
      hide Value;
      TemplateValue(cond, rd);
      TemplateIsTemplate(cond, rd);
      RoomHolds(buffer.Model(), jumps, run, 4, 4);
      StepReaches(evs, run, Event.PutTarget(LoadTemplate(cond, rd), usePool));
      EnsureSpace(4, 4);
      RoomIsMade(buffer.Model(), jumps, run, old(run));
      source := PutTarget(Jump(LoadTemplate(cond, rd), None, usePool));
      // The event makes this room itself.
      evs := old(evs) + [Event.PutTarget(LoadTemplate(cond, rd), usePool)];
    }

    method PutTarget(op: Op) returns (source: nat)
      requires Valid() && IsNewLoad(op) && op.Jump? && !NoSpaceForConst(run.st, 4, 4)
      modifies Footprint()
      ensures Valid() && fresh(Footprint() - old(Footprint()))
      ensures Budget(old(run).st) && run == EmitLoad(old(run), op)
      ensures run.trace != [] && run.trace[|run.trace| - 1].op == op
      ensures evs == old(evs) + [Event.PutTarget(op.w, op.usePool)]
      ensures buffer.Model() == PutConstant(old(buffer.Model()), op.w, FromValue(INVALID_BRANCH_TARGET), false)
      ensures run.trace != [] && source == 4 * run.trace[|run.trace| - 1].at
    {
      hide Holds, Budget, EmitLoad, PutConstant, IsLoadTemplate, NoSpaceForConst, FromValue, PoolBuffer.Model, PoolBuffer.Shaped, Reaches;
      source := buffer.UncheckedSize();
      EmitLoadHolds(buffer.Model(), jumps, run, op);
      TargetIsExact(run, op);
      assert op == Jump(op.w, None, op.usePool) && RoomForConst(run, 4, 4) == run;
      StepReaches(evs, run, Event.PutTarget(op.w, op.usePool));
      evs := evs + [Event.PutTarget(op.w, op.usePool)];
      buffer.PutIntWithConstantInt(op.w, FromValue(INVALID_BRANCH_TARGET));
      run := EmitLoad(run, op);
      jumps := jumps + [source + if op.usePool then 1 else 0];
    }

    // The offset is where the next instruction will stand.
    method TakeLabel() returns (ghost l: Label, offset: nat)
      requires Valid() && Budget(run.st) && CodeLayout.TakeLabel(run).1.at < MAX_LABEL
      modifies Footprint()
      ensures Valid() && fresh(Footprint() - old(Footprint()))
      ensures Budget(old(run).st) && (run, l) == CodeLayout.TakeLabel(old(run)) && evs == old(evs) + [NewLabel]
      ensures offset == 4 * l.at && l in run.labels
    {
      hide Holds, Budget, CodeLayout.TakeLabel, FlushForConst, PoolBuffer.Model, PoolBuffer.Shaped, Reaches;
      TakeLabelHolds(buffer.Model(), jumps, run);
      StepReaches(evs, run, NewLabel);
      evs := evs + [NewLabel];
      offset := buffer.Size();
      l := CodeLayout.TakeLabel(run).1;
      run := CodeLayout.TakeLabel(run).0;
    }

    // MacroAssemblerARM::moveWithPatch: the label is that of the load, and the constant is the
    // load's own, so that it can be patched alone.
    method MoveWithPatch(initial: Word, dest: U4) returns (offset: nat)
      requires Valid() && Budget(run.st) && CodeLayout.TakeLabel(run).1.at < MAX_LABEL
      modifies Footprint()
      ensures Valid() && fresh(Footprint() - old(Footprint()))
      ensures evs == old(evs) + [NewLabel, PutLoad(LoadTemplate(AL, dest), initial, false)]
      ensures run.trace != [] && var e := run.trace[|run.trace| - 1];
        && offset == 4 * e.at && e.op.Load? && !e.op.reusable && e.op.c == initial
        && e.op.w.cond == AL && e.op.w.rd == dest
    {
      hide Holds, Budget, CodeLayout.TakeLabel, EmitLoad, LoadTemplate, IsLoadTemplate, Value, PoolBuffer.Model,
        PoolBuffer.Shaped, Reaches;
      PatchedLoadIsLabelled(run, dest, initial);
      ghost var l;
      l, offset := TakeLabel();
      LoadConstant(dest, AL, initial, false);
      assert old(evs) + [NewLabel] + [PutLoad(LoadTemplate(AL, dest), initial, false)]
          == old(evs) + [NewLabel, PutLoad(LoadTemplate(AL, dest), initial, false)];
    }

    // Links the jump recorded at byte offset `from`, the d-th one, to a label.
    method LinkJump(from: nat, offset: nat, ghost d: nat, ghost l: Label)
      requires Valid() && l in run.labels && offset == 4 * l.at && offset < WORD_LIMIT
      requires d < |run.jumps| && run.jumps[d] < |run.trace| && from == 4 * run.trace[run.jumps[d]].at
      modifies Footprint()
      ensures Valid() && Footprint() == old(Footprint()) && jumps == old(jumps)
      ensures MayLink(old(run), d, l) && run == CodeLayout.LinkJump(old(run), d, l)
      ensures evs == old(evs) + [Relink(d, l)]
    {
      hide Holds, Budget, CodeLayout.LinkJump, FromValue, IsLiteralLoad, LiteralByte, PoolBuffer.Model, PoolBuffer.Shaped, Reaches;
      LinkHolds(buffer.Model(), jumps, run, d, l);
      StepReaches(evs, run, Relink(d, l));
      evs := evs + [Relink(d, l)];
      buffer.Sizes();
      var at := from / 4;
      var insn := buffer.GetCode(at);
      if IsWaiting(insn) {
        buffer.SetPool(IndexOf(insn), FromValue(offset));
      } else {
        buffer.SetCode(LiteralByte(insn, at) / 4, FromValue(offset));
      }
      assert buffer.Model() == LinkState(run.st, at, FromValue(offset));
      run := CodeLayout.LinkJump(run, d, l);
    }
  
    // ---- Alignment -----------------------------------------------------------------------------

    method TestAlignment(alignment: nat) returns (b: bool)
      requires Valid() && alignment > 0
      modifies Footprint()
      ensures Valid() && fresh(Footprint() - old(Footprint()))
      ensures Budget(old(run).st) && run == RoomForInsn(old(run), alignment)
      ensures evs == old(evs) + [Event.TestAlignment(alignment)]
      ensures buffer.Model() == FlushForInsn(old(buffer.Model()), alignment)
      ensures b == (4 * |buffer.Model().code| % alignment == 0)
    {
      hide Holds, Budget, RoomForInsn, FlushForInsn, PoolBuffer.Model, PoolBuffer.Shaped, Reaches;
      RoomHolds(buffer.Model(), jumps, run, alignment, 0);
      StepReaches(evs, run, Event.TestAlignment(alignment));
      b := buffer.IsAligned(alignment);
      evs := evs + [Event.TestAlignment(alignment)];
      run := RoomForInsn(run, alignment);
    }

    // The loop of align(4 * n).
    method PadTo(n: nat)
      requires Valid() && n > 0
      modifies Footprint()
      ensures Valid() && fresh(Footprint() - old(Footprint()))
      ensures Budget(old(run).st) && run == PadRun(old(run), n) && old(evs) <= evs
      ensures buffer.Model() == Pad(old(buffer.Model()), n)
    {
      hide Holds, Budget, RoomForInsn, FlushForInsn, Emit, PoolBuffer.Model, PoolBuffer.Shaped, Reaches, ConstantPool.PutInt, PadRun;
      RoomHolds(buffer.Model(), jumps, run, 4 * n, 0);
      while true
        invariant Valid() && fresh(Footprint() - old(Footprint()))
        invariant Budget(old(run).st) && Budget(run.st) && buffer.Model() == run.st
        invariant PadRun(run, n) == PadRun(old(run), n) && old(evs) <= evs
        decreases if run.st.pool != [] then 1 else 0, Missing(|run.st.code|, n)
      {
        ghost var r := run;
        var aligned := TestAlignment(4 * n);
        RoomHolds(buffer.Model(), jumps, run, 4 * n, 0);
        SameAlignment(|run.st.code|, n);
        PadRunUnfolds(r, n);
        if aligned {
          return;
        }
        PaddingGoesOn(r.st, n);
        EmitPuts(run, MOV_R0_R0);
        Put(MOV_R0_R0);
        RoomHolds(buffer.Model(), jumps, run, 4 * n, 0);
      }
    }

    // align(4 * n): pad, then label().
    method Align(n: nat) returns (ghost l: Label, offset: nat)
      requires Valid() && n > 0 && Budget(run.st) && CodeLayout.TakeLabel(PadRun(run, n)).1.at < MAX_LABEL
      modifies Footprint()
      ensures Valid() && fresh(Footprint() - old(Footprint()))
      ensures Budget(old(run).st) && (run, l) == CodeLayout.TakeLabel(PadRun(old(run), n)) && old(evs) <= evs
      ensures offset == 4 * l.at && l in run.labels
      ensures n >= 4 ==> offset % (4 * n) == 0
    {
      hide Holds, Budget, CodeLayout.TakeLabel, PadRun, PoolBuffer.Model, PoolBuffer.Shaped, Reaches;
      PadTo(n);
      AlignTakesLabel(old(run), n);
      l, offset := TakeLabel();
    }
  
    // MacroAssemblerARM::nearCall and call.
    method NearCall() returns (call: nat)
      requires Valid()
      modifies Footprint()
      ensures Valid() && fresh(Footprint() - old(Footprint()))
      ensures Budget(old(buffer.Model()))
      ensures Budget(old(run).st) && run == NearCallRun(old(run))
      ensures evs == old(evs) + CallEvents()
      ensures (buffer.Model(), call / 4) == CallsAndLabels.NearCall(old(buffer.Model())) && call % 4 == 0
    {
      hide Holds, Budget, RoomForConst, FlushForConst, EmitLoad, Emit, PoolBuffer.Model, PoolBuffer.Shaped, Reaches,
        ConstantPool.PutInt, PutConstant, LoadTemplate, NoSpaceForConst, IsLoadTemplate, FromValue, IsPlain, Value,
        CallsAndLabels.NearCall, NearCallRun, CallEvents;
      CallWordsAreAllowed();
      RoomHolds(buffer.Model(), jumps, run, 8, 4);
      NearCallUnfolds(run, evs);
      EnsureSpace(8, 4);
      var source := LoadBranchTarget(S1, AL, true);
      call := buffer.UncheckedSize();
      Put(BLX_S1);
    }

    // ---- The final copy ---------------------------------------------------------------------------

    // The last flush and the breakpoint are events of the run like any other.
    method FinishCode()
      requires Valid() && MayFlush(run, false)
      modifies Footprint()
      ensures Valid() && fresh(Footprint() - old(Footprint()))
      ensures Budget(old(run).st) && run == ExecutableCode.Finish(old(run))
    {
      hide Holds, Budget, Flush, FlushRun, Emit, PoolBuffer.Model, PoolBuffer.Shaped, Reaches, ConstantPool.PutInt;
      FlushHolds(buffer.Model(), jumps, run);
      StepReaches(evs, run, FlushHere(true));
      buffer.FlushWithoutBarrier(true);
      evs := evs + [FlushHere(true)];
      run := FlushRun(run, false);
      HoldsSize(buffer.Model(), jumps, run);
      if buffer.UncheckedSize() % 8 != 0 {
        Put(BKPT);
      }
    }

    // The code is finished and copied to address base; then the loop over m_jumps.
    method ExecutableCopy(base: nat) returns (data: array<Word>)
      requires Valid() && MayFlush(run, false)
      requires base + 4 * |ExecutableCode.Finish(run).st.code| < WORD_LIMIT
      modifies Footprint()
      ensures fresh(data) && data[..] == ExecutableCode.ExecutableCopy(old(run), base)
      ensures data.Length % 2 == 0
      ensures old(run).trace != [] ==>
        && MayCopy(old(evs), old(run), base) && data[..] == FinishedCode(old(evs), old(run), base)
        && ExecutableCode.Implements(data[..], base, FinishedRun(old(evs), old(run)).trace)
    {
      assert Good(run);
      hide Holds, Budget, Good, MayFlush, ExecutableCode.Finish, ExecutableCode.Relocated, PoolBuffer.Model, PoolBuffer.Shaped, Reaches,
        MayCopy, FinishedCode, FinishedRun, ExecutableCode.Implements;
      CopyIsFinished(evs, run, base);
      ExecutableCode.FinishKeepsGood(run);
      FinishCode();
      HoldsRecords(buffer.Model(), jumps, run);
      data := CopyCode();
      RelocateJumps(data, base, jumps, run);
    }

    method CopyCode() returns (data: array<Word>)
      requires Valid()
      ensures fresh(data) && data[..] == run.st.code
    {
      assert buffer.Model().code == run.st.code && buffer.Shaped();
      hide Holds, PoolBuffer.Model, PoolBuffer.Shaped, Reaches;
      data := buffer.CopyCode();
    }
  }

  method RelocateJumps(data: array<Word>, base: nat, jumps: seq<nat>, ghost r: Run)
    requires ExecutableCode.Relocatable(r, base) && JumpsOk(r) && Records(jumps, r) && data[..] == r.st.code
    modifies data
    ensures data[..] == ExecutableCode.Relocated(r, base, |r.jumps|)
  {
    hide Records, JumpsOk, ExecutableCode.Relocated, ExecutableCode.Relocatable, ExecutableCode.RelocateNext, ExecutableCode.CanFollow, ExecutableCode.RelocateJump, ExecutableCode.Progress;
    SameLength(jumps, r);
    assert data[..] == ExecutableCode.Relocated(r, base, 0) by { StartOfRelocation(r, base); }
    var i := 0;
    while i < |jumps|
      invariant 0 <= i <= |jumps|
      invariant data[..] == ExecutableCode.Relocated(r, base, i)
    {
      JumpRound(r, base, jumps, i);
      RelocateAt(data, base, jumps[i]);
      i := i + 1;
    }
  }

  lemma JumpRound(r: Run, base: nat, jumps: seq<nat>, i: nat)
    requires ExecutableCode.Relocatable(r, base) && JumpsOk(r) && Records(jumps, r) && i < |jumps|
    ensures var code := ExecutableCode.Relocated(r, base, i);
      && ExecutableCode.CanFollow(code, base, jumps[i] / 4)
      && ExecutableCode.RelocateJump(code, base, jumps[i] / 4, jumps[i] % 2 == 1)
         == ExecutableCode.Relocated(r, base, i + 1)
  {
    hide Good, ExecutableCode.CanFollow, ExecutableCode.RelocateJump, ExecutableCode.Relocated, ExecutableCode.Relocatable, JumpRecord;
    var e := r.trace[r.jumps[i]];
    assert jumps[i] == JumpRecord(e);
    RecordFields(e);
    ExecutableCode.RelocatedStep(r, base, i);
  }

  lemma RecordFields(e: Entry)
    requires e.op.Jump?
    ensures JumpRecord(e) / 4 == e.at && (JumpRecord(e) % 2 == 1 <==> e.op.usePool)
  {
  }

  lemma StartOfRelocation(r: Run, base: nat)
    requires ExecutableCode.Relocatable(r, base)
    ensures ExecutableCode.Relocated(r, base, 0) == r.st.code
  {
    hide ExecutableCode.Relocatable, ExecutableCode.Progress;
  }

  lemma SameLength(jumps: seq<nat>, r: Run)
    requires JumpsOk(r) && Records(jumps, r)
    ensures |jumps| == |r.jumps|
  {
  }

  lemma HoldsRecords(st: State, jumps: seq<nat>, r: Run)
    requires Holds(st, jumps, r)
    ensures st == r.st && JumpsOk(r) && Records(jumps, r)
  {
  }

  // One round of the loop of executableCopy, on the copied words.
  method RelocateAt(data: array<Word>, base: nat, jump: nat)
    requires ExecutableCode.CanFollow(data[..], base, jump / 4)
    modifies data
    ensures data[..] == ExecutableCode.RelocateJump(old(data[..]), base, jump / 4, jump % 2 == 1)
  {
    // The last bit is set if the constant must stay in the pool.
    var at := (jump - jump % 2) / 4;
    var addr := LiteralByte(data[at], at) / 4;
    var v := Value(data[addr]);
    if v != INVALID_BRANCH_TARGET {
      if jump % 2 == 0 {
        var diff := (v - (4 * at + 8)) / 4;
        if diff <= BOFFSET_MAX && diff >= BOFFSET_MIN {
          data[at] := DirectBranch(data[at].cond, diff);
          return;
        }
      }
      data[addr] := FromValue(base + v);
    }
  }

  lemma NearCallUnfolds(r: Run, evs: seq<Event>)
    requires Budget(r.st)
    ensures IsLoadTemplate(LoadTemplate(AL, S1))
    ensures var s := PutConstant(FlushForConst(FlushForConst(r.st, 8, 4), 4, 4), LoadTemplate(AL, S1),
                                 FromValue(INVALID_BRANCH_TARGET), false);
      CallsAndLabels.NearCall(r.st) == (ConstantPool.PutInt(s, BLX_S1), |s.code|)
    ensures var a := RoomForConst(RoomForConst(r, 8, 4), 4, 4);
      NearCallRun(r) == Emit(EmitLoad(a, Jump(LoadTemplate(AL, S1), None, true)), BLX_S1)
    ensures evs + [Reserve(8, 4)] + [Event.PutTarget(LoadTemplate(AL, S1), true)] + [PutWord(BLX_S1)]
        == evs + CallEvents()
  {
    hide Budget, RoomForConst, FlushForConst, EmitLoad, Emit, ConstantPool.PutInt, PutConstant, FromValue;
    assert evs + [Reserve(8, 4)] + [Event.PutTarget(LoadTemplate(AL, S1), true)] + [PutWord(BLX_S1)]
        == evs + CallEvents();
  }

  lemma PatchedLoadIsLabelled(r: Run, dest: U4, initial: Word)
    requires Budget(r.st)
    ensures var op := Load(LoadTemplate(AL, dest), initial, false); var (g, l) := CodeLayout.TakeLabel(r);
      && IsNewLoad(op) && Budget(g.st) && var e := EmitLoad(g, op);
         e.trace != [] && e.trace[|e.trace| - 1].at == l.at && e.trace[|e.trace| - 1].op == op
  {
    var op := Load(LoadTemplate(AL, dest), initial, false);
    TemplateIsTemplate(AL, dest);
    assert IsNewLoad(op);
    LabelsAreExact(r, initial, op);
    hide CodeLayout.TakeLabel, EmitLoad, Budget;
  }

  lemma PadRunUnfolds(r: Run, n: nat)
    requires Budget(r.st) && n > 0
    ensures var s := RoomForInsn(r, 4 * n);
      PadRun(r, n) == if IsAligned(s.st, n) then s else PadRun(Emit(s, MOV_R0_R0), n)
  {
    hide Budget, RoomForInsn, Emit, FlushForInsn, IsAligned;
    if !IsAligned(RoomForInsn(r, 4 * n).st, n) { PaddingGoesOn(r.st, n); }
  }

  // The label is where the padding ended, if the alignment is sixteen bytes or more.
  lemma AlignTakesLabel(r: Run, n: nat)
    requires Budget(r.st) && n > 0
    ensures n >= 4 ==> 4 * CodeLayout.TakeLabel(PadRun(r, n)).1.at % (4 * n) == 0
  {
    hide PadRun, Pad, Flush, PendingLoad;
    if n >= 4 {
      AlignedLabelsAreAligned(r.st, n);
      SameAlignment(|Pad(r.st, n).code|, n);
    }
  }

  lemma TakeLabelHolds(st: State, jumps: seq<nat>, r: Run)
    requires Holds(st, jumps, r) && Budget(r.st) && CodeLayout.TakeLabel(r).1.at < MAX_LABEL
    ensures st == r.st
    ensures var (g, l) := CodeLayout.TakeLabel(r); var t := FlushForConst(st, MAX_INSTRUCTION_SIZE, 8);
      Holds(t, jumps, g) && l.at == |t.code| && l in g.labels
  {
    TakeLabelKeepsGood(r);
    RoomKeepsRecords(jumps, r, MAX_INSTRUCTION_SIZE, 8);
    hide Good, RoomForConst;
  }

  lemma LinkHolds(st: State, jumps: seq<nat>, r: Run, d: nat, l: Label)
    requires Holds(st, jumps, r) && d < |r.jumps| && l in r.labels
    ensures st == r.st && MayLink(r, d, l)
    ensures var t := LinkState(st, r.trace[r.jumps[d]].at, FromValue(4 * l.at));
      Budget(t) && Holds(t, jumps, CodeLayout.LinkJump(r, d, l))
  {
    LinkKeepsGood(r, d, l);
    assert Budget(CodeLayout.LinkJump(r, d, l).st);
    hide Good, CanLink, LinkState, FromValue;
    assert JumpsOk(CodeLayout.LinkJump(r, d, l)) by { GoodHasJumps(CodeLayout.LinkJump(r, d, l)); }
  }

  lemma FlushHolds(st: State, jumps: seq<nat>, r: Run)
    requires Holds(st, jumps, r) && MayFlush(r, false)
    ensures Budget(st) && st == r.st && Holds(Flush(st, false), jumps, FlushRun(r, false))
  {
    FlushKeepsGood(r, false);
    FlushKeepsRecords(jumps, r, false);
    hide Good, Records;
  }

  lemma HoldsSize(st: State, jumps: seq<nat>, r: Run)
    requires Holds(st, jumps, r)
    ensures st == r.st && (4 * |st.code| % 8 == 0 <==> |st.code| % 2 == 0)
  {
    SameAlignment(|st.code|, 2);
  }

  lemma SameAlignment(k: nat, n: nat)
    requires n > 0
    ensures 4 * k % (4 * n) == 0 <==> k % n == 0
  {
    var q, r := k / n, k % n;
    assert k == q * n + r;
    assert 4 * k == q * (4 * n) + 4 * r;
    ModIs(4 * k, 4 * n, q, 4 * r);
  }

  lemma GoodHasJumps(r: Run)
    requires Good(r)
    ensures JumpsOk(r)
  {
  }

  lemma TemplateIsTemplate(cond: U4, rd: U4)
    requires cond < 15
    ensures IsLoadTemplate(LoadTemplate(cond, rd)) && LoadTemplate(cond, rd).rd == rd
  {
  }

  lemma EmitHolds(st: State, jumps: seq<nat>, r: Run, w: Word)
    requires Holds(st, jumps, r) && IsPlain(w)
    ensures Budget(r.st) && st == r.st
    ensures Holds(ConstantPool.PutInt(st, w), jumps, Emit(r, w))
  {
    EmitKeepsGood(r, w);
    EmitKeepsRecords(jumps, r, w);
    hide Good, Records;
  }

  lemma EmitLoadHolds(st: State, jumps: seq<nat>, r: Run, op: Op)
    requires Holds(st, jumps, r) && IsNewLoad(op)
    ensures Budget(r.st) && st == r.st
    ensures var e := EmitLoad(r, op); var t := PutConstant(st, op.w, Constant(op), IsReusable(op));
      && |e.trace| == |RoomForConst(r, 4, 4).trace| + 1 && e.trace[|e.trace| - 1].op == op
      && Holds(t, if op.Jump? then jumps + [JumpRecord(e.trace[|e.trace| - 1])] else jumps, e)
  {
    EmitLoadKeepsGood(r, op);
    EmitLoadKeepsRecords(jumps, r, op);
    hide Good, Records;
  }

  lemma RoomHolds(st: State, jumps: seq<nat>, r: Run, insn: nat, constant: nat)
    requires Holds(st, jumps, r)
    ensures Budget(r.st) && st == r.st
    ensures Holds(FlushForConst(st, insn, constant), jumps, RoomForConst(r, insn, constant))
    ensures Holds(FlushForInsn(st, insn), jumps, RoomForInsn(r, insn))
  {
    RoomKeepsGood(r, insn, constant);
    RoomKeepsRecords(jumps, r, insn, constant);
    hide Good, Records;
  }

  lemma RoomIsMade(st: State, jumps: seq<nat>, r: Run, before: Run)
    requires Holds(st, jumps, r) && Budget(before.st) && r == RoomForConst(before, 4, 4)
    ensures Budget(r.st) && st == r.st && !NoSpaceForConst(r.st, 4, 4)
  {
  }

  // With room for it already made, the load goes where the code ended.
  lemma TargetIsExact(r: Run, op: Op)
    requires Budget(r.st) && IsNewLoad(op) && !NoSpaceForConst(r.st, 4, 4)
    ensures EmitLoad(r, op).trace == r.trace + [Entry(op, |r.st.code|, HomeFor(r.st, op), NoGap)]
  {
  }

  lemma FlushKeepsRecords(jumps: seq<nat>, r: Run, useBarrier: bool)
    requires Good(r) && Records(jumps, r)
    ensures JumpsOk(FlushRun(r, useBarrier)) && Records(jumps, FlushRun(r, useBarrier))
  {
    hide Flush, Budget, EntriesOk, GapsOk, AllApart, AllClear, LabelsOk;
    FlushKeepsEnds(r, useBarrier);
  }

  lemma RoomKeepsRecords(jumps: seq<nat>, r: Run, insn: nat, constant: nat)
    requires Good(r) && Records(jumps, r)
    ensures JumpsOk(RoomForInsn(r, insn)) && Records(jumps, RoomForInsn(r, insn))
    ensures JumpsOk(RoomForConst(r, insn, constant)) && Records(jumps, RoomForConst(r, insn, constant))
  {
    hide Flush, FlushRun, Records, JumpsOk;
    FlushKeepsRecords(jumps, r, true);
  }

  lemma JumpsAreInTrace(r: Run)
    requires JumpsOk(r)
    ensures forall d :: 0 <= d < |r.jumps| ==> r.jumps[d] < |r.trace| && r.trace[r.jumps[d]].op.Jump?
  {
  }

  predicate RecordsAt(jumps: seq<nat>, r: Run, d: nat)
    requires JumpsOk(r) && d < |r.jumps|
  {
    d < |jumps| && jumps[d] == JumpRecord(r.trace[r.jumps[d]])
  }

  lemma RecordsAre(jumps: seq<nat>, r: Run)
    requires JumpsOk(r)
    ensures Records(jumps, r) <==> |jumps| == |r.jumps| && forall d :: 0 <= d < |r.jumps| ==> RecordsAt(jumps, r, d)
  {
    hide JumpRecord;
    if |jumps| == |r.jumps| && forall d :: 0 <= d < |r.jumps| ==> RecordsAt(jumps, r, d) {
      forall d | 0 <= d < |jumps| ensures jumps[d] == JumpRecord(r.trace[r.jumps[d]]) {
        assert RecordsAt(jumps, r, d);
      }
    }
  }

  lemma AppendKeepsRecords(jumps: seq<nat>, r: Run, t: State, e: Entry)
    requires JumpsOk(r) && Records(jumps, r)
    ensures JumpsOk(Append(r, t, e))
    ensures Records(if e.op.Jump? then jumps + [JumpRecord(e)] else jumps, Append(r, t, e))
  {
    hide JumpsOk, JumpRecord, Records;
    var a, after := Append(r, t, e), if e.op.Jump? then jumps + [JumpRecord(e)] else jumps;
    AppendKeepsJumps(r, t, e);
    JumpsAreInTrace(r);
    RecordsAre(jumps, r);
    RecordsAre(after, a);
    forall d | 0 <= d < |a.jumps| ensures RecordsAt(after, a, d) {
      if d < |r.jumps| { assert RecordsAt(jumps, r, d); }
    }
  }

  lemma EmitKeepsRecords(jumps: seq<nat>, r: Run, w: Word)
    requires Good(r) && Records(jumps, r)
    ensures JumpsOk(Emit(r, w)) && Records(jumps, Emit(r, w))
  {
    RoomKeepsRecords(jumps, r, 4, 4);
    hide RoomForInsn, RoomForConst, ConstantPool.PutInt, Good, JumpsOk, Records, Append;
    var f := RoomForInsn(r, 4);
    AppendKeepsRecords(jumps, f, ConstantPool.PutInt(r.st, w), Entry(Plain(w), |f.st.code|, NoHome, NoGap));
  }

  lemma EmitLoadKeepsRecords(jumps: seq<nat>, r: Run, op: Op)
    requires Good(r) && Records(jumps, r) && IsNewLoad(op)
    ensures var e := EmitLoad(r, op); var n := |e.trace| - 1;
      && JumpsOk(e) && n == |RoomForConst(r, 4, 4).trace| && e.trace[n].op == op
      && Records(if op.Jump? then jumps + [JumpRecord(e.trace[n])] else jumps, e)
  {
    RoomKeepsRecords(jumps, r, 4, 4);
    hide RoomForInsn, RoomForConst, PutConstant, Good, JumpsOk, Records, Constant;
    var f := RoomForConst(r, 4, 4);
    AppendKeepsRecords(jumps, f, PutConstant(r.st, op.w, Constant(op), IsReusable(op)),
                       Entry(op, |f.st.code|, HomeFor(f.st, op), NoGap));
  }
}
