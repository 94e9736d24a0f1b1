// Sequences whose words must stand next to each other, and labels that must be aligned:
// when a pool can come between, and when it cannot.
module CallsAndLabels {
  import opened Options
  import opened ArmWords
  import opened ConstantPool
  import opened CodeLayout

  // ---- Calls ------------------------------------------------------------------------------

  // MacroAssemblerARM::nearCall and call: load the target into S1, then blx S1.  The call
  // is recorded at the offset where the buffer stood when blx asked for it.
  function NearCall(st: State): (r: (State, nat))
    requires Budget(st)
    ensures Budget(r.0)
  {
    var s := PutConstant(
      FlushForConst(FlushForConst(st, 8, 4), 4, 4), LoadTemplate(AL, S1), FromValue(INVALID_BRANCH_TARGET), false);
    (PutInt(s, BLX_S1), |s.code|)
  }

  // The load of a call is put without a flush, and leaves this budget for the blx.
  lemma CallLoadIsPut(st: State)
    requires Budget(st)
    ensures var e := FlushForConst(st, 8, 4);
      && FlushForConst(e, 4, 4) == e
      && (st.pool == [] ==> e == st)
      && (st.pool != [] ==> e.maxDistance >= 16)
    ensures var e := FlushForConst(st, 8, 4);
      var s := PutConstant(e, LoadTemplate(AL, S1), FromValue(INVALID_BRANCH_TARGET), false);
      && |s.code| == |e.code| + 1 && s.pool != [] && s.loads == e.loads + [|e.code|]
      && s.maxDistance == e.maxDistance - 4 && s.lastConstDelta == 4
      && s.code[|e.code|] == PatchIndex(LoadTemplate(AL, S1), |e.pool|)
  {
    hide FromValue, Flush;
  }

  lemma FlushedCallHasBarrier(s: State)
    requires Budget(s) && s.pool != [] && |s.code| - 1 in s.loads
    requires IsLoadTemplate(s.code[|s.code| - 1].(low := 0))
    ensures var f := Flush(s, true);
      && |s.code| < |f.code| && f.code[|s.code|] != BLX_S1
      && SameLoad(f.code[|s.code| - 1], s.code[|s.code| - 1])
  {
    hide FromValue, Budget, PoolStart, Flush;
    FlushedSize(s, true);
    FlushedBarrier(s);
    FlushPatchesLoad(s, true, |s.code| - 1);
  }

  // The recorded call is the blx, with its load right before it, exactly if constants were
  // waiting or the budget still held sixteen bytes.  With an empty pool ensureSpace checks
  // nothing, and an overspent budget puts the pool between the load and the blx.
  lemma CallIsAdjacentIff(st: State)
    requires Budget(st)
    ensures var (r, call) := NearCall(st);
      && 0 < call < |r.code|
      && SameLoad(r.code[call - 1], LoadTemplate(AL, S1))
      && (r.code[call] == BLX_S1 <==> st.pool != [] || st.maxDistance >= 16)
      && (r.code[call] == BLX_S1 ==> |r.code| == call + 1 && IsWaiting(r.code[call - 1]))
  {
    hide FromValue, FlushForConst, Flush, Budget, PutConstant;
    CallLoadIsPut(st);
    var e := FlushForConst(st, 8, 4);
    var s := PutConstant(e, LoadTemplate(AL, S1), FromValue(INVALID_BRANCH_TARGET), false);
    assert s.loads[|e.loads|] == |s.code| - 1;
    if NoSpaceForInsn(s, 4) {
      FlushedCallHasBarrier(s);
    }
  }

  // The same on the instruction list.
  function CallJump(): Op { Jump(LoadTemplate(AL, S1), None, true) }

  function NearCallRun(r: Run): (f: Run)
    requires Budget(r.st)
    ensures f.st == NearCall(r.st).0
  {
    Emit(EmitLoad(RoomForConst(RoomForConst(r, 8, 4), 4, 4), CallJump()), BLX_S1)
  }

  function CallEvents(): seq<Event>
  {
    [Reserve(8, 4), PutTarget(LoadTemplate(AL, S1), true), PutWord(BLX_S1)]
  }

  // A call asks for the load of its target and the blx, and for nothing else, wherever the
  // pool falls.
  lemma NearCallIsAsked(evs: seq<Event>, r: Run)
    requires Reaches(evs, r) && Budget(r.st)
    ensures Reaches(evs + CallEvents(), NearCallRun(r))
    ensures var p := Held(r);
      Held(NearCallRun(r)) == Program(p.ops + [CallJump(), Plain(BLX_S1)], p.jumps + [|p.ops|], p.labels)
  {
    CallWordsAreAllowed();
    hide Budget, RoomForConst, EmitLoad, Emit, LoadTemplate, IsLoadTemplate, IsPlain, Reaches, Held;
    var a := RoomForConst(r, 8, 4);
    var b := EmitLoad(RoomForConst(a, 4, 4), CallJump());
    StepReaches(evs, r, Reserve(8, 4));
    StepBuildsProgram(r, Reserve(8, 4));
    StepReaches(evs + [Reserve(8, 4)], a, PutTarget(LoadTemplate(AL, S1), true));
    StepBuildsProgram(a, PutTarget(LoadTemplate(AL, S1), true));
    StepReaches(evs + [Reserve(8, 4)] + [PutTarget(LoadTemplate(AL, S1), true)], b, PutWord(BLX_S1));
    StepBuildsProgram(b, PutWord(BLX_S1));
    assert evs + CallEvents()
        == evs + [Reserve(8, 4)] + [PutTarget(LoadTemplate(AL, S1), true)] + [PutWord(BLX_S1)];
  }

  lemma CallWordsAreAllowed()
    ensures IsLoadTemplate(LoadTemplate(AL, S1)) && IsPlain(BLX_S1) && IsPlain(MOV_R0_R0)
  {
  }

  // ---- Runs of padding --------------------------------------------------------------------------

  function Nops(n: nat): seq<Event> { seq(n, (k: nat) => PutWord(MOV_R0_R0)) }

  // Plain words spend the budget; no pool is flushed before it is down to twelve bytes.
  lemma {:induction false} NopsReach(evs: seq<Event>, r: Run, n: nat) returns (q: Run)
    requires Reaches(evs, r) && Budget(r.st) && (r.st.pool != [] ==> 4 * n + 8 <= r.st.maxDistance)
    ensures Reaches(evs + Nops(n), q) && Budget(q.st)
    ensures q.st.pool == r.st.pool && |q.st.code| == |r.st.code| + n
    ensures q.st.maxDistance == r.st.maxDistance - 4 * n
  {
    hide Reaches, Flush, PendingLoad;
    if n == 0 {
      assert evs + Nops(0) == evs;
      return r;
    }
    CallWordsAreAllowed();
    var f := NopsReach(evs, r, n - 1);
    q := Step(f, PutWord(MOV_R0_R0));
    StepReaches(evs + Nops(n - 1), f, PutWord(MOV_R0_R0));
    assert evs + Nops(n) == evs + Nops(n - 1) + [PutWord(MOV_R0_R0)];
  }

  // After 509 words without a constant, the pool separates the load of a call from its blx.
  lemma SplitCallExample() returns (r: Run)
    ensures Reaches(Nops(509), r) && Budget(r.st)
    ensures var (s, call) := NearCall(r.st); call < |s.code| && s.code[call] != BLX_S1
  {
    hide NearCall, Reaches;
    assert Reaches([], START) by { EmptyIsReached(); }
    r := NopsReach([], START, 509);
    assert [] + Nops(509) == Nops(509);
    CallIsAdjacentIff(r.st);
  }

  lemma EmptyIsReached()
    ensures Reaches([], START) && Budget(START.st)
  {
  }

  // ---- Alignment ----------------------------------------------------------------------------

  // Whole words, so an alignment of four bytes times n is one of n words.
  predicate IsAligned(st: State, n: nat)
    requires n > 0
  {
    |st.code| % n == 0
  }

  // The padding that is missing, in words.
  function Missing(k: nat, n: nat): nat
    requires n > 0
  {
    if k % n == 0 then 0 else n - k % n
  }

  // The loop of align(4 * n): isAligned, which may flush, and mov r0, r0 while it fails.
  // It ends because the pool can be flushed only once, and every other round brings the
  // code a word closer.
  function Pad(st: State, n: nat): (r: State)
    requires Budget(st) && n > 0
    ensures Budget(r) && IsAligned(r, n) && !NoSpaceForInsn(r, 4 * n)
    decreases if st.pool != [] then 1 else 0, Missing(|st.code|, n)
  {
    var s := FlushForInsn(st, 4 * n);
    if IsAligned(s, n) then s
    else
      PaddingGoesOn(st, n);
      Pad(PutInt(s, MOV_R0_R0), n)
  }

  lemma PaddingGoesOn(st: State, n: nat)
    requires Budget(st) && n > 0 && !IsAligned(FlushForInsn(st, 4 * n), n)
    ensures var s := FlushForInsn(st, 4 * n); var r := PutInt(s, MOV_R0_R0);
      && FlushForInsn(s, 4) == s && r.pool == s.pool && |r.code| == |s.code| + 1
      && (s == st || (st.pool != [] && s.pool == []))
      && (s == st ==> Missing(|r.code|, n) < Missing(|st.code|, n))
  {
    hide Flush, PendingLoad, Missing;
    NextWord(|FlushForInsn(st, 4 * n).code|, n);
  }

  lemma NextWord(k: nat, n: nat)
    requires n > 0 && k % n != 0
    ensures Missing(k + 1, n) < Missing(k, n)
  {
    var q, r := k / n, k % n;
    assert k == q * n + r;
    if r + 1 < n {
      ModIs(k + 1, n, q, r + 1);
    } else {
      assert k + 1 == (q + 1) * n + 0;
      ModIs(k + 1, n, q + 1, 0);
    }
  }

  lemma ModIs(k: nat, n: nat, q: nat, r: nat)
    requires n > 0 && r < n && k == q * n + r
    ensures k % n == r
  {
    var d: int := k / n - q;
    assert d * n == r - k % n;
    assert d != 0 ==> d * n >= n || d * n + n <= 0;
  }

  // align(4 * n): pad, then label().  The label is where the code ends.
  function Align(st: State, n: nat): (r: State)
    requires Budget(st) && n > 0
  {
    FlushForConst(Pad(st, n), MAX_INSTRUCTION_SIZE, 8)
  }

  // After a test for sixteen bytes or more, label() has no reason left to flush, so the
  // label stands where the padding ended.
  lemma AlignedLabelsAreAligned(st: State, n: nat)
    requires Budget(st) && n >= 4
    ensures Align(st, n) == Pad(st, n) && IsAligned(Align(st, n), n)
  {
    hide Pad, Flush, PendingLoad;
  }

  // For eight bytes label() may still flush, and then the pool decides: its start is
  // aligned to eight, so its end is exactly if it holds an even number of constants.
  lemma PaddedIsAlignedIff(st: State)
    requires Budget(st)
    ensures var p := Pad(st, 2);
      IsAligned(Align(st, 2), 2) <==> !NoSpaceForConst(p, MAX_INSTRUCTION_SIZE, 8) || |p.pool| % 2 == 0
  {
    hide Pad, Flush, Budget, PoolStart, NoSpaceForConst;
    var p := Pad(st, 2);
    if NoSpaceForConst(p, MAX_INSTRUCTION_SIZE, 8) {
      assert p.pool != [] by { FullPoolIsNotEmpty(p, MAX_INSTRUCTION_SIZE, 8); }
      FlushedIsEvenIff(p);
    }
  }

  lemma {:induction false} PadWithoutPool(st: State, n: nat)
    requires Budget(st) && n > 0 && st.pool == []
    ensures Pad(st, n).pool == []
    decreases Missing(|st.code|, n)
  {
    hide Flush, PendingLoad, Missing;
    if !IsAligned(st, n) {
      PaddingGoesOn(st, n);
      PadWithoutPool(PutInt(st, MOV_R0_R0), n);
    }
  }

  // The budget that the padding leaves just enough for, and label() not.
  predicate JustRunsOut(st: State)
  {
    if |st.code| % 2 == 0 then st.maxDistance == 16 || (st.maxDistance == 20 && st.lastConstDelta > 0)
    else st.maxDistance == 20
  }

  lemma LabelFlushesIff(st: State)
    requires Budget(st) && !NoSpaceForInsn(st, 8) && st.pool != []
    ensures st.maxDistance >= 16 && st.maxDistance % 4 == 0
    ensures NoSpaceForConst(st, MAX_INSTRUCTION_SIZE, 8)
      <==> st.maxDistance == 16 || (st.maxDistance == 20 && st.lastConstDelta > 0)
  {
    hide PendingLoad;
  }

  // One more word of padding, where the code ends in the middle of eight bytes.
  lemma PadOneMore(st: State)
    requires Budget(st) && !NoSpaceForInsn(st, 8) && st.pool != [] && |st.code| % 2 == 1
    ensures var r := PutInt(st, MOV_R0_R0);
      && Pad(st, 2) == Pad(r, 2) && r.pool == st.pool && |r.code| % 2 == 0
      && r.maxDistance == st.maxDistance - 4 && r.lastConstDelta == 0
  {
    hide Flush, PendingLoad, Missing;
  }

  lemma PadStops(st: State)
    requires Budget(st)
    ensures NoSpaceForInsn(st, 8) ==> Pad(st, 2).pool == []
    ensures !NoSpaceForInsn(st, 8) && |st.code| % 2 == 0 ==> Pad(st, 2) == st
  {
    hide Flush, PendingLoad, Missing;
    if NoSpaceForInsn(st, 8) {
      var s := Flush(st, true);
      if !IsAligned(s, 2) { PadWithoutPool(PutInt(s, MOV_R0_R0), 2); }
    }
  }

  // So the label of align(8) is misaligned exactly if the pool holds an odd number of constants
  // and the budget is such that the padding still fits and label() does not.
  lemma EightAlignedIff(st: State)
    requires Budget(st)
    ensures IsAligned(Align(st, 2), 2) <==> !(|st.pool| % 2 == 1 && JustRunsOut(st))
  {
    hide Pad, Align, PutInt, Budget, NoSpaceForInsn, NoSpaceForConst, PendingLoad;
    PaddedIsAlignedIff(st);
    PadStops(st);
    var p := Pad(st, 2);
    EmptyPoolHasRoom(st, 8);
    EmptyPoolHasRoom(p, 8);
    if st.pool == [] {
      PadWithoutPool(st, 2);
    } else if NoSpaceForInsn(st, 8) {
      LowBudget(st);
    } else if |st.code| % 2 == 0 {
      LabelFlushesIff(st);
    } else {
      PadOneMore(st);
      var r := PutInt(st, MOV_R0_R0);
      PadStops(r);
      LabelFlushesIff(st);
      if NoSpaceForInsn(r, 8) { LowBudget(r); } else { LabelFlushesIff(r); }
    }
  }

  lemma EmptyPoolHasRoom(st: State, insn: nat)
    ensures st.pool == [] ==> !NoSpaceForInsn(st, insn) && !NoSpaceForConst(st, MAX_INSTRUCTION_SIZE, 8)
  {
  }

  lemma LowBudget(st: State)
    requires Budget(st) && NoSpaceForInsn(st, 8)
    ensures st.maxDistance < 16
  {
    hide PendingLoad;
  }

  function FirstLoad(): Event { PutLoad(LoadTemplate(AL, S1), FromValue(0), false) }

  lemma FirstLoadIsPut() returns (q: Run)
    ensures Reaches([FirstLoad()], q) && Budget(q.st)
    ensures |q.st.pool| == 1 && |q.st.code| == 1 && q.st.maxDistance == 2044
  {
    hide FromValue, Reaches;
    EmptyIsReached();
    CallWordsAreAllowed();
    q := Step(START, FirstLoad());
    StepReaches([], START, FirstLoad());
    assert [] + [FirstLoad()] == [FirstLoad()];
  }

  // One constant and 507 plain words: align(8) returns a label that is not a multiple of eight.
  lemma MisalignedLabelExample() returns (r: Run)
    ensures Reaches([FirstLoad()] + Nops(507), r) && Budget(r.st)
    ensures !IsAligned(Align(r.st, 2), 2)
  {
    hide Align, Reaches, FirstLoad, Nops, Budget, IsAligned;
    var q := FirstLoadIsPut();
    r := NopsReach([FirstLoad()], q, 507);
    EightAlignedIff(r.st);
  }

  // ---- Padding on the instruction list ------------------------------------------------------------

  function PadRun(r: Run, n: nat): (f: Run)
    requires Budget(r.st) && n > 0
    ensures f.st == Pad(r.st, n)
    decreases if r.st.pool != [] then 1 else 0, Missing(|r.st.code|, n)
  {
    hide Flush, PendingLoad, Missing;
    var s := RoomForInsn(r, 4 * n);
    if IsAligned(s.st, n) then s
    else
      PaddingGoesOn(r.st, n);
      PadRun(Emit(s, MOV_R0_R0), n)
  }

  // Padding asks for nothing but words that do nothing, and for fewer than two rounds of them.
  lemma {:induction false} PadIsAsked(evs: seq<Event>, r: Run, n: nat) returns (pads: seq<Event>, k: nat)
    requires Reaches(evs, r) && Budget(r.st) && n > 0
    ensures Reaches(evs + pads, PadRun(r, n))
    ensures Held(PadRun(r, n)) == Held(r).(ops := Held(r).ops + seq(k, (i: nat) => Plain(MOV_R0_R0)))
    ensures k <= Missing(|r.st.code|, n) + if r.st.pool != [] then n - 1 else 0
    decreases if r.st.pool != [] then 1 else 0, Missing(|r.st.code|, n)
  {
    CallWordsAreAllowed();
    hide Budget, Emit, RoomForInsn, IsPlain, Reaches, Held, Missing, FlushForInsn;
    var s := RoomForInsn(r, 4 * n);
    var test := TestAlignment(4 * n);
    StepReaches(evs, r, test);
    StepBuildsProgram(r, test);
    if IsAligned(s.st, n) {
      assert Held(r).ops + seq(0, (i: nat) => Plain(MOV_R0_R0)) == Held(r).ops;
      return [test], 0;
    }
    PaddingGoesOn(r.st, n);
    var e := Emit(s, MOV_R0_R0);
    EmitPuts(s, MOV_R0_R0);
    StepReaches(evs + [test], s, PutWord(MOV_R0_R0));
    StepBuildsProgram(s, PutWord(MOV_R0_R0));
    var more, j := PadIsAsked(evs + [test] + [PutWord(MOV_R0_R0)], e, n);
    assert evs + [test] + [PutWord(MOV_R0_R0)] + more == evs + ([test, PutWord(MOV_R0_R0)] + more);
    assert Held(r).ops + [Plain(MOV_R0_R0)] + seq(j, (i: nat) => Plain(MOV_R0_R0))
        == Held(r).ops + seq(j + 1, (i: nat) => Plain(MOV_R0_R0));
    NextWord(|s.st.code|, n);
    MissingIsLess(|s.st.code|, n);
    return [test, PutWord(MOV_R0_R0)] + more, j + 1;
  }

  lemma EmitPuts(r: Run, w: Word)
    requires Budget(r.st)
    ensures Emit(r, w).st == PutInt(r.st, w)
  {
  }

  lemma MissingIsLess(k: nat, n: nat)
    requires n > 0
    ensures Missing(k, n) < n
  {
  }

  lemma FlushedIsEvenIff(st: State)
    requires Budget(st) && st.pool != []
    ensures |Flush(st, true).code| % 2 == 0 <==> |st.pool| % 2 == 0
  {
    hide Flush, Budget, PoolStart;
    FlushedSize(st, true);
    PoolStartIsEven(st);
  }

  lemma FullPoolIsNotEmpty(st: State, insn: nat, constant: nat)
    requires NoSpaceForConst(st, insn, constant)
    ensures st.pool != []
  {
  }

  lemma PoolStartIsEven(st: State)
    ensures PoolStart(st, true) % 2 == 0
  {
    hide PadWords;
  }
}
