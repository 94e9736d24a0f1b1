// ARMAssembler::executableCopy: the last flush, the copy to its final address, and the pass
// over the recorded jumps that turns each into a direct branch or relocates its constant.
module ExecutableCode {
  import opened Options
  import opened ArmWords
  import opened ConstantPool
  import opened CodeLayout

  // ---- The last flush -------------------------------------------------------------------

  // Flush without a barrier, then pad to eight bytes.
  function Finish(r: Run): Run
    requires Budget(r.st)
  {
    var f := FlushRun(r, false);
    if |f.st.code| % 2 == 1 then Emit(f, BKPT) else f
  }

  lemma FinishKeepsGood(r: Run)
    requires Good(r) && MayFlush(r, false)
    ensures Good(Finish(r)) && Finish(r).st.pool == []
  {
    hide Flush, Emit;
    FlushKeepsGood(r, false);
    var f := FlushRun(r, false);
    assert f.st.pool == [] && Budget(f.st);
    EmitKeepsGood(f, BKPT);
    EmitWithoutPool(f, BKPT);
  }

  // The finished code is a multiple of eight bytes.  The breakpoint is put exactly if it was not
  // one after the last flush; else the flush is all.
  lemma FinishAligns(r: Run)
    requires Budget(r.st)
    ensures |Finish(r).st.code| % 2 == 0 && |Finish(r).trace| >= |r.trace|
    ensures |FlushRun(r, false).st.code| % 2 == 1 ==>
      && |Finish(r).st.code| == |FlushRun(r, false).st.code| + 1
      && |Finish(r).trace| == |r.trace| + 1 && Finish(r).trace[|r.trace|].op == Plain(BKPT)
    ensures |FlushRun(r, false).st.code| % 2 == 0 ==> Finish(r) == FlushRun(r, false)
  {
    hide Flush, PendingLoad;
  }

  lemma EmitWithoutPool(r: Run, w: Word)
    requires Budget(r.st) && r.st.pool == []
    ensures Emit(r, w).st.pool == [] && |Emit(r, w).st.code| == |r.st.code| + 1
  {
  }

  // ---- Relocating one jump ----------------------------------------------------------------

  // A jump can be followed to its constant, whose value is unset or an offset in the code.
  predicate CanFollow(code: seq<Word>, base: nat, at: nat)
  {
    && at < |code| && IsLiteralLoad(code[at])
    && 0 <= LiteralByte(code[at], at) < 4 * |code| && LiteralByte(code[at], at) % 4 == 0
    && var v := Value(code[LiteralByte(code[at], at) / 4]);
       v == INVALID_BRANCH_TARGET || base + v < WORD_LIMIT
  }

  // The distance a direct branch at word `at` needs to reach byte offset v.
  function BranchDistance(at: nat, v: nat): int { (v - (4 * at + 8)) / 4 }

  function RelocateJump(code: seq<Word>, base: nat, at: nat, usePool: bool): (r: seq<Word>)
    requires CanFollow(code, base, at)
    ensures |r| == |code|
  {
    var a := LiteralByte(code[at], at) / 4;
    var v := Value(code[a]);
    if v == INVALID_BRANCH_TARGET then code
    else if !usePool && BOFFSET_MIN <= BranchDistance(at, v) <= BOFFSET_MAX then
      code[at := DirectBranch(code[at].cond, BranchDistance(at, v))]
    else
      code[a := FromValue(base + v)]
  }

  // ---- The finished code -------------------------------------------------------------------

  // A literal load that reads word a, which holds c.
  predicate Loads(code: seq<Word>, e: Entry, a: nat, c: Word)
  {
    && e.at < |code| && a < |code|
    && SameLoad(code[e.at], e.op.w) && LiteralByte(code[e.at], e.at) == 4 * a
    && code[a] == c
  }

  // A jump that need not keep its constant, to a label that 24 signed bits of words reach.
  predicate GoesDirectly(e: Entry)
    requires e.op.Jump? && e.op.link.Some?
  {
    !e.op.usePool && -0x80_0000 <= e.op.link.value.at - (e.at + 2) <= 0x7f_ffff
  }

  // The jump goes to its label: directly where it can, and else by its relocated constant.
  predicate JumpDone(code: seq<Word>, base: nat, e: Entry, a: nat)
    requires e.op.Jump? && e.op.link.Some? && base + 4 * e.op.link.value.at < WORD_LIMIT
  {
    if GoesDirectly(e) then
      && e.at < |code| && e.op.w.rd == PC
      && IsBranch(code[e.at]) && code[e.at].cond == e.op.w.cond
      && BranchTarget(code[e.at], e.at) == e.op.link.value.at
    else Loads(code, e, a, FromValue(base + 4 * e.op.link.value.at))
  }

  // What the code holds for instruction e, once its jump has been seen to (done) or before.
  predicate Holds(code: seq<Word>, base: nat, e: Entry, done: bool)
  {
    && OpOk(e.op)
    && e.at < |code|
    && if e.op.Plain? then code[e.at] == e.op.w
       else
         && e.home.Slot?
         && if e.op.Jump? && e.op.link.Some? && done then
              base + 4 * e.op.link.value.at < WORD_LIMIT && JumpDone(code, base, e, e.home.a)
            else Loads(code, e, e.home.a, Constant(e.op))
  }

  lemma FlushedEntryHolds(st: State, base: nat, e: Entry)
    requires EntryOk(st, e) && st.pool == []
    ensures Holds(st.code, base, e, false)
  {
    hide FromValue;
  }

  // The label of a jump lies in the code, so its address fits a word when the code does.
  lemma LinkFits(r: Run, base: nat, e: Entry)
    requires LabelsOk(r) && LinksOk(r, e) && GapsOk(r.st, r.trace) && EntriesOk(r.st, r.trace)
    requires e.op.Jump? && e.op.link.Some?
    requires base + 4 * |r.st.code| < WORD_LIMIT
    ensures base + 4 * e.op.link.value.at < WORD_LIMIT && e.op.link.value.at < MAX_LABEL
  {
    hide EntryOk, Barrier;
    var l := e.op.link.value;
    assert LabelOk(r, l);
    if l.index < |r.trace| {
      assert EntryOk(r.st, r.trace[l.index]);
      AtIsInCode(r.st, r.trace[l.index]);
    }
    if l.index > 0 {
      assert GapOk(r.st, r.trace, l.index - 1);
    }
  }

  lemma AtIsInCode(st: State, e: Entry)
    requires EntryOk(st, e)
    ensures e.at < |st.code|
  {
  }

  lemma RelocatedJumpIsDone(code: seq<Word>, base: nat, e: Entry)
    requires Holds(code, base, e, false) && e.op.Jump?
    requires e.op.link.Some? ==> base + 4 * e.op.link.value.at < WORD_LIMIT
    requires e.home.Slot? && e.home.a != e.at
    ensures CanFollow(code, base, e.at)
    ensures Holds(RelocateJump(code, base, e.at, e.op.usePool), base, e, true)
  {
    var a := e.home.a;
    assert LiteralByte(code[e.at], e.at) / 4 == a;
    match e.op.link
    case None =>
    case Some(l) =>
      assert Value(code[a]) == 4 * l.at;
      var diff := BranchDistance(e.at, 4 * l.at);
      assert diff == l.at - e.at - 2;
      if !e.op.usePool && BOFFSET_MIN <= diff <= BOFFSET_MAX {
        DirectBranchReaches(e.op.w.cond, diff, e.at);
      }
  }

  // ---- Every jump in turn --------------------------------------------------------------------

  // A step of the relocation leaves everything but the jump's word and its constant alone.
  lemma RelocationWrites(code: seq<Word>, base: nat, e: Entry, i: nat)
    requires Holds(code, base, e, false) && !e.op.Plain? && CanFollow(code, base, e.at)
    requires i < |code| && i != e.at && i != e.home.a
    ensures RelocateJump(code, base, e.at, false)[i] == code[i]
    ensures RelocateJump(code, base, e.at, true)[i] == code[i]
  {
    hide FromValue, Value, DirectBranch;
    assert LiteralByte(code[e.at], e.at) / 4 == e.home.a;
  }

  lemma SameWordsHold(c: seq<Word>, d: seq<Word>, base: nat, f: Entry, done: bool)
    requires Holds(c, base, f, done) && |d| == |c|
    requires d[f.at] == c[f.at] && (f.home.Slot? && f.home.a < |c| ==> d[f.home.a] == c[f.home.a])
    ensures Holds(d, base, f, done)
  {
    hide FromValue, Value, LiteralByte, BranchTarget, SameLoad;
  }

  lemma RelocationKeepsOthers(code: seq<Word>, base: nat, e: Entry, f: Entry, done: bool)
    requires Holds(code, base, e, false) && e.op.Jump? && CanFollow(code, base, e.at)
    requires Holds(code, base, f, done) && (f.op.Plain? ==> f.home.NoHome?)
    requires Clear(e, f) && Clear(f, e) && e.at != f.at && e.home != f.home
    ensures Holds(RelocateJump(code, base, e.at, e.op.usePool), base, f, done)
  {
    hide RelocateJump, CanFollow, Loads, JumpDone, FromValue;
    var d := RelocateJump(code, base, e.at, e.op.usePool);
    RelocationWrites(code, base, e, f.at);
    if f.home.Slot? && f.home.a < |code| {
      RelocationWrites(code, base, e, f.home.a);
    }
    SameWordsHold(code, d, base, f, done);
  }

  // The code after the first n jumps have been relocated.
  predicate Progress(r: Run, base: nat, n: nat, code: seq<Word>)
    requires n <= |r.jumps|
  {
    && |code| == |r.st.code|
    && (forall k :: 0 <= k < |r.trace| ==> Holds(code, base, r.trace[k], k in r.jumps[..n]))
    && (forall k :: 0 <= k < |r.trace| ==> BarrierKept(r.st.code, code, r.trace[k]))
  }

  predicate BarrierKept(before: seq<Word>, code: seq<Word>, e: Entry)
  {
    e.gap.Guarded? && e.at + 1 < |before| && e.at + 1 < |code| ==> code[e.at + 1] == before[e.at + 1]
  }

  predicate Relocatable(r: Run, base: nat)
  {
    Good(r) && r.st.pool == [] && base + 4 * |r.st.code| < WORD_LIMIT
  }

  lemma NothingDoneYet(r: Run, base: nat)
    requires Relocatable(r, base)
    ensures Progress(r, base, 0, r.st.code)
  {
    hide Budget, GapsOk, AllApart, AllClear, LabelsOk, EntryOk, Holds, JumpsOk;
    forall k | 0 <= k < |r.trace| ensures Holds(r.st.code, base, r.trace[k], k in r.jumps[..0]) {
      assert EntryOk(r.st, r.trace[k]);
      FlushedEntryHolds(r.st, base, r.trace[k]);
    }
  }

  lemma PlainHasNoHome(st: State, e: Entry)
    requires EntryOk(st, e) && e.op.Plain?
    ensures e.home.NoHome?
  {
  }

  lemma NextJump(r: Run, base: nat, n: nat, code: seq<Word>)
    requires Relocatable(r, base) && n < |r.jumps| && Progress(r, base, n, code)
    ensures var e := r.trace[r.jumps[n]];
      && e.op.Jump? && Holds(code, base, e, false) && e.home.Slot? && e.home.a != e.at
      && (e.op.link.Some? ==> base + 4 * e.op.link.value.at < WORD_LIMIT)
      && CanFollow(code, base, e.at)
  {
    hide Budget, EntriesOk, GapsOk, AllApart, LabelsOk, CanFollow, Holds;
    var k := r.jumps[n];
    var e := r.trace[k];
    assert k !in r.jumps[..n];
    assert Holds(code, base, e, false);
    HeldLoadHasSlot(code, base, e);
    assert Clear(e, e);
    if e.op.link.Some? {
      assert LinksOk(r, e) by { LinkOfEntry(r, k); }
      LinkFits(r, base, e);
    }
    RelocatedJumpIsDone(code, base, e);
  }

  lemma LinkOfEntry(r: Run, k: nat)
    requires LabelsOk(r) && k < |r.trace|
    ensures LinksOk(r, r.trace[k])
  {
  }

  lemma HeldLoadHasSlot(code: seq<Word>, base: nat, e: Entry)
    requires Holds(code, base, e, false) && !e.op.Plain?
    ensures e.home.Slot?
  {
  }

  lemma RelocationKeepsEntry(r: Run, base: nat, n: nat, code: seq<Word>, k: nat, done: bool)
    requires Relocatable(r, base) && n < |r.jumps| && k < |r.trace| && k != r.jumps[n]
    requires r.trace[r.jumps[n]].op.Jump? && CanFollow(code, base, r.trace[r.jumps[n]].at)
    requires Holds(code, base, r.trace[r.jumps[n]], false) && Holds(code, base, r.trace[k], done)
    ensures var e := r.trace[r.jumps[n]];
      Holds(RelocateJump(code, base, e.at, e.op.usePool), base, r.trace[k], done)
  {
    var j := r.jumps[n];
    JumpsShareNothing(r, n, k);
    hide Budget, LabelsOk, CanFollow, Holds, RelocateJump, EntryOk, GapsOk, JumpsOk;
    assert Clear(r.trace[j], r.trace[k]) && Clear(r.trace[k], r.trace[j]) && EntryOk(r.st, r.trace[k]);
    assert j < k ==> Apart(r.trace[j], r.trace[k]);
    assert k < j ==> Apart(r.trace[k], r.trace[j]);
    if r.trace[k].op.Plain? { PlainHasNoHome(r.st, r.trace[k]); }
    RelocationKeepsOthers(code, base, r.trace[j], r.trace[k], done);
  }

  // The barriers stay: no jump stands on one, and no constant overlaps one.
  lemma RelocationKeepsBarrier(r: Run, base: nat, j: nat, code: seq<Word>, k: nat)
    requires Relocatable(r, base) && j < |r.trace| && k < |r.trace| && |code| == |r.st.code|
    requires Holds(code, base, r.trace[j], false) && r.trace[j].op.Jump? && CanFollow(code, base, r.trace[j].at)
    requires BarrierKept(r.st.code, code, r.trace[k])
    ensures var e := r.trace[j];
      BarrierKept(r.st.code, RelocateJump(code, base, e.at, e.op.usePool), r.trace[k])
  {
    hide Budget, LabelsOk, EntriesOk, JumpsOk, CanFollow, Holds, RelocateJump, Barrier;
    assert GapOk(r.st, r.trace, k) && Clear(r.trace[j], r.trace[k]);
    HeldLoadHasSlot(code, base, r.trace[j]);
    if r.trace[k].gap.Guarded? && r.trace[k].at + 1 < |code| {
      assert j < k ==> Apart(r.trace[j], r.trace[k]);
      assert k + 1 < j ==> Apart(r.trace[k + 1], r.trace[j]);
      RelocationWrites(code, base, r.trace[j], r.trace[k].at + 1);
    }
  }

  lemma RoundKeepsBarriers(r: Run, base: nat, n: nat, code: seq<Word>, d: seq<Word>)
    requires Relocatable(r, base) && n < |r.jumps| && Progress(r, base, n, code)
    requires r.jumps[n] < |r.trace| && r.trace[r.jumps[n]].op.Jump? && CanFollow(code, base, r.trace[r.jumps[n]].at)
    requires Holds(code, base, r.trace[r.jumps[n]], false)
    requires d == RelocateJump(code, base, r.trace[r.jumps[n]].at, r.trace[r.jumps[n]].op.usePool)
    ensures forall k :: 0 <= k < |r.trace| ==> BarrierKept(r.st.code, d, r.trace[k])
  {
    hide Relocatable, CanFollow, Holds, RelocateJump, BarrierKept;
    forall k | 0 <= k < |r.trace| ensures BarrierKept(r.st.code, d, r.trace[k]) {
      RelocationKeepsBarrier(r, base, r.jumps[n], code, k);
    }
  }

  lemma RoundKeepsEntries(r: Run, base: nat, n: nat, code: seq<Word>, d: seq<Word>)
    requires Relocatable(r, base) && n < |r.jumps| && Progress(r, base, n, code)
    requires r.jumps[n] < |r.trace| && r.trace[r.jumps[n]].op.Jump? && CanFollow(code, base, r.trace[r.jumps[n]].at)
    requires Holds(code, base, r.trace[r.jumps[n]], false)
    requires d == RelocateJump(code, base, r.trace[r.jumps[n]].at, r.trace[r.jumps[n]].op.usePool)
    requires Holds(d, base, r.trace[r.jumps[n]], true)
    ensures forall k :: 0 <= k < |r.trace| ==> Holds(d, base, r.trace[k], k in r.jumps[..n + 1])
  {
    hide Relocatable, CanFollow, Holds, RelocateJump;
    assert r.jumps[..n + 1] == r.jumps[..n] + [r.jumps[n]];
    forall k | 0 <= k < |r.trace| ensures Holds(d, base, r.trace[k], k in r.jumps[..n + 1]) {
      if k != r.jumps[n] {
        RelocationKeepsEntry(r, base, n, code, k, k in r.jumps[..n]);
      }
    }
  }

  // One round of the loop of executableCopy: the n-th recorded jump.
  function RelocateNext(r: Run, base: nat, n: nat, code: seq<Word>): (d: seq<Word>)
    requires Relocatable(r, base) && n < |r.jumps| && Progress(r, base, n, code)
    ensures Progress(r, base, n + 1, d)
  {
    hide Relocatable, CanFollow, Holds, RelocateJump, BarrierKept;
    var e := r.trace[r.jumps[n]];
    NextJump(r, base, n, code);
    var d := RelocateJump(code, base, e.at, e.op.usePool);
    RelocatedJumpIsDone(code, base, e);
    RoundKeepsEntries(r, base, n, code, d);
    RoundKeepsBarriers(r, base, n, code, d);
    d
  }

  // The loop: the first n jumps, in the order they were recorded.
  function Relocated(r: Run, base: nat, n: nat): (code: seq<Word>)
    requires Relocatable(r, base) && n <= |r.jumps|
    ensures Progress(r, base, n, code)
  {
    hide Progress, Relocatable, CanFollow;
    if n == 0 then
      NothingDoneYet(r, base);
      r.st.code
    else
      RelocateNext(r, base, n - 1, Relocated(r, base, n - 1))
  }

  lemma RelocatedStep(r: Run, base: nat, n: nat)
    requires Relocatable(r, base) && n < |r.jumps| && r.jumps[n] < |r.trace| && r.trace[r.jumps[n]].op.Jump?
    ensures var e := r.trace[r.jumps[n]]; var code := Relocated(r, base, n);
      CanFollow(code, base, e.at) && Relocated(r, base, n + 1) == RelocateJump(code, base, e.at, e.op.usePool)
  {
    var code := Relocated(r, base, n);
    NextJump(r, base, n, code);
    hide Relocatable, Progress, CanFollow, RelocateJump;
    assert Relocated(r, base, n + 1) == RelocateNext(r, base, n, code);
  }

  // ---- The whole copy ---------------------------------------------------------------------------

  // The finished code, at address base, holds the instructions of the layout.
  predicate Implements(code: seq<Word>, base: nat, trace: seq<Entry>)
  {
    && trace != [] && trace[0].at == 0
    && (forall k :: 0 <= k < |trace| ==> Holds(code, base, trace[k], true))
    && (forall k :: 0 <= k < |trace| ==> GapDone(code, trace, k))
    && (forall j, k :: 0 <= j < k < |trace| ==> trace[j].at < trace[k].at)
  }

  predicate GapDone(code: seq<Word>, trace: seq<Entry>, k: nat)
    requires k < |trace|
  {
    var from := trace[k].at + 1;
    var to := At(trace, k + 1, |code|);
    match trace[k].gap
    case NoGap => from == to
    case Guarded => from < to <= |code| && 1 <= to - from - 1 <= 0x1000 && code[from] == Barrier(to - from - 1)
    case Unguarded => from <= to
  }

  lemma DoneIsForJumps(code: seq<Word>, base: nat, e: Entry)
    requires Holds(code, base, e, false) && !e.op.Jump?
    ensures Holds(code, base, e, true)
  {
  }

  lemma AllJumpsDone(r: Run, base: nat, code: seq<Word>, k: nat)
    requires Progress(r, base, |r.jumps|, code) && JumpsOk(r) && k < |r.trace|
    ensures Holds(code, base, r.trace[k], true)
  {
    hide Holds;
    assert r.jumps[..|r.jumps|] == r.jumps;
    assert Holds(code, base, r.trace[k], k in r.jumps);
    if k !in r.jumps { DoneIsForJumps(code, base, r.trace[k]); }
  }

  lemma GapsStay(r: Run, base: nat, code: seq<Word>, k: nat)
    requires Progress(r, base, |r.jumps|, code) && GapsOk(r.st, r.trace) && k < |r.trace|
    ensures GapDone(code, r.trace, k)
  {
    hide Holds, Barrier;
    assert GapOk(r.st, r.trace, k) && BarrierKept(r.st.code, code, r.trace[k]);
  }

  lemma InOrder(trace: seq<Entry>)
    requires AllApart(trace)
    ensures forall j, k :: 0 <= j < k < |trace| ==> trace[j].at < trace[k].at
  {
    forall j, k | 0 <= j < k < |trace| ensures trace[j].at < trace[k].at {
      assert Apart(trace[j], trace[k]);
    }
  }

  // Once all jumps have been seen to, the code implements the program.
  lemma CopyImplements(r: Run, base: nat)
    requires Relocatable(r, base) && r.trace != []
    ensures Implements(Relocated(r, base, |r.jumps|), base, r.trace)
  {
    var code := Relocated(r, base, |r.jumps|);
    hide Budget, EntriesOk, LabelsOk, Holds, Barrier, Relocated, GapsOk, AllApart, AllClear, JumpsOk, Progress, GapDone;
    InOrder(r.trace);
    forall k | 0 <= k < |r.trace| ensures Holds(code, base, r.trace[k], true) {
      AllJumpsDone(r, base, code, k);
    }
    forall k | 0 <= k < |r.trace| ensures GapDone(code, r.trace, k) {
      GapsStay(r, base, code, k);
    }
  }

  // What stands in the finished code for a jump.  One that is linked and need not keep its
  // constant is a direct branch if its label is in range.  Any other is still the load of its
  // slot, which holds the address of the label, or the mark of a jump that was never linked.
  lemma JumpsAreFinished(code: seq<Word>, base: nat, trace: seq<Entry>, k: nat)
    requires Implements(code, base, trace) && k < |trace| && trace[k].op.Jump?
    ensures var e := trace[k]; var op := e.op;
      && e.at < |code| && code[e.at].cond == op.w.cond
      && if op.link.Some? && !op.usePool && -0x80_0000 <= op.link.value.at - (e.at + 2) <= 0x7f_ffff then
           IsBranch(code[e.at]) && BranchTarget(code[e.at], e.at) == op.link.value.at
         else
           && IsLiteralLoad(code[e.at]) && code[e.at].rd == op.w.rd
           && e.home.Slot? && e.home.a < |code| && LiteralByte(code[e.at], e.at) == 4 * e.home.a
           && Value(code[e.home.a]) == if op.link.Some? then base + 4 * op.link.value.at else INVALID_BRANCH_TARGET
  {
    hide FromValue, LiteralByte, BranchTarget, GapDone;
    assert Holds(code, base, trace[k], true);
  }

  // executableCopy to address base, for a run that may end here.
  function ExecutableCopy(r: Run, base: nat): seq<Word>
    requires Good(r) && MayFlush(r, false) && base + 4 * |Finish(r).st.code| < WORD_LIMIT
  {
    FinishKeepsGood(r);
    Relocated(Finish(r), base, |Finish(r).jumps|)
  }
}
