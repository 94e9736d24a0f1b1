// What the finished code does when it is executed, against what the instruction list
// means by itself.  Everything the pools add (barriers, padding, constants, PC-relative
// offsets, direct branches) is shown to be invisible.
module ArmMachine {
  import opened Options
  import opened ArmWords
  import opened ConstantPool
  import opened CodeLayout
  import opened ExecutableCode

  // The outcome of one instruction: go on behind it, go to an address, or fault on a load
  // from outside the code.
  datatype Outcome<S> = Next(s: S) | Goto(s: S, target: int) | Fault

  // An instruction set over machine states S, up to what this model needs to know: which
  // conditions pass, how a loaded value is stored, and what a plain word does at an address.
  datatype Isa<!S> = Isa(
    passes: (U4, S) -> bool,
    load: (S, U4, U32) -> S,
    plain: (Word, int, S) -> Outcome<S>)

  ghost predicate IsIsa<S(!new)>(isa: Isa<S>) { forall s :: isa.passes(AL, s) }

  function Loaded<S>(isa: Isa<S>, cond: U4, rd: U4, v: U32, s: S): Outcome<S>
  {
    if !isa.passes(cond, s) then Next(s)
    else if rd == PC then Goto(s, v)
    else Next(isa.load(s, rd, v))
  }

  // ---- The machine -----------------------------------------------------------------------

  // The instruction at word i of code that lies at address base.
  function Execute<S>(isa: Isa<S>, code: seq<Word>, base: nat, i: nat, s: S): Outcome<S>
    requires i < |code|
  {
    var w := code[i];
    if IsLiteralLoad(w) then
      var b := LiteralByte(w, i);
      if !isa.passes(w.cond, s) then Next(s)
      else if 0 <= b < 4 * |code| && b % 4 == 0 then Loaded(isa, w.cond, w.rd, Value(code[b / 4]), s)
      else Fault
    else if IsBranch(w) then
      if isa.passes(w.cond, s) then Goto(s, base + 4 * BranchTarget(w, i)) else Next(s)
    else isa.plain(w, base + 4 * i, s)
  }

  datatype Config<S> = Config(pc: int, s: S)

  predicate InCode(code: seq<Word>, base: nat, pc: int)
  {
    base <= pc < base + 4 * |code| && (pc - base) % 4 == 0
  }

  // n steps; the machine halts when it leaves the code or faults.
  function Steps<S>(isa: Isa<S>, code: seq<Word>, base: nat, c: Config<S>, n: nat): Config<S>
    decreases n
  {
    if n == 0 || !InCode(code, base, c.pc) then c
    else
      match Execute(isa, code, base, (c.pc - base) / 4, c.s)
      case Next(s) => Steps(isa, code, base, Config(c.pc + 4, s), n - 1)
      case Goto(s, target) => Steps(isa, code, base, Config(target, s), n - 1)
      case Fault => c
  }

  lemma {:induction false} StepsCompose<S>(isa: Isa<S>, code: seq<Word>, base: nat, c: Config<S>, m: nat, n: nat)
    ensures Steps(isa, code, base, c, m + n) == Steps(isa, code, base, Steps(isa, code, base, c, m), n)
    decreases m
  {
    hide Execute;
    if m != 0 && InCode(code, base, c.pc) {
      match Execute(isa, code, base, (c.pc - base) / 4, c.s)
      case Next(s) => StepsCompose(isa, code, base, Config(c.pc + 4, s), m - 1, n);
      case Goto(s, target) => StepsCompose(isa, code, base, Config(target, s), m - 1, n);
      case Fault =>
    }
  }

  // ---- The instruction list -----------------------------------------------------------------

  // Where an abstract run is: before instruction k, or gone to an address that is none.
  datatype Place<S> = Before(k: nat, s: S) | Away(target: int, s: S) | Faulted

  // A linked jump needs an address that fits a word.
  predicate Fits(base: nat, e: Entry)
  {
    OpOk(e.op) && (e.op.Jump? && e.op.link.Some? ==> base + 4 * e.op.link.value.at < WORD_LIMIT)
  }

  // Instruction e on its own: constants are immediate, jumps go to their labels.
  function Meaning<S>(isa: Isa<S>, base: nat, e: Entry, s: S): Outcome<S>
    requires Fits(base, e)
  {
    match e.op
    case Plain(w) => isa.plain(w, base + 4 * e.at, s)
    case Load(w, c, _) => Loaded(isa, w.cond, w.rd, Value(c), s)
    case Jump(w, None, _) => Loaded(isa, w.cond, w.rd, INVALID_BRANCH_TARGET, s)
    case Jump(w, Some(l), _) => Loaded(isa, w.cond, w.rd, base + 4 * l.at, s)
  }

  // The address target stands for instruction k.
  predicate Names(trace: seq<Entry>, end: nat, base: nat, target: int, k: nat)
  {
    base <= target && (target - base) % 4 == 0 && Arrives(trace, end, (target - base) / 4, k)
  }

  // A passing jump into pc that has been linked.
  predicate TakesLink<S>(isa: Isa<S>, op: Op, s: S)
  {
    op.Jump? && op.link.Some? && op.w.rd == PC && isa.passes(op.w.cond, s)
  }

  // A linked jump goes to the instruction its label was taken in front of, by number.  Only an
  // address that comes from elsewhere, as bx finds it in a register, has to be looked up.
  ghost predicate Follows<S>(isa: Isa<S>, trace: seq<Entry>, end: nat, base: nat, k: nat, s: S, p: Place<S>)
    requires k < |trace| && Fits(base, trace[k])
  {
    if TakesLink(isa, trace[k].op, s) then p == Before(trace[k].op.link.value.index, s)
    else match Meaning(isa, base, trace[k], s)
    case Next(t) => p == Before(k + 1, t)
    case Goto(t, target) =>
      || (p.Before? && p.s == t && Names(trace, end, base, target, p.k))
      || (p == Away(target, t) && forall j :: !Names(trace, end, base, target, j))
    case Fault => p == Faulted
  }

  // The offset of every linked label stands for the instruction the label was taken in front of.
  predicate LinksArrive(trace: seq<Entry>, end: nat)
  {
    forall k :: 0 <= k < |trace| && trace[k].op.Jump? && trace[k].op.link.Some? ==>
      Arrives(trace, end, trace[k].op.link.value.at, trace[k].op.link.value.index)
  }

  lemma LinksAreNamed(r: Run)
    requires LabelsOk(r)
    ensures LinksArrive(r.trace, |r.st.code|)
  {
    hide Arrives;
    forall k | 0 <= k < |r.trace| && r.trace[k].op.Jump? && r.trace[k].op.link.Some?
      ensures Arrives(r.trace, |r.st.code|, r.trace[k].op.link.value.at, r.trace[k].op.link.value.index)
    {
      assert LinksOk(r, r.trace[k]);
      assert LabelOk(r, r.trace[k].op.link.value);
    }
  }

  // So the address that a linked jump loads, into pc or into the register of a call, stands for
  // that instruction and for no other.
  lemma LinkedAddressNames(code: seq<Word>, base: nat, trace: seq<Entry>, k: nat, j: nat)
    requires Implements(code, base, trace) && LinksArrive(trace, |code|)
    requires k < |trace| && trace[k].op.Jump? && trace[k].op.link.Some?
    ensures var l := trace[k].op.link.value;
      Names(trace, |code|, base, base + 4 * l.at, j) <==> j == l.index
  {
    hide Implements, Arrives;
    var l := trace[k].op.link.value;
    assert (base + 4 * l.at - base) / 4 == l.at;
    if Names(trace, |code|, base, base + 4 * l.at, j) {
      NamesIsUnique(code, base, trace, base + 4 * l.at, j, l.index);
    }
  }

  // ---- One instruction ------------------------------------------------------------------------

  // The machine is where the list is: at the instruction or at the barrier before it.
  ghost predicate Matches<S>(trace: seq<Entry>, end: nat, base: nat, p: Place<S>, c: Config<S>)
  {
    match p
    case Before(k, s) => c.s == s && Names(trace, end, base, c.pc, k)
    case Away(target, s) => c == Config(target, s)
    case Faulted => true
  }

  // The word for instruction e does what e means.
  lemma ExecuteIsMeaning<S>(isa: Isa<S>, code: seq<Word>, base: nat, e: Entry, s: S)
    requires Holds(code, base, e, true)
    ensures Fits(base, e)
    ensures Execute(isa, code, base, e.at, s) == Meaning(isa, base, e, s)
  {
    hide FromValue, BranchTarget;
    if !e.op.Plain? && LiteralByte(code[e.at], e.at) == 4 * e.home.a {
      assert LiteralByte(code[e.at], e.at) / 4 == e.home.a;
    }
  }

  // An instruction with an unguarded pool behind it is never passed: it is an
  // unconditional jump.
  ghost predicate Sealed<S(!new)>(isa: Isa<S>, base: nat, trace: seq<Entry>)
  {
    forall k, s :: 0 <= k < |trace| && trace[k].gap.Unguarded? && Fits(base, trace[k]) ==>
      !Meaning(isa, base, trace[k], s).Next?
  }

  lemma PositionsGrow(code: seq<Word>, base: nat, trace: seq<Entry>, j: nat, k: nat)
    requires Implements(code, base, trace) && j < k <= |trace|
    ensures trace[j].at < At(trace, k, |code|)
  {
    hide Holds, Barrier;
    assert GapDone(code, trace, k - 1);
  }

  lemma EntryIsInCode(code: seq<Word>, base: nat, e: Entry)
    requires Holds(code, base, e, true)
    ensures e.at < |code| && Fits(base, e)
  {
  }

  // An address stands for one instruction at most.
  lemma NamesIsUnique(code: seq<Word>, base: nat, trace: seq<Entry>, target: int, j: nat, k: nat)
    requires Implements(code, base, trace)
    requires Names(trace, |code|, base, target, j) && Names(trace, |code|, base, target, k)
    ensures j == k
  {
    hide Holds, Barrier, GapDone;
    if j < k {
      NamesApart(code, base, trace, target, j, k);
    } else if k < j {
      NamesApart(code, base, trace, target, k, j);
    }
  }

  lemma NamesApart(code: seq<Word>, base: nat, trace: seq<Entry>, target: int, j: nat, k: nat)
    requires Implements(code, base, trace) && j < k
    requires Names(trace, |code|, base, target, j)
    ensures !Names(trace, |code|, base, target, k)
  {
    hide Holds, Barrier;
    if k <= |trace| {
      var i := (target - base) / 4;
      PositionsGrow(code, base, trace, j, k);
      assert GapDone(code, trace, k - 1);
      if j > 0 { assert GapDone(code, trace, j - 1); }
      if j < k - 1 { assert trace[j].at < trace[k - 1].at; }
      assert i <= trace[j].at;
    }
  }

  // At the instruction itself: one step of the machine is one step of the list.
  lemma StepAtInstruction<S(!new)>(isa: Isa<S>, code: seq<Word>, base: nat, trace: seq<Entry>, k: nat, s: S, p: Place<S>)
    requires Implements(code, base, trace) && LinksArrive(trace, |code|) && Sealed(isa, base, trace)
    requires k < |trace| && Holds(code, base, trace[k], true) && Fits(base, trace[k]) && trace[k].at < |code|
    requires Follows(isa, trace, |code|, base, k, s, p)
    ensures Matches(trace, |code|, base, p, Steps(isa, code, base, Config(base + 4 * trace[k].at, s), 1))
  {
    hide Holds, Fits, Barrier, Names, Meaning, Execute;
    var e := trace[k];
    ExecuteIsMeaning(isa, code, base, e, s);
    var c := Config(base + 4 * e.at, s);
    assert (c.pc - base) / 4 == e.at;
    assert GapDone(code, trace, k);
    match Execute(isa, code, base, e.at, s)
    case Next(t) =>
      PassingJumpGoes(isa, base, e, s);
      NextIsNamed(code, base, trace, k);
    case Goto(t, target) =>
      if TakesLink(isa, e.op, s) {
        PassingJumpGoes(isa, base, e, s);
        LinkedAddressNames(code, base, trace, k, e.op.link.value.index);
      }
    case Fault =>
      PassingJumpGoes(isa, base, e, s);
  }

  lemma PassingJumpGoes<S>(isa: Isa<S>, base: nat, e: Entry, s: S)
    requires Fits(base, e)
    ensures TakesLink(isa, e.op, s) ==> Meaning(isa, base, e, s) == Goto(s, base + 4 * e.op.link.value.at)
  {
  }

  lemma NextIsNamed(code: seq<Word>, base: nat, trace: seq<Entry>, k: nat)
    requires k < |trace| && GapDone(code, trace, k) && !trace[k].gap.Unguarded?
    ensures Names(trace, |code|, base, base + 4 * trace[k].at + 4, k + 1)
  {
    hide Barrier;
    assert (base + 4 * trace[k].at + 4 - base) / 4 == trace[k].at + 1;
  }

  // At the barrier before it: one step over the pool comes to the instruction.
  lemma StepOverPool<S(!new)>(isa: Isa<S>, code: seq<Word>, base: nat, trace: seq<Entry>, k: nat, s: S)
    requires IsIsa(isa) && 0 < k <= |trace| && GapDone(code, trace, k - 1) && trace[k - 1].gap.Guarded?
    ensures Steps(isa, code, base, Config(base + 4 * (trace[k - 1].at + 1), s), 1)
         == Config(base + 4 * At(trace, k, |code|), s)
  {
    var i := trace[k - 1].at + 1;
    var c := Config(base + 4 * i, s);
    assert (c.pc - base) / 4 == i;
    BarrierSkips(At(trace, k, |code|) - i - 1, i);
    hide Barrier, IsLiteralLoad, IsBranch, BranchTarget;
    assert Execute(isa, code, base, i, s) == Goto(s, base + 4 * At(trace, k, |code|)) by {
      BranchIsNoLoad(code[i]);
    }
  }

  lemma BranchIsNoLoad(w: Word)
    requires IsBranch(w)
    ensures !IsLiteralLoad(w)
  {
  }

  // ---- Runs -------------------------------------------------------------------------------------

  // One or two steps of the machine for one of the list.
  lemma OneStepAgrees<S(!new)>(
      isa: Isa<S>, code: seq<Word>, base: nat, trace: seq<Entry>, k: nat, s: S, p: Place<S>, c: Config<S>)
    returns (m: nat)
    requires IsIsa(isa) && Implements(code, base, trace) && LinksArrive(trace, |code|) && Sealed(isa, base, trace)
    requires k < |trace| && Fits(base, trace[k]) && Follows(isa, trace, |code|, base, k, s, p)
    requires Matches(trace, |code|, base, Before(k, s), c)
    ensures 1 <= m <= 2 && Matches(trace, |code|, base, p, Steps(isa, code, base, c, m))
  {
    hide Holds, Fits, Follows, GapDone, Steps, Sealed, LinksArrive;
    assert Holds(code, base, trace[k], true);
    EntryIsInCode(code, base, trace[k]);
    StepAtInstruction(isa, code, base, trace, k, s, p);
    var at := Config(base + 4 * trace[k].at, s);
    if c == at { return 1; }
    assert k > 0 && trace[k - 1].gap.Guarded? && GapDone(code, trace, k - 1);
    assert c == Config(base + 4 * (trace[k - 1].at + 1), s);
    StepOverPool(isa, code, base, trace, k, s);
    StepsCompose(isa, code, base, c, 1, 1);
    return 2;
  }

  // A run of the instruction list: each place follows from the one before.
  ghost predicate IsRun<S>(isa: Isa<S>, trace: seq<Entry>, end: nat, base: nat, path: seq<Place<S>>)
  {
    && |path| > 0 && path[0].Before? && path[0].k == 0
    && forall i :: 0 < i < |path| ==> RunStep(isa, trace, end, base, path[i - 1], path[i])
  }

  ghost predicate RunStep<S>(isa: Isa<S>, trace: seq<Entry>, end: nat, base: nat, p: Place<S>, q: Place<S>)
  {
    && p.Before? && p.k < |trace| && Fits(base, trace[p.k])
    && Follows(isa, trace, end, base, p.k, p.s, q)
  }

  // Whatever the list does from its first instruction, in any number of steps, the code
  // does from its first word, in at most twice as many.
  lemma {:induction false} EveryRunAgrees<S(!new)>(
      isa: Isa<S>, code: seq<Word>, base: nat, trace: seq<Entry>, path: seq<Place<S>>)
    returns (m: nat)
    requires IsIsa(isa) && Implements(code, base, trace) && LinksArrive(trace, |code|) && Sealed(isa, base, trace)
    requires IsRun(isa, trace, |code|, base, path)
    ensures m <= 2 * (|path| - 1)
    ensures Matches(trace, |code|, base, path[|path| - 1], Steps(isa, code, base, Config(base, path[0].s), m))
    decreases |path|
  {
    hide Implements, Sealed, Follows, Fits, LinksArrive;
    var n := |path| - 1;
    if n == 0 {
      FirstIsNamed(code, base, trace);
      return 0;
    }
    assert RunStep(isa, trace, |code|, base, path[n - 1], path[n]);
    assert IsRun(isa, trace, |code|, base, path[..n]) by {
      forall i | 0 < i < n ensures RunStep(isa, trace, |code|, base, path[..n][i - 1], path[..n][i]) {
        assert RunStep(isa, trace, |code|, base, path[i - 1], path[i]);
      }
    }
    var m0 := EveryRunAgrees(isa, code, base, trace, path[..n]);
    var c := Steps(isa, code, base, Config(base, path[0].s), m0);
    var m1 := OneStepAgrees(isa, code, base, trace, path[n - 1].k, path[n - 1].s, path[n], c);
    StepsCompose(isa, code, base, Config(base, path[0].s), m0, m1);
    return m0 + m1;
  }

  lemma FirstIsNamed(code: seq<Word>, base: nat, trace: seq<Entry>)
    requires Implements(code, base, trace)
    ensures Names(trace, |code|, base, base, 0)
  {
    hide Holds, GapDone;
  }

  // The list has one run only, so the machine is not just able to agree with it.
  lemma NextPlaceIsUnique<S>(
      isa: Isa<S>, code: seq<Word>, base: nat, trace: seq<Entry>, k: nat, s: S, p: Place<S>, q: Place<S>)
    requires Implements(code, base, trace) && k < |trace| && Fits(base, trace[k])
    requires Follows(isa, trace, |code|, base, k, s, p) && Follows(isa, trace, |code|, base, k, s, q)
    ensures p == q
  {
    hide Implements, Fits, Names, Meaning;
    match Meaning(isa, base, trace[k], s)
    case Next(_) =>
    case Fault =>
    case Goto(t, target) =>
      if !TakesLink(isa, trace[k].op, s) && p.Before? && q.Before? { NamesIsUnique(code, base, trace, target, p.k, q.k); }
  }

  // A jump emitted under a condition and linked goes to its label exactly if the condition
  // passes, and to the next instruction otherwise.
  lemma ConditionalJumpGoes<S>(
      isa: Isa<S>, trace: seq<Entry>, end: nat, base: nat, k: nat, s: S, p: Place<S>, cond: U4, l: Label, usePool: bool)
    requires k < |trace| && Fits(base, trace[k]) && Follows(isa, trace, end, base, k, s, p)
    requires trace[k].op == Jump(LoadTemplate(cond, PC), Some(l), usePool)
    ensures p == if isa.passes(cond, s) then Before(l.index, s) else Before(k + 1, s)
  {
  }

  // A load, of a constant or of the address of a label, gives its register that value exactly
  // if its condition passes.
  lemma ConditionalLoadGives<S>(
      isa: Isa<S>, trace: seq<Entry>, end: nat, base: nat, k: nat, s: S, p: Place<S>, cond: U4, rd: U4)
    requires k < |trace| && Fits(base, trace[k]) && Follows(isa, trace, end, base, k, s, p) && rd != PC
    requires !trace[k].op.Plain? && trace[k].op.w == LoadTemplate(cond, rd)
    ensures !isa.passes(cond, s) ==> p == Before(k + 1, s)
    ensures isa.passes(cond, s) ==>
      match trace[k].op
      case Load(_, c, _) => p == Before(k + 1, isa.load(s, rd, Value(c)))
      case Jump(_, Some(l), _) => p == Before(k + 1, isa.load(s, rd, base + 4 * l.at))
      case Jump(_, None, _) => p == Before(k + 1, isa.load(s, rd, INVALID_BRANCH_TARGET))
  {
  }

  // ---- The assembler as a whole ------------------------------------------------------------------

  // The events evs leave run r, which may end here and be copied to address base.
  ghost predicate MayCopy(evs: seq<Event>, r: Run, base: nat)
  {
    && Reaches(evs, r) && MayFlush(r, false) && r.trace != []
    && base + 4 * |FinishedRun(evs, r).st.code| < WORD_LIMIT
  }

  ghost function FinishedRun(evs: seq<Event>, r: Run): Run
    requires Reaches(evs, r)
  {
    EveryRunIsGood(evs, r);
    Finish(r)
  }

  ghost function FinishedCode(evs: seq<Event>, r: Run, base: nat): seq<Word>
    requires MayCopy(evs, r, base)
  {
    EveryRunIsGood(evs, r);
    ExecutableCopy(r, base)
  }

  // Words in the code once the last constants are flushed.
  ghost function FlushedWords(evs: seq<Event>, r: Run): nat
    requires Reaches(evs, r)
  {
    EveryRunIsGood(evs, r);
    |Flush(r.st, false).code|
  }

  // The last flush adds nothing to the program.  An odd number of words is made even by a
  // breakpoint, an even one is left.
  lemma FinishedProgram(evs: seq<Event>, r: Run)
    requires Reaches(evs, r)
    ensures var p, f, n := ProgramOf(evs), FinishedRun(evs, r), FlushedWords(evs, r);
      if n % 2 == 1 then Held(f) == ProgramStep(p, PutWord(BKPT)) && |f.st.code| == n + 1
      else Held(f) == p && |f.st.code| == n
  {
    EveryRunIsGood(evs, r);
    assert Budget(r.st);
    hide Good, Budget, Flush, FlushRun, Emit, Reaches, ProgramOf, Held, ProgramStep;
    FlushKeepsProgram(r, false);
    FinishAligns(r);
    var f := FlushRun(r, false);
    assert f.st.code == Flush(r.st, false).code by { FlushRunState(r); }
    BreakpointIsPlain();
    assert Step(f, PutWord(BKPT)) == Emit(f, BKPT);
    StepBuildsProgram(f, PutWord(BKPT));
  }

  lemma FlushRunState(r: Run)
    requires Budget(r.st)
    ensures FlushRun(r, false).st == Flush(r.st, false)
  {
  }

  lemma BreakpointIsPlain()
    ensures IsPlain(BKPT)
  {
  }

  lemma CopyIsRight(evs: seq<Event>, r: Run, base: nat)
    requires MayCopy(evs, r, base)
    ensures var code, trace := FinishedCode(evs, r, base), FinishedRun(evs, r).trace;
      Implements(code, base, trace) && LinksArrive(trace, |code|) && |code| % 2 == 0
  {
    hide Good, MayFlush, Finish, Relocated, Relocatable, Implements, LinksArrive, Reaches, LabelsOk;
    EveryRunIsGood(evs, r);
    FinishKeepsGood(r);
    FinishIsRight(r, base);
  }

  lemma FinishIsRight(r: Run, base: nat)
    requires Good(r) && Good(Finish(r)) && Finish(r).st.pool == [] && r.trace != []
    requires base + 4 * |Finish(r).st.code| < WORD_LIMIT
    ensures var f := Finish(r);
      && Relocatable(f, base) && var code := Relocated(f, base, |f.jumps|);
         Implements(code, base, f.trace) && LinksArrive(f.trace, |code|) && |code| % 2 == 0
  {
    FinishAligns(r);
    var f := Finish(r);
    LinksAreNamed(f);
    hide Good, Finish, Relocated, Implements, LinksArrive, LabelsOk;
    SameSize(f, base, |f.jumps|);
    CopyImplements(f, base);
  }

  lemma CopyIsFinished(evs: seq<Event>, r: Run, base: nat)
    requires Reaches(evs, r) && Good(r) && MayFlush(r, false) && base + 4 * |Finish(r).st.code| < WORD_LIMIT
    ensures |ExecutableCopy(r, base)| % 2 == 0
    ensures r.trace != [] ==>
      && MayCopy(evs, r, base) && ExecutableCopy(r, base) == FinishedCode(evs, r, base)
      && Implements(ExecutableCopy(r, base), base, FinishedRun(evs, r).trace)
  {
    assert Budget(r.st);
    hide Budget, Good, MayFlush, Finish, Relocated, Implements, LinksArrive, Reaches;
    FinishKeepsGood(r);
    FinishAligns(r);
    SameSize(Finish(r), base, |Finish(r).jumps|);
    if r.trace != [] { CopyIsRight(evs, r, base); }
  }

  lemma SameSize(r: Run, base: nat, n: nat)
    requires Relocatable(r, base) && n <= |r.jumps|
    ensures |Relocated(r, base, n)| == |r.st.code|
  {
    hide Relocatable;
  }

  // However the buffer was filled, flushed and linked: the finished instruction list is the
  // program that was asked for, and every run of it is a run of the finished code.
  lemma AssembledCodeRuns<S(!new)>(evs: seq<Event>, r: Run, base: nat, isa: Isa<S>, path: seq<Place<S>>)
    returns (m: nat)
    requires MayCopy(evs, r, base)
    requires IsIsa(isa) && Sealed(isa, base, FinishedRun(evs, r).trace)
    requires IsRun(isa, FinishedRun(evs, r).trace, |FinishedCode(evs, r, base)|, base, path)
    ensures var p, f := ProgramOf(evs), Held(FinishedRun(evs, r));
      f == if FlushedWords(evs, r) % 2 == 1 then ProgramStep(p, PutWord(BKPT)) else p
    ensures |FinishedCode(evs, r, base)| % 2 == 0
    ensures m <= 2 * (|path| - 1)
    ensures var code := FinishedCode(evs, r, base);
      Matches(FinishedRun(evs, r).trace, |code|, base, path[|path| - 1],
              Steps(isa, code, base, Config(base, path[0].s), m))
  {
    FinishedProgram(evs, r);
    CopyIsRight(evs, r, base);
    var code, trace := FinishedCode(evs, r, base), FinishedRun(evs, r).trace;
    hide MayCopy, FinishedRun, FinishedCode, FlushedWords, ProgramOf, ProgramStep, Held, IsIsa, Sealed, Implements, LinksArrive, Matches,
      Steps, Execute, IsRun;
    m := EveryRunAgrees(isa, code, base, trace, path);
  }
}
