// What the code in the buffer stands for: the list of instructions that were asked for,
// and where each of them, and each of its constants, ended up.  A run of the assembler
// builds this layout beside the buffer; Good says that the buffer holds exactly it.
module CodeLayout {
  import opened Options
  import opened ArmWords
  import opened ConstantPool

  // A position handed out by label(): `index` instructions came before it.
  datatype Label = Label(index: nat, at: nat)

  // Load is a load of a constant, Jump a load of a branch target that linkJump supplies.
  datatype Op =
    | Plain(w: Word)
    | Load(w: Word, c: Word, reusable: bool)
    | Jump(w: Word, link: Option<Label>, usePool: bool)

  datatype Home = NoHome | Pending(i: nat) | Slot(a: nat)

  // What stands between an instruction and the next one: nothing, or a pool, with a
  // branch over it or without.
  datatype Gap = NoGap | Guarded | Unguarded

  datatype Entry = Entry(op: Op, at: nat, home: Home, gap: Gap)

  // jumps lists, in order, the entries that m_jumps records.
  datatype Run = Run(st: State, trace: seq<Entry>, labels: set<Label>, jumps: seq<nat>)

  const START := Run(EMPTY, [], {}, [])

  // ---- The layout invariant -------------------------------------------------------

  // The largest label offset: JmpDst keeps 31 bits, one of them the sign.
  const MAX_LABEL := 0x1000_0000

  // A word that means the same wherever it stands, as far as pools can move it.
  predicate IsPlain(w: Word) { !IsLiteralLoad(w) && !IsBranch(w) }

  predicate IsReusable(op: Op) { op.Load? && op.reusable }

  function Constant(op: Op): Word
    requires !op.Plain?
    requires op.Jump? && op.link.Some? ==> op.link.value.at < MAX_LABEL
  {
    match op
    case Load(_, c, _) => c
    case Jump(_, None, _) => FromValue(INVALID_BRANCH_TARGET)
    case Jump(_, Some(l), _) => FromValue(4 * l.at)
  }

  predicate OpOk(op: Op)
  {
    match op
    case Plain(w) => IsPlain(w)
    case Load(w, _, _) => IsLoadTemplate(w)
    case Jump(w, link, usePool) =>
      && IsLoadTemplate(w)
      && (w.rd != PC ==> usePool)
      && (link.Some? ==> link.value.at < MAX_LABEL)
  }

  // The instruction is in the code, and its constant waits in the pool or has been flushed.
  predicate EntryOk(st: State, e: Entry)
  {
    && OpOk(e.op)
    && e.at < |st.code|
    && (e.home.Pending? <==> e.at in st.loads)
    && match e.home
       case NoHome => e.op.Plain? && st.code[e.at] == e.op.w
       case Pending(i) =>
         && !e.op.Plain?
         && i < |st.pool| && i < |st.kinds| && 2 * i + 1 <= 0xfff
         && st.code[e.at] == PatchIndex(e.op.w, i)
         && st.pool[i] == Constant(e.op)
         && st.kinds[i].ReusableConst? == IsReusable(e.op)
       case Slot(a) =>
         && !e.op.Plain?
         && a < Flushed(st)
         && a < |st.code|
         && SameLoad(st.code[e.at], e.op.w) && !IsWaiting(st.code[e.at])
         && LiteralByte(st.code[e.at], e.at) == 4 * a
         && st.code[a] == Constant(e.op)
  }

  // Where instruction k stands; the one after the last stands at the end of the code.
  function At(trace: seq<Entry>, k: nat, end: nat): nat
  {
    if k < |trace| then trace[k].at else end
  }

  predicate GapOk(st: State, trace: seq<Entry>, k: nat)
    requires k < |trace|
  {
    var from := trace[k].at + 1;
    var to := At(trace, k + 1, |st.code|);
    match trace[k].gap
    case NoGap => from == to
    case Guarded =>
      && from < to <= |st.code| && from < Flushed(st)
      && 1 <= to - from - 1 <= 0x1000 && st.code[from] == Barrier(to - from - 1)
    case Unguarded => from <= to
  }

  // Instructions stand in order, and two of them share a constant only if both of them
  // allow it.
  predicate Apart(e: Entry, f: Entry)
  {
    && e.at < f.at
    && (e.home == f.home && !e.home.NoHome? ==> IsReusable(e.op) && IsReusable(f.op))
  }

  // A flushed constant of e overlaps neither the instruction f nor the barrier behind it.
  predicate Clear(e: Entry, f: Entry)
  {
    e.home.Slot? ==> e.home.a != f.at && (f.gap.Guarded? ==> e.home.a != f.at + 1)
  }

  // Execution that comes to word i goes on with instruction k, at once or over a barrier.
  predicate Arrives(trace: seq<Entry>, end: nat, i: nat, k: nat)
  {
    && k <= |trace|
    && (i == At(trace, k, end) || (k > 0 && trace[k - 1].gap.Guarded? && i == trace[k - 1].at + 1))
  }

  predicate LabelOk(r: Run, l: Label)
  {
    l.at < MAX_LABEL && Arrives(r.trace, |r.st.code|, l.at, l.index)
  }

  predicate LinksOk(r: Run, e: Entry)
  {
    e.op.Jump? && e.op.link.Some? ==> e.op.link.value in r.labels
  }

  predicate JumpsOk(r: Run)
  {
    && (forall d :: 0 <= d < |r.jumps| ==> r.jumps[d] < |r.trace| && r.trace[r.jumps[d]].op.Jump?)
    && (forall c, d :: 0 <= c < d < |r.jumps| ==> r.jumps[c] < r.jumps[d])
    && (forall k :: 0 <= k < |r.trace| && r.trace[k].op.Jump? ==> k in r.jumps)
  }

  // Code starts with the first instruction, and nothing follows a load that still waits.
  predicate EndsOk(r: Run)
  {
    && (r.trace == [] ==> r.st.code == [])
    && (r.trace != [] ==> r.trace[0].at == 0)
    && (r.st.pool != [] ==> r.trace != [] && r.trace[|r.trace| - 1].gap.NoGap?)
  }

  predicate EntriesOk(st: State, trace: seq<Entry>)
  {
    forall k :: 0 <= k < |trace| ==> EntryOk(st, trace[k])
  }

  predicate GapsOk(st: State, trace: seq<Entry>)
  {
    forall k :: 0 <= k < |trace| ==> GapOk(st, trace, k)
  }

  predicate AllApart(trace: seq<Entry>)
  {
    forall j, k :: 0 <= j < k < |trace| ==> Apart(trace[j], trace[k])
  }

  predicate AllClear(trace: seq<Entry>)
  {
    forall j, k :: 0 <= j < |trace| && 0 <= k < |trace| ==> Clear(trace[j], trace[k])
  }

  predicate LabelsOk(r: Run)
  {
    && (forall l :: l in r.labels ==> LabelOk(r, l))
    && (forall k :: 0 <= k < |r.trace| ==> LinksOk(r, r.trace[k]))
  }

  predicate Good(r: Run)
  {
    && Budget(r.st)
    && EndsOk(r)
    && EntriesOk(r.st, r.trace)
    && GapsOk(r.st, r.trace)
    && AllApart(r.trace)
    && AllClear(r.trace)
    && LabelsOk(r)
    && JumpsOk(r)
  }

  // ---- Flushing keeps the layout ----------------------------------------------------

  function FlushedEntry(e: Entry, start: nat): Entry
  {
    if e.home.Pending? then e.(home := Slot(start + e.home.i)) else e
  }

  function FlushTrace(trace: seq<Entry>, start: nat, gap: Gap): (r: seq<Entry>)
    ensures |r| == |trace|
  {
    seq(|trace|, (k: nat) requires k < |trace| =>
      var e := FlushedEntry(trace[k], start);
      if k == |trace| - 1 then e.(gap := gap) else e)
  }

  function FlushRun(r: Run, useBarrier: bool): Run
    requires Budget(r.st)
  {
    if r.st.pool == [] then r
    else r.(st := Flush(r.st, useBarrier),
            trace := FlushTrace(r.trace, PoolStart(r.st, useBarrier), if useBarrier then Guarded else Unguarded))
  }

  lemma FlushedLoad(st: State, useBarrier: bool, e: Entry)
    requires Budget(st) && EntryOk(st, e) && e.home.Pending?
    ensures var f := Flush(st, useBarrier); var a := PoolStart(st, useBarrier) + e.home.i;
      && e.at < |f.code| && SameLoad(f.code[e.at], e.op.w) && !IsWaiting(f.code[e.at])
      && LiteralByte(f.code[e.at], e.at) == 4 * a
  {
    hide Flush, PoolStart, FromValue, Budget;
    FlushPatchesLoad(st, useBarrier, e.at);
    assert IndexOf(st.code[e.at]) == e.home.i;
    PatchingRoundTrips(e.op.w, e.home.i, e.at, PoolStart(st, useBarrier));
  }

  lemma FlushKeepsEntry(st: State, useBarrier: bool, e: Entry)
    requires Budget(st) && st.pool != [] && EntryOk(st, e)
    ensures EntryOk(Flush(st, useBarrier), FlushedEntry(e, PoolStart(st, useBarrier)))
  {
    hide Flush, PoolStart, FromValue;
    FlushedSize(st, useBarrier);
    match e.home
    case Pending(i) =>
      FlushedLoad(st, useBarrier, e);
      FlushedConstant(st, useBarrier, i);
    case Slot(a) =>
      LoadsAreInCode(st);
      FlushKeepsWord(st, useBarrier, a);
      FlushKeepsWord(st, useBarrier, e.at);
    case NoHome =>
      FlushKeepsWord(st, useBarrier, e.at);
  }

  // An unguarded flush must not separate a label from the instruction it names.
  predicate MayFlush(r: Run, useBarrier: bool)
  {
    r.st.pool != [] && !useBarrier ==> forall l :: l in r.labels ==> l.index < |r.trace|
  }

  lemma FlushKeepsGap(st: State, trace: seq<Entry>, useBarrier: bool, k: nat)
    requires Budget(st) && st.pool != [] && k < |trace| && trace[k].at < |st.code|
    requires GapOk(st, trace, k) && trace[|trace| - 1].gap.NoGap?
    ensures GapOk(Flush(st, useBarrier),
                  FlushTrace(trace, PoolStart(st, useBarrier), if useBarrier then Guarded else Unguarded), k)
  {
    hide Flush, PadWords, Budget, Barrier;
    FlushedSize(st, useBarrier);
    if k == |trace| - 1 {
      if useBarrier { FlushedBarrier(st); }
    } else if trace[k].gap.Guarded? {
      LoadsAreInCode(st);
      FlushKeepsWord(st, useBarrier, trace[k].at + 1);
    }
  }

  lemma FlushKeepsApart(st: State, e: Entry, f: Entry, g: Entry, start: nat)
    requires EntryOk(st, e) && EntryOk(st, f)
    requires Apart(e, f) && Flushed(st) <= start
    requires g == FlushedEntry(f, start) || g == FlushedEntry(f, start).(gap := g.gap)
    ensures Apart(FlushedEntry(e, start), g)
  {
    hide SameLoad, LiteralByte, PatchIndex;
  }

  lemma FlushKeepsClear(st: State, e: Entry, f: Entry, g: Entry, start: nat)
    requires EntryOk(st, e) && EntryOk(st, f)
    requires Clear(e, f) && |st.code| <= start && Flushed(st) <= |st.code|
    requires g == FlushedEntry(f, start) ||
             (f.at + 1 == |st.code| && g == FlushedEntry(f, start).(gap := g.gap) && (g.gap.Guarded? ==> |st.code| < start))
    requires f.gap.Guarded? ==> f.at + 1 < Flushed(st)
    ensures Clear(FlushedEntry(e, start), g)
  {
    hide SameLoad, LiteralByte, PatchIndex;
  }

  lemma FlushKeepsLabel(r: Run, useBarrier: bool, l: Label)
    requires r.trace != [] && Budget(r.st) && r.st.pool != []
    requires r.trace[|r.trace| - 1].gap.NoGap? && GapOk(r.st, r.trace, |r.trace| - 1)
    requires LabelOk(r, l) && (useBarrier || l.index < |r.trace|)
    ensures LabelOk(FlushRun(r, useBarrier), l)
  {
    hide Flush, PoolStart, Budget;
  }

  lemma FlushKeepsEntries(st: State, trace: seq<Entry>, useBarrier: bool, gap: Gap)
    requires Budget(st) && st.pool != [] && EntriesOk(st, trace)
    ensures EntriesOk(Flush(st, useBarrier), FlushTrace(trace, PoolStart(st, useBarrier), gap))
  {
    hide Flush, PoolStart, Budget;
    var start := PoolStart(st, useBarrier);
    var t := FlushTrace(trace, start, gap);
    forall k | 0 <= k < |t| ensures EntryOk(Flush(st, useBarrier), t[k]) {
      assert EntryOk(st, trace[k]);
      FlushKeepsEntry(st, useBarrier, trace[k]);
      EntryIgnoresGap(Flush(st, useBarrier), FlushedEntry(trace[k], start), gap);
    }
  }

  lemma EntryIgnoresGap(st: State, e: Entry, gap: Gap)
    ensures EntryOk(st, e.(gap := gap)) == EntryOk(st, e)
  {
  }

  lemma FlushKeepsGaps(st: State, trace: seq<Entry>, useBarrier: bool)
    requires Budget(st) && st.pool != [] && EntriesOk(st, trace) && GapsOk(st, trace)
    requires trace != [] && trace[|trace| - 1].gap.NoGap?
    ensures GapsOk(Flush(st, useBarrier),
                   FlushTrace(trace, PoolStart(st, useBarrier), if useBarrier then Guarded else Unguarded))
  {
    hide Flush, PoolStart, Budget, GapOk, FlushTrace, SameLoad, LiteralByte, PatchIndex, FromValue;
    var f := Flush(st, useBarrier);
    var t := FlushTrace(trace, PoolStart(st, useBarrier), if useBarrier then Guarded else Unguarded);
    forall k | 0 <= k < |t| ensures GapOk(f, t, k) {
      assert EntryOk(st, trace[k]);
      FlushKeepsGap(st, trace, useBarrier, k);
    }
  }

  lemma FlushKeepsAllApart(st: State, trace: seq<Entry>, start: nat, gap: Gap)
    requires EntriesOk(st, trace) && AllApart(trace) && Flushed(st) <= start
    ensures AllApart(FlushTrace(trace, start, gap))
  {
    hide EntryOk, Apart, FlushedEntry;
    var t := FlushTrace(trace, start, gap);
    forall j, k | 0 <= j < k < |t| ensures Apart(t[j], t[k]) {
      assert EntryOk(st, trace[j]) && EntryOk(st, trace[k]) && Apart(trace[j], trace[k]);
      FlushKeepsApart(st, trace[j], trace[k], t[k], start);
    }
  }

  lemma FlushKeepsAllClear(st: State, trace: seq<Entry>, start: nat, gap: Gap)
    requires EntriesOk(st, trace) && GapsOk(st, trace) && AllClear(trace)
    requires trace != [] && trace[|trace| - 1].gap.NoGap?
    requires Flushed(st) <= |st.code| <= start && (gap.Guarded? ==> |st.code| < start)
    ensures AllClear(FlushTrace(trace, start, gap))
  {
    hide EntryOk, Clear, Barrier, Flushed;
    var t := FlushTrace(trace, start, gap);
    forall j, k | 0 <= j < |t| && 0 <= k < |t| ensures Clear(t[j], t[k]) {
      assert EntryOk(st, trace[j]) && EntryOk(st, trace[k]) && Clear(trace[j], trace[k]) && GapOk(st, trace, k);
      FlushKeepsClear(st, trace[j], trace[k], t[k], start);
      ClearIgnoresGap(FlushedEntry(trace[j], start), t[k], gap);
    }
  }

  lemma ClearIgnoresGap(e: Entry, f: Entry, gap: Gap)
    ensures Clear(e.(gap := gap), f) == Clear(e, f)
  {
  }

  lemma FlushKeepsEnds(r: Run, useBarrier: bool)
    requires EndsOk(r) && JumpsOk(r) && Budget(r.st)
    ensures EndsOk(FlushRun(r, useBarrier)) && JumpsOk(FlushRun(r, useBarrier))
  {
    hide Budget, PoolStart;
    var f := FlushRun(r, useBarrier);
    forall k | 0 <= k < |f.trace| ensures f.trace[k].op == r.trace[k].op && f.trace[k].at == r.trace[k].at {
    }
  }

  lemma FlushKeepsLabels(r: Run, useBarrier: bool)
    requires Good(r) && MayFlush(r, useBarrier) && r.st.pool != []
    ensures LabelsOk(FlushRun(r, useBarrier))
  {
    hide Flush, PoolStart, Budget, EntriesOk, GapOk, AllApart, AllClear, LabelOk;
    var f := FlushRun(r, useBarrier);
    forall l | l in f.labels ensures LabelOk(f, l) {
      assert LabelOk(r, l) && GapOk(r.st, r.trace, |r.trace| - 1);
      FlushKeepsLabel(r, useBarrier, l);
    }
    forall k | 0 <= k < |f.trace| ensures LinksOk(f, f.trace[k]) {
      assert LinksOk(r, r.trace[k]);
    }
  }

  lemma FlushKeepsDistance(r: Run, useBarrier: bool)
    requires Good(r) && r.st.pool != []
    ensures AllApart(FlushRun(r, useBarrier).trace) && AllClear(FlushRun(r, useBarrier).trace)
  {
    hide Flush, EntriesOk, GapsOk, AllApart, AllClear, LabelsOk, JumpsOk, FlushTrace;
    var start := PoolStart(r.st, useBarrier);
    var gap := if useBarrier then Guarded else Unguarded;
    FlushKeepsAllApart(r.st, r.trace, start, gap);
    FlushKeepsAllClear(r.st, r.trace, start, gap);
  }

  lemma FlushKeepsGood(r: Run, useBarrier: bool)
    requires Good(r) && MayFlush(r, useBarrier)
    ensures Good(FlushRun(r, useBarrier))
  {
    if r.st.pool != [] {
      hide Flush, PoolStart, Budget, EntriesOk, GapsOk, AllApart, AllClear, LabelsOk, JumpsOk, FlushTrace;
      FlushKeepsEntries(r.st, r.trace, useBarrier, if useBarrier then Guarded else Unguarded);
      FlushKeepsGaps(r.st, r.trace, useBarrier);
      FlushKeepsDistance(r, useBarrier);
      FlushKeepsLabels(r, useBarrier);
      FlushKeepsEnds(r, useBarrier);
    }
  }

  // ---- Putting one more instruction ---------------------------------------------------

  // s became t by appending one word, and perhaps one constant and one waiting load.
  predicate Extends(s: State, t: State)
  {
    && |t.code| == |s.code| + 1 && s.code <= t.code
    && Flushed(t) == Flushed(s) <= |s.code|
    && s.pool <= t.pool && s.kinds <= t.kinds
    && (t.loads == s.loads || t.loads == s.loads + [|s.code|])
  }

  // The new instruction shares its constant only as an old one that holds the same.
  predicate MayShare(trace: seq<Entry>, e: Entry)
  {
    forall k :: 0 <= k < |trace| ==>
      trace[k].home == e.home && !e.home.NoHome? ==> IsReusable(trace[k].op) && IsReusable(e.op)
  }

  function Append(r: Run, t: State, e: Entry): Run
  {
    Run(t, r.trace + [e], r.labels, if e.op.Jump? then r.jumps + [|r.trace|] else r.jumps)
  }

  predicate NewEntry(s: State, t: State, e: Entry)
  {
    Extends(s, t) && EntryOk(t, e) && e.at == |s.code| && e.gap.NoGap? && !e.home.Slot?
  }

  lemma ExtendKeepsEntry(s: State, t: State, e: Entry)
    requires Extends(s, t) && EntryOk(s, e)
    ensures EntryOk(t, e)
  {
    hide LiteralByte, SameLoad, PatchIndex, FromValue, Flushed, IsWaiting;
  }

  lemma AppendKeepsEntries(s: State, t: State, trace: seq<Entry>, e: Entry)
    requires NewEntry(s, t, e) && EntriesOk(s, trace)
    ensures EntriesOk(t, trace + [e])
  {
    hide EntryOk;
    forall k | 0 <= k < |trace| ensures EntryOk(t, trace[k]) {
      assert EntryOk(s, trace[k]);
      ExtendKeepsEntry(s, t, trace[k]);
    }
  }

  lemma AppendKeepsGaps(s: State, t: State, trace: seq<Entry>, e: Entry)
    requires NewEntry(s, t, e) && GapsOk(s, trace)
    ensures GapsOk(t, trace + [e])
  {
    hide EntryOk, Barrier, Flushed;
    forall k | 0 <= k < |trace| + 1 ensures GapOk(t, trace + [e], k) {
      if k < |trace| {
        assert GapOk(s, trace, k);
      }
    }
  }

  lemma AppendKeepsDistance(s: State, t: State, trace: seq<Entry>, e: Entry)
    requires NewEntry(s, t, e) && EntriesOk(s, trace) && MayShare(trace, e)
    requires AllApart(trace) && AllClear(trace)
    ensures AllApart(trace + [e]) && AllClear(trace + [e])
  {
    hide LiteralByte, SameLoad, PatchIndex, FromValue, IsWaiting, Flushed;
    var x := trace + [e];
    forall j, k | 0 <= j < k < |x| ensures Apart(x[j], x[k]) {
      assert EntryOk(s, trace[j]);
      if k < |trace| { assert Apart(trace[j], trace[k]); }
    }
    forall j, k | 0 <= j < |x| && 0 <= k < |x| ensures Clear(x[j], x[k]) {
      if j < |trace| {
        assert EntryOk(s, trace[j]);
        if k < |trace| { assert Clear(trace[j], trace[k]); }
      }
    }
  }

  lemma AppendKeepsLabels(r: Run, t: State, e: Entry)
    requires NewEntry(r.st, t, e) && LabelsOk(r)
    requires e.op.Jump? ==> e.op.link.None?
    ensures LabelsOk(Append(r, t, e))
  {
    hide EntryOk;
    var a := Append(r, t, e);
    forall l | l in a.labels ensures LabelOk(a, l) {
      assert LabelOk(r, l);
    }
    forall k | 0 <= k < |a.trace| ensures LinksOk(a, a.trace[k]) {
      if k < |r.trace| { assert LinksOk(r, r.trace[k]); }
    }
  }

  lemma AppendKeepsJumps(r: Run, t: State, e: Entry)
    requires JumpsOk(r)
    ensures JumpsOk(Append(r, t, e))
  {
    var a := Append(r, t, e);
    forall k | 0 <= k < |a.trace| && a.trace[k].op.Jump? ensures k in a.jumps {
      if k < |r.trace| {
        assert k in r.jumps;
      } else {
        assert a.jumps[|r.jumps|] == k;
      }
    }
  }

  lemma AppendKeepsGood(r: Run, t: State, e: Entry)
    requires Good(r) && Budget(t) && NewEntry(r.st, t, e) && MayShare(r.trace, e)
    requires e.op.Jump? ==> e.op.link.None?
    ensures Good(Append(r, t, e))
  {
    AppendKeepsJumps(r, t, e);
    AppendKeepsLabels(r, t, e);
    hide Budget, EntryOk, GapOk, AllApart, AllClear, LabelsOk, JumpsOk, MayShare;
    AppendKeepsEntries(r.st, t, r.trace, e);
    AppendKeepsGaps(r.st, t, r.trace, e);
    AppendKeepsDistance(r.st, t, r.trace, e);
  }

  // ---- The operations of a run --------------------------------------------------------

  function RoomForInsn(r: Run, insn: nat): (f: Run)
    requires Budget(r.st)
    ensures f.st == FlushForInsn(r.st, insn)
  {
    if NoSpaceForInsn(r.st, insn) then FlushRun(r, true) else r
  }

  function RoomForConst(r: Run, insn: nat, constant: nat): (f: Run)
    requires Budget(r.st)
    ensures f.st == FlushForConst(r.st, insn, constant)
  {
    if NoSpaceForConst(r.st, insn, constant) then FlushRun(r, true) else r
  }

  lemma RoomKeepsGood(r: Run, insn: nat, constant: nat)
    requires Good(r)
    ensures Good(RoomForInsn(r, insn)) && Good(RoomForConst(r, insn, constant))
  {
    hide Good, Flush;
    FlushKeepsGood(r, true);
  }

  function Emit(r: Run, w: Word): Run
    requires Budget(r.st)
  {
    var f := RoomForInsn(r, 4);
    Append(f, PutInt(r.st, w), Entry(Plain(w), |f.st.code|, NoHome, NoGap))
  }

  lemma PlainIsNew(s: State, w: Word)
    requires Budget(s) && IsPlain(w)
    ensures NewEntry(s, Advance(s.(code := s.code + [w])), Entry(Plain(w), |s.code|, NoHome, NoGap))
  {
    LoadsAreInCode(s);
  }

  lemma EmitKeepsGood(r: Run, w: Word)
    requires Good(r) && IsPlain(w)
    ensures Good(Emit(r, w))
  {
    var f := RoomForInsn(r, 4);
    RoomKeepsGood(r, 4, 4);
    PlainIsNew(f.st, w);
    hide Budget, NewEntry, FlushForInsn, Advance;
    AppendKeepsGood(f, PutInt(r.st, w), Entry(Plain(w), |f.st.code|, NoHome, NoGap));
  }

  // ldr_imm, ldr_un_imm and the load of loadBranchTarget.
  predicate IsNewLoad(op: Op)
  {
    OpOk(op) && !op.Plain? && (op.Jump? ==> op.link.None?)
  }

  function HomeFor(s: State, op: Op): Home
    requires Budget(s) && IsNewLoad(op)
  {
    match if IsReusable(op) then FindReusable(s.pool, s.kinds, Constant(op), 0) else None
    case Some(i) => Pending(i)
    case None => Pending(|s.pool|)
  }

  function EmitLoad(r: Run, op: Op): Run
    requires Budget(r.st) && IsNewLoad(op)
  {
    var f := RoomForConst(r, 4, 4);
    Append(f, PutConstant(r.st, op.w, Constant(op), IsReusable(op)),
           Entry(op, |f.st.code|, HomeFor(f.st, op), NoGap))
  }

  lemma ReusedIsNew(s: State, op: Op, i: nat)
    requires Budget(s) && IsNewLoad(op) && !NoSpaceForConst(s, 4, 4)
    requires i < |s.pool| && s.pool[i] == Constant(op) && s.kinds[i].ReusableConst? && IsReusable(op)
    ensures NewEntry(s, PutReused(s, op.w, i), Entry(op, |s.code|, Pending(i), NoGap))
  {
    hide FromValue;
    var t := PutReused(s, op.w, i);
    assert t.loads[|s.loads|] == |s.code|;
  }

  lemma ConstantIsNew(s: State, op: Op)
    requires Budget(s) && IsNewLoad(op) && !NoSpaceForConst(s, 4, 4)
    ensures NewEntry(s, PutNew(s, op.w, Constant(op), if IsReusable(op) then ReusableConst else UniqueConst),
                     Entry(op, |s.code|, Pending(|s.pool|), NoGap))
  {
    hide FromValue;
    var t := PutNew(s, op.w, Constant(op), if IsReusable(op) then ReusableConst else UniqueConst);
    assert t.loads[|s.loads|] == |s.code|;
  }

  // A reused slot is shared only with loads of the same reusable constant.
  lemma SharingIsAllowed(s: State, trace: seq<Entry>, op: Op, i: nat, e: Entry)
    requires EntriesOk(s, trace) && i <= |s.pool| && |s.pool| == |s.kinds|
    requires i < |s.pool| ==> s.kinds[i].ReusableConst? && IsReusable(op)
    requires e.op == op && e.home == Pending(i)
    ensures MayShare(trace, e)
  {
    forall k | 0 <= k < |trace| && trace[k].home == Pending(i)
      ensures IsReusable(trace[k].op) && IsReusable(op)
    {
      assert EntryOk(s, trace[k]);
    }
  }

  lemma EmitLoadKeepsGood(r: Run, op: Op)
    requires Good(r) && IsNewLoad(op)
    ensures Good(EmitLoad(r, op))
  {
    var f := RoomForConst(r, 4, 4);
    RoomKeepsGood(r, 4, 4);
    var t := PutConstant(r.st, op.w, Constant(op), IsReusable(op));
    var e := Entry(op, |f.st.code|, HomeFor(f.st, op), NoGap);
    hide Budget, NewEntry, FlushForConst, NoSpaceForConst, PutReused, PutNew, IsLoadTemplate, FromValue, EntriesOk, MayShare;
    match if IsReusable(op) then FindReusable(f.st.pool, f.st.kinds, Constant(op), 0) else None {
      case Some(i) =>
        ReusedIsNew(f.st, op, i);
        SharingIsAllowed(f.st, f.trace, op, i, e);
      case None =>
        ConstantIsNew(f.st, op);
        assert |f.st.pool| == |f.st.kinds| by { KindsMatch(f.st); }
        SharingIsAllowed(f.st, f.trace, op, |f.st.pool|, e);
    }
    hide Good;
    AppendKeepsGood(f, t, e);
  }

  lemma KindsMatch(s: State)
    requires Budget(s)
    ensures |s.pool| == |s.kinds|
  {
  }

  // ---- Labels ---------------------------------------------------------------------------

  // label(): size() makes room for an instruction and eight bytes of constants first.
  function TakeLabel(r: Run): (Run, Label)
    requires Budget(r.st)
  {
    var f := RoomForConst(r, MAX_INSTRUCTION_SIZE, 8);
    var l := Label(|f.trace|, |f.st.code|);
    (f.(labels := f.labels + {l}), l)
  }

  lemma TakeLabelKeepsGood(r: Run)
    requires Good(r) && TakeLabel(r).1.at < MAX_LABEL
    ensures Good(TakeLabel(r).0) && TakeLabel(r).1 in TakeLabel(r).0.labels
  {
    assert Budget(r.st);
    hide Good, Budget, RoomForConst;
    RoomKeepsGood(r, MAX_INSTRUCTION_SIZE, 8);
    NewLabelKeepsGood(RoomForConst(r, MAX_INSTRUCTION_SIZE, 8), TakeLabel(r).1);
  }

  lemma NewLabelKeepsGood(f: Run, l: Label)
    requires Good(f) && l == Label(|f.trace|, |f.st.code|) && l.at < MAX_LABEL
    ensures Good(f.(labels := f.labels + {l}))
  {
    hide Budget, EntriesOk, GapsOk, AllApart, AllClear, LabelsOk;
    NewLabelKeepsLabels(f, l);
  }

  lemma NewLabelKeepsLabels(f: Run, l: Label)
    requires LabelsOk(f) && l == Label(|f.trace|, |f.st.code|) && l.at < MAX_LABEL
    ensures LabelsOk(f.(labels := f.labels + {l}))
  {
    var g := f.(labels := f.labels + {l});
    forall m | m in g.labels ensures LabelOk(g, m) {
      if m in f.labels { assert LabelOk(f, m); }
    }
    forall k | 0 <= k < |g.trace| ensures LinksOk(g, g.trace[k]) {
      assert LinksOk(f, f.trace[k]);
    }
  }

  // A label is exact: the instruction or load that is put next stands right there.
  lemma LabelsAreExact(r: Run, w: Word, op: Op)
    requires Budget(r.st) && IsNewLoad(op)
    ensures var (g, l) := TakeLabel(r);
      && Budget(g.st)
      && Emit(g, w).trace == g.trace + [Entry(Plain(w), l.at, NoHome, NoGap)]
      && EmitLoad(g, op).trace == g.trace + [Entry(op, l.at, HomeFor(g.st, op), NoGap)]
  {
  }

  // ---- Linking --------------------------------------------------------------------------

  // getLdrImmAddressOnPool finds the constant either in the pool or in the code.
  predicate CanLink(st: State, at: nat)
  {
    && at < |st.code| && IsLiteralLoad(st.code[at])
    && if IsWaiting(st.code[at]) then IndexOf(st.code[at]) < |st.pool|
       else 0 <= LiteralByte(st.code[at], at) < 4 * |st.code| && LiteralByte(st.code[at], at) % 4 == 0
  }

  function LinkState(st: State, at: nat, v: Word): (t: State)
    requires CanLink(st, at)
  {
    if IsWaiting(st.code[at]) then st.(pool := st.pool[IndexOf(st.code[at]) := v])
    else st.(code := st.code[LiteralByte(st.code[at], at) / 4 := v])
  }

  // Linking writes v to the constant at home h, wherever that is, and to nothing else.
  predicate WritesOnly(s: State, t: State, h: Home, v: Word)
  {
    && t.kinds == s.kinds && t.loads == s.loads
    && t.maxDistance == s.maxDistance && t.lastConstDelta == s.lastConstDelta
    && match h
       case NoHome => false
       case Pending(i) => i < |s.pool| && t.code == s.code && t.pool == s.pool[i := v]
       case Slot(a) => a < |s.code| && t.pool == s.pool && t.code == s.code[a := v]
  }

  // Whether or not the constant has been flushed, linkJump finds the jump's own one.
  lemma LinkFindsHome(st: State, e: Entry, v: Word)
    requires EntryOk(st, e) && !e.op.Plain?
    ensures CanLink(st, e.at) && WritesOnly(st, LinkState(st, e.at, v), e.home, v)
  {
    hide FromValue;
  }

  lemma WriteKeepsBudget(s: State, t: State, h: Home, v: Word)
    requires Budget(s) && WritesOnly(s, t, h, v) && (h.Slot? ==> h.a < Flushed(s))
    ensures Budget(t)
  {
    hide IsLoadTemplate, IsWaiting, IndexOf;
    LoadsAreInCode(s);
    assert Flushed(t) == Flushed(s);
    forall i | 0 <= i < |t.loads| ensures PendingLoad(t, t.loads[i]) {
      assert PendingLoad(s, s.loads[i]);
      assert t.loads[i] in s.loads;
    }
  }

  // Another instruction's constant is not touched, unless it shares the home.
  lemma WriteKeepsEntry(s: State, t: State, e: Entry, h: Home, v: Word)
    requires WritesOnly(s, t, h, v) && EntryOk(s, e)
    requires e.home != h && (h.Slot? ==> h.a != e.at)
    ensures EntryOk(t, e)
  {
    hide FromValue, LiteralByte, SameLoad, PatchIndex;
  }

  lemma WriteKeepsOwnEntry(s: State, t: State, e: Entry, l: Label)
    requires EntryOk(s, e) && e.op.Jump? && l.at < MAX_LABEL
    requires WritesOnly(s, t, e.home, FromValue(4 * l.at)) && (e.home.Slot? ==> e.home.a != e.at)
    ensures EntryOk(t, e.(op := e.op.(link := Some(l))))
  {
    hide FromValue, LiteralByte, SameLoad, PatchIndex;
  }

  lemma WriteKeepsGap(s: State, t: State, trace: seq<Entry>, k: nat, h: Home, v: Word)
    requires WritesOnly(s, t, h, v) && k < |trace| && GapOk(s, trace, k)
    requires h.Slot? && trace[k].gap.Guarded? ==> h.a != trace[k].at + 1
    ensures GapOk(t, trace, k)
  {
    hide Barrier;
  }

  // from is the d-th recorded jump, to a label that was handed out.
  predicate MayLink(r: Run, d: nat, l: Label)
  {
    d < |r.jumps| && r.jumps[d] < |r.trace| && l in r.labels
    && CanLink(r.st, r.trace[r.jumps[d]].at) && r.trace[r.jumps[d]].op.Jump? && 4 * l.at < WORD_LIMIT
  }

  function LinkedTrace(trace: seq<Entry>, k: nat, l: Label): (t: seq<Entry>)
    requires k < |trace| && trace[k].op.Jump?
    ensures |t| == |trace|
  {
    trace[k := trace[k].(op := trace[k].op.(link := Some(l)))]
  }

  function LinkJump(r: Run, d: nat, l: Label): Run
    requires MayLink(r, d, l)
  {
    var k := r.jumps[d];
    r.(st := LinkState(r.st, r.trace[k].at, FromValue(4 * l.at)), trace := LinkedTrace(r.trace, k, l))
  }

  lemma LinkKeepsEntries(s: State, t: State, trace: seq<Entry>, k: nat, l: Label)
    requires EntriesOk(s, trace) && AllApart(trace) && AllClear(trace) && l.at < MAX_LABEL
    requires k < |trace| && trace[k].op.Jump? && WritesOnly(s, t, trace[k].home, FromValue(4 * l.at))
    ensures EntriesOk(t, LinkedTrace(trace, k, l))
  {
    hide EntryOk, WritesOnly, FromValue;
    var x := LinkedTrace(trace, k, l);
    forall j | 0 <= j < |x| ensures EntryOk(t, x[j]) {
      assert EntryOk(s, trace[j]) && Clear(trace[k], trace[j]);
      if j == k {
        WriteKeepsOwnEntry(s, t, trace[k], l);
      } else {
        assert j < k ==> Apart(trace[j], trace[k]);
        assert k < j ==> Apart(trace[k], trace[j]);
        HomeIsSet(s, trace[k]);
        WriteKeepsEntry(s, t, trace[j], trace[k].home, FromValue(4 * l.at));
      }
    }
  }

  lemma HomeIsSet(s: State, e: Entry)
    requires EntryOk(s, e) && !e.op.Plain?
    ensures !e.home.NoHome?
  {
  }

  lemma LinkKeepsGaps(s: State, t: State, trace: seq<Entry>, k: nat, l: Label)
    requires GapsOk(s, trace) && AllClear(trace)
    requires k < |trace| && trace[k].op.Jump? && 4 * l.at < WORD_LIMIT
    requires WritesOnly(s, t, trace[k].home, FromValue(4 * l.at))
    ensures GapsOk(t, LinkedTrace(trace, k, l))
  {
    hide WritesOnly, FromValue, Barrier;
    var x := LinkedTrace(trace, k, l);
    forall j | 0 <= j < |x| ensures GapOk(t, x, j) {
      assert GapOk(s, trace, j) && Clear(trace[k], trace[j]);
      WriteKeepsGap(s, t, trace, j, trace[k].home, FromValue(4 * l.at));
      assert GapOk(t, x, j) by { SizesAgree(s, t, trace[k].home, FromValue(4 * l.at)); }
    }
  }

  lemma SizesAgree(s: State, t: State, h: Home, v: Word)
    requires WritesOnly(s, t, h, v)
    ensures |t.code| == |s.code| && |t.pool| == |s.pool|
  {
  }

  lemma LinkKeepsDistance(trace: seq<Entry>, k: nat, l: Label)
    requires AllApart(trace) && AllClear(trace) && k < |trace| && trace[k].op.Jump?
    ensures AllApart(LinkedTrace(trace, k, l)) && AllClear(LinkedTrace(trace, k, l))
  {
    var t := LinkedTrace(trace, k, l);
    forall i, j | 0 <= i < j < |t| ensures Apart(t[i], t[j]) {
      assert Apart(trace[i], trace[j]);
    }
    forall i, j | 0 <= i < |t| && 0 <= j < |t| ensures Clear(t[i], t[j]) {
      assert Clear(trace[i], trace[j]);
    }
  }

  lemma LinkKeepsLabels(r: Run, f: Run, k: nat, l: Label)
    requires LabelsOk(r) && k < |r.trace| && r.trace[k].op.Jump? && l in r.labels
    requires f == Run(f.st, LinkedTrace(r.trace, k, l), r.labels, r.jumps)
    requires |f.st.code| == |r.st.code|
    ensures LabelsOk(f)
  {
    forall m | m in f.labels ensures LabelOk(f, m) {
      assert LabelOk(r, m);
    }
    forall j | 0 <= j < |f.trace| ensures LinksOk(f, f.trace[j]) {
      assert LinksOk(r, r.trace[j]);
    }
  }

  lemma LinkKeepsEnds(r: Run, f: Run, k: nat, l: Label)
    requires EndsOk(r) && JumpsOk(r) && k < |r.trace| && r.trace[k].op.Jump?
    requires f == Run(f.st, LinkedTrace(r.trace, k, l), r.labels, r.jumps)
    requires |f.st.code| == |r.st.code| && |f.st.pool| == |r.st.pool|
    ensures EndsOk(f) && JumpsOk(f)
  {
  }

  // Linking a jump, before or after its constant is flushed, changes nothing but where that
  // one jump goes.
  lemma LinkKeepsGood(r: Run, d: nat, l: Label)
    requires Good(r) && d < |r.jumps| && l in r.labels
    ensures MayLink(r, d, l) && Good(LinkJump(r, d, l))
  {
    var k := r.jumps[d];
    assert EntryOk(r.st, r.trace[k]) && LabelOk(r, l);
    LinkFindsHome(r.st, r.trace[k], FromValue(4 * l.at));
    var f := LinkJump(r, d, l);
    assert r.trace[k].home.Slot? ==> r.trace[k].home.a < Flushed(r.st);
    hide Budget, EntryOk, GapOk, Apart, Clear, LabelOk, LinksOk, LinkState, FromValue, CanLink, WritesOnly;
    WriteKeepsBudget(r.st, f.st, r.trace[k].home, FromValue(4 * l.at));
    SizesAgree(r.st, f.st, r.trace[k].home, FromValue(4 * l.at));
    LinkKeepsEntries(r.st, f.st, r.trace, k, l);
    LinkKeepsGaps(r.st, f.st, r.trace, k, l);
    LinkKeepsDistance(r.trace, k, l);
    LinkKeepsLabels(r, f, k, l);
    LinkKeepsEnds(r, f, k, l);
  }

  // A jump that linkJump may meet has its constant to itself.
  lemma JumpsShareNothing(r: Run, d: nat, k: nat)
    requires Good(r) && d < |r.jumps| && k < |r.trace| && k != r.jumps[d]
    ensures r.trace[k].home != r.trace[r.jumps[d]].home
  {
    hide Budget, GapOk, LabelsOk, FromValue;
    var j := r.jumps[d];
    assert EntryOk(r.st, r.trace[j]) && r.trace[j].op.Jump?;
    assert j < k ==> Apart(r.trace[j], r.trace[k]);
    assert k < j ==> Apart(r.trace[k], r.trace[j]);
  }

  // What two instructions share is one reusable constant.
  lemma SharingMeansSame(r: Run, j: nat, k: nat)
    requires Good(r) && j < k < |r.trace| && r.trace[j].home == r.trace[k].home && !r.trace[j].op.Plain?
    ensures r.trace[j].op.Load? && r.trace[j].op.reusable && r.trace[k].op.Load? && r.trace[k].op.reusable
    ensures r.trace[j].op.c == r.trace[k].op.c
  {
    hide Budget, GapOk, LabelsOk, FromValue;
    assert EntryOk(r.st, r.trace[j]) && EntryOk(r.st, r.trace[k]) && Apart(r.trace[j], r.trace[k]);
  }

  // ---- Every run of the assembler -----------------------------------------------------------

  datatype Event =
    | PutWord(w: Word)                              // putInt
    | PutLoad(load: Word, c: Word, reusable: bool)  // ldr_imm, ldr_un_imm
    | PutTarget(load: Word, usePool: bool)          // loadBranchTarget
    | Reserve(insn: nat, constant: nat)             // ensureSpace
    | TestAlignment(alignment: nat)                 // isAligned
    | NewLabel                                      // label
    | Relink(d: nat, l: Label)                      // linkJump
    | FlushHere(isForced: bool)                     // flushWithoutBarrier

  // What the caller owes: words that mean the same anywhere, well-formed load templates, a
  // direct jump only into pc, labels within 31 bits, links between known ends, and no
  // unguarded pool between a label and its instruction.
  predicate Allowed(r: Run, ev: Event)
    requires Budget(r.st)
  {
    match ev
    case PutWord(w) => IsPlain(w)
    case PutLoad(load, _, _) => IsLoadTemplate(load)
    case PutTarget(load, usePool) => IsLoadTemplate(load) && (load.rd != PC ==> usePool)
    case Reserve(_, _) => true
    case TestAlignment(_) => true
    case NewLabel => TakeLabel(r).1.at < MAX_LABEL
    case Relink(d, l) => d < |r.jumps| && l in r.labels && MayLink(r, d, l)
    case FlushHere(_) => MayFlush(r, false)
  }

  function MaybeFlush(r: Run, isForced: bool): Run
    requires Budget(r.st)
  {
    if isForced || 5 * |r.st.pool| > 3 * MAX_POOL_SIZE / 4 then FlushRun(r, false) else r
  }

  lemma MaybeFlushIff(r: Run, isForced: bool)
    requires Budget(r.st)
    ensures isForced || |r.st.pool| >= 308 ==> MaybeFlush(r, isForced) == FlushRun(r, false)
    ensures !isForced && |r.st.pool| < 308 ==> MaybeFlush(r, isForced) == r
  {
    hide Flush, FlushRun;
  }

  function Step(r: Run, ev: Event): Run
    requires Budget(r.st) && Allowed(r, ev)
  {
    match ev
    case PutWord(w) => Emit(r, w)
    case PutLoad(load, c, reusable) => EmitLoad(r, Load(load, c, reusable))
    case PutTarget(load, usePool) => EmitLoad(RoomForConst(r, 4, 4), Jump(load, None, usePool))
    case Reserve(insn, constant) => RoomForConst(r, insn, constant)
    case TestAlignment(alignment) => RoomForInsn(r, alignment)
    case NewLabel => TakeLabel(r).0
    case Relink(d, l) => LinkJump(r, d, l)
    case FlushHere(isForced) => MaybeFlush(r, isForced)
  }

  lemma PutTargetKeepsGood(r: Run, load: Word, usePool: bool)
    requires Good(r) && IsLoadTemplate(load) && (load.rd != PC ==> usePool)
    ensures Good(EmitLoad(RoomForConst(r, 4, 4), Jump(load, None, usePool)))
  {
    RoomKeepsGood(r, 4, 4);
    EmitLoadKeepsGood(RoomForConst(r, 4, 4), Jump(load, None, usePool));
  }

  lemma StepKeepsGood(r: Run, ev: Event)
    requires Good(r) && Allowed(r, ev)
    ensures Good(Step(r, ev))
  {
    hide Good, Flush, Emit, EmitLoad, TakeLabel, LinkJump, RoomForConst, RoomForInsn, IsPlain, IsLoadTemplate;
    match ev {
      case PutWord(w) => EmitKeepsGood(r, w);
      case PutLoad(load, c, reusable) => EmitLoadKeepsGood(r, Load(load, c, reusable));
      case PutTarget(load, usePool) =>
        PutTargetKeepsGood(r, load, usePool);
      case Reserve(insn, constant) => RoomKeepsGood(r, insn, constant);
      case TestAlignment(alignment) => RoomKeepsGood(r, alignment, 0);
      case NewLabel => TakeLabelKeepsGood(r);
      case Relink(d, l) => LinkKeepsGood(r, d, l);
      case FlushHere(isForced) => FlushKeepsGood(r, false);
    }
  }

  // The states that a run of events goes through, from the empty buffer.
  ghost predicate Reaches(evs: seq<Event>, r: Run)
  {
    if evs == [] then r == START
    else exists p: Run :: (
      && Reaches(evs[..|evs| - 1], p) && Budget(p.st)
      && Allowed(p, evs[|evs| - 1]) && r == Step(p, evs[|evs| - 1]))
  }

  lemma StartIsGood()
    ensures Good(START) && Held(START) == NO_PROGRAM
  {
  }

  // ---- The program that was asked for ---------------------------------------------------------

  function Ops(trace: seq<Entry>): (ops: seq<Op>)
    ensures |ops| == |trace|
  {
    seq(|trace|, (k: nat) requires k < |trace| => trace[k].op)
  }

  // The instruction list by itself: no buffer, no pool, no positions but those in labels.
  // labels are the instructions that label() was called in front of.
  datatype Program = Program(ops: seq<Op>, jumps: seq<nat>, labels: set<nat>)

  const NO_PROGRAM := Program([], [], {})

  function ProgramStep(p: Program, ev: Event): Program
  {
    match ev
    case PutWord(w) => p.(ops := p.ops + [Plain(w)])
    case PutLoad(load, c, reusable) => p.(ops := p.ops + [Load(load, c, reusable)])
    case PutTarget(load, usePool) => p.(ops := p.ops + [Jump(load, None, usePool)], jumps := p.jumps + [|p.ops|])
    case Relink(d, l) =>
      if d < |p.jumps| && p.jumps[d] < |p.ops| && p.ops[p.jumps[d]].Jump?
      then p.(ops := p.ops[p.jumps[d] := p.ops[p.jumps[d]].(link := Some(l))]) else p
    case NewLabel => p.(labels := p.labels + {|p.ops|})
    case Reserve(_, _) => p
    case TestAlignment(_) => p
    case FlushHere(_) => p
  }

  function ProgramOf(evs: seq<Event>): Program
  {
    if evs == [] then NO_PROGRAM else ProgramStep(ProgramOf(evs[..|evs| - 1]), evs[|evs| - 1])
  }

  // The program that a layout holds.
  function Held(r: Run): Program
  {
    Program(Ops(r.trace), r.jumps, set l <- r.labels :: l.index)
  }

  lemma FlushKeepsProgram(r: Run, useBarrier: bool)
    requires Budget(r.st)
    ensures Held(FlushRun(r, useBarrier)) == Held(r)
  {
    hide Flush, Budget;
  }

  // Each step of the assembler does to the layout's program what was asked, and no more.
  lemma StepBuildsProgram(r: Run, ev: Event)
    requires Budget(r.st) && Allowed(r, ev)
    ensures Held(Step(r, ev)) == ProgramStep(Held(r), ev)
  {
    hide Budget, Flush, FlushRun, PutConstant, PutInt, NoSpaceForConst, NoSpaceForInsn, CanLink, LinkState, IsPlain,
      IsLoadTemplate, FindReusable;
    FlushKeepsProgram(r, true);
    FlushKeepsProgram(r, false);
    match ev {
      case PutTarget(load, usePool) =>
        assert Budget(RoomForConst(r, 4, 4).st);
        FlushKeepsProgram(RoomForConst(r, 4, 4), true);
      case _ =>
    }
  }

  // Whatever the assembler is asked for, the buffer holds exactly that.
  lemma {:induction false} EveryRunIsGood(evs: seq<Event>, r: Run)
    requires Reaches(evs, r)
    ensures Good(r) && Held(r) == ProgramOf(evs)
  {
    hide Good, Step, Allowed, Held, ProgramStep;
    if evs == [] {
      StartIsGood();
    } else {
      var p: Run :| Reaches(evs[..|evs| - 1], p) && Budget(p.st)
        && Allowed(p, evs[|evs| - 1]) && r == Step(p, evs[|evs| - 1]);
      EveryRunIsGood(evs[..|evs| - 1], p);
      StepKeepsGood(p, evs[|evs| - 1]);
      StepBuildsProgram(p, evs[|evs| - 1]);
    }
  }

  lemma StepReaches(evs: seq<Event>, r: Run, ev: Event)
    requires Reaches(evs, r) && Budget(r.st) && Allowed(r, ev)
    ensures Reaches(evs + [ev], Step(r, ev)) && Budget(Step(r, ev).st)
  {
    hide Budget, Allowed, Step, EntriesOk, GapsOk, AllApart, AllClear, LabelsOk, JumpsOk, EndsOk;
    var f := evs + [ev];
    assert f[..|f| - 1] == evs;
    EveryRunIsGood(evs, r);
    StepKeepsGood(r, ev);
  }
}
