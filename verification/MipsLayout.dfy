// The code MIPSAssembler builds, as a value: recorded jump slots among other words, and what
// emitting, linking and moving keep true of it.
module MipsLayout {
  import opened Options
  import opened SignedWords
  import opened MipsMachine
  import opened MipsSlots

  // Offsets are ints in the source; the code stays below 2^28 words.
  const MAX_WORDS := 0x1000_0000

  // ---- Slots in code -------------------------------------------------------------------

  function Plus(base: bv32, x: bv32): bv32 { base + x }

  // 4 * i, as an address.
  function WordOffset(i: nat): bv32
    decreases i
  {
    if i == 0 then 0 else Next(WordOffset(i - 1))
  }

  // The address of word i of code that lies at base.
  function Addr(base: bv32, i: nat): bv32
    requires i < MAX_WORDS
  {
    Plus(base, WordOffset(i))
  }

  function SlotAt(code: seq<bv32>, p: nat): Slot
    requires p + 6 <= |code|
  {
    Slot(code[p], code[p + 1], code[p + 2], code[p + 3], code[p + 4], code[p + 5])
  }

  function SetSlot(code: seq<bv32>, p: nat, s: Slot): (r: seq<bv32>)
    requires p + 6 <= |code|
    ensures |r| == |code|
  {
    code[p := s.w0][p + 1 := s.w1][p + 2 := s.w2][p + 3 := s.w3][p + 4 := s.w4][p + 5 := s.w5]
  }

  // relocateJumps skips a slot unless its six words are all there.  The subtraction is
  // unsigned: below twenty bytes of code it wraps, and nothing is skipped.
  predicate Skipped(p: nat, size: nat) { 4 * p >= (4 * size - 20) % 0x1_0000_0000 }

  lemma CompleteSlotsAreVisited(p: nat, size: nat)
    requires 5 <= size <= MAX_WORDS
    ensures !Skipped(p, size) <==> p + 6 <= size
  {
  }

  // Below twenty bytes the limit wraps round to the top of the address space.
  lemma ShortCodeIsNotSkipped(p: nat, size: nat)
    requires size < 5
    ensures Skipped(p, size) <==> 4 * p + 20 >= 0x1_0000_0000 + 4 * size
  {
  }

  function RelocateAt(code: seq<bv32>, p: nat, oldBase: bv32, newBase: bv32): (r: seq<bv32>)
    requires |code| <= MAX_WORDS
    ensures |r| == |code|
  {
    if p + 6 <= |code| then
      SetSlot(code, p, Relocate(SlotAt(code, p), Addr(oldBase, p), Addr(newBase, p)))
    else code
  }

  // The loop over the first n recorded jumps.
  function RelocateJumps(code: seq<bv32>, ps: seq<nat>, n: nat, oldBase: bv32, newBase: bv32): (r: seq<bv32>)
    requires |code| <= MAX_WORDS && n <= |ps|
    ensures |r| == |code|
  {
    if n == 0 then code else RelocateAt(RelocateJumps(code, ps, n - 1, oldBase, newBase), ps[n - 1], oldBase, newBase)
  }

  // ---- The layout ------------------------------------------------------------------------

  // A recorded slot: its position, its first condition, and the word it is linked to.
  datatype Info = Info(pos: nat, cond: bv32, target: Option<nat>)

  function TargetAddr(base: bv32, target: Option<nat>): Option<bv32>
    requires target.Some? ==> target.value < MAX_WORDS
  {
    match target case None => None case Some(i) => Some(Addr(base, i))
  }

  predicate InfoOk(code: seq<bv32>, base: bv32, i: Info)
  {
    && IsCondition(i.cond) && i.pos < MAX_WORDS && (i.target.Some? ==> i.target.value < MAX_WORDS)
    && (i.pos + 6 <= |code| ==> SlotOk(SlotAt(code, i.pos), Addr(base, i.pos), i.cond, TargetAddr(base, i.target)))
  }

  // Slots do not overlap.
  predicate Disjoint(infos: seq<Info>)
  {
    forall i, j :: 0 <= i < j < |infos| ==> infos[i].pos + 6 <= infos[j].pos
  }

  predicate LayoutOk(code: seq<bv32>, base: bv32, infos: seq<Info>)
  {
    && |code| <= MAX_WORDS && Aligned(base) && Disjoint(infos)
    && forall i :: 0 <= i < |infos| ==> InfoOk(code, base, infos[i])
  }

  function Positions(infos: seq<Info>): (ps: seq<nat>)
    ensures |ps| == |infos|
  {
    seq(|infos|, (i: nat) requires i < |infos| => infos[i].pos)
  }

  lemma AddrIsAligned(base: bv32, i: nat)
    requires Aligned(base) && i < MAX_WORDS
    ensures Aligned(Addr(base, i))
  {
    OffsetIsAligned(i);
    SumIsAligned(base, WordOffset(i));
  }

  lemma {:induction false} OffsetIsAligned(i: nat)
    ensures Aligned(WordOffset(i))
  {
    if i > 0 { OffsetIsAligned(i - 1); }
  }

  lemma SumIsAligned(base: bv32, x: bv32)
    requires Aligned(base) && Aligned(x)
    ensures Aligned(Plus(base, x))
  {
  }

  lemma SumMoves(oldBase: bv32, newBase: bv32, x: bv32, y: bv32)
    ensures Moved(oldBase + x, oldBase + y, newBase + y) == newBase + x
  {
  }

  lemma PlusMoves(oldBase: bv32, newBase: bv32, x: bv32, y: bv32)
    ensures Moved(Plus(oldBase, x), Plus(oldBase, y), Plus(newBase, y)) == Plus(newBase, x)
  {
    hide Moved;
    SumMoves(oldBase, newBase, x, y);
  }

  // Moving the code moves the addresses in it.
  lemma AddrMoves(oldBase: bv32, newBase: bv32, i: nat, p: nat)
    requires i < MAX_WORDS && p < MAX_WORDS
    ensures Moved(Addr(oldBase, i), Addr(oldBase, p), Addr(newBase, p)) == Addr(newBase, i)
  {
    hide Moved, Plus, WordOffset;
    PlusMoves(oldBase, newBase, WordOffset(i), WordOffset(p));
  }

  // ---- Relocating the whole code --------------------------------------------------------------

  lemma RelocatedSlotIsOk(code: seq<bv32>, oldBase: bv32, newBase: bv32, i: Info)
    requires InfoOk(code, oldBase, i) && Aligned(oldBase) && Aligned(newBase) && |code| <= MAX_WORDS
    ensures InfoOk(RelocateAt(code, i.pos, oldBase, newBase), newBase, i)
  {
    hide SlotOk, Relocate, Addr, Aligned, IsCondition, Moved;
    if i.pos + 6 <= |code| {
      AddrIsAligned(oldBase, i.pos);
      AddrIsAligned(newBase, i.pos);
      RelocateKeepsSlot(SlotAt(code, i.pos), Addr(oldBase, i.pos), Addr(newBase, i.pos), i.cond, TargetAddr(oldBase, i.target));
      if i.target.Some? { AddrMoves(oldBase, newBase, i.target.value, i.pos); }
    }
  }

  // Relocating one slot leaves all other words alone.
  lemma RelocateAtFrame(code: seq<bv32>, p: nat, oldBase: bv32, newBase: bv32, q: nat)
    requires |code| <= MAX_WORDS && (q + 6 <= p || p + 6 <= q)
    ensures var r := RelocateAt(code, p, oldBase, newBase);
      forall k :: q <= k < q + 6 && k < |code| ==> r[k] == code[k]
  {
    hide Relocate, Addr;
  }

  lemma SameSlotSameInfo(c: seq<bv32>, d: seq<bv32>, base: bv32, i: Info)
    requires |d| == |c| && InfoOk(c, base, i)
    requires forall k :: i.pos <= k < i.pos + 6 && k < |c| ==> d[k] == c[k]
    ensures InfoOk(d, base, i)
  {
    hide SlotOk, Addr, IsCondition;
  }

  // After n rounds the first n slots are good at the new base, the others still at the old.
  predicate HalfMoved(code: seq<bv32>, oldBase: bv32, newBase: bv32, infos: seq<Info>, n: nat)
  {
    && n <= |infos|
    && (forall i :: 0 <= i < n ==> InfoOk(code, newBase, infos[i]))
    && (forall i :: n <= i < |infos| ==> InfoOk(code, oldBase, infos[i]))
  }

  lemma {:induction false} RelocationIsOk(code: seq<bv32>, oldBase: bv32, newBase: bv32, infos: seq<Info>, n: nat)
    requires LayoutOk(code, oldBase, infos) && Aligned(newBase) && n <= |infos|
    ensures HalfMoved(RelocateJumps(code, Positions(infos), n, oldBase, newBase), oldBase, newBase, infos, n)
  {
    hide InfoOk, RelocateAt, Aligned;
    if n > 0 {
      RelocationIsOk(code, oldBase, newBase, infos, n - 1);
      var c := RelocateJumps(code, Positions(infos), n - 1, oldBase, newBase);
      var p := infos[n - 1].pos;
      var d := RelocateAt(c, p, oldBase, newBase);
      forall i | 0 <= i < |infos| && i != n - 1
        ensures InfoOk(c, if i < n then newBase else oldBase, infos[i])
             ==> InfoOk(d, if i < n then newBase else oldBase, infos[i])
      {
        RelocateAtFrame(c, p, oldBase, newBase, infos[i].pos);
        if InfoOk(c, if i < n then newBase else oldBase, infos[i]) {
          SameSlotSameInfo(c, d, if i < n then newBase else oldBase, infos[i]);
        }
      }
      RelocatedSlotIsOk(c, oldBase, newBase, infos[n - 1]);
    }
  }

  // Words outside the slots do not change.
  lemma {:induction false} RelocationFrame(code: seq<bv32>, oldBase: bv32, newBase: bv32, ps: seq<nat>, n: nat, k: nat)
    requires |code| <= MAX_WORDS && n <= |ps| && k < |code|
    requires forall i :: 0 <= i < n ==> k < ps[i] || ps[i] + 6 <= k
    ensures RelocateJumps(code, ps, n, oldBase, newBase)[k] == code[k]
  {
    hide Relocate, Addr;
    if n > 0 { RelocationFrame(code, oldBase, newBase, ps, n - 1, k); }
  }

  predicate Outside(infos: seq<Info>, k: nat)
  {
    forall i :: 0 <= i < |infos| ==> k < infos[i].pos || infos[i].pos + 6 <= k
  }

  // d continues c, and has the same words outside the slots.
  predicate SamePlain(c: seq<bv32>, infos: seq<Info>, d: seq<bv32>)
  {
    |c| <= |d| && forall k :: 0 <= k < |c| && Outside(infos, k) ==> d[k] == c[k]
  }

  lemma RelocationKeepsPlain(code: seq<bv32>, oldBase: bv32, newBase: bv32, infos: seq<Info>)
    requires |code| <= MAX_WORDS
    ensures SamePlain(code, infos, RelocateJumps(code, Positions(infos), |infos|, oldBase, newBase))
  {
    hide RelocateJumps;
    var d := RelocateJumps(code, Positions(infos), |infos|, oldBase, newBase);
    forall k | 0 <= k < |code| && Outside(infos, k) ensures d[k] == code[k] {
      RelocationFrame(code, oldBase, newBase, Positions(infos), |infos|, k);
    }
  }

  // Moving a good layout makes a good layout: every complete slot was visited, and jumps to
  // where its label has gone.
  lemma RelocationKeepsLayout(code: seq<bv32>, oldBase: bv32, newBase: bv32, infos: seq<Info>)
    requires LayoutOk(code, oldBase, infos) && Aligned(newBase)
    ensures LayoutOk(RelocateJumps(code, Positions(infos), |infos|, oldBase, newBase), newBase, infos)
  {
    hide InfoOk, RelocateAt, Aligned, RelocateJumps;
    RelocationIsOk(code, oldBase, newBase, infos, |infos|);
  }

  // ---- Linking and emitting ----------------------------------------------------------------------

  function LinkAt(code: seq<bv32>, base: bv32, p: nat, t: nat): (r: seq<bv32>)
    requires p + 6 <= |code| <= MAX_WORDS && t < MAX_WORDS
    ensures |r| == |code|
  {
    SetSlot(code, p, Link(SlotAt(code, p), Addr(base, p), Addr(base, t)))
  }

  lemma LinkKeepsLayout(code: seq<bv32>, base: bv32, infos: seq<Info>, i: nat, t: nat)
    requires LayoutOk(code, base, infos) && i < |infos| && t < MAX_WORDS && infos[i].pos + 6 <= |code|
    ensures LayoutOk(LinkAt(code, base, infos[i].pos, t), base, infos[i := infos[i].(target := Some(t))])
  {
    hide SlotOk, Link, Addr, Aligned, IsCondition;
    var p := infos[i].pos;
    var d := LinkAt(code, base, p, t);
    var after := infos[i := infos[i].(target := Some(t))];
    AddrIsAligned(base, p);
    AddrIsAligned(base, t);
    assert InfoOk(code, base, infos[i]);
    LinkKeepsSlot(SlotAt(code, p), Addr(base, p), infos[i].cond, TargetAddr(base, infos[i].target), Addr(base, t));
    forall j | 0 <= j < |after| ensures InfoOk(d, base, after[j]) {
      if j != i {
        assert InfoOk(code, base, infos[j]);
        SameSlotSameInfo(code, d, base, infos[j]);
      }
    }
  }

  function SlotWord(cond: bv32, k: nat): bv32 { if k == 0 then cond else if k == 2 then SKIP else NOP }

  // The last slot may be on its way: its first words are those of a new slot.
  predicate OnItsWay(code: seq<bv32>, i: Info)
  {
    && i.pos <= |code| <= i.pos + 6 && i.target.None?
    && forall k :: i.pos <= k < |code| ==> code[k] == SlotWord(i.cond, k - i.pos)
  }

  // All slots are complete but for the last, which may be on its way.
  predicate Settled(code: seq<bv32>, infos: seq<Info>)
  {
    && (forall i :: 0 <= i < |infos| - 1 ==> infos[i].pos + 6 <= |code|)
    && (infos != [] ==> infos[|infos| - 1].pos + 6 <= |code| || OnItsWay(code, infos[|infos| - 1]))
  }

  predicate AllComplete(code: seq<bv32>, infos: seq<Info>)
  {
    forall i :: 0 <= i < |infos| ==> infos[i].pos + 6 <= |code|
  }

  lemma NewSlotWords(code: seq<bv32>, i: Info)
    requires OnItsWay(code, i) && |code| == i.pos + 6
    ensures SlotAt(code, i.pos) == NewSlot(i.cond)
  {
  }

  lemma AppendKeepsInfo(code: seq<bv32>, base: bv32, i: Info, w: bv32)
    requires InfoOk(code, base, i) && |code| < MAX_WORDS
    requires i.pos + 6 <= |code| || OnItsWay(code + [w], i) || i.pos + 6 > |code| + 1
    ensures InfoOk(code + [w], base, i)
  {
    hide Addr, IsCondition;
    if i.pos + 6 == |code| + 1 {
      NewSlotWords(code + [w], i);
      NewSlotIsOk(i.cond, Addr(base, i.pos));
    }
  }

  // One more word, which continues the slot on its way if there is one.
  lemma AppendKeepsLayout(code: seq<bv32>, base: bv32, infos: seq<Info>, w: bv32)
    requires LayoutOk(code, base, infos) && Settled(code, infos) && |code| < MAX_WORDS
    requires AllComplete(code, infos) || (infos[|infos| - 1].pos + 6 > |code| && OnItsWay(code + [w], infos[|infos| - 1]))
    ensures LayoutOk(code + [w], base, infos) && Settled(code + [w], infos)
  {
    hide InfoOk, Aligned;
    forall i | 0 <= i < |infos| ensures InfoOk(code + [w], base, infos[i]) {
      AppendKeepsInfo(code, base, infos[i], w);
    }
  }

  // A slot on its way is not touched by relocation.
  lemma RelocationKeepsSettled(code: seq<bv32>, oldBase: bv32, newBase: bv32, infos: seq<Info>)
    requires |code| <= MAX_WORDS && Disjoint(infos) && Settled(code, infos)
    ensures Settled(RelocateJumps(code, Positions(infos), |infos|, oldBase, newBase), infos)
  {
    var d := RelocateJumps(code, Positions(infos), |infos|, oldBase, newBase);
    if infos != [] && infos[|infos| - 1].pos + 6 > |code| {
      var last := infos[|infos| - 1];
      var n := |infos| - 1;
      hide RelocateJumps;
      forall k | last.pos <= k < |code| ensures d[k] == code[k] {
        LastSkipped(code, Positions(infos), oldBase, newBase);
        RelocationFrame(code, oldBase, newBase, Positions(infos), n, k);
      }
    }
  }

  lemma LastSkipped(code: seq<bv32>, ps: seq<nat>, oldBase: bv32, newBase: bv32)
    requires |code| <= MAX_WORDS && ps != [] && ps[|ps| - 1] + 6 > |code|
    ensures RelocateJumps(code, ps, |ps|, oldBase, newBase) == RelocateJumps(code, ps, |ps| - 1, oldBase, newBase)
  {
  }

  // ---- Running the code -------------------------------------------------------------------------

  ghost predicate Loaded(mem: bv32 -> bv32, code: seq<bv32>, base: bv32)
  {
    |code| <= MAX_WORDS && forall k :: 0 <= k < |code| ==> mem(Addr(base, k)) == code[k]
  }

  lemma NextOfSum(base: bv32, x: bv32)
    ensures Next(base + x) == Plus(base, x + 4) && Next(x) == x + 4 && Plus(base, x) == base + x
  {
  }

  lemma NextAddr(base: bv32, i: nat)
    requires i + 1 < MAX_WORDS
    ensures Next(Addr(base, i)) == Addr(base, i + 1)
  {
    NextOfSum(base, WordOffset(i));
    hide Next, Plus;
  }

  lemma SixBehind(a: bv32)
    ensures Next(Next(Next(Next(Next(Next(a)))))) == End(a)
  {
    assert Next(a + 4) == a + 8 && Next(a + 8) == a + 12 && Next(a + 12) == a + 16;
    assert Next(a + 16) == a + 20 && Next(a + 20) == a + 24;
  }

  lemma SlotIsLoaded(mem: bv32 -> bv32, code: seq<bv32>, base: bv32, p: nat)
    requires Loaded(mem, code, base) && p + 6 <= |code| && |code| < MAX_WORDS
    ensures InMemory(mem, Addr(base, p), SlotAt(code, p)) && End(Addr(base, p)) == Addr(base, p + 6)
  {
    hide Addr, Next, End;
    NextAddr(base, p);
    NextAddr(base, p + 1);
    NextAddr(base, p + 2);
    NextAddr(base, p + 3);
    NextAddr(base, p + 4);
    NextAddr(base, p + 5);
    SixBehind(Addr(base, p));
  }

  // Every recorded jump of a good layout, wherever the code has gone, runs to the word it
  // was linked to if its condition holds, and to the word behind its slot if not.
  lemma EveryJumpRuns(mem: bv32 -> bv32, code: seq<bv32>, base: bv32, infos: seq<Info>, i: nat, m: Machine)
    returns (n: nat)
    requires LayoutOk(code, base, infos) && Loaded(mem, code, base) && |code| < MAX_WORDS
    requires i < |infos| && infos[i].pos + 6 <= |code| && IsAt(m, Addr(base, infos[i].pos))
    ensures n <= 6 && SameButT9(m, Steps(mem, m, n))
    ensures infos[i].target.Some? ==> infos[i].target.value < MAX_WORDS
    ensures IsAt(Steps(mem, m, n), Addr(base, if infos[i].target.Some? && Taken(infos[i].cond, m)
                                               then infos[i].target.value else infos[i].pos + 6))
  {
    hide SlotOk, InMemory, Addr, Next, End, Taken, Steps, IsCondition, Loaded, Aligned;
    var p := infos[i].pos;
    assert InfoOk(code, base, infos[i]);
    SlotIsLoaded(mem, code, base, p);
    n := SlotExecutes(mem, SlotAt(code, p), Addr(base, p), infos[i].cond, TargetAddr(base, infos[i].target), m);
  }
}
