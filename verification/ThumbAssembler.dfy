// ARMv7Assembler and MacroAssemblerARMv7: jumps are emitted as slots, remembered when they are
// linked, and written when the code has its final address.
module ThumbAssembler {
  import opened Options
  import opened ThumbWords
  import opened ThumbMachine
  import opened ThumbSlots

  // ---- Slots in code ---------------------------------------------------------------------

  // 2 * k, as an address.
  function HalfOffset(k: nat): bv32
  {
    if k == 0 then 0 else At(HalfOffset(k - 1), 2)
  }

  function Addr(base: bv32, k: nat): bv32 { At(base, HalfOffset(k)) }

  lemma SumIsEven(x: bv32, y: bv32)
    requires IsEven(x) && IsEven(y)
    ensures IsEven(At(x, y))
  {
  }

  lemma {:induction false} AddrIsEven(base: bv32, k: nat)
    requires IsEven(base)
    ensures IsEven(HalfOffset(k)) && IsEven(Addr(base, k))
  {
    if k > 0 {
      AddrIsEven(base, k - 1);
      SumIsEven(HalfOffset(k - 1), 2);
    }
    SumIsEven(base, HalfOffset(k));
  }

  // The slot that ends at halfword e.
  function SlotAt(code: seq<bv16>, e: nat): Slot
    requires 5 <= e <= |code|
  {
    Slot(code[e - 5], code[e - 4], code[e - 3], code[e - 2], code[e - 1])
  }

  function SetSlot(code: seq<bv16>, e: nat, s: Slot): (r: seq<bv16>)
    requires 5 <= e <= |code|
    ensures |r| == |code|
  {
    code[e - 5 := s.h0][e - 4 := s.h1][e - 3 := s.h2][e - 2 := s.h3][e - 1 := s.h4]
  }

  lemma SlotIsSet(c: seq<bv16>, d: seq<bv16>, e: nat, s: Slot)
    requires |d| == |c| && 5 <= e <= |c| && SlotAt(d, e) == s
    requires forall k :: 0 <= k < |c| && (k < e - 5 || e <= k) ==> d[k] == c[k]
    ensures d == SetSlot(c, e, s)
  {
    var r := SetSlot(c, e, s);
    assert SlotAt(r, e) == s;
    forall k | 0 <= k < |c| ensures d[k] == r[k] {
      assert k < e - 5 || e <= k || k == e - 5 || k == e - 4 || k == e - 3 || k == e - 2 || k == e - 1;
    }
  }

  // Slots, by where they end, do not overlap and are recognised.
  predicate Apart(ends: seq<nat>)
  {
    forall i, j :: 0 <= i < j < |ends| ==> ends[i] + 5 <= ends[j]
  }

  predicate AllRecognised(code: seq<bv16>, ends: seq<nat>)
  {
    forall i :: 0 <= i < |ends| ==> 5 <= ends[i] <= |code| && Recognised(SlotAt(code, ends[i]))
  }

  // ---- Linking ---------------------------------------------------------------------------------

  // A record of m_jumpsToLink, in halfwords.
  datatype Link = Link(from: nat, to: nat)

  predicate AllInEnds(links: seq<Link>, ends: seq<nat>)
  {
    forall i :: 0 <= i < |links| ==> links[i].from in ends
  }

  // The loop of executableCopy over the first n records.
  function LinkAll(code: seq<bv16>, base: bv32, links: seq<Link>, n: nat): (r: seq<bv16>)
    requires n <= |links| && forall i :: 0 <= i < n ==> 5 <= links[i].from <= |code|
    ensures |r| == |code|
  {
    if n == 0 then code
    else
      var l := links[n - 1];
      SetSlot(LinkAll(code, base, links, n - 1), l.from, LinkJumpAbsolute(Addr(base, l.from), Addr(base, l.to)))
  }

  // What a slot was linked to last.
  function LastTo(links: seq<Link>, n: nat, e: nat): Option<nat>
    requires n <= |links|
  {
    if n == 0 then None else if links[n - 1].from == e then Some(links[n - 1].to) else LastTo(links, n - 1, e)
  }

  predicate Linked(code: seq<bv16>, base: bv32, e: nat, to: Option<nat>, before: seq<bv16>)
    requires 5 <= e <= |code| && 5 <= e <= |before|
  {
    match to
    case None => SlotAt(code, e) == SlotAt(before, e)
    case Some(t) => JumpsTo(SlotAt(code, e), Addr(base, e), Addr(base, t))
  }

  lemma SlotsStay(code: seq<bv16>, e: nat, s: Slot, f: nat)
    requires 5 <= e <= |code| && 5 <= f <= |code| && (e + 5 <= f || f + 5 <= e)
    ensures SlotAt(SetSlot(code, e, s), f) == SlotAt(code, f)
  {
  }

  lemma SlotIsThere(code: seq<bv16>, e: nat, s: Slot)
    requires 5 <= e <= |code|
    ensures SlotAt(SetSlot(code, e, s), e) == s
  {
  }

  // After the loop every slot jumps to what it was linked to last, and can be relinked.
  lemma {:induction false} LinkAllLinks(code: seq<bv16>, base: bv32, links: seq<Link>, n: nat, ends: seq<nat>)
    requires Apart(ends) && AllRecognised(code, ends) && AllInEnds(links, ends) && n <= |links| && IsEven(base)
    ensures forall i :: 0 <= i < n ==> 5 <= links[i].from <= |code|
    ensures var d := LinkAll(code, base, links, n);
      && AllRecognised(d, ends)
      && forall i :: 0 <= i < |ends| ==> Linked(d, base, ends[i], LastTo(links, n, ends[i]), code)
  {
    hide Recognised, JumpsTo, LinkJumpAbsolute, Addr, IsEven, SetSlot, SlotAt;
    if n > 0 {
      LinkAllLinks(code, base, links, n - 1, ends);
      var c, l := LinkAll(code, base, links, n - 1), links[n - 1];
      var s := LinkJumpAbsolute(Addr(base, l.from), Addr(base, l.to));
      AddrIsEven(base, l.from);
      AddrIsEven(base, l.to);
      LinkIsRecognised(Addr(base, l.from), Addr(base, l.to));
      SlotIsThere(c, l.from, s);
      forall i | 0 <= i < |ends| && ends[i] != l.from
        ensures SlotAt(SetSlot(c, l.from, s), ends[i]) == SlotAt(c, ends[i])
      {
        SlotsStay(c, l.from, s, ends[i]);
      }
    }
  }

  // Nothing but slots changes.
  lemma {:induction false} LinkAllFrame(code: seq<bv16>, base: bv32, links: seq<Link>, n: nat, k: nat)
    requires n <= |links| && k < |code| && forall i :: 0 <= i < n ==> 5 <= links[i].from <= |code|
    requires forall i :: 0 <= i < n ==> k + 5 < links[i].from || links[i].from <= k
    ensures LinkAll(code, base, links, n)[k] == code[k]
  {
    hide LinkJumpAbsolute, Addr;
    if n > 0 { LinkAllFrame(code, base, links, n - 1, k); }
  }

  // linkJumpAbsolute in place.
  method LinkInPlace(code: array<bv16>, e: nat, instruction: bv32, target: bv32)
    requires 5 <= e <= code.Length && IsEven(instruction) && IsEven(target) && Recognised(SlotAt(code[..], e))
    modifies code
    ensures code[..] == SetSlot(old(code[..]), e, LinkJumpAbsolute(instruction, target))
    ensures JumpsTo(SlotAt(code[..], e), instruction, target) && Recognised(SlotAt(code[..], e))
  {
    hide Recognised, JumpsTo, IsEven, FitsBranch, Distance, Peculiar, BFirst, BSecond, ImmFirst, ImmSecond, Low16, High16,
      WithThumbBit, Bx, SetSlot;
    LinkIsRecognised(instruction, target);
    var relative := Distance(target, instruction);
    if FitsBranch(relative) {
      code[e - 5] := OP_NOP_T1;
      code[e - 4] := OP_NOP_T2a;
      code[e - 3] := OP_NOP_T2b;
      code[e - 2] := BFirst(Peculiar(relative));
      code[e - 1] := BSecond(Peculiar(relative));
    } else {
      var lo16, hi16 := Low16(WithThumbBit(target)), High16(target);
      code[e - 5] := ImmFirst(OP_MOV_IMM_T3, lo16);
      code[e - 4] := ImmSecond(IP, lo16);
      code[e - 3] := ImmFirst(OP_MOVT, hi16);
      code[e - 2] := ImmSecond(IP, hi16);
      code[e - 1] := Bx(IP);
    }
    SlotIsSet(old(code[..]), code[..], e, LinkJumpAbsolute(instruction, target));
  }

  // relinkJump, on code in place, as often as wanted.
  method RelinkJump(code: array<bv16>, e: nat, instruction: bv32, target: bv32)
    requires 5 <= e <= code.Length && IsEven(instruction) && IsEven(target) && Recognised(SlotAt(code[..], e))
    modifies code
    ensures JumpsTo(SlotAt(code[..], e), instruction, target) && Recognised(SlotAt(code[..], e))
    ensures forall k :: 0 <= k < code.Length && (k < e - 5 || e <= k) ==> code[k] == old(code[k])
  {
    hide Recognised, JumpsTo, IsEven, LinkJumpAbsolute;
    LinkInPlace(code, e, instruction, target);
  }

  // setInt32 in place; `code` is the position behind the four halfwords.
  method SetInt32InPlace(code: array<bv16>, e: nat, value: bv32, ghost rd: bv4, ghost was: bv32)
    requires 4 <= e <= code.Length && Loads(Constant(code[e - 4], code[e - 3], code[e - 2], code[e - 1]), rd, was)
    modifies code
    ensures Loads(Constant(code[e - 4], code[e - 3], code[e - 2], code[e - 1]), rd, value)
    ensures forall k :: 0 <= k < code.Length && (k < e - 4 || e <= k) ==> code[k] == old(code[k])
  {
    hide ImmFirst, ImmSecond, Low16, High16, RdOf, Loads;
    SetInt32Loads(Constant(code[e - 4], code[e - 3], code[e - 2], code[e - 1]), rd, was, value);
    var lo16, hi16 := Low16(value), High16(value);
    code[e - 4] := ImmFirst(OP_MOV_IMM_T3, lo16);
    code[e - 3] := ImmSecond(RdOf(code[e - 3]), lo16);
    code[e - 2] := ImmFirst(OP_MOVT, hi16);
    code[e - 1] := ImmSecond(RdOf(code[e - 1]), hi16);
  }

  // ---- The assembler -------------------------------------------------------------------------------

  class Assembler {
    var code: seq<bv16>
    var jumpsToLink: seq<Link>
    ghost var ends: seq<nat>

    ghost predicate Valid()
      reads this
    {
      && Apart(ends) && AllRecognised(code, ends) && AllInEnds(jumpsToLink, ends)
      && forall i :: 0 <= i < |jumpsToLink| ==> jumpsToLink[i].to <= |code|
    }

    constructor ()
      ensures Valid() && code == [] && jumpsToLink == [] && ends == []
    {
      code, jumpsToLink, ends := [], [], [];
    }

    // Any instruction that is not part of a slot.
    method PutShort(h: bv16)
      requires Valid()
      modifies this`code
      ensures Valid() && code == old(code) + [h]
    {
      hide Recognised;
      AppendKeepsSlots(code, [h], ends);
      code := code + [h];
    }

    // moveFixedWidthEncoding of zero into ip, and bx.
    method MakeJump() returns (source: nat)
      requires Valid()
      modifies this`code, this`ends
      ensures Valid() && ends == old(ends) + [|code|] && source == |code| == |old(code)| + 5
      ensures code[..|old(code)|] == old(code)
      ensures SlotAt(code, source) == NEW_SLOT
    {
      hide Recognised, ImmFirst, ImmSecond, Bx, Low16, High16;
      var lo16, hi16 := Low16(0), High16(0);
      MoveFormIsMove(0);
      AppendKeepsSlots(code, [ImmFirst(OP_MOV_IMM_T3, lo16), ImmSecond(IP, lo16), ImmFirst(OP_MOVT, hi16), ImmSecond(IP, hi16), Bx(IP)], ends);
      code := code + [ImmFirst(OP_MOV_IMM_T3, lo16), ImmSecond(IP, lo16)];
      code := code + [ImmFirst(OP_MOVT, hi16), ImmSecond(IP, hi16)];
      code := code + [Bx(IP)];
      ends := ends + [|code|];
      source := |code|;
      assert code == old(code) + [ImmFirst(OP_MOV_IMM_T3, lo16), ImmSecond(IP, lo16), ImmFirst(OP_MOVT, hi16), ImmSecond(IP, hi16), Bx(IP)];
      assert SlotAt(code, source) == NEW_SLOT;
    }

    // An it for three instructions, all of them conditional, and then the same slot.
    method MakeBranch(cond: bv4) returns (source: nat)
      requires Valid()
      modifies this`code, this`ends
      ensures Valid() && ends == old(ends) + [|code|] && source == |code| == |old(code)| + 6
      ensures code[..|old(code)|] == old(code) && code[source - 6] == ItWord(IfThenElse3(cond, true, true))
      ensures SlotAt(code, source) == NEW_SLOT
    {
      hide ItWord, IfThenElse3, Apart, AllRecognised, AllInEnds;
      PutShort(ItWord(IfThenElse3(cond, true, true)));
      ghost var c := code;
      source := MakeJump();
      assert code[..|c|][|c| - 1] == c[|c| - 1] && c[..|c| - 1] == old(code);
      assert code[..|c|][..|c| - 1] == code[..|c| - 1];
    }

    function Label(): nat
      reads this
    {
      |code|
    }

    method LinkJump(from: nat, to: nat)
      requires Valid() && from in ends && to <= |code|
      modifies this`jumpsToLink
      ensures Valid() && jumpsToLink == old(jumpsToLink) + [Link(from, to)]
    {
      hide Recognised;
      jumpsToLink := jumpsToLink + [Link(from, to)];
    }

    // The copy at base, with every linked jump linked.
    method ExecutableCopy(base: bv32) returns (copy: array<bv16>)
      requires Valid() && IsEven(base)
      modifies this`jumpsToLink
      ensures Valid() && jumpsToLink == [] && fresh(copy)
      ensures forall i :: 0 <= i < |old(jumpsToLink)| ==> 5 <= old(jumpsToLink)[i].from <= |code|
      ensures copy[..] == LinkAll(code, base, old(jumpsToLink), |old(jumpsToLink)|)
      ensures AllRecognised(copy[..], ends)
      ensures forall i :: 0 <= i < |ends| ==>
        Linked(copy[..], base, ends[i], LastTo(old(jumpsToLink), |old(jumpsToLink)|, ends[i]), code)
    {
      hide Recognised, JumpsTo, LinkJumpAbsolute, Addr, IsEven, SetSlot, SlotAt;
      LinkAllLinks(code, base, jumpsToLink, |jumpsToLink|, ends);
      copy := new bv16[|code|](i requires 0 <= i < |code| reads this => code[i]);
      assert copy[..] == code;
      for i := 0 to |jumpsToLink|
        modifies copy
        invariant copy[..] == LinkAll(code, base, jumpsToLink, i)
      {
        var from, to := jumpsToLink[i].from, jumpsToLink[i].to;
        LinkAllLinks(code, base, jumpsToLink, i, ends);
        AddrIsEven(base, from);
        AddrIsEven(base, to);
        LinkInPlace(copy, from, Addr(base, from), Addr(base, to));
      }
      jumpsToLink := [];
    }
  }

  lemma AppendKeepsSlots(code: seq<bv16>, more: seq<bv16>, ends: seq<nat>)
    requires AllRecognised(code, ends)
    ensures AllRecognised(code + more, ends)
  {
    hide Recognised;
    forall i | 0 <= i < |ends| ensures Recognised(SlotAt(code + more, ends[i])) {
      assert SlotAt(code + more, ends[i]) == SlotAt(code, ends[i]);
    }
  }

  // ---- Running the copy -----------------------------------------------------------------------------

  ghost predicate Loaded(mem: bv32 -> bv16, code: seq<bv16>, base: bv32)
  {
    forall k :: 0 <= k < |code| ==> mem(Addr(base, k)) == code[k]
  }

  lemma AddrSteps(base: bv32, k: nat)
    ensures At(Addr(base, k), 2) == Addr(base, k + 1)
  {
    SumSteps(base, HalfOffset(k));
    hide At;
  }

  lemma SumSteps(base: bv32, x: bv32)
    ensures At(base + x, 2) == At(base, x + 2) && At(x, 2) == x + 2 && At(base, x) == base + x
  {
  }

  lemma MoreAddresses(a: bv32)
    ensures At(At(At(a, 2), 2), 2) == At(a, 6) && At(At(At(At(a, 2), 2), 2), 2) == At(a, 8)
    ensures At(At(At(At(At(a, 2), 2), 2), 2), 2) == End(a)
  {
    hide At;
    Addresses(a);
  }

  lemma SlotIsLoaded(mem: bv32 -> bv16, code: seq<bv16>, base: bv32, e: nat)
    requires Loaded(mem, code, base) && 5 <= e <= |code|
    ensures InMemory(mem, Addr(base, e - 5), SlotAt(code, e)) && End(Addr(base, e - 5)) == Addr(base, e)
  {
    hide At, Addr, End;
    var a := Addr(base, e - 5);
    Addresses(a);
    MoreAddresses(a);
    AddrSteps(base, e - 5);
    AddrSteps(base, e - 4);
    AddrSteps(base, e - 3);
    AddrSteps(base, e - 2);
    AddrSteps(base, e - 1);
  }

  // A linked jump runs to its label.
  lemma LinkedJumpRuns(
      mem: bv32 -> bv16, flags: bv4 -> bool, code: seq<bv16>, base: bv32, e: nat, t: nat, before: seq<bv16>, c: Cpu)
    requires Loaded(mem, code, base) && 5 <= e <= |code| && 5 <= e <= |before| && Linked(code, base, e, Some(t), before)
    requires c.pc == Addr(base, e - 5) && c.thumb && c.it == 0
    ensures var d := Steps(mem, flags, c, 3);
      SameButIp(c, d) && d.it == 0 && d.thumb && d.pc == Addr(base, t)
  {
    hide Addr, InMemory, JumpsTo, End, Loaded, SlotAt, Steps;
    SlotIsLoaded(mem, code, base, e);
    JumpRuns(mem, flags, SlotAt(code, e), Addr(base, e - 5), Addr(base, t), c);
  }

  // A linked branch runs to its label exactly under its condition, and else past its slot.
  lemma LinkedBranchRuns(
      mem: bv32 -> bv16, flags: bv4 -> bool, code: seq<bv16>, base: bv32, cond: bv4, e: nat, t: nat, before: seq<bv16>, c: Cpu)
    requires Loaded(mem, code, base) && 6 <= e <= |code| && 6 <= e <= |before| && Linked(code, base, e, Some(t), before)
    requires code[e - 6] == ItWord(IfThenElse3(cond, true, true))
    requires c.pc == Addr(base, e - 6) && c.thumb && c.it == 0
    ensures var d := Steps(mem, flags, c, 4);
      SameButIp(c, d) && d.it == 0 && d.thumb && d.pc == Addr(base, if flags(cond) then t else e)
  {
    hide Addr, InMemory, JumpsTo, End, SlotAt, Steps, ItWord, IfThenElse3, At;
    SlotIsLoaded(mem, code, base, e);
    AddrSteps(base, e - 6);
    BranchRuns(mem, flags, cond, SlotAt(code, e), Addr(base, e - 6), Addr(base, t), c);
  }
}
