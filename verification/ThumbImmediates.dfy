// ARMThumbImmediate: which constants fit a Thumb-2 modified immediate, and whether the encoding
// expands back to them.
module ThumbImmediates {
  import opened Options
  import opened SignedWords

  // ---- Leading zeros ----------------------------------------------------------------------

  predicate TopHalfSet(value: bv32, n: bv32)
    requires n <= 16
  {
    value & !((1 << n) - 1) != 0
  }

  // countLeadingZerosPartial: halves the window, and counts if its top half is clear.
  function HalveWindow(value: bv32, zeros: bv32, n: bv32): (bv32, bv32)
    requires n <= 16
  {
    if TopHalfSet(value, n) then (value >> n, zeros) else (value, zeros + n)
  }

  function CountLeadingZeros(value: bv32): bv32
  {
    if value == 0 then 32
    else
      var (v16, z16) := HalveWindow(value, 0, 16);
      var (v8, z8) := HalveWindow(v16, z16, 8);
      var (v4, z4) := HalveWindow(v8, z8, 4);
      var (v2, z2) := HalveWindow(v4, z4, 2);
      var (v1, z1) := HalveWindow(v2, z2, 1);
      z1
  }

  // Within a window of n bits, the highest bit set of w has z clear bits above it.
  predicate Leads(w: bv32, n: bv32, z: bv32)
  {
    1 <= n <= 32 && z < n && w >> (n - 1 - z) == 1
  }

  predicate Within(w: bv32, n: bv32)
  {
    w != 0 && (n == 32 || (n < 32 && w >> n == 0))
  }

  lemma TopNarrows(w: bv32, n: bv32)
    requires 1 <= n <= 16 && (n == 16 || w >> (2 * n) == 0) && w != 0 && w & !((1 << n) - 1) != 0
    ensures w >> n != 0 && (w >> n) >> n == 0
  {
  }

  lemma BottomNarrows(w: bv32, n: bv32)
    requires 1 <= n <= 16 && w & !((1 << n) - 1) == 0
    ensures w >> n == 0
  {
  }

  lemma TopIsWithin(w: bv32, n: bv32)
    requires 1 <= n <= 16 && Within(w, 2 * n) && TopHalfSet(w, n)
    ensures Within(w >> n, n)
  {
    TopNarrows(w, n);
  }

  lemma BottomIsWithin(w: bv32, n: bv32)
    requires 1 <= n <= 16 && w != 0 && !TopHalfSet(w, n)
    ensures Within(w, n)
  {
    BottomNarrows(w, n);
  }

  lemma WindowNarrows(w: bv32, zeros: bv32, n: bv32)
    requires 1 <= n <= 16 && Within(w, 2 * n) && w != 0
    ensures Within(HalveWindow(w, zeros, n).0, n)
  {
    hide Within, TopHalfSet;
    if TopHalfSet(w, n) {
      TopIsWithin(w, n);
    } else {
      BottomIsWithin(w, n);
    }
  }

  lemma LeadsInTop(w: bv32, z: bv32, n: bv32)
    requires 1 <= n <= 16 && z < n && w & !((1 << n) - 1) != 0 && (w >> n) >> (n - 1 - z) == 1
    ensures w >> (2 * n - 1 - z) == 1
  {
  }

  lemma LeadsInBottom(w: bv32, z: bv32, n: bv32)
    requires 1 <= n <= 16 && z < n && w & !((1 << n) - 1) == 0 && w >> (n - 1 - z) == 1
    ensures w >> (2 * n - 1 - (z + n)) == 1
  {
  }

  lemma TopLeads(w: bv32, z: bv32, n: bv32)
    requires 1 <= n <= 16 && TopHalfSet(w, n) && Leads(w >> n, n, z)
    ensures Leads(w, 2 * n, z)
  {
    LeadsInTop(w, z, n);
  }

  lemma BottomLeads(w: bv32, z: bv32, n: bv32)
    requires 1 <= n <= 16 && !TopHalfSet(w, n) && Leads(w, n, z)
    ensures Leads(w, 2 * n, z + n)
  {
    LeadsInBottom(w, z, n);
  }

  // How many zeros a halving adds.
  function Plus(z: bv32, n: bv32): bv32 { z + n }

  function Counted(w: bv32, n: bv32, z: bv32): bv32
    requires n <= 16
  {
    if TopHalfSet(w, n) then z else Plus(z, n)
  }

  lemma LeadsWiden(w: bv32, zeros: bv32, n: bv32, z: bv32)
    requires 1 <= n <= 16 && Leads(HalveWindow(w, zeros, n).0, n, z)
    ensures Leads(w, 2 * n, Counted(w, n, z))
  {
    assert Plus(z, n) == z + n;
    hide Leads, TopHalfSet, Plus;
    if TopHalfSet(w, n) {
      TopLeads(w, z, n);
    } else {
      BottomLeads(w, z, n);
    }
  }

  lemma OneBit(w: bv32)
    requires Within(w, 1)
    ensures Leads(w, 1, 0)
  {
  }

  lemma WholeWord(v: bv32)
    requires v != 0
    ensures Within(v, 32)
  {
  }

  lemma CountsAgree(v: bv32, v16: bv32, v8: bv32, v4: bv32, v2: bv32)
    ensures Counted(v2, 1, Counted(v4, 2, Counted(v8, 4, Counted(v16, 8, Counted(v, 16, 0)))))
         == Counted(v, 16, Counted(v16, 8, Counted(v8, 4, Counted(v4, 2, Counted(v2, 1, 0)))))
  {
    hide TopHalfSet;
  }

  lemma HalveCounts(w: bv32, zeros: bv32, n: bv32)
    requires n <= 16
    ensures HalveWindow(w, zeros, n).1 == Counted(w, n, zeros)
  {
    hide TopHalfSet;
  }

  lemma ZeroIsAllZeros()
    ensures CountLeadingZeros(0) == 32
  {
  }

  // The count is right: the highest bit set is that far from the top.
  lemma LeadingZerosAreCounted(v: bv32)
    requires v != 0
    ensures Leads(v, 32, CountLeadingZeros(v))
  {
    hide Leads, Within, HalveWindow, Counted;
    var (v16, z16) := HalveWindow(v, 0, 16);
    var (v8, z8) := HalveWindow(v16, z16, 8);
    var (v4, z4) := HalveWindow(v8, z8, 4);
    var (v2, z2) := HalveWindow(v4, z4, 2);
    var (v1, z1) := HalveWindow(v2, z2, 1);
    HalveCounts(v, 0, 16);
    HalveCounts(v16, z16, 8);
    HalveCounts(v8, z8, 4);
    HalveCounts(v4, z4, 2);
    HalveCounts(v2, z2, 1);
    CountsAgree(v, v16, v8, v4, v2);
    WindowsNarrow(v, z16, z8, z4, z2);
    OneBit(v1);
    LeadsWiden(v2, z2, 1, 0);
    LeadsWiden(v4, z4, 2, Counted(v2, 1, 0));
    LeadsWiden(v8, z8, 4, Counted(v4, 2, Counted(v2, 1, 0)));
    LeadsWiden(v16, z16, 8, Counted(v8, 4, Counted(v4, 2, Counted(v2, 1, 0))));
    LeadsWiden(v, 0, 16, Counted(v16, 8, Counted(v8, 4, Counted(v4, 2, Counted(v2, 1, 0)))));
  }

  lemma WindowIsNotZero(w: bv32, n: bv32)
    requires Within(w, n)
    ensures w != 0
  {
  }

  lemma WindowsNarrow(v: bv32, z16: bv32, z8: bv32, z4: bv32, z2: bv32)
    requires v != 0
    ensures var v16 := HalveWindow(v, 0, 16).0; var v8 := HalveWindow(v16, z16, 8).0;
      var v4 := HalveWindow(v8, z8, 4).0; var v2 := HalveWindow(v4, z4, 2).0;
      Within(HalveWindow(v2, z2, 1).0, 1)
  {
    hide Within, HalveWindow;
    var v16 := HalveWindow(v, 0, 16).0;
    var v8 := HalveWindow(v16, z16, 8).0;
    var v4 := HalveWindow(v8, z8, 4).0;
    var v2 := HalveWindow(v4, z4, 2).0;
    WholeWord(v);
    WindowNarrows(v, 0, 16);
    WindowIsNotZero(v16, 16);
    WindowNarrows(v16, z16, 8);
    WindowIsNotZero(v8, 8);
    WindowNarrows(v8, z8, 4);
    WindowIsNotZero(v4, 4);
    WindowNarrows(v4, z4, 2);
    WindowIsNotZero(v2, 2);
    WindowNarrows(v2, z2, 1);
  }

  // ---- Modified immediates ------------------------------------------------------------------

  // Section A6.3.2 of ARM DDI 0406B: ThumbExpandImm of i:imm3:imm8.
  function Imm8(e: bv16): bv32 { (e & 0xff) as bv32 }
  function Amount(e: bv16): bv32 { ((e >> 7) & 31) as bv32 }
  function Unrotated(e: bv16): bv32 { 0x80 | ((e & 0x7f) as bv32) }

  predicate IsRotated(e: bv16) { e & 0xc00 != 0 }

  lemma RotatedByEight(e: bv16)
    requires e & 0xc00 != 0
    ensures 8 <= ((e >> 7) & 31) as bv32 <= 31
  {
  }

  function ExpandPattern(pattern: bv16, x: bv32): bv32
  {
    if pattern == 0 then x
    else if pattern == 1 then (x << 16) | x
    else if pattern == 2 then (x << 24) | (x << 8)
    else (x << 24) | (x << 16) | (x << 8) | x
  }

  function Pattern(e: bv16): bv16 { (e >> 8) & 3 }

  function ThumbExpandImm(e: bv16): bv32
  {
    if IsRotated(e) then RotatedByEight(e); RotateRight(Unrotated(e), Amount(e))
    else ExpandPattern(Pattern(e), Imm8(e))
  }

  // Twelve bits, and no pattern of a zero byte, which is unpredictable.
  predicate IsImmediate(e: bv16) { e < 0x1000 && (!IsRotated(e) && Pattern(e) != 0 ==> Imm8(e) != 0) }

  ghost predicate IsConstant(v: bv32) { exists e: bv16 :: IsImmediate(e) && ThumbExpandImm(e) == v }

  // ---- makeEncodedImm ---------------------------------------------------------------------------

  function Byte(v: bv32, k: bv32): bv32
    requires k <= 3
  {
    (v >> (8 * k)) & 0xff
  }

  function EncodePattern(immediate: bv32, pattern: bv16): bv16
    requires immediate <= 0xff && pattern <= 3
  {
    (immediate as bv16) | (pattern << 8)
  }

  function EncodeShift(shifted: bv32, amount: bv32): bv16
  {
    ((shifted & 0x7f) as bv16) | (((amount & 31) as bv16) << 7)
  }

  // Given the number of zeros above it, is the value an eight-bit number shifted left?
  predicate IsShiftedByte(v: bv32, leadingZeros: bv32)
    requires leadingZeros < 24
  {
    var right := 24 - leadingZeros;
    v == (v >> right) << right
  }

  function EncodeShifted(v: bv32, leadingZeros: bv32): bv16
    requires leadingZeros < 24
  {
    EncodeShift(v >> (24 - leadingZeros), 8 + leadingZeros)
  }

  function EncodeBytes(v: bv32): Option<bv16>
  {
    var byte0, byte1, byte2, byte3 := Byte(v, 0), Byte(v, 1), Byte(v, 2), Byte(v, 3);
    if byte0 == byte1 && byte0 == byte2 && byte0 == byte3 then Some(EncodePattern(byte0, 3))
    else if byte0 == byte2 && byte1 | byte3 == 0 then Some(EncodePattern(byte0, 1))
    else if byte1 == byte3 && byte0 | byte2 == 0 then Some(EncodePattern(byte0, 2))
    else None
  }

  lemma FewLeadingZeros(v: bv32, z: bv32)
    requires v >= 256 && z <= 31 && v >> (31 - z) == 1
    ensures z < 24
  {
  }

  // What the source asserts after counting.
  lemma CountIsBelow24(v: bv32)
    requires v >= 256
    ensures CountLeadingZeros(v) < 24 && Leads(v, 32, CountLeadingZeros(v))
  {
    LeadingZerosAreCounted(v);
    hide CountLeadingZeros;
    FewLeadingZeros(v, CountLeadingZeros(v));
  }

  function MakeEncodedImm(v: bv32): Option<bv16>
  {
    if v < 256 then Some(EncodePattern(v, 0))
    else
      CountIsBelow24(v);
      var leadingZeros := CountLeadingZeros(v);
      if IsShiftedByte(v, leadingZeros) then Some(EncodeShifted(v, leadingZeros))
      else EncodeBytes(v)
  }

  // ---- Shifted bytes ------------------------------------------------------------------------------

  lemma EncodedShiftBits(q: bv32, n: bv32)
    requires 0x80 <= q <= 0xff && 8 <= n <= 31
    ensures IsRotated(((q & 0x7f) as bv16) | (((n & 31) as bv16) << 7))
    ensures Unrotated(((q & 0x7f) as bv16) | (((n & 31) as bv16) << 7)) == q
    ensures Amount(((q & 0x7f) as bv16) | (((n & 31) as bv16) << 7)) == n
    ensures ((q & 0x7f) as bv16) | (((n & 31) as bv16) << 7) < 0x1000
  {
  }

  lemma EncodedShift(q: bv32, n: bv32)
    requires 0x80 <= q <= 0xff && 8 <= n <= 31
    ensures var e := EncodeShift(q, n); IsRotated(e) && Unrotated(e) == q && Amount(e) == n && e < 0x1000
  {
    EncodedShiftBits(q, n);
    hide IsRotated, Unrotated, Amount;
  }


  lemma RotatedIsShifted(q: bv32, z: bv32)
    requires z < 24 && 0x80 <= q <= 0xff
    ensures RotateRight(q, 8 + z) == q << (24 - z)
  {
    assert (q >> (8 + z)) | (q << (32 - (8 + z))) == q << (24 - z);
  }

  lemma RotatedAmounts(z: bv32)
    requires z < 24
    ensures 8 <= 8 + z <= 31
  {
  }

  function TopEight(v: bv32, z: bv32): bv32
    requires z < 24
  {
    v >> (24 - z)
  }

  function Restored(q: bv32, z: bv32): bv32
    requires z < 24
  {
    q << (24 - z)
  }

  lemma EightBits(v: bv32, z: bv32)
    requires z < 24 && v >> (31 - z) == 1
    ensures 0x80 <= TopEight(v, z) <= 0xff
  {
  }

  lemma ShiftedByteIs(v: bv32, z: bv32)
    requires z < 24 && IsShiftedByte(v, z)
    ensures Restored(TopEight(v, z), z) == v
  {
  }

  lemma EncodedTopEight(v: bv32, z: bv32)
    requires z < 24
    ensures EncodeShifted(v, z) == EncodeShift(TopEight(v, z), 8 + z)
  {
    hide EncodeShift;
  }

  lemma ShiftExpands(v: bv32, z: bv32)
    requires z < 24 && v >> (31 - z) == 1 && IsShiftedByte(v, z)
    ensures var e := EncodeShifted(v, z); ThumbExpandImm(e) == v && IsImmediate(e)
  {
    hide EncodeShift, EncodeShifted, IsShiftedByte, TopEight, Restored, ThumbExpandImm, IsImmediate;
    EightBits(v, z);
    ShiftedByteIs(v, z);
    EncodedTopEight(v, z);
    EncodedByteExpands(TopEight(v, z), z);
  }

  lemma EncodedByteExpands(q: bv32, z: bv32)
    requires z < 24 && 0x80 <= q <= 0xff
    ensures var e := EncodeShift(q, 8 + z); ThumbExpandImm(e) == Restored(q, z) && IsImmediate(e)
  {
    hide EncodeShift, RotateRight, IsRotated, Unrotated, Amount;
    RotatedAmounts(z);
    EncodedShift(q, 8 + z);
    RotatedIsShifted(q, z);
  }

  lemma ShiftedByteExpands(v: bv32, z: bv32)
    requires z < 24 && Leads(v, 32, z) && IsShiftedByte(v, z)
    ensures var e := EncodeShifted(v, z); ThumbExpandImm(e) == v && IsImmediate(e)
  {
    hide EncodeShifted, IsShiftedByte, ThumbExpandImm, IsImmediate;
    ShiftExpands(v, z);
  }

  // ---- Byte patterns --------------------------------------------------------------------------------

  lemma EncodedPatternBits(x: bv32, p: bv16)
    requires x <= 0xff && p <= 3
    ensures !IsRotated((x as bv16) | (p << 8)) && Pattern((x as bv16) | (p << 8)) == p
    ensures Imm8((x as bv16) | (p << 8)) == x && (x as bv16) | (p << 8) < 0x1000
  {
  }

  lemma EncodedPattern(x: bv32, p: bv16)
    requires x <= 0xff && p <= 3
    ensures var e := EncodePattern(x, p);
      ThumbExpandImm(e) == ExpandPattern(p, x) && e < 0x1000 && (IsImmediate(e) <==> p == 0 || x != 0)
  {
    EncodedPatternBits(x, p);
    hide IsRotated, Pattern, Imm8, ExpandPattern;
  }

  lemma FromBytes(v: bv32)
    ensures v == (Byte(v, 3) << 24) | (Byte(v, 2) << 16) | (Byte(v, 1) << 8) | Byte(v, 0)
  {
    assert v == (((v >> 24) & 0xff) << 24) | (((v >> 16) & 0xff) << 16) | (((v >> 8) & 0xff) << 8) | (v & 0xff);
    assert Byte(v, 3) == (v >> 24) & 0xff && Byte(v, 2) == (v >> 16) & 0xff;
    assert Byte(v, 1) == (v >> 8) & 0xff && Byte(v, 0) == v & 0xff;
    hide Byte;
  }

  // 0xXY00XY00 with XY not zero.
  predicate IsHighPattern(v: bv32)
  {
    Byte(v, 1) == Byte(v, 3) && Byte(v, 0) == 0 && Byte(v, 2) == 0 && Byte(v, 1) != 0
  }

  lemma OrIsZero(x: bv32, y: bv32)
    ensures x | y == 0 <==> x == 0 && y == 0
  {
  }

  lemma BytesAreBytes(v: bv32)
    ensures Byte(v, 0) <= 0xff && Byte(v, 1) <= 0xff && Byte(v, 2) <= 0xff && Byte(v, 3) <= 0xff
  {
    assert (v >> 24) & 0xff <= 0xff && (v >> 16) & 0xff <= 0xff && (v >> 8) & 0xff <= 0xff && v & 0xff <= 0xff;
    assert Byte(v, 3) == (v >> 24) & 0xff && Byte(v, 2) == (v >> 16) & 0xff;
    assert Byte(v, 1) == (v >> 8) & 0xff && Byte(v, 0) == v & 0xff;
    hide Byte;
  }

  function Join(b3: bv32, b2: bv32, b1: bv32, b0: bv32): bv32 { (b3 << 24) | (b2 << 16) | (b1 << 8) | b0 }

  lemma PatternZero(x: bv32)
    requires x <= 0xff
    ensures ExpandPattern(0, x) == Join(0, 0, 0, x)
  {
  }

  lemma PatternOne(x: bv32)
    requires x <= 0xff
    ensures ExpandPattern(1, x) == Join(0, x, 0, x)
  {
  }

  lemma PatternTwo(x: bv32)
    requires x <= 0xff
    ensures ExpandPattern(2, x) == Join(x, 0, x, 0)
  {
  }

  lemma PatternThree(x: bv32)
    requires x <= 0xff
    ensures ExpandPattern(3, x) == Join(x, x, x, x)
  {
  }

  lemma PatternsJoin(x: bv32)
    requires x <= 0xff
    ensures ExpandPattern(3, x) == Join(x, x, x, x) && ExpandPattern(1, x) == Join(0, x, 0, x)
    ensures ExpandPattern(2, x) == Join(x, 0, x, 0) && ExpandPattern(0, x) == Join(0, 0, 0, x)
  {
    hide ExpandPattern, Join;
    PatternZero(x);
    PatternOne(x);
    PatternTwo(x);
    PatternThree(x);
  }

  lemma JoinedBytes(v: bv32)
    ensures v == Join(Byte(v, 3), Byte(v, 2), Byte(v, 1), Byte(v, 0))
  {
    FromBytes(v);
    hide Byte;
  }

  lemma JoinOfZeros()
    ensures Join(0, 0, 0, 0) == 0
  {
  }

  // The byte patterns expand to the value, but for the one that stores the wrong byte.
  lemma BytesExpand(v: bv32)
    requires v != 0 && EncodeBytes(v).Some?
    ensures var e := EncodeBytes(v).value;
      if IsHighPattern(v) then e == EncodePattern(0, 2) else ThumbExpandImm(e) == v && IsImmediate(e)
  {
    hide Byte, ThumbExpandImm, IsImmediate, EncodePattern, ExpandPattern, Join;
    BytesAreBytes(v);
    JoinedBytes(v);
    JoinOfZeros();
    OrIsZero(Byte(v, 1), Byte(v, 3));
    OrIsZero(Byte(v, 0), Byte(v, 2));
    PatternsJoin(Byte(v, 0));
    EncodedPattern(Byte(v, 0), 3);
    EncodedPattern(Byte(v, 0), 1);
  }

  lemma HighPatternIsEncoded(v: bv32)
    requires IsHighPattern(v)
    ensures EncodeBytes(v) == Some(EncodePattern(0, 2)) && v == ExpandPattern(2, Byte(v, 1)) && v != 0
    ensures ThumbExpandImm(EncodePattern(0, 2)) == 0
  {
    hide Byte, ThumbExpandImm, IsImmediate, EncodePattern, ExpandPattern, Join;
    BytesAreBytes(v);
    JoinedBytes(v);
    JoinOfZeros();
    OrIsZero(Byte(v, 1), Byte(v, 3));
    OrIsZero(Byte(v, 0), Byte(v, 2));
    PatternsJoin(Byte(v, 1));
    PatternsJoin(0);
    EncodedPattern(0, 2);
    assert Byte(0, 1) == 0 by { ZeroByte(); }
  }

  lemma ZeroByte()
    ensures Byte(0, 1) == 0
  {
  }

  // Two bytes that far apart are not one shifted byte.
  lemma HighPatternBits(x: bv32, z: bv32)
    requires x <= 0xff && x != 0 && z < 24 && ((x << 24) | (x << 8)) >> (31 - z) == 1
    ensures (x << 24) | (x << 8) != (((x << 24) | (x << 8)) >> (24 - z)) << (24 - z)
  {
  }

  lemma HighPatternIsNotShifted(v: bv32, z: bv32)
    requires IsHighPattern(v) && z < 24 && Leads(v, 32, z)
    ensures !IsShiftedByte(v, z) && v >= 256
  {
    hide Byte, ThumbExpandImm, EncodePattern, Join, EncodeBytes;
    BytesAreBytes(v);
    HighPatternIsEncoded(v);
    HighPatternBits(Byte(v, 1), z);
    HighIsLarge(Byte(v, 1));
    assert v == (Byte(v, 1) << 24) | (Byte(v, 1) << 8);
  }

  lemma HighIsLarge(x: bv32)
    requires 0 < x <= 0xff
    ensures (x << 24) | (x << 8) >= 256
  {
  }

  // ---- The contract of makeEncodedImm -----------------------------------------------------------------

  lemma SmallIsExact(v: bv32)
    requires v < 256
    ensures MakeEncodedImm(v) == Some(EncodePattern(v, 0)) && ThumbExpandImm(EncodePattern(v, 0)) == v
    ensures IsImmediate(EncodePattern(v, 0)) && !IsHighPattern(v)
  {
    hide ThumbExpandImm, IsImmediate, EncodePattern, Byte;
    EncodedPattern(v, 0);
    assert Byte(v, 1) == 0 by { SmallByte(v); }
  }

  lemma SmallByte(v: bv32)
    requires v < 256
    ensures Byte(v, 1) == 0
  {
    assert (v >> 8) & 0xff == 0;
  }

  // An encoding that is found expands back to the value exactly if the value is not of the
  // form 0xXY00XY00: for those the low byte, zero, is stored in place of XY.
  lemma EncodingExpandsIff(v: bv32)
    requires MakeEncodedImm(v).Some?
    ensures var e := MakeEncodedImm(v).value;
      && (ThumbExpandImm(e) == v <==> !IsHighPattern(v))
      && (!IsHighPattern(v) ==> IsImmediate(e))
  {
    hide ThumbExpandImm, IsImmediate, EncodePattern, EncodeShifted, IsHighPattern, IsShiftedByte, EncodeBytes,
      CountLeadingZeros, Leads;
    if v < 256 {
      SmallIsExact(v);
    } else {
      CountIsBelow24(v);
      var z := CountLeadingZeros(v);
      if IsHighPattern(v) {
        HighPatternIsNotShifted(v, z);
        HighPatternIsEncoded(v);
      } else if IsShiftedByte(v, z) {
        ShiftedByteExpands(v, z);
      } else {
        BytesExpand(v);
      }
    }
  }

  // ---- Completeness ----------------------------------------------------------------------------------

  lemma FieldRanges(e: bv16)
    ensures 0x80 <= Unrotated(e) <= 0xff && Imm8(e) <= 0xff && Pattern(e) <= 3
    ensures IsRotated(e) ==> 8 <= Amount(e) <= 31
  {
    assert 0x80 <= 0x80 | ((e & 0x7f) as bv32) <= 0xff;
    assert (e & 0xff) as bv32 <= 0xff && (e >> 8) & 3 <= 3;
    if IsRotated(e) { RotatedByEight(e); }
  }

  lemma RotatedBits(q: bv32, n: bv32)
    requires 8 <= n <= 31 && 0x80 <= q <= 0xff
    ensures ((q >> n) | (q << (32 - n))) >> (31 - (n - 8)) == 1
    ensures ((q >> n) | (q << (32 - n))) >= 256
  {
  }

  lemma RotatedIsShiftedByte(q: bv32, n: bv32)
    requires 8 <= n <= 31 && q <= 0xff
    ensures var v := (q >> n) | (q << (32 - n)); var r := 24 - (n - 8); (v >> r) << r == v
  {
  }

  lemma CountIsUnique(v: bv32, y: bv32, z: bv32)
    requires Leads(v, 32, y) && Leads(v, 32, z)
    ensures y == z
  {
    CountBitsAreUnique(v, y, z);
  }

  lemma CountBitsAreUnique(v: bv32, y: bv32, z: bv32)
    requires y <= 31 && z <= 31 && v >> (31 - y) == 1 && v >> (31 - z) == 1
    ensures y == z
  {
  }

  lemma RotatedShape(q: bv32, n: bv32, z: bv32)
    requires 8 <= n <= 31 && 0x80 <= q <= 0xff && z == n - 8
    ensures z < 24 && Leads(RotateRight(q, n), 32, z) && IsShiftedByte(RotateRight(q, n), z) && RotateRight(q, n) >= 256
  {
    RotatedBits(q, n);
    RotatedIsShiftedByte(q, n);
    assert RotateRight(q, n) == (q >> n) | (q << (32 - n));
    hide RotateRight;
  }

  lemma RotatedIsFound(q: bv32, n: bv32)
    requires 8 <= n <= 31 && 0x80 <= q <= 0xff
    ensures MakeEncodedImm(RotateRight(q, n)).Some?
  {
    hide RotateRight, Leads, IsShiftedByte, EncodeShifted, CountLeadingZeros, EncodeBytes, EncodePattern;
    var v := RotateRight(q, n);
    RotatedShape(q, n, n - 8);
    CountIsBelow24(v);
    CountIsUnique(v, n - 8, CountLeadingZeros(v));
  }

  lemma BytesOfJoin(b3: bv32, b2: bv32, b1: bv32, b0: bv32)
    requires b3 <= 0xff && b2 <= 0xff && b1 <= 0xff && b0 <= 0xff
    ensures Byte((b3 << 24) | (b2 << 16) | (b1 << 8) | b0, 3) == b3
    ensures Byte((b3 << 24) | (b2 << 16) | (b1 << 8) | b0, 2) == b2
    ensures Byte((b3 << 24) | (b2 << 16) | (b1 << 8) | b0, 1) == b1
    ensures Byte((b3 << 24) | (b2 << 16) | (b1 << 8) | b0, 0) == b0
  {
  }

  lemma BytesOf(b3: bv32, b2: bv32, b1: bv32, b0: bv32)
    requires b3 <= 0xff && b2 <= 0xff && b1 <= 0xff && b0 <= 0xff
    ensures var v := Join(b3, b2, b1, b0); Byte(v, 3) == b3 && Byte(v, 2) == b2 && Byte(v, 1) == b1 && Byte(v, 0) == b0
  {
    BytesOfJoin(b3, b2, b1, b0);
    hide Byte;
  }

  lemma PatternIsFound(x: bv32, p: bv16)
    requires x <= 0xff && 1 <= p <= 3
    ensures EncodeBytes(ExpandPattern(p, x)).Some?
  {
    hide Byte, EncodePattern, ExpandPattern, Join;
    PatternsJoin(x);
    OrIsZero(0, 0);
    BytesOf(0, x, 0, x);
    BytesOf(x, 0, x, 0);
    BytesOf(x, x, x, x);
    BytesAreBytes(ExpandPattern(p, x));
  }

  lemma LargeIsFound(v: bv32)
    requires EncodeBytes(v).Some?
    ensures MakeEncodedImm(v).Some?
  {
    hide EncodeBytes, EncodePattern, IsShiftedByte, EncodeShifted, CountLeadingZeros;
    if v >= 256 { CountIsBelow24(v); }
  }

  lemma EveryConstantIsFound(e: bv16)
    requires IsImmediate(e)
    ensures MakeEncodedImm(ThumbExpandImm(e)).Some?
  {
    hide MakeEncodedImm, RotateRight, Unrotated, Amount, Imm8, ExpandPattern, EncodeBytes, Pattern, IsRotated;
    FieldRanges(e);
    if IsRotated(e) {
      RotatedIsFound(Unrotated(e), Amount(e));
    } else if Pattern(e) == 0 {
      PatternZeroIsItself(Imm8(e));
      SmallIsExact(Imm8(e));
    } else {
      PatternIsFound(Imm8(e), Pattern(e));
      LargeIsFound(ExpandPattern(Pattern(e), Imm8(e)));
    }
  }

  lemma PatternZeroIsItself(x: bv32)
    ensures ExpandPattern(0, x) == x
  {
  }

  // makeEncodedImm is valid exactly for the constants of section A6.3.2.
  lemma ValidIffConstant(v: bv32)
    ensures MakeEncodedImm(v).Some? <==> IsConstant(v)
  {
    hide MakeEncodedImm, ThumbExpandImm, IsImmediate, IsHighPattern;
    if MakeEncodedImm(v).Some? {
      EncodingExpandsIff(v);
      if IsHighPattern(v) { HighPatternIsConstant(v); }
    }
    if IsConstant(v) {
      var e: bv16 :| IsImmediate(e) && ThumbExpandImm(e) == v;
      EveryConstantIsFound(e);
    }
  }

  lemma HighPatternIsConstant(v: bv32)
    requires IsHighPattern(v)
    ensures IsConstant(v)
  {
    hide Byte, ThumbExpandImm, IsImmediate, EncodePattern, ExpandPattern, EncodeBytes;
    BytesAreBytes(v);
    HighPatternIsEncoded(v);
    EncodedPattern(Byte(v, 1), 2);
    assert IsImmediate(EncodePattern(Byte(v, 1), 2));
  }

  // A value of the failing form: the encoding of 0xab00ab00 expands to zero.
  lemma HighPatternExample()
    ensures MakeEncodedImm(0xab00_ab00) == Some(0x200) && ThumbExpandImm(0x200) == 0 && IsConstant(0xab00_ab00)
  {
    var v: bv32 := 0xab00_ab00;
    assert Byte(v, 1) == 0xab && Byte(v, 3) == 0xab && Byte(v, 0) == 0 && Byte(v, 2) == 0;
    assert EncodePattern(0, 2) == 0x200;
    hide Byte, EncodeBytes, EncodePattern, IsShiftedByte, Leads, CountLeadingZeros, ThumbExpandImm, IsConstant, EncodeShifted;
    assert IsHighPattern(v);
    CountIsBelow24(v);
    HighPatternIsNotShifted(v, CountLeadingZeros(v));
    HighPatternIsEncoded(v);
    HighPatternIsConstant(v);
  }
}
