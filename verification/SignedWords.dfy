// 32-bit words: shifts, rotations, signed arithmetic and when it overflows.
module SignedWords {

  predicate IsNegative(w: bv32) { w & 0x8000_0000 != 0 }

  function Sra31(w: bv32): bv32 { if IsNegative(w) then 0xffff_ffff else 0 }

  // Flipping the sign bit and subtracting it copies it into all higher bits.
  function SignExtend64(w: bv32): bv64 { ((w as bv64) ^ 0x8000_0000) - 0x8000_0000 }

  function Sum(x: bv32, y: bv32): bv32 { x + y }
  function Difference(x: bv32, y: bv32): bv32 { x - y }
  function Xor(x: bv32, y: bv32): bv32 { x ^ y }

  function Shifted(x: bv32, n: bv5): bv32 { x << n }

  function RotateRight(x: bv32, n: bv32): bv32
    requires n <= 31
  {
    (x >> n) | (x << (32 - n))
  }

  function Product(x: bv32, y: bv32): bv64 { SignExtend64(x) * SignExtend64(y) }
  function Low32(p: bv64): bv32 { (p & 0xffff_ffff) as bv32 }
  function High32(p: bv64): bv32 { (p >> 32) as bv32 }

  // ---- Overflow ------------------------------------------------------------------------------

  // The 64-bit sum of sign-extended operands is exact.
  predicate IsExactSum(x: bv32, y: bv32, sum: bv32)
  {
    (((x as bv64) ^ 0x8000_0000) - 0x8000_0000) + (((y as bv64) ^ 0x8000_0000) - 0x8000_0000)
      == ((sum as bv64) ^ 0x8000_0000) - 0x8000_0000
  }

  predicate AddOverflows(x: bv32, y: bv32) { !IsExactSum(x, y, Sum(x, y)) }

  predicate SubOverflows(x: bv32, y: bv32) { !IsExactSum(Difference(x, y), y, x) }

  // So is the 64-bit product.
  predicate MulOverflows(x: bv32, y: bv32) { Product(x, y) != SignExtend64(Low32(Product(x, y))) }

  predicate SignsAgree(x: bv32, y: bv32) { (x ^ y) & 0x8000_0000 == 0 }

  lemma SignsOfSum(x: bv32, y: bv32)
    ensures IsExactSum(x, y, x + y) <==> (x ^ y) & 0x8000_0000 != 0 || ((x + y) ^ x) & 0x8000_0000 == 0
  {
    assert (((x as bv64) ^ 0x8000_0000) - 0x8000_0000) + (((y as bv64) ^ 0x8000_0000) - 0x8000_0000)
        == (((x + y) as bv64) ^ 0x8000_0000) - 0x8000_0000
      <==> (x ^ y) & 0x8000_0000 != 0 || ((x + y) ^ x) & 0x8000_0000 == 0;
  }

  lemma NegativeXor(x: bv32, y: bv32)
    ensures IsNegative(Xor(x, y)) <==> !SignsAgree(x, y)
  {
  }

  lemma SumSignsAgree(x: bv32, y: bv32)
    ensures IsExactSum(x, y, x + y) <==> !SignsAgree(x, y) || SignsAgree(x + y, x)
  {
    SignsOfSum(x, y);
    hide IsExactSum;
  }

  // Operands of one sign overflow if the sum has the other.
  lemma AddOverflowsIff(x: bv32, y: bv32)
    ensures AddOverflows(x, y) <==> !IsNegative(Xor(x, y)) && IsNegative(Xor(Sum(x, y), x))
  {
    SumSignsAgree(x, y);
    NegativeXor(x, y);
    NegativeXor(Sum(x, y), x);
    hide IsExactSum, SignsAgree, IsNegative, Xor;
  }

  lemma BackAgain(x: bv32, y: bv32)
    ensures Sum(x - y, y) == x && Difference(x, y) == x - y
  {
  }

  lemma SignsAreTwo(x: bv32, y: bv32, z: bv32)
    ensures SignsAgree(x, y) == SignsAgree(y, x)
    ensures SignsAgree(x, y) && SignsAgree(y, z) ==> SignsAgree(x, z)
    ensures !SignsAgree(x, y) && !SignsAgree(y, z) ==> SignsAgree(x, z)
  {
  }

  // Operands of different signs overflow if the difference has not the sign of the first.
  lemma SubOverflowsIff(x: bv32, y: bv32)
    ensures SubOverflows(x, y) <==> IsNegative(Xor(x, y)) && IsNegative(Xor(Difference(x, y), x))
  {
    var d := Difference(x, y);
    BackAgain(x, y);
    AddOverflowsIff(d, y);
    SignsAreTwo(x, d, y);
    SignsAreTwo(x, y, d);
    SignsAreTwo(d, y, x);
    NegativeXor(x, y);
    NegativeXor(d, x);
    NegativeXor(d, y);
    NegativeXor(x, d);
    hide IsExactSum, SignsAgree, IsNegative, Xor, Sum, Difference;
  }

  lemma HighOfPositive(p: bv64)
    requires p & 0x8000_0000 == 0
    ensures p != SignExtend64(Low32(p)) <==> High32(p) != 0
  {
  }

  lemma HighOfNegative(p: bv64)
    requires p & 0x8000_0000 != 0
    ensures p != SignExtend64(Low32(p)) <==> High32(p) != 0xffff_ffff
  {
  }

  lemma SignOfLow(p: bv64)
    ensures p & 0x8000_0000 != 0 <==> IsNegative(Low32(p))
  {
  }

  // All bits above bit 31 of the product are copies of it, or the product overflows.
  lemma MulOverflowsIff(x: bv32, y: bv32)
    ensures MulOverflows(x, y) <==> High32(Product(x, y)) != Sra31(Low32(Product(x, y)))
  {
    hide Product, SignExtend64, Low32, High32, IsNegative;
    var p := Product(x, y);
    SignOfLow(p);
    if p & 0x8000_0000 == 0 {
      HighOfPositive(p);
    } else {
      HighOfNegative(p);
    }
  }
}
