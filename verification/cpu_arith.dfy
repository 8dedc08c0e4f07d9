/** The CPU's arithmetic: overflow tests, multiplication, division, the merges of unaligned accesses. */
module CpuArith {
  import opened Words

  // ---- Overflow ----

  function AddOverflow(oldValue: Word, addValue: Word, newValue: Word): bool
  {
    And(And(Xor(newValue, oldValue), Xor(newValue, addValue)), 0x8000_0000) != 0
  }

  function SubOverflow(oldValue: Word, subValue: Word, newValue: Word): bool
  {
    And(And(Xor(newValue, oldValue), Xor(oldValue, subValue)), 0x8000_0000) != 0
  }

  predicate FitsSigned(x: int) { -0x8000_0000 <= x < 0x8000_0000 }

  lemma SignBit(w: Word)
    ensures Bit(w, 31) <==> Signed(w) < 0
  {
    Pow2Values();
    TopBit(w, 31);
  }

  lemma MaskedSign(x: nat)
    ensures And(x, 0x8000_0000) != 0 <==> Bit(x, 31)
  {
    Pow2Values();
    AndOneBit(x, 31);
  }

  /** The sign-bit test on a sum is true exactly when the signed sum does not fit. */
  lemma AddOverflowExact(a: Word, b: Word)
    ensures AddOverflow(a, b, Wrap(a + b)) <==> !FitsSigned(Signed(a) + Signed(b))
    ensures !AddOverflow(a, b, Wrap(a + b)) ==> Signed(Wrap(a + b)) == Signed(a) + Signed(b)
  {
    var v := Wrap(a + b);
    MaskedSign(And(Xor(v, a), Xor(v, b)));
    BitwiseAt(Xor(v, a), Xor(v, b), 31);
    BitwiseAt(v, a, 31);
    BitwiseAt(v, b, 31);
    SignBit(a);
    SignBit(b);
    SignBit(v);
    hide And, Xor, Bit;
    WrapSigned(a + b, Signed(a) + Signed(b));
  }

  lemma SubOverflowExact(a: Word, b: Word)
    ensures SubOverflow(a, b, Wrap(a - b)) <==> !FitsSigned(Signed(a) - Signed(b))
    ensures !SubOverflow(a, b, Wrap(a - b)) ==> Signed(Wrap(a - b)) == Signed(a) - Signed(b)
  {
    var v := Wrap(a - b);
    MaskedSign(And(Xor(v, a), Xor(a, b)));
    BitwiseAt(Xor(v, a), Xor(a, b), 31);
    BitwiseAt(v, a, 31);
    BitwiseAt(a, b, 31);
    SignBit(a);
    SignBit(b);
    SignBit(v);
    hide And, Xor, Bit;
    WrapSigned(a - b, Signed(a) - Signed(b));
  }

  /** Wrapping a number within two words of the signed range. */
  lemma WrapSigned(x: int, s: int)
    requires -0x1_0000_0000 <= s < 0x1_0000_0000
    requires x == s || x == s + 0x1_0000_0000 || x == s - 0x1_0000_0000 || x == s + 0x2_0000_0000
    ensures s >= 0x8000_0000 ==> Signed(Wrap(x)) == s - 0x1_0000_0000
    ensures FitsSigned(s) ==> Signed(Wrap(x)) == s
    ensures s < -0x8000_0000 ==> Signed(Wrap(x)) == s + 0x1_0000_0000
  {
    var k := if s < 0 then s + 0x1_0000_0000 else s;
    var q := (x - k) / 0x1_0000_0000;
    ModUnique(x, 0x1_0000_0000, q, k);
  }

  // ---- Multiplication and division ----

  /** A 64-bit product split over HI and LO. */
  function HiLo(product: int): (Word, Word)
  {
    var v: nat := product % 0x1_0000_0000_0000_0000;
    (v / 0x1_0000_0000, v % 0x1_0000_0000)
  }

  function MultHiLo(a: Word, b: Word): (Word, Word) { HiLo(Signed(a) * Signed(b)) }

  function MultuHiLo(a: Word, b: Word): (Word, Word) { HiLo((a as int) * (b as int)) }

  /** Division as C++ does it: the quotient is truncated toward zero. */
  function TruncDiv(n: int, d: int): int
    requires d != 0
  {
    if n >= 0 then (if d > 0 then n / d else -(n / -d))
    else if d > 0 then -(-n / d) else -n / -d
  }

  function TruncMod(n: int, d: int): int
    requires d != 0
  {
    n - d * TruncDiv(n, d)
  }

  function DivHiLo(a: Word, b: Word): (Word, Word)
  {
    var n, d := Signed(a), Signed(b);
    if d == 0 then (a, if n >= 0 then 0xffff_ffff else 1)
    else if a == 0x8000_0000 && d == -1 then (0, 0x8000_0000)
    else (Wrap(TruncMod(n, d)), Wrap(TruncDiv(n, d)))
  }

  function DivuHiLo(n: Word, d: Word): (Word, Word)
  {
    if d == 0 then (n, 0xffff_ffff) else (UnsignedMod(n, d), UnsignedDiv(n, d))
  }

  function UnsignedMod(n: Word, d: Word): Word
    requires d > 0
  {
    var r: int, w: int := (n as int) % (d as int), d; r
  }

  function UnsignedDiv(n: Word, d: Word): Word
    requires d > 0
  {
    DivBound(n, d); (n as int) / (d as int)
  }

  /** HI:LO read as a signed 64-bit number. */
  function Signed64(hi: Word, lo: Word): int
  {
    var v: int := hi * 0x1_0000_0000 + lo;
    if hi < 0x8000_0000 then v else v - 0x1_0000_0000_0000_0000
  }

  /** HI:LO is the exact product. */
  lemma MultExact(a: Word, b: Word)
    ensures var (hi, lo) := MultHiLo(a, b); Signed64(hi, lo) == Signed(a) * Signed(b)
    ensures var (hi, lo) := MultuHiLo(a, b); hi * 0x1_0000_0000 + lo == (a as int) * (b as int)
  {
    ProductBound(Signed(a), Signed(b), 0x8000_0000);
    ProductBound(a, b, 0xffff_ffff);
    SplitProduct(Signed(a) * Signed(b));
    SplitProduct((a as int) * (b as int));
  }

  lemma ProductBound(x: int, y: int, m: int)
    requires -m <= x <= m && -m <= y <= m
    ensures -(m * m) <= x * y <= m * m
    ensures x >= 0 && y >= 0 ==> x * y >= 0
  {
    var u := if x < 0 then -x else x;
    var w := if y < 0 then -y else y;
    Product(u, w, m, m);
    assert x * y == u * w || x * y == -(u * w);
  }

  lemma SplitProduct(p: int)
    ensures var (hi, lo) := HiLo(p);
            && hi * 0x1_0000_0000 + lo == p % 0x1_0000_0000_0000_0000
            && (0 <= p < 0x1_0000_0000_0000_0000 ==> hi * 0x1_0000_0000 + lo == p)
            && (-0x8000_0000_0000_0000 <= p < 0x8000_0000_0000_0000 ==> Signed64(hi, lo) == p)
  {
  }

  /** Truncating division: the remainder is smaller than the divisor and has the dividend's sign. */
  lemma TruncDivExact(n: int, d: int)
    requires d != 0
    ensures n == d * TruncDiv(n, d) + TruncMod(n, d)
    ensures Abs(TruncMod(n, d)) < Abs(d)
    ensures TruncMod(n, d) != 0 ==> (TruncMod(n, d) < 0 <==> n < 0)
    ensures Abs(TruncDiv(n, d)) <= Abs(n)
  {
    var m: int, e: int := Abs(n), Abs(d);
    var q: int, r: int := m / e, m % e;
    assert m == q * e + r;
    DivBound(m, e);
    var sameSign := (n >= 0) == (d > 0);
    assert TruncDiv(n, d) == if sameSign then q else -q;
    hide TruncDiv;
    SignedProduct(q, e, sameSign, d > 0);
  }

  lemma SignedProduct(q: int, e: int, sameSign: bool, positive: bool)
    ensures (if positive then e else -e) * (if sameSign then q else -q)
         == if sameSign == positive then q * e else -(q * e)
  {
  }

  function Abs(x: int): nat { if x < 0 then -x else x }

  /** For every non-zero divisor, quotient times divisor plus remainder is the dividend modulo
      2^32, the remainder is smaller than the divisor, and it has the dividend's sign: also
      when the quotient of -2^31 by -1 does not fit. */
  lemma DivExact(a: Word, b: Word)
    requires b != 0
    ensures var (hi, lo) := DivHiLo(a, b);
            && Wrap(Signed(lo) * Signed(b) + Signed(hi)) == a
            && Abs(Signed(hi)) < Abs(Signed(b))
            && (hi != 0 ==> (Signed(hi) < 0 <==> Signed(a) < 0))
            && (!(a == 0x8000_0000 && b == 0xffff_ffff) ==>
                  Signed(lo) == TruncDiv(Signed(a), Signed(b)) && Signed(hi) == TruncMod(Signed(a), Signed(b)))
  {
    var n, d := Signed(a), Signed(b);
    if a == 0x8000_0000 && d == -1 {
    } else {
      TruncDivExact(n, d);
      QuotientFits(n, d);
      var q, r := TruncDiv(n, d), TruncMod(n, d);
      WrapSigned(q, q);
      WrapSigned(r, r);
      assert q * d + r == n;
    }
  }

  lemma QuotientFits(n: int, d: int)
    requires FitsSigned(n) && FitsSigned(d) && d != 0 && !(n == -0x8000_0000 && d == -1)
    ensures FitsSigned(TruncDiv(n, d)) && FitsSigned(TruncMod(n, d))
  {
    TruncDivExact(n, d);
  }

  lemma DivuExact(n: Word, d: Word)
    requires d != 0
    ensures var (hi, lo) := DivuHiLo(n, d); (lo as int) * (d as int) + hi == n && hi < d
  {
  }

  // ---- Unaligned merges ----

  /** Keeps the low bytes of `keep` and puts the low bytes of `w` above them. */
  function MergeLeft(keep: Word, w: Word, offset: nat): Word
    requires offset < 4
  {
    match offset
    case 0 => OrWord(keep % 0x100_0000, ShiftLeft(w, 24))
    case 1 => OrWord(keep % 0x1_0000, ShiftLeft(w, 16))
    case 2 => OrWord(keep % 0x100, ShiftLeft(w, 8))
    case 3 => w
  }

  /** The other merge: it shifts `w` down onto the bytes that are kept. */
  function MergeRight(keep: Word, w: Word, offset: nat): Word
    requires offset < 4
  {
    match offset
    case 0 => OrWord(keep % 0x100_0000, ShiftRight(w, 24))
    case 1 => OrWord(keep % 0x1_0000, ShiftRight(w, 16))
    case 2 => OrWord(keep % 0x100, ShiftRight(w, 8))
    case 3 => w
  }
}
