/** Machine words, and the shifts and bit operations the emulator applies to them. */
module Words {

  type Byte = x: int | 0 <= x < 0x100
  type Half = x: int | 0 <= x < 0x1_0000
  type Word = x: int | 0 <= x < 0x1_0000_0000

  /** Conversion of any integer to an unsigned 32-bit word. */
  function Wrap(x: int): Word { x % 0x1_0000_0000 }

  /** A word read as a two's complement number. */
  function Signed(w: Word): int { if w < 0x8000_0000 then w else w - 0x1_0000_0000 }

  function Signed16(h: Half): int { if h < 0x8000 then h else h - 0x1_0000 }

  function Signed8(b: Byte): int { if b < 0x80 then b else b - 0x100 }

  function Pow2(n: nat): (r: nat)
    ensures r >= 1
  {
    if n == 0 then 1 else 2 * Pow2(n - 1)
  }

  /** Bit `k` of `x`, bit 0 being the lowest. */
  predicate Bit(x: nat, k: nat)
  {
    if k == 0 then x % 2 == 1 else Bit(x / 2, k - 1)
  }

  function And(x: nat, y: nat): (r: nat)
    ensures r <= x && r <= y
  {
    if x == 0 || y == 0 then 0
    else 2 * And(x / 2, y / 2) + if x % 2 == 1 && y % 2 == 1 then 1 else 0
  }

  function Or(x: nat, y: nat): nat
  {
    if x == 0 then y
    else if y == 0 then x
    else 2 * Or(x / 2, y / 2) + if x % 2 == 1 || y % 2 == 1 then 1 else 0
  }

  function Xor(x: nat, y: nat): nat
  {
    if x == 0 then y
    else if y == 0 then x
    else 2 * Xor(x / 2, y / 2) + if x % 2 != y % 2 then 1 else 0
  }

  function OrWord(x: Word, y: Word): Word
  {
    Pow2Values(); OrXorBound(x, y, 32); Or(x, y)
  }

  function XorWord(x: Word, y: Word): Word
  {
    Pow2Values(); OrXorBound(x, y, 32); Xor(x, y)
  }

  function Not(x: Word): Word { 0xffff_ffff - x }

  function ShiftLeft(x: Word, n: nat): Word { Wrap(x * Pow2(n)) }

  function ShiftRight(x: Word, n: nat): Word
  {
    DivBound(x, Pow2(n)); x / Pow2(n)
  }

  /** The shift that copies the sign bit: C++'s `>>` on a signed operand. */
  function ShiftRightSigned(x: Word, n: nat): Word { Wrap(Signed(x) / Pow2(n)) }

  lemma Pow2Values()
    ensures Pow2(8) == 0x100 && Pow2(16) == 0x1_0000 && Pow2(24) == 0x100_0000
    ensures Pow2(19) == 0x8_0000 && Pow2(31) == 0x8000_0000 && Pow2(32) == 0x1_0000_0000
  {
    assert Pow2(8) == 0x100;
    assert Pow2(16) == 0x1_0000;
    assert Pow2(24) == 0x100_0000;
  }

  lemma DivBound(x: nat, d: nat)
    requires d >= 1
    ensures 0 <= x / d <= x
  {
    var q := x / d;
    assert x == q * d + x % d && q >= 0;
    NatTimes(q, d);
  }

  lemma Product(a: int, b: int, m: int, n: int)
    requires 0 <= a <= m && 0 <= b <= n
    ensures 0 <= a * b <= m * n
    ensures a * b == 0 <==> a == 0 || b == 0
  {
    assert m * n - a * b == (m - a) * n + a * (n - b);
  }

  /** Unsigned 32-bit addition wraps once, however often the operands did. */
  lemma WrapAdd(x: int, d: int)
    ensures Wrap(Wrap(x) + d) == Wrap(x + d)
  {
    var q, y := x / 0x1_0000_0000, Wrap(x) + d;
    assert x + d == 0x1_0000_0000 * q + y;
    ModUnique(x + d, 0x1_0000_0000, q + y / 0x1_0000_0000, y % 0x1_0000_0000);
  }

  lemma NatTimes(q: int, d: int)
    requires q >= 0 && d >= 1
    ensures q * d >= q
  {
    assert q * d - q == q * (d - 1);
  }

  lemma OrXorBound(x: nat, y: nat, n: nat)
    requires x < Pow2(n) && y < Pow2(n)
    ensures Or(x, y) < Pow2(n) && Xor(x, y) < Pow2(n)
  {
    if x != 0 && y != 0 {
      OrXorBound(x / 2, y / 2, n - 1);
    }
  }

  /** Every bit of AND, OR and XOR depends on that bit of the operands alone. */
  lemma {:induction false} BitwiseAt(x: nat, y: nat, k: nat)
    ensures Bit(And(x, y), k) == (Bit(x, k) && Bit(y, k))
    ensures Bit(Or(x, y), k) == (Bit(x, k) || Bit(y, k))
    ensures Bit(Xor(x, y), k) == (Bit(x, k) != Bit(y, k))
  {
    ZeroBits(k);
    if x != 0 && y != 0 {
      BitwiseStep(x, y);
      if k > 0 { BitwiseAt(x / 2, y / 2, k - 1); }
      hide And, Or, Xor;
    }
  }

  lemma BitwiseStep(x: nat, y: nat)
    requires x != 0 && y != 0
    ensures And(x, y) / 2 == And(x / 2, y / 2) && (And(x, y) % 2 == 1 <==> x % 2 == 1 && y % 2 == 1)
    ensures Or(x, y) / 2 == Or(x / 2, y / 2) && (Or(x, y) % 2 == 1 <==> x % 2 == 1 || y % 2 == 1)
    ensures Xor(x, y) / 2 == Xor(x / 2, y / 2) && (Xor(x, y) % 2 == 1 <==> x % 2 != y % 2)
  {
  }

  lemma {:induction false} ZeroBits(k: nat)
    ensures !Bit(0, k)
  {
    if k > 0 { ZeroBits(k - 1); }
  }

  /** Masking with a run of low ones keeps the remainder. */
  lemma {:induction false} AndLowMask(x: nat, k: nat)
    ensures And(x, Pow2(k) - 1) == x % Pow2(k)
  {
    hide And;
    if k == 0 {
      AndNothing(x);
    } else {
      var p := Pow2(k - 1);
      AndLowMask(x / 2, k - 1);
      ModDouble(x, p);
      AndDouble(x, x / 2, x % 2, 2 * p - 1, p - 1, 1);
    }
  }

  lemma AndNothing(x: nat)
    ensures And(x, 0) == 0 && x % 1 == 0
  {
  }

  lemma ModDouble(x: nat, p: nat)
    requires p >= 1
    ensures x % (2 * p) == 2 * (x / 2 % p) + x % 2
  {
    var q := x / 2 / p;
    var r := x / 2 % p;
    assert x / 2 == q * p + r;
    assert x == q * (2 * p) + (2 * r + x % 2);
    ModUnique(x, 2 * p, q, 2 * r + x % 2);
  }

  lemma ModUnique(x: int, d: int, q: int, r: int)
    requires d >= 1 && 0 <= r && x == q * d + r && r < d
    ensures x % d == r && x / d == q
  {
    var q', r' := x / d, x % d;
    assert x == q' * d + r';
    var e := q - q';
    assert e * d == r' - r;
    assert e >= 1 ==> e * d >= d;
    assert e <= -1 ==> e * d <= -d;
  }

  lemma DivDiv(x: nat, a: nat, b: nat)
    requires a >= 1 && b >= 1
    ensures a * b >= 1 && x / (a * b) == x / a / b
  {
    var y: int, s: int := x / a, x % a;
    var q: int, r: int := y / b, y % b;
    assert x == y * a + s && y == q * b + r;
    Nested(x, a, b, q, r, s);
    ModUnique(x, a * b, q, r * a + s);
  }

  lemma Nested(x: int, a: int, b: int, q: int, r: int, s: int)
    requires a >= 1 && b >= 1 && x == (q * b + r) * a + s && 0 <= r < b && 0 <= s < a
    ensures a * b >= 1 && x == q * (a * b) + (r * a + s) && 0 <= r * a + s < a * b
  {
    NatTimes(a, b);
    var t := b - 1 - r;
    assert a * b == t * a + a + r * a;
    NonNegative(t, a);
    NonNegative(r, a);
    Distribute(x, a, b, q, r, s);
  }

  lemma NonNegative(x: int, y: int)
    requires x >= 0 && y >= 0
    ensures x * y >= 0
  {
  }

  lemma Distribute(x: int, a: int, b: int, q: int, r: int, s: int)
    requires x == (q * b + r) * a + s
    ensures x == q * (a * b) + (r * a + s)
  {
    assert (q * b + r) * a == q * b * a + r * a;
    assert q * b * a == q * (a * b);
  }

  /** Masking with one bit tests that bit. */
  lemma {:induction false} AndOneBit(x: nat, k: nat)
    ensures And(x, Pow2(k)) == if Bit(x, k) then Pow2(k) else 0
  {
    if k == 0 {
      assert And(x / 2, 0) == 0;
    } else {
      if x == 0 { ZeroBits(k); } else { AndOneBit(x / 2, k - 1); }
      assert Pow2(k) / 2 == Pow2(k - 1) && Pow2(k) % 2 == 0;
    }
  }

  lemma {:induction false} TopBit(x: nat, k: nat)
    requires x < Pow2(k + 1)
    ensures Bit(x, k) <==> x >= Pow2(k)
  {
    if k > 0 { TopBit(x / 2, k - 1); }
  }

  /** AND works on each hexadecimal digit separately. */
  lemma AndDigit(x: nat, a: nat, n: nat, y: nat, b: nat, m: nat)
    requires x == 16 * a + n && n < 16
    requires y == 16 * b + m && m < 16
    ensures And(x, y) == 16 * And(a, b) + And(n, m)
  {
    hide And;
    var u, v := 4 * a + n / 4, 4 * b + m / 4;
    AndHalfDigit(x, u, n % 4, y, v, m % 4);
    AndHalfDigit(u, a, n / 4, v, b, m / 4);
    AndHalfDigit(n, n / 4, n % 4, m, m / 4, m % 4);
  }

  lemma AndHalfDigit(x: nat, a: nat, n: nat, y: nat, b: nat, m: nat)
    requires x == 4 * a + n && n < 4
    requires y == 4 * b + m && m < 4
    ensures And(x, y) == 4 * And(a, b) + And(n, m)
  {
    hide And;
    var u, v := 2 * a + n / 2, 2 * b + m / 2;
    AndDouble(x, u, n % 2, y, v, m % 2);
    AndDouble(u, a, n / 2, v, b, m / 2);
    AndDouble(n, n / 2, n % 2, m, m / 2, m % 2);
    AndDouble(n / 2, 0, n / 2, m / 2, 0, m / 2);
  }

  lemma AndDouble(x: nat, a: nat, c: nat, y: nat, b: nat, d: nat)
    requires x == 2 * a + c && c < 2
    requires y == 2 * b + d && d < 2
    ensures And(x, y) == 2 * And(a, b) + if c == 1 && d == 1 then 1 else 0
  {
    assert x / 2 == a && y / 2 == b;
  }
}
