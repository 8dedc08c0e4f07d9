/** What the four unaligned accesses do, byte by byte, and when that is what they should do. */
module Unaligned {
  import opened Words
  import opened Outcomes
  import opened BusModel
  import opened CpuArith
  import opened CpuModel
  import opened CpuRuns

  // ---- Words as bytes ----

  /** Byte `k` of a word, lowest first. */
  function ByteAt(w: Word, k: nat): Byte
    requires k < 4
  {
    match k
    case 0 => w % 0x100
    case 1 => w / 0x100 % 0x100
    case 2 => w / 0x1_0000 % 0x100
    case 3 => w / 0x100_0000
  }

  function FromBytes(b0: Byte, b1: Byte, b2: Byte, b3: Byte): Word
  {
    b0 + 0x100 * b1 + 0x1_0000 * b2 + 0x100_0000 * b3
  }

  lemma BytesOf(b0: Byte, b1: Byte, b2: Byte, b3: Byte)
    ensures var w := FromBytes(b0, b1, b2, b3);
            ByteAt(w, 0) == b0 && ByteAt(w, 1) == b1 && ByteAt(w, 2) == b2 && ByteAt(w, 3) == b3
  {
    var w: int := FromBytes(b0, b1, b2, b3);
    ModUnique(w, 0x100, b1 + 0x100 * b2 + 0x1_0000 * b3, b0);
    ModUnique(w, 0x1_0000, b2 + 0x100 * b3, b0 + 0x100 * b1);
    ModUnique(w, 0x100_0000, b3, b0 + 0x100 * b1 + 0x1_0000 * b2);
    ModUnique(w / 0x100, 0x100, b2 + 0x100 * b3, b1);
    ModUnique(w / 0x1_0000, 0x100, b3, b2);
  }

  lemma WordOf(w: Word)
    ensures w == FromBytes(ByteAt(w, 0), ByteAt(w, 1), ByteAt(w, 2), ByteAt(w, 3))
    ensures w % 0x1_0000 == FromBytes(ByteAt(w, 0), ByteAt(w, 1), 0, 0)
    ensures w % 0x100_0000 == FromBytes(ByteAt(w, 0), ByteAt(w, 1), ByteAt(w, 2), 0)
  {
    var x: int, y: int, z: int := w / 0x100, w / 0x1_0000, w / 0x100_0000;
    DivDiv(w, 0x100, 0x100);
    DivDiv(w, 0x1_0000, 0x100);
    assert w == 0x100 * x + w % 0x100 && x == 0x100 * y + x % 0x100 && y == 0x100 * z + y % 0x100;
    ModUnique(w, 0x1_0000, y, w % 0x100 + 0x100 * (x % 0x100));
    ModUnique(w, 0x100_0000, z, w % 0x100 + 0x100 * (x % 0x100) + 0x1_0000 * (y % 0x100));
  }

  lemma SameBytes(v: Word, w: Word)
    ensures v == w <==> forall k :: 0 <= k < 4 ==> ByteAt(v, k) == ByteAt(w, k)
  {
    hide ByteAt, FromBytes;
    WordOf(v);
    WordOf(w);
  }

  function OrByte(x: Byte, y: Byte): Byte
  {
    Pow2Values(); OrXorBound(x, y, 8); Or(x, y)
  }

  /** OR works on each byte separately. */
  lemma OrBytes(x: nat, a: nat, c: Byte, y: nat, b: nat, d: Byte)
    requires x == 0x100 * a + c && y == 0x100 * b + d
    ensures Or(x, y) == 0x100 * Or(a, b) + OrByte(c, d)
  {
    hide Or;
    var u: nat, v: nat := 0x10 * a + c / 0x10, 0x10 * b + d / 0x10;
    OrDigit(x, u, c % 0x10, y, v, d % 0x10);
    OrDigit(u, a, c / 0x10, v, b, d / 0x10);
    OrDigit(c, c / 0x10, c % 0x10, d, d / 0x10, d % 0x10);
  }

  lemma OrDigit(x: nat, a: nat, n: nat, y: nat, b: nat, m: nat)
    requires x == 16 * a + n && n < 16
    requires y == 16 * b + m && m < 16
    ensures Or(x, y) == 16 * Or(a, b) + Or(n, m)
  {
    hide Or;
    var u, v := 4 * a + n / 4, 4 * b + m / 4;
    OrHalfDigit(x, u, n % 4, y, v, m % 4);
    OrHalfDigit(u, a, n / 4, v, b, m / 4);
    OrHalfDigit(n, n / 4, n % 4, m, m / 4, m % 4);
  }

  lemma OrHalfDigit(x: nat, a: nat, n: nat, y: nat, b: nat, m: nat)
    requires x == 4 * a + n && n < 4
    requires y == 4 * b + m && m < 4
    ensures Or(x, y) == 4 * Or(a, b) + Or(n, m)
  {
    hide Or;
    var u, v := 2 * a + n / 2, 2 * b + m / 2;
    OrDouble(x, u, n % 2, y, v, m % 2);
    OrDouble(u, a, n / 2, v, b, m / 2);
    OrDouble(n, n / 2, n % 2, m, m / 2, m % 2);
    OrDouble(n / 2, 0, n / 2, m / 2, 0, m / 2);
    OrNone();
  }

  lemma OrNone()
    ensures Or(0, 0) == 0
  {
  }

  lemma OrDouble(x: nat, a: nat, c: nat, y: nat, b: nat, d: nat)
    requires x == 2 * a + c && c < 2
    requires y == 2 * b + d && d < 2
    ensures Or(x, y) == 2 * Or(a, b) + if c == 1 || d == 1 then 1 else 0
  {
    assert x / 2 == a && y / 2 == b;
    assert Or(0, b) == b && Or(a, 0) == a;
  }

  lemma OrZero(x: Byte)
    ensures OrByte(0, x) == x && OrByte(x, 0) == x
  {
  }

  lemma OrFour(x0: Byte, x1: Byte, x2: Byte, x3: Byte, y0: Byte, y1: Byte, y2: Byte, y3: Byte)
    ensures OrWord(FromBytes(x0, x1, x2, x3), FromBytes(y0, y1, y2, y3))
         == FromBytes(OrByte(x0, y0), OrByte(x1, y1), OrByte(x2, y2), OrByte(x3, y3))
  {
    var a2: nat, b2: nat := x2 + 0x100 * x3, y2 + 0x100 * y3;
    var a1: nat, b1: nat := x1 + 0x100 * a2, y1 + 0x100 * b2;
    hide Or;
    OrBytes(FromBytes(x0, x1, x2, x3), a1, x0, FromBytes(y0, y1, y2, y3), b1, y0);
    OrBytes(a1, a2, x1, b1, b2, y1);
    OrBytes(a2, x3, x2, b2, y3, y2);
  }

  // ---- The merges, byte by byte ----

  lemma MergeRightBytes(keep: Word, w: Word)
    ensures MergeRight(keep, w, 0)
         == FromBytes(OrByte(ByteAt(keep, 0), ByteAt(w, 3)), ByteAt(keep, 1), ByteAt(keep, 2), 0)
    ensures MergeRight(keep, w, 1)
         == FromBytes(OrByte(ByteAt(keep, 0), ByteAt(w, 2)), OrByte(ByteAt(keep, 1), ByteAt(w, 3)), 0, 0)
    ensures MergeRight(keep, w, 2)
         == FromBytes(OrByte(ByteAt(keep, 0), ByteAt(w, 1)), ByteAt(w, 2), ByteAt(w, 3), 0)
  {
    ShiftedDown(w);
    hide Or, OrWord, ShiftRight, ByteAt, OrByte, FromBytes;
    WordOf(keep);
    LowByte(keep);
    var k0, k1, k2 := ByteAt(keep, 0), ByteAt(keep, 1), ByteAt(keep, 2);
    var w1, w2, w3 := ByteAt(w, 1), ByteAt(w, 2), ByteAt(w, 3);
    OrFour(k0, k1, k2, 0, w3, 0, 0, 0);
    OrFour(k0, k1, 0, 0, w2, w3, 0, 0);
    OrFour(k0, 0, 0, 0, w1, w2, w3, 0);
    OrZero(k1);
    OrZero(k2);
    OrZero(w2);
    OrZero(w3);
    OrZero(0);
  }

  lemma LowByte(w: Word)
    ensures w % 0x100 == FromBytes(ByteAt(w, 0), 0, 0, 0)
  {
  }

  lemma ShiftedDown(w: Word)
    ensures ShiftRight(w, 24) == FromBytes(ByteAt(w, 3), 0, 0, 0)
    ensures ShiftRight(w, 16) == FromBytes(ByteAt(w, 2), ByteAt(w, 3), 0, 0)
    ensures ShiftRight(w, 8) == FromBytes(ByteAt(w, 1), ByteAt(w, 2), ByteAt(w, 3), 0)
  {
    Pow2Values();
    DivDiv(w, 0x100, 0x100);
    DivDiv(w, 0x1_0000, 0x100);
  }

  lemma MergeLeftBytes(keep: Word, w: Word)
    ensures MergeLeft(keep, w, 0) == FromBytes(ByteAt(keep, 0), ByteAt(keep, 1), ByteAt(keep, 2), ByteAt(w, 0))
    ensures MergeLeft(keep, w, 1) == FromBytes(ByteAt(keep, 0), ByteAt(keep, 1), ByteAt(w, 0), ByteAt(w, 1))
    ensures MergeLeft(keep, w, 2) == FromBytes(ByteAt(keep, 0), ByteAt(w, 0), ByteAt(w, 1), ByteAt(w, 2))
  {
    ShiftedUp(w);
    hide Or, OrWord, ShiftLeft, ByteAt, OrByte, FromBytes;
    WordOf(keep);
    LowByte(keep);
    var k0, k1, k2 := ByteAt(keep, 0), ByteAt(keep, 1), ByteAt(keep, 2);
    var w0, w1, w2 := ByteAt(w, 0), ByteAt(w, 1), ByteAt(w, 2);
    OrFour(k0, k1, k2, 0, 0, 0, 0, w0);
    OrFour(k0, k1, 0, 0, 0, 0, w0, w1);
    OrFour(k0, 0, 0, 0, 0, w0, w1, w2);
    OrZero(k0);
    OrZero(k1);
    OrZero(k2);
    OrZero(w0);
    OrZero(w1);
    OrZero(w2);
  }

  lemma ShiftedUp(w: Word)
    ensures ShiftLeft(w, 24) == FromBytes(0, 0, 0, ByteAt(w, 0))
    ensures ShiftLeft(w, 16) == FromBytes(0, 0, ByteAt(w, 0), ByteAt(w, 1))
    ensures ShiftLeft(w, 8) == FromBytes(0, ByteAt(w, 0), ByteAt(w, 1), ByteAt(w, 2))
  {
    Pow2Values();
    WordOf(w);
    ModUnique(w * 0x100_0000, 0x1_0000_0000, w / 0x100, w % 0x100 * 0x100_0000);
    ModUnique(w * 0x1_0000, 0x1_0000_0000, w / 0x1_0000, w % 0x1_0000 * 0x1_0000);
    ModUnique(w * 0x100, 0x1_0000_0000, w / 0x100_0000, w % 0x100_0000 * 0x100);
  }

  lemma LeftBytes(keep: Word, w: Word)
    ensures MergeLeft(keep, w, 3) == w
    ensures var r := MergeLeft(keep, w, 0);
            && ByteAt(r, 0) == ByteAt(keep, 0) && ByteAt(r, 1) == ByteAt(keep, 1)
            && ByteAt(r, 2) == ByteAt(keep, 2) && ByteAt(r, 3) == ByteAt(w, 0)
    ensures var r := MergeLeft(keep, w, 1);
            && ByteAt(r, 0) == ByteAt(keep, 0) && ByteAt(r, 1) == ByteAt(keep, 1)
            && ByteAt(r, 2) == ByteAt(w, 0) && ByteAt(r, 3) == ByteAt(w, 1)
    ensures var r := MergeLeft(keep, w, 2);
            && ByteAt(r, 0) == ByteAt(keep, 0) && ByteAt(r, 1) == ByteAt(w, 0)
            && ByteAt(r, 2) == ByteAt(w, 1) && ByteAt(r, 3) == ByteAt(w, 2)
  {
    MergeLeftBytes(keep, w);
    assert MergeLeft(keep, w, 3) == w;
    hide MergeLeft, FromBytes, ByteAt;
    BytesOf(ByteAt(keep, 0), ByteAt(keep, 1), ByteAt(keep, 2), ByteAt(w, 0));
    BytesOf(ByteAt(keep, 0), ByteAt(keep, 1), ByteAt(w, 0), ByteAt(w, 1));
    BytesOf(ByteAt(keep, 0), ByteAt(w, 0), ByteAt(w, 1), ByteAt(w, 2));
  }

  lemma RightBytes(keep: Word, w: Word)
    ensures MergeRight(keep, w, 3) == w
    ensures var r := MergeRight(keep, w, 0);
            && ByteAt(r, 0) == OrByte(ByteAt(keep, 0), ByteAt(w, 3)) && ByteAt(r, 1) == ByteAt(keep, 1)
            && ByteAt(r, 2) == ByteAt(keep, 2) && ByteAt(r, 3) == 0
    ensures var r := MergeRight(keep, w, 1);
            && ByteAt(r, 0) == OrByte(ByteAt(keep, 0), ByteAt(w, 2))
            && ByteAt(r, 1) == OrByte(ByteAt(keep, 1), ByteAt(w, 3)) && ByteAt(r, 2) == 0 == ByteAt(r, 3)
    ensures var r := MergeRight(keep, w, 2);
            && ByteAt(r, 0) == OrByte(ByteAt(keep, 0), ByteAt(w, 1)) && ByteAt(r, 1) == ByteAt(w, 2)
            && ByteAt(r, 2) == ByteAt(w, 3) && ByteAt(r, 3) == 0
  {
    MergeRightBytes(keep, w);
    assert MergeRight(keep, w, 3) == w;
    hide MergeRight, OrByte, FromBytes, ByteAt;
    BytesOf(OrByte(ByteAt(keep, 0), ByteAt(w, 3)), ByteAt(keep, 1), ByteAt(keep, 2), 0);
    BytesOf(OrByte(ByteAt(keep, 0), ByteAt(w, 2)), OrByte(ByteAt(keep, 1), ByteAt(w, 3)), 0, 0);
    BytesOf(OrByte(ByteAt(keep, 0), ByteAt(w, 1)), ByteAt(w, 2), ByteAt(w, 3), 0);
  }

  // ---- What the instructions are for ----

  /** `r` is `keep` with its `n` top bytes replaced by the `n` bottom bytes of `w`: what LWL
      should do to a register and SWR to memory. */
  predicate OntoTop(keep: Word, w: Word, n: nat, r: Word)
    requires 1 <= n <= 4
  {
    forall k :: 0 <= k < 4 ==> ByteAt(r, k) == if k >= 4 - n then ByteAt(w, k - (4 - n)) else ByteAt(keep, k)
  }

  /** `r` is `keep` with its `n` bottom bytes replaced by the `n` top bytes of `w`: what LWR
      should do to a register and SWL to memory. */
  predicate OntoBottom(keep: Word, w: Word, n: nat, r: Word)
    requires 1 <= n <= 4
  {
    forall k :: 0 <= k < 4 ==> ByteAt(r, k) == if k < n then ByteAt(w, k + (4 - n)) else ByteAt(keep, k)
  }

  /** LWL is right for every register, word and offset. */
  lemma LwlExact(keep: Word, w: Word, offset: nat)
    requires offset < 4
    ensures OntoTop(keep, w, offset + 1, MergeLeft(keep, w, offset))
  {
    LeftBytes(keep, w);
    hide ByteAt, FromBytes, MergeLeft;
  }

  /** When the masks and shifts of LWR give the right register. */
  predicate LwrWorks(keep: Word, w: Word, offset: nat)
    requires offset < 4
  {
    match offset
    case 0 => w == keep % 0x100_0000
    case 1 =>
      && ByteAt(w, 3) == 0 == ByteAt(keep, 3) && ByteAt(w, 2) == ByteAt(keep, 1)
      && ByteAt(w, 1) == OrByte(ByteAt(keep, 0), ByteAt(w, 2))
    case 2 =>
      && ByteAt(keep, 3) == 0 && ByteAt(keep, 2) == ByteAt(w, 3) == ByteAt(w, 2)
      && ByteAt(w, 2) == OrByte(ByteAt(keep, 0), ByteAt(w, 1))
    case 3 => w / 0x100 == keep / 0x100 && ByteAt(w, 0) == ByteAt(w, 3)
  }

  lemma LwrExact(keep: Word, w: Word, offset: nat)
    requires offset < 4
    ensures OntoBottom(keep, w, 4 - offset, MergeRight(keep, w, offset)) <==> LwrWorks(keep, w, offset)
  {
    RightBytes(keep, w);
    EqualBytes(keep, w);
    OrZero(ByteAt(keep, 0));
    OrZero(ByteAt(keep, 1));
    hide ByteAt, FromBytes, MergeRight, OrByte;
    BottomBytes(keep, w, 4 - offset, MergeRight(keep, w, offset));
  }

  /** When SWL gives the right word in memory: the bytes it should keep, and loses, are zero,
      and the bytes it should replace have no bit that the new ones lack. */
  predicate SwlWorks(cur: Word, v: Word, offset: nat)
    requires offset < 4
  {
    match offset
    case 0 => ByteAt(cur, 3) == 0 && OrByte(ByteAt(cur, 0), ByteAt(v, 3)) == ByteAt(v, 3)
    case 1 =>
      && ByteAt(cur, 3) == 0 == ByteAt(cur, 2)
      && OrByte(ByteAt(cur, 0), ByteAt(v, 2)) == ByteAt(v, 2)
      && OrByte(ByteAt(cur, 1), ByteAt(v, 3)) == ByteAt(v, 3)
    case 2 => ByteAt(cur, 3) == 0 && OrByte(ByteAt(cur, 0), ByteAt(v, 1)) == ByteAt(v, 1)
    case 3 => true
  }

  lemma SwlExact(cur: Word, v: Word, offset: nat)
    requires offset < 4
    ensures OntoBottom(cur, v, offset + 1, MergeRight(cur, v, offset)) <==> SwlWorks(cur, v, offset)
  {
    RightBytes(cur, v);
    hide ByteAt, FromBytes, MergeRight, OrByte;
    BottomBytes(cur, v, offset + 1, MergeRight(cur, v, offset));
  }

  /** When SWR gives the right word in memory. */
  predicate SwrWorks(cur: Word, v: Word, offset: nat)
    requires offset < 4
  {
    if offset == 1 || offset == 2 then ByteAt(cur, 1) == ByteAt(v, 0) == ByteAt(v, 1) == ByteAt(v, 2)
    else v % 0x100_0000 == cur % 0x100_0000 && ByteAt(v, 3) == ByteAt(v, 0)
  }

  lemma SwrExact(cur: Word, v: Word, offset: nat)
    requires offset < 4
    ensures OntoTop(cur, v, 4 - offset, MergeLeft(cur, v, offset)) <==> SwrWorks(cur, v, offset)
  {
    LeftBytes(cur, v);
    EqualBytes(cur, v);
    hide ByteAt, FromBytes, MergeLeft;
    TopBytes(cur, v, 4 - offset, MergeLeft(cur, v, offset));
  }

  lemma BottomBytes(keep: Word, w: Word, n: nat, r: Word)
    requires 1 <= n <= 4
    ensures OntoBottom(keep, w, n, r) <==>
            && ByteAt(r, 0) == ByteAt(w, 4 - n) && ByteAt(r, 1) == (if n > 1 then ByteAt(w, 5 - n) else ByteAt(keep, 1))
            && ByteAt(r, 2) == (if n > 2 then ByteAt(w, 6 - n) else ByteAt(keep, 2))
            && ByteAt(r, 3) == (if n > 3 then ByteAt(w, 3) else ByteAt(keep, 3))
  {
    hide ByteAt;
  }

  lemma TopBytes(keep: Word, w: Word, n: nat, r: Word)
    requires 1 <= n <= 4
    ensures OntoTop(keep, w, n, r) <==>
            && ByteAt(r, 0) == (if n > 3 then ByteAt(w, 0) else ByteAt(keep, 0))
            && ByteAt(r, 1) == (if n > 2 then ByteAt(w, n - 3) else ByteAt(keep, 1))
            && ByteAt(r, 2) == (if n > 1 then ByteAt(w, n - 2) else ByteAt(keep, 2)) && ByteAt(r, 3) == ByteAt(w, n - 1)
  {
    hide ByteAt;
  }

  lemma EqualBytes(keep: Word, w: Word)
    ensures w == keep % 0x100_0000 <==>
            && ByteAt(w, 3) == 0 && ByteAt(w, 2) == ByteAt(keep, 2)
            && ByteAt(w, 1) == ByteAt(keep, 1) && ByteAt(w, 0) == ByteAt(keep, 0)
    ensures w % 0x100_0000 == keep % 0x100_0000 <==>
            ByteAt(w, 2) == ByteAt(keep, 2) && ByteAt(w, 1) == ByteAt(keep, 1) && ByteAt(w, 0) == ByteAt(keep, 0)
    ensures w / 0x100 == keep / 0x100 <==>
            ByteAt(w, 3) == ByteAt(keep, 3) && ByteAt(w, 2) == ByteAt(keep, 2) && ByteAt(w, 1) == ByteAt(keep, 1)
  {
    WordOf(w);
    WordOf(keep);
    BytesOf(ByteAt(w, 0), ByteAt(w, 1), ByteAt(w, 2), 0);
    BytesOf(ByteAt(keep, 0), ByteAt(keep, 1), ByteAt(keep, 2), 0);
    UpperBytes(w);
    UpperBytes(keep);
    BytesOf(ByteAt(w, 1), ByteAt(w, 2), ByteAt(w, 3), 0);
    BytesOf(ByteAt(keep, 1), ByteAt(keep, 2), ByteAt(keep, 3), 0);
    hide ByteAt, FromBytes;
  }

  lemma UpperBytes(w: Word)
    ensures w / 0x100 == FromBytes(ByteAt(w, 1), ByteAt(w, 2), ByteAt(w, 3), 0)
  {
    WordOf(w);
  }

  // ---- Whole steps ----

  /** The address an unaligned access starts from, and the aligned address of its word. */
  function Start(m: Machine, instr: Word): Word { AddressOf(m.cpu.regs, instr) }

  function Aligned(addr: Word): Word { addr / 4 * 4 }

  /** A step of LWL or LWR: the target's load is right always for LWL, and for LWR exactly when
      its masks and shifts happen to work. The old value is the one after the pending load. */
  lemma UnalignedLoadStep(m: Machine, instr: Word, w: Word)
    requires m.Valid() && Fetches(m, instr) && Function(instr) in {0x22, 0x26}
    requires Load32(m.bus, Aligned(Start(m, instr))) == Running(w)
    ensures Step(m).Running? && Step(m).value.bus == m.bus
    ensures StepEffect(m).DelayedLoad? && StepEffect(m).t == T(instr)
    ensures var keep, v, o := m.cpu.Prologue().regs[T(instr)], StepEffect(m).v, Start(m, instr) % 4;
            if Function(instr) == 0x22 then v == MergeLeft(keep, w, o) && OntoTop(keep, w, o + 1, v)
            else v == MergeRight(keep, w, o) && (OntoBottom(keep, w, 4 - o, v) <==> LwrWorks(keep, w, o))
  {
    hide BusState.Valid, Load32, MergeLeft, MergeRight, OntoTop, OntoBottom, LwrWorks, T, Function, Start, Step,
         StepEffect, CpuState.Prologue;
    var keep, o := m.cpu.Prologue().regs[T(instr)], Start(m, instr) % 4;
    LwlExact(keep, w, o);
    LwrExact(keep, w, o);
    UnalignedLoadEffect(m, instr, w);
    LoadRuns(m);
  }

  lemma UnalignedLoadEffect(m: Machine, instr: Word, w: Word)
    requires m.Valid() && Fetches(m, instr) && Function(instr) in {0x22, 0x26}
    requires Load32(m.bus, Aligned(Start(m, instr))) == Running(w)
    ensures var keep, o := m.cpu.Prologue().regs[T(instr)], Start(m, instr) % 4;
            StepEffect(m) == DelayedLoad(T(instr), if Function(instr) == 0x22 then MergeLeft(keep, w, o)
                                                   else MergeRight(keep, w, o))
  {
    hide BusState.Valid, Load32, MergeLeft, MergeRight, T, Function, AddressOf, CpuState.Prologue;
  }

  lemma LoadRuns(m: Machine)
    requires m.Valid() && m.cpu.pc % 4 == 0 && StepEffect(m).DelayedLoad?
    ensures Step(m).Running? && Step(m).value.bus == m.bus
  {
    hide BusState.Valid, StepEffect, CpuState.Prologue, CpuState.Apply;
  }

  /** A step of SWL or SWR with the cache not isolated: it stores the aligned word, with the
      right contents exactly when its masks and shifts happen to work. */
  lemma UnalignedStoreStep(m: Machine, instr: Word, cur: Word)
    requires m.Valid() && Fetches(m, instr) && Function(instr) in {0x2a, 0x2e} && !m.cpu.Isolated()
    requires Load32(m.bus, Aligned(Start(m, instr))) == Running(cur)
    ensures StepEffect(m).StoreMem? && StepEffect(m).width == 4 && StepEffect(m).addr == Aligned(Start(m, instr))
    ensures var v, r, o := m.cpu.regs[T(instr)], StepEffect(m).v, Start(m, instr) % 4;
            if Function(instr) == 0x2a then OntoBottom(cur, v, o + 1, r) <==> SwlWorks(cur, v, o)
            else OntoTop(cur, v, 4 - o, r) <==> SwrWorks(cur, v, o)
  {
    hide BusState.Valid, Load32, MergeLeft, MergeRight, OntoTop, OntoBottom, SwlWorks, SwrWorks, T, Function, Start,
         StepEffect;
    var v, o := m.cpu.regs[T(instr)], Start(m, instr) % 4;
    SwlExact(cur, v, o);
    SwrExact(cur, v, o);
    UnalignedStoreEffect(m, instr, cur);
  }

  lemma UnalignedStoreEffect(m: Machine, instr: Word, cur: Word)
    requires m.Valid() && Fetches(m, instr) && Function(instr) in {0x2a, 0x2e} && !m.cpu.Isolated()
    requires Load32(m.bus, Aligned(Start(m, instr))) == Running(cur)
    ensures var v, o := m.cpu.regs[T(instr)], Start(m, instr) % 4;
            StepEffect(m) == StoreMem(4, Aligned(Start(m, instr)),
              if Function(instr) == 0x2a then MergeRight(cur, v, o) else MergeLeft(cur, v, o))
  {
    hide BusState.Valid, Load32, MergeLeft, MergeRight, T, Function, AddressOf, Wrap, SetReg;
  }

  /** The word that starts at offset `o` of the aligned word `w0` and runs on into `w1`. */
  predicate Straddles(w0: Word, w1: Word, o: nat, r: Word)
    requires o < 4
  {
    forall k :: 0 <= k < 4 ==> ByteAt(r, k) == if k + o < 4 then ByteAt(w0, k + o) else ByteAt(w1, k + o - 4)
  }

  /** The usual pair, LWL at the last byte of a word in memory and then LWR at its first, as two
      steps of a run: the value on its way to the register is that word exactly when the LWR
      works on what the LWL made. On an aligned word this comes down to a zero top byte. */
  lemma PairLoads(m: Machine, lwl: Word, lwr: Word, w0: Word, w1: Word)
    requires m.Valid() && Fetches(m, lwl) && Function(lwl) == 0x22 && T(lwl) != 0
    requires Load32(m.bus, Aligned(Start(m, lwl))) == Running(w1)
    requires Step(m).Running? ==>
               var m1 := Step(m).value;
               && Fetches(m1, lwr) && Function(lwr) == 0x26 && T(lwr) == T(lwl)
               && Start(m, lwl) == Wrap(Start(m1, lwr) + 3)
               && Load32(m1.bus, Aligned(Start(m1, lwr))) == Running(w0)
    ensures Step(m).Running? && Step(Step(m).value).Running?
    ensures var m1, keep := Step(m).value, m.cpu.Prologue().regs[T(lwl)];
            var e, o := StepEffect(m1), Start(m1, lwr) % 4;
            && e.DelayedLoad? && e.t == T(lwl)
            && (Straddles(w0, w1, o, e.v) <==> LwrWorks(MergeLeft(keep, w1, (o + 3) % 4), w0, o))
            && (o == 0 ==> w0 == w1 && (e.v == w0 <==> w0 < 0x100_0000))
  {
    hide BusState.Valid, Load32, MergeLeft, MergeRight, OntoTop, OntoBottom, LwrWorks, SetReg, T, Function, Start,
         Step, StepEffect, Straddles;
    UnalignedLoadStep(m, lwl, w1);
    var m1, keep, t := Step(m).value, m.cpu.Prologue().regs[T(lwl)], T(lwl);
    StepKeeps(m);
    Arrives(m, t);
    UnalignedLoadStep(m1, lwr, w0);
    var o := Start(m1, lwr) % 4;
    PairOffsets(Start(m1, lwr));
    PairBytes(keep, w0, w1, o, StepEffect(m1).v);
    if o == 0 {
      AlignedPair(keep, w0);
      StraddlesNothing(w0, StepEffect(m1).v);
    }
  }

  /** A pending load has arrived when the next instruction merges with its target. */
  lemma Arrives(m: Machine, t: Reg)
    requires m.Valid() && m.cpu.pc % 4 == 0 && Step(m).Running?
    requires StepEffect(m).DelayedLoad? && StepEffect(m).t == t != 0
    ensures Step(m).value.cpu.Prologue().regs[t] == StepEffect(m).v
  {
    hide Step, StepEffect, BusState.Valid;
    RegisterLaw(m, t);
  }

  lemma PairOffsets(addr: Word)
    ensures Wrap(addr + 3) % 4 == (addr % 4 + 3) % 4
    ensures addr % 4 == 0 ==> Aligned(Wrap(addr + 3)) == Aligned(addr)
  {
  }

  /** What LWL leaves below its own bytes is what LWR has to replace. */
  lemma PairBytes(keep: Word, w0: Word, w1: Word, o: nat, r: Word)
    requires o < 4 && (o == 0 ==> w0 == w1)
    ensures Straddles(w0, w1, o, r) <==> OntoBottom(MergeLeft(keep, w1, (o + 3) % 4), w0, 4 - o, r)
  {
    LeftBytes(keep, w1);
    hide ByteAt, MergeLeft;
    BottomBytes(MergeLeft(keep, w1, (o + 3) % 4), w0, 4 - o, r);
    StraddlingBytes(w0, w1, o, r);
  }

  lemma StraddlingBytes(w0: Word, w1: Word, o: nat, r: Word)
    requires o < 4
    ensures Straddles(w0, w1, o, r) <==>
            && ByteAt(r, 0) == ByteAt(w0, o)
            && ByteAt(r, 1) == (if o < 3 then ByteAt(w0, o + 1) else ByteAt(w1, o - 3))
            && ByteAt(r, 2) == (if o < 2 then ByteAt(w0, o + 2) else ByteAt(w1, o - 2))
            && ByteAt(r, 3) == (if o < 1 then ByteAt(w0, o + 3) else ByteAt(w1, o - 1))
  {
    hide ByteAt;
  }

  lemma StraddlesNothing(w: Word, r: Word)
    ensures Straddles(w, w, 0, r) <==> r == w
  {
    SameBytes(r, w);
    hide ByteAt;
  }

  lemma AlignedPair(keep: Word, w: Word)
    ensures LwrWorks(MergeLeft(keep, w, 3), w, 0) <==> w < 0x100_0000
  {
    hide ByteAt, OrWord;
  }
}
