/** The three formats of an instruction word, put together from their fields. */
module Encoding {
  import opened Words
  import opened CpuModel

  /** Register format, primary opcode 0: source, target, destination, shift, function. */
  function RWord(s: Reg, t: Reg, d: Reg, sh: nat, fn: nat): Word
    requires sh < 0x20 && fn < 0x40
  {
    s * 0x20_0000 + t * 0x1_0000 + d * 0x800 + sh * 0x40 + fn
  }

  /** Immediate format. A negative immediate is stored in two's complement. */
  function IWord(op: nat, s: Reg, t: Reg, imm: int): Word
    requires op < 0x40
  {
    op * 0x400_0000 + s * 0x20_0000 + t * 0x1_0000 + imm % 0x1_0000
  }

  /** Jump format. */
  function JWord(op: nat, index: nat): Word
    requires op < 0x40 && index < 0x400_0000
  {
    op * 0x400_0000 + index
  }

  /** System-control format: operation, CPU register, control register, function. */
  function CopWord(cop: nat, t: Reg, d: Reg, low: nat): Word
    requires cop < 0x20 && low < 0x800
  {
    0x10 * 0x400_0000 + cop * 0x20_0000 + t * 0x1_0000 + d * 0x800 + low
  }

  /** The decoders take a word in register format apart again. */
  lemma RFields(s: Reg, t: Reg, d: Reg, sh: nat, fn: nat)
    requires sh < 0x20 && fn < 0x40
    ensures var w := RWord(s, t, d, sh, fn);
            && Function(w) == 0 && Subfunction(w) == fn
            && S(w) == s && T(w) == t && D(w) == d && Shift(w) == sh
  {
    var w: int := RWord(s, t, d, sh, fn);
    var low: int := d * 0x800 + sh * 0x40 + fn;
    ModUnique(w, 0x400_0000, 0, w);
    ModUnique(w, 0x20_0000, s, t * 0x1_0000 + low);
    ModUnique(w, 0x1_0000, s * 0x20 + t, low);
    ModUnique(w, 0x800, (s * 0x20 + t) * 0x20 + d, sh * 0x40 + fn);
    ModUnique(w, 0x40, ((s * 0x20 + t) * 0x20 + d) * 0x20 + sh, fn);
    ModUnique(s, 0x20, 0, s);
    ModUnique(s * 0x20 + t, 0x20, s, t);
    ModUnique((s * 0x20 + t) * 0x20 + d, 0x20, s * 0x20 + t, d);
    ModUnique(((s * 0x20 + t) * 0x20 + d) * 0x20 + sh, 0x20, (s * 0x20 + t) * 0x20 + d, sh);
  }

  lemma IFields(op: nat, s: Reg, t: Reg, imm: int)
    requires op < 0x40
    ensures var w := IWord(op, s, t, imm);
            && Function(w) == op && S(w) == s && T(w) == t && Imm(w) == imm % 0x1_0000
            && (-0x8000 <= imm < 0x8000 ==> ImmSe(w) == imm % 0x1_0000_0000)
  {
    var w: int, i: int := IWord(op, s, t, imm), imm % 0x1_0000;
    ModUnique(w, 0x400_0000, op, s * 0x20_0000 + t * 0x1_0000 + i);
    ModUnique(w, 0x20_0000, op * 0x20 + s, t * 0x1_0000 + i);
    ModUnique(w, 0x1_0000, (op * 0x20 + s) * 0x20 + t, i);
    ModUnique(op * 0x20 + s, 0x20, op, s);
    ModUnique((op * 0x20 + s) * 0x20 + t, 0x20, op * 0x20 + s, t);
    if 0 <= imm < 0x8000 {
      ModUnique(imm, 0x1_0000, 0, imm);
    } else if -0x8000 <= imm < 0 {
      ModUnique(imm, 0x1_0000, -1, imm + 0x1_0000);
    }
  }

  lemma JFields(op: nat, index: nat)
    requires op < 0x40 && index < 0x400_0000
    ensures Function(JWord(op, index)) == op && ImmJump(JWord(op, index)) == index
  {
    ModUnique(JWord(op, index), 0x400_0000, op, index);
  }

  lemma CopFields(cop: nat, t: Reg, d: Reg, low: nat)
    requires cop < 0x20 && low < 0x800
    ensures var w := CopWord(cop, t, d, low);
            && Function(w) == 0x10 && CopOpcode(w) == cop && T(w) == t && D(w) == d && w % 0x40 == low % 0x40
  {
    var w: int := CopWord(cop, t, d, low);
    ModUnique(w, 0x400_0000, 0x10, cop * 0x20_0000 + t * 0x1_0000 + d * 0x800 + low);
    ModUnique(w, 0x20_0000, 0x10 * 0x20 + cop, t * 0x1_0000 + d * 0x800 + low);
    ModUnique(w, 0x1_0000, (0x10 * 0x20 + cop) * 0x20 + t, d * 0x800 + low);
    ModUnique(w, 0x800, ((0x10 * 0x20 + cop) * 0x20 + t) * 0x20 + d, low);
    ModUnique(w, 0x40, (((0x10 * 0x20 + cop) * 0x20 + t) * 0x20 + d) * 0x20 + low / 0x40, low % 0x40);
    ModUnique(0x10 * 0x20 + cop, 0x20, 0x10, cop);
    ModUnique((0x10 * 0x20 + cop) * 0x20 + t, 0x20, 0x10 * 0x20 + cop, t);
    ModUnique(((0x10 * 0x20 + cop) * 0x20 + t) * 0x20 + d, 0x20, (0x10 * 0x20 + cop) * 0x20 + t, d);
  }

  /** Every word is one in immediate format and one in jump format, and if its primary opcode is
      0, one in register format; so laws about these formats are about all instructions. */
  lemma EveryWord(w: Word)
    ensures w == IWord(Function(w), S(w), T(w), Imm(w)) && w == JWord(Function(w), ImmJump(w))
    ensures Function(w) == 0 ==> w == RWord(S(w), T(w), D(w), Shift(w), Subfunction(w))
    ensures Function(w) == 0x10 ==> w == CopWord(CopOpcode(w), T(w), D(w), w % 0x800)
  {
    DivDiv(w, 0x1_0000, 0x20);
    DivDiv(w, 0x20_0000, 0x20);
    DivDiv(w, 0x40, 0x20);
    DivDiv(w, 0x800, 0x20);
    ModUnique(w, 0x800, w / 0x800, w % 0x40 + 0x40 * (w / 0x40 % 0x20));
  }
}
