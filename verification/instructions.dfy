/** What each instruction does in a whole step, stated from the fields it is encoded with. The
    effect of a step, `StepEffect`, is carried to registers, PCs and SR by the laws of `CpuRuns`. */
module Instructions {
  import opened Words
  import opened Outcomes
  import MemoryMap
  import opened RamModel
  import opened BusModel
  import opened MemoryProofs
  import opened CpuArith
  import opened CpuModel
  import opened CpuRuns
  import opened Encoding

  /** The effect of a fetched instruction, whatever it is. */
  lemma FetchedEffect(m: Machine, instr: Word)
    requires m.Valid() && Fetches(m, instr)
    ensures StepEffect(m) == EffectOf(m.cpu.regs, m.cpu.Prologue(), m.bus, instr)
    ensures GroupOf(Function(instr)).Load? ==> StepEffect(m) == LoadEffect(m.cpu.regs, m.cpu.Prologue(), m.bus, instr)
    ensures GroupOf(Function(instr)).Store? ==> StepEffect(m) == StoreEffect(m.cpu.regs, m.cpu.Prologue(), m.bus, instr)
    ensures !GroupOf(Function(instr)).Load? && !GroupOf(Function(instr)).Store? ==>
              StepEffect(m) == RegisterEffect(m.cpu.regs, m.cpu.Prologue(), instr)
  {
    hide BusState.Valid, Load32, CpuState.Prologue, LoadEffect, StoreEffect, RegisterEffect, GroupOf, Function;
  }

  lemma SpecialFetched(m: Machine, s: Reg, t: Reg, d: Reg, sh: nat, fn: nat)
    requires sh < 0x20 && fn < 0x40 && m.Valid() && Fetches(m, RWord(s, t, d, sh, fn))
    ensures StepEffect(m) == SpecialEffect(m.cpu.regs, m.cpu.Prologue(), RWord(s, t, d, sh, fn))
  {
    hide BusState.Valid, Load32, CpuState.Prologue, SpecialEffect, RWord, EffectOf, Function, StepEffect;
    FetchedEffect(m, RWord(s, t, d, sh, fn));
    RFields(s, t, d, sh, fn);
  }

  // ---- Register to register ----

  /** Shifts, by the shift field or by the low five bits of a register: up, down filling with
      zeros, down filling with the sign. */
  lemma ShiftStep(m: Machine, s: Reg, t: Reg, d: Reg, sh: nat, fn: nat)
    requires sh < 0x20 && fn in {0x00, 0x02, 0x03, 0x04, 0x06, 0x07}
    requires m.Valid() && Fetches(m, RWord(s, t, d, sh, fn))
    ensures var b, n := m.cpu.regs[t], if fn < 4 then sh else m.cpu.regs[s] % 0x20;
            && StepEffect(m).Write? && StepEffect(m).d == d
            && StepEffect(m).v as int ==
               if fn == 0x00 || fn == 0x04 then b * Pow2(n) % 0x1_0000_0000
               else if fn == 0x02 || fn == 0x06 then (b as int) / Pow2(n)
               else Signed(b) / Pow2(n) % 0x1_0000_0000
  {
    hide BusState.Valid, Load32, CpuState.Prologue, RWord, StepEffect, Pow2, S, T, D, Shift, Subfunction, Signed;
    SpecialFetched(m, s, t, d, sh, fn);
    RFields(s, t, d, sh, fn);
  }

  /** ADDU and SUBU, modulo 2^32. */
  lemma AddSubStep(m: Machine, s: Reg, t: Reg, d: Reg, sh: nat, fn: nat)
    requires sh < 0x20 && fn in {0x21, 0x23} && m.Valid() && Fetches(m, RWord(s, t, d, sh, fn))
    ensures var a, b := m.cpu.regs[s] as int, m.cpu.regs[t] as int;
            StepEffect(m) == Effect.Write(d, (if fn == 0x21 then a + b else a - b) % 0x1_0000_0000)
  {
    hide BusState.Valid, Load32, CpuState.Prologue, RWord, StepEffect, S, T, D, Shift, Subfunction;
    SpecialFetched(m, s, t, d, sh, fn);
    RFields(s, t, d, sh, fn);
  }

  /** AND, OR, XOR and NOR, bit by bit. */
  lemma LogicStep(m: Machine, s: Reg, t: Reg, d: Reg, sh: nat, fn: nat)
    requires sh < 0x20 && 0x24 <= fn <= 0x27 && m.Valid() && Fetches(m, RWord(s, t, d, sh, fn))
    ensures StepEffect(m).Write? && StepEffect(m).d == d
    ensures var a, b, v := m.cpu.regs[s], m.cpu.regs[t], StepEffect(m).v;
            forall k: nat :: k < 32 ==>
              (Bit(v, k) <==>
               match fn
               case 0x24 => Bit(a, k) && Bit(b, k)
               case 0x25 => Bit(a, k) || Bit(b, k)
               case 0x26 => Bit(a, k) != Bit(b, k)
               case _ => !Bit(a, k) && !Bit(b, k))
  {
    hide BusState.Valid, Load32, CpuState.Prologue, RWord, StepEffect, S, T, D, Shift, Subfunction, Bit, And, Or,
         Xor, Not;
    SpecialFetched(m, s, t, d, sh, fn);
    RFields(s, t, d, sh, fn);
    forall k: nat | k < 32
      ensures Bit(StepEffect(m).v, k) <==>
              match fn
              case 0x24 => Bit(m.cpu.regs[s], k) && Bit(m.cpu.regs[t], k)
              case 0x25 => Bit(m.cpu.regs[s], k) || Bit(m.cpu.regs[t], k)
              case 0x26 => Bit(m.cpu.regs[s], k) != Bit(m.cpu.regs[t], k)
              case _ => !Bit(m.cpu.regs[s], k) && !Bit(m.cpu.regs[t], k)
    {
      BitwiseAt(m.cpu.regs[s], m.cpu.regs[t], k);
      NotAt(OrWord(m.cpu.regs[s], m.cpu.regs[t]), k);
    }
  }

  lemma NotAt(x: Word, k: nat)
    requires k < 32
    ensures Bit(Not(x), k) <==> !Bit(x, k)
  {
    Pow2Values();
    ComplementAt(x, 32, k);
  }

  lemma {:induction false} ComplementAt(x: nat, n: nat, k: nat)
    requires x < Pow2(n) && k < n
    ensures Bit(Pow2(n) - 1 - x, k) <==> !Bit(x, k)
  {
    if k > 0 {
      ComplementAt(x / 2, n - 1, k - 1);
      assert (Pow2(n) - 1 - x) / 2 == Pow2(n - 1) - 1 - x / 2;
    }
  }

  /** SLT and SLTU write 1 or 0. */
  lemma CompareStep(m: Machine, s: Reg, t: Reg, d: Reg, sh: nat, fn: nat)
    requires sh < 0x20 && fn in {0x2a, 0x2b} && m.Valid() && Fetches(m, RWord(s, t, d, sh, fn))
    ensures var a, b := m.cpu.regs[s], m.cpu.regs[t];
            var less := if fn == 0x2a then Signed(a) < Signed(b) else a < b;
            StepEffect(m) == Effect.Write(d, if less then 1 else 0)
  {
    hide BusState.Valid, Load32, CpuState.Prologue, RWord, StepEffect, S, T, D, Shift, Subfunction, Signed;
    SpecialFetched(m, s, t, d, sh, fn);
    RFields(s, t, d, sh, fn);
  }

  /** MFHI, MTHI, MFLO and MTLO. */
  lemma HiLoStep(m: Machine, s: Reg, t: Reg, d: Reg, sh: nat, fn: nat)
    requires sh < 0x20 && 0x10 <= fn <= 0x13 && m.Valid() && Fetches(m, RWord(s, t, d, sh, fn))
    ensures var a, c := m.cpu.regs[s], m.cpu;
            StepEffect(m) == match fn
                             case 0x10 => Effect.Write(d, c.hi)
                             case 0x11 => SetHiLo(a, c.lo)
                             case 0x12 => Effect.Write(d, c.lo)
                             case _ => SetHiLo(c.hi, a)
  {
    hide BusState.Valid, Load32, RWord, StepEffect, S, T, D, Shift, Subfunction, SetReg, Wrap;
    SpecialFetched(m, s, t, d, sh, fn);
    RFields(s, t, d, sh, fn);
  }

  /** JR and JALR: the target is the register, the link the address after the delay slot. */
  lemma JumpRegisterStep(m: Machine, s: Reg, t: Reg, d: Reg, sh: nat, fn: nat)
    requires sh < 0x20 && fn in {0x08, 0x09} && m.Valid() && Fetches(m, RWord(s, t, d, sh, fn))
    ensures var a := m.cpu.regs[s];
            StepEffect(m) == if fn == 0x08 then Jump(a) else JumpLink(a, d, (m.cpu.nextPc + 4) % 0x1_0000_0000)
  {
    hide BusState.Valid, Load32, RWord, StepEffect, S, T, D, Shift, Subfunction, SetReg;
    SpecialFetched(m, s, t, d, sh, fn);
    RFields(s, t, d, sh, fn);
  }

  /** The functions that exist. */
  const SPECIAL_FUNCTIONS: set<int> := {
    0x00, 0x02, 0x03, 0x04, 0x06, 0x07, 0x08, 0x09, 0x0c, 0x0d, 0x10, 0x11, 0x12, 0x13, 0x18, 0x19, 0x1a, 0x1b,
    0x20, 0x21, 0x22, 0x23, 0x24, 0x25, 0x26, 0x27, 0x2a, 0x2b}

  /** SYSCALL, BREAK, and every function that does not exist raise an exception, told apart in
      CAUSE; nothing else among the primary-opcode-0 instructions does, but for overflow. */
  lemma TrapStep(m: Machine, s: Reg, t: Reg, d: Reg, sh: nat, fn: nat)
    requires sh < 0x20 && fn < 0x40 && m.Valid() && Fetches(m, RWord(s, t, d, sh, fn))
    ensures var e := StepEffect(m);
            && (e.Fault? && e.cause != Overflow <==> fn in {0x0c, 0x0d} || fn !in SPECIAL_FUNCTIONS)
            && (fn == 0x0c ==> FaultsWith(m, 0x20)) && (fn == 0x0d ==> FaultsWith(m, 0x24))
            && (fn !in SPECIAL_FUNCTIONS ==> FaultsWith(m, 0x28))
  {
    hide BusState.Valid, Load32, RWord, StepEffect, S, T, D, Shift, Subfunction, CpuState.Prologue, AddOverflow,
         SubOverflow, MultHiLo, MultuHiLo, DivHiLo, DivuHiLo, And, OrWord, XorWord, Not, Signed, ShiftLeft, ShiftRight,
         ShiftRightSigned, Wrap, FaultsWith;
    SpecialFetched(m, s, t, d, sh, fn);
    RFields(s, t, d, sh, fn);
    if StepEffect(m).Fault? { FaultCode(m); }
  }

  /** The step runs, and leaves this number in CAUSE below bit 31. */
  ghost predicate FaultsWith(m: Machine, code: nat)
    requires m.Valid()
  {
    Faults(StepEffect(m)) && Step(m).Running? && Step(m).value.cpu.cause % 0x8000_0000 == code
  }

  /** The numbers of the exceptions, shifted to their place in CAUSE. */
  function CauseBits(e: Exception): nat
  {
    match e
    case LoadAddressError => 0x10
    case StoreAddressError => 0x14
    case SysCall => 0x20
    case Break => 0x24
    case IllegalInstruction => 0x28
    case CoprocessorError => 0x2c
    case Overflow => 0x30
  }

  lemma FaultCode(m: Machine)
    requires m.Valid() && m.cpu.pc % 4 == 0 && Faults(StepEffect(m))
    ensures FaultsWith(m, CauseBits(StepEffect(m).cause))
  {
    hide Step, BusState.Valid, StepEffect, Exception.Code, CauseBits, Wrap;
    FaultRuns(m);
    FaultRecords(m);
    CodeBits(StepEffect(m).cause);
  }

  lemma CodeBits(e: Exception)
    ensures e.Code() * 4 == CauseBits(e) < 0x80
  {
  }

  lemma FaultRuns(m: Machine)
    requires m.Valid() && m.cpu.pc % 4 == 0 && Faults(StepEffect(m))
    ensures Step(m).Running?
  {
    hide StepEffect, BusState.Valid, CpuState.Apply, CpuState.Prologue;
  }

  // ---- Immediates ----

  /** ADDIU, SLTI and SLTIU take a sign-extended immediate; LUI fills the upper half. */
  lemma ImmediateOpStep(m: Machine, op: nat, s: Reg, t: Reg, imm: int)
    requires op in {0x09, 0x0a, 0x0b, 0x0f} && -0x8000 <= imm < 0x8000
    requires m.Valid() && Fetches(m, IWord(op, s, t, imm))
    ensures var a := m.cpu.regs[s];
            StepEffect(m) == Effect.Write(t,
              match op
              case 0x09 => (a + imm) % 0x1_0000_0000
              case 0x0a => if Signed(a) < imm then 1 else 0
              case 0x0b => if a < imm % 0x1_0000_0000 then 1 else 0
              case _ => imm % 0x1_0000 * 0x1_0000)
  {
    hide BusState.Valid, Load32, IWord, StepEffect, S, T, Imm, ImmSe, CpuState.Prologue, Function, AddOverflow;
    IFields(op, s, t, imm);
    ImmediateStep(m, IWord(op, s, t, imm));
    WrapAdd(imm, m.cpu.regs[s]);
    SignedOf(imm);
  }

  lemma SignedOf(imm: int)
    requires -0x8000 <= imm < 0x8000
    ensures Signed(imm % 0x1_0000_0000) == imm
  {
  }

  /** ANDI, ORI and XORI take a zero-extended immediate. */
  lemma ImmediateLogicStep(m: Machine, op: nat, s: Reg, t: Reg, imm: int)
    requires 0x0c <= op <= 0x0e && 0 <= imm < 0x1_0000
    requires m.Valid() && Fetches(m, IWord(op, s, t, imm))
    ensures StepEffect(m).Write? && StepEffect(m).d == t
    ensures var a, v := m.cpu.regs[s], StepEffect(m).v;
            forall k: nat :: Bit(v, k) <==>
              match op
              case 0x0c => Bit(a, k) && Bit(imm, k)
              case 0x0d => Bit(a, k) || Bit(imm, k)
              case _ => Bit(a, k) != Bit(imm, k)
  {
    hide BusState.Valid, Load32, IWord, StepEffect, S, T, Imm, ImmSe, CpuState.Prologue, Function, AddOverflow, And, Or,
         Xor, Bit;
    IFields(op, s, t, imm);
    ModUnique(imm, 0x1_0000, 0, imm);
    ImmediateStep(m, IWord(op, s, t, imm));
    forall k: nat
      ensures Bit(And(m.cpu.regs[s], imm), k) <==> Bit(m.cpu.regs[s], k) && Bit(imm, k)
      ensures Bit(Or(m.cpu.regs[s], imm), k) <==> Bit(m.cpu.regs[s], k) || Bit(imm, k)
      ensures Bit(Xor(m.cpu.regs[s], imm), k) <==> Bit(m.cpu.regs[s], k) != Bit(imm, k)
    {
      BitwiseAt(m.cpu.regs[s], imm, k);
    }
  }

  // ---- Branches and jumps ----

  /** The branches of primary opcodes 4 to 7: when they are taken, and where they go. */
  lemma BranchStep(m: Machine, op: nat, s: Reg, t: Reg, offset: int)
    requires 0x04 <= op <= 0x07 && -0x8000 <= offset < 0x8000
    requires m.Valid() && Fetches(m, IWord(op, s, t, offset))
    ensures var a, b := m.cpu.regs[s], m.cpu.regs[t];
            var taken := match op
                         case 0x04 => a == b
                         case 0x05 => a != b
                         case 0x06 => Signed(a) <= 0
                         case _ => Signed(a) > 0;
            StepEffect(m) == if taken then Jump((m.cpu.nextPc + 4 * offset) % 0x1_0000_0000) else Nothing
  {
    hide BusState.Valid, Load32, IWord, StepEffect, S, T, ImmSe, Signed, Function, BranchTarget;
    IFields(op, s, t, offset);
    FetchedEffect(m, IWord(op, s, t, offset));
    TargetOf(m, op, s, t, offset);
  }

  lemma TargetOf(m: Machine, op: nat, s: Reg, t: Reg, offset: int)
    requires op < 0x40 && -0x8000 <= offset < 0x8000
    ensures BranchTarget(m.cpu.Prologue(), IWord(op, s, t, offset)) == (m.cpu.nextPc + 4 * offset) % 0x1_0000_0000
  {
    hide IWord, ImmSe, SetReg;
    IFields(op, s, t, offset);
    var q, r := offset / 0x1_0000_0000, offset % 0x1_0000_0000;
    var x := m.cpu.nextPc + r * 4;
    ModUnique(m.cpu.nextPc + 4 * offset, 0x1_0000_0000, 4 * q + x / 0x1_0000_0000, x % 0x1_0000_0000);
  }

  /** BLTZ and BGEZ, by bit 0 of the target field; and with link if its other bits are 8. The
      link is written whether or not the branch is taken. */
  lemma BranchZeroStep(m: Machine, s: Reg, t: Reg, offset: int)
    requires -0x8000 <= offset < 0x8000 && m.Valid() && Fetches(m, IWord(0x01, s, t, offset))
    ensures var taken := if t % 2 == 0 then Signed(m.cpu.regs[s]) < 0 else Signed(m.cpu.regs[s]) >= 0;
            var target, link := (m.cpu.nextPc + 4 * offset) % 0x1_0000_0000, (m.cpu.nextPc + 4) % 0x1_0000_0000;
            StepEffect(m) ==
            if t == 0x10 || t == 0x11 then (if taken then JumpLink(target, 31, link) else Effect.Write(31, link))
            else if taken then Jump(target) else Nothing
  {
    hide BusState.Valid, Load32, IWord, StepEffect, S, T, ImmSe, Signed, Function, BranchTarget, SetReg;
    IFields(0x01, s, t, offset);
    FetchedEffect(m, IWord(0x01, s, t, offset));
    TargetOf(m, 0x01, s, t, offset);
    ConditionField(s, t, offset);
  }

  lemma ConditionField(s: Reg, t: Reg, offset: int)
    ensures var w := IWord(0x01, s, t, offset);
            (w / 0x1_0000 % 2 == 1 <==> t % 2 == 1) && (w / 0x2_0000 % 0x10 == 8 <==> t == 0x10 || t == 0x11)
  {
    var w: int, i: int := IWord(0x01, s, t, offset), offset % 0x1_0000;
    ModUnique(w, 0x1_0000, (0x20 + s) * 0x20 + t, i);
    ModUnique(w, 0x2_0000, (0x20 + s) * 0x10 + t / 2, t % 2 * 0x1_0000 + i);
    ModUnique((0x20 + s) * 0x20 + t, 2, (0x20 + s) * 0x10 + t / 2, t % 2);
    ModUnique((0x20 + s) * 0x10 + t / 2, 0x10, 0x20 + s, t / 2);
  }

  /** J and JAL: the target is in the 256 MB of the address after the delay slot. */
  lemma JumpStep(m: Machine, op: nat, index: nat)
    requires op in {0x02, 0x03} && index < 0x400_0000 && m.Valid() && Fetches(m, JWord(op, index))
    ensures var link: Word := (m.cpu.nextPc + 4) % 0x1_0000_0000;
            var target := link / 0x1000_0000 * 0x1000_0000 + index * 4;
            StepEffect(m) == if op == 0x02 then Jump(target) else JumpLink(target, 31, link)
  {
    hide BusState.Valid, Load32, JWord, StepEffect, ImmJump, Function, SetReg;
    JFields(op, index);
    FetchedEffect(m, JWord(op, index));
  }

  // ---- Loads and stores ----

  /** The address of an access: the register plus the signed offset, modulo 2^32. */
  lemma AddressIs(file: RegFile, op: nat, s: Reg, t: Reg, offset: int)
    requires op < 0x40 && -0x8000 <= offset < 0x8000
    ensures AddressOf(file, IWord(op, s, t, offset)) == (file[s] + offset) % 0x1_0000_0000
  {
    hide IWord, ImmSe, S;
    IFields(op, s, t, offset);
    WrapAdd(offset, file[s]);
  }

  /** LB, LH, LW, LBU and LHU: which bus access they make, and what they leave pending for the
      target. LW does nothing while the cache is isolated, and LHU alone checks its address. */
  lemma LoadStep(m: Machine, op: nat, s: Reg, t: Reg, offset: int)
    requires op in {0x20, 0x21, 0x23, 0x24, 0x25} && -0x8000 <= offset < 0x8000
    requires m.Valid() && Fetches(m, IWord(op, s, t, offset))
    ensures var addr, e := (m.cpu.regs[s] + offset) % 0x1_0000_0000, StepEffect(m);
            match op
            case 0x20 =>
              var r := Load8(m.bus, addr);
              if r.Stopped? then e == Stop(r.why)
              else e == DelayedLoad(t, if r.value < 0x80 then r.value else 0xffff_ff00 + r.value)
            case 0x21 =>
              var r := Load16(m.bus, addr);
              if r.Stopped? then e == Stop(r.why)
              else e == DelayedLoad(t, if r.value < 0x8000 then r.value else 0xffff_0000 + r.value)
            case 0x23 =>
              var r := Load32(m.bus, addr);
              if m.cpu.sr / 0x1_0000 % 2 == 1 then e == Nothing
              else if r.Stopped? then e == Stop(r.why) else e == DelayedLoad(t, r.value)
            case 0x24 =>
              var r := Load8(m.bus, addr);
              if r.Stopped? then e == Stop(r.why) else e == DelayedLoad(t, r.value)
            case _ =>
              var r := Load16(m.bus, addr);
              if addr % 2 != 0 then e == Fault(LoadAddressError)
              else if r.Stopped? then e == Stop(r.why) else e == DelayedLoad(t, r.value)
  {
    hide BusState.Valid, Load32, Load16, Load8, IWord, StepEffect, AddressOf, T, Function, SetReg, Wrap, Signed8,
         Signed16, MergeLeft, MergeRight;
    IFields(op, s, t, offset);
    AddressIs(m.cpu.regs, op, s, t, offset);
    FetchedEffect(m, IWord(op, s, t, offset));
    ExtendedBytes();
    ExtendedHalves();
  }

  lemma ExtendedBytes()
    ensures forall b: Byte :: Wrap(Signed8(b)) == if b < 0x80 then b else 0xffff_ff00 + b
  {
  }

  lemma ExtendedHalves()
    ensures forall h: Half :: Wrap(Signed16(h)) == if h < 0x8000 then h else 0xffff_0000 + h
  {
  }

  /** SB, SH and SW: the width, the address and the low part of the register that they store;
      with the cache isolated nothing, though SH still checks its address. */
  lemma StoreStep(m: Machine, op: nat, s: Reg, t: Reg, offset: int)
    requires op in {0x28, 0x29, 0x2b} && -0x8000 <= offset < 0x8000
    requires m.Valid() && Fetches(m, IWord(op, s, t, offset))
    ensures var addr, v := (m.cpu.regs[s] + offset) % 0x1_0000_0000, m.cpu.regs[t];
            var isolated := m.cpu.sr / 0x1_0000 % 2 == 1;
            StepEffect(m) ==
            match op
            case 0x28 => if isolated then Nothing else StoreMem(1, addr, v % 0x100)
            case 0x29 =>
              if addr % 2 != 0 then Fault(StoreAddressError)
              else if isolated then Nothing else StoreMem(2, addr, v % 0x1_0000)
            case _ =>
              if isolated then Nothing
              else if addr % 4 != 0 then Fault(StoreAddressError) else StoreMem(4, addr, v)
  {
    hide BusState.Valid, Load32, IWord, StepEffect, AddressOf, T, Function, SetReg, Wrap, MergeLeft, MergeRight;
    IFields(op, s, t, offset);
    AddressIs(m.cpu.regs, op, s, t, offset);
    FetchedEffect(m, IWord(op, s, t, offset));
  }

  /** What a store effect does to the bus, by width. */
  lemma StoredOnBus(m: Machine)
    requires m.Valid() && m.cpu.pc % 4 == 0 && StepEffect(m).StoreMem? && StepEffect(m).width in {1, 2, 4}
    ensures var e := StepEffect(m);
            var r := match e.width
                     case 1 => Store8(m.bus, e.addr, e.v % 0x100)
                     case 2 => Store16(m.bus, e.addr, e.v % 0x1_0000)
                     case _ => Store32(m.bus, e.addr, e.v);
            if r.Stopped? then Step(m) == Stopped(r.why) else Step(m).Running? && Step(m).value.bus == r.value
  {
    hide BusState.Valid, StepEffect, CpuState.Prologue, Store8, Store16, Store32;
  }

  /** SW and then LW at the same offset from the same register, in any of the places where main
      memory is seen: the word stored is on its way to the target of the load. */
  lemma StoreThenLoad(m: Machine, s: Reg, t: Reg, u: Reg, offset: int)
    requires -0x8000 <= offset < 0x8000 && m.Valid() && Fetches(m, IWord(0x2b, s, t, offset))
    requires m.cpu.sr / 0x1_0000 % 2 == 0 && (m.cpu.loadRegIdx != s || s == 0)
    requires var addr := (m.cpu.regs[s] + offset) % 0x1_0000_0000;
             addr % 4 == 0 && MemoryMap.Contains(MemoryMap.MaskRegion(addr), MemoryMap.MainRam) != -1
    requires Step(m).Running? ==> Fetches(Step(m).value, IWord(0x23, s, u, offset))
    ensures Step(m).Running? && StepEffect(Step(m).value) == DelayedLoad(u, m.cpu.regs[t])
  {
    hide BusState.Valid, Load32, IWord, StepEffect, Step, MemoryMap.MaskRegion, MemoryMap.Contains, BusModel.Store32;
    var addr := (m.cpu.regs[s] + offset) % 0x1_0000_0000;
    StoreStep(m, 0x2b, s, t, offset);
    StoredOnBus(m);
    WordInRam(m.bus, addr, m.cpu.regs[t]);
    var m1 := Step(m).value;
    StepKeeps(m);
    RegisterLaw(m, s);
    StepSr(m);
    LoadStep(m1, 0x23, s, u, offset);
  }

  lemma WordInRam(b: BusState, addr: Word, v: Word)
    requires b.Valid() && addr % 4 == 0
    requires MemoryMap.Contains(MemoryMap.MaskRegion(addr), MemoryMap.MainRam) != -1
    ensures Store32(b, addr, v).Running? && Load32(Store32(b, addr, v).value, addr) == Running(v)
  {
    hide BusState.Valid, Load32, BusModel.Store32, MemoryMap.MaskRegion, MemoryMap.Contains, RamModel.Read,
         RamModel.Write;
    assert Pow256(4) == 0x1_0000_0000;
    var p := addr % 0x20_0000;
    ModUnique(addr, 4, 0x8_0000 * (addr / 0x20_0000) + p / 4, p % 4);
    StoreOneWrites(b, Access(addr, 4, v));
    var ram' := RamModel.Write(b.ram, p, 4, v);
    ReadAfterWrite(b.ram, p, 4, v);
    LoadsReadRam(b.(ram := ram'), addr);
  }

  // ---- System control ----

  /** MFC0 reads SR, CAUSE and EPC with the delay of a load; MTC0 writes SR and accepts a zero for
      seven registers; RFE pops the mode stack; everything else panics. */
  lemma Cop0Step(m: Machine, cop: nat, t: Reg, d: Reg, low: nat)
    requires cop < 0x20 && low < 0x800 && m.Valid() && Fetches(m, CopWord(cop, t, d, low))
    ensures var v, c := m.cpu.regs[t], m.cpu;
            StepEffect(m) ==
            if cop == 0x00 && d == 12 then DelayedLoad(t, c.sr)
            else if cop == 0x00 && d == 13 then DelayedLoad(t, c.cause)
            else if cop == 0x00 && d == 14 then DelayedLoad(t, c.epc)
            else if cop == 0x04 && d == 12 then SetSr(v)
            else if cop == 0x04 && d in {3, 5, 6, 7, 9, 11, 13} && v == 0 then Nothing
            else if cop == 0x10 && low % 0x40 == 0x10 then ReturnMode
            else Stop(Panic)
  {
    hide BusState.Valid, Load32, CopWord, StepEffect, T, D, CopOpcode, Function, SetReg, Wrap;
    CopFields(cop, t, d, low);
    FetchedEffect(m, CopWord(cop, t, d, low));
  }

  // ---- The other primary opcodes ----

  const IMPLEMENTED: set<int> := {
    0x00, 0x01, 0x02, 0x03, 0x04, 0x05, 0x06, 0x07, 0x08, 0x09, 0x0a, 0x0b, 0x0c, 0x0d, 0x0e, 0x0f, 0x10,
    0x20, 0x21, 0x22, 0x23, 0x24, 0x25, 0x26, 0x28, 0x29, 0x2a, 0x2b, 0x2e}

  /** Coprocessors 1 and 3 raise an exception, as do the load and store opcodes of coprocessors
      0, 1 and 3; those of coprocessor 2 panic; any other opcode is illegal. */
  lemma OtherOpcodes(m: Machine, instr: Word)
    requires m.Valid() && Fetches(m, instr) && Function(instr) !in IMPLEMENTED
    ensures var op := Function(instr);
            if op in {0x12, 0x32, 0x3a} then Step(m) == Stopped(Panic)
            else FaultsWith(m, if op in {0x11, 0x13, 0x30, 0x31, 0x33, 0x38, 0x39, 0x3b} then 0x2c else 0x28)
  {
    hide BusState.Valid, Load32, StepEffect, Function, CpuState.Prologue, FaultsWith, Step;
    FetchedEffect(m, instr);
    if StepEffect(m).Fault? { FaultCode(m); } else { StopStops(m); }
  }

  lemma StopStops(m: Machine)
    requires m.Valid() && m.cpu.pc % 4 == 0 && StepEffect(m).Stop?
    ensures Step(m) == Stopped(StepEffect(m).why)
  {
    hide StepEffect, BusState.Valid, CpuState.Prologue;
  }
}
