/** The CPU as a programmer sees it: one register file, a load that arrives one instruction
    late, a branch delay slot, and an exception mode stack. */
module CpuModel {
  import opened Words
  import opened Outcomes
  import opened BusModel
  import opened CpuArith

  datatype Exception =
    | LoadAddressError | StoreAddressError | SysCall | Break
    | IllegalInstruction | CoprocessorError | Overflow
  {
    function Code(): nat
    {
      match this
      case LoadAddressError => 0x4
      case StoreAddressError => 0x5
      case SysCall => 0x8
      case Break => 0x9
      case IllegalInstruction => 0xa
      case CoprocessorError => 0xb
      case Overflow => 0xc
    }
  }

  // ---- Instruction fields ----

  type Reg = i: nat | i < 32

  function Function(instr: Word): nat { instr / 0x400_0000 }
  function Subfunction(instr: Word): nat { instr % 0x40 }
  function CopOpcode(instr: Word): nat { instr / 0x20_0000 % 0x20 }
  function T(instr: Word): Reg { instr / 0x1_0000 % 0x20 }
  function S(instr: Word): Reg { instr / 0x20_0000 % 0x20 }
  function D(instr: Word): Reg { instr / 0x800 % 0x20 }
  function Imm(instr: Word): Half { instr % 0x1_0000 }
  function ImmSe(instr: Word): Word { Wrap(Signed16(Imm(instr))) }
  function ImmJump(instr: Word): nat { instr % 0x400_0000 }
  function Shift(instr: Word): nat { instr / 0x40 % 0x20 }

  // ---- State ----

  /** SR when an exception is entered: the three mode pairs move up, the oldest falls off, and
      since the clearing mask is a logical negation every other bit is lost. */
  function PushMode(sr: Word): Word { sr % 0x40 * 4 % 0x40 }

  /** SR after a return from exception, with the same loss. */
  function PopMode(sr: Word): Word { sr % 0x40 / 4 }

  type RegFile = s: seq<Word> | |s| == 32 witness seq(32, _ => 0)

  const ZERO_FILE: RegFile := seq(32, _ => 0)

  /** A register write; register 0 stays zero. */
  function SetReg(file: RegFile, index: Reg, val: Word): RegFile { file[index := val][0 := 0] }

  datatype CpuState = CpuState(
    pc: Word, nextPc: Word, currentPc: Word, ip: Word,
    regs: RegFile, loadRegIdx: Reg, loadReg: Word,
    sr: Word, cause: Word, epc: Word, hi: Word, lo: Word,
    branch: bool, delaySlot: bool)
  {
    /** What holds between instructions. */
    predicate Valid() { regs[0] == 0 && (!branch ==> nextPc == Wrap(pc + 4)) }

    /** Bit 16 of SR: the cache is isolated, stores go nowhere. */
    predicate Isolated() { sr / 0x1_0000 % 2 == 1 }

    /** Enters an exception. */
    function Raise(cause: Exception): CpuState
    {
      var handler: Word := if sr / 0x40_0000 % 2 == 1 then 0xbfc0_0180 else 0x8000_0080;
      this.(sr := PushMode(sr),
            cause := cause.Code() * 4 + if delaySlot then 0x8000_0000 else 0,
            epc := if delaySlot then Wrap(currentPc - 4) else currentPc,
            pc := handler,
            nextPc := handler + 4)
    }

    /** The part of a step before decoding: the PC moves on, the pending load arrives, and
        the branch flag moves to the delay-slot flag. */
    function Prologue(): CpuState
    {
      this.(currentPc := pc, pc := nextPc, nextPc := Wrap(nextPc + 4),
            regs := SetReg(regs, loadRegIdx, loadReg), loadRegIdx := 0, loadReg := 0,
            delaySlot := branch, branch := false)
    }

    function Apply(e: Effect): CpuState
      requires !e.Stop?
    {
      match e
      case Nothing | StoreMem(_, _, _) => this
      case Write(d, v) => this.(regs := SetReg(regs, d, v))
      case DelayedLoad(t, v) => this.(loadRegIdx := t, loadReg := v)
      case SetHiLo(h, l) => this.(hi := h, lo := l)
      case Jump(target) => this.(nextPc := target, branch := true)
      case JumpLink(target, d, ra) => this.(nextPc := target, branch := true, regs := SetReg(regs, d, ra))
      case Fault(cause) => Raise(cause)
      case FaultWrite(cause, d, v) => Raise(cause).(regs := SetReg(regs, d, v))
      case SetSr(v) => this.(sr := v)
      case ReturnMode => this.(sr := PopMode(sr))
    }
  }

  const RESET_CPU := CpuState(0xbfc0_0000, 0xbfc0_0004, 0, 0,
    seq(32, i => if i == 0 then 0 else 0xdead_c0de), 0, 0, 0, 0, 0, 0xdead_c0de, 0xdead_c0de, false, false)

  // ---- What an instruction does ----

  /** Everything an instruction can do, besides moving the PC on. */
  datatype Effect =
    | Nothing
    | Write(d: Reg, v: Word)
    | DelayedLoad(t: Reg, v: Word)
    | SetHiLo(h: Word, l: Word)
    | Jump(target: Word)
    | JumpLink(target: Word, d: Reg, v: Word)
    | Fault(cause: Exception)
    | FaultWrite(cause: Exception, d: Reg, v: Word)
    | SetSr(v: Word)
    | ReturnMode
    | StoreMem(width: nat, addr: Word, v: Word)
    | Stop(why: Why)

  function AddressOf(file: RegFile, instr: Word): Word { Wrap(file[S(instr)] + ImmSe(instr)) }

  function BranchTarget(s: CpuState, instr: Word): Word { Wrap(s.pc + ImmSe(instr) * 4) }

  function JumpTarget(s: CpuState, instr: Word): Word
  {
    s.nextPc / 0x1000_0000 * 0x1000_0000 + ImmJump(instr) * 4
  }

  function BoolWord(b: bool): Word { if b then 1 else 0 }

  function Pair(p: (Word, Word)): Effect { SetHiLo(p.0, p.1) }

  /** Instructions with primary opcode 0. `file` is the register file before the step. */
  function SpecialEffect(file: RegFile, s: CpuState, instr: Word): (e: Effect)
    ensures !e.Stop? && !e.StoreMem?
  {
    var a, b, d := file[S(instr)], file[T(instr)], D(instr);
    match Subfunction(instr)
    case 0x08 => Jump(a)
    case 0x09 => JumpLink(a, d, s.nextPc)
    case 0x0c => Fault(SysCall)
    case 0x0d => Fault(Break)
    case 0x10 => Write(d, s.hi)
    case 0x11 => SetHiLo(a, s.lo)
    case 0x12 => Write(d, s.lo)
    case 0x13 => SetHiLo(s.hi, a)
    case 0x18 => Pair(MultHiLo(a, b))
    case 0x19 => Pair(MultuHiLo(a, b))
    case 0x1a => Pair(DivHiLo(a, b))
    case 0x1b => Pair(DivuHiLo(a, b))
    case _ => AluEffect(file, instr)
  }

  /** The register-to-register operations among them. */
  function AluEffect(file: RegFile, instr: Word): (e: Effect)
    ensures !e.Stop? && !e.StoreMem?
  {
    var a, b, d := file[S(instr)], file[T(instr)], D(instr);
    match Subfunction(instr)
    case 0x00 => Write(d, ShiftLeft(b, Shift(instr)))
    case 0x02 => Write(d, ShiftRight(b, Shift(instr)))
    case 0x03 => Write(d, ShiftRightSigned(b, Shift(instr)))
    case 0x04 => Write(d, ShiftLeft(b, a % 0x20))
    case 0x06 => Write(d, ShiftRight(b, a % 0x20))
    case 0x07 => Write(d, ShiftRightSigned(b, a % 0x20))
    case 0x20 => var v := Wrap(a as int + b); if AddOverflow(a, b, v) then FaultWrite(Overflow, d, v) else Write(d, v)
    case 0x21 => Write(d, Wrap(a as int + b))
    case 0x22 => var v := Wrap(a as int - b); if SubOverflow(a, b, v) then Fault(Overflow) else Write(d, v)
    case 0x23 => Write(d, Wrap(a as int - b))
    case 0x24 => Write(d, And(a, b))
    case 0x25 => Write(d, OrWord(a, b))
    case 0x26 => Write(d, XorWord(a, b))
    case 0x27 => Write(d, Not(OrWord(a, b)))
    case 0x2a => Write(d, BoolWord(Signed(a) < Signed(b)))
    case 0x2b => Write(d, BoolWord(a < b))
    case _ => Fault(IllegalInstruction)
  }

  /** Instructions that combine a register with an immediate. */
  function ImmediateEffect(file: RegFile, instr: Word): (e: Effect)
    ensures !e.Stop? && !e.StoreMem?
  {
    var a, t, i, se := file[S(instr)], T(instr), Imm(instr), ImmSe(instr);
    match Function(instr)
    case 0x08 => var v := Wrap(a + se); if AddOverflow(a, se, v) then FaultWrite(Overflow, t, v) else Write(t, v)
    case 0x09 => Write(t, Wrap(a + se))
    case 0x0a => Write(t, BoolWord(Signed(a) < Signed(se)))
    case 0x0b => Write(t, BoolWord(a < se))
    case 0x0c => Write(t, And(a, i))
    case 0x0d => Write(t, OrWord(a, i))
    case 0x0e => Write(t, XorWord(a, i))
    case 0x0f => Write(t, i * 0x1_0000)
    case _ => Fault(IllegalInstruction)
  }

  /** Branches and jumps with an immediate target. */
  function BranchEffect(file: RegFile, s: CpuState, instr: Word): (e: Effect)
    ensures !e.Stop? && !e.StoreMem?
  {
    var a, b := file[S(instr)], file[T(instr)];
    var taken := Jump(BranchTarget(s, instr));
    match Function(instr)
    case 0x01 =>
      var holds := (Signed(a) < 0) != (instr / 0x1_0000 % 2 == 1);
      var link := instr / 0x2_0000 % 0x10 == 8;
      if link then (if holds then JumpLink(BranchTarget(s, instr), 31, s.nextPc) else Write(31, s.nextPc))
      else if holds then taken else Nothing
    case 0x02 => Jump(JumpTarget(s, instr))
    case 0x03 => JumpLink(JumpTarget(s, instr), 31, s.nextPc)
    case 0x04 => if a == b then taken else Nothing
    case 0x05 => if a != b then taken else Nothing
    case 0x06 => if Signed(a) <= 0 then taken else Nothing
    case _ => if Signed(a) > 0 then taken else Nothing
  }

  function Loaded(t: Reg, r: Outcome<Word>): Effect
  {
    match r
    case Stopped(why) => Stop(why)
    case Running(v) => DelayedLoad(t, v)
  }

  function MapWord<A>(r: Outcome<A>, f: A -> Word): Outcome<Word>
  {
    match r
    case Stopped(why) => Stopped(why)
    case Running(v) => Running(f(v))
  }

  /** Loads of words. LWL and LWR merge with the target's value after the pending load has arrived. */
  function LoadEffect(file: RegFile, s: CpuState, b: BusState, instr: Word): (e: Effect)
    requires b.Valid()
    ensures !e.StoreMem?
  {
    var addr, t := AddressOf(file, instr), T(instr);
    match Function(instr)
    case 0x22 => Loaded(t, MapWord(Load32(b, addr / 4 * 4), (v: Word) => MergeLeft(s.regs[t], v, addr % 4)))
    case 0x23 => if s.Isolated() then Nothing else Loaded(t, Load32(b, addr))
    case 0x26 => Loaded(t, MapWord(Load32(b, addr / 4 * 4), (v: Word) => MergeRight(s.regs[t], v, addr % 4)))
    case _ => NarrowLoadEffect(file, b, instr)
  }

  /** Loads of bytes and half words, with and without sign extension. */
  function NarrowLoadEffect(file: RegFile, b: BusState, instr: Word): (e: Effect)
    ensures !e.StoreMem?
  {
    var addr, t := AddressOf(file, instr), T(instr);
    match Function(instr)
    case 0x20 => Loaded(t, MapWord(Load8(b, addr), (v: Byte) => Wrap(Signed8(v))))
    case 0x21 => Loaded(t, MapWord(Load16(b, addr), (v: Half) => Wrap(Signed16(v))))
    case 0x24 => Loaded(t, MapWord(Load8(b, addr), (v: Byte) => v as Word))
    case _ =>
      if addr % 2 != 0 then Fault(LoadAddressError)
      else Loaded(t, MapWord(Load16(b, addr), (v: Half) => v as Word))
  }

  /** Stores. With the cache isolated they do nothing, after the checks the code makes first. */
  function StoreEffect(file: RegFile, s: CpuState, b: BusState, instr: Word): Effect
    requires b.Valid()
  {
    var addr, v := AddressOf(file, instr), file[T(instr)];
    match Function(instr)
    case 0x28 => StoreUnlessIsolated(s, 1, addr, v % 0x100)
    case 0x29 => if addr % 2 != 0 then Fault(StoreAddressError) else StoreUnlessIsolated(s, 2, addr, v % 0x1_0000)
    case 0x2b =>
      if s.Isolated() then Nothing
      else if addr % 4 != 0 then Fault(StoreAddressError) else StoreMem(4, addr, v)
    case opcode =>
      match Load32(b, addr / 4 * 4)
      case Stopped(why) => Stop(why)
      case Running(cur) =>
        StoreUnlessIsolated(s, 4, addr / 4 * 4,
          if opcode == 0x2a then MergeRight(cur, v, addr % 4) else MergeLeft(cur, v, addr % 4))
  }

  function StoreUnlessIsolated(s: CpuState, width: nat, addr: Word, v: Word): Effect
  {
    if s.Isolated() then Nothing else StoreMem(width, addr, v)
  }

  /** System-control instructions. */
  function Cop0Effect(file: RegFile, s: CpuState, instr: Word): (e: Effect)
    ensures !e.StoreMem?
  {
    var d, v := D(instr), file[T(instr)];
    match CopOpcode(instr)
    case 0x00 =>
      if d == 12 then DelayedLoad(T(instr), s.sr)
      else if d == 13 then DelayedLoad(T(instr), s.cause)
      else if d == 14 then DelayedLoad(T(instr), s.epc)
      else Stop(Panic)
    case 0x04 =>
      if d == 12 then SetSr(v)
      else if d in {3, 5, 6, 7, 9, 11, 13} && v == 0 then Nothing
      else Stop(Panic)
    case 0x10 => if instr % 0x40 == 0x10 then ReturnMode else Stop(Panic)
    case _ => Stop(Panic)
  }

  datatype Group = Special | Branch | Immediate | Cop0 | Load | Store | Absent | Missing | Unknown

  /** The families of primary opcodes. `Absent` coprocessors raise an exception; the geometry
      coprocessor is `Missing` from the emulator, which panics. */
  function GroupOf(opcode: nat): Group
  {
    if opcode == 0x00 then Special
    else if 0x01 <= opcode <= 0x07 then Branch
    else if 0x08 <= opcode <= 0x0f then Immediate
    else if opcode == 0x10 then Cop0
    else if opcode in {0x11, 0x13, 0x30, 0x31, 0x33, 0x38, 0x39, 0x3b} then Absent
    else if opcode in {0x12, 0x32, 0x3a} then Missing
    else if 0x20 <= opcode <= 0x26 then Load
    else if opcode in {0x28, 0x29, 0x2a, 0x2b, 0x2e} then Store
    else Unknown
  }

  function EffectOf(file: RegFile, s: CpuState, b: BusState, instr: Word): Effect
    requires b.Valid()
  {
    match GroupOf(Function(instr))
    case Load => LoadEffect(file, s, b, instr)
    case Store => StoreEffect(file, s, b, instr)
    case _ => RegisterEffect(file, s, instr)
  }

  /** The instructions that do not reach the bus. */
  function RegisterEffect(file: RegFile, s: CpuState, instr: Word): (e: Effect)
    ensures !e.StoreMem?
  {
    match GroupOf(Function(instr))
    case Special => SpecialEffect(file, s, instr)
    case Branch => BranchEffect(file, s, instr)
    case Immediate => ImmediateEffect(file, instr)
    case Cop0 => Cop0Effect(file, s, instr)
    case Absent => Fault(CoprocessorError)
    case Missing => Stop(Panic)
    case _ => Fault(IllegalInstruction)
  }

  // ---- The machine ----

  datatype Machine = Machine(cpu: CpuState, bus: BusState)
  {
    predicate Valid() { cpu.Valid() && bus.Valid() }
  }

  ghost function StoreTo(b: BusState, width: nat, addr: Word, v: Word): (r: Outcome<BusState>)
    requires b.Valid()
    ensures r.Running? ==> r.value.Valid()
  {
    if width == 1 then Store8(b, addr, v % 0x100)
    else if width == 2 then Store16(b, addr, v % 0x1_0000)
    else Store32(b, addr, v)
  }

  ghost function Perform(s: CpuState, b: BusState, e: Effect): (r: Outcome<Machine>)
    requires b.Valid()
    ensures r.Running? ==> r.value.bus.Valid()
  {
    if e.Stop? then Stopped(e.why)
    else if e.StoreMem? then
      match StoreTo(b, e.width, e.addr, e.v)
      case Stopped(why) => Stopped(why)
      case Running(b') => Running(Machine(s, b'))
    else Running(Machine(s.Apply(e), b))
  }

  /** The effect of the instruction at the PC, when it is fetched at all. */
  function StepEffect(m: Machine): Effect
    requires m.bus.Valid()
  {
    if m.cpu.pc % 4 != 0 then Fault(LoadAddressError)
    else
      match Load32(m.bus, m.cpu.pc)
      case Stopped(why) => Stop(why)
      case Running(instr) => EffectOf(m.cpu.regs, m.cpu.Prologue(), m.bus, instr)
  }

  /** One instruction. A misaligned PC faults before anything else has been updated. */
  ghost function Step(m: Machine): (r: Outcome<Machine>)
    requires m.bus.Valid()
    ensures r.Running? ==> r.value.bus.Valid()
  {
    if m.cpu.pc % 4 != 0 then
      Running(m.(cpu := m.cpu.(currentPc := m.cpu.pc).Raise(LoadAddressError)))
    else
      match Perform(m.cpu.Prologue(), m.bus, StepEffect(m))
      case Stopped(why) => Stopped(why)
      case Running(m') => Running(m'.(cpu := m'.cpu.(ip := Wrap(m'.cpu.ip + 1))))
  }

  lemma ApplyKeeps(s: CpuState, e: Effect)
    requires !e.Stop? && s.regs[0] == 0 && s.nextPc == Wrap(s.pc + 4) && !s.branch
    ensures s.Apply(e).Valid()
  {
  }

  /** Every step keeps register 0 at zero, and keeps the next PC sequential unless the
      instruction just run was a taken branch or jump. */
  lemma StepKeeps(m: Machine)
    requires m.Valid() && Step(m).Running?
    ensures Step(m).value.Valid()
  {
    hide EffectOf, BusState.Valid, Load32, StoreTo, CpuState.Apply;
    if m.cpu.pc % 4 == 0 {
      var e := StepEffect(m);
      assert m.cpu.Prologue().nextPc == Wrap(m.cpu.Prologue().pc + 4);
      if e.StoreMem? {
      } else {
        ApplyKeeps(m.cpu.Prologue(), e);
      }
    }
  }
}
