/** The CPU object as the emulator runs it: two register files, one read and one written, and
    a copy loop that makes them agree again after every instruction. */
module CpuObject {
  import opened Words
  import opened Outcomes
  import opened BusModel
  import opened BusObject
  import opened CpuArith
  import opened CpuModel

  lemma ResetIsValid()
    ensures RESET_CPU.Valid()
  {
  }

  /** A step of the one-file machine, case by case. */
  lemma StepOf(m: Machine)
    requires m.Valid()
    ensures m.cpu.pc % 4 != 0 ==> Step(m) == Running(m.(cpu := m.cpu.(currentPc := m.cpu.pc).Raise(LoadAddressError)))
    ensures m.cpu.pc % 4 == 0 ==>
              match BusModel.Load32(m.bus, m.cpu.pc)
              case Stopped(why) => Step(m) == Stopped(why)
              case Running(instr) =>
                var r := Perform(m.cpu.Prologue(), m.bus, EffectOf(m.cpu.regs, m.cpu.Prologue(), m.bus, instr));
                Step(m) == if r.Stopped? then Stopped(r.why)
                           else Running(r.value.(cpu := r.value.cpu.(ip := Wrap(r.value.cpu.ip + 1))))
    ensures Step(m).Running? ==> Step(m).value.Valid()
  {
    hide EffectOf, StoreTo, BusState.Valid, CpuState.Valid, CpuState.Raise, CpuState.Apply, CpuState.Prologue,
         BusModel.Load32, Wrap;
    if Step(m).Running? { StepKeeps(m); }
  }

  lemma GroupsCover(opcode: nat)
    ensures GroupOf(opcode).Branch? ==> 0x01 <= opcode <= 0x07
    ensures GroupOf(opcode).Load? ==> 0x20 <= opcode <= 0x26
    ensures GroupOf(opcode).Store? ==> opcode in {0x28, 0x29, 0x2a, 0x2b, 0x2e}
  {
  }

  class Cpu {
    const bus: Bus
    const regs: array<Word>
    const outRegs: array<Word>
    var pc: Word
    var ip: Word
    var nextPc: Word
    var currentPc: Word
    var loadRegIdx: Reg
    var loadReg: Word
    var sr: Word
    var cause: Word
    var epc: Word
    var hi: Word
    var lo: Word
    var branch: bool
    var delaySlot: bool

    /** Two separate files of 32 registers. */
    ghost predicate TwoFiles() { regs.Length == 32 && outRegs.Length == 32 && regs != outRegs }

    /** The CPU and its files are apart from everything the bus owns. */
    ghost predicate Wired()
    {
      && TwoFiles()
      && this !in bus.Repr() && regs !in bus.Repr() && outRegs !in bus.Repr()
    }

    ghost function In(): RegFile
      reads regs
    {
      if regs.Length == 32 then regs[..] else ZERO_FILE
    }

    /** The state with the output file as its registers. */
    ghost function Mid(): CpuState
      reads this, outRegs
    {
      CpuState(pc, nextPc, currentPc, ip, if outRegs.Length == 32 then outRegs[..] else ZERO_FILE,
               loadRegIdx, loadReg, sr, cause, epc, hi, lo, branch, delaySlot)
    }

    /** Between instructions the two files are equal and register 0 is zero. */
    ghost predicate Valid()
      reads this, regs, outRegs, bus.Repr()
    {
      Wired() && bus.Valid() && In() == Mid().regs && Mid().Valid()
    }

    /** The machine with a single register file that this object implements. */
    ghost function State(): Machine
      reads this, regs, outRegs, bus.Repr()
    {
      Machine(Mid(), bus.State())
    }

    constructor (bus: Bus)
      requires bus.Valid()
      ensures this.bus == bus && fresh(regs) && fresh(outRegs)
      ensures Valid() && State() == Machine(RESET_CPU, bus.State())
    {
      hide Bus.Valid, Bus.State, CpuState.Valid;
      assert forall o | o in bus.Repr() :: allocated(o);
      ResetIsValid();
      this.bus := bus;
      regs := new Word[32](i => if i == 0 then 0 else 0xdead_c0de);
      outRegs := new Word[32](i => if i == 0 then 0 else 0xdead_c0de);
      pc, nextPc, currentPc, ip := 0xbfc0_0000, 0xbfc0_0004, 0, 0;
      loadRegIdx, loadReg, sr, cause, epc := 0, 0, 0, 0, 0;
      hi, lo, branch, delaySlot := 0xdead_c0de, 0xdead_c0de, false, false;
      new;
      assert regs[..] == RESET_CPU.regs && outRegs[..] == RESET_CPU.regs;
      assert Mid() == RESET_CPU;
      assert bus.Valid() && Wired();
      assert Mid().Valid();
    }

    // ---- Registers ----

    function GetReg(index: Reg): Word
      requires regs.Length == 32
      reads regs
    {
      regs[index]
    }

    method PutReg(index: Reg, val: Word)
      requires TwoFiles()
      modifies outRegs
      ensures Mid() == old(Mid()).(regs := SetReg(old(Mid()).regs, index, val))
    {
      outRegs[index] := val;
      outRegs[0] := 0;
    }

    method RaiseException(exception: Exception)
      modifies this
      ensures Mid() == old(Mid()).Raise(exception)
    {
      hide Wrap, PushMode, Exception.Code;
      var handler: Word := if sr / 0x40_0000 % 2 != 0 then 0xbfc0_0180 else 0x8000_0080;
      sr := PushMode(sr);
      RecordFault(exception);
      pc := handler;
      nextPc := handler + 4;
    }

    /** What the handler will find in CAUSE and EPC. */
    method RecordFault(exception: Exception)
      modifies `cause, `epc
      ensures cause == exception.Code() * 4 + if delaySlot then 0x8000_0000 else 0
      ensures epc == if delaySlot then Wrap(currentPc - 4) else currentPc
    {
      hide Wrap;
      cause := exception.Code() * 4;
      epc := currentPc;
      if delaySlot {
        epc := Wrap(epc - 4);
        cause := cause + 0x8000_0000;
      }
    }

    method BranchBy(offset: Word)
      modifies this
      ensures Mid() == old(Mid()).(nextPc := Wrap(old(pc) + offset * 4), branch := true)
    {
      nextPc := Wrap(pc + Wrap(offset * 4));
      branch := true;
      WrapAdd(offset * 4, old(pc));
    }

    // ---- The instruction families ----

    method OpSpecial(instr: Word)
      requires TwoFiles()
      modifies this, outRegs
      ensures Mid() == old(Mid()).Apply(old(SpecialEffect(In(), Mid(), instr)))
    {
      hide MultHiLo, MultuHiLo, DivHiLo, DivuHiLo, CpuState.Raise, SetReg, AluEffect, S, T, D, Subfunction;
      var a, b, d := GetReg(S(instr)), GetReg(T(instr)), D(instr);
      match Subfunction(instr) {
        case 0x08 =>
          nextPc := a;
          branch := true;
        case 0x09 =>
          PutReg(d, nextPc);
          nextPc := a;
          branch := true;
        case 0x0c => RaiseException(SysCall);
        case 0x0d => RaiseException(Break);
        case 0x10 => PutReg(d, hi);
        case 0x11 => hi := a;
        case 0x12 => PutReg(d, lo);
        case 0x13 => lo := a;
        case 0x18 => hi, lo := MultHiLo(a, b).0, MultHiLo(a, b).1;
        case 0x19 => hi, lo := MultuHiLo(a, b).0, MultuHiLo(a, b).1;
        case 0x1a => OpDiv(a, b);
        case 0x1b => OpDivu(a, b);
        case _ => OpAlu(instr);
      }
    }

    method OpAlu(instr: Word)
      requires TwoFiles()
      modifies this, outRegs
      ensures Mid() == old(Mid()).Apply(old(AluEffect(In(), instr)))
    {
      hide Wrap, And, AddOverflow, SubOverflow, ShiftLeft, ShiftRight, ShiftRightSigned, Not, Signed,
           CpuState.Raise, SetReg, S, T, D, Subfunction, Shift, OrWord, XorWord, BoolWord;
      var a, b, d := GetReg(S(instr)), GetReg(T(instr)), D(instr);
      match Subfunction(instr) {
        case 0x00 => PutReg(d, ShiftLeft(b, Shift(instr)));
        case 0x02 => PutReg(d, ShiftRight(b, Shift(instr)));
        case 0x03 => PutReg(d, ShiftRightSigned(b, Shift(instr)));
        case 0x04 => PutReg(d, ShiftLeft(b, a % 0x20));
        case 0x06 => PutReg(d, ShiftRight(b, a % 0x20));
        case 0x07 => PutReg(d, ShiftRightSigned(b, a % 0x20));
        case 0x20 =>
          var v := Wrap(a as int + b);
          if AddOverflow(a, b, v) { RaiseException(Overflow); }
          PutReg(d, v);
        case 0x21 => PutReg(d, Wrap(a as int + b));
        case 0x22 =>
          var v := Wrap(a as int - b);
          if SubOverflow(a, b, v) { RaiseException(Overflow); } else { PutReg(d, v); }
        case 0x23 => PutReg(d, Wrap(a as int - b));
        case 0x24 => PutReg(d, And(a, b));
        case 0x25 => PutReg(d, OrWord(a, b));
        case 0x26 => PutReg(d, XorWord(a, b));
        case 0x27 => PutReg(d, Not(OrWord(a, b)));
        case 0x2a => PutReg(d, BoolWord(Signed(a) < Signed(b)));
        case 0x2b => PutReg(d, BoolWord(a < b));
        case _ => RaiseException(IllegalInstruction);
      }
    }

    method OpDiv(a: Word, b: Word)
      modifies this
      ensures Mid() == old(Mid()).(hi := DivHiLo(a, b).0, lo := DivHiLo(a, b).1)
    {
      hide Wrap, TruncDiv, TruncMod;
      var n, d := Signed(a), Signed(b);
      if d == 0 {
        hi := a;
        if n >= 0 { lo := 0xffff_ffff; } else { lo := 1; }
      } else if a == 0x8000_0000 && d == -1 {
        hi := 0;
        lo := 0x8000_0000;
      } else {
        hi := Wrap(TruncMod(n, d));
        lo := Wrap(TruncDiv(n, d));
      }
    }

    method OpDivu(n: Word, d: Word)
      modifies this
      ensures Mid() == old(Mid()).(hi := DivuHiLo(n, d).0, lo := DivuHiLo(n, d).1)
    {
      if d == 0 {
        hi := n;
        lo := 0xffff_ffff;
      } else {
        hi := UnsignedMod(n, d);
        lo := UnsignedDiv(n, d);
      }
    }

    method OpImmediate(instr: Word)
      requires TwoFiles()
      modifies this, outRegs
      ensures Mid() == old(Mid()).Apply(old(ImmediateEffect(In(), instr)))
    {
      hide Wrap, And, AddOverflow, Signed, CpuState.Raise, SetReg, ImmSe, Imm;
      var a, t, i, se := GetReg(S(instr)), T(instr), Imm(instr), ImmSe(instr);
      match Function(instr) {
        case 0x08 =>
          var v := Wrap(a as int + se);
          if AddOverflow(a, se, v) { RaiseException(Overflow); }
          PutReg(t, v);
        case 0x09 => PutReg(t, Wrap(a as int + se));
        case 0x0a => PutReg(t, BoolWord(Signed(a) < Signed(se)));
        case 0x0b => PutReg(t, BoolWord(a < se));
        case 0x0c => PutReg(t, And(a, i));
        case 0x0d => PutReg(t, OrWord(a, i));
        case 0x0e => PutReg(t, XorWord(a, i));
        case 0x0f => PutReg(t, (i as int) * 0x1_0000);
        case _ => RaiseException(IllegalInstruction);
      }
    }

    method OpBranch(instr: Word)
      requires TwoFiles() && 0x01 <= Function(instr) <= 0x07
      modifies this, outRegs
      ensures Mid() == old(Mid()).Apply(old(BranchEffect(In(), Mid(), instr)))
    {
      hide Wrap, Signed, SetReg, ImmSe;
      var a, b, i := GetReg(S(instr)), GetReg(T(instr)), ImmSe(instr);
      match Function(instr) {
        case 0x01 =>
          var isBgez := instr / 0x1_0000 % 2 == 1;
          var isLink := instr / 0x2_0000 % 0x10 == 8;
          var test := (Signed(a) < 0) != isBgez;
          if isLink {
            PutReg(31, nextPc);
          }
          if test { BranchBy(i); }
        case 0x02 => JumpTo(instr);
        case 0x03 =>
          PutReg(31, nextPc);
          JumpTo(instr);
        case 0x04 => if a == b { BranchBy(i); }
        case 0x05 => if a != b { BranchBy(i); }
        case 0x06 => if Signed(a) <= 0 { BranchBy(i); }
        case _ => if Signed(a) > 0 { BranchBy(i); }
      }
    }

    method JumpTo(instr: Word)
      modifies this
      ensures Mid() == old(Mid()).(nextPc := JumpTarget(old(Mid()), instr), branch := true)
    {
      nextPc := nextPc / 0x1000_0000 * 0x1000_0000 + ImmJump(instr) * 4;
      branch := true;
    }

    method OpLoad(instr: Word) returns (ok: bool)
      requires Wired() && bus.Valid() && 0x20 <= Function(instr) <= 0x26
      modifies this
      ensures ok == !old(LoadEffect(In(), Mid(), bus.State(), instr)).Stop?
      ensures ok ==> Mid() == old(Mid()).Apply(old(LoadEffect(In(), Mid(), bus.State(), instr)))
    {
      hide AddressOf, MergeLeft, MergeRight, BusState.Valid, BusModel.Load32, NarrowLoadEffect, Bus.State,
           Bus.Valid, T, Function;
      var addr, t := AddressOf(regs[..], instr), T(instr);
      match Function(instr) {
        case 0x22 =>
          var cur := outRegs[t];
          var r := bus.Load32(addr / 4 * 4);
          if r.Stopped? { return false; }
          loadRegIdx, loadReg := t, MergeLeft(cur, r.value, addr % 4);
        case 0x23 =>
          if sr / 0x1_0000 % 2 != 0 { return true; }
          var r := bus.Load32(addr);
          if r.Stopped? { return false; }
          loadRegIdx, loadReg := t, r.value;
        case 0x26 =>
          var cur := outRegs[t];
          var r := bus.Load32(addr / 4 * 4);
          if r.Stopped? { return false; }
          loadRegIdx, loadReg := t, MergeRight(cur, r.value, addr % 4);
        case _ =>
          ok := OpNarrowLoad(instr);
          return;
      }
      ok := true;
    }

    method OpNarrowLoad(instr: Word) returns (ok: bool)
      requires Wired() && bus.Valid() && Function(instr) in {0x20, 0x21, 0x24, 0x25}
      modifies this
      ensures ok == !old(NarrowLoadEffect(In(), bus.State(), instr)).Stop?
      ensures ok ==> Mid() == old(Mid()).Apply(old(NarrowLoadEffect(In(), bus.State(), instr)))
    {
      hide AddressOf, Wrap, CpuState.Raise, Signed8, Signed16, BusModel.Load16, BusModel.Load8, Bus.State,
           Bus.Valid, T, Function;
      var addr, t := AddressOf(regs[..], instr), T(instr);
      match Function(instr) {
        case 0x20 =>
          var r := bus.Load8(addr);
          if r.Stopped? { return false; }
          loadRegIdx, loadReg := t, Wrap(Signed8(r.value));
        case 0x21 =>
          var r := bus.Load16(addr);
          if r.Stopped? { return false; }
          loadRegIdx, loadReg := t, Wrap(Signed16(r.value));
        case 0x24 =>
          var r := bus.Load8(addr);
          if r.Stopped? { return false; }
          loadRegIdx, loadReg := t, r.value;
        case _ =>
          ok := OpLhu(t, addr);
          return;
      }
      ok := true;
    }

    /** The only load that checks its address. */
    method OpLhu(t: Reg, addr: Word) returns (ok: bool)
      requires Wired() && bus.Valid()
      modifies this
      ensures var r := old(BusModel.Load16(bus.State(), addr));
              && ok == (addr % 2 != 0 || r.Running?)
              && (ok ==> Mid() == if addr % 2 != 0 then old(Mid()).Raise(LoadAddressError)
                                  else old(Mid()).(loadRegIdx := t, loadReg := r.value))
    {
      hide CpuState.Raise, BusModel.Load16, Bus.State, Bus.Valid;
      if addr % 2 != 0 {
        RaiseException(LoadAddressError);
        return true;
      }
      var r := bus.Load16(addr);
      if r.Stopped? { return false; }
      loadRegIdx, loadReg := t, r.value;
      ok := true;
    }

    method OpCop0(instr: Word) returns (ok: bool)
      requires TwoFiles()
      modifies this
      ensures ok == !old(Cop0Effect(In(), Mid(), instr)).Stop?
      ensures ok ==> Mid() == old(Mid()).Apply(old(Cop0Effect(In(), Mid(), instr)))
    {
      ok := true;
      match CopOpcode(instr) {
        case 0x00 =>
          match D(instr) {
            case 12 => loadRegIdx, loadReg := T(instr), sr;
            case 13 => loadRegIdx, loadReg := T(instr), cause;
            case 14 => loadRegIdx, loadReg := T(instr), epc;
            case _ => ok := false;
          }
        case 0x04 =>
          var v := GetReg(T(instr));
          match D(instr) {
            case 3 | 5 | 6 | 7 | 9 | 11 | 13 => ok := v == 0;
            case 12 => sr := v;
            case _ => ok := false;
          }
        case 0x10 =>
          if instr % 0x40 == 0x10 {
            sr := CpuModel.PopMode(sr);
          } else {
            ok := false;
          }
        case _ => ok := false;
      }
    }

    // ---- Memory ----

    /** The CPU's own store: dropped while the cache is isolated. */
    method StoreUnlessIsolated(width: nat, addr: Word, val: Word) returns (ok: bool)
      requires Wired() && bus.Valid() && width in {1, 2, 4}
      requires sr / 0x1_0000 % 2 == 0 ==> StoreTo(bus.State(), width, addr, val) != Stopped(Endless)
      modifies bus.Repr()
      ensures ok == Perform(old(Mid()), old(bus.State()),
                            CpuModel.StoreUnlessIsolated(old(Mid()), width, addr, val)).Running?
      ensures ok ==> bus.Valid()
      ensures ok ==> Perform(old(Mid()), old(bus.State()), CpuModel.StoreUnlessIsolated(old(Mid()), width, addr, val))
                     == Running(State())
    {
      hide BusState.Valid, Bus.Valid, Bus.State, BusModel.Store32, BusModel.Store16, BusModel.Store8;
      if sr / 0x1_0000 % 2 != 0 { return true; }
      match width {
        case 1 => ok := bus.Store8(addr, val % 0x100);
        case 2 => ok := bus.Store16(addr, val % 0x1_0000);
        case _ => ok := bus.Store32(addr, val);
      }
    }

    method OpStore(instr: Word) returns (ok: bool)
      requires Wired() && bus.Valid() && Function(instr) in {0x28, 0x29, 0x2a, 0x2b, 0x2e}
      requires Perform(Mid(), bus.State(), StoreEffect(In(), Mid(), bus.State(), instr)) != Stopped(Endless)
      modifies this, bus.Repr()
      ensures var e := old(StoreEffect(In(), Mid(), bus.State(), instr));
              && ok == Perform(old(Mid()), old(bus.State()), e).Running?
              && (ok ==> bus.Valid() && Perform(old(Mid()), old(bus.State()), e) == Running(State()))
    {
      hide AddressOf, CpuState.Raise, MergeLeft, MergeRight, BusState.Valid, BusModel.Load32, Bus.Valid, Bus.State,
           StoreTo, T, Function;
      var addr, v := AddressOf(regs[..], instr), GetReg(T(instr));
      match Function(instr) {
        case 0x28 => ok := StoreUnlessIsolated(1, addr, v % 0x100);
        case 0x29 =>
          if addr % 2 == 0 {
            ok := StoreUnlessIsolated(2, addr, v % 0x1_0000);
          } else {
            RaiseException(StoreAddressError);
            ok := true;
          }
        case 0x2b =>
          if sr / 0x1_0000 % 2 != 0 { return true; }
          if addr % 4 == 0 {
            ok := StoreUnlessIsolated(4, addr, v);
          } else {
            RaiseException(StoreAddressError);
            ok := true;
          }
        case 0x2a =>
          var cur := bus.Load32(addr / 4 * 4);
          if cur.Stopped? { return false; }
          ok := StoreUnlessIsolated(4, addr / 4 * 4, MergeRight(cur.value, v, addr % 4));
        case _ =>
          var cur := bus.Load32(addr / 4 * 4);
          if cur.Stopped? { return false; }
          ok := StoreUnlessIsolated(4, addr / 4 * 4, MergeLeft(cur.value, v, addr % 4));
      }
    }

    // ---- One instruction ----

    method DecodeAndExecute(instr: Word) returns (ok: bool)
      requires Wired() && bus.Valid()
      requires Perform(Mid(), bus.State(), EffectOf(In(), Mid(), bus.State(), instr)) != Stopped(Endless)
      modifies this, outRegs, bus.Repr()
      ensures var e := old(EffectOf(In(), Mid(), bus.State(), instr));
              && ok == Perform(old(Mid()), old(bus.State()), e).Running?
              && (ok ==> bus.Valid() && Perform(old(Mid()), old(bus.State()), e) == Running(State()))
      ensures Wired()
    {
      hide GroupOf, RegisterEffect, LoadEffect, StoreEffect, Bus.State, Bus.Valid, BusState.Valid,
           CpuState.Apply, StoreTo, Function;
      GroupsCover(Function(instr));
      match GroupOf(Function(instr)) {
        case Load =>
          ok := OpLoad(instr);
          BusFrame();
        case Store => ok := OpStore(instr);
        case _ =>
          ok := OpRegister(instr);
          BusFrame();
      }
    }

    twostate lemma BusFrame()
      requires unchanged(bus.Repr())
      ensures bus.State() == old(bus.State()) && (old(bus.Valid()) ==> bus.Valid())
    {
    }

    /** The instructions that do not reach the bus. */
    method OpRegister(instr: Word) returns (ok: bool)
      requires TwoFiles()
      modifies this, outRegs
      ensures ok == !old(RegisterEffect(In(), Mid(), instr)).Stop?
      ensures ok ==> Mid() == old(Mid()).Apply(old(RegisterEffect(In(), Mid(), instr)))
    {
      hide GroupOf, SpecialEffect, BranchEffect, ImmediateEffect, Cop0Effect, CpuState.Raise, SetReg, Function;
      GroupsCover(Function(instr));
      ok := true;
      match GroupOf(Function(instr)) {
        case Special => OpSpecial(instr);
        case Branch => OpBranch(instr);
        case Immediate => OpImmediate(instr);
        case Cop0 => ok := OpCop0(instr);
        case Absent => RaiseException(CoprocessorError);
        case Missing => ok := false;
        case _ => RaiseException(IllegalInstruction);
      }
    }

    /** Runs one instruction, and with it the one-file machine of `State` makes one step. The
        only outcome excluded is the transfer that never ends. */
    method RunNextInstruction() returns (ok: bool)
      requires Valid() && Step(State()) != Stopped(Endless)
      modifies this, regs, outRegs, bus.Repr()
      ensures ok == Step(old(State())).Running?
      ensures ok ==> Valid() && State() == Step(old(State())).value
    {
      hide EffectOf, Step, Bus.State, Bus.Valid, BusState.Valid, CpuState.Raise, CpuState.Valid, CpuState.Prologue,
           BusModel.Load32, Wrap, Perform;
      ghost var was := State();
      StepOf(was);
      if pc % 4 != 0 {
        FaultOnPc();
        return true;
      }
      var fetched := bus.Load32(pc);
      if fetched.Stopped? { return false; }
      ok := Execute(fetched.value);
    }

    /** A misaligned PC: the only fault before anything else has been updated. */
    method FaultOnPc()
      requires Wired()
      modifies this
      ensures Mid() == old(Mid()).(currentPc := old(pc)).Raise(LoadAddressError)
      ensures bus.State() == old(bus.State()) && (old(bus.Valid()) ==> bus.Valid())
    {
      hide CpuState.Raise, Bus.Valid, Bus.State;
      currentPc := pc;
      RaiseException(LoadAddressError);
      BusFrame();
    }

    /** What running `instr` from here does to the one-file machine. */
    ghost function OutcomeOf(instr: Word): Outcome<Machine>
      requires bus.Valid()
      reads this, regs, outRegs, bus.Repr()
    {
      Perform(Mid().Prologue(), bus.State(), EffectOf(In(), Mid().Prologue(), bus.State(), instr))
    }

    /** The rest of a step, once the instruction has been fetched. */
    method Execute(instr: Word) returns (ok: bool)
      requires Valid() && OutcomeOf(instr) != Stopped(Endless)
      modifies this, regs, outRegs, bus.Repr()
      ensures Wired()
      ensures ok == old(OutcomeOf(instr)).Running?
      ensures ok ==> bus.Valid() && In() == Mid().regs
      ensures ok ==> var m := old(OutcomeOf(instr)).value; State() == m.(cpu := m.cpu.(ip := Wrap(m.cpu.ip + 1)))
    {
      hide EffectOf, Perform, Bus.State, Bus.Valid, BusState.Valid, CpuState.Valid, CpuState.Prologue, Wrap, Mid, In;
      MoveOn();
      BusFrame();
      ok := DecodeAndExecute(instr);
      if ok { Retire(); }
    }

    /** The end of a step. */
    method Retire()
      requires Wired() && bus.Valid()
      modifies this, regs
      ensures In() == Mid().regs && Mid() == old(Mid()).(ip := Wrap(old(Mid()).ip + 1))
      ensures bus.Valid() && bus.State() == old(bus.State())
    {
      hide Bus.State, Bus.Valid, Wrap;
      CopyOut();
      ip := Wrap(ip as int + 1);
      BusFrame();
    }

    /** Between fetching and decoding: the PC moves on, the pending load goes to the output
        file, and the branch flag becomes the delay-slot flag. */
    method MoveOn()
      requires TwoFiles()
      modifies this, outRegs
      ensures Mid() == old(Mid()).Prologue()
    {
      hide Wrap, SetReg;
      currentPc := pc;
      pc := nextPc;
      nextPc := Wrap(pc as int + 4);
      PutReg(loadRegIdx, loadReg);
      loadRegIdx, loadReg := 0, 0;
      delaySlot := branch;
      branch := false;
    }

    /** The output registers become the input of the next instruction. */
    method CopyOut()
      requires TwoFiles()
      modifies regs
      ensures In() == Mid().regs
    {
      for i := 0 to 32
        invariant forall j :: 0 <= j < i ==> regs[j] == outRegs[j]
      {
        regs[i] := outRegs[i];
      }
      assert regs[..] == outRegs[..];
    }
  }
}
