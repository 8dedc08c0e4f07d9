/** Properties of whole runs of the CPU: delayed loads, branches and calls, exceptions, the
    mode stack, cache isolation. */
module CpuRuns {
  import opened Words
  import opened Outcomes
  import opened BusModel
  import opened CpuArith
  import opened CpuModel
  import opened DmaRuns

  /** Consecutive states of one run, each one step after the one before. */
  ghost predicate IsRun(ms: seq<Machine>)
  {
    && |ms| > 0
    && (forall i :: 0 <= i < |ms| ==> ms[i].Valid())
    && (forall i :: 0 <= i < |ms| - 1 ==> Step(ms[i]) == Running(ms[i + 1]))
  }

  // ---- Invariants ----

  /** No step leaves a DMA transfer pending. */
  lemma StepKeepsQuiet(m: Machine)
    requires m.Valid() && m.bus.Quiet() && Step(m).Running?
    ensures Step(m).value.bus.Quiet()
  {
    hide EffectOf, BusState.Valid, BusState.Quiet, Load32, CpuState.Apply, StoreTo;
    if m.cpu.pc % 4 == 0 {
      var e := StepEffect(m);
      if e.StoreMem? { StoreKeepsQuiet(m.bus, e.width, e.addr, e.v); }
    }
  }

  lemma StoreKeepsQuiet(b: BusState, width: nat, addr: Word, v: Word)
    requires b.Valid() && b.Quiet() && StoreTo(b, width, addr, v).Running?
    ensures StoreTo(b, width, addr, v).value.Quiet()
  {
    hide BusState.Valid, DmaWrite, MemoryMap.MaskRegion;
    if width != 1 && width != 2 {
      var abs := MemoryMap.MaskRegion(addr);
      if MemoryMap.Find(abs) == Some(MemoryMap.DmaRegs) {
        WriteKeepsQuiet(b, abs - MemoryMap.RangeOf(MemoryMap.DmaRegs).base, v);
      }
    }
  }

  /** A run from any valid state keeps register 0 at zero, the PC sequential outside branches,
      the GP0 parser consistent, and every DMA channel idle. */
  lemma {:induction false} RunInvariant(m: Machine, n: nat) returns (last: Outcome<Machine>)
    requires m.Valid() && m.bus.Quiet()
    ensures last == RunFor(m, n)
    ensures last.Running? ==> last.value.Valid() && last.value.bus.Quiet()
    decreases n
  {
    hide Step, BusState.Valid, BusState.Quiet;
    if n == 0 {
      last := Running(m);
    } else {
      last := Step(m);
      if last.Running? {
        StepKeeps(m);
        StepKeepsQuiet(m);
        last := RunInvariant(last.value, n - 1);
      }
    }
  }

  ghost function RunFor(m: Machine, n: nat): Outcome<Machine>
    requires m.bus.Valid()
    decreases n
  {
    if n == 0 then Running(m)
    else
      match Step(m)
      case Stopped(why) => Stopped(why)
      case Running(m') => RunFor(m', n - 1)
  }

  // ---- Registers and delayed loads ----

  /** The register an effect writes during its own step, if any, with the value. */
  function OwnWrite(e: Effect): Option<(Reg, Word)>
  {
    match e
    case Write(d, v) => Some((d, v))
    case JumpLink(_, d, v) => Some((d, v))
    case FaultWrite(_, d, v) => Some((d, v))
    case _ => None
  }

  predicate Writes(e: Effect, r: Reg) { OwnWrite(e).Some? && OwnWrite(e).value.0 == r }

  /** The instruction neither writes the register nor loads into it. */
  predicate Spares(e: Effect, r: Reg) { !Writes(e, r) && !(e.DelayedLoad? && e.t == r) }

  predicate Faults(e: Effect) { e.Fault? || e.FaultWrite? }

  predicate Jumps(e: Effect) { e.Jump? || e.JumpLink? }

  /** Every register after an instruction that was fetched: its own write wins over the load
      that arrives during the step, which wins over the old value. */
  lemma RegisterLaw(m: Machine, r: Reg)
    requires m.Valid() && m.cpu.pc % 4 == 0 && Step(m).Running?
    ensures var e, c, c' := StepEffect(m), m.cpu, Step(m).value.cpu;
            && c'.regs[r] == (if r == 0 then 0
                              else if Writes(e, r) then OwnWrite(e).value.1
                              else if c.loadRegIdx == r then c.loadReg
                              else c.regs[r])
            && (if e.DelayedLoad? then c'.loadRegIdx == e.t && c'.loadReg == e.v
                else c'.loadRegIdx == 0 && c'.loadReg == 0)
  {
    hide EffectOf, BusState.Valid, Load32, StoreTo, StepEffect;
    var e := StepEffect(m);
  }

  /** A load's value is in the register exactly one instruction late: after the load the
      register still has what it would have had without it, and after the next instruction it
      has the loaded value, unless that instruction wrote the register itself. */
  lemma LoadArrivesLate(m: Machine)
    requires m.Valid() && m.cpu.pc % 4 == 0 && Step(m).Running?
    requires StepEffect(m).DelayedLoad? && StepEffect(m).t != 0
    requires var m1 := Step(m).value; m1.cpu.pc % 4 == 0 && Step(m1).Running?
    ensures var t, v, m1 := StepEffect(m).t, StepEffect(m).v, Step(m).value;
            var e1, m2 := StepEffect(m1), Step(m1).value;
            && m1.cpu.regs[t] == (if m.cpu.loadRegIdx == t then m.cpu.loadReg else m.cpu.regs[t])
            && m2.cpu.regs[t] == (if Writes(e1, t) then OwnWrite(e1).value.1 else v)
  {
    hide Step, StepEffect, BusState.Valid;
    StepKeeps(m);
    RegisterLaw(m, StepEffect(m).t);
    RegisterLaw(Step(m).value, StepEffect(m).t);
  }

  /** The instruction after a load cannot see the loaded value: whatever value is on its way,
      it has the same effect. The two unaligned loads are the exception by design. */
  lemma PendingLoadInvisible(m: Machine, v: Word)
    requires m.Valid()
    requires var f := Load32(m.bus, m.cpu.pc); f.Running? ==> Function(f.value) != 0x22 && Function(f.value) != 0x26
    ensures StepEffect(m) == StepEffect(m.(cpu := m.cpu.(loadReg := v)))
  {
    hide BusState.Valid, Load32, Load16, Load8, Wrap, SetReg, AluEffect, ImmediateEffect, Signed, MultHiLo, MultuHiLo,
         DivHiLo, DivuHiLo, NarrowLoadEffect, MergeLeft, MergeRight, GroupOf;
  }

  // ---- Branches and calls ----

  /** A jump that links saves the address after the delay slot. */
  lemma LinkValue(file: RegFile, s: CpuState, b: BusState, instr: Word)
    requires b.Valid()
    ensures var e := EffectOf(file, s, b, instr); e.JumpLink? ==> e.v == s.nextPc
  {
    hide BusState.Valid, Load32, Load16, Load8, Wrap, Signed, MultHiLo, MultuHiLo, DivHiLo, DivuHiLo, MergeLeft,
         MergeRight, And, OrWord, XorWord, Not, AddOverflow, SubOverflow, ShiftLeft, ShiftRight, ShiftRightSigned;
  }

  /** After a taken branch or jump at `p`, the next instruction is the one at the old next PC,
      and unless that one faults the PC is then the target, even if it branches itself. */
  lemma BranchThenTarget(m: Machine)
    requires m.Valid() && m.cpu.pc % 4 == 0 && Step(m).Running? && Jumps(StepEffect(m))
    ensures var m1 := Step(m).value;
            m1.cpu.branch && m1.cpu.pc == m.cpu.nextPc && m1.cpu.nextPc == StepEffect(m).target
    ensures var e, m1 := StepEffect(m), Step(m).value;
            m1.cpu.pc % 4 == 0 && Step(m1).Running? && !Faults(StepEffect(m1)) ==>
            && Step(m1).value.cpu.pc == e.target
            && (!Jumps(StepEffect(m1)) ==>
                  Step(m1).value.cpu.nextPc == Wrap(e.target + 4) && !Step(m1).value.cpu.branch)
  {
    hide Step, BusState.Valid, StepEffect, Wrap;
    StepKeeps(m);
    StepPc(m);
    var m1 := Step(m).value;
    if m1.cpu.pc % 4 == 0 && Step(m1).Running? { StepPc(m1); }
  }

  /** Outside a delay slot that next instruction is the one at `p + 4`, and a link is `p + 8`. */
  lemma BranchFromStraightCode(m: Machine)
    requires m.Valid() && m.cpu.pc % 4 == 0 && Step(m).Running? && Jumps(StepEffect(m)) && !m.cpu.branch
    ensures Step(m).value.cpu.pc == Wrap(m.cpu.pc + 4) && Step(m).value.cpu.pc % 4 == 0
    ensures StepEffect(m).JumpLink? ==> StepEffect(m).v == Wrap(m.cpu.pc + 8)
  {
    hide EffectOf, BusState.Valid, Load32, StoreTo, SetReg, Step, Wrap;
    WrapTwice(m.cpu.pc);
    StepPc(m);
    LinkValue(m.cpu.regs, m.cpu.Prologue(), m.bus, Load32(m.bus, m.cpu.pc).value);
  }

  lemma WrapTwice(pc: Word)
    ensures Wrap(Wrap(pc + 4) + 4) == Wrap(pc + 8)
    ensures pc % 4 == 0 ==> Wrap(pc + 4) % 4 == 0
  {
  }

  /** How one fetched instruction moves the PC, and that it is counted. */
  lemma StepPc(m: Machine)
    requires m.Valid() && m.cpu.pc % 4 == 0 && Step(m).Running?
    ensures var e, c, c' := StepEffect(m), m.cpu, Step(m).value.cpu;
            && (!Faults(e) ==> c'.pc == c.nextPc
                               && c'.nextPc == (if Jumps(e) then e.target else Wrap(c.nextPc + 4)))
            && c'.branch == Jumps(e) && c'.delaySlot == c.branch && c'.currentPc == c.pc
            && c'.ip == Wrap(c.ip + 1)
  {
    hide EffectOf, BusState.Valid, Load32, StoreTo, StepEffect, SetReg;
  }

  /** A value in a register survives a stretch of a run in which no instruction writes the
      register or loads into it. */
  lemma {:induction false} RegisterSurvives(ms: seq<Machine>, r: Reg, i: nat, k: nat)
    requires IsRun(ms) && i <= k < |ms| && r != 0 && ms[i].cpu.loadRegIdx != r
    requires forall j :: i <= j < k ==> Spares(StepEffect(ms[j]), r)
    ensures ms[k].cpu.regs[r] == ms[i].cpu.regs[r]
    decreases k - i
  {
    hide StepEffect, Step, BusState.Valid, CpuState.Valid;
    if i < k {
      assert Step(ms[i]) == Running(ms[i + 1]);
      KeepsRegister(ms[i], r);
      RegisterSurvives(ms, r, i + 1, k);
    }
  }

  lemma KeepsRegister(m: Machine, r: Reg)
    requires m.Valid() && Step(m).Running? && r != 0 && m.cpu.loadRegIdx != r
    requires Spares(StepEffect(m), r)
    ensures Step(m).value.cpu.regs[r] == m.cpu.regs[r]
    ensures Step(m).value.cpu.loadRegIdx != r
  {
    hide StepEffect, BusState.Valid, Perform;
    if m.cpu.pc % 4 == 0 { RegisterLaw(m, r); }
  }

  /** A call and its return: if a linking jump at `p`, outside a delay slot, starts a stretch
      of a run in which the link register is left alone, and at the end of the stretch a jump
      goes to the link register and its delay slot does not fault, then the run goes on at
      `p + 8`. */
  lemma CallReturns(ms: seq<Machine>, k: nat)
    requires IsRun(ms) && 1 <= k && |ms| == k + 3
    requires ms[0].cpu.pc % 4 == 0 && !ms[0].cpu.branch && StepEffect(ms[0]).JumpLink? && StepEffect(ms[0]).d != 0
    requires var r := StepEffect(ms[0]).d;
             forall j :: 1 <= j < k ==> Spares(StepEffect(ms[j]), r)
    requires ms[k].cpu.pc % 4 == 0 && Jumps(StepEffect(ms[k]))
    requires StepEffect(ms[k]).target == ms[k].cpu.regs[StepEffect(ms[0]).d]
    requires ms[k + 1].cpu.pc % 4 == 0 && !Faults(StepEffect(ms[k + 1]))
    ensures ms[k + 2].cpu.pc == Wrap(ms[0].cpu.pc + 8)
  {
    hide StepEffect, Step, BusState.Valid, CpuState.Valid, Wrap;
    var r := StepEffect(ms[0]).d;
    assert Step(ms[0]) == Running(ms[1]);
    assert Step(ms[k]) == Running(ms[k + 1]);
    assert Step(ms[k + 1]) == Running(ms[k + 2]);
    RegisterLaw(ms[0], r);
    BranchFromStraightCode(ms[0]);
    RegisterSurvives(ms, r, 1, k);
    BranchThenTarget(ms[k]);
  }

  // ---- Exceptions ----

  /** What a fault records: the faulting address, or that of the instruction before it, with
      bit 31 of CAUSE telling the two apart. */
  lemma FaultRecords(m: Machine)
    requires m.Valid() && m.cpu.pc % 4 == 0 && Faults(StepEffect(m)) && Step(m).Running?
    ensures var c, c' := m.cpu, Step(m).value.cpu;
            && c'.epc == (if c.branch then Wrap(c.pc - 4) else c.pc)
            && c'.cause == StepEffect(m).cause.Code() * 4 + (if c.branch then 0x8000_0000 else 0)
            && c'.pc == (if c.sr / 0x40_0000 % 2 == 1 then 0xbfc0_0180 else 0x8000_0080)
            && !c'.branch
  {
    hide EffectOf, BusState.Valid, Load32, StoreTo, StepEffect, SetReg, PushMode;
  }

  /** If the delay slot of a taken branch faults, EPC is the branch's own address exactly when
      the branch was followed by its delay slot in memory, which it is whenever it was not
      itself in a delay slot. */
  lemma SlotFaultIsPrecise(m: Machine)
    requires m.Valid() && m.cpu.pc % 4 == 0 && Step(m).Running? && Jumps(StepEffect(m))
    requires var m1 := Step(m).value; m1.cpu.pc % 4 == 0 && Step(m1).Running? && Faults(StepEffect(m1))
    ensures var c' := Step(Step(m).value).value.cpu;
            && c'.cause >= 0x8000_0000
            && (c'.epc == m.cpu.pc <==> m.cpu.nextPc == Wrap(m.cpu.pc + 4))
            && (!m.cpu.branch ==> c'.epc == m.cpu.pc)
  {
    hide Step, BusState.Valid, StepEffect;
    StepKeeps(m);
    StepPc(m);
    FaultRecords(Step(m).value);
  }

  /** If an instruction outside a delay slot faults, EPC is its own address, bit 31 is clear. */
  lemma PlainFaultIsPrecise(m: Machine)
    requires m.Valid() && m.cpu.pc % 4 == 0 && !m.cpu.branch && Step(m).Running? && Faults(StepEffect(m))
    ensures Step(m).value.cpu.epc == m.cpu.pc && Step(m).value.cpu.cause < 0x8000_0000
  {
    hide Step, BusState.Valid, StepEffect;
    FaultRecords(m);
  }

  // ---- The mode stack ----

  datatype ModeEvent = Push | Pop | Other

  function EventOf(e: Effect): ModeEvent
  {
    if Faults(e) then Push else if e.ReturnMode? then Pop else Other
  }

  /** Exceptions entered and not yet returned from after the first `n` steps. */
  function Depth(es: seq<ModeEvent>): int
  {
    if es == [] then 0
    else Depth(es[..|es| - 1]) + match es[|es| - 1] case Push => 1 case Pop => -1 case Other => 0
  }

  /** The deepest nesting on the way. */
  function MaxDepth(es: seq<ModeEvent>): nat
  {
    if es == [] then 0
    else
      var before := MaxDepth(es[..|es| - 1]);
      if Depth(es) > before then Depth(es) else before
  }

  /** Returns never outnumber exceptions. */
  predicate WellNested(es: seq<ModeEvent>) { forall i :: 0 <= i <= |es| ==> Depth(es[..i]) >= 0 }

  function SrAfter(sr: Word, es: seq<ModeEvent>): Word
  {
    if es == [] then sr
    else
      var before := SrAfter(sr, es[..|es| - 1]);
      match es[|es| - 1] case Push => PushMode(before) case Pop => PopMode(before) case Other => before
  }

  /** The part of the original mode bits that survives a nesting of the given depth. */
  function Surviving(sr: Word, depth: nat): Word
  {
    if depth == 0 then sr % 64 else if depth == 1 then sr % 16 else if depth == 2 then sr % 4 else 0
  }

  function Shifted(bits: Word, depth: nat): int
  {
    if depth == 0 then bits else if depth == 1 then bits * 4 else if depth == 2 then bits * 16 else 0
  }

  /** `0x3f >> 2d`. */
  function ModeMask(depth: nat): nat { DivBound(0x3f, Pow2(2 * depth)); 0x3f / Pow2(2 * depth) }

  lemma SurvivingIsMask(sr: Word, depth: nat)
    ensures Surviving(sr, depth) == And(sr, ModeMask(depth))
  {
    hide And, Pow2, ModeMask;
    SmallMasks();
    AndLowMask(sr, 6);
    AndLowMask(sr, 4);
    AndLowMask(sr, 2);
    AndNothing(sr);
    MaskVanishes(depth);
  }

  lemma SmallMasks()
    ensures Pow2(2) == 4 && Pow2(4) == 16 && Pow2(6) == 64
    ensures ModeMask(0) == 63 && ModeMask(1) == 15 && ModeMask(2) == 3
  {
    assert Pow2(0) == 1 && Pow2(2) == 4 && Pow2(4) == 16;
  }

  lemma MaskVanishes(depth: nat)
    ensures depth >= 3 ==> ModeMask(depth) == 0
  {
    hide Pow2;
    if depth >= 3 {
      PowBig(2 * depth);
      ModUnique(0x3f, Pow2(2 * depth), 0, 0x3f);
    }
  }

  lemma {:induction false} PowBig(k: nat)
    requires k >= 6
    ensures Pow2(k) >= 64
  {
    if k > 6 { PowBig(k - 1); } else { assert Pow2(6) == 64; }
  }

  /** At every point of a well-nested sequence the low six bits of SR are what survives of the
      original ones, moved up by the current depth. */
  lemma {:induction false} ModesAt(sr: Word, es: seq<ModeEvent>)
    requires WellNested(es)
    ensures 0 <= Depth(es) <= MaxDepth(es)
    ensures SrAfter(sr, es) % 64 == Shifted(Surviving(sr, MaxDepth(es)), Depth(es))
    decreases |es|
  {
    assert es[..|es|] == es;
    if es != [] {
      var before := es[..|es| - 1];
      assert forall i :: 0 <= i <= |before| ==> before[..i] == es[..i];
      ModesAt(sr, before);
      hide PushMode, PopMode, Surviving, Shifted;
      ModeStep(sr, SrAfter(sr, before), MaxDepth(before), Depth(before));
    }
  }

  lemma ModeStep(sr0: Word, sr: Word, most: nat, depth: nat)
    requires depth <= most && sr % 64 == Shifted(Surviving(sr0, most), depth)
    ensures PushMode(sr) % 64 == Shifted(Surviving(sr0, if depth + 1 > most then depth + 1 else most), depth + 1)
    ensures depth > 0 ==> PopMode(sr) % 64 == Shifted(Surviving(sr0, most), depth - 1)
  {
    hide PushMode, PopMode, Surviving, Shifted;
    ModesSmall(sr);
    ModePushed(sr0, sr % 64, most, depth);
    if depth > 0 { ModePopped(sr0, sr % 64, most, depth); }
  }

  lemma ModePushed(sr0: Word, x: nat, most: nat, depth: nat)
    requires depth <= most && x == Shifted(Surviving(sr0, most), depth) && x < 64
    ensures x * 4 % 64 == Shifted(Surviving(sr0, if depth + 1 > most then depth + 1 else most), depth + 1)
  {
    Fewer(sr0);
    PushBits(x);
  }

  lemma ModePopped(sr0: Word, x: nat, most: nat, depth: nat)
    requires 0 < depth <= most && x == Shifted(Surviving(sr0, most), depth) && x < 64
    ensures x / 4 == Shifted(Surviving(sr0, most), depth - 1)
  {
    Fewer(sr0);
  }

  lemma ModesSmall(sr: Word)
    ensures PushMode(sr) == sr % 64 * 4 % 64 && PushMode(sr) % 64 == PushMode(sr)
    ensures PopMode(sr) == sr % 64 / 4 && PopMode(sr) % 64 == PopMode(sr)
  {
  }

  lemma Fewer(sr: Word)
    ensures sr % 64 % 16 == sr % 16 && sr % 16 % 4 == sr % 4
    ensures sr % 64 < 64 && sr % 16 < 16 && sr % 4 < 4
  {
    ModUnique(sr, 16, sr / 64 * 4 + sr % 64 / 16, sr % 64 % 16);
    ModUnique(sr, 4, sr / 16 * 4 + sr % 16 / 4, sr % 16 % 4);
  }

  lemma PushBits(x: nat)
    requires x < 64
    ensures x * 4 % 64 == x % 16 * 4
    ensures x * 4 / 4 == x && (x < 16 ==> x % 16 == x)
    ensures x % 16 * 4 % 16 == x % 4 * 4
  {
    ModUnique(x * 4, 64, x / 16, x % 16 * 4);
    ModUnique(x % 16 * 4, 16, x % 16 / 4, x % 4 * 4);
  }

  /** The mode events of a run, one for each step. */
  ghost function Events(ms: seq<Machine>): seq<ModeEvent>
    requires IsRun(ms)
  {
    seq(|ms| - 1, i requires 0 <= i < |ms| - 1 => EventOf(StepEffect(ms[i])))
  }

  /** SR along a run without direct writes to it. */
  lemma {:induction false} RunModes(ms: seq<Machine>)
    requires IsRun(ms) && forall i :: 0 <= i < |ms| - 1 ==> !StepEffect(ms[i]).SetSr?
    ensures ms[|ms| - 1].cpu.sr == SrAfter(ms[0].cpu.sr, Events(ms))
    decreases |ms|
  {
    hide StepEffect, BusState.Valid, CpuState.Valid, Step, EventOf, PushMode, PopMode;
    var n := |ms| - 1;
    if n > 0 {
      RunModes(ms[..n]);
      assert Events(ms)[..n - 1] == Events(ms[..n]);
      assert Step(ms[n - 1]) == Running(ms[n]);
      StepSr(ms[n - 1]);
    }
  }

  lemma StepSr(m: Machine)
    requires m.Valid() && Step(m).Running? && !StepEffect(m).SetSr?
    ensures Step(m).value.cpu.sr
         == match EventOf(StepEffect(m))
            case Push => PushMode(m.cpu.sr)
            case Pop => PopMode(m.cpu.sr)
            case Other => m.cpu.sr
  {
    hide EffectOf, BusState.Valid, Load32, StoreTo, SetReg, PushMode, PopMode;
  }

  /** Entering or leaving an exception keeps the bits of SR above the mode stack exactly when
      they are all zero already: otherwise it drops them, the cache isolation bit included. */
  lemma ModeChangeDropsUpperBits(m: Machine)
    requires m.Valid() && Step(m).Running? && EventOf(StepEffect(m)) != Other
    ensures Step(m).value.cpu.sr / 64 == m.cpu.sr / 64 <==> m.cpu.sr < 64
    ensures !Step(m).value.cpu.Isolated()
  {
    hide EffectOf, BusState.Valid, Load32, StoreTo, SetReg, Step, StepEffect;
    StepSr(m);
    ModesSmall(m.cpu.sr);
  }

  /** Over any run in which exceptions and returns are well nested and end at depth zero, and
      nothing writes SR directly, the low six bits of SR end as the original ones masked by
      `0x3f >> 2d`, where `d` is the deepest nesting. */
  lemma NestedRunRestoresModes(ms: seq<Machine>)
    requires IsRun(ms) && forall i :: 0 <= i < |ms| - 1 ==> !StepEffect(ms[i]).SetSr?
    requires WellNested(Events(ms)) && Depth(Events(ms)) == 0
    ensures ms[|ms| - 1].cpu.sr % 64 == And(ms[0].cpu.sr, ModeMask(MaxDepth(Events(ms))))
  {
    hide StepEffect, BusState.Valid, CpuState.Valid, Step, EventOf, Events, ModeMask, And, Surviving, SrAfter;
    var es := Events(ms);
    RunModes(ms);
    ModesAt(ms[0].cpu.sr, es);
    SurvivingIsMask(ms[0].cpu.sr, MaxDepth(es));
  }

  // ---- Cache isolation ----

  /** A step that begins with the cache isolated leaves RAM, the DMA registers and the GPU as
      they were, whatever the instruction. */
  lemma IsolatedStep(m: Machine)
    requires m.Valid() && m.cpu.Isolated() && Step(m).Running?
    ensures Step(m).value.bus == m.bus
  {
    IsolatedEffect(m);
    hide EffectOf, BusState.Valid, Load32, StoreTo, StepEffect, CpuState.Apply;
  }

  lemma IsolatedEffect(m: Machine)
    requires m.Valid() && m.cpu.Isolated()
    ensures !StepEffect(m).StoreMem?
  {
    hide BusState.Valid, Load32, RegisterEffect, LoadEffect, Wrap, SetReg, MergeLeft, MergeRight, AddressOf, GroupOf;
  }

  lemma {:induction false} IsolatedRun(ms: seq<Machine>)
    requires IsRun(ms) && forall i :: 0 <= i < |ms| - 1 ==> ms[i].cpu.Isolated()
    ensures ms[|ms| - 1].bus == ms[0].bus
    decreases |ms|
  {
    hide BusState.Valid, CpuState.Valid, Step, CpuState.Isolated;
    var n := |ms| - 1;
    if n > 0 {
      IsolatedRun(ms[..n]);
      assert Step(ms[n - 1]) == Running(ms[n]);
      IsolatedStep(ms[n - 1]);
    }
  }

  // ---- Arithmetic instructions, as whole steps ----

  /** The machine is about to run `instr`. */
  predicate Fetches(m: Machine, instr: Word)
    requires m.bus.Valid()
  {
    m.cpu.pc % 4 == 0 && Load32(m.bus, m.cpu.pc) == Running(instr)
  }

  /** A step of an instruction with primary opcode 0. */
  lemma SpecialStep(m: Machine, instr: Word)
    requires m.Valid() && Fetches(m, instr) && Function(instr) == 0
    ensures Step(m).Running?
    ensures StepEffect(m) == SpecialEffect(m.cpu.regs, m.cpu.Prologue(), instr)
    ensures Step(m).value == Machine(m.cpu.Prologue().Apply(StepEffect(m)).(ip := Wrap(m.cpu.ip + 1)), m.bus)
  {
    hide BusState.Valid, Load32, SpecialEffect, SetReg, Wrap;
    IpKept(m.cpu.Prologue(), SpecialEffect(m.cpu.regs, m.cpu.Prologue(), instr));
  }

  /** A step of an instruction with an immediate operand. */
  lemma ImmediateStep(m: Machine, instr: Word)
    requires m.Valid() && Fetches(m, instr) && 0x08 <= Function(instr) <= 0x0f
    ensures Step(m).Running?
    ensures StepEffect(m) == ImmediateEffect(m.cpu.regs, instr)
    ensures Step(m).value == Machine(m.cpu.Prologue().Apply(StepEffect(m)).(ip := Wrap(m.cpu.ip + 1)), m.bus)
  {
    hide BusState.Valid, Load32, ImmediateEffect, SetReg, Wrap, Function;
    IpKept(m.cpu.Prologue(), ImmediateEffect(m.cpu.regs, instr));
  }

  lemma IpKept(s: CpuState, e: Effect)
    requires !e.Stop?
    ensures s.Apply(e).ip == s.ip
  {
  }

  /** SUB: either the destination gets the exact difference, or it does not fit and the step
      raises Overflow with no write of its own. */
  lemma SubExactOrFaults(m: Machine, instr: Word)
    requires m.Valid() && Fetches(m, instr) && Function(instr) == 0 && Subfunction(instr) == 0x22
    ensures Step(m).Running?
    ensures var a, b, d := m.cpu.regs[S(instr)], m.cpu.regs[T(instr)], D(instr);
            var c' := Step(m).value.cpu;
            if FitsSigned(Signed(a) - Signed(b)) then
              c'.pc == m.cpu.nextPc && (d != 0 ==> Signed(c'.regs[d]) == Signed(a) - Signed(b))
            else
              && c'.pc == (if m.cpu.sr / 0x40_0000 % 2 == 1 then 0xbfc0_0180 else 0x8000_0080)
              && c'.cause % 0x8000_0000 == 0x30 && c'.regs == SetReg(m.cpu.regs, m.cpu.loadRegIdx, m.cpu.loadReg)
  {
    hide BusState.Valid, Load32, Step, SubOverflow, Signed, S, T, D;
    SpecialStep(m, instr);
    SubOverflowExact(m.cpu.regs[S(instr)], m.cpu.regs[T(instr)]);
  }

  /** ADD: when the sum fits it is exact; when it does not the step raises Overflow, and writes
      the wrapped sum to the destination all the same. */
  lemma AddWritesEvenOnOverflow(m: Machine, instr: Word)
    requires m.Valid() && Fetches(m, instr) && Function(instr) == 0 && Subfunction(instr) == 0x20 && D(instr) != 0
    ensures Step(m).Running?
    ensures var a, b, d := m.cpu.regs[S(instr)], m.cpu.regs[T(instr)], D(instr);
            var c' := Step(m).value.cpu;
            && c'.regs[d] == Wrap(a as int + b)
            && (Faults(StepEffect(m)) <==> !FitsSigned(Signed(a) + Signed(b)))
            && (!Faults(StepEffect(m)) ==> Signed(c'.regs[d]) == Signed(a) + Signed(b))
  {
    hide BusState.Valid, Load32, Step, AddOverflow, Signed, S, T, D;
    SpecialStep(m, instr);
    AddOverflowExact(m.cpu.regs[S(instr)], m.cpu.regs[T(instr)]);
  }

  /** ADDI: the same, for the sign-extended immediate. */
  lemma AddiWritesEvenOnOverflow(m: Machine, instr: Word)
    requires m.Valid() && Fetches(m, instr) && Function(instr) == 0x08 && T(instr) != 0
    ensures Step(m).Running?
    ensures var a, i, t := m.cpu.regs[S(instr)], ImmSe(instr), T(instr);
            var c' := Step(m).value.cpu;
            && c'.regs[t] == Wrap(a + i)
            && (Faults(StepEffect(m)) <==> !FitsSigned(Signed(a) + Signed(i)))
            && (!Faults(StepEffect(m)) ==> Signed(c'.regs[t]) == Signed(a) + Signed(i))
            && Signed(i) == Signed16(Imm(instr))
  {
    hide BusState.Valid, Load32, Step, AddOverflow, Signed, S, T, ImmSe, Imm, Function;
    ImmediateStep(m, instr);
    ImmediateValue(instr);
    AddOverflowExact(m.cpu.regs[S(instr)], ImmSe(instr));
  }

  lemma ImmediateValue(instr: Word)
    ensures Signed(ImmSe(instr)) == Signed16(Imm(instr))
  {
  }

  /** MULT and MULTU: HI:LO is the exact 64-bit product, and no register is written. */
  lemma MultiplyExact(m: Machine, instr: Word)
    requires m.Valid() && Fetches(m, instr) && Function(instr) == 0 && Subfunction(instr) in {0x18, 0x19}
    ensures Step(m).Running?
    ensures var a, b, c' := m.cpu.regs[S(instr)], m.cpu.regs[T(instr)], Step(m).value.cpu;
            if Subfunction(instr) == 0x18 then Signed64(c'.hi, c'.lo) == Signed(a) * Signed(b)
            else c'.hi * 0x1_0000_0000 + c'.lo == (a as int) * (b as int)
  {
    hide BusState.Valid, Load32, Step, MultHiLo, MultuHiLo, Signed, Signed64, S, T, SetReg;
    SpecialStep(m, instr);
    MultExact(m.cpu.regs[S(instr)], m.cpu.regs[T(instr)]);
  }

  /** DIV and DIVU by a non-zero divisor: LO times the divisor plus HI is the dividend modulo
      2^32, HI is smaller than the divisor, and a signed HI has the dividend's sign. */
  lemma DivideExact(m: Machine, instr: Word)
    requires m.Valid() && Fetches(m, instr) && Function(instr) == 0 && Subfunction(instr) in {0x1a, 0x1b}
    requires m.cpu.regs[T(instr)] != 0
    ensures Step(m).Running?
    ensures var a, b, c' := m.cpu.regs[S(instr)], m.cpu.regs[T(instr)], Step(m).value.cpu;
            if Subfunction(instr) == 0x1a then
              && Wrap(Signed(c'.lo) * Signed(b) + Signed(c'.hi)) == a
              && Abs(Signed(c'.hi)) < Abs(Signed(b))
              && (c'.hi != 0 ==> (Signed(c'.hi) < 0 <==> Signed(a) < 0))
            else
              (c'.lo as int) * (b as int) + c'.hi == a && c'.hi < b
  {
    hide BusState.Valid, Load32, Step, DivHiLo, DivuHiLo, Signed, Wrap, S, T, SetReg;
    SpecialStep(m, instr);
    DivExact(m.cpu.regs[S(instr)], m.cpu.regs[T(instr)]);
    DivuExact(m.cpu.regs[S(instr)], m.cpu.regs[T(instr)]);
  }

  /** DIV and DIVU by zero: HI is the dividend, and LO all ones, or 1 for a negative dividend. */
  lemma DivideByZero(m: Machine, instr: Word)
    requires m.Valid() && Fetches(m, instr) && Function(instr) == 0 && Subfunction(instr) in {0x1a, 0x1b}
    requires m.cpu.regs[T(instr)] == 0
    ensures Step(m).Running?
    ensures var a, c' := m.cpu.regs[S(instr)], Step(m).value.cpu;
            && c'.hi == a
            && c'.lo == if Subfunction(instr) == 0x1a && a >= 0x8000_0000 then 1 else 0xffff_ffff
  {
    hide BusState.Valid, Load32, Step, S, T, SetReg, Wrap;
    SpecialStep(m, instr);
  }
}
