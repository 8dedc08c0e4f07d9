/** Exceptions and their returns over stretches of a run. */
module ExceptionRuns {
  import opened Words
  import opened Outcomes
  import opened BusModel
  import opened CpuModel
  import opened CpuRuns

  // ---- A misaligned PC ----

  /** The fault on a misaligned PC keeps the delay-slot flag of the instruction before, so it
      records its own address, with bit 31 clear, exactly when that flag is clear. */
  lemma MisalignedPcFault(m: Machine)
    requires m.Valid() && m.cpu.pc % 4 != 0
    ensures Step(m).Running? && StepEffect(m) == Fault(LoadAddressError)
    ensures var c, c' := m.cpu, Step(m).value.cpu;
            && (c'.epc == c.pc <==> !c.delaySlot) && (c'.cause < 0x8000_0000 <==> !c.delaySlot)
            && c'.epc == (if c.delaySlot then Wrap(c.pc - 4) else c.pc)
            && c'.cause % 0x8000_0000 == LoadAddressError.Code() * 4
  {
    hide BusState.Valid, PushMode;
  }

  /** A jump to a misaligned target, whose slot does not fault, thus faults as if the target
      were in a delay slot: EPC is four below it and bit 31 is set. */
  lemma MisalignedJumpFaults(m: Machine)
    requires m.Valid() && m.cpu.pc % 4 == 0 && Step(m).Running? && Jumps(StepEffect(m)) && StepEffect(m).target % 4 != 0
    requires var m1 := Step(m).value; m1.cpu.pc % 4 == 0 && Step(m1).Running? && !Faults(StepEffect(m1))
    ensures var m2 := Step(Step(m).value).value;
            && Step(m2).Running?
            && Step(m2).value.cpu.epc == Wrap(StepEffect(m).target - 4)
            && Step(m2).value.cpu.cause >= 0x8000_0000
  {
    hide BusState.Valid, Step, StepEffect, Wrap;
    StepKeeps(m);
    StepPc(m);
    var m1 := Step(m).value;
    StepKeeps(m1);
    StepPc(m1);
    MisalignedPcFault(Step(m1).value);
  }

  // ---- A handler and its return ----

  /** An instruction of a handler that neither faults nor touches SR. */
  predicate Undisturbed(e: Effect) { !Faults(e) && !e.SetSr? && !e.ReturnMode? }

  lemma UndisturbedStep(m: Machine)
    requires m.Valid() && Step(m).Running? && Undisturbed(StepEffect(m))
    ensures Step(m).value.cpu.epc == m.cpu.epc && Step(m).value.cpu.sr == m.cpu.sr
  {
    hide EffectOf, BusState.Valid, Load32, StoreTo, SetReg;
  }

  lemma {:induction false} UndisturbedRun(ms: seq<Machine>, i: nat, k: nat)
    requires IsRun(ms) && i <= k < |ms|
    requires forall j :: i <= j < k ==> Undisturbed(StepEffect(ms[j]))
    ensures ms[k].cpu.epc == ms[i].cpu.epc && ms[k].cpu.sr == ms[i].cpu.sr
    decreases k - i
  {
    hide StepEffect, Step, BusState.Valid, CpuState.Valid, Undisturbed;
    if i < k {
      assert Step(ms[i]) == Running(ms[i + 1]);
      UndisturbedStep(ms[i]);
      UndisturbedRun(ms, i + 1, k);
    }
  }

  predicate FaultsPlainly(m: Machine)
    requires m.bus.Valid()
  {
    m.cpu.pc % 4 == 0 && !m.cpu.branch && Faults(StepEffect(m))
  }

  predicate JumpsToEpc(m: Machine)
    requires m.bus.Valid()
  {
    m.cpu.pc % 4 == 0 && Jumps(StepEffect(m)) && StepEffect(m).target == m.cpu.epc
  }

  predicate ReturnsMode(m: Machine)
    requires m.bus.Valid()
  {
    m.cpu.pc % 4 == 0 && StepEffect(m).ReturnMode?
  }

  /** The round trip of an exception: an instruction at `p`, outside a delay slot, faults; the
      handler runs without a fault of its own or a write to SR, and ends with a jump to EPC that
      has RFE in its delay slot. Then the run goes on at `p`, in straight code, with the four low
      bits of SR as they were and the rest of SR gone; and every register that nothing after the
      fault has touched still holds its value. */
  lemma ExceptionReturns(ms: seq<Machine>, k: nat)
    requires IsRun(ms) && 1 <= k && |ms| == k + 3
    requires FaultsPlainly(ms[0]) && JumpsToEpc(ms[k]) && ReturnsMode(ms[k + 1])
    requires forall j :: 1 <= j < k ==> Undisturbed(StepEffect(ms[j]))
    ensures var c, c' := ms[0].cpu, ms[k + 2].cpu;
            && c'.pc == c.pc && c'.nextPc == Wrap(c.pc + 4) && !c'.branch
            && c'.sr == And(c.sr, 0x0f)
    ensures forall r: Reg :: r != 0 && (forall j :: 1 <= j < k + 2 ==> Spares(StepEffect(ms[j]), r)) ==>
              ms[k + 2].cpu.regs[r] == ms[1].cpu.regs[r]
  {
    hide StepEffect, Step, BusState.Valid, CpuState.Valid, Wrap, PushMode, PopMode, Undisturbed;
    assert Step(ms[0]) == Running(ms[1]);
    assert Step(ms[k]) == Running(ms[k + 1]);
    assert Step(ms[k + 1]) == Running(ms[k + 2]);
    PlainFaultIsPrecise(ms[0]);
    UndisturbedRun(ms, 1, k);
    BranchThenTarget(ms[k]);
    JumpIsUndisturbed(StepEffect(ms[k]));
    UndisturbedStep(ms[k]);
    StepSr(ms[0]);
    StepSr(ms[k + 1]);
    PushThenPop(ms[0].cpu.sr);
    RegisterLaw(ms[0], 0);
    forall r: Reg | r != 0 && forall j :: 1 <= j < k + 2 ==> Spares(StepEffect(ms[j]), r)
      ensures ms[k + 2].cpu.regs[r] == ms[1].cpu.regs[r]
    {
      assert forall j :: 1 <= j < k + 2 ==> Spares(StepEffect(ms[j]), r);
      RegisterSurvives(ms, r, 1, k + 2);
    }
  }

  lemma JumpIsUndisturbed(e: Effect)
    requires Jumps(e)
    ensures Undisturbed(e)
  {
  }

  lemma PushThenPop(sr: Word)
    ensures PopMode(PushMode(sr)) == And(sr, 0x0f)
  {
    hide And, Pow2, PushMode, PopMode;
    SmallMasks();
    AndLowMask(sr, 4);
    ModesSmall(sr);
    ModesSmall(PushMode(sr));
    Fewer(sr);
    PushBits(sr % 64);
  }
}
