/** One concrete input for each place where the code does something other than its comments
    say. The theorems elsewhere give the exact conditions. */
module Witnesses {
  import opened Words
  import opened Outcomes
  import opened RamModel
  import MemoryMap
  import opened DmaModel
  import opened RendererModel
  import opened GpuModel
  import opened GpuStream
  import opened BusModel
  import opened LinkedListProofs
  import opened OrderingTableProofs
  import opened Bounds
  import opened CpuArith
  import opened CpuModel
  import opened CpuRuns
  import opened Unaligned

  // ---- Linked lists ----

  /** Memory whose first word is `header`. */
  function OneHeader(header: Word): RamBytes { Write32(seq(RAM_SIZE, _ => 0), 0, header) }

  /** A list of one header, 0x00800000, at address 0: it carries the end marker of the comments
      and no packet, and links to itself. The transfer does not stop there: it never does. */
  lemma EndMarkerWitness()
    ensures var ram := OneHeader(0x80_0000);
            && MarkedAfter(ram, 0, 0) && !EndsAfter(ram, 0, 0)
            && POWER_ON.Valid() && WalkList(ram, POWER_ON, 0) == Stopped(Endless)
  {
    hide GpuState.Valid, Stream, EndsAfter, ListWords, WalkList, OneHeader, HasNoEnd, AllAccepted, Header;
    var ram := OneHeader(0x80_0000);
    PowerOnIdle();
    OneHeaderIs(0x80_0000);
    assert Marked(0x80_0000) && !IsLast(0x80_0000);
    SelfLoop(ram, POWER_ON);
    ListNeverEnds(ram, POWER_ON, 0);
  }

  lemma OneHeaderIs(header: Word)
    ensures Header(OneHeader(header), 0) == header
  {
    hide RamModel.Write, RamModel.Read;
    assert Pow256(4) == 0x1_0000_0000;
    ReadAfterWrite(seq(RAM_SIZE, _ => 0), 0, 4, header);
  }

  lemma SelfLoop(ram: RamBytes, g: GpuState)
    requires g.Valid() && Header(ram, 0) == 0x80_0000
    ensures !EndsAfter(ram, 0, 0) && HasNoEnd(ram, 0) && AllAccepted(ram, g, 0)
  {
    hide GpuState.Valid, Stream, EndsAfter, ListWords, Header;
    forall k: nat
      ensures !EndsAfter(ram, 0, k) && ListWords(ram, 0, k) == []
    {
      SelfLoopAt(ram, k);
    }
    StreamNothing(g);
  }

  lemma StreamNothing(g: GpuState)
    requires g.Valid()
    ensures Stream(g, []) == Running(g)
  {
  }

  lemma {:induction false} SelfLoopAt(ram: RamBytes, k: nat)
    requires Header(ram, 0) == 0x80_0000
    ensures !EndsAfter(ram, 0, k) && ListWords(ram, 0, k) == []
  {
    assert Next(0x80_0000) == 0 && PacketSize(0x80_0000) == 0 && !IsLast(0x80_0000);
    hide Header, Next, RamAddr;
    if k > 0 { SelfLoopAt(ram, k - 1); }
  }

  /** A table of two entries with base 1 is walked as if it had one. */
  lemma OddTableWitness(ram: RamBytes)
    ensures var f := OtcFill(ram, 1, Decrement, 2);
            EndsAfter(f, RamAddr(1), 0) && !EndsAfter(f, RamAddr(1), 1)
  {
    hide OtcFill, RamAddr, EndsAfter, ListWords;
    TableEnds(ram, 1, 2);
    var f := OtcFill(ram, 1, Decrement, 2);
    if EndsAfter(f, RamAddr(1), 1) { EndUnique(f, RamAddr(1), 0, 1); }
  }

  // ---- The GPU ----

  /** An image load of 0 by 0 pixels swallows the draw-mode command after it, which an idle
      GPU obeys. */
  lemma EmptyImageWitness()
    ensures var plain := Stream(POWER_ON, [0xe100_0400]);
            plain.Running? && plain.value.regs.drawMode.drawToDisplay
    ensures var after := Stream(POWER_ON, [0xa000_0000, 0, 0, 0xe100_0400]);
            after.Running? && !after.value.regs.drawMode.drawToDisplay
  {
    hide Stream, GpuState.Gp0, GpuState.Valid, GpuState.AtBoundary;
    PowerOnIdle();
    ImageLoadReturns(POWER_ON, [0xa000_0000, 0, 0], []);
    assert [0xa000_0000, 0, 0] + [] == [0xa000_0000, 0, 0];
    assert [0xa000_0000, 0, 0] + [0xe100_0400] == [0xa000_0000, 0, 0, 0xe100_0400];
    StreamSplit(POWER_ON, [0xa000_0000, 0, 0], [0xe100_0400]);
    StreamOne(POWER_ON, 0xe100_0400);
    DrawsToDisplay(POWER_ON);
    var image := Stream(POWER_ON, [0xa000_0000, 0, 0]).value;
    StreamOne(image, 0xe100_0400);
    Swallows(image);
  }

  lemma PowerOnIdle()
    ensures POWER_ON.Valid() && POWER_ON.AtBoundary()
  {
    assert RenderState([], []).Valid();
  }

  lemma DrawsToDisplay(g: GpuState)
    requires g.Valid() && g.AtBoundary()
    ensures g.Gp0(0xe100_0400).Running? && g.Gp0(0xe100_0400).value.regs.drawMode.drawToDisplay
  {
    hide RenderState.Valid, Regs.Valid;
  }

  lemma Swallows(g: GpuState)
    requires g.Valid() && g.mode.ImageLoad? && g.remaining == 0
    ensures g.Gp0(0xe100_0400).Running? && g.Gp0(0xe100_0400).value.regs == g.regs
  {
    hide RenderState.Valid, Regs.Valid;
  }

  /** With exactly four free slots a quad is split between two batches. */
  lemma SplitQuadWitness(v: Vertex)
    ensures var s := RenderState(seq(16380, _ => v), []);
            var s' := s.PushQuad(v, v, v, v);
            |s'.batches| == 1 && |s'.batches[0]| == 16383 && |s'.pending| == 3
  {
    QuadAcrossBatches(RenderState(seq(16380, _ => v), []), v, v, v, v);
  }

  /** Asking for 480 lines alone gives 240; asking for a 320-pixel width alone gives 480. */
  lemma DisplayModeWitness()
    ensures DisplayModeFrom(0x0800_0004).Running? && DisplayModeFrom(0x0800_0004).value.vres == Y240Lines
    ensures DisplayModeFrom(0x0800_0001).Running? && DisplayModeFrom(0x0800_0001).value.vres == Y480Lines
  {
  }

  // ---- The CPU ----

  /** A BIOS that begins with two given instructions. */
  function Rom(first: Word, second: Word): BiosBytes
  {
    Write32(Write32(seq(BIOS_SIZE, _ => 0), 0, first), 4, second)
  }

  /** The machine at reset with such a BIOS, and given values in SR and register 1. */
  function Boot(first: Word, second: Word, sr: Word, r1: Word): (m: Machine)
    ensures m.Valid()
  {
    Machine(
      RESET_CPU.(sr := sr, regs := RESET_CPU.regs[1 := r1]),
      BusState(seq(RAM_SIZE, _ => 0xca), Rom(first, second),
               DmaState(0x0765_4321, false, 0, 0, false, 0, seq(7, _ => RESET_CHANNEL)), POWER_ON))
  }

  lemma BootFetches(first: Word, second: Word, sr: Word, r1: Word)
    ensures var m := Boot(first, second, sr, r1);
            Load32(m.bus, 0xbfc0_0000) == Running(first) && Load32(m.bus, 0xbfc0_0004) == Running(second)
  {
    hide RamModel.Write, RamModel.Read, DmaState.Valid, GpuState.Valid;
    assert Pow256(4) == 0x1_0000_0000;
    var zero: seq<Byte> := seq(BIOS_SIZE, _ => 0);
    ReadAfterWrite(zero, 0, 4, first);
    ReadElsewhere(Write32(zero, 0, first), 4, 4, second, 0, 4);
    ReadAfterWrite(Write32(zero, 0, first), 4, 4, second);
  }

  /** SYSCALL with the cache isolated: the isolation bit is gone, and all of SR with it. */
  lemma UpperSrWitness()
    ensures var m := Boot(0xc, 0, 0x1_0000, 0);
            m.cpu.Isolated() && Step(m).Running? && Step(m).value.cpu.sr == 0
  {
    hide BusState.Valid, Load32, Step, StepEffect, Rom;
    BootFetches(0xc, 0, 0x1_0000, 0);
    SyscallStep(Boot(0xc, 0, 0x1_0000, 0));
  }

  lemma SyscallStep(m: Machine)
    requires m.Valid() && Fetches(m, 0xc)
    ensures Step(m).Running? && StepEffect(m) == Fault(SysCall) && Step(m).value.cpu.sr == PushMode(m.cpu.sr)
  {
    hide BusState.Valid, Load32, Step, StepEffect, Wrap, SetReg, PushMode;
    SpecialStep(m, 0xc);
  }

  /** ADD of the largest positive number to itself raises Overflow and writes the wrapped sum. */
  lemma AddWitness()
    ensures var m := Boot(0x0021_1020, 0, 0, 0x7fff_ffff);
            Step(m).Running? && Faults(StepEffect(m)) && Step(m).value.cpu.regs[2] == 0xffff_fffe
  {
    hide BusState.Valid, Load32, Step, StepEffect, Rom;
    BootFetches(0x0021_1020, 0, 0, 0x7fff_ffff);
    AddWritesEvenOnOverflow(Boot(0x0021_1020, 0, 0, 0x7fff_ffff), 0x0021_1020);
  }

  /** ADDI of 1 to the largest positive number raises Overflow and writes the wrapped sum. */
  lemma AddiWitness()
    ensures var m := Boot(0x2022_0001, 0, 0, 0x7fff_ffff);
            Step(m).Running? && Faults(StepEffect(m)) && Step(m).value.cpu.regs[2] == 0x8000_0000
  {
    hide BusState.Valid, Load32, Step, StepEffect, Rom;
    BootFetches(0x2022_0001, 0, 0, 0x7fff_ffff);
    AddiWritesEvenOnOverflow(Boot(0x2022_0001, 0, 0, 0x7fff_ffff), 0x2022_0001);
  }

  /** LW of the last three bytes of memory and one more, through KSEG0: the step runs past the
      end of the buffer. */
  lemma OverreadWitness()
    ensures Step(Boot(0x8c22_0000, 0, 0, 0x801f_fffd)) == Stopped(OutOfBounds)
  {
    hide BusState.Valid, Load32, Step, Rom, Overreads;
    var m := Boot(0x8c22_0000, 0, 0, 0x801f_fffd);
    BootFetches(0x8c22_0000, 0, 0, 0x801f_fffd);
    LoadOverreads(m);
    StepOverreads(m);
  }

  lemma LoadOverreads(m: Machine)
    requires m.cpu.regs[1] == 0x801f_fffd && !m.cpu.Isolated()
    ensures Overreads(m, 0x8c22_0000)
  {
    hide Crosses;
    assert Function(0x8c22_0000) == 0x23 && S(0x8c22_0000) == 1 && ImmSe(0x8c22_0000) == 0;
    NearTheEnd();
  }

  lemma NearTheEnd()
    ensures Crosses(0x801f_fffd, 4, MemoryMap.MainRam)
  {
    hide MemoryMap.MaskRegion;
  }

  /** A jump with SYSCALL in its delay slot: a run to which the theorem on precise faults in
      delay slots applies. */
  lemma SlotFaultWitness()
    ensures var m := Boot(0x0800_0000, 0xc, 0, 0);
            && Step(m).Running? && Jumps(StepEffect(m))
            && Step(Step(m).value).Running? && Faults(StepEffect(Step(m).value))
            && Step(Step(m).value).value.cpu.epc == 0xbfc0_0000
  {
    hide BusState.Valid, Load32, Step, StepEffect, Rom;
    var m := Boot(0x0800_0000, 0xc, 0, 0);
    BootFetches(0x0800_0000, 0xc, 0, 0);
    JumpStep(m, 0x0800_0000);
    StepKeeps(m);
    StepPc(m);
    SyscallStep(Step(m).value);
    SlotFaultIsPrecise(m);
  }

  lemma JumpStep(m: Machine, instr: Word)
    requires m.Valid() && Fetches(m, instr) && Function(instr) == 0x02
    ensures Step(m).Running? && Jumps(StepEffect(m)) && Step(m).value.bus == m.bus
  {
    hide BusState.Valid, Load32, Wrap, SetReg, JumpTarget;
  }

  // ---- Unaligned accesses ----

  /** Inputs on which the words that LWR, SWL and SWR make are wrong, for every offset at which
      they can be. */
  lemma UnalignedWitness()
    ensures !OntoBottom(0, 0x0100_0000, 4, MergeRight(0, 0x0100_0000, 0))
    ensures !OntoBottom(0, 0x100, 3, MergeRight(0, 0x100, 1))
    ensures !OntoBottom(0, 0x1_0000, 2, MergeRight(0, 0x1_0000, 2))
    ensures !OntoBottom(0, 1, 1, MergeRight(0, 1, 3))
    ensures forall o :: 0 <= o < 3 ==> !OntoBottom(0x0100_0000, 0, o + 1, MergeRight(0x0100_0000, 0, o))
    ensures forall o :: 0 <= o < 4 ==> !OntoTop(0, 1, 4 - o, MergeLeft(0, 1, o))
  {
    ConditionsFail();
    hide OntoBottom, OntoTop, MergeRight, MergeLeft, LwrWorks, SwlWorks, SwrWorks;
    LwrExact(0, 0x0100_0000, 0);
    LwrExact(0, 0x100, 1);
    LwrExact(0, 0x1_0000, 2);
    LwrExact(0, 1, 3);
    forall o | 0 <= o < 3
      ensures !OntoBottom(0x0100_0000, 0, o + 1, MergeRight(0x0100_0000, 0, o))
    {
      SwlExact(0x0100_0000, 0, o);
    }
    forall o | 0 <= o < 4
      ensures !OntoTop(0, 1, 4 - o, MergeLeft(0, 1, o))
    {
      SwrExact(0, 1, o);
    }
  }

  lemma ConditionsFail()
    ensures !LwrWorks(0, 0x0100_0000, 0) && !LwrWorks(0, 0x100, 1) && !LwrWorks(0, 0x1_0000, 2) && !LwrWorks(0, 1, 3)
    ensures forall o :: 0 <= o < 3 ==> !SwlWorks(0x0100_0000, 0, o)
    ensures forall o :: 0 <= o < 4 ==> !SwrWorks(0, 1, o)
  {
  }
}
