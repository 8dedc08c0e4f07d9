/** Which accesses run past the end of a memory buffer: the two loads that do not check their
    address, and nothing else the emulator does. */
module Bounds {
  import opened Words
  import opened Outcomes
  import opened RamModel
  import opened MemoryMap
  import opened DmaModel
  import opened GpuModel
  import opened GpuStream
  import opened BusModel
  import opened CpuArith
  import opened CpuModel

  /** An access of `width` bytes that starts inside the device's buffer and ends outside it. */
  predicate Crosses(addr: Word, width: nat, d: Device)
  {
    var abs, end := MaskRegion(addr), RangeOf(d).base + RangeOf(d).size;
    abs < end < abs + width && RangeOf(d).base <= abs
  }

  // ---- The bus ----

  /** When each of the six bus accesses leaves its buffer. Stores to the BIOS, half-word loads
      from it, and all byte accesses never do; nor does a write that starts a transfer. */
  lemma AccessesExact(b: BusState, addr: Word, word: Word, half: Half, byte: Byte)
    requires b.Valid()
    ensures Load32(b, addr) == Stopped(OutOfBounds) <==> Crosses(addr, 4, MainRam) || Crosses(addr, 4, Bios)
    ensures Load16(b, addr) == Stopped(OutOfBounds) <==> Crosses(addr, 2, MainRam)
    ensures Load8(b, addr) != Stopped(OutOfBounds)
    ensures Store32(b, addr, word) == Stopped(OutOfBounds) <==> Crosses(addr, 4, MainRam)
    ensures Store16(b, addr, half) == Stopped(OutOfBounds) <==> Crosses(addr, 2, MainRam)
    ensures Store8(b, addr, byte) != Stopped(OutOfBounds)
  {
    Load32Exact(b, addr);
    Store32Exact(b, addr, word);
    NarrowExact(b, addr, half, byte);
  }

  lemma Load32Exact(b: BusState, addr: Word)
    requires b.Valid()
    ensures Load32(b, addr) == Stopped(OutOfBounds) <==> Crosses(addr, 4, MainRam) || Crosses(addr, 4, Bios)
  {
    hide DmaState.Valid, GpuState.Valid, MaskRegion, Find, DmaRead, Read, Regs.Status;
    Selected(MaskRegion(addr));
    var abs := MaskRegion(addr);
    if Find(abs) == Some(DmaRegs) { DmaReadPanics(b.dma, abs - RangeOf(DmaRegs).base); }
  }

  lemma DmaReadPanics(d: DmaState, offset: nat)
    requires d.Valid() && offset < 0x80
    ensures DmaRead(d, offset) != Stopped(OutOfBounds)
  {
  }

  lemma Store32Exact(b: BusState, addr: Word, val: Word)
    requires b.Valid()
    ensures Store32(b, addr, val) == Stopped(OutOfBounds) <==> Crosses(addr, 4, MainRam)
  {
    hide BusState.Valid, MaskRegion, Find, DmaWrite, RamModel.Write, GpuState.Gp0, GpuState.Gp1, GpuState.Valid;
    var abs := MaskRegion(addr);
    Selected(abs);
    if Find(abs) == Some(DmaRegs) { DmaWriteInBounds(b, abs - RangeOf(DmaRegs).base, val); }
  }

  lemma NarrowExact(b: BusState, addr: Word, half: Half, byte: Byte)
    requires b.Valid()
    ensures Load16(b, addr) == Stopped(OutOfBounds) <==> Crosses(addr, 2, MainRam)
    ensures Store16(b, addr, half) == Stopped(OutOfBounds) <==> Crosses(addr, 2, MainRam)
    ensures Load8(b, addr) != Stopped(OutOfBounds)
    ensures Store8(b, addr, byte) != Stopped(OutOfBounds)
  {
    hide BusState.Valid, MaskRegion, Find, RamModel.Write, Read;
    Selected(MaskRegion(addr));
  }

  /** The device found is the one whose range holds the address. */
  lemma Selected(abs: Word)
    ensures Find(abs) == Some(MainRam) <==> RangeOf(MainRam).Holds(abs)
    ensures Find(abs) == Some(Bios) <==> RangeOf(Bios).Holds(abs)
  {
    if RangeOf(MainRam).Holds(abs) { Families(MainRam, abs); }
    if RangeOf(Bios).Holds(abs) { Families(Bios, abs); }
  }

  // ---- DMA ----

  /** Transfers mask every address, so they never leave the buffer. */
  lemma DmaWriteInBounds(b: BusState, offset: nat, val: Word)
    requires b.Valid() && offset < 0x80
    ensures DmaWrite(b, offset, val) != Stopped(OutOfBounds)
  {
    hide GpuState.Valid, Transfer, ChannelWrite, DmaState.WithInterrupt;
    var major := offset / 0x10;
    if major < 7 {
      var written := ChannelWrite(b.dma.channels[major], offset % 0x10, val);
      if written.Running? { TransferInBounds(b.WithChannel(major, written.value), major); }
    }
  }

  lemma TransferInBounds(b: BusState, p: nat)
    requires b.Valid() && p < 7
    ensures Transfer(b, p) != Stopped(OutOfBounds)
  {
    hide GpuState.Valid, Stream, BlockWords, OtcFill, WalkList, RamAddr, ChannelState.TransferSize;
    WalkListInBounds(b.ram, b.gpu, RamAddr(b.dma.channels[p].base));
  }

  lemma WalkListInBounds(ram: RamBytes, g: GpuState, addr: nat)
    requires g.Valid()
    ensures WalkList(ram, g, addr) != Stopped(OutOfBounds)
  {
    hide RamAddr, Stream, GpuState.Valid, Walk;
    forall k: nat
      ensures Walk(ram, g, addr, k) != Stopped(OutOfBounds)
    {
      WalkInBounds(ram, g, addr, k);
    }
  }

  lemma {:induction false} WalkInBounds(ram: RamBytes, g: GpuState, addr: nat, fuel: nat)
    requires g.Valid()
    ensures Walk(ram, g, addr, fuel) != Stopped(OutOfBounds)
    decreases fuel
  {
    hide RamAddr, Stream, GpuState.Valid, Packet, Read, PacketSize, IsLast;
    if fuel > 0 {
      var header := Header(ram, addr);
      var fed := Stream(g, Packet(ram, addr, PacketSize(header)));
      if fed.Running? { WalkInBounds(ram, fed.value, Next(header), fuel - 1); }
    }
  }

  // ---- Whole steps ----

  /** The instruction reads past the end of main memory or of the BIOS: LW with the cache not
      isolated, or LH, close enough to the end. */
  predicate Overreads(m: Machine, instr: Word)
  {
    var addr := AddressOf(m.cpu.regs, instr);
    || (Function(instr) == 0x23 && !m.cpu.Isolated() && (Crosses(addr, 4, MainRam) || Crosses(addr, 4, Bios)))
    || (Function(instr) == 0x21 && Crosses(addr, 2, MainRam))
  }

  /** A step runs past the end of a buffer exactly when it fetches such an instruction. No
      fetch, store, byte load, LHU, LWL or LWR does, and no transfer that a store starts. */
  lemma StepOverreads(m: Machine)
    requires m.Valid()
    ensures Step(m) == Stopped(OutOfBounds) <==>
            var f := Load32(m.bus, m.cpu.pc);
            m.cpu.pc % 4 == 0 && f.Running? && Overreads(m, f.value)
  {
    hide Step, EffectOf, BusState.Valid, Load32, Overreads, CpuState.Prologue;
    if m.cpu.pc % 4 == 0 {
      AlignedLoads(m.bus, m.cpu.pc);
      StepStops(m);
      if Load32(m.bus, m.cpu.pc).Running? { EffectOverreads(m, Load32(m.bus, m.cpu.pc).value); }
    } else {
      MisalignedRuns(m);
    }
  }

  lemma MisalignedRuns(m: Machine)
    requires m.Valid() && m.cpu.pc % 4 != 0
    ensures Step(m).Running?
  {
    hide CpuState.Raise, BusState.Valid;
  }

  /** Why a step that has an aligned PC stops. */
  lemma StepStops(m: Machine)
    requires m.Valid() && m.cpu.pc % 4 == 0
    ensures Step(m) == Stopped(OutOfBounds) <==>
            var e := StepEffect(m);
            e == Stop(OutOfBounds) || (e.StoreMem? && StoreTo(m.bus, e.width, e.addr, e.v) == Stopped(OutOfBounds))
  {
    hide StepEffect, StoreTo, BusState.Valid, CpuState.Apply, CpuState.Prologue;
  }

  lemma EffectOverreads(m: Machine, instr: Word)
    requires m.Valid() && m.cpu.pc % 4 == 0 && Load32(m.bus, m.cpu.pc) == Running(instr)
    ensures StepEffect(m) == Stop(OutOfBounds) <==> Overreads(m, instr)
    ensures var e := StepEffect(m); e.StoreMem? ==> StoreTo(m.bus, e.width, e.addr, e.v) != Stopped(OutOfBounds)
  {
    hide BusState.Valid, Load32, StoreTo, RegisterEffect, LoadEffect, StoreEffect, CpuState.Isolated, Crosses,
         AddressOf, Function;
    GroupOpcodes(Function(instr));
    RegisterEffectsStay(m, instr);
    LoadsOverread(m, instr);
    if GroupOf(Function(instr)).Store? { StoresStay(m, instr); }
  }

  lemma GroupOpcodes(opcode: nat)
    ensures opcode in {0x21, 0x23} ==> GroupOf(opcode).Load?
    ensures GroupOf(opcode).Store? ==> opcode in {0x28, 0x29, 0x2a, 0x2b, 0x2e}
  {
  }

  lemma RegisterEffectsStay(m: Machine, instr: Word)
    ensures RegisterEffect(m.cpu.regs, m.cpu.Prologue(), instr) != Stop(OutOfBounds)
  {
    hide CpuState.Prologue, SpecialEffect, BranchEffect, ImmediateEffect, Function, GroupOf;
  }

  lemma LoadsOverread(m: Machine, instr: Word)
    requires m.Valid()
    ensures GroupOf(Function(instr)).Load? ==>
            (LoadEffect(m.cpu.regs, m.cpu.Prologue(), m.bus, instr) == Stop(OutOfBounds) <==> Overreads(m, instr))
  {
    hide BusState.Valid, Load32, Load16, Load8, AddressOf, Crosses, LoadEffect, CpuState.Isolated, CpuState.Prologue,
         Function, GroupOf;
    var addr := AddressOf(m.cpu.regs, instr);
    AccessesExact(m.bus, addr, 0, 0, 0);
    AlignedFits(addr);
    AlignedWord(m.bus, addr);
    LoadStops(m, instr);
  }

  /** The word that an address lies in is always inside its buffer. */
  lemma AlignedWord(b: BusState, addr: Word)
    requires b.Valid()
    ensures Load32(b, addr / 4 * 4) != Stopped(OutOfBounds)
  {
    hide BusState.Valid, Load32, Load16, Crosses;
    RoundedDown(addr);
    AlignedLoads(b, addr / 4 * 4);
  }

  lemma RoundedDown(addr: Word)
    ensures addr / 4 * 4 % 4 == 0
  {
  }

  /** A load stops when the bus access it makes does. */
  lemma LoadStops(m: Machine, instr: Word)
    requires m.Valid()
    ensures var addr, f := AddressOf(m.cpu.regs, instr), Function(instr);
            GroupOf(f).Load? ==>
              0x20 <= f <= 0x26 &&
              (LoadEffect(m.cpu.regs, m.cpu.Prologue(), m.bus, instr) == Stop(OutOfBounds) <==>
               match f
               case 0x20 | 0x24 => Load8(m.bus, addr) == Stopped(OutOfBounds)
               case 0x21 => Load16(m.bus, addr) == Stopped(OutOfBounds)
               case 0x23 => !m.cpu.Isolated() && Load32(m.bus, addr) == Stopped(OutOfBounds)
               case 0x25 => addr % 2 == 0 && Load16(m.bus, addr) == Stopped(OutOfBounds)
               case _ => Load32(m.bus, addr / 4 * 4) == Stopped(OutOfBounds))
  {
    hide BusState.Valid, Load32, Load16, Load8, AddressOf, Wrap, SetReg, MergeLeft, MergeRight, Function, T;
  }

  /** An aligned access never leaves its buffer. */
  lemma AlignedLoads(b: BusState, addr: Word)
    requires b.Valid()
    ensures addr % 4 == 0 ==> Load32(b, addr) != Stopped(OutOfBounds)
    ensures addr % 2 == 0 ==> Load16(b, addr) != Stopped(OutOfBounds)
  {
    hide BusState.Valid, Load32, Load16;
    AccessesExact(b, addr, 0, 0, 0);
    AlignedFits(addr);
  }

  lemma AlignedFits(addr: Word)
    ensures addr % 4 == 0 ==> !Crosses(addr, 4, MainRam) && !Crosses(addr, 4, Bios)
    ensures addr % 2 == 0 ==> !Crosses(addr, 2, MainRam)
  {
  }

  lemma StoresStay(m: Machine, instr: Word)
    requires m.Valid() && Function(instr) in {0x28, 0x29, 0x2a, 0x2b, 0x2e}
    ensures var e := StoreEffect(m.cpu.regs, m.cpu.Prologue(), m.bus, instr);
            && e != Stop(OutOfBounds)
            && (e.StoreMem? ==> StoreTo(m.bus, e.width, e.addr, e.v) != Stopped(OutOfBounds))
  {
    hide BusState.Valid, Load32, StoreTo, Function, StoreEffect, AddressOf, CpuState.Prologue, AlignedFor;
    var e := StoreEffect(m.cpu.regs, m.cpu.Prologue(), m.bus, instr);
    AlignedWord(m.bus, AddressOf(m.cpu.regs, instr));
    StoresAligned(m, instr);
    if e.StoreMem? { AlignedStores(m.bus, e.width, e.addr, e.v); }
  }

  predicate AlignedFor(width: nat, addr: Word) { width in {1, 2, 4} && addr % width == 0 }

  /** A store stops only if the word it merges into cannot be read, and is aligned otherwise. */
  lemma StoresAligned(m: Machine, instr: Word)
    requires m.Valid() && Function(instr) in {0x28, 0x29, 0x2a, 0x2b, 0x2e}
    ensures var e := StoreEffect(m.cpu.regs, m.cpu.Prologue(), m.bus, instr);
            && (e.Stop? ==> Load32(m.bus, AddressOf(m.cpu.regs, instr) / 4 * 4) == Stopped(e.why))
            && (e.StoreMem? ==> AlignedFor(e.width, e.addr))
  {
    hide BusState.Valid, Load32, AddressOf, CpuState.Prologue, CpuState.Isolated, MergeLeft, MergeRight, Function, T;
  }

  lemma AlignedStores(b: BusState, width: nat, addr: Word, v: Word)
    requires b.Valid() && AlignedFor(width, addr)
    ensures StoreTo(b, width, addr, v) != Stopped(OutOfBounds)
  {
    hide BusState.Valid, Store32, Store16, Store8;
    AccessesExact(b, addr, v, v % 0x1_0000, v % 0x100);
    AlignedFits(addr);
  }
}
