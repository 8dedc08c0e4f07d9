/** What the bus does at each address, stated of the numbers a program uses. */
module BusMap {
  import opened Words
  import opened Outcomes
  import opened RamModel
  import opened MemoryMap
  import opened GpuModel
  import opened BusModel

  /** The three bases at which a device in the first 512 MB is seen. */
  predicate Segment(base: Word) { base == 0 || base == 0x8000_0000 || base == 0xa000_0000 }

  /** A word at the GPU's first address is a GP0 command and one at its second a GP1 command; the
      first reads as zero and the second as the status. */
  lemma GpuPorts(b: BusState, base: Word, val: Word)
    requires b.Valid() && Segment(base)
    ensures var g, r := b.gpu.Gp0(val), Store32(b, base + 0x1f80_1810, val);
            if g.Stopped? then r == Stopped(g.why) else r == Running(b.(gpu := g.value))
    ensures var g, r := b.gpu.Gp1(val), Store32(b, base + 0x1f80_1814, val);
            if g.Stopped? then r == Stopped(g.why) else r == Running(b.(gpu := g.value))
    ensures Load32(b, base + 0x1f80_1810) == Running(0)
    ensures Load32(b, base + 0x1f80_1814) == Running(b.gpu.regs.Status())
  {
    hide BusState.Valid, Find, MaskRegion, GpuState.Gp0, GpuState.Gp1, Regs.Status;
    Families(GpuRegs, 0x1f80_1810);
    Families(GpuRegs, 0x1f80_1814);
    Masked(base, 0x1f80_1810);
    Masked(base, 0x1f80_1814);
  }

  lemma Masked(base: Word, abs: Word)
    requires Segment(base) && abs < 0x2000_0000
    ensures base + abs < 0x1_0000_0000 && MaskRegion(base + abs) == abs
  {
  }

  /** The DMA registers, by their offset from 0x1f801080. */
  lemma DmaPorts(b: BusState, base: Word, offset: nat, val: Word)
    requires b.Valid() && Segment(base) && offset < 0x80
    ensures Load32(b, base + 0x1f80_1080 + offset) == DmaRead(b.dma, offset)
    ensures Store32(b, base + 0x1f80_1080 + offset, val) == DmaWrite(b, offset, val)
  {
    hide BusState.Valid, Find, MaskRegion, DmaRead, DmaWrite;
    Families(DmaRegs, 0x1f80_1080 + offset);
    Masked(base, 0x1f80_1080 + offset);
  }

  /** The BIOS reads as its bytes, lowest first, and cannot be stored to. */
  lemma BiosReads(b: BusState, base: Word, o: nat, val: Word)
    requires b.Valid() && Segment(base) && o < 0x8_0000
    ensures Load8(b, base + 0x1fc0_0000 + o) == Running(b.bios[o])
    ensures o + 4 <= 0x8_0000 ==>
            Load32(b, base + 0x1fc0_0000 + o)
            == Running((b.bios[o] as int) + 0x100 * (b.bios[o + 1] as int) + 0x1_0000 * (b.bios[o + 2] as int)
                       + 0x100_0000 * (b.bios[o + 3] as int))
    ensures Store32(b, base + 0x1fc0_0000 + o, val) == Stopped(Panic)
  {
    hide BusState.Valid, Find, MaskRegion, Read;
    Families(Bios, 0x1fc0_0000 + o);
    Masked(base, 0x1fc0_0000 + o);
    if o + 4 <= 0x8_0000 { Unroll(b.bios, o); }
  }

  /** The addresses at which each access answers; at every other one it panics. */
  lemma LoadsAnswer(b: BusState, addr: Word)
    requires b.Valid()
    ensures var abs := MaskRegion(addr);
            && (Load32(b, addr) == Stopped(Panic) <==>
                !(|| abs < 0x20_0000 || 0x1fc0_0000 <= abs < 0x1fc8_0000 || 0x1f80_1070 <= abs < 0x1f80_1078
                  || 0x1f80_1100 <= abs < 0x1f80_1130 || abs == 0x1f80_1810 || abs == 0x1f80_1814
                  || (0x1f80_1080 <= abs < 0x1f80_1100 && DmaRead(b.dma, abs - 0x1f80_1080).Running?)))
            && (Load16(b, addr) == Stopped(Panic) <==>
                !(abs < 0x20_0000 || 0x1f80_1c00 <= abs < 0x1f80_1e80 || 0x1f80_1070 <= abs < 0x1f80_1078))
            && (Load8(b, addr) == Stopped(Panic) <==>
                !(abs < 0x20_0000 || 0x1fc0_0000 <= abs < 0x1fc8_0000 || 0x1f00_0000 <= abs < 0x1f08_0000))
  {
    hide BusState.Valid, MaskRegion, Find, DmaRead, Read, Regs.Status;
    Located(MaskRegion(addr));
    if Find(MaskRegion(addr)) == Some(DmaRegs) { DmaReadWhy(b, MaskRegion(addr) - 0x1f80_1080); }
  }

  lemma DmaReadWhy(b: BusState, offset: nat)
    requires b.Valid() && offset < 0x80
    ensures DmaRead(b.dma, offset).Stopped? ==> DmaRead(b.dma, offset) == Stopped(Panic)
  {
    hide GpuState.Valid;
  }

  lemma StoresAnswer(b: BusState, addr: Word, word: Word, half: Half, byte: Byte)
    requires b.Valid()
    requires var abs := MaskRegion(addr); !(0x1f80_1080 <= abs < 0x1f80_1100) && !(0x1f80_1810 <= abs < 0x1f80_1818)
    ensures var abs := MaskRegion(addr);
            && (Store32(b, addr, word) == Stopped(Panic) <==>
                !(|| abs < 0x20_0000 || (abs == 0x1f80_1000 && word == 0x1f00_0000)
                  || (abs == 0x1f80_1004 && word == 0x1f80_2000)
                  || (0x1f80_1000 <= abs < 0x1f80_1024 && abs != 0x1f80_1000 && abs != 0x1f80_1004)
                  || 0x1f80_1060 <= abs < 0x1f80_1064 || 0xfffe_0130 <= abs < 0xfffe_0134
                  || 0x1f80_1070 <= abs < 0x1f80_1078 || 0x1f80_1100 <= abs < 0x1f80_1130))
            && (Store16(b, addr, half) == Stopped(Panic) <==>
                !(|| abs < 0x20_0000 || 0x1f80_1c00 <= abs < 0x1f80_1e80 || 0x1f80_1100 <= abs < 0x1f80_1130
                  || 0x1f80_1070 <= abs < 0x1f80_1078))
            && (Store8(b, addr, byte) == Stopped(Panic) <==>
                !(abs < 0x20_0000 || 0x1f80_2000 <= abs < 0x1f80_2042))
            && (abs >= 0x20_0000 ==>
                  && (Store32(b, addr, word).Running? ==> Store32(b, addr, word).value == b)
                  && (Store16(b, addr, half).Running? ==> Store16(b, addr, half).value == b)
                  && (Store8(b, addr, byte).Running? ==> Store8(b, addr, byte).value == b))
  {
    hide BusState.Valid, MaskRegion, Find, DmaWrite, RamModel.Write, GpuState.Gp0, GpuState.Gp1;
    Located(MaskRegion(addr));
  }

  /** What the devices that only log read as. */
  lemma ConstantReads(b: BusState, addr: Word)
    requires b.Valid()
    ensures var abs := MaskRegion(addr);
            && (0x1f80_1070 <= abs < 0x1f80_1078 ==> Load32(b, addr) == Running(0) && Load16(b, addr) == Running(0))
            && (0x1f80_1100 <= abs < 0x1f80_1130 ==> Load32(b, addr) == Running(0))
            && (0x1f80_1c00 <= abs < 0x1f80_1e80 ==> Load16(b, addr) == Running(0))
            && (0x1f00_0000 <= abs < 0x1f08_0000 ==> Load8(b, addr) == Running(0xff))
  {
    hide BusState.Valid, MaskRegion, Find;
    Located(MaskRegion(addr));
  }

  /** The device at an address, by the bounds of its range. */
  lemma Located(abs: Word)
    ensures Find(abs) == Some(MainRam) <==> abs < 0x20_0000
    ensures Find(abs) == Some(Bios) <==> 0x1fc0_0000 <= abs < 0x1fc8_0000
    ensures Find(abs) == Some(MemControl) <==> 0x1f80_1000 <= abs < 0x1f80_1024
    ensures Find(abs) == Some(RamSize) <==> 0x1f80_1060 <= abs < 0x1f80_1064
    ensures Find(abs) == Some(CacheControl) <==> 0xfffe_0130 <= abs < 0xfffe_0134
    ensures Find(abs) == Some(Spu) <==> 0x1f80_1c00 <= abs < 0x1f80_1e80
    ensures Find(abs) == Some(Expansion1) <==> 0x1f00_0000 <= abs < 0x1f08_0000
    ensures Find(abs) == Some(Expansion2) <==> 0x1f80_2000 <= abs < 0x1f80_2042
    ensures Find(abs) == Some(IrqControl) <==> 0x1f80_1070 <= abs < 0x1f80_1078
    ensures Find(abs) == Some(Timers) <==> 0x1f80_1100 <= abs < 0x1f80_1130
    ensures Find(abs) == Some(DmaRegs) <==> 0x1f80_1080 <= abs < 0x1f80_1100
    ensures Find(abs) == Some(GpuRegs) <==> 0x1f80_1810 <= abs < 0x1f80_1818
  {
  }
}
