/** What the settings written to the GPU's ports show in its status register. */
module GpuStatus {
  import opened Words
  import opened Outcomes
  import opened RendererModel
  import opened GpuModel

  /** A draw-mode word that is accepted shows up in the status register: its bits 0 to 10 in
      place, and its bit 11 as bit 15. */
  lemma StatusShowsDrawMode(val: Word)
    requires DrawModeFrom(val).Running?
    ensures DrawModeFrom(val).value.Status() == val % 0x800 + val / 0x800 % 2 * 0x8000
  {
    assert DrawModeFrom(val).value.Status()
        == val % 16 + 0x10 * (val / 0x10 % 2) + 0x20 * (val / 0x20 % 4) + 0x80 * (val / 0x80 % 4)
           + 0x200 * (val / 0x200 % 2) + 0x400 * (val / 0x400 % 2) + 0x8000 * (val / 0x800 % 2);
    hide DrawModeFrom, DrawModeRegs.Status;
    DivDiv(val, 0x10, 2);
    DivDiv(val, 0x20, 4);
    DivDiv(val, 0x80, 4);
    DivDiv(val, 0x200, 2);
    DivDiv(val, 0x400, 2);
    LowBits(val, val % 16, val / 0x10 % 2, val / 0x20 % 4, val / 0x80 % 4, val / 0x200 % 2,
            val / 0x400 % 2, val / 0x800);
  }

  lemma LowBits(val: Word, x: nat, y: nat, s: nat, t: nat, u: nat, v: nat, rest: nat)
    requires x < 16 && y < 2 && s < 4 && t < 4 && u < 2 && v < 2
    requires val == x + 0x10 * y + 0x20 * s + 0x80 * t + 0x200 * u + 0x400 * v + 0x800 * rest
    ensures val % 0x800 == x + 0x10 * y + 0x20 * s + 0x80 * t + 0x200 * u + 0x400 * v
  {
    ModUnique(val, 0x800, rest, x + 0x10 * y + 0x20 * s + 0x80 * t + 0x200 * u + 0x400 * v);
  }

  /** What a GP1 setting shows in the status register: the enable and DMA-direction fields
      read back as written. A display mode reads back in bits 16 to 22 only for its horizontal
      resolution; bit 0 of the word stands in for the video mode, the colour depth and the
      interlacing, and bit 19 always reads zero. */
  lemma StatusShowsSettings(g: GpuState, val: Word)
    requires g.Valid() && val / 0x100_0000 in {3, 4, 8} && g.Gp1(val).Running?
    ensures var s, s' := g.regs.Status(), g.Gp1(val).value.regs.Status();
            match val / 0x100_0000
            case 3 => s' / 0x80_0000 % 2 == val % 2 && s' % 0x80_0000 == s % 0x80_0000
                      && s' / 0x100_0000 == s / 0x100_0000
            case 4 => s' / 0x2000_0000 == val % 4 && s' / 0x200_0000 % 2 == (if val % 4 == 0 then 0 else 1)
                      && s' % 0x200_0000 == s % 0x200_0000
            case _ => s' / 0x1_0000 % 0x80 == val / 0x40 % 2 + val % 4 * 2 + val % 2 * 0x50 + (1 - val % 2) * 0x20
                      && s' % 0x1_0000 == s % 0x1_0000 && s' / 0x80_0000 == s / 0x80_0000
  {
    hide Regs.Status, DrawModeRegs.Status, DrawModeRegs.Valid;
    var regs := g.Gp1(val).value.regs;
    StatusParts(g.regs);
    StatusParts(regs);
    assert regs.LowStatus() == g.regs.LowStatus();
  }

  /** The display mode that `val` asks for, each test reading its own bit. */
  function ModeMeant(val: Word): DisplayModeRegs
  {
    DisplayModeRegs(
      val / 0x40 % 2 + val % 4 * 2,
      if val / 4 % 2 == 1 then Y480Lines else Y240Lines,
      if val / 8 % 2 == 1 then Pal else Ntsc,
      if val / 0x10 % 2 == 1 then D15Bits else D24Bits,
      val / 0x20 % 2 == 1)
  }

  /** A display-mode command sets the mode it asks for exactly when the four bits that should be
      tested, 2 to 5, all equal bit 0, which is tested in their place. */
  lemma DisplayModeAsMeant(g: GpuState, val: Word)
    requires g.Valid() && val / 0x100_0000 == 8 && g.Gp1(val).Running?
    ensures g.Gp1(val).value.regs.displayMode == ModeMeant(val) <==>
            val / 4 % 2 == val / 8 % 2 == val / 0x10 % 2 == val / 0x20 % 2 == val % 2
    ensures g.Gp1(val).value == g.(regs := g.regs.(displayMode := g.Gp1(val).value.regs.displayMode))
  {
    hide RenderState.Valid, Regs.Valid;
  }

  /** The display part of the status register, bits 16 to 22. */
  function DisplayBits(d: DisplayModeRegs): (r: nat)
    requires d.hres < 8
    ensures r < 0x80
  {
    d.hres + Flag(d.vmode.Pal?, 0x10) + Flag(d.displayDepth.D24Bits?, 0x20) + Flag(d.interlaced, 0x40)
  }

  /** The number of a DMA direction: its two-bit code. */
  function DirectionBits(d: DmaDirection): (r: nat)
    ensures r < 4
  {
    match d case Off => 0 case Fifo => 1 case CpuToGp0 => 2 case VRamToCpu => 3
  }

  /** The status register taken apart. */
  lemma StatusParts(r: Regs)
    requires r.Valid()
    ensures var s, display := r.Status(), DisplayBits(r.displayMode);
            var off, irq := Flag(r.displayDisabled, 1), Flag(r.interrupt, 1);
            var request, direction := Flag(!r.dmaDirection.Off?, 1), DirectionBits(r.dmaDirection);
            && s % 0x1_0000 == r.LowStatus() && s / 0x1_0000 % 0x80 == display
            && s % 0x80_0000 == r.LowStatus() + 0x1_0000 * display
            && s / 0x80_0000 % 2 == off && s / 0x80_0000 == off + 2 * (s / 0x100_0000)
            && s / 0x100_0000 == irq + 2 * request + 0x1c + 0x20 * direction
            && s / 0x200_0000 % 2 == request && s / 0x2000_0000 == direction
            && s % 0x200_0000 == r.LowStatus() + 0x1_0000 * display + 0x80_0000 * off + 0x100_0000 * irq
  {
    hide Regs.Status, Regs.LowStatus, Regs.Valid, DisplayBits, DirectionBits, Flag;
    StatusSum(r);
    Fields(r.Status(), r.LowStatus(), DisplayBits(r.displayMode), Flag(r.displayDisabled, 1), Flag(r.interrupt, 1),
           Flag(!r.dmaDirection.Off?, 1), DirectionBits(r.dmaDirection));
  }

  lemma StatusSum(r: Regs)
    requires r.Valid()
    ensures r.displayMode.hres < 8
    ensures r.Status() == r.LowStatus() + 0x1_0000 * DisplayBits(r.displayMode) + 0x80_0000 * Flag(r.displayDisabled, 1)
                          + 0x100_0000 * Flag(r.interrupt, 1) + 0x200_0000 * Flag(!r.dmaDirection.Off?, 1)
                          + 0x1c00_0000 + 0x2000_0000 * DirectionBits(r.dmaDirection)
    ensures Flag(r.displayDisabled, 1) < 2 && Flag(r.interrupt, 1) < 2 && Flag(!r.dmaDirection.Off?, 1) < 2
  {
    hide Regs.LowStatus, DrawModeRegs.Valid;
  }

  lemma Fields(s: int, low: int, mid: int, off: int, irq: int, req: int, dir: int)
    requires 0 <= low < 0x1_0000 && 0 <= mid < 0x80 && 0 <= off < 2 && 0 <= irq < 2 && 0 <= req < 2 && 0 <= dir < 4
    requires s == low + 0x1_0000 * mid + 0x80_0000 * off + 0x100_0000 * irq + 0x200_0000 * req
                  + 0x1c00_0000 + 0x2000_0000 * dir
    ensures s % 0x1_0000 == low && s / 0x1_0000 % 0x80 == mid && s % 0x80_0000 == low + 0x1_0000 * mid
    ensures s / 0x80_0000 % 2 == off && s / 0x80_0000 == off + 2 * (s / 0x100_0000)
    ensures s / 0x100_0000 == irq + 2 * req + 0x1c + 0x20 * dir
    ensures s / 0x200_0000 % 2 == req && s / 0x2000_0000 == dir
    ensures s % 0x200_0000 == low + 0x1_0000 * mid + 0x80_0000 * off + 0x100_0000 * irq
  {
    var top := 0x1c + 2 * req + 0x20 * dir;
    var high := irq + top;
    ModUnique(s, 0x1_0000, mid + 0x80 * off + 0x100 * high, low);
    ModUnique(s / 0x1_0000, 0x80, off + 2 * high, mid);
    ModUnique(s, 0x80_0000, off + 2 * high, low + 0x1_0000 * mid);
    ModUnique(s / 0x80_0000, 2, high, off);
    ModUnique(s, 0x100_0000, high, low + 0x1_0000 * mid + 0x80_0000 * off);
    ModUnique(s, 0x200_0000, req + 0xe + 0x10 * dir, low + 0x1_0000 * mid + 0x80_0000 * off + 0x100_0000 * irq);
    ModUnique(s / 0x200_0000, 2, 7 + 8 * dir, req);
    ModUnique(s, 0x2000_0000, dir, s - 0x2000_0000 * dir);
  }

  /** The two GP0 settings that the status register shows: written by a whole command to an
      idle GPU, the draw mode and the mask bits read back where they belong, and the rest of
      the register stays as it was. */
  lemma StatusShowsCommands(g: GpuState, val: Word)
    requires g.Valid() && g.AtBoundary() && val / 0x100_0000 in {0xe1, 0xe6} && g.Gp0(val).Running?
    ensures var s, s' := g.regs.Status(), g.Gp0(val).value.regs.Status();
            if val / 0x100_0000 == 0xe1 then
              && s' % 0x800 == val % 0x800 && s' / 0x8000 % 2 == val / 0x800 % 2
              && s' / 0x800 % 0x10 == s / 0x800 % 0x10 && s' / 0x1_0000 == s / 0x1_0000
            else
              s' / 0x800 % 4 == val % 4 && s' % 0x800 == s % 0x800 && s' / 0x2000 == s / 0x2000
  {
    SettingRuns(g, val);
    hide GpuState.Gp0, Regs.Status, DrawModeRegs.Status, DrawModeFrom, GpuState.AtBoundary;
    var regs := g.Gp0(val).value.regs;
    LowParts(g.regs);
    LowParts(regs);
    SameHighStatus(g.regs, regs);
    if val / 0x100_0000 == 0xe1 {
      StatusShowsDrawMode(val);
      DrawModeWord(val, val / 0x800 % 2);
    } else {
      MaskWord(val);
    }
  }

  lemma SettingRuns(g: GpuState, val: Word)
    requires g.Valid() && g.AtBoundary() && val / 0x100_0000 in {0xe1, 0xe6} && g.Gp0(val).Running?
    ensures var regs := g.Gp0(val).value.regs;
            if val / 0x100_0000 == 0xe1 then
              DrawModeFrom(val).Running? && regs == g.regs.(drawMode := DrawModeFrom(val).value)
            else regs == g.regs.(mask := MaskRegs(val % 2 == 1, val / 2 % 2 == 1))
  {
    hide RenderState.Valid, DrawModeFrom, Regs.Valid;
    assert ([] + [val])[0] == val;
  }

  lemma DrawModeWord(val: Word, bit: nat)
    requires bit < 2
    ensures (val % 0x800 + bit * 0x8000) % 0x800 == val % 0x800 && (val % 0x800 + bit * 0x8000) / 0x8000 == bit
  {
    ModUnique(val % 0x800 + bit * 0x8000, 0x800, bit * 0x10, val % 0x800);
    ModUnique(val % 0x800 + bit * 0x8000, 0x8000, bit, val % 0x800);
  }

  lemma MaskWord(val: Word)
    ensures MaskBits(MaskRegs(val % 2 == 1, val / 2 % 2 == 1)) == val % 4
  {
  }

  lemma SameHighStatus(r: Regs, r': Regs)
    requires r.Valid() && r'.Valid() && r' == r.(drawMode := r'.drawMode, mask := r'.mask)
    ensures r.Status() / 0x1_0000 == r'.Status() / 0x1_0000
  {
    hide Regs.LowStatus, DrawModeRegs.Status;
    var high := r.Status() - r.LowStatus();
    assert r'.Status() - r'.LowStatus() == high && high % 0x1_0000 == 0;
    hide Regs.Status;
    ModUnique(r.Status(), 0x1_0000, high / 0x1_0000, r.LowStatus());
    ModUnique(r'.Status(), 0x1_0000, high / 0x1_0000, r'.LowStatus());
  }

  /** The low half of the status register taken apart. */
  lemma LowParts(r: Regs)
    requires r.Valid()
    ensures var s, mode, mask := r.Status(), r.drawMode.Status(), MaskBits(r.mask);
            && s % 0x800 == mode % 0x800 && s / 0x800 % 4 == mask
            && s / 0x8000 % 2 == mode / 0x8000 && s / 0x800 % 0x10 == mask + 4
            && s / 0x2000 == 1 + 4 * (mode / 0x8000) + 8 * (s / 0x1_0000)
  {
    hide Regs.Status, DrawModeRegs.Status;
    StatusParts(r);
    var s: int, high: int, mode: int := r.Status(), r.Status() / 0x1_0000, r.drawMode.Status();
    var mask: int, d: int, a: int := MaskBits(r.mask), mode / 0x8000, mode % 0x8000;
    assert r.LowStatus() == mode + 0x800 * mask + 0x2000;
    assert mode == 0x8000 * d + a && a < 0x800;
    hide Regs.LowStatus, MaskBits;
    assert s == 0x1_0000 * high + 0x8000 * d + a + 0x800 * mask + 0x2000;
    LowFields(s, high, d, a, mask, mode);
  }

  function MaskBits(m: MaskRegs): (r: nat)
    ensures r < 4
  {
    Flag(m.forceSetMaskBit, 1) + Flag(m.preserveMaskedPixels, 2)
  }

  lemma LowFields(s: int, high: int, d: int, a: int, mask: int, mode: int)
    requires 0 <= a < 0x800 && 0 <= mask < 4 && 0 <= d < 2 && high >= 0
    requires s == 0x1_0000 * high + 0x8000 * d + a + 0x800 * mask + 0x2000 && mode == 0x8000 * d + a
    ensures s % 0x800 == mode % 0x800 && s / 0x800 % 4 == mask && mode / 0x8000 == d
    ensures s / 0x8000 % 2 == d && s / 0x800 % 0x10 == mask + 4 && s / 0x2000 == 1 + 4 * d + 8 * high
  {
    ModUnique(mode, 0x800, 0x10 * d, a);
    ModUnique(s, 0x800, 0x20 * high + 0x10 * d + mask + 4, a);
    ModUnique(s / 0x800, 4, 8 * high + 4 * d + 1, mask);
    ModUnique(s / 0x800, 0x10, 2 * high + d, mask + 4);
    ModUnique(s, 0x8000, 2 * high + d, a + 0x800 * mask + 0x2000);
    ModUnique(s / 0x8000, 2, high, d);
    ModUnique(s, 0x2000, 8 * high + 4 * d + 1, a + 0x800 * mask);
  }
}
