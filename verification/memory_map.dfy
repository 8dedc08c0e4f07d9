/** The physical address map and the virtual segments laid over it. */
module MemoryMap {
  import opened Words
  import opened Outcomes

  datatype Device =
    | Bios | MemControl | RamSize | CacheControl | MainRam | Spu
    | Expansion1 | Expansion2 | IrqControl | Timers | DmaRegs | GpuRegs

  datatype Range = Range(base: Word, size: Word)
  {
    predicate Holds(abs: Word) { base <= abs < base + size }
  }

  function RangeOf(d: Device): Range
  {
    match d
    case Bios => Range(0x1fc0_0000, 512 * 1024)
    case MemControl => Range(0x1f80_1000, 36)
    case RamSize => Range(0x1f80_1060, 4)
    case CacheControl => Range(0xfffe_0130, 4)
    case MainRam => Range(0, 2 * 1024 * 1024)
    case Spu => Range(0x1f80_1c00, 640)
    case Expansion1 => Range(0x1f00_0000, 512 * 1024)
    case Expansion2 => Range(0x1f80_2000, 66)
    case IrqControl => Range(0x1f80_1070, 8)
    case Timers => Range(0x1f80_1100, 0x30)
    case DmaRegs => Range(0x1f80_1080, 0x80)
    case GpuRegs => Range(0x1f80_1810, 8)
  }

  /** Offset of `abs` inside the device's range, or -1 outside it. */
  function Contains(abs: Word, d: Device): int
  {
    if RangeOf(d).Holds(abs) then abs - RangeOf(d).base else -1
  }

  const REGION_MASK: seq<Word> := [
    0xffff_ffff, 0xffff_ffff, 0xffff_ffff, 0xffff_ffff,
    0x7fff_ffff,
    0x1fff_ffff,
    0xffff_ffff, 0xffff_ffff]

  /** Strips the segment bits of a CPU address. */
  function MaskRegion(addr: Word): (abs: Word)
    ensures abs == if 0x8000_0000 <= addr < 0xa000_0000 then addr - 0x8000_0000
                   else if 0xa000_0000 <= addr < 0xc000_0000 then addr - 0xa000_0000
                   else addr
  {
    MaskValues(addr);
    And(addr, REGION_MASK[addr / 0x2000_0000])
  }

  lemma MaskValues(addr: Word)
    ensures And(addr, 0xffff_ffff) == addr
    ensures And(addr, 0x7fff_ffff) == addr % 0x8000_0000
    ensures And(addr, 0x1fff_ffff) == addr % 0x2000_0000
  {
    hide And;
    Pow2Values();
    AndLowMask(addr, 32);
    AndLowMask(addr, 31);
    AndLowMask(addr, 29);
    assert Pow2(29) == 0x2000_0000;
  }

  /** No address belongs to two devices. */
  lemma RangesDisjoint(d: Device, e: Device, abs: Word)
    requires RangeOf(d).Holds(abs) && RangeOf(e).Holds(abs)
    ensures d == e
  {
    Families(d, abs);
    Families(e, abs);
  }

  /** Which range an address can lie in, from the address alone. */
  lemma Families(d: Device, abs: Word)
    requires RangeOf(d).Holds(abs)
    ensures Find(abs) == Some(d)
  {
    match d
    case Bios =>
    case MemControl =>
    case RamSize =>
    case CacheControl =>
    case MainRam =>
    case Spu =>
    case Expansion1 =>
    case Expansion2 =>
    case IrqControl =>
    case Timers =>
    case DmaRegs =>
    case GpuRegs =>
  }

  /** The device an absolute address selects. */
  function Find(abs: Word): (r: Option<Device>)
    ensures r.Some? ==> RangeOf(r.value).Holds(abs)
  {
    if RangeOf(MainRam).Holds(abs) then Some(MainRam)
    else if RangeOf(Bios).Holds(abs) then Some(Bios)
    else if RangeOf(MemControl).Holds(abs) then Some(MemControl)
    else if RangeOf(RamSize).Holds(abs) then Some(RamSize)
    else if RangeOf(CacheControl).Holds(abs) then Some(CacheControl)
    else if RangeOf(Spu).Holds(abs) then Some(Spu)
    else if RangeOf(Expansion1).Holds(abs) then Some(Expansion1)
    else if RangeOf(Expansion2).Holds(abs) then Some(Expansion2)
    else if RangeOf(IrqControl).Holds(abs) then Some(IrqControl)
    else if RangeOf(Timers).Holds(abs) then Some(Timers)
    else if RangeOf(DmaRegs).Holds(abs) then Some(DmaRegs)
    else if RangeOf(GpuRegs).Holds(abs) then Some(GpuRegs)
    else None
  }

  /** A chain of range tests, tried in the given order. */
  function FirstMatch(order: seq<Device>, abs: Word): Option<Device>
  {
    if order == [] then None
    else if Contains(abs, order[0]) != -1 then Some(order[0])
    else FirstMatch(order[1..], abs)
  }

  /** The order of the tests never matters: only which devices are tested does. */
  lemma {:induction false} DispatchOrderIrrelevant(order: seq<Device>, abs: Word)
    ensures FirstMatch(order, abs)
         == if Find(abs).Some? && Find(abs).value in order then Find(abs) else None
  {
    if order != [] {
      DispatchOrderIrrelevant(order[1..], abs);
      if Contains(abs, order[0]) != -1 {
        Families(order[0], abs);
      }
      assert order == [order[0]] + order[1..];
    }
  }

  /** Main memory is seen at three places, and nowhere else: the same 2 MB in KUSEG,
      KSEG0 and KSEG1. */
  lemma RamAliases(addr: Word)
    ensures Contains(MaskRegion(addr), MainRam) != -1 <==>
            addr < 0x20_0000 || 0x8000_0000 <= addr < 0x8020_0000 || 0xa000_0000 <= addr < 0xa020_0000
    ensures Contains(MaskRegion(addr), MainRam) != -1 ==>
            Contains(MaskRegion(addr), MainRam) == addr % 0x20_0000
  {
    var abs := MaskRegion(addr);
    assert addr < 0x20_0000 ==> abs % 0x20_0000 == abs;
  }
}
