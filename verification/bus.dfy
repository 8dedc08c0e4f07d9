/** The bus: address decoding, the DMA register file and the DMA transfers. */
module BusModel {
  import opened Words
  import opened Outcomes
  import opened RamModel
  import opened MemoryMap
  import opened DmaModel
  import opened GpuModel
  import opened GpuStream

  const BIOS_SIZE := 512 * 1024

  type BiosBytes = s: seq<Byte> | |s| == BIOS_SIZE witness seq(BIOS_SIZE, _ => 0)

  datatype BusState = BusState(ram: RamBytes, bios: BiosBytes, dma: DmaState, gpu: GpuState)
  {
    predicate Valid() { dma.Valid() && gpu.Valid() }

    function WithChannel(p: nat, c: ChannelState): BusState
      requires p < |dma.channels|
    {
      this.(dma := dma.(channels := dma.channels[p := c]))
    }

    function Finish(p: nat): BusState
      requires p < |dma.channels|
    {
      WithChannel(p, dma.channels[p].Done())
    }

    /** No transfer is waiting to run. */
    predicate Quiet() { forall i :: 0 <= i < |dma.channels| ==> !dma.channels[i].Active() }
  }

  // ---- DMA addresses ----

  /** The mask the transfers put on every RAM address: 2 MB wrap, word aligned. */
  function RamAddr(a: int): (r: nat)
    ensures r + 4 <= RAM_SIZE && r % 4 == 0
  {
    a % 0x20_0000 / 4 * 4
  }

  lemma RamAddrIsMask(a: Word)
    ensures And(a, 0x1f_fffc) == RamAddr(a)
  {
    AndHalfDigit(a, a / 4, a % 4, 0x1f_fffc, 0x7_ffff, 0);
    Pow2Values();
    AndLowMask(a / 4, 19);
    AndNothing(a % 4);
    ModQuarter(a);
  }

  lemma RamAddrTwice(a: int)
    ensures RamAddr(RamAddr(a)) == RamAddr(a)
  {
    var x := a % 0x20_0000 / 4;
    ModUnique(4 * x, 0x20_0000, 0, 4 * x);
    ModUnique(4 * x, 4, x, 0);
  }

  lemma ModQuarter(a: nat)
    ensures a / 4 % 0x8_0000 == a % 0x20_0000 / 4
  {
    var q, r := a / 0x20_0000, a % 0x20_0000;
    ModUnique(a, 4, q * 0x8_0000 + r / 4, r % 4);
    ModUnique(a / 4, 0x8_0000, q, r / 4);
  }

  // ---- Block transfers ----

  function Stride(step: AddressStep): int { if step.Increment? then 4 else -4 }

  /** The words a block transfer reads. */
  function BlockWords(ram: RamBytes, base: Word, step: AddressStep, n: nat): seq<Word>
  {
    seq(n, i requires 0 <= i < n => Read32(ram, RamAddr(base + Stride(step) * i)))
  }

  /** The address register after one word: the decrement is an unsigned addition. */
  function Advance(addr: Word, step: AddressStep): (r: Word)
    ensures r == Wrap(addr + Stride(step))
  {
    Wrap(addr + if step.Increment? then 4 else 0xffff_fffc)
  }

  /** The link to the entry before `addr`. */
  function RamLink(addr: Word): (r: Word)
    ensures r == (addr - 4) % 0x20_0000
  {
    Wrap(addr - 4) % 0x20_0000
  }

  /** What the ordering-table port produces at `addr` with `left` entries to go. */
  function OtcEntry(addr: Word, left: nat): Word { if left == 1 then 0xff_ffff else RamLink(addr) }

  /** Memory after `n` ordering-table entries are written from `addr` on. */
  function OtcFill(ram: RamBytes, addr: Word, step: AddressStep, n: nat): RamBytes
    decreases n
  {
    if n == 0 then ram
    else OtcFill(Write32(ram, RamAddr(addr), OtcEntry(addr, n)), Advance(addr, step), step, n - 1)
  }

  function BlockTransfer(b: BusState, p: nat): (r: Outcome<BusState>)
    requires b.Valid() && p < 7
    ensures r.Running? ==> r.value.Valid()
  {
    var c := b.dma.channels[p];
    var n := c.TransferSize();
    if n == -1 then Stopped(Panic)
    else if n == 0 then Running(b.Finish(p))
    else if c.direction.FromRam? then
      if p != GPU_PORT then Stopped(Panic)
      else
        match Stream(b.gpu, BlockWords(b.ram, c.base, c.step, n))
        case Stopped(why) => Stopped(why)
        case Running(g) => Running(b.(gpu := g).Finish(p))
    else if p != OTC_PORT then Stopped(Panic)
    else Running(b.(ram := OtcFill(b.ram, c.base, c.step, n)).Finish(p))
  }

  // ---- Linked lists ----

  /** The words that follow the header at `addr`, with the 2 MB wrap. */
  function Packet(ram: RamBytes, addr: nat, n: nat): seq<Word>
  {
    seq(n, i requires 0 <= i < n => Read32(ram, RamAddr(addr + 4 * (i + 1))))
  }

  function Header(ram: RamBytes, addr: nat): Word { Read32(ram, RamAddr(addr)) }

  function PacketSize(header: Word): nat { header / 0x100_0000 }

  /** The end test: `!=` binds tighter than `&`, so it reads bit 0 and not bit 23. */
  predicate IsLast(header: Word) { header % 2 == 1 }

  function Next(header: Word): nat { RamAddr(header) }

  /** Follows the list for at most `fuel` headers, feeding each packet to GP0. */
  function Walk(ram: RamBytes, g: GpuState, addr: nat, fuel: nat): (r: Outcome<GpuState>)
    requires g.Valid()
    ensures r.Running? ==> r.value.Valid()
    decreases fuel
  {
    if fuel == 0 then Stopped(Endless)
    else
      var header := Header(ram, addr);
      match Stream(g, Packet(ram, addr, PacketSize(header)))
      case Stopped(why) => Stopped(why)
      case Running(g') => if IsLast(header) then Running(g') else Walk(ram, g', Next(header), fuel - 1)
  }

  /** Following the list for as long as it takes. */
  ghost function WalkList(ram: RamBytes, g: GpuState, addr: nat): (r: Outcome<GpuState>)
    requires g.Valid()
    ensures r.Running? ==> r.value.Valid()
  {
    if k: nat :| Walk(ram, g, addr, k) != Stopped(Endless) then Walk(ram, g, addr, k) else Stopped(Endless)
  }

  ghost function ListTransfer(b: BusState, p: nat): (r: Outcome<BusState>)
    requires b.Valid() && p < 7
    ensures r.Running? ==> r.value.Valid()
  {
    var c := b.dma.channels[p];
    if c.direction.ToRam? || p != GPU_PORT then Stopped(Panic)
    else
      match WalkList(b.ram, b.gpu, RamAddr(c.base))
      case Stopped(why) => Stopped(why)
      case Running(g) => Running(b.(gpu := g).Finish(p))
  }

  ghost function Transfer(b: BusState, p: nat): (r: Outcome<BusState>)
    requires b.Valid() && p < 7
    ensures r.Running? ==> r.value.Valid()
  {
    if b.dma.channels[p].sync.LinkedList? then ListTransfer(b, p) else BlockTransfer(b, p)
  }

  /** More fuel never changes an answer already reached. */
  lemma {:induction false} WalkStable(ram: RamBytes, g: GpuState, addr: nat, k: nat, k': nat)
    requires g.Valid() && k <= k'
    requires Walk(ram, g, addr, k) != Stopped(Endless)
    ensures Walk(ram, g, addr, k') == Walk(ram, g, addr, k)
    decreases k
  {
    hide RamAddr, Stream, GpuState.Valid, Packet, Read, PacketSize, IsLast;
    var header := Header(ram, addr);
    var fed := Stream(g, Packet(ram, addr, PacketSize(header)));
    if fed.Running? && !IsLast(header) {
      WalkStable(ram, fed.value, Next(header), k - 1, k' - 1);
    }
  }

  lemma WalkListIs(ram: RamBytes, g: GpuState, addr: nat, k: nat)
    requires g.Valid() && Walk(ram, g, addr, k) != Stopped(Endless)
    ensures WalkList(ram, g, addr) == Walk(ram, g, addr, k)
  {
    hide RamAddr, Stream, GpuState.Valid, Walk;
    var k' :| Walk(ram, g, addr, k') != Stopped(Endless) && WalkList(ram, g, addr) == Walk(ram, g, addr, k');
    if k <= k' { WalkStable(ram, g, addr, k, k'); } else { WalkStable(ram, g, addr, k', k); }
  }

  // ---- DMA registers ----

  function DmaRead(d: DmaState, offset: nat): Outcome<Word>
    requires d.Valid() && offset < 0x80
  {
    var major, minor := offset / 0x10, offset % 0x10;
    if major < 7 then
      if minor == 0 then Running(d.channels[major].base)
      else if minor == 4 then Running(d.channels[major].BlockControl())
      else if minor == 8 then Running(d.channels[major].Control())
      else Stopped(Panic)
    else if minor == 0 then Running(d.control)
    else if minor == 4 then Running(d.Interrupt())
    else Stopped(Panic)
  }

  /** A write to one of a channel's three registers, before anything is started. */
  function ChannelWrite(c: ChannelState, minor: nat, val: Word): (r: Outcome<ChannelState>)
    requires c.Valid()
    ensures r.Running? ==> r.value.Valid()
    ensures r.Stopped? ==> r.why.Panic?
  {
    if minor == 0 then Running(c.WithBase(val))
    else if minor == 4 then Running(c.WithBlockControl(val))
    else if minor == 8 then c.WithControl(val)
    else Stopped(Panic)
  }

  ghost function DmaWrite(b: BusState, offset: nat, val: Word): (r: Outcome<BusState>)
    requires b.Valid() && offset < 0x80
    ensures r.Running? ==> r.value.Valid()
  {
    var major, minor := offset / 0x10, offset % 0x10;
    if major < 7 then
      match ChannelWrite(b.dma.channels[major], minor, val)
      case Stopped(why) => Stopped(why)
      case Running(c) =>
        var b' := b.WithChannel(major, c);
        if c.Active() then Transfer(b', major) else Running(b')
    else if minor == 0 then Running(b.(dma := b.dma.(control := val)))
    else if minor == 4 then Running(b.(dma := b.dma.WithInterrupt(val)))
    else Stopped(Panic)
  }

  // ---- Loads and stores ----

  /** A device register that is only logged reads as zero. */
  function Load32(b: BusState, addr: Word): Outcome<Word>
    requires b.Valid()
  {
    var abs := MaskRegion(addr);
    match Find(abs)
    case None => Stopped(Panic)
    case Some(d) =>
      var offset := abs - RangeOf(d).base;
      match d
      case MainRam => if offset + 4 <= RAM_SIZE then Running(Read32(b.ram, offset)) else Stopped(OutOfBounds)
      case Bios => if offset + 4 <= BIOS_SIZE then Running(Read32(b.bios, offset)) else Stopped(OutOfBounds)
      case IrqControl | Timers => Running(0)
      case DmaRegs => DmaRead(b.dma, offset)
      case GpuRegs =>
        if offset == 0 then Running(0) else if offset == 4 then Running(b.gpu.regs.Status()) else Stopped(Panic)
      case _ => Stopped(Panic)
  }

  function Load16(b: BusState, addr: Word): Outcome<Half>
  {
    var abs := MaskRegion(addr);
    match Find(abs)
    case Some(MainRam) =>
      if abs + 2 <= RAM_SIZE then assert Pow256(2) == 0x1_0000; Running(Read(b.ram, abs, 2)) else Stopped(OutOfBounds)
    case Some(Spu) | Some(IrqControl) => Running(0)
    case _ => Stopped(Panic)
  }

  function Load8(b: BusState, addr: Word): Outcome<Byte>
  {
    var abs := MaskRegion(addr);
    match Find(abs)
    case Some(MainRam) => Running(b.ram[abs])
    case Some(Bios) => Running(b.bios[abs - RangeOf(Bios).base])
    case Some(Expansion1) => Running(0xff)
    case _ => Stopped(Panic)
  }

  ghost function Store32(b: BusState, addr: Word, val: Word): (r: Outcome<BusState>)
    requires b.Valid()
    ensures r.Running? ==> r.value.Valid()
  {
    var abs := MaskRegion(addr);
    match Find(abs)
    case None => Stopped(Panic)
    case Some(d) =>
      var offset := abs - RangeOf(d).base;
      match d
      case MainRam =>
        if offset + 4 <= RAM_SIZE then Running(b.(ram := Write32(b.ram, offset, val))) else Stopped(OutOfBounds)
      case MemControl =>
        if (offset == 0 && val != 0x1f00_0000) || (offset == 4 && val != 0x1f80_2000) then Stopped(Panic)
        else Running(b)
      case RamSize | CacheControl | IrqControl | Timers => Running(b)
      case DmaRegs => DmaWrite(b, offset, val)
      case GpuRegs =>
        var g := if offset == 0 then b.gpu.Gp0(val) else if offset == 4 then b.gpu.Gp1(val) else Stopped(Panic);
        if g.Stopped? then Stopped(g.why) else Running(b.(gpu := g.value))
      case _ => Stopped(Panic)
  }

  function Store16(b: BusState, addr: Word, val: Half): (r: Outcome<BusState>)
    requires b.Valid()
    ensures r.Running? ==> r.value.Valid()
  {
    var abs := MaskRegion(addr);
    match Find(abs)
    case Some(MainRam) =>
      if abs + 2 <= RAM_SIZE then Running(b.(ram := Write(b.ram, abs, 2, val))) else Stopped(OutOfBounds)
    case Some(Spu) | Some(Timers) | Some(IrqControl) => Running(b)
    case _ => Stopped(Panic)
  }

  function Store8(b: BusState, addr: Word, val: Byte): (r: Outcome<BusState>)
    requires b.Valid()
    ensures r.Running? ==> r.value.Valid()
  {
    var abs := MaskRegion(addr);
    match Find(abs)
    case Some(MainRam) => Running(b.(ram := Write(b.ram, abs, 1, val)))
    case Some(Expansion2) => Running(b)
    case _ => Stopped(Panic)
  }
}
