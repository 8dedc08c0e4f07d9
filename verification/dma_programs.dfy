/** DMA transfers stated from the register words that start them. */
module DmaPrograms {
  import opened Words
  import opened Outcomes
  import opened RamModel
  import opened DmaModel
  import opened GpuModel
  import opened GpuStream
  import opened BusModel
  import opened DmaRuns

  // ---- The fields of the registers ----

  /** How many words block-control word `bc` asks for: one block in manual mode, and in request
      mode as many blocks as its upper half says. */
  function WordsAsked(bc: Word, ctl: Word): nat
  {
    if ctl / 0x200 % 4 == 0 then bc % 0x1_0000
    else
      Product(bc % 0x1_0000, bc / 0x1_0000, 0xffff, 0xffff);
      (bc % 0x1_0000) * (bc / 0x1_0000)
  }

  /** The control word starts its channel at once. */
  predicate Starts(ctl: Word)
  {
    ctl / 0x100_0000 % 2 == 1 && (ctl / 0x200 % 4 == 0 ==> ctl / 0x1000_0000 % 2 == 1)
  }

  /** What the channel is told by the two words. */
  lemma ChannelTold(c: ChannelState, bc: Word, ctl: Word)
    requires c.Valid() && ctl / 0x200 % 4 != 3
    ensures c.WithBlockControl(bc).Valid() && c.WithBlockControl(bc).WithControl(ctl).Running?
    ensures var c' := c.WithBlockControl(bc).WithControl(ctl).value;
            && (c'.direction.FromRam? <==> ctl % 2 == 1) && (c'.step.Decrement? <==> ctl / 2 % 2 == 1)
            && (c'.sync.LinkedList? <==> ctl / 0x200 % 4 == 2) && c'.base == c.base
            && (c'.Active() <==> Starts(ctl))
            && (ctl / 0x200 % 4 != 2 ==> c'.TransferSize() == WordsAsked(bc, ctl))
  {
    var bs: int, n: int := bc % 0x1_0000, bc / 0x1_0000;
    assert n * bs == bs * n;
  }

  // ---- Block transfers ----

  /** The words of memory at `base`, `base + 4`, ..., or downwards. */
  function MemoryWords(ram: RamBytes, base: Word, down: bool, n: nat): (ws: seq<Word>)
    ensures |ws| == n
    ensures forall i :: 0 <= i < n ==> ws[i] == Read32(ram, RamAddr(if down then base - 4 * i else base + 4 * i))
  {
    seq(n, i requires 0 <= i < n => Read32(ram, RamAddr(if down then base - 4 * i else base + 4 * i)))
  }

  lemma MemoryWordsAre(ram: RamBytes, base: Word, step: AddressStep, n: nat)
    ensures BlockWords(ram, base, step, n) == MemoryWords(ram, base, step.Decrement?, n)
  {
    hide RamAddr, Read;
    assert forall i {:trigger Stride(step) * i} :: Stride(step) * i == if step.Decrement? then -4 * i else 4 * i;
  }

  function Program(port: nat, base: Word, bc: Word, ctl: Word): seq<RegWrite>
    requires port < 7
  {
    [RegWrite(port * 0x10, base), RegWrite(port * 0x10 + 4, bc), RegWrite(port * 0x10 + 8, ctl)]
  }

  /** The three writes, down to the transfer that the last one starts. */
  lemma ProgramStarts(b: BusState, port: nat, base: Word, bc: Word, ctl: Word) returns (b': BusState)
    requires b.Valid() && b.Quiet() && port < 7 && ctl / 0x200 % 4 != 3 && Starts(ctl)
    ensures b'.Valid() && b'.ram == b.ram && b'.gpu == b.gpu && b'.bios == b.bios
    ensures b' == b.WithChannel(port, b'.dma.channels[port])
    ensures b'.dma.channels[port]
         == b.dma.channels[port].WithBase(base).WithBlockControl(bc).WithControl(ctl).value
    ensures ApplyWrites(b, Program(port, base, bc, ctl)) == Transfer(b', port)
  {
    hide GpuState.Valid, Transfer, DmaWrite, ChannelState.WithControl;
    var b1 := SetUp(b, port, 0, base);
    var b2 := SetUp(b1, port, 4, bc);
    b' := Start(b2, port, ctl);
    ThreeWrites(b, b1, b2, Program(port, base, bc, ctl));
  }

  lemma ThreeWrites(b: BusState, b1: BusState, b2: BusState, ws: seq<RegWrite>)
    requires |ws| == 3 && (forall i :: 0 <= i < |ws| ==> ws[i].offset < 0x80)
    requires b.Valid() && b1.Valid() && b2.Valid()
    requires DmaWrite(b, ws[0].offset, ws[0].val) == Running(b1)
    requires DmaWrite(b1, ws[1].offset, ws[1].val) == Running(b2)
    ensures ApplyWrites(b, ws) == DmaWrite(b2, ws[2].offset, ws[2].val)
  {
    hide DmaWrite, BusState.Valid;
    var last := DmaWrite(b2, ws[2].offset, ws[2].val);
    assert last.Running? ==> ApplyWrites(last.value, ws[3..]) == last;
    assert ws[2..][0] == ws[2] && ws[2..][1..] == ws[3..];
    assert ApplyWrites(b2, ws[2..]) == last;
    assert ws[1..][0] == ws[1] && ws[1..][1..] == ws[2..];
    assert ApplyWrites(b1, ws[1..]) == last;
  }

  /** Base, block control and a starting control word, written to the GPU's channel in block mode
      and direction from memory: the GPU gets exactly the words asked for, from memory at the
      base and on upwards or downwards; memory stays, and no channel is left active. */
  lemma GpuBlockProgram(b: BusState, base: Word, bc: Word, ctl: Word)
    requires b.Valid() && b.Quiet() && Starts(ctl) && ctl / 0x200 % 4 < 2 && ctl % 2 == 1
    ensures var fed := Stream(b.gpu, MemoryWords(b.ram, base % 0x100_0000, ctl / 2 % 2 == 1, WordsAsked(bc, ctl)));
            var r := ApplyWrites(b, Program(2, base, bc, ctl));
            if fed.Stopped? then r == Stopped(fed.why)
            else r.Running? && r.value.gpu == fed.value && r.value.ram == b.ram && r.value.Quiet()
  {
    hide GpuState.Valid, Stream, RamAddr, Read, MemoryWords, BlockWords, ChannelState.WithControl,
         ChannelState.TransferSize, WordsAsked, Starts, ChannelState.WithBlockControl;
    var b' := ProgramStarts(b, 2, base, bc, ctl);
    ChannelTold(b.dma.channels[2].WithBase(base), bc, ctl);
    var c := b'.dma.channels[2];
    MemoryWordsAre(b.ram, c.base, c.step, WordsAsked(bc, ctl));
    BlockRuns(b');
    QuietAfter(b, Program(2, base, bc, ctl));
  }

  lemma QuietAfter(b: BusState, ws: seq<RegWrite>)
    requires b.Valid() && b.Quiet() && forall i :: 0 <= i < |ws| ==> ws[i].offset < 0x80
    ensures ApplyWrites(b, ws).Running? ==> ApplyWrites(b, ws).value.Quiet()
  {
    hide BusState.Valid, BusState.Quiet, DmaWrite, ApplyWrites;
    if ApplyWrites(b, ws).Running? { WritesKeepQuiet(b, ws); }
  }

  /** A block transfer to the GPU, of no word or of some. */
  lemma BlockRuns(b: BusState)
    requires b.Valid()
    requires var c := b.dma.channels[GPU_PORT]; c.direction.FromRam? && !c.sync.LinkedList?
    ensures var c := b.dma.channels[GPU_PORT];
            c.TransferSize() >= 0 &&
            var fed := Stream(b.gpu, BlockWords(b.ram, c.base, c.step, c.TransferSize()));
            Transfer(b, GPU_PORT)
            == if fed.Stopped? then Stopped(fed.why) else Running(b.(gpu := fed.value).Finish(GPU_PORT))
  {
    var c := b.dma.channels[GPU_PORT];
    RequestSizeNotSentinel(c);
    hide GpuState.Valid, Stream, RamAddr, ChannelState.TransferSize;
    if c.TransferSize() == 0 {
      assert BlockWords(b.ram, c.base, c.step, 0) == [];
      StreamOfNone(b.gpu);
    }
  }

  lemma StreamOfNone(g: GpuState)
    requires g.Valid()
    ensures Stream(g, []) == Running(g)
  {
  }

  /** The same three writes to the clearing channel, in direction to memory: the table has as many
      entries as the words say, and the GPU stays as it was. */
  lemma ClearProgram(b: BusState, base: Word, bc: Word, ctl: Word)
    requires b.Valid() && b.Quiet() && Starts(ctl) && ctl / 0x200 % 4 < 2 && ctl % 2 == 0
    ensures var step := if ctl / 2 % 2 == 1 then Decrement else Increment;
            var r := ApplyWrites(b, Program(6, base, bc, ctl));
            && r.Running? && r.value.gpu == b.gpu && r.value.Quiet()
            && r.value.ram == OtcFill(b.ram, base % 0x100_0000, step, WordsAsked(bc, ctl))
  {
    hide GpuState.Valid, OtcFill, ChannelState.WithControl, ChannelState.TransferSize, WordsAsked, Starts,
         ChannelState.WithBlockControl, Transfer;
    var b' := ProgramStarts(b, 6, base, bc, ctl);
    ChannelTold(b.dma.channels[6].WithBase(base), bc, ctl);
    ClearRuns(b');
    QuietAfter(b, Program(6, base, bc, ctl));
  }

  lemma ClearRuns(b: BusState)
    requires b.Valid()
    requires var c := b.dma.channels[OTC_PORT]; c.direction.ToRam? && !c.sync.LinkedList?
    ensures var c := b.dma.channels[OTC_PORT];
            c.TransferSize() >= 0 &&
            Transfer(b, OTC_PORT)
            == Running(b.(ram := OtcFill(b.ram, c.base, c.step, c.TransferSize())).Finish(OTC_PORT))
  {
    var c := b.dma.channels[OTC_PORT];
    RequestSizeNotSentinel(c);
    hide GpuState.Valid, ChannelState.TransferSize, RamAddr;
  }

  // ---- The writes that panic ----

  /** Which control words panic on which channel: the undefined mode always; a list anywhere but
      on the GPU's channel from memory; and a block of at least one word that is neither from
      memory to the GPU nor a clearing. No other control word panics before a word is moved. */
  lemma ControlPanics(b: BusState, port: nat, base: Word, bc: Word, ctl: Word)
    requires b.Valid() && b.Quiet() && port < 7
    ensures var r, sync, from := ApplyWrites(b, Program(port, base, bc, ctl)), ctl / 0x200 % 4, ctl % 2 == 1;
            && (sync == 3 ==> r == Stopped(Panic))
            && (sync != 3 && !Starts(ctl) ==> r.Running? && r.value.ram == b.ram && r.value.gpu == b.gpu)
            && (sync == 2 && Starts(ctl) && !(port == 2 && from) ==> r == Stopped(Panic))
            && (sync < 2 && Starts(ctl) && WordsAsked(bc, ctl) > 0 && !(if from then port == 2 else port == 6) ==>
                  r == Stopped(Panic))
            && (sync < 2 && Starts(ctl) && WordsAsked(bc, ctl) == 0 ==>
                  r.Running? && r.value.ram == b.ram && r.value.gpu == b.gpu)
  {
    hide GpuState.Valid, OtcFill, Stream, ChannelState.TransferSize, WordsAsked, Starts, RamAddr, DmaWrite, ApplyWrites,
         BlockWords, ChannelState.WithControl, ChannelState.WithBlockControl, ChannelState.Active, WalkList;
    if ctl / 0x200 % 4 != 3 { ChannelTold(b.dma.channels[port].WithBase(base), bc, ctl); }
    if ctl / 0x200 % 4 != 3 && Starts(ctl) {
      var b' := ProgramStarts(b, port, base, bc, ctl);
    } else {
      NothingStarts(b, port, base, bc, ctl);
    }
  }

  lemma NothingStarts(b: BusState, port: nat, base: Word, bc: Word, ctl: Word)
    requires b.Valid() && b.Quiet() && port < 7 && (ctl / 0x200 % 4 == 3 || !Starts(ctl))
    ensures var r := ApplyWrites(b, Program(port, base, bc, ctl));
            if ctl / 0x200 % 4 == 3 then r == Stopped(Panic)
            else r.Running? && r.value.ram == b.ram && r.value.gpu == b.gpu
  {
    hide GpuState.Valid, Transfer, DmaWrite, ApplyWrites, Starts;
    var b1 := SetUp(b, port, 0, base);
    var b2 := SetUp(b1, port, 4, bc);
    ThreeWrites(b, b1, b2, Program(port, base, bc, ctl));
    ControlOnly(b2, port, ctl);
  }

  lemma ControlOnly(b: BusState, port: nat, ctl: Word)
    requires b.Valid() && port < 7 && (ctl / 0x200 % 4 == 3 || !Starts(ctl))
    ensures var r := DmaWrite(b, port * 0x10 + 8, ctl);
            if ctl / 0x200 % 4 == 3 then r == Stopped(Panic)
            else r.Running? && r.value.ram == b.ram && r.value.gpu == b.gpu
  {
    PortOffset(port);
    hide GpuState.Valid, Transfer;
  }

  // ---- Reading back ----

  /** The base reads back without its top byte, the block control and the common control word as
      written; reading any other offset panics, as does writing it. */
  lemma RegistersReadBack(b: BusState, port: nat, val: Word)
    requires b.Valid() && b.Quiet() && port < 7
    ensures var r := DmaWrite(b, port * 0x10, val);
            r.Running? && DmaRead(r.value.dma, port * 0x10) == Running(val % 0x100_0000)
    ensures var r := DmaWrite(b, port * 0x10 + 4, val);
            r.Running? && DmaRead(r.value.dma, port * 0x10 + 4) == Running(val)
    ensures var r := DmaWrite(b, 0x70, val); r.Running? && DmaRead(r.value.dma, 0x70) == Running(val)
    ensures var r := DmaWrite(b, 0x74, val);
            r.Running? && DmaRead(r.value.dma, 0x74)
                          == Running(val % 0x40 + val / 0x8000 % 0x200 * 0x8000 + val / 0x8000 % 2 * 0x8000_0000)
  {
    hide GpuState.Valid, Transfer, DmaState.WithInterrupt, DmaState.Interrupt;
    var b1 := SetUp(b, port, 0, val);
    var b2 := SetUp(b, port, 4, val);
    assert port * 0x10 / 0x10 == port && port * 0x10 % 0x10 == 0;
    assert (port * 0x10 + 4) / 0x10 == port && (port * 0x10 + 4) % 0x10 == 4;
    InterruptReadsBack(b.dma, val);
  }

  lemma OtherOffsetsPanic(b: BusState, offset: nat, val: Word)
    requires b.Valid() && offset < 0x80
    requires offset % 0x10 !in {0, 4, 8} || offset == 0x78
    ensures DmaRead(b.dma, offset) == Stopped(Panic) && DmaWrite(b, offset, val) == Stopped(Panic)
  {
    hide GpuState.Valid, Transfer;
  }
}
