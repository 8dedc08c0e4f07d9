/** What sequences of DMA register writes do: quiescence, read-back, whole transfers. */
module DmaRuns {
  import opened Words
  import opened Outcomes
  import opened RamModel
  import opened DmaModel
  import opened RendererModel
  import opened GpuModel
  import opened GpuStream
  import opened BusModel
  import opened LinkedListProofs
  import opened OrderingTableProofs

  datatype RegWrite = RegWrite(offset: nat, val: Word)

  ghost function ApplyWrites(b: BusState, ws: seq<RegWrite>): (r: Outcome<BusState>)
    requires b.Valid() && forall i :: 0 <= i < |ws| ==> ws[i].offset < 0x80
    ensures r.Running? ==> r.value.Valid()
    decreases |ws|
  {
    if ws == [] then Running(b)
    else
      match DmaWrite(b, ws[0].offset, ws[0].val)
      case Stopped(why) => Stopped(why)
      case Running(b') => ApplyWrites(b', ws[1..])
  }

  /** A transfer that completes marks its own channel as done and touches no other register. */
  lemma TransferFinishes(b: BusState, p: nat)
    requires b.Valid() && p < 7 && Transfer(b, p).Running?
    ensures Transfer(b, p).value.dma == b.Finish(p).dma
    ensures Transfer(b, p).value.bios == b.bios
  {
    hide GpuState.Valid, Stream, BlockWords, OtcFill, WalkList, RamAddr, ChannelState.TransferSize;
  }

  /** No DMA register write leaves a transfer pending. */
  lemma WriteKeepsQuiet(b: BusState, offset: nat, val: Word)
    requires b.Valid() && offset < 0x80 && b.Quiet()
    requires DmaWrite(b, offset, val).Running?
    ensures DmaWrite(b, offset, val).value.Quiet()
  {
    hide GpuState.Valid, Transfer, ChannelWrite, DmaState.WithInterrupt;
    var major := offset / 0x10;
    if major < 7 {
      var c := ChannelWrite(b.dma.channels[major], offset % 0x10, val).value;
      if c.Active() {
        TransferFinishes(b.WithChannel(major, c), major);
      }
    } else {
      InterruptKeepsChannels(b.dma, val);
    }
  }

  lemma InterruptKeepsChannels(d: DmaState, val: Word)
    requires d.Valid()
    ensures d.WithInterrupt(val).channels == d.channels
  {
  }

  /** In every state reached by completed register writes, no channel is active. */
  lemma {:induction false} WritesKeepQuiet(b: BusState, ws: seq<RegWrite>)
    requires b.Valid() && (forall i :: 0 <= i < |ws| ==> ws[i].offset < 0x80)
    requires b.Quiet() && ApplyWrites(b, ws).Running?
    ensures ApplyWrites(b, ws).value.Quiet()
    decreases |ws|
  {
    hide GpuState.Valid, BusState.Quiet, DmaWrite;
    if ws != [] {
      WriteKeepsQuiet(b, ws[0].offset, ws[0].val);
      WritesKeepQuiet(DmaWrite(b, ws[0].offset, ws[0].val).value, ws[1..]);
    }
  }

  /** A control register reads back what was written, cut to the stored bits; and without
      bits 24 and 28 when the write started a transfer, which is over by then. */
  lemma ControlReadsBackOnBus(b: BusState, port: nat, val: Word)
    requires b.Valid() && port < 7
    requires DmaWrite(b, port * 0x10 + 8, val).Running?
    ensures var started := val / 0x100_0000 % 2 == 1 && (val / 0x200 % 4 == 0 ==> val / 0x1000_0000 % 2 == 1);
            DmaRead(DmaWrite(b, port * 0x10 + 8, val).value.dma, port * 0x10 + 8)
            == Running(And(val, if started then 0x6077_0703 else 0x7177_0703))
  {
    hide GpuState.Valid, Transfer, And, ChannelState.Control;
    PortOffset(port);
    var c := b.dma.channels[port];
    var c' := c.WithControl(val).value;
    ControlReadsBack(c, val);
    DoneReadsBack(c, val);
    if c'.Active() {
      TransferFinishes(b.WithChannel(port, c'), port);
    }
  }

  lemma PortOffset(port: nat)
    ensures (port * 0x10 + 8) / 0x10 == port && (port * 0x10 + 8) % 0x10 == 8
  {
  }

  // ---- Transfers to the GPU read as command streams ----

  /** A block transfer to an idle GPU runs its words as a batch of commands, taken from RAM
      at `base`, `base + 4`, ... or downwards, and changes nothing else. */
  lemma BlockIsBatch(b: BusState)
    requires b.Valid() && b.gpu.AtBoundary()
    requires var c := b.dma.channels[GPU_PORT]; c.direction.FromRam? && !c.sync.LinkedList?
    ensures var c := b.dma.channels[GPU_PORT];
            var fed := Batch(b.gpu, BlockWords(b.ram, c.base, c.step, c.TransferSize()));
            BlockTransfer(b, GPU_PORT)
            == if fed.Stopped? then Stopped(fed.why) else Running(b.(gpu := fed.value).Finish(GPU_PORT))
  {
    var c := b.dma.channels[GPU_PORT];
    RequestSizeNotSentinel(c);
    StreamIsBatch(b.gpu, BlockWords(b.ram, c.base, c.step, c.TransferSize()));
    hide GpuState.Valid, Batch, Stream, RamAddr;
    if c.TransferSize() == 0 {
      assert BlockWords(b.ram, c.base, c.step, 0) == [];
      NoWords(b.gpu);
    }
  }

  lemma NoWords(g: GpuState)
    requires g.Valid() && g.AtBoundary()
    ensures Batch(g, []) == Running(g)
  {
  }

  /** A linked-list transfer to an idle GPU whose list ends runs the joined packets as one
      batch of commands, leaves RAM alone and disables the channel. */
  lemma ListIsBatch(b: BusState, k: nat)
    requires b.Valid() && b.gpu.AtBoundary()
    requires var c := b.dma.channels[GPU_PORT]; c.direction.FromRam? && c.sync.LinkedList?
    requires EndsAfter(b.ram, RamAddr(b.dma.channels[GPU_PORT].base), k)
    ensures var fed := Batch(b.gpu, ListWords(b.ram, RamAddr(b.dma.channels[GPU_PORT].base), k));
            Transfer(b, GPU_PORT)
            == if fed.Stopped? then Stopped(fed.why) else Running(b.(gpu := fed.value).Finish(GPU_PORT))
  {
    var addr := RamAddr(b.dma.channels[GPU_PORT].base);
    hide GpuState.Valid, Batch, Stream, RamAddr, EndsAfter, ListWords, WalkList;
    StreamIsBatch(b.gpu, ListWords(b.ram, addr, k));
    ListFeeds(b.ram, b.gpu, addr, k);
  }

  /** A linked-list transfer to an idle GPU draws exactly the primitives of its list, in list
      order: the joined packets read as commands. */
  lemma ListDraws(b: BusState, k: nat)
    requires b.Valid() && b.gpu.AtBoundary()
    requires var c := b.dma.channels[GPU_PORT]; c.direction.FromRam? && c.sync.LinkedList?
    requires EndsAfter(b.ram, RamAddr(b.dma.channels[GPU_PORT].base), k)
    ensures Transfer(b, GPU_PORT).Running? ==>
            Transfer(b, GPU_PORT).value.gpu.renderer.Shown()
            == b.gpu.renderer.Shown() + Drawn(ListWords(b.ram, RamAddr(b.dma.channels[GPU_PORT].base), k))
  {
    hide GpuState.Valid, Batch, RamAddr, EndsAfter, ListWords, Transfer, Drawn, RenderState.Shown, GpuState.AtBoundary;
    ListIsBatch(b, k);
    BatchShows(b.gpu, ListWords(b.ram, RamAddr(b.dma.channels[GPU_PORT].base), k));
  }

  /** So does a block transfer with the words of its block. */
  lemma BlockDraws(b: BusState)
    requires b.Valid() && b.gpu.AtBoundary()
    requires var c := b.dma.channels[GPU_PORT]; c.direction.FromRam? && !c.sync.LinkedList?
    ensures var c := b.dma.channels[GPU_PORT];
            Transfer(b, GPU_PORT).Running? ==>
            Transfer(b, GPU_PORT).value.gpu.renderer.Shown()
            == b.gpu.renderer.Shown() + Drawn(BlockWords(b.ram, c.base, c.step, c.TransferSize()))
  {
    hide GpuState.Valid, Batch, BlockWords, BlockTransfer, ListTransfer, Drawn, RenderState.Shown, GpuState.AtBoundary;
    var c := b.dma.channels[GPU_PORT];
    RequestSizeNotSentinel(c);
    BlockIsBatch(b);
    BatchShows(b.gpu, BlockWords(b.ram, c.base, c.step, c.TransferSize()));
  }

  // ---- Building an ordering table and walking it ----

  lemma OtcClears(b: BusState, n: nat)
    requires b.Valid() && n >= 1
    requires var c := b.dma.channels[OTC_PORT];
             c.direction.ToRam? && !c.sync.LinkedList? && c.TransferSize() == n
    ensures var c := b.dma.channels[OTC_PORT];
            Transfer(b, OTC_PORT) == Running(b.(ram := OtcFill(b.ram, c.base, c.step, n)).Finish(OTC_PORT))
  {
    hide GpuState.Valid, OtcFill, ChannelState.TransferSize, Stream;
  }

  /** Walking a filled table completes without a word to the GPU. */
  lemma GpuWalks(b: BusState, ram: RamBytes, base: Word, n: nat)
    requires b.Valid() && n >= 1 && b.ram == OtcFill(ram, base, Decrement, n)
    requires var c := b.dma.channels[GPU_PORT];
             c.direction.FromRam? && c.sync.LinkedList? && RamAddr(c.base) == RamAddr(base)
    ensures EndsAfter(b.ram, RamAddr(base), Links(base, n))
    ensures ListWords(b.ram, RamAddr(base), Links(base, n)) == []
    ensures Transfer(b, GPU_PORT) == Running(b.Finish(GPU_PORT))
  {
    hide GpuState.Valid, OtcFill, RamAddr, EndsAfter, ListWords, Links, WalkList;
    TableEnds(ram, base, n);
    ListFeeds(b.ram, b.gpu, RamAddr(base), Links(base, n));
    assert Stream(b.gpu, []) == Running(b.gpu);
  }

  /** The clearing transfer followed by a linked-list transfer from the same base: the walk
      always ends, its list holds no word for the GPU, and it changes nothing in memory; it
      visits exactly the `n` entries, downwards from the base, if and only if the table fits in
      memory and has an even base, or has a single entry; and the clearing changes no byte
      outside the table. */
  lemma BuildThenWalk(b: BusState, base: Word, n: nat)
    requires b.Valid() && n >= 1
    requires var c := b.dma.channels[OTC_PORT];
             c.direction.ToRam? && c.step.Decrement? && !c.sync.LinkedList? && c.TransferSize() == n && c.base == base
    requires var c := b.dma.channels[GPU_PORT];
             c.direction.FromRam? && c.sync.LinkedList? && RamAddr(c.base) == RamAddr(base)
    ensures var b1 := b.(ram := OtcFill(b.ram, base, Decrement, n)).Finish(OTC_PORT);
            && Transfer(b, OTC_PORT) == Running(b1)
            && Transfer(b1, GPU_PORT) == Running(b1.Finish(GPU_PORT))
            && EndsAfter(b1.ram, RamAddr(base), Links(base, n))
            && ListWords(b1.ram, RamAddr(base), Links(base, n)) == []
            && (EndsAfter(b1.ram, RamAddr(base), n - 1)
                && (forall j :: 0 <= j < n ==> HeaderAddr(b1.ram, RamAddr(base), j) == Slot(base, j))
                <==> (base % 2 == 0 && n <= RAM_WORDS) || n == 1)
    ensures forall q :: 0 <= q < RAM_SIZE && (forall i :: 0 <= i < n ==> RamAddr(q) != Slot(base, i))
              ==> OtcFill(b.ram, base, Decrement, n)[q] == b.ram[q]
  {
    hide GpuState.Valid, OtcFill, RamAddr, EndsAfter, ChannelState.TransferSize, Slot, Links, Transfer, HeaderAddr,
         ListWords;
    VisitsEveryEntry(b.ram, base, n);
    OtcClears(b, n);
    GpuWalks(b.(ram := OtcFill(b.ram, base, Decrement, n)).Finish(OTC_PORT), b.ram, base, n);
    TableFrame(b.ram, base, n);
  }

  lemma TableFrame(ram: RamBytes, base: Word, n: nat)
    ensures forall q :: 0 <= q < RAM_SIZE && (forall i :: 0 <= i < n ==> RamAddr(q) != Slot(base, i))
              ==> OtcFill(ram, base, Decrement, n)[q] == ram[q]
  {
    hide OtcFill, RamAddr, Slot, Cell;
    forall q | 0 <= q < RAM_SIZE && forall i :: 0 <= i < n ==> RamAddr(q) != Slot(base, i)
      ensures OtcFill(ram, base, Decrement, n)[q] == ram[q]
    {
      forall i | 0 <= i < n
        ensures !(Cell(base, Decrement, i) <= q < Cell(base, Decrement, i) + 4)
      {
        assert RamAddr(q) != Slot(base, i);
        SlotIsCell(base, i);
        InWord(q, base, i);
      }
      FillElsewhere(ram, base, Decrement, n, q);
    }
  }

  lemma InWord(q: nat, base: Word, i: nat)
    requires q < RAM_SIZE
    ensures Slot(base, i) <= q < Slot(base, i) + 4 ==> RamAddr(q) == Slot(base, i)
  {
    if Slot(base, i) <= q < Slot(base, i) + 4 {
      ModUnique(q, 4, Slot(base, i) / 4, q - Slot(base, i));
    }
  }

  /** The register writes with which a program clears an ordering table of `n` entries whose
      head is at `base`, and then sends it to the GPU. */
  function TableProgram(base: Word, n: Half): seq<RegWrite>
  {
    [RegWrite(0x60, base), RegWrite(0x64, n), RegWrite(0x68, 0x1100_0002),
     RegWrite(0x20, base), RegWrite(0x28, 0x0100_0401)]
  }

  /** From any quiet state the whole program completes: no transfer panics or hangs, the GPU
      is untouched, and the table in memory is a list that ends. */
  lemma TableProgramRuns(b: BusState, base: Word, n: Half)
    requires b.Valid() && b.Quiet() && n >= 1
    ensures var r := ApplyWrites(b, TableProgram(base, n));
            && r.Running? && r.value.Quiet() && r.value.gpu == b.gpu
            && r.value.ram == OtcFill(b.ram, base % 0x100_0000, Decrement, n)
            && EndsAfter(r.value.ram, RamAddr(base % 0x100_0000), Links(base % 0x100_0000, n))
  {
    hide GpuState.Valid, OtcFill, RamAddr, EndsAfter, Links, DmaWrite;
    var b1, b2, b3 := ClearPhase(b, base, n);
    var b4, b5 := WalkPhase(b3, b.ram, base, n);
    FiveWrites(b, b1, b2, b3, b4, b5, TableProgram(base, n));
  }

  lemma ClearPhase(b: BusState, base: Word, n: Half) returns (b1: BusState, b2: BusState, b3: BusState)
    requires b.Valid() && b.Quiet() && n >= 1
    ensures b1.Valid() && b2.Valid() && b3.Valid() && b3.Quiet()
    ensures DmaWrite(b, 0x60, base) == Running(b1)
    ensures DmaWrite(b1, 0x64, n) == Running(b2)
    ensures DmaWrite(b2, 0x68, 0x1100_0002) == Running(b3)
    ensures b3.gpu == b.gpu && b3.ram == OtcFill(b.ram, base % 0x100_0000, Decrement, n)
  {
    hide GpuState.Valid, OtcFill, DmaWrite, Transfer;
    b1 := SetUp(b, OTC_PORT, 0, base);
    b2 := SetUp(b1, OTC_PORT, 4, n);
    var started := Start(b2, OTC_PORT, 0x1100_0002);
    OtcClears(started, n);
    b3 := started.(ram := OtcFill(b.ram, base % 0x100_0000, Decrement, n)).Finish(OTC_PORT);
    WriteKeepsQuiet(b2, 0x68, 0x1100_0002);
  }

  lemma WalkPhase(b: BusState, ram: RamBytes, base: Word, n: Half) returns (b1: BusState, b2: BusState)
    requires b.Valid() && b.Quiet() && n >= 1 && b.ram == OtcFill(ram, base % 0x100_0000, Decrement, n)
    ensures b1.Valid() && b2.Valid() && b2.Quiet()
    ensures DmaWrite(b, 0x20, base) == Running(b1)
    ensures DmaWrite(b1, 0x28, 0x0100_0401) == Running(b2)
    ensures b2.gpu == b.gpu && b2.ram == b.ram
    ensures EndsAfter(b.ram, RamAddr(base % 0x100_0000), Links(base % 0x100_0000, n))
  {
    hide GpuState.Valid, OtcFill, RamAddr, EndsAfter, Links, DmaWrite, Transfer;
    b1 := SetUp(b, GPU_PORT, 0, base);
    var started := Start(b1, GPU_PORT, 0x0100_0401);
    GpuWalks(started, ram, base % 0x100_0000, n);
    b2 := started.Finish(GPU_PORT);
    WriteKeepsQuiet(b1, 0x28, 0x0100_0401);
  }

  lemma FiveWrites(b: BusState, b1: BusState, b2: BusState, b3: BusState, b4: BusState, b5: BusState, ws: seq<RegWrite>)
    requires |ws| == 5 && (forall i :: 0 <= i < |ws| ==> ws[i].offset < 0x80)
    requires b.Valid() && b1.Valid() && b2.Valid() && b3.Valid() && b4.Valid()
    requires DmaWrite(b, ws[0].offset, ws[0].val) == Running(b1)
    requires DmaWrite(b1, ws[1].offset, ws[1].val) == Running(b2)
    requires DmaWrite(b2, ws[2].offset, ws[2].val) == Running(b3)
    requires DmaWrite(b3, ws[3].offset, ws[3].val) == Running(b4)
    requires DmaWrite(b4, ws[4].offset, ws[4].val) == Running(b5)
    ensures ApplyWrites(b, ws) == Running(b5)
  {
    hide DmaWrite, BusState.Valid;
    assert b5.Valid();
    assert ApplyWrites(b5, ws[5..]) == Running(b5);
    assert ws[4..][0] == ws[4] && ws[4..][1..] == ws[5..];
    assert ApplyWrites(b4, ws[4..]) == Running(b5);
    assert ws[3..][0] == ws[3] && ws[3..][1..] == ws[4..];
    assert ApplyWrites(b3, ws[3..]) == Running(b5);
    assert ws[2..][0] == ws[2] && ws[2..][1..] == ws[3..];
    assert ApplyWrites(b2, ws[2..]) == Running(b5);
    assert ws[1..][0] == ws[1] && ws[1..][1..] == ws[2..];
    assert ApplyWrites(b1, ws[1..]) == Running(b5);
  }

  /** A base or block-control write in a quiet state only stores its value. */
  lemma SetUp(b: BusState, port: nat, minor: nat, val: Word) returns (b': BusState)
    requires b.Valid() && b.Quiet() && port < 7 && (minor == 0 || minor == 4)
    ensures DmaWrite(b, port * 0x10 + minor, val) == Running(b') && b'.Valid() && b'.Quiet()
    ensures var c := b.dma.channels[port];
            b' == b.WithChannel(port, if minor == 0 then c.WithBase(val) else c.WithBlockControl(val))
  {
    hide GpuState.Valid, Transfer;
    assert (port * 0x10 + minor) / 0x10 == port && (port * 0x10 + minor) % 0x10 == minor;
    var c := b.dma.channels[port];
    b' := b.WithChannel(port, if minor == 0 then c.WithBase(val) else c.WithBlockControl(val));
  }

  /** A control write that activates the channel runs the transfer. */
  lemma Start(b: BusState, port: nat, val: Word) returns (b': BusState)
    requires b.Valid() && port < 7
    requires val / 0x200 % 4 != 3
    requires val / 0x100_0000 % 2 == 1 && (val / 0x200 % 4 == 0 ==> val / 0x1000_0000 % 2 == 1)
    ensures b'.Valid() && b' == b.WithChannel(port, b.dma.channels[port].WithControl(val).value)
    ensures DmaWrite(b, port * 0x10 + 8, val) == Transfer(b', port)
  {
    hide GpuState.Valid, Transfer;
    PortOffset(port);
    b' := b.WithChannel(port, b.dma.channels[port].WithControl(val).value);
  }
}
