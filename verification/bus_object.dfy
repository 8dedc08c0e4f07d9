/** The bus object: it owns RAM, the DMA controller and the GPU, and runs the transfers in place. */
module BusObject {
  import opened Words
  import opened Outcomes
  import opened RamModel
  import opened MemoryMap
  import opened DmaModel
  import opened GpuModel
  import opened GpuStream
  import opened BusModel

  lemma PacketLength(m: RamBytes, header: nat, size: nat)
    ensures |Packet(m, header, size)| == size
    ensures header == RamAddr(header) ==> PacketAddr(header, 0) == header
  {
  }

  /** The address reached after `i` words of the packet at `header`. */
  function PacketAddr(header: nat, i: nat): nat { RamAddr(header + 4 * i) }

  lemma PacketAt(m: RamBytes, header: nat, size: nat, i: nat)
    requires i < size
    ensures PacketAddr(header, i + 1) == RamAddr(PacketAddr(header, i) + 4)
    ensures |Packet(m, header, size)| == size
    ensures Packet(m, header, size)[i] == Read(m, PacketAddr(header, i + 1), 4)
  {
    NextRamAddr(header + 4 * i);
    hide RamAddr, Read;
    assert header + 4 * (i + 1) == header + 4 * i + 4;
  }

  lemma BlockLength(m: RamBytes, base: Word, step: AddressStep, size: nat)
    ensures |BlockWords(m, base, step, size)| == size
  {
  }

  lemma BlockWordAt(m: RamBytes, base: Word, step: AddressStep, size: nat, i: nat)
    requires i < size
    ensures |BlockWords(m, base, step, size)| == size
    ensures BlockWords(m, base, step, size)[i] == Read(m, RamAddr(base + Stride(step) * i), 4)
  {
  }

  lemma StreamNone(g: GpuState, ws: seq<Word>)
    requires g.Valid()
    ensures Stream(g, ws[..0]) == Running(g) && ws[..|ws|] == ws
  {
  }

  lemma FuelFor(m: RamBytes, g: GpuState, addr: nat) returns (fuel: nat)
    requires g.Valid() && WalkList(m, g, addr) != Stopped(Endless)
    ensures WalkList(m, g, addr) == Walk(m, g, addr, fuel) != Stopped(Endless)
  {
    fuel :| Walk(m, g, addr, fuel) != Stopped(Endless);
    WalkListIs(m, g, addr, fuel);
  }

  /** One turn of the list loop. */
  lemma WalkStep(m: RamBytes, g: GpuState, addr: nat, fuel: nat, header: Word)
    requires g.Valid() && addr == RamAddr(addr) && header == Read(m, addr, 4)
    requires Walk(m, g, addr, fuel) != Stopped(Endless)
    ensures fuel > 0
    ensures var fed := Stream(g, Packet(m, addr, PacketSize(header)));
            Walk(m, g, addr, fuel) == if fed.Stopped? || IsLast(header) then fed
                                      else Walk(m, fed.value, RamAddr(header), fuel - 1)
  {
    hide RamAddr, Stream, GpuState.Valid, Read, Packet;
  }

  lemma BlockAddrStart(base: Word, step: AddressStep)
    ensures BlockAddr(base, step, 0) == base
  {
  }

  /** The running address after `i` words. */
  function BlockAddr(base: Word, step: AddressStep, i: nat): Word { Wrap(base + Stride(step) * i) }

  lemma BlockAddrStep(base: Word, step: AddressStep, i: nat)
    ensures Advance(BlockAddr(base, step, i), step) == BlockAddr(base, step, i + 1)
    ensures RamAddr(BlockAddr(base, step, i)) == RamAddr(base + Stride(step) * i)
  {
    var x := base + Stride(step) * i;
    RamAddrWrap(x);
    assert base + Stride(step) * (i + 1) == x + Stride(step);
    WrapAdd(x, Stride(step));
  }

  /** The order in which the range tests are tried does not matter: at most one succeeds. */
  lemma SelectedBy(abs: Word)
    ensures forall d :: Contains(abs, d) != -1 <==> Find(abs) == Some(d)
    ensures forall d :: Contains(abs, d) != -1 ==> 0 <= Contains(abs, d) == abs - RangeOf(d).base < RangeOf(d).size
  {
    forall d
      ensures Contains(abs, d) != -1 <==> Find(abs) == Some(d)
    {
      if Contains(abs, d) != -1 { Families(d, abs); }
    }
  }

  lemma RamAddrWrap(a: int)
    ensures RamAddr(Wrap(a)) == RamAddr(a)
  {
    var q, w := a / 0x1_0000_0000, Wrap(a);
    assert a == 0x1_0000_0000 * q + w;
    ModUnique(a, 0x20_0000, 0x800 * q + w / 0x20_0000, w % 0x20_0000);
  }

  lemma NextRamAddr(a: nat)
    ensures RamAddr(RamAddr(a) + 4) == RamAddr(a + 4)
  {
    var q, r := a / 0x20_0000, a % 0x20_0000;
    if r + 4 < 0x20_0000 {
      ModUnique(a + 4, 0x20_0000, q, r + 4);
    } else {
      ModUnique(a + 4, 0x20_0000, q + 1, r + 4 - 0x20_0000);
    }
  }

  class Bus {
    const ram: Ram
    const bios: BiosBytes
    const dma: Dma
    const gpu: Gpu

    ghost function Repr(): set<object>
    {
      {ram.data} + dma.Repr() + gpu.Repr()
    }

    /** The three parts share no object. */
    ghost predicate Separate()
    {
      && ram.data !in dma.Repr() && ram.data !in gpu.Repr() && dma.Repr() !! gpu.Repr()
    }

    ghost predicate Valid()
      reads Repr()
      ensures Valid() ==> State().Valid()
    {
      && ram.Valid() && dma.Wired() && dma.State().Valid() && gpu.Valid() && Separate()
    }

    ghost function State(): BusState
      reads Repr()
    {
      BusState(ram.Bytes(), bios, dma.State(), gpu.State())
    }

    // ---- What a change to one part leaves alone ----

    twostate lemma GpuFrame()
      requires old(Valid()) && gpu.Valid()
      requires unchanged(ram.data) && unchanged(dma.Repr())
      ensures Valid() && State() == old(State()).(gpu := gpu.State())
    {
    }

    twostate lemma RamFrame()
      requires old(Valid())
      requires unchanged(gpu.Repr()) && unchanged(dma.Repr())
      ensures Valid() && State() == old(State()).(ram := ram.Bytes())
    {
    }

    twostate lemma ChannelFrame(p: nat)
      requires old(Valid()) && p < 7 && dma.channels[p].State().Valid()
      requires unchanged(gpu.Repr()) && unchanged(ram.data) && unchanged(dma)
      requires forall j | 0 <= j < 7 && j != p :: unchanged(dma.channels[j])
      ensures Valid() && State() == old(State()).WithChannel(p, dma.channels[p].State())
    {
      hide Gpu.Valid, Gpu.State, GpuState.Valid, Ram.Bytes, Dma.State, ChannelState.Valid, Dma.Repr;
      dma.ChannelFrame(p);
    }

    twostate lemma DmaFrame()
      requires old(Valid()) && dma.State().Valid()
      requires unchanged(gpu.Repr()) && unchanged(ram.data)
      ensures Valid() && State() == old(State()).(dma := dma.State())
    {
    }

    constructor (bios: BiosBytes)
      ensures Valid() && State().Quiet()
      ensures State().gpu == POWER_ON && State().bios == bios
      ensures fresh(Repr())
    {
      hide Gpu.Valid, Gpu.State, GpuState.Valid, Ram.Bytes, Dma.State;
      this.bios := bios;
      ram := new Ram();
      dma := new Dma();
      gpu := new Gpu();
    }

    // ---- Loads ----

    method Load32(addr: Word) returns (r: Outcome<Word>)
      requires Valid()
      ensures r == BusModel.Load32(State(), addr)
    {
      hide Gpu.Valid, Gpu.State, Dma.State, DmaState.Valid, Ram.Bytes, GpuState.Valid, Regs.Status,
           MaskRegion, Find, DmaRead, Read;
      var abs := MaskRegion(addr);
      SelectedBy(abs);
      var offset := Contains(abs, MainRam);
      if offset != -1 {
        if offset + 4 > RAM_SIZE { return Stopped(OutOfBounds); }
        var v := ram.Load32(offset);
        return Running(v);
      }
      offset := Contains(abs, Bios);
      if offset != -1 {
        if offset + 4 > BIOS_SIZE { return Stopped(OutOfBounds); }
        var b0: int, b1: int, b2: int, b3: int := bios[offset], bios[offset + 1], bios[offset + 2], bios[offset + 3];
        Unroll(bios, offset);
        return Running(b0 + b1 * 0x100 + b2 * 0x1_0000 + b3 * 0x100_0000);
      }
      if Contains(abs, IrqControl) != -1 { return Running(0); }
      offset := Contains(abs, DmaRegs);
      if offset != -1 {
        r := DmaReg(offset);
        return;
      }
      offset := Contains(abs, GpuRegs);
      if offset != -1 {
        if offset == 0 { return Running(0); }
        if offset == 4 {
          var v := gpu.ReadStatus();
          return Running(v);
        }
        return Stopped(Panic);
      }
      if Contains(abs, Timers) != -1 { return Running(0); }
      return Stopped(Panic);
    }

    method Load16(addr: Word) returns (r: Outcome<Half>)
      requires Valid()
      ensures r == BusModel.Load16(State(), addr)
    {
      hide Gpu.Valid, Gpu.State, Dma.State, DmaState.Valid, Ram.Bytes, GpuState.Valid, Regs.Status,
           MaskRegion, Find, DmaRead, Read;
      var abs := MaskRegion(addr);
      SelectedBy(abs);
      var offset := Contains(abs, MainRam);
      if offset != -1 {
        if offset + 2 > RAM_SIZE { return Stopped(OutOfBounds); }
        var v := ram.Load16(offset);
        return Running(v);
      }
      if Contains(abs, Spu) != -1 { return Running(0); }
      if Contains(abs, IrqControl) != -1 { return Running(0); }
      return Stopped(Panic);
    }

    method Load8(addr: Word) returns (r: Outcome<Byte>)
      requires Valid()
      ensures r == BusModel.Load8(State(), addr)
    {
      hide Gpu.Valid, Gpu.State, Dma.State, DmaState.Valid, Ram.Bytes, GpuState.Valid, Regs.Status,
           MaskRegion, Find;
      var abs := MaskRegion(addr);
      SelectedBy(abs);
      var offset := Contains(abs, MainRam);
      if offset != -1 {
        var v := ram.Load8(offset);
        return Running(v);
      }
      offset := Contains(abs, Bios);
      if offset != -1 { return Running(bios[offset]); }
      if Contains(abs, Expansion1) != -1 { return Running(0xff); }
      return Stopped(Panic);
    }

    method DmaReg(offset: nat) returns (r: Outcome<Word>)
      requires Valid() && offset < 0x80
      ensures r == DmaRead(State().dma, offset)
    {
      var major, minor := offset / 0x10 % 8, offset % 0x10;
      if major < 7 {
        var c := dma.channels[major].State();
        assert c == dma.State().channels[major];
        match minor
        case 0 => return Running(c.base);
        case 4 => return Running(c.BlockControl());
        case 8 => return Running(c.Control());
        case _ => return Stopped(Panic);
      } else {
        match minor
        case 0 => return Running(dma.control);
        case 4 => return Running(dma.State().Interrupt());
        case _ => return Stopped(Panic);
      }
    }

    // ---- Stores ----

    method Store32(addr: Word, val: Word) returns (ok: bool)
      requires Valid()
      requires BusModel.Store32(State(), addr, val) != Stopped(Endless)
      modifies Repr()
      ensures ok == BusModel.Store32(old(State()), addr, val).Running?
      ensures ok ==> Valid() && State() == BusModel.Store32(old(State()), addr, val).value
    {
      hide Gpu.Valid, Gpu.State, Dma.State, DmaState.Valid, Ram.Bytes, GpuState.Valid, GpuState.Gp0, GpuState.Gp1,
           MaskRegion, Find, DmaWrite, Read, Write;
      var abs := MaskRegion(addr);
      SelectedBy(abs);
      var offset := Contains(abs, MainRam);
      if offset != -1 {
        if offset + 4 > RAM_SIZE { return false; }
        ram.Store32(offset, val);
        RamFrame();
        return true;
      }
      offset := Contains(abs, MemControl);
      if offset != -1 {
        match offset {
          case 0 => return val == 0x1f00_0000;
          case 4 => return val == 0x1f80_2000;
          case _ => return true;
        }
      }
      if Contains(abs, RamSize) != -1 { return true; }
      if Contains(abs, CacheControl) != -1 { return true; }
      if Contains(abs, IrqControl) != -1 { return true; }
      offset := Contains(abs, DmaRegs);
      if offset != -1 {
        ok := SetDmaReg(offset, val);
        return;
      }
      offset := Contains(abs, GpuRegs);
      if offset != -1 {
        match offset {
          case 0 => ok := gpu.Gp0(val);
          case 4 => ok := gpu.Gp1(val);
          case _ => ok := false;
        }
        if ok { GpuFrame(); }
        return;
      }
      return Contains(abs, Timers) != -1;
    }

    method Store16(addr: Word, val: Half) returns (ok: bool)
      requires Valid()
      modifies Repr()
      ensures ok == BusModel.Store16(old(State()), addr, val).Running?
      ensures ok ==> Valid() && State() == BusModel.Store16(old(State()), addr, val).value
    {
      hide Gpu.Valid, Gpu.State, Dma.State, DmaState.Valid, Ram.Bytes, GpuState.Valid, GpuState.Gp0, GpuState.Gp1,
           MaskRegion, Find, DmaWrite, Read, Write;
      var abs := MaskRegion(addr);
      SelectedBy(abs);
      var offset := Contains(abs, MainRam);
      if offset != -1 {
        if offset + 2 > RAM_SIZE { return false; }
        ram.Store16(offset, val);
        RamFrame();
        return true;
      }
      if Contains(abs, Spu) != -1 { return true; }
      if Contains(abs, Timers) != -1 { return true; }
      return Contains(abs, IrqControl) != -1;
    }

    method Store8(addr: Word, val: Byte) returns (ok: bool)
      requires Valid()
      modifies Repr()
      ensures ok == BusModel.Store8(old(State()), addr, val).Running?
      ensures ok ==> Valid() && State() == BusModel.Store8(old(State()), addr, val).value
    {
      hide Gpu.Valid, Gpu.State, Dma.State, DmaState.Valid, Ram.Bytes, GpuState.Valid, GpuState.Gp0, GpuState.Gp1,
           MaskRegion, Find, DmaWrite, Read, Write;
      var abs := MaskRegion(addr);
      SelectedBy(abs);
      var offset := Contains(abs, MainRam);
      if offset != -1 {
        ram.Store8(offset, val);
        RamFrame();
        return true;
      }
      return Contains(abs, Expansion2) != -1;
    }

    // ---- DMA ----

    method SetDmaReg(offset: nat, val: Word) returns (ok: bool)
      requires Valid() && offset < 0x80
      requires DmaWrite(State(), offset, val) != Stopped(Endless)
      modifies Repr()
      ensures ok == DmaWrite(old(State()), offset, val).Running?
      ensures ok ==> Valid() && State() == DmaWrite(old(State()), offset, val).value
    {
      hide Gpu.Valid, Gpu.State, Dma.State, DmaState.Valid, Ram.Bytes, Ram.Valid, GpuState.Valid,
           Transfer, ChannelWrite, DmaState.WithInterrupt;
      var major, minor := offset / 0x10 % 8, offset % 0x10;
      if major < 7 {
        dma.ChannelOf(major);
        ok := WriteChannel(major, minor, val);
        if ok {
          dma.ChannelOf(major);
          if dma.channels[major].State().Active() {
            ok := DoDma(major);
          }
        }
      } else if minor == 0 {
        dma.SetControl(val);
        DmaFrame();
        ok := true;
      } else if minor == 4 {
        dma.SetInterrupt(val);
        DmaFrame();
        ok := true;
      } else {
        ok := false;
      }
    }

    /** A write to one of a channel's own registers. */
    method WriteChannel(port: nat, minor: nat, val: Word) returns (ok: bool)
      requires Valid() && port < 7
      modifies dma.channels[port]
      ensures ok == ChannelWrite(old(State()).dma.channels[port], minor, val).Running?
      ensures ok ==> Valid()
      ensures ok ==> dma.channels[port].State() == ChannelWrite(old(State()).dma.channels[port], minor, val).value
      ensures ok ==> State() == old(State()).WithChannel(port, dma.channels[port].State())
    {
      hide Gpu.Valid, Gpu.State, Dma.State, Ram.Bytes, Ram.Valid, GpuState.Valid, ChannelState.WithControl;
      dma.ChannelOf(port);
      var channel := dma.channels[port];
      match minor {
        case 0 => channel.SetBase(val);
        case 4 => channel.SetBlockControl(val);
        case 8 =>
          ok := channel.SetControl(val);
          if !ok { return; }
        case _ => return false;
      }
      ChannelFrame(port);
      ok := true;
    }

    method DoDma(port: nat) returns (ok: bool)
      requires Valid() && port < 7
      requires Transfer(State(), port) != Stopped(Endless)
      modifies Repr()
      ensures ok == Transfer(old(State()), port).Running?
      ensures ok ==> Valid() && State() == Transfer(old(State()), port).value
    {
      assert State().dma.channels[port] == dma.channels[port].State();
      if dma.channels[port].sync.LinkedList? {
        ok := DoDmaLinkedList(port);
      } else {
        ok := DoDmaBlock(port);
      }
    }

    method DoDmaLinkedList(port: nat) returns (ok: bool)
      requires Valid() && port < 7
      requires ListTransfer(State(), port) != Stopped(Endless)
      modifies Repr()
      ensures ok == ListTransfer(old(State()), port).Running?
      ensures ok ==> Valid() && State() == ListTransfer(old(State()), port).value
    {
      hide Gpu.Valid, Gpu.State, Dma.State, DmaState.Valid, Ram.Bytes, Ram.Valid, GpuState.Valid,
           RamAddr, WalkList, BusState.Finish;
      dma.ChannelOf(port);
      RamAddrTwice(dma.channels[port].base);
      var channel := dma.channels[port];
      if channel.direction.ToRam? { return false; }
      if port != GPU_PORT { return false; }
      ok := FollowList(RamAddr(channel.base));
      if ok {
        GpuFrame();
        FinishChannel(port);
      }
    }

    method FinishChannel(port: nat)
      requires Valid() && port < 7
      modifies dma.channels[port]
      ensures Valid() && State() == old(State()).Finish(port)
    {
      hide Gpu.Valid, Gpu.State, Ram.Bytes, GpuState.Valid;
      dma.ChannelOf(port);
      dma.channels[port].Done();
      ChannelFrame(port);
    }

    /** The outer loop of the linked-list transfer. */
    method FollowList(start: nat) returns (ok: bool)
      requires ram.Valid() && gpu.Valid() && ram.data !in gpu.Repr() && start == RamAddr(start)
      requires WalkList(ram.Bytes(), gpu.State(), start) != Stopped(Endless)
      modifies gpu.Repr()
      ensures ok == WalkList(old(ram.Bytes()), old(gpu.State()), start).Running?
      ensures ok ==> gpu.Valid() && gpu.State() == WalkList(old(ram.Bytes()), old(gpu.State()), start).value
    {
      hide Gpu.Valid, Gpu.State, Dma.Repr, Ram.Bytes, Ram.Valid, Stream, GpuState.Valid, GpuState.Gp0, Read, RamAddr,
           Walk, WalkList, PacketSize, IsLast, Packet;
      ghost var m := ram.Bytes();
      ghost var fuel := FuelFor(m, gpu.State(), start);
      ghost var whole := Walk(m, gpu.State(), start, fuel);
      var addr := start;
      while true
        invariant gpu.Valid() && ram.Bytes() == m
        invariant addr == RamAddr(addr)
        invariant whole == Walk(m, gpu.State(), addr, fuel) != Stopped(Endless)
        decreases fuel
      {
        var header := ram.Load32(addr);
        WalkStep(m, gpu.State(), addr, fuel, header);
        ok := FeedPacket(addr, PacketSize(header));
        if !ok { return; }
        fuel := fuel - 1;
        if IsLast(header) { break; }
        RamAddrTwice(header);
        addr := RamAddr(header);
      }
      ok := true;
    }

    /** The inner loop of the linked-list transfer: one packet. */
    method FeedPacket(header: nat, size: nat) returns (ok: bool)
      requires ram.Valid() && gpu.Valid() && ram.data !in gpu.Repr() && header == RamAddr(header)
      modifies gpu.Repr()
      ensures ok == Stream(old(gpu.State()), Packet(old(ram.Bytes()), header, size)).Running?
      ensures ok ==> gpu.Valid()
      ensures ok ==> gpu.State() == Stream(old(gpu.State()), Packet(old(ram.Bytes()), header, size)).value
      ensures ram.Bytes() == old(ram.Bytes())
    {
      hide Gpu.Valid, Gpu.State, Dma.Repr, Ram.Bytes, Ram.Valid, Stream, GpuState.Valid, GpuState.Gp0, Read, RamAddr,
           Packet, PacketAddr;
      ghost var g := gpu.State();
      ghost var m := ram.Bytes();
      ghost var packet := Packet(m, header, size);
      var addr, remsz := header, size;
      ghost var done := 0;
      StreamNone(g, packet);
      PacketLength(m, header, size);
      while remsz > 0
        invariant gpu.Valid() && ram.Bytes() == m
        invariant done + remsz == size
        invariant addr == PacketAddr(header, done)
        invariant Stream(g, packet[..done]) == Running(gpu.State())
      {
        addr := RamAddr(addr + 4);
        PacketAt(m, header, size, done);
        var command := ram.Load32(addr);
        StreamNext(g, packet, done, gpu.State());
        ok := gpu.Gp0(command);
        if !ok { return; }
        remsz := remsz - 1;
        done := done + 1;
      }
      ok := true;
    }

    method DoDmaBlock(port: nat) returns (ok: bool)
      requires Valid() && port < 7
      modifies Repr()
      ensures ok == BlockTransfer(old(State()), port).Running?
      ensures ok ==> Valid() && State() == BlockTransfer(old(State()), port).value
    {
      hide Gpu.Valid, Gpu.State, Dma.State, DmaState.Valid, Ram.Bytes, Ram.Valid, GpuState.Valid,
           BlockWords, OtcFill, Stream, BusState.Finish;
      dma.ChannelOf(port);
      var channel := dma.channels[port];
      var remsz := channel.State().TransferSize();
      if remsz == -1 { return false; }
      if remsz > 0 {
        if channel.direction.FromRam? {
          if port != GPU_PORT { return false; }
          ok := BlockToGpu(channel.base, channel.step, remsz);
          if !ok { return; }
          GpuFrame();
        } else {
          if port != OTC_PORT { return false; }
          ClearOrderingTable(channel.base, channel.step, remsz);
          RamFrame();
        }
      }
      FinishChannel(port);
      ok := true;
    }

    /** The block loop in the direction from RAM. */
    method BlockToGpu(base: Word, step: AddressStep, size: nat) returns (ok: bool)
      requires ram.Valid() && gpu.Valid() && ram.data !in gpu.Repr()
      modifies gpu.Repr()
      ensures ok == Stream(old(gpu.State()), BlockWords(old(ram.Bytes()), base, step, size)).Running?
      ensures ok ==> gpu.Valid()
      ensures ok ==> gpu.State() == Stream(old(gpu.State()), BlockWords(old(ram.Bytes()), base, step, size)).value
    {
      hide Gpu.Valid, Gpu.State, Dma.Repr, Ram.Bytes, Ram.Valid, Stream, GpuState.Valid, GpuState.Gp0, Read, RamAddr,
           BlockWords, BlockAddr, Advance, Wrap;
      ghost var g := gpu.State();
      ghost var m := ram.Bytes();
      ghost var words := BlockWords(m, base, step, size);
      StreamNone(g, words);
      BlockAddrStart(base, step);
      BlockLength(m, base, step, size);
      var addr: Word, remsz := base, size;
      while remsz > 0
        invariant gpu.Valid() && ram.Bytes() == m
        invariant 0 <= remsz <= size
        invariant addr == BlockAddr(base, step, size - remsz)
        invariant Stream(g, words[..size - remsz]) == Running(gpu.State())
      {
        ghost var done := size - remsz;
        BlockAddrStep(base, step, done);
        BlockWordAt(m, base, step, size, done);
        var srcWord := ram.Load32(RamAddr(addr));
        StreamNext(g, words, done, gpu.State());
        ok := gpu.Gp0(srcWord);
        if !ok { return; }
        addr := Advance(addr, step);
        remsz := remsz - 1;
      }
      ok := true;
    }

    /** The block loop in the direction to RAM, for the only port that supports it. */
    method ClearOrderingTable(base: Word, step: AddressStep, size: nat)
      requires ram.Valid()
      modifies ram.data
      ensures ram.Bytes() == OtcFill(old(ram.Bytes()), base, step, size)
    {
      hide Ram.Bytes, Write, RamAddr, RamLink, Wrap;
      ghost var m := ram.Bytes();
      var addr: Word, remsz := base, size;
      while remsz > 0
        invariant 0 <= remsz <= size
        invariant OtcFill(m, base, step, size) == OtcFill(ram.Bytes(), addr, step, remsz)
      {
        var srcWord: Word := 0xff_ffff;
        if remsz != 1 { srcWord := RamLink(addr); }
        ram.Store32(RamAddr(addr), srcWord);
        addr := Advance(addr, step);
        remsz := remsz - 1;
      }
    }
  }
}
