/** The DMA controller's registers: seven channels, the control word and the interrupt word. */
module DmaModel {
  import opened Words
  import opened Outcomes

  datatype Direction = ToRam | FromRam
  datatype AddressStep = Increment | Decrement
  datatype Sync = Manual | Request | LinkedList

  // Port numbers, which are also channel indices.
  const GPU_PORT: nat := 2
  const OTC_PORT: nat := 6

  /** What a channel's fields hold. */
  datatype ChannelState = ChannelState(
    enable: bool, direction: Direction, step: AddressStep, sync: Sync, trigger: bool, chop: bool,
    chopDmaSz: nat, chopCpuSz: nat, base: Word, blockSize: Half, blockCount: Half, dummy: nat)
  {
    predicate Valid() { chopDmaSz < 8 && chopCpuSz < 8 && dummy < 4 && base < 0x100_0000 }

    /** The control register as the CPU reads it. */
    function Control(): (r: Word)
      requires Valid()
    {
      (if direction.FromRam? then 1 else 0)
      + (if step.Decrement? then 0x2 else 0)
      + (if chop then 0x100 else 0)
      + (match sync case Manual => 0 case Request => 0x200 case LinkedList => 0x400)
      + chopDmaSz * 0x1_0000
      + chopCpuSz * 0x10_0000
      + (if enable then 0x100_0000 else 0)
      + (if trigger then 0x1000_0000 else 0)
      + dummy * 0x2000_0000
    }

    function BlockControl(): Word { blockCount * 0x1_0000 + blockSize }

    predicate Active() { enable && (sync.Manual? ==> trigger) }

    /** Words a block transfer moves; -1 in linked-list mode. The C++ product is an `int`
        that the caller converts back to an unsigned word, so it is kept exact here. */
    function TransferSize(): int
    {
      match sync
      case Manual => blockSize
      case Request => blockCount * blockSize
      case LinkedList => -1
    }

    function Done(): ChannelState { this.(enable := false, trigger := false) }

    function WithBase(val: Word): ChannelState { this.(base := val % 0x100_0000) }

    function WithBlockControl(val: Word): ChannelState
    {
      this.(blockSize := val % 0x1_0000, blockCount := val / 0x1_0000)
    }

    /** A control write: the fields it sets, unless the synchronisation mode is the
        undefined one. */
    function WithControl(val: Word): (r: Outcome<ChannelState>)
      requires Valid()
      ensures r.Running? ==> r.value.Valid()
    {
      if val / 0x200 % 4 == 3 then Stopped(Panic)
      else Running(this.(
        direction := if val % 2 == 1 then FromRam else ToRam,
        step := if val / 2 % 2 == 1 then Decrement else Increment,
        chop := val / 0x100 % 2 == 1,
        sync := match val / 0x200 % 4 case 0 => Manual case 1 => Request case _ => LinkedList,
        chopDmaSz := val / 0x1_0000 % 8,
        chopCpuSz := val / 0x10_0000 % 8,
        enable := val / 0x100_0000 % 2 == 1,
        trigger := val / 0x1000_0000 % 2 == 1,
        dummy := val / 0x2000_0000 % 4))
    }
  }

  const RESET_CHANNEL := ChannelState(false, ToRam, Increment, Manual, false, false, 0, 0, 0, 0, 0, 0)

  /** The writable bits of a control register. */
  const CONTROL_BITS: Word := 0x7177_0703

  /** Reading the control register back gives the written word with every bit outside
      `CONTROL_BITS` cleared, whatever the channel held before. */
  lemma ControlReadsBack(c: ChannelState, val: Word)
    requires c.Valid() && c.WithControl(val).Running?
    ensures c.WithControl(val).value.Control() == And(val, CONTROL_BITS)
  {
    hide And;
    var d := Digits(val);
    StoredFields(c, val);
    AndByDigits(val, d, CONTROL_BITS, [3, 0, 7, 0, 7, 7, 1, 7]);
    AllDigitMasks(d);
  }

  /** A channel that has finished reads back with its start bits, 24 and 28, cleared too. */
  lemma DoneReadsBack(c: ChannelState, val: Word)
    requires c.Valid() && c.WithControl(val).Running?
    ensures c.WithControl(val).value.Done().Control() == And(val, 0x6077_0703)
  {
    hide And;
    var d := Digits(val);
    StoredFields(c, val);
    AndByDigits(val, d, 0x6077_0703, [3, 0, 7, 0, 7, 7, 0, 6]);
    AllDigitMasks(d);
  }

  /** What a control write stores, in terms of the word's digits. */
  lemma StoredFields(c: ChannelState, val: Word)
    requires c.Valid() && c.WithControl(val).Running?
    ensures var c', d := c.WithControl(val).value, Digits(val);
            var low := d[0] % 4 + 0x100 * (d[2] % 8) + 0x1_0000 * (d[4] % 8) + 0x10_0000 * (d[5] % 8);
            && c'.Control() == low + 0x100_0000 * (d[6] % 2) + 0x1000_0000 * (d[7] % 8)
            && c'.Done().Control() == low + 0x2000_0000 * (d[7] / 2 % 4)
  {
    hide Digits, ChannelState.Control, ChannelState.WithControl, ChannelState.Done;
    var d := Digits(val);
    ControlFields(c, val);
    LowFields(val);
    HighFields(val);
    LowDigit(d[0]);
    LowDigit(d[2]);
    LowDigit(d[7]);
  }

  lemma ControlFields(c: ChannelState, val: Word)
    requires c.Valid() && c.WithControl(val).Running?
    ensures var c' := c.WithControl(val).value;
            var rest := val % 2 + 2 * (val / 2 % 2) + 0x100 * (val / 0x100 % 2) + 0x200 * (val / 0x200 % 4)
                        + 0x1_0000 * (val / 0x1_0000 % 8) + 0x10_0000 * (val / 0x10_0000 % 8)
                        + 0x2000_0000 * (val / 0x2000_0000 % 4);
            && c'.Valid() && c'.Done().Valid()
            && c'.Control() == rest + 0x100_0000 * (val / 0x100_0000 % 2) + 0x1000_0000 * (val / 0x1000_0000 % 2)
            && c'.Done().Control() == rest
  {
  }

  lemma LowFields(val: Word)
    ensures var d := Digits(val);
            && val % 2 == d[0] % 2 && val / 2 % 2 == d[0] / 2 % 2
            && val / 0x100 % 2 == d[2] % 2 && val / 0x200 % 4 == d[2] / 2 % 4
  {
    Quotients(val);
    SmallFields(val, val / 0x10, val % 16);
    SmallFields(val / 0x100, val / 0x1000, val / 0x100 % 16);
  }

  lemma HighFields(val: Word)
    ensures var d := Digits(val);
            && val / 0x1_0000 % 8 == d[4] % 8 && val / 0x10_0000 % 8 == d[5] % 8
            && val / 0x100_0000 % 2 == d[6] % 2
            && val / 0x1000_0000 % 2 == d[7] % 2 && val / 0x2000_0000 % 4 == d[7] / 2 % 4
  {
    Quotients(val);
    SmallFields(val / 0x1_0000, val / 0x10_0000, val / 0x1_0000 % 16);
    SmallFields(val / 0x10_0000, val / 0x100_0000, val / 0x10_0000 % 16);
    SmallFields(val / 0x100_0000, val / 0x1000_0000, val / 0x100_0000 % 16);
  }

  /** The low fields of a number are the low fields of its last digit. */
  lemma SmallFields(x: nat, q: nat, r: nat)
    requires x == 16 * q + r && r < 16
    ensures x % 2 == r % 2 && x % 8 == r % 8
    ensures x / 2 % 2 == r / 2 % 2 && x / 2 % 4 == r / 2 % 4
  {
    ModUnique(x, 2, 8 * q + r / 2, r % 2);
    ModUnique(x, 8, 2 * q + r / 8, r % 8);
    ModUnique(x / 2, 2, 4 * q + r / 2 / 2, r / 2 % 2);
    ModUnique(x / 2, 4, 2 * q + r / 2 / 4, r / 2 % 4);
  }

  lemma LowDigit(d: nat)
    requires d < 16
    ensures d % 4 == d % 2 + 2 * (d / 2 % 2)
    ensures d % 8 == d % 2 + 2 * (d / 2 % 4)
  {
  }

  /** The hexadecimal digits of a word, lowest first. */
  function Digits(x: Word): (ds: seq<nat>)
    ensures |ds| == 8 && forall i :: 0 <= i < 8 ==> ds[i] < 16
    ensures x == ds[0] + 0x10 * ds[1] + 0x100 * ds[2] + 0x1000 * ds[3] + 0x1_0000 * ds[4]
                + 0x10_0000 * ds[5] + 0x100_0000 * ds[6] + 0x1000_0000 * ds[7]
  {
    Quotients(x);
    [x % 16, x / 0x10 % 16, x / 0x100 % 16, x / 0x1000 % 16, x / 0x1_0000 % 16,
     x / 0x10_0000 % 16, x / 0x100_0000 % 16, x / 0x1000_0000]
  }

  lemma Quotients(x: Word)
    ensures x / 0x100 == x / 0x10 / 16 && x / 0x1000 == x / 0x100 / 16
    ensures x / 0x1_0000 == x / 0x1000 / 16 && x / 0x10_0000 == x / 0x1_0000 / 16
    ensures x / 0x100_0000 == x / 0x10_0000 / 16 && x / 0x1000_0000 == x / 0x100_0000 / 16
    ensures x / 0x200 == x / 0x100 / 2 && x / 0x2000_0000 == x / 0x1000_0000 / 2
  {
    DivDiv(x, 0x10, 16);
    DivDiv(x, 0x100, 16);
    DivDiv(x, 0x1000, 16);
    DivDiv(x, 0x1_0000, 16);
    DivDiv(x, 0x10_0000, 16);
    DivDiv(x, 0x100_0000, 16);
    DivDiv(x, 0x100, 2);
    DivDiv(x, 0x1000_0000, 2);
  }

  lemma AllDigitMasks(d: seq<nat>)
    requires |d| == 8 && forall i :: 0 <= i < 8 ==> d[i] < 16
    ensures forall i :: 0 <= i < 8 ==>
      && And(d[i], 0) == 0 && And(d[i], 1) == d[i] % 2 && And(d[i], 3) == d[i] % 4
      && And(d[i], 7) == d[i] % 8 && And(d[i], 6) == d[i] / 2 % 4 * 2
  {
    forall i | 0 <= i < 8
      ensures And(d[i], 0) == 0 && And(d[i], 1) == d[i] % 2 && And(d[i], 3) == d[i] % 4
      ensures And(d[i], 7) == d[i] % 8 && And(d[i], 6) == d[i] / 2 % 4 * 2
    {
      DigitMasks(d[i]);
    }
  }

  lemma DigitMasks(d: nat)
    requires d < 16
    ensures And(d, 0) == 0 && And(d, 1) == d % 2 && And(d, 3) == d % 4 && And(d, 7) == d % 8
    ensures And(d, 6) == d / 2 % 4 * 2
  {
    AndLowMask(d, 1);
    AndLowMask(d, 2);
    AndLowMask(d, 3);
    assert Pow2(1) == 2 && Pow2(2) == 4 && Pow2(3) == 8;
    AndDouble(d, d / 2, d % 2, 6, 3, 0);
    AndLowMask(d / 2, 2);
  }

  lemma AndByDigits(x: Word, xs: seq<nat>, y: Word, ys: seq<nat>)
    requires |xs| == 8 && |ys| == 8
    requires forall i :: 0 <= i < 8 ==> xs[i] < 16 && ys[i] < 16
    requires x == xs[0] + 0x10 * xs[1] + 0x100 * xs[2] + 0x1000 * xs[3] + 0x1_0000 * xs[4]
                + 0x10_0000 * xs[5] + 0x100_0000 * xs[6] + 0x1000_0000 * xs[7]
    requires y == ys[0] + 0x10 * ys[1] + 0x100 * ys[2] + 0x1000 * ys[3] + 0x1_0000 * ys[4]
                + 0x10_0000 * ys[5] + 0x100_0000 * ys[6] + 0x1000_0000 * ys[7]
    ensures And(x, y) == And(xs[0], ys[0]) + 0x10 * And(xs[1], ys[1]) + 0x100 * And(xs[2], ys[2])
                       + 0x1000 * And(xs[3], ys[3]) + 0x1_0000 * And(xs[4], ys[4])
                       + 0x10_0000 * And(xs[5], ys[5]) + 0x100_0000 * And(xs[6], ys[6])
                       + 0x1000_0000 * And(xs[7], ys[7])
  {
    hide And;
    var x6, y6 := xs[6] + 16 * xs[7], ys[6] + 16 * ys[7];
    var x5, y5 := xs[5] + 16 * x6, ys[5] + 16 * y6;
    var x4, y4 := xs[4] + 16 * x5, ys[4] + 16 * y5;
    var x3, y3 := xs[3] + 16 * x4, ys[3] + 16 * y4;
    var x2, y2 := xs[2] + 16 * x3, ys[2] + 16 * y3;
    var x1, y1 := xs[1] + 16 * x2, ys[1] + 16 * y2;
    AndDigit(x6, xs[7], xs[6], y6, ys[7], ys[6]);
    AndDigit(x5, x6, xs[5], y5, y6, ys[5]);
    AndDigit(x4, x5, xs[4], y4, y5, ys[4]);
    AndDigit(x3, x4, xs[3], y3, y4, ys[3]);
    AndDigit(x2, x3, xs[2], y2, y3, ys[2]);
    AndDigit(x1, x2, xs[1], y1, y2, ys[1]);
    AndDigit(x, x1, xs[0], y, y1, ys[0]);
  }

  /** In request mode the size is never the -1 that stands for "unknown": not even when the
      product overflows an `int`. */
  lemma RequestSizeNotSentinel(c: ChannelState)
    requires !c.sync.LinkedList?
    ensures 0 <= c.TransferSize() < 0xffff_ffff
  {
    Product(c.blockCount, c.blockSize, 0xffff, 0xffff);
  }

  // ---- The channel object ----

  class Channel {
    var enable: bool
    var direction: Direction
    var step: AddressStep
    var sync: Sync
    var trigger: bool
    var chop: bool
    var chopDmaSz: nat
    var chopCpuSz: nat
    var base: Word
    var blockSize: Half
    var blockCount: Half
    var dummy: nat

    function State(): ChannelState
      reads this
    {
      ChannelState(enable, direction, step, sync, trigger, chop, chopDmaSz, chopCpuSz,
                   base, blockSize, blockCount, dummy)
    }

    constructor ()
      ensures State() == RESET_CHANNEL
    {
      enable, direction, step, sync := false, ToRam, Increment, Manual;
      trigger, chop, chopDmaSz, chopCpuSz := false, false, 0, 0;
      base, blockSize, blockCount, dummy := 0, 0, 0, 0;
    }

    method SetBase(val: Word)
      modifies this
      ensures State() == old(State()).WithBase(val)
    {
      base := val % 0x100_0000;
    }

    method SetControl(val: Word) returns (ok: bool)
      requires State().Valid()
      modifies this
      ensures ok == old(State()).WithControl(val).Running?
      ensures ok ==> State() == old(State()).WithControl(val).value
    {
      if val % 2 != 0 { direction := FromRam; } else { direction := ToRam; }
      if val / 2 % 2 != 0 { step := Decrement; } else { step := Increment; }
      chop := val / 0x100 % 2 != 0;
      var n := val / 0x200 % 4;
      if n == 0 {
        sync := Manual;
      } else if n == 1 {
        sync := Request;
      } else if n == 2 {
        sync := LinkedList;
      } else {
        return false;
      }
      chopDmaSz := val / 0x1_0000 % 8;
      chopCpuSz := val / 0x10_0000 % 8;
      enable := val / 0x100_0000 % 2 != 0;
      trigger := val / 0x1000_0000 % 2 != 0;
      dummy := val / 0x2000_0000 % 4;
      return true;
    }

    method SetBlockControl(val: Word)
      modifies this
      ensures State() == old(State()).WithBlockControl(val)
    {
      blockSize := val % 0x1_0000;
      blockCount := val / 0x1_0000;
    }

    method Done()
      modifies this
      ensures State() == old(State()).Done()
    {
      enable := false;
      trigger := false;
    }
  }

  // ---- The controller ----

  datatype DmaState = DmaState(
    control: Word, irqEn: bool, channelIrqEn: nat, channelIrqFlags: Byte, forceIrq: bool,
    irqDummy: nat, channels: seq<ChannelState>)
  {
    /** No code path ever raises a channel's interrupt flag. */
    predicate Valid()
    {
      && channelIrqEn < 0x80 && irqDummy < 0x40 && channelIrqFlags == 0
      && |channels| == 7 && forall i :: 0 <= i < 7 ==> channels[i].Valid()
    }

    predicate Irq() { forceIrq || (irqEn && And(channelIrqFlags, channelIrqEn) != 0) }

    /** The interrupt register as the CPU reads it. */
    function Interrupt(): Word
      requires Valid()
    {
      irqDummy + (if forceIrq then 0x8000 else 0) + channelIrqEn * 0x1_0000
      + (if irqEn then 0x80_0000 else 0) + channelIrqFlags * 0x100_0000
      + (if Irq() then 0x8000_0000 else 0)
    }

    /** An interrupt-register write. The acknowledge mask is negated logically, so a zero
        mask keeps flag 0 and any other mask drops every flag. */
    function WithInterrupt(val: Word): (r: DmaState)
      requires Valid()
      ensures r.Valid()
    {
      this.(irqDummy := val % 0x40,
            forceIrq := val / 0x8000 % 2 == 1,
            channelIrqEn := val / 0x1_0000 % 0x80,
            irqEn := val / 0x80_0000 % 2 == 1,
            channelIrqFlags := And(channelIrqFlags, if val / 0x100_0000 % 0x40 == 0 then 1 else 0))
    }
  }

  /** Since no flag is ever raised, the interrupt register reads back as the written word's
      stored bits, with bit 31 a copy of the force bit. */
  lemma InterruptReadsBack(d: DmaState, val: Word)
    requires d.Valid()
    ensures d.WithInterrupt(val).Interrupt()
         == val % 0x40 + val / 0x8000 % 0x200 * 0x8000 + val / 0x8000 % 2 * 0x8000_0000
  {
    Pieces(val);
    assert And(0, d.WithInterrupt(val).channelIrqEn) == 0;
  }

  lemma Pieces(val: Word)
    ensures val / 0x8000 % 0x200
         == val / 0x8000 % 2 + val / 0x1_0000 % 0x80 * 2 + val / 0x80_0000 % 2 * 0x100
  {
    var h := val / 0x8000;
    DivDiv(val, 0x8000, 2);
    DivDiv(val, 0x8000, 0x100);
    SplitField(h);
  }

  lemma SplitField(h: nat)
    ensures h % 0x200 == h % 2 + h / 2 % 0x80 * 2 + h / 0x100 % 2 * 0x100
  {
    DivDiv(h, 2, 0x80);
    var a, b, c := h / 0x100, h / 2 % 0x80, h % 2;
    assert h == 0x100 * a + 2 * b + c;
    ModUnique(h, 0x200, a / 2, a % 2 * 0x100 + 2 * b + c);
  }

  class Dma {
    var control: Word
    var irqEn: bool
    var channelIrqEn: nat
    var channelIrqFlags: Byte
    var forceIrq: bool
    var irqDummy: nat
    const channels: seq<Channel>

    ghost function Repr(): (r: set<object>)
      ensures this in r && forall c | c in channels :: c in r
    {
      {this} + set c | c in channels :: c as object
    }

    /** The seven channels are seven different objects. */
    ghost predicate Wired()
    {
      && |channels| == 7
      && forall i, j :: 0 <= i < j < 7 ==> channels[i] != channels[j]
    }

    function State(): DmaState
      reads Repr()
    {
      DmaState(control, irqEn, channelIrqEn, channelIrqFlags, forceIrq, irqDummy,
        if |channels| == 7 then
          [channels[0].State(), channels[1].State(), channels[2].State(), channels[3].State(),
           channels[4].State(), channels[5].State(), channels[6].State()]
        else [])
    }

    lemma ChannelOf(p: nat)
      requires Wired() && p < 7
      ensures channels[p] in Repr() && State().channels[p] == channels[p].State()
    {
    }

    /** Changing one channel changes one entry of the state. */
    twostate lemma ChannelFrame(p: nat)
      requires Wired() && p < 7 && unchanged(this)
      requires forall j | 0 <= j < 7 && j != p :: unchanged(channels[j])
      ensures State() == old(State()).(channels := old(State()).channels[p := channels[p].State()])
    {
    }

    constructor ()
      ensures Wired() && fresh(Repr())
      ensures State() == DmaState(0x0765_4321, false, 0, 0, false, 0, seq(7, _ => RESET_CHANNEL))
    {
      hide Channel.State;
      var c0 := new Channel();
      var c1 := new Channel();
      var c2 := new Channel();
      var c3 := new Channel();
      var c4 := new Channel();
      var c5 := new Channel();
      var c6 := new Channel();
      channels := [c0, c1, c2, c3, c4, c5, c6];
      control := 0x0765_4321;
      irqEn, channelIrqEn, channelIrqFlags, forceIrq, irqDummy := false, 0, 0, false, 0;
    }

    method SetControl(val: Word)
      requires Wired()
      modifies this
      ensures State() == old(State()).(control := val)
    {
      control := val;
    }

    method SetInterrupt(val: Word)
      requires Wired() && State().Valid()
      modifies this
      ensures State() == old(State()).WithInterrupt(val)
    {
      irqDummy := val % 0x40;
      forceIrq := val / 0x8000 % 2 != 0;
      channelIrqEn := val / 0x1_0000 % 0x80;
      irqEn := val / 0x80_0000 % 2 != 0;
      var ack := val / 0x100_0000 % 0x40;
      var notAck := if ack == 0 then 1 else 0;
      channelIrqFlags := And(channelIrqFlags, notAck);
    }
  }
}
