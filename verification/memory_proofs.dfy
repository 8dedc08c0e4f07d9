/** Main memory, seen through the bus, is one flat array of bytes. */
module MemoryProofs {
  import opened Words
  import opened Outcomes
  import opened RamModel
  import opened MemoryMap
  import opened BusModel

  /** A store of 1, 2 or 4 bytes at a CPU address. */
  datatype Access = Access(addr: Word, width: nat, val: Word)
  {
    /** The access falls wholly in main memory, through any of its three aliases. An aligned
        access to main memory always does. */
    predicate InRam()
    {
      && width in {1, 2, 4} && val < Pow256(width)
      && Contains(MaskRegion(addr), MainRam) != -1
      && addr % 0x20_0000 + width <= RAM_SIZE
    }

    /** The address on the memory chips. */
    function Phys(): nat { addr % 0x20_0000 }

    predicate Covers(p: nat) { Phys() <= p < Phys() + width }
  }

  ghost function StoreOne(b: BusState, a: Access): (r: Outcome<BusState>)
    requires b.Valid() && a.InRam()
    ensures r.Running? ==> r.value.Valid()
  {
    assert Pow256(1) == 0x100 && Pow256(2) == 0x1_0000;
    if a.width == 1 then Store8(b, a.addr, a.val)
    else if a.width == 2 then Store16(b, a.addr, a.val)
    else Store32(b, a.addr, a.val)
  }

  ghost function StoreAll(b: BusState, hist: seq<Access>): (r: Outcome<BusState>)
    requires b.Valid() && forall i :: 0 <= i < |hist| ==> hist[i].InRam()
    ensures r.Running? ==> r.value.Valid()
    decreases |hist|
  {
    if hist == [] then Running(b)
    else
      match StoreAll(b, hist[..|hist| - 1])
      case Stopped(why) => Stopped(why)
      case Running(b') => StoreOne(b', hist[|hist| - 1])
  }

  /** The byte at physical address `p`: what the last store that covers it put there. */
  function LastByte(init: RamBytes, hist: seq<Access>, p: nat): Byte
    requires p < RAM_SIZE
    decreases |hist|
  {
    if hist == [] then init[p]
    else
      var a := hist[|hist| - 1];
      if a.Covers(p) then ByteOf(a.val, p - a.Phys()) else LastByte(init, hist[..|hist| - 1], p)
  }

  lemma StoreOneWrites(b: BusState, a: Access)
    requires b.Valid() && a.InRam()
    ensures StoreOne(b, a) == Running(b.(ram := Write(b.ram, a.Phys(), a.width, a.val)))
  {
    hide BusState.Valid, Write;
    RamAliases(a.addr);
    Families(MainRam, MaskRegion(a.addr));
  }

  /** After any sequence of stores of mixed widths through mixed aliases, every byte of memory
      is the one the last covering store put there, and nothing but memory has changed. */
  lemma {:induction false} StoresAreFlat(b: BusState, hist: seq<Access>)
    requires b.Valid() && forall i :: 0 <= i < |hist| ==> hist[i].InRam()
    ensures StoreAll(b, hist).Running?
    ensures var b' := StoreAll(b, hist).value;
            b' == b.(ram := b'.ram) && forall p :: 0 <= p < RAM_SIZE ==> b'.ram[p] == LastByte(b.ram, hist, p)
    decreases |hist|
  {
    hide BusState.Valid, StoreOne, Access.InRam, Write;
    if hist != [] {
      var before, a := hist[..|hist| - 1], hist[|hist| - 1];
      StoresAreFlat(b, before);
      var b1 := StoreAll(b, before).value;
      StoreOneWrites(b1, a);
      Fits(a);
      forall p | 0 <= p < RAM_SIZE
        ensures Write(b1.ram, a.Phys(), a.width, a.val)[p] == LastByte(b.ram, hist, p)
      {
        WriteAt(b1.ram, a.Phys(), a.width, a.val, p);
      }
    }
  }

  lemma Fits(a: Access)
    requires a.InRam()
    ensures a.Phys() + a.width <= RAM_SIZE
  {
  }

  /** A load of any width through any alias then returns those bytes, lowest first. */
  lemma LoadsSeeLastBytes(b: BusState, hist: seq<Access>, addr: Word, k: nat)
    requires b.Valid() && forall i :: 0 <= i < |hist| ==> hist[i].InRam()
    requires Contains(MaskRegion(addr), MainRam) != -1
    ensures StoreAll(b, hist).Running?
    ensures var b', p := StoreAll(b, hist).value, addr % 0x20_0000;
            && (k < 1 ==> var r := Load8(b', addr); r.Running? && ByteOf(r.value, k) == LastByte(b.ram, hist, p + k))
            && (p + 2 <= RAM_SIZE && k < 2 ==>
                  var r := Load16(b', addr); r.Running? && ByteOf(r.value, k) == LastByte(b.ram, hist, p + k))
            && (p + 4 <= RAM_SIZE && k < 4 ==>
                  var r := Load32(b', addr); r.Running? && ByteOf(r.value, k) == LastByte(b.ram, hist, p + k))
  {
    hide BusState.Valid, Read, LastByte, StoreAll, Load8, Load16, Load32;
    StoresAreFlat(b, hist);
    var b', p := StoreAll(b, hist).value, addr % 0x20_0000;
    LoadsReadRam(b', addr);
    if p + 4 <= RAM_SIZE && k < 4 { ReadByte(b'.ram, p, 4, k); }
    if p + 2 <= RAM_SIZE && k < 2 { ReadByte(b'.ram, p, 2, k); }
    if k < 1 { ByteItself(b'.ram[p]); }
  }

  lemma LoadsReadRam(b: BusState, addr: Word)
    requires b.Valid() && Contains(MaskRegion(addr), MainRam) != -1
    ensures var p := addr % 0x20_0000;
            && Load8(b, addr) == Running(b.ram[p])
            && (p + 2 <= RAM_SIZE ==> var r := Load16(b, addr); r.Running? && r.value == Read(b.ram, p, 2))
            && (p + 4 <= RAM_SIZE ==> var r := Load32(b, addr); r.Running? && r.value == Read(b.ram, p, 4))
  {
    hide BusState.Valid, Read;
    RamAliases(addr);
    Families(MainRam, MaskRegion(addr));
  }

  lemma ByteItself(x: Byte)
    ensures ByteOf(x, 0) == x
  {
  }

  lemma {:induction false} ReadByte(m: seq<Byte>, o: nat, n: nat, k: nat)
    requires o + n <= |m| && k < n
    ensures ByteOf(Read(m, o, n), k) == m[o + k]
    decreases n
  {
    if k > 0 {
      ReadByte(m, o + 1, n - 1, k - 1);
      var hi := Read(m, o + 1, n - 1);
      assert (m[o] + 256 * hi) / 256 == hi;
    }
  }
}
