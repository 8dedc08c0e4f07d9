/** The ordering table: built by one transfer, walked by another. */
module OrderingTableProofs {
  import opened Words
  import opened RamModel
  import opened DmaModel
  import opened BusModel
  import opened LinkedListProofs

  const RAM_WORDS: nat := 0x8_0000

  /** The address of the `i`-th entry of a table filled downwards from `addr`. */
  function Slot(addr: Word, i: nat): nat { RamAddr(addr - 4 * i) }

  lemma SlotIndex(addr: Word, i: nat)
    ensures Slot(addr, i) == 4 * ((addr / 4 - i) % RAM_WORDS)
  {
    var x := addr - 4 * i;
    var q, r := x / 0x20_0000, x % 0x20_0000;
    var w := addr / 4 - i;
    assert w == 0x8_0000 * q + r / 4 by {
      assert 4 * w + addr % 4 == 0x20_0000 * q + 4 * (r / 4) + r % 4;
      ModUnique(x, 4, w, addr % 4);
      ModUnique(x, 4, 0x8_0000 * q + r / 4, r % 4);
    }
    ModUnique(w, 0x8_0000, q, r / 4);
  }

  lemma SlotsDistinct(addr: Word, i: nat, j: nat)
    requires i < j < i + RAM_WORDS
    ensures Slot(addr, i) != Slot(addr, j)
  {
    SlotIndex(addr, i);
    SlotIndex(addr, j);
    ModDistinct(addr / 4 - j, j - i);
  }

  lemma ModDistinct(x: int, d: nat)
    requires 0 < d < RAM_WORDS
    ensures (x + d) % RAM_WORDS != x % RAM_WORDS
  {
    var q, r := x / 0x8_0000, x % 0x8_0000;
    if r + d < 0x8_0000 {
      ModUnique(x + d, 0x8_0000, q, r + d);
    } else {
      ModUnique(x + d, 0x8_0000, q + 1, r + d - 0x8_0000);
    }
  }

  lemma SlotAdvance(addr: Word, i: nat)
    ensures Slot(Advance(addr, Decrement), i) == Slot(addr, i + 1)
  {
    RamAddrSame(Wrap(addr - 4) - 4 * i, addr - 4 - 4 * i, if addr < 4 then 0x800 else 0);
  }

  lemma RamAddrSame(x: int, y: int, k: int)
    requires x == y + 0x20_0000 * k
    ensures RamAddr(x) == RamAddr(y)
  {
    var q, r := y / 0x20_0000, y % 0x20_0000;
    ModUnique(x, 0x20_0000, q + k, r);
  }

  // ---- Contents of a filled table ----

  /** The address of the `i`-th entry of a table filled in either direction. */
  function Cell(addr: Word, step: AddressStep, i: nat): nat { RamAddr(addr + Stride(step) * i) }

  lemma SlotIsCell(addr: Word, i: nat)
    ensures Cell(addr, Decrement, i) == Slot(addr, i)
  {
    hide RamAddr;
    assert Stride(Decrement) * i == -4 * i;
  }

  lemma CellAdvance(addr: Word, step: AddressStep, i: nat)
    ensures Cell(Advance(addr, step), step, i) == Cell(addr, step, i + 1)
  {
    var s := Stride(step);
    var k := if addr + s < 0 then 0x800 else if addr + s >= 0x1_0000_0000 then -0x800 else 0;
    assert Advance(addr, step) == addr + s + 0x20_0000 * k;
    assert s * (i + 1) == s + s * i;
    hide RamAddr, Advance;
    RamAddrSame(Advance(addr, step) + s * i, addr + s * (i + 1), k);
  }

  /** Filling a table upwards or downwards changes no byte outside its words. */
  lemma {:induction false} FillElsewhere(ram: RamBytes, addr: Word, step: AddressStep, n: nat, q: nat)
    requires q < RAM_SIZE
    requires forall i :: 0 <= i < n ==> !(Cell(addr, step, i) <= q < Cell(addr, step, i) + 4)
    ensures OtcFill(ram, addr, step, n)[q] == ram[q]
    decreases n
  {
    hide RamAddr, Write, OtcEntry, Advance, Stride;
    if n > 0 {
      assert !(Cell(addr, step, 0) <= q < Cell(addr, step, 0) + 4);
      var ram' := Write32(ram, RamAddr(addr), OtcEntry(addr, n));
      WriteAt(ram, RamAddr(addr), 4, OtcEntry(addr, n), q);
      forall i | 0 <= i < n - 1
        ensures !(Cell(Advance(addr, step), step, i) <= q < Cell(Advance(addr, step), step, i) + 4)
      {
        CellAdvance(addr, step, i);
        assert !(Cell(addr, step, i + 1) <= q < Cell(addr, step, i + 1) + 4);
      }
      FillElsewhere(ram', Advance(addr, step), step, n - 1, q);
    }
  }

  /** The word written to the `i`-th entry, when it is not the last one. */
  function Link(addr: Word, i: nat): Word { (addr - 4 * i - 4) % 0x20_0000 }

  lemma LinkAdvance(addr: Word, i: nat)
    ensures Link(Advance(addr, Decrement), i) == Link(addr, i + 1)
  {
    var x := addr - 4 * i - 8;
    var k := if addr < 4 then 0x800 else 0;
    ModUnique(x + 0x20_0000 * k, 0x20_0000, x / 0x20_0000 + k, x % 0x20_0000);
  }

  /** A link carries no packet, has the end bit only for an odd base, and leads to the next slot. */
  lemma LinkMeans(addr: Word, i: nat)
    ensures PacketSize(Link(addr, i)) == 0 && (IsLast(Link(addr, i)) <==> addr % 2 == 1)
    ensures Next(Link(addr, i)) == Slot(addr, i + 1)
  {
    var x := addr - 4 * i - 4;
    var q, e := x / 0x20_0000, x % 0x20_0000;
    RamAddrSame(e, x, -q);
    ModUnique(addr, 2, 0x10_0000 * q + 2 * i + 2 + e / 2, e % 2);
  }

  /** Later entries leave the first one alone, if there are not too many of them. */
  lemma FirstSlotStays(ram: RamBytes, addr: Word, n: nat)
    requires n < RAM_WORDS
    ensures Header(OtcFill(ram, Advance(addr, Decrement), Decrement, n), Slot(addr, 0)) == Header(ram, Slot(addr, 0))
  {
    RamAddrTwice(addr - 4 * 0);
    hide RamAddr, Read, OtcFill, Advance, Cell;
    var next := Advance(addr, Decrement);
    forall q | Slot(addr, 0) <= q < Slot(addr, 0) + 4
      ensures OtcFill(ram, next, Decrement, n)[q] == ram[q]
    {
      forall j | 0 <= j < n
        ensures !(Cell(next, Decrement, j) <= q < Cell(next, Decrement, j) + 4)
      {
        SlotIsCell(next, j);
        SlotAdvance(addr, j);
        SlotsDistinct(addr, 0, j + 1);
        SlotIndex(addr, 0);
        SlotIndex(addr, j + 1);
      }
      FillElsewhere(ram, next, Decrement, n, q);
    }
    ReadDepends(OtcFill(ram, next, Decrement, n), ram, Slot(addr, 0), 4);
  }

  /** Each entry keeps what was written to it, unless a later entry falls on the same word. */
  lemma {:induction false} FillSlot(ram: RamBytes, addr: Word, n: nat, i: nat)
    requires i < n <= i + RAM_WORDS
    ensures Header(OtcFill(ram, addr, Decrement, n), Slot(addr, i)) == if i == n - 1 then 0xff_ffff else Link(addr, i)
    decreases n
  {
    var next := Advance(addr, Decrement);
    var ram' := Write32(ram, RamAddr(addr), OtcEntry(addr, n));
    if i == 0 {
      assert Pow256(4) == 0x1_0000_0000;
      assert Slot(addr, 0) == RamAddr(addr);
      assert OtcEntry(addr, n) == if n == 1 then 0xff_ffff else Link(addr, 0);
      RamAddrTwice(addr);
      hide RamAddr, Write, Read, Link, Slot, OtcEntry;
      ReadAfterWrite(ram, RamAddr(addr), 4, OtcEntry(addr, n));
      FirstSlotStays(ram', addr, n - 1);
    } else {
      hide RamAddr, Write, Read, Link, Slot, OtcEntry;
      SlotAdvance(addr, i - 1);
      FillSlot(ram', next, n - 1, i - 1);
      LinkAdvance(addr, i - 1);
    }
  }

  // ---- The list a filled table forms ----

  /** Links from the head of a table of `n` entries to its end marker. A table longer than
      memory overwrites itself, and an odd base puts the end bit in every entry. */
  function Links(addr: Word, n: nat): nat
    requires n >= 1
  {
    if addr % 2 == 0 then (n - 1) % RAM_WORDS else 0
  }

  /** The header at the `i`-th slot of a table that fits in memory and has an even base. */
  lemma SlotHeader(ram: RamBytes, addr: Word, n: nat, i: nat)
    requires i < n <= RAM_WORDS
    ensures var f, a := OtcFill(ram, addr, Decrement, n), Slot(addr, i);
            && RamAddr(a) == a && Packet(f, a, PacketSize(Header(f, a))) == []
            && (addr % 2 == 0 ==> (IsLast(Header(f, a)) <==> i == n - 1))
            && (i < n - 1 ==> Next(Header(f, a)) == Slot(addr, i + 1))
            && (addr % 2 == 1 ==> IsLast(Header(f, a)))
  {
    var f, a := OtcFill(ram, addr, Decrement, n), Slot(addr, i);
    assert RamAddr(a) == a by { RamAddrTwice(addr - 4 * i); }
    hide RamAddr, Read, OtcFill, Link, Slot, Next;
    FillSlot(ram, addr, n, i);
    LinkMeans(addr, i);
    NoPacket(f, a);
  }

  /** In a table that fits in memory the entries from `i` on form a list of empty packets. */
  lemma {:induction false} FillChain(ram: RamBytes, addr: Word, n: nat, i: nat)
    requires i < n <= RAM_WORDS && addr % 2 == 0
    ensures var f, a := OtcFill(ram, addr, Decrement, n), Slot(addr, i);
            EndsAfter(f, a, n - 1 - i) && ListWords(f, a, n - 1 - i) == []
    decreases n - i
  {
    hide RamAddr, Read, OtcFill, Slot, Next, Header, Packet, PacketSize, IsLast;
    SlotHeader(ram, addr, n, i);
    if i < n - 1 {
      FillChain(ram, addr, n, i + 1);
    }
  }

  /** Walking that list visits the slots in the order they were written. */
  lemma {:induction false} FillVisits(ram: RamBytes, addr: Word, n: nat, i: nat, j: nat)
    requires i + j < n <= RAM_WORDS
    ensures HeaderAddr(OtcFill(ram, addr, Decrement, n), Slot(addr, i), j) == Slot(addr, i + j)
    decreases j
  {
    hide RamAddr, Read, OtcFill, Slot, Next, Header, Packet, PacketSize, IsLast;
    SlotHeader(ram, addr, n, i);
    if j > 0 {
      FillVisits(ram, addr, n, i + 1, j - 1);
    }
  }

  lemma NoPacket(ram: RamBytes, addr: nat)
    ensures Packet(ram, addr, 0) == [] && PacketSize(0xff_ffff) == 0 && IsLast(0xff_ffff)
  {
  }

  lemma FillStep(ram: RamBytes, addr: Word, n: nat) returns (ram': RamBytes)
    requires n > 0
    ensures OtcFill(ram, addr, Decrement, n) == OtcFill(ram', Wrap(addr - 4), Decrement, n - 1)
  {
    hide RamAddr, Write, OtcEntry;
    ram' := Write32(ram, RamAddr(addr), OtcEntry(addr, n));
  }

  /** A table longer than memory is a table that fits, written over what came before. */
  lemma {:induction false} FillPeel(ram: RamBytes, addr: Word, n: nat, m: nat) returns (ram': RamBytes, addr': Word)
    requires m <= n
    ensures OtcFill(ram, addr, Decrement, n) == OtcFill(ram', addr', Decrement, n - m)
    ensures addr' == Wrap(addr - 4 * m)
    decreases m
  {
    hide OtcFill, Wrap;
    OneMore(addr, m);
    if m == 0 {
      ram', addr' := ram, addr;
    } else {
      var ram1 := FillStep(ram, addr, n);
      var next := Wrap(addr - 4);
      ram', addr' := FillPeel(ram1, next, n - 1, m - 1);
    }
  }

  lemma OneMore(addr: Word, m: nat)
    ensures Wrap(addr - 4 * 0) == addr
    ensures Wrap(Wrap(addr - 4) - 4 * (m - 1)) == Wrap(addr - 4 * m)
  {
    WrapAdd(addr - 4, -4 * (m - 1));
  }

  /** For every base and every length, the table that the clearing transfer leaves in memory
      is a list that starts at the base, carries no packet and ends after `Links` links. */
  lemma {:induction false} TableEnds(ram: RamBytes, addr: Word, n: nat)
    requires n >= 1
    ensures var f := OtcFill(ram, addr, Decrement, n);
            EndsAfter(f, RamAddr(addr), Links(addr, n)) && ListWords(f, RamAddr(addr), Links(addr, n)) == []
    decreases n, 1
  {
    if n > RAM_WORDS {
      LongTable(ram, addr, n);
    } else if addr % 2 == 0 {
      LinksExact(addr, n);
      assert Slot(addr, 0) == RamAddr(addr);
      hide RamAddr, EndsAfter, ListWords, OtcFill, Links;
      FillChain(ram, addr, n, 0);
    } else {
      OddTable(ram, addr, n);
    }
  }

  lemma LongTable(ram: RamBytes, addr: Word, n: nat)
    requires n > RAM_WORDS
    ensures var f := OtcFill(ram, addr, Decrement, n);
            EndsAfter(f, RamAddr(addr), Links(addr, n)) && ListWords(f, RamAddr(addr), Links(addr, n)) == []
    decreases n, 0
  {
    hide RamAddr, EndsAfter, ListWords, OtcFill, Links, Wrap;
    var ram', addr' := FillPeel(ram, addr, n, RAM_WORDS);
    LinksAgain(addr, addr', n);
    TableEnds(ram', addr', n - RAM_WORDS);
  }

  lemma OddTable(ram: RamBytes, addr: Word, n: nat)
    requires 1 <= n <= RAM_WORDS && addr % 2 == 1
    ensures var f := OtcFill(ram, addr, Decrement, n);
            EndsAfter(f, RamAddr(addr), 0) && ListWords(f, RamAddr(addr), 0) == []
  {
    assert Slot(addr, 0) == RamAddr(addr);
    hide RamAddr, Read, OtcFill, Slot, Next, Header, Packet, PacketSize, IsLast;
    SlotHeader(ram, addr, n, 0);
  }

  lemma LinksAgain(addr: Word, addr': Word, n: nat)
    requires n > RAM_WORDS && addr' == Wrap(addr - 4 * RAM_WORDS)
    ensures Links(addr, n) == Links(addr', n - RAM_WORDS)
    ensures RamAddr(addr') == RamAddr(addr)
  {
    var k := if addr < 0x20_0000 then 0x7ff else -1;
    assert addr' == addr + 0x20_0000 * k;
    hide RamAddr, Wrap;
    RamAddrSame(addr', addr, k);
    ModUnique(addr', 2, addr / 2 + 0x10_0000 * k, addr % 2);
    ModUnique(n - 1, RAM_WORDS, (n - 1 - RAM_WORDS) / RAM_WORDS + 1, (n - 1 - RAM_WORDS) % RAM_WORDS);
  }

  /** The number of links is one less than the number of entries exactly when the table fits
      in memory and its base is even, or has a single entry. */
  lemma LinksExact(addr: Word, n: nat)
    requires n >= 1
    ensures Links(addr, n) + 1 == n <==> (addr % 2 == 0 && n <= RAM_WORDS) || n == 1
  {
    if n <= RAM_WORDS { ModUnique(n - 1, RAM_WORDS, 0, n - 1); }
  }

  /** Walking the cleared table from its base visits all `n` entries and then ends, exactly
      when the table fits in memory and its base is even, or it has a single entry. */
  lemma VisitsEveryEntry(ram: RamBytes, addr: Word, n: nat)
    requires n >= 1
    ensures var f := OtcFill(ram, addr, Decrement, n);
            EndsAfter(f, RamAddr(addr), n - 1)
            && (forall j :: 0 <= j < n ==> HeaderAddr(f, RamAddr(addr), j) == Slot(addr, j))
            <==> (addr % 2 == 0 && n <= RAM_WORDS) || n == 1
  {
    var f := OtcFill(ram, addr, Decrement, n);
    assert Slot(addr, 0) == RamAddr(addr);
    hide RamAddr, EndsAfter, OtcFill, Links, Slot, HeaderAddr, ListWords;
    TableEnds(ram, addr, n);
    LinksExact(addr, n);
    if EndsAfter(f, RamAddr(addr), n - 1) { EndUnique(f, RamAddr(addr), n - 1, Links(addr, n)); }
    if n <= RAM_WORDS {
      forall j | 0 <= j < n
        ensures HeaderAddr(f, RamAddr(addr), j) == Slot(addr, j)
      {
        FillVisits(ram, addr, n, 0, j);
      }
    }
  }
}
