/** A linked list read straight from the bytes of memory: how long its packets are, which words
    they hold, where it goes on and where it ends. */
module ListMemory {
  import opened Words
  import opened Outcomes
  import opened RamModel
  import opened DmaModel
  import opened GpuModel
  import opened GpuStream
  import opened BusModel
  import opened LinkedListProofs

  /** The lowest byte of the `i`-th header, which holds the end bit. */
  function LowByte(ram: RamBytes, addr: nat, i: nat): Byte
  {
    HeaderAddrMasked(ram, addr, i); ram[HeaderAddr(ram, addr, i)]
  }

  /** The top byte of the `i`-th header, which holds the size of its packet in words. */
  function TopByte(ram: RamBytes, addr: nat, i: nat): Byte
  {
    HeaderAddrMasked(ram, addr, i); ram[HeaderAddr(ram, addr, i) + 3]
  }

  /** The packet sizes of the first `k` entries added up. */
  function SizesBefore(ram: RamBytes, addr: nat, k: nat): nat
  {
    if k == 0 then 0 else SizesBefore(ram, addr, k - 1) + TopByte(ram, addr, k - 1)
  }

  /** The fields of a header, in bytes: the packet size on top, the end bit at the bottom, and
      between them the next address. */
  lemma HeaderBytes(ram: RamBytes, addr: nat)
    requires addr == RamAddr(addr)
    ensures var header := Header(ram, addr);
            && PacketSize(header) == ram[addr + 3]
            && (IsLast(header) <==> ram[addr] % 2 == 1)
            && Next(header) == And(header, 0x1f_fffc)
            && header == Read32(ram, addr)
  {
    var header := Header(ram, addr);
    RamAddrIsMask(header);
    hide RamAddr, And, Read;
    Unroll(ram, addr);
    var low: int := (ram[addr] as int) + 0x100 * (ram[addr + 1] as int) + 0x1_0000 * (ram[addr + 2] as int);
    ModUnique(header, 0x100_0000, ram[addr + 3], low);
    ModUnique(header, 2, header / 2, ram[addr] % 2);
  }

  /** Where each header is: the list goes on at the low 21 bits of a header, word aligned. */
  lemma {:induction false} HeaderFollows(ram: RamBytes, addr: nat, i: nat)
    requires addr == RamAddr(addr)
    ensures HeaderAddr(ram, addr, 0) == addr
    ensures HeaderAddr(ram, addr, i) == RamAddr(HeaderAddr(ram, addr, i))
    ensures HeaderAddr(ram, addr, i + 1) == And(Read32(ram, HeaderAddr(ram, addr, i)), 0x1f_fffc)
    decreases i
  {
    HeaderBytes(ram, addr);
    RamAddrTwice(Header(ram, addr));
    hide RamAddr, And, Read, Header;
    if i > 0 {
      HeaderFollows(ram, Next(Header(ram, addr)), i - 1);
    }
  }

  /** The entries of the rest of a list are those of the list, one further on. */
  lemma NextEntry(ram: RamBytes, addr: nat, i: nat)
    requires addr == RamAddr(addr)
    ensures var next := Next(Header(ram, addr));
            && next == RamAddr(next)
            && LowByte(ram, addr, i + 1) == LowByte(ram, next, i) && TopByte(ram, addr, i + 1) == TopByte(ram, next, i)
            && HeaderAddr(ram, addr, i + 1) == HeaderAddr(ram, next, i)
    ensures HeaderAddr(ram, addr, 0) == addr
    ensures LowByte(ram, addr, 0) == ram[addr] && TopByte(ram, addr, 0) == ram[addr + 3]
  {
    RamAddrTwice(Header(ram, addr));
    hide RamAddr, Read;
  }

  /** Where the list ends: at the first header whose lowest byte is odd. */
  lemma {:induction false} EndsAtOddHeader(ram: RamBytes, addr: nat, k: nat)
    requires addr == RamAddr(addr)
    ensures EndsAfter(ram, addr, k) <==>
            LowByte(ram, addr, k) % 2 == 1 && forall i :: 0 <= i < k ==> LowByte(ram, addr, i) % 2 == 0
    decreases k
  {
    HeaderBytes(ram, addr);
    NextEntry(ram, addr, k);
    hide RamAddr, And, Read, Header, LowByte, TopByte, HeaderAddr;
    if k > 0 {
      var next := Next(Header(ram, addr));
      EndsAtOddHeader(ram, next, k - 1);
      NextEntry(ram, addr, k - 1);
      forall i | 0 <= i < k
        ensures LowByte(ram, addr, i + 1) == LowByte(ram, next, i)
      {
        NextEntry(ram, addr, i);
      }
      assert forall i :: 1 <= i <= k ==> LowByte(ram, addr, i) == LowByte(ram, next, i - 1);
    }
  }

  lemma {:induction false} SizesShift(ram: RamBytes, addr: nat, k: nat)
    requires addr == RamAddr(addr)
    ensures SizesBefore(ram, addr, k + 1) == ram[addr + 3] + SizesBefore(ram, Next(Header(ram, addr)), k)
    decreases k
  {
    NextEntry(ram, addr, if k > 0 then k - 1 else 0);
    hide RamAddr, Read, Header, LowByte, TopByte, HeaderAddr;
    if k > 0 { SizesShift(ram, addr, k - 1); }
  }

  /** The list's words: those of its first packet, then those of the rest of the list. */
  lemma FirstPacket(ram: RamBytes, addr: nat, k: nat)
    requires addr == RamAddr(addr)
    ensures var ws := ListWords(ram, addr, k);
            var rest := if k == 0 then [] else ListWords(ram, Next(Header(ram, addr)), k - 1);
            && |ws| == ram[addr + 3] + |rest|
            && (forall p :: 0 <= p < |rest| ==> ws[ram[addr + 3] + p] == rest[p])
  {
    hide RamAddr, And, Read, Header, PacketSize, IsLast, Next;
    HeaderBytes(ram, addr);
    assert |Packet(ram, addr, ram[addr + 3])| == ram[addr + 3];
  }

  lemma FirstPacketAt(ram: RamBytes, addr: nat, k: nat, j: nat)
    requires addr == RamAddr(addr) && j < ram[addr + 3]
    ensures j < |ListWords(ram, addr, k)|
    ensures ListWords(ram, addr, k)[j] == Read32(ram, And(addr + 4 * (j + 1), 0x1f_fffc))
  {
    hide RamAddr, And, Read, Header, PacketSize, IsLast, Next;
    RamAddrIsMask(addr + 4 * (j + 1));
    HeaderBytes(ram, addr);
    assert |Packet(ram, addr, ram[addr + 3])| == ram[addr + 3];
  }

  /** How many words the list holds: the top bytes of its headers, added up. */
  lemma {:induction false} ListLength(ram: RamBytes, addr: nat, k: nat)
    requires addr == RamAddr(addr)
    ensures |ListWords(ram, addr, k)| == SizesBefore(ram, addr, k + 1)
    decreases k
  {
    hide RamAddr, Header, ListWords, SizesBefore, Next, TopByte, LowByte, HeaderAddr;
    var next := Next(Header(ram, addr));
    NextEntry(ram, addr, 0);
    FirstPacket(ram, addr, k);
    SizesShift(ram, addr, k);
    if k > 0 { ListLength(ram, next, k - 1); } else { NoSizes(ram, next); }
  }

  lemma NoSizes(ram: RamBytes, addr: nat)
    ensures SizesBefore(ram, addr, 0) == 0
  {
  }

  /** Word `j` of packet `i` is where it should be in `ws`. */
  predicate HasWord(ram: RamBytes, addr: nat, ws: seq<Word>, i: nat, j: nat)
  {
    && SizesBefore(ram, addr, i) + j < |ws|
    && ws[SizesBefore(ram, addr, i) + j] == Read32(ram, And(HeaderAddr(ram, addr, i) + 4 * (j + 1), 0x1f_fffc))
  }

  /** `ws` is the packets of the first `k + 1` entries and nothing more. */
  predicate IsPackets(ram: RamBytes, addr: nat, k: nat, ws: seq<Word>)
  {
    && |ws| == SizesBefore(ram, addr, k + 1)
    && forall i: nat, j: nat :: i <= k && j < TopByte(ram, addr, i) ==> HasWord(ram, addr, ws, i, j)
  }

  /** Which words they are: the `j`-th of the `i`-th packet is the one `j + 1` words after its
      header, with the 2 MB wrap. */
  lemma {:induction false} ListWordAt(ram: RamBytes, addr: nat, k: nat, i: nat, j: nat)
    requires addr == RamAddr(addr) && i <= k && j < TopByte(ram, addr, i)
    ensures HasWord(ram, addr, ListWords(ram, addr, k), i, j)
    decreases k
  {
    hide RamAddr, And, Read, Header, ListWords, SizesBefore, TopByte, LowByte, HeaderAddr, Next, HasWord;
    if i == 0 {
      FirstHasWord(ram, addr, k, j);
    } else {
      var next := Next(Header(ram, addr));
      NextEntry(ram, addr, i - 1);
      FirstPacket(ram, addr, k);
      ListWordAt(ram, next, k - 1, i - 1, j);
      LaterHasWord(ram, addr, ListWords(ram, addr, k), ListWords(ram, next, k - 1), i, j);
    }
  }

  lemma FirstHasWord(ram: RamBytes, addr: nat, k: nat, j: nat)
    requires addr == RamAddr(addr) && j < TopByte(ram, addr, 0)
    ensures HasWord(ram, addr, ListWords(ram, addr, k), 0, j)
  {
    hide RamAddr, And, Read, Header, ListWords, SizesBefore, TopByte, LowByte, HeaderAddr, Next;
    NextEntry(ram, addr, 0);
    NoSizes(ram, addr);
    FirstPacketAt(ram, addr, k, j);
  }

  lemma LaterHasWord(ram: RamBytes, addr: nat, ws: seq<Word>, rest: seq<Word>, i: nat, j: nat)
    requires addr == RamAddr(addr) && i > 0 && |ws| == ram[addr + 3] + |rest|
    requires forall p :: 0 <= p < |rest| ==> ws[ram[addr + 3] + p] == rest[p]
    requires HasWord(ram, Next(Header(ram, addr)), rest, i - 1, j)
    ensures HasWord(ram, addr, ws, i, j)
  {
    hide RamAddr, And, Read, Header, SizesBefore, TopByte, LowByte, HeaderAddr, Next;
    NextEntry(ram, addr, i - 1);
    SizesShift(ram, addr, i - 1);
    var p := SizesBefore(ram, Next(Header(ram, addr)), i - 1) + j;
    assert ws[ram[addr + 3] + p] == rest[p];
  }

  /** A linked-list transfer from any channel state that allows it, on a list whose first odd
      header is the `k`-th: the GPU gets the packets and nothing else, memory stays, and the
      channel is disabled. Stated of the bytes in memory alone. */
  lemma TransferFromMemory(b: BusState, k: nat) returns (ws: seq<Word>)
    requires b.Valid()
    requires var c := b.dma.channels[GPU_PORT]; c.direction.FromRam? && c.sync.LinkedList?
    requires var addr := And(b.dma.channels[GPU_PORT].base, 0x1f_fffc);
             LowByte(b.ram, addr, k) % 2 == 1 && forall i :: 0 <= i < k ==> LowByte(b.ram, addr, i) % 2 == 0
    ensures IsPackets(b.ram, And(b.dma.channels[GPU_PORT].base, 0x1f_fffc), k, ws)
    ensures var fed := Stream(b.gpu, ws);
            Transfer(b, GPU_PORT)
            == if fed.Stopped? then Stopped(fed.why) else Running(b.(gpu := fed.value).Finish(GPU_PORT))
  {
    hide GpuState.Valid, Stream, RamAddr, And, Read, EndsAfter, ListWords, WalkList, SizesBefore, LowByte, TopByte,
         HeaderAddr, HasWord;
    var base := b.dma.channels[GPU_PORT].base;
    var addr := RamAddr(base);
    RamAddrIsMask(base);
    RamAddrTwice(base);
    EndsAtOddHeader(b.ram, addr, k);
    ListFeeds(b.ram, b.gpu, addr, k);
    ListLength(b.ram, addr, k);
    ws := ListWords(b.ram, addr, k);
    forall i: nat, j: nat | i <= k && j < TopByte(b.ram, addr, i)
      ensures HasWord(b.ram, addr, ws, i, j)
    {
      ListWordAt(b.ram, addr, k, i, j);
    }
  }
}
