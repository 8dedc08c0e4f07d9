/** Linked-list DMA over an arbitrary memory image. */
module LinkedListProofs {
  import opened Words
  import opened Outcomes
  import opened RamModel
  import opened GpuModel
  import opened GpuStream
  import opened BusModel

  /** The list at `addr` reaches an end marker after exactly `k` links. */
  predicate EndsAfter(ram: RamBytes, addr: nat, k: nat)
    decreases k
  {
    var header := Header(ram, addr);
    if k == 0 then IsLast(header) else !IsLast(header) && EndsAfter(ram, Next(header), k - 1)
  }

  /** The packets of the first `k + 1` entries, joined in list order. */
  function ListWords(ram: RamBytes, addr: nat, k: nat): seq<Word>
    decreases k
  {
    var header := Header(ram, addr);
    Packet(ram, addr, PacketSize(header)) + if k == 0 then [] else ListWords(ram, Next(header), k - 1)
  }

  /** The address of the `i`-th header. */
  function HeaderAddr(ram: RamBytes, addr: nat, i: nat): nat
    decreases i
  {
    if i == 0 then RamAddr(addr) else HeaderAddr(ram, Next(Header(ram, addr)), i - 1)
  }

  lemma {:induction false} WalkFeeds(ram: RamBytes, g: GpuState, addr: nat, k: nat)
    requires g.Valid() && EndsAfter(ram, addr, k)
    ensures Walk(ram, g, addr, k + 1) == Stream(g, ListWords(ram, addr, k))
    decreases k
  {
    hide RamAddr, Stream, GpuState.Valid, Packet, Read;
    var header := Header(ram, addr);
    var packet := Packet(ram, addr, PacketSize(header));
    if k == 0 {
      assert packet + [] == packet;
    } else {
      StreamSplit(g, packet, ListWords(ram, Next(header), k - 1));
      if Stream(g, packet).Running? {
        WalkFeeds(ram, Stream(g, packet).value, Next(header), k - 1);
      }
    }
  }

  /** A transfer that goes through ends at an end marker. */
  lemma {:induction false} WalkReachesEnd(ram: RamBytes, g: GpuState, addr: nat, fuel: nat) returns (k: nat)
    requires g.Valid() && Walk(ram, g, addr, fuel).Running?
    ensures k < fuel && EndsAfter(ram, addr, k)
    decreases fuel
  {
    hide RamAddr, Stream, GpuState.Valid, Packet, Read, PacketSize;
    var header := Header(ram, addr);
    if IsLast(header) {
      k := 0;
    } else {
      var fed := Stream(g, Packet(ram, addr, PacketSize(header)));
      k := WalkReachesEnd(ram, fed.value, Next(header), fuel - 1);
      k := k + 1;
    }
  }

  lemma {:induction false} EndUnique(ram: RamBytes, addr: nat, j: nat, k: nat)
    requires EndsAfter(ram, addr, j) && EndsAfter(ram, addr, k)
    ensures j == k
    decreases j
  {
    if j > 0 && k > 0 {
      EndUnique(ram, Next(Header(ram, addr)), j - 1, k - 1);
    }
  }

  lemma {:induction false} EndsFrom(ram: RamBytes, addr: nat, i: nat, k: nat)
    requires addr == RamAddr(addr) && i <= k && EndsAfter(ram, addr, k)
    ensures EndsAfter(ram, HeaderAddr(ram, addr, i), k - i)
    decreases i
  {
    if i > 0 {
      RamAddrTwice(Header(ram, addr));
      EndsFrom(ram, Next(Header(ram, addr)), i - 1, k - 1);
    }
  }

  lemma {:induction false} HeaderAddrMasked(ram: RamBytes, addr: nat, i: nat)
    ensures HeaderAddr(ram, addr, i) % 4 == 0 && HeaderAddr(ram, addr, i) < RAM_SIZE
    decreases i
  {
    if i > 0 { HeaderAddrMasked(ram, Next(Header(ram, addr)), i - 1); }
  }

  /** A list that ends visits no address twice, so it ends within as many links as there are
      words in memory. */
  lemma EndIsNear(ram: RamBytes, addr: nat, k: nat)
    requires addr == RamAddr(addr) && EndsAfter(ram, addr, k)
    ensures k < 0x8_0000
  {
    hide RamAddr, EndsAfter, HeaderAddr;
    var visited := seq(k + 1, i requires 0 <= i <= k => HeaderAddr(ram, addr, i) / 4);
    forall i | 0 <= i < |visited|
      ensures 0 <= visited[i] < 0x8_0000
    {
      HeaderAddrMasked(ram, addr, i);
    }
    forall i, j | 0 <= i < j < |visited|
      ensures visited[i] != visited[j]
    {
      HeaderAddrMasked(ram, addr, i);
      HeaderAddrMasked(ram, addr, j);
      if HeaderAddr(ram, addr, i) == HeaderAddr(ram, addr, j) {
        EndsFrom(ram, addr, i, k);
        EndsFrom(ram, addr, j, k);
        EndUnique(ram, HeaderAddr(ram, addr, i), k - i, k - j);
        assert false;
      }
    }
    Pigeonhole(visited, 0x8_0000);
  }

  lemma {:induction false} Pigeonhole(s: seq<nat>, n: nat)
    requires forall i :: 0 <= i < |s| ==> s[i] < n
    requires forall i, j :: 0 <= i < j < |s| ==> s[i] != s[j]
    ensures |s| <= n
    decreases n
  {
    if s != [] {
      assert s[0] < n;
      if p: nat :| p < |s| && s[p] == n - 1 {
        Pigeonhole(s[..p] + s[p + 1..], n - 1);
      } else {
        Pigeonhole(s, n - 1);
      }
    }
  }

  /** The transfer feeds GP0 exactly the packets, in list order, of a list that ends. */
  lemma ListFeeds(ram: RamBytes, g: GpuState, addr: nat, k: nat)
    requires g.Valid() && EndsAfter(ram, addr, k)
    ensures WalkList(ram, g, addr) == Stream(g, ListWords(ram, addr, k))
  {
    hide RamAddr, Stream, GpuState.Valid, EndsAfter, ListWords, Walk, WalkList;
    WalkFeeds(ram, g, addr, k);
    WalkListIs(ram, g, addr, k + 1);
  }

  ghost predicate HasNoEnd(ram: RamBytes, addr: nat) { forall k: nat :: !EndsAfter(ram, addr, k) }

  /** However far the list is followed, the GPU takes every word of its packets. */
  ghost predicate AllAccepted(ram: RamBytes, g: GpuState, addr: nat)
    requires g.Valid()
  {
    forall k: nat :: Stream(g, ListWords(ram, addr, k)).Running?
  }

  /** A list without an end, all of whose packets the GPU accepts, keeps the walk going. */
  lemma {:induction false} WalkGoesOn(ram: RamBytes, g: GpuState, addr: nat, fuel: nat)
    requires g.Valid() && HasNoEnd(ram, addr) && AllAccepted(ram, g, addr)
    ensures Walk(ram, g, addr, fuel) == Stopped(Endless)
    decreases fuel
  {
    hide RamAddr, Stream, GpuState.Valid, Packet, Read, PacketSize, IsLast, EndsAfter, ListWords;
    if fuel > 0 {
      var next, packet := Next(Header(ram, addr)), Packet(ram, addr, PacketSize(Header(ram, addr)));
      FirstLink(ram, addr);
      assert !EndsAfter(ram, addr, 0) && Stream(g, ListWords(ram, addr, 0)).Running?;
      forall k: nat
        ensures !EndsAfter(ram, next, k) && Stream(Stream(g, packet).value, ListWords(ram, next, k)).Running?
      {
        NextLink(ram, addr, k);
        assert !EndsAfter(ram, addr, k + 1) && Stream(g, ListWords(ram, addr, k + 1)).Running?;
        StreamSplit(g, packet, ListWords(ram, next, k));
      }
      WalkGoesOn(ram, Stream(g, packet).value, next, fuel - 1);
    }
  }

  lemma FirstLink(ram: RamBytes, addr: nat)
    ensures EndsAfter(ram, addr, 0) <==> IsLast(Header(ram, addr))
    ensures ListWords(ram, addr, 0) == Packet(ram, addr, PacketSize(Header(ram, addr)))
  {
    hide Packet, RamAddr, Read;
  }

  lemma NextLink(ram: RamBytes, addr: nat, k: nat)
    ensures EndsAfter(ram, addr, k + 1) <==> !IsLast(Header(ram, addr)) && EndsAfter(ram, Next(Header(ram, addr)), k)
    ensures ListWords(ram, addr, k + 1)
         == Packet(ram, addr, PacketSize(Header(ram, addr))) + ListWords(ram, Next(Header(ram, addr)), k)
  {
    hide Packet, RamAddr, Read;
  }

  /** A walk still going after `k + 1` headers has had all of their packets accepted. */
  lemma {:induction false} WalkAccepted(ram: RamBytes, g: GpuState, addr: nat, k: nat)
    requires g.Valid() && Walk(ram, g, addr, k + 1) == Stopped(Endless)
    ensures Stream(g, ListWords(ram, addr, k)).Running?
    decreases k
  {
    hide RamAddr, Stream, GpuState.Valid, Packet, Read, PacketSize, IsLast, EndsAfter, ListWords;
    var next, packet := Next(Header(ram, addr)), Packet(ram, addr, PacketSize(Header(ram, addr)));
    FirstLink(ram, addr);
    if k > 0 {
      NextLink(ram, addr, k - 1);
      WalkAccepted(ram, Stream(g, packet).value, next, k - 1);
      StreamSplit(g, packet, ListWords(ram, next, k - 1));
    }
  }

  /** When a linked-list transfer runs forever: exactly when the list has no end and the GPU
      accepts everything on it. */
  lemma ListNeverEnds(ram: RamBytes, g: GpuState, addr: nat)
    requires g.Valid()
    ensures WalkList(ram, g, addr) == Stopped(Endless) <==>
            HasNoEnd(ram, addr) && AllAccepted(ram, g, addr)
  {
    hide RamAddr, Stream, GpuState.Valid, EndsAfter, ListWords, Walk;
    if WalkList(ram, g, addr) == Stopped(Endless) {
      forall k: nat
        ensures !EndsAfter(ram, addr, k) && Stream(g, ListWords(ram, addr, k)).Running?
      {
        if EndsAfter(ram, addr, k) { ListFeeds(ram, g, addr, k); }
        WalkAccepted(ram, g, addr, k);
      }
    } else if HasNoEnd(ram, addr) && AllAccepted(ram, g, addr) {
      var k: nat :| Walk(ram, g, addr, k) != Stopped(Endless);
      WalkGoesOn(ram, g, addr, k);
    }
  }

  /** How a linked-list transfer ends. It completes exactly when the list ends within 0x80000
      links and the GPU accepts all of its words; it runs forever exactly when the list has no
      end and the GPU accepts everything on it; and otherwise it panics. */
  lemma ListCompletes(ram: RamBytes, g: GpuState, addr: nat)
    requires g.Valid() && addr == RamAddr(addr)
    ensures WalkList(ram, g, addr).Running? <==>
            exists k: nat :: k < 0x8_0000 && EndsAfter(ram, addr, k) && Stream(g, ListWords(ram, addr, k)).Running?
    ensures WalkList(ram, g, addr) == Stopped(Endless) <==>
            HasNoEnd(ram, addr) && AllAccepted(ram, g, addr)
  {
    hide RamAddr, Stream, GpuState.Valid, EndsAfter, ListWords;
    ListNeverEnds(ram, g, addr);
    if WalkList(ram, g, addr).Running? {
      var fuel: nat :| Walk(ram, g, addr, fuel) == WalkList(ram, g, addr);
      var k := WalkReachesEnd(ram, g, addr, fuel);
      EndIsNear(ram, addr, k);
      ListFeeds(ram, g, addr, k);
    }
    forall k: nat | EndsAfter(ram, addr, k)
      ensures WalkList(ram, g, addr) == Stream(g, ListWords(ram, addr, k))
    {
      ListFeeds(ram, g, addr, k);
    }
  }

  // ---- The end marker that the comments describe ----

  /** Bit 23, which no RAM address uses. */
  predicate Marked(header: Word) { header / 0x80_0000 % 2 == 1 }

  /** Followed until a header has bit 23 set, the list at `addr` ends after exactly `k` links. */
  predicate MarkedAfter(ram: RamBytes, addr: nat, k: nat)
    decreases k
  {
    var header := Header(ram, addr);
    if k == 0 then Marked(header) else !Marked(header) && MarkedAfter(ram, Next(header), k - 1)
  }

  /** Bit 0 and bit 23 agree in the `i`-th header. */
  predicate BitsAgree(ram: RamBytes, addr: nat, i: nat)
  {
    var header := Header(ram, HeaderAddr(ram, addr, i));
    IsLast(header) <==> Marked(header)
  }

  lemma AgreeHere(ram: RamBytes, addr: nat)
    ensures BitsAgree(ram, addr, 0) <==> (IsLast(Header(ram, addr)) <==> Marked(Header(ram, addr)))
  {
    RamAddrTwice(addr);
    hide RamAddr, Read, IsLast, Marked;
  }

  lemma AgreeNext(ram: RamBytes, addr: nat, i: nat)
    ensures BitsAgree(ram, addr, i + 1) <==> BitsAgree(ram, Next(Header(ram, addr)), i)
  {
    hide RamAddr, Read, IsLast, Marked;
  }

  /** The code stops where the comments say exactly when the two bits agree in every header on
      the way. */
  lemma {:induction false} EndsWhereMarked(ram: RamBytes, addr: nat, k: nat)
    requires MarkedAfter(ram, addr, k)
    ensures EndsAfter(ram, addr, k) <==> forall i :: 0 <= i <= k ==> BitsAgree(ram, addr, i)
    decreases k
  {
    hide RamAddr, Read, IsLast, Marked, BitsAgree, HeaderAddr;
    AgreeHere(ram, addr);
    if k > 0 {
      var next := Next(Header(ram, addr));
      EndsWhereMarked(ram, next, k - 1);
      forall i | 0 <= i < k
        ensures BitsAgree(ram, addr, i + 1) <==> BitsAgree(ram, next, i)
      {
        AgreeNext(ram, addr, i);
      }
      assert forall i :: 1 <= i <= k ==> (BitsAgree(ram, addr, i) <==> BitsAgree(ram, next, i - 1));
    }
  }

  /** A list that bit 23 ends after `k` links is followed to that end and no further exactly when
      the two bits agree in its headers; and then the GPU gets exactly its packets. */
  lemma MarkedListFeeds(ram: RamBytes, g: GpuState, addr: nat, k: nat)
    requires g.Valid() && MarkedAfter(ram, addr, k)
    ensures EndsAfter(ram, addr, k) <==> forall i :: 0 <= i <= k ==> BitsAgree(ram, addr, i)
    ensures EndsAfter(ram, addr, k) ==> WalkList(ram, g, addr) == Stream(g, ListWords(ram, addr, k))
  {
    hide RamAddr, Stream, GpuState.Valid, EndsAfter, ListWords, WalkList, MarkedAfter, BitsAgree;
    EndsWhereMarked(ram, addr, k);
    if EndsAfter(ram, addr, k) { ListFeeds(ram, g, addr, k); }
  }
}
