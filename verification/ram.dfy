/** Main memory: a byte buffer read and written in little-endian units. */
module RamModel {
  import opened Words

  const RAM_SIZE := 0x20_0000

  type RamBytes = s: seq<Byte> | |s| == RAM_SIZE witness seq(RAM_SIZE, _ => 0xca)

  // ---- What an access of `n` bytes means ----

  function Pow256(n: nat): (r: nat)
    ensures r >= 1
  {
    if n == 0 then 1 else 256 * Pow256(n - 1)
  }

  /** The number whose little-endian digits are the `n` bytes at `o`. */
  function Read(m: seq<Byte>, o: nat, n: nat): (r: nat)
    requires o + n <= |m|
    ensures r < Pow256(n)
    decreases n
  {
    if n == 0 then 0 else m[o] + 256 * Read(m, o + 1, n - 1)
  }

  /** Memory after the `n` low bytes of `v` are written at `o`. */
  function Write(m: seq<Byte>, o: nat, n: nat, v: nat): (r: seq<Byte>)
    requires o + n <= |m|
    ensures |r| == |m|
    decreases n
  {
    if n == 0 then m else Write(m[o := v % 256], o + 1, n - 1, v / 256)
  }

  /** The `k`-th byte of `v`, lowest first. */
  function ByteOf(v: nat, k: nat): Byte
  {
    if k == 0 then v % 256 else ByteOf(v / 256, k - 1)
  }

  function Read32(m: seq<Byte>, o: nat): Word
    requires o + 4 <= |m|
  {
    assert Pow256(4) == 0x1_0000_0000;
    Read(m, o, 4)
  }

  function Write32(m: seq<Byte>, o: nat, v: Word): (r: seq<Byte>)
    requires o + 4 <= |m|
    ensures |r| == |m|
  {
    Write(m, o, 4, v)
  }

  /** A write puts its bytes where it should and touches no other byte. */
  lemma {:induction false} WriteAt(m: seq<Byte>, o: nat, n: nat, v: nat, p: nat)
    requires o + n <= |m| && p < |m|
    ensures Write(m, o, n, v)[p] == if o <= p < o + n then ByteOf(v, p - o) else m[p]
    decreases n
  {
    if n > 0 {
      WriteAt(m[o := v % 256], o + 1, n - 1, v / 256, p);
    }
  }

  /** A read sees its own bytes and nothing else. */
  lemma {:induction false} ReadDepends(m: seq<Byte>, m': seq<Byte>, o: nat, n: nat)
    requires o + n <= |m| && o + n <= |m'|
    requires forall p :: o <= p < o + n ==> m[p] == m'[p]
    ensures Read(m, o, n) == Read(m', o, n)
    decreases n
  {
    if n > 0 { ReadDepends(m, m', o + 1, n - 1); }
  }

  lemma {:induction false} ReadFromBytes(m: seq<Byte>, o: nat, n: nat, v: nat)
    requires o + n <= |m| && v < Pow256(n)
    requires forall p :: o <= p < o + n ==> m[p] == ByteOf(v, p - o)
    ensures Read(m, o, n) == v
    decreases n
  {
    if n > 0 {
      assert m[o] == ByteOf(v, 0);
      forall p | o + 1 <= p < o + n
        ensures m[p] == ByteOf(v / 256, p - (o + 1))
      {
        assert m[p] == ByteOf(v, p - o);
      }
      ReadFromBytes(m, o + 1, n - 1, v / 256);
    }
  }

  lemma ReadAfterWrite(m: seq<Byte>, o: nat, n: nat, v: nat)
    requires o + n <= |m| && v < Pow256(n)
    ensures Read(Write(m, o, n, v), o, n) == v
  {
    forall p | o <= p < o + n
      ensures Write(m, o, n, v)[p] == ByteOf(v, p - o)
    {
      WriteAt(m, o, n, v, p);
    }
    ReadFromBytes(Write(m, o, n, v), o, n, v);
  }

  lemma ReadElsewhere(m: seq<Byte>, o: nat, n: nat, v: nat, p: nat, k: nat)
    requires o + n <= |m| && p + k <= |m|
    requires p + k <= o || o + n <= p
    ensures Read(Write(m, o, n, v), p, k) == Read(m, p, k)
  {
    forall q | p <= q < p + k
      ensures Write(m, o, n, v)[q] == m[q]
    {
      WriteAt(m, o, n, v, q);
    }
    ReadDepends(Write(m, o, n, v), m, p, k);
  }

  // ---- The device ----

  class Ram {
    const data: array<Byte>

    ghost predicate Valid() { data.Length == RAM_SIZE }

    ghost function Bytes(): RamBytes
      reads data
    {
      if Valid() then data[..] else seq(RAM_SIZE, _ => 0)
    }

    constructor ()
      ensures Valid() && fresh(data)
      ensures forall i :: 0 <= i < RAM_SIZE ==> Bytes()[i] == 0xca
    {
      data := new Byte[RAM_SIZE](_ => 0xca);
    }

    method Load32(offset: nat) returns (r: Word)
      requires Valid() && offset + 4 <= RAM_SIZE
      ensures r == Read(Bytes(), offset, 4)
    {
      var b0: int, b1: int, b2: int, b3: int := data[offset], data[offset + 1], data[offset + 2], data[offset + 3];
      Unroll(Bytes(), offset);
      r := b0 + b1 * 0x100 + b2 * 0x1_0000 + b3 * 0x100_0000;
    }

    method Store32(offset: nat, val: Word)
      requires Valid() && offset + 4 <= RAM_SIZE
      modifies data
      ensures Bytes() == Write(old(Bytes()), offset, 4, val)
    {
      ghost var was := Bytes();
      data[offset] := val % 0x100;
      data[offset + 1] := val / 0x100 % 0x100;
      data[offset + 2] := val / 0x1_0000 % 0x100;
      data[offset + 3] := val / 0x100_0000 % 0x100;
      UnrollWrite(was, offset, val);
    }

    method Load16(offset: nat) returns (r: Half)
      requires Valid() && offset + 2 <= RAM_SIZE
      ensures r == Read(Bytes(), offset, 2)
    {
      var b0: int, b1: int := data[offset], data[offset + 1];
      assert Read(Bytes(), offset, 2) == b0 + 256 * Read(Bytes(), offset + 1, 1);
      r := b0 + b1 * 0x100;
    }

    method Store16(offset: nat, val: Half)
      requires Valid() && offset + 2 <= RAM_SIZE
      modifies data
      ensures Bytes() == Write(old(Bytes()), offset, 2, val)
    {
      ghost var was := Bytes();
      data[offset] := val % 0x100;
      data[offset + 1] := val / 0x100 % 0x100;
      assert Write(was, offset, 2, val) == Write(was[offset := val % 256], offset + 1, 1, val / 256);
    }

    method Load8(offset: nat) returns (r: Byte)
      requires Valid() && offset + 1 <= RAM_SIZE
      ensures r == Read(Bytes(), offset, 1)
    {
      r := data[offset];
    }

    method Store8(offset: nat, val: Byte)
      requires Valid() && offset + 1 <= RAM_SIZE
      modifies data
      ensures Bytes() == Write(old(Bytes()), offset, 1, val)
    {
      data[offset] := val;
    }
  }

  lemma Unroll(m: seq<Byte>, o: nat)
    requires o + 4 <= |m|
    ensures Read(m, o, 4) == (m[o] as int) + 0x100 * (m[o + 1] as int) + 0x1_0000 * (m[o + 2] as int)
                             + 0x100_0000 * (m[o + 3] as int)
  {
    assert Read(m, o + 2, 2) == m[o + 2] + 256 * Read(m, o + 3, 1);
  }

  lemma UnrollWrite(m: seq<Byte>, o: nat, v: Word)
    requires o + 4 <= |m|
    ensures Write(m, o, 4, v)
         == m[o := v % 0x100][o + 1 := v / 0x100 % 0x100]
             [o + 2 := v / 0x1_0000 % 0x100][o + 3 := v / 0x100_0000 % 0x100]
  {
    var m1 := m[o := v % 0x100];
    var m2 := m1[o + 1 := v / 0x100 % 0x100];
    assert Write(m, o, 4, v) == Write(m1, o + 1, 3, v / 0x100) == Write(m2, o + 2, 2, v / 0x1_0000);
    assert Write(m2, o + 2, 2, v / 0x1_0000)
        == Write(m2[o + 2 := v / 0x1_0000 % 0x100], o + 3, 1, v / 0x100_0000);
  }
}
