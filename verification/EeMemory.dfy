/** The byte memory of the emulated console, as the bridge and the processor
    see it: little-endian 32-bit words over bytes; an address never written
    reads as zero. */
module EeMemory {

  type Byte = b: nat | b < 256
  type Word = w: nat | w < 0x1_0000_0000
  type Memory = map<nat, Byte>

  function Rd8(m: Memory, a: nat): Byte {
    if a in m then m[a] else 0
  }

  function Rd32(m: Memory, a: nat): Word {
    Rd8(m, a) + 0x100 * Rd8(m, a + 1) + 0x1_0000 * Rd8(m, a + 2) + 0x100_0000 * Rd8(m, a + 3)
  }

  function Wr8(m: Memory, a: nat, v: Byte): Memory {
    m[a := v]
  }

  function Wr32(m: Memory, a: nat, v: Word): Memory {
    m[a := v % 256][a + 1 := v / 0x100 % 256][a + 2 := v / 0x1_0000 % 256][a + 3 := v / 0x100_0000]
  }

  /** `bridge.write`: consecutive bytes. */
  function WrBytes(m: Memory, a: nat, bs: seq<Byte>): (r: Memory)
    decreases |bs|
  {
    if bs == [] then m else WrBytes(m[a := bs[0]], a + 1, bs[1..])
  }

  /** `bridge.read`. */
  function RdBytes(m: Memory, a: nat, n: nat): (bs: seq<Byte>)
    ensures |bs| == n
  {
    seq<Byte>(n, i requires 0 <= i < n => Rd8(m, a + i))
  }

  /** The memories differ only inside [lo, hi). */
  ghost predicate SameOutside(m: Memory, m': Memory, lo: nat, hi: nat) {
    forall a: nat :: a < lo || hi <= a ==> Rd8(m', a) == Rd8(m, a)
  }

  /** The memories agree on [lo, hi). */
  ghost predicate SameWithin(m: Memory, m': Memory, lo: nat, hi: nat) {
    forall a: nat :: lo <= a < hi ==> Rd8(m', a) == Rd8(m, a)
  }

  lemma Rd32Same(m: Memory, m': Memory, a: nat)
    requires SameWithin(m, m', a, a + 4)
    ensures Rd32(m', a) == Rd32(m, a)
  {
    assert Rd8(m', a) == Rd8(m, a) && Rd8(m', a + 1) == Rd8(m, a + 1);
    assert Rd8(m', a + 2) == Rd8(m, a + 2) && Rd8(m', a + 3) == Rd8(m, a + 3);
  }

  lemma WordBytes(v: Word)
    ensures v % 256 + 0x100 * (v / 0x100 % 256) + 0x1_0000 * (v / 0x1_0000 % 256) + 0x100_0000 * (v / 0x100_0000) == v
  {
    assert v / 0x1_0000 == v / 0x100 / 0x100 && v / 0x100_0000 == v / 0x100 / 0x100 / 0x100;
  }

  lemma Wr32Effect(m: Memory, a: nat, v: Word)
    ensures Rd32(Wr32(m, a, v), a) == v
    ensures SameOutside(m, Wr32(m, a, v), a, a + 4)
    ensures forall b: nat :: b + 4 <= a || a + 4 <= b ==> Rd32(Wr32(m, a, v), b) == Rd32(m, b)
  {
    WordBytes(v);
  }

  lemma Wr8Effect(m: Memory, a: nat, v: Byte)
    ensures Rd8(Wr8(m, a, v), a) == v
    ensures SameOutside(m, Wr8(m, a, v), a, a + 1)
    ensures forall b: nat :: b + 4 <= a || a < b ==> Rd32(Wr8(m, a, v), b) == Rd32(m, b)
  {
  }

  lemma {:induction false} WrBytesEffect(m: Memory, a: nat, bs: seq<Byte>)
    ensures SameOutside(m, WrBytes(m, a, bs), a, a + |bs|)
    ensures forall i :: 0 <= i < |bs| ==> Rd8(WrBytes(m, a, bs), a + i) == bs[i]
    decreases |bs|
  {
    if bs != [] {
      WrBytesEffect(m[a := bs[0]], a + 1, bs[1..]);
      forall i | 0 <= i < |bs|
        ensures Rd8(WrBytes(m, a, bs), a + i) == bs[i]
      {
        if i > 0 {
          assert bs[1..][i - 1] == bs[i];
          assert a + i == (a + 1) + (i - 1);
        }
      }
    }
  }
}
