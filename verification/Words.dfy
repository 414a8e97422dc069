/** Numbers in DRAM spelled out byte by byte, at their physical addresses. */
module Words {
  import opened Bytes
  import opened Memory

  /** The byte at a physical address of DRAM, which starts at 0x8000_0000. */
  function At(m: seq<Byte>, a: nat): Byte {
    if 0x8000_0000 <= a < 0x8000_0000 + |m| then m[a - 0x8000_0000] else 0
  }

  predicate Inside(m: seq<Byte>, a: nat, n: nat) {
    0x8000_0000 <= a && a + n <= 0x8000_0000 + |m|
  }

  function Half(m: seq<Byte>, a: nat): nat { At(m, a) + 0x100 * At(m, a + 1) }

  function Word(m: seq<Byte>, a: nat): nat { Half(m, a) + 0x1_0000 * Half(m, a + 2) }

  function Double(m: seq<Byte>, a: nat): nat { Word(m, a) + 0x1_0000_0000 * Word(m, a + 4) }

  lemma LeAtSteps(m: seq<Byte>, o: nat, n: nat)
    requires 0 < n && o + n <= |m|
    ensures LeAt(m, o, n) == m[o] + 0x100 * LeAt(m, o + 1, n - 1)
  {}

  lemma HalfIs(m: seq<Byte>, a: nat)
    requires Inside(m, a, 2)
    ensures LeAt(m, a - 0x8000_0000, 2) == Half(m, a)
  {
    LeAtSteps(m, a - 0x8000_0000, 2);
    LeAtSteps(m, a - 0x8000_0000 + 1, 1);
  }

  lemma TwoMore(m: seq<Byte>, a: nat, n: nat)
    requires Inside(m, a, n + 2)
    ensures LeAt(m, a - 0x8000_0000, n + 2) == Half(m, a) + 0x1_0000 * LeAt(m, a + 2 - 0x8000_0000, n)
  {
    LeAtSteps(m, a - 0x8000_0000, n + 2);
    LeAtSteps(m, a - 0x8000_0000 + 1, n + 1);
  }

  lemma WordIs(m: seq<Byte>, a: nat)
    requires Inside(m, a, 4)
    ensures LeAt(m, a - 0x8000_0000, 4) == Word(m, a)
  {
    TwoMore(m, a, 2);
    HalfIs(m, a + 2);
  }

  lemma DoubleIs(m: seq<Byte>, a: nat)
    requires Inside(m, a, 8)
    ensures LeAt(m, a - 0x8000_0000, 8) == Double(m, a)
  {
    TwoMore(m, a, 6);
    TwoMore(m, a + 2, 4);
    WordIs(m, a + 4);
  }

  // ---- The two paths, in these terms ----------------------------------------------------------

  /** Reads of DRAM through either path. */
  lemma ReadsSpelledOut(m: seq<Byte>, path: Path, a: nat)
    ensures Inside(m, a, 1) ==> ReadVia(m, path, a, 1) == At(m, a)
    ensures Inside(m, a, 2) ==> ReadVia(m, path, a, 2) == Half(m, a)
    ensures Inside(m, a, 4) ==> ReadVia(m, path, a, 4) == Word(m, a)
    ensures Inside(m, a, 8) ==> ReadVia(m, path, a, 8) == Double(m, a)
  {
    if Inside(m, a, 1) {
      LeAtSteps(m, a - 0x8000_0000, 1);
      InReach(m, path, a, 1);
    }
    if Inside(m, a, 2) {
      HalfIs(m, a);
      InReach(m, path, a, 2);
    }
    if Inside(m, a, 4) {
      WordIs(m, a);
      InReach(m, path, a, 4);
    }
    if Inside(m, a, 8) {
      DoubleIs(m, a);
      InReach(m, path, a, 8);
    }
  }

  lemma InReach(m: seq<Byte>, path: Path, a: nat, n: nat)
    requires Inside(m, a, n) && n > 0
    ensures ReadVia(m, path, a, n) == LeAt(m, a - 0x8000_0000, n)
  {}

  /** Writes of DRAM through either path: byte i of the value goes to byte i of the target. */
  lemma WritesSpelledOut(m: seq<Byte>, path: Path, a: nat, v: nat, n: nat, b: nat)
    requires Inside(m, a, n) && n > 0
    ensures var m' := Apply(m, Write(path, a, v, n));
            At(m', b) == if a <= b < a + n then v / Pow256(b - a) % 256 else At(m, b)
  {
    if Inside(m, b, 1) { ApplyAt(m, Write(path, a, v, n), b); }
    AtAfter(m, Apply(m, Write(path, a, v, n)), a, v, n, b);
  }

  lemma AtAfter(m: seq<Byte>, m': seq<Byte>, a: nat, v: nat, n: nat, b: nat)
    requires Inside(m, a, n) && |m'| == |m|
    requires Inside(m, b, 1) ==>
      m'[b - 0x8000_0000] == if a <= b < a + n then v / Pow256(b - a) % 256 else m[b - 0x8000_0000]
    ensures At(m', b) == if a <= b < a + n then v / Pow256(b - a) % 256 else At(m, b)
  {}

  /** The powers of the places. */
  lemma Places()
    ensures Pow256(0) == 1 && Pow256(1) == 0x100 && Pow256(2) == 0x1_0000 && Pow256(3) == 0x100_0000
    ensures Pow256(4) == 0x1_0000_0000 && Pow256(5) == 0x100_0000_0000
    ensures Pow256(6) == 0x1_0000_0000_0000 && Pow256(7) == 0x100_0000_0000_0000
  {
    assert Pow256(3) == 0x100_0000;
  }

  /** Outside DRAM: the bus reads 0 there and writes no byte of it; the helpers rebase the address
      to the virtio window, reads to the CLINT as well, and drop what is out of range. */
  lemma OutsideDram(m: seq<Byte>, a: nat, v: nat, n: nat)
    requires n > 0
    ensures a < 0x8000_0000 || a >= 0x8000_0000 + |m| ==> DramRead(m, a, n) == 0 && DramWrite(m, a, v, n) == m
    ensures 0x1000_1000 <= a < 0x8000_0000 ==> ReadOffset(a) == WriteOffset(a) == a - 0x1000_1000
    ensures 0x0200_0000 <= a < 0x1000_1000 ==> ReadOffset(a) == a - 0x0200_0000 && WriteOffset(a) == 0
    ensures a < 0x0200_0000 ==> ReadOffset(a) == WriteOffset(a) == 0
    ensures ReadOffset(a) + n > |m| ==> ReadAt(m, ReadOffset(a), n) == 0
    ensures WriteOffset(a) + n > |m| ==> WriteAt(m, WriteOffset(a), v, n) == m
  {}
}
