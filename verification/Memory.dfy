/** DRAM seen through its two access paths: the bus (`ram_read`/`ram_write`) and the direct
    helpers (`memory_read`/`memory_write`) used by instruction fetch and by the disk. */
module Memory {
  import opened Bytes

  const MEMORY_BASE: nat := 0x8000_0000
  const VIRTIO_BASE: nat := 0x1000_1000
  const CLINT_BASE: nat := 0x0200_0000

  type Word64 = v: int | 0 <= v < 0x1_0000_0000_0000_0000

  /** Offset into DRAM that `memory_read` derives from an address. The source has one more branch,
      for the PLIC, which is dead: every address it tests for is already above CLINT_BASE. */
  function ReadOffset(address: nat): nat {
    if address >= MEMORY_BASE then address - MEMORY_BASE
    else if address >= VIRTIO_BASE then address - VIRTIO_BASE
    else if address >= CLINT_BASE then address - CLINT_BASE
    else 0
  }

  function WriteOffset(address: nat): nat {
    if address >= MEMORY_BASE then address - MEMORY_BASE
    else if address >= VIRTIO_BASE then address - VIRTIO_BASE
    else 0
  }

  /** Whether the bus hands an access to DRAM and DRAM finds it in range. */
  predicate InDram(size: nat, address: nat, n: nat) {
    MEMORY_BASE <= address && address - MEMORY_BASE + n <= size
  }

  /** What a read of `n` bytes at DRAM offset `off` yields; out of range it yields 0. */
  function ReadAt(m: seq<Byte>, off: nat, n: nat): nat {
    if off + n <= |m| then LeAt(m, off, n) else 0
  }

  /** DRAM after a write of the low `n` bytes of `v`; out of range nothing happens. */
  function WriteAt(m: seq<Byte>, off: nat, v: nat, n: nat): (m': seq<Byte>)
    ensures |m'| == |m|
  {
    if off + n <= |m| then Splice(m, off, LeBytes(v, n)) else m
  }

  /** `bus_read` and `bus_write` as far as DRAM is concerned: other regions hold no DRAM byte. */
  function DramRead(m: seq<Byte>, address: nat, n: nat): nat {
    if MEMORY_BASE <= address < MEMORY_BASE + |m| then ReadAt(m, address - MEMORY_BASE, n) else 0
  }

  function DramWrite(m: seq<Byte>, address: nat, v: nat, n: nat): (m': seq<Byte>)
    ensures |m'| == |m|
  {
    if MEMORY_BASE <= address < MEMORY_BASE + |m| then WriteAt(m, address - MEMORY_BASE, v, n) else m
  }

  lemma WriteOneByte(m: seq<Byte>, address: nat, b: Byte)
    requires InDram(|m|, address, 1)
    ensures DramWrite(m, address, b, 1) == Splice(m, address - MEMORY_BASE, [b])
  {
    assert LeBytes(b, 1) == [b];
  }

  lemma AppendByte(m: seq<Byte>, m1: seq<Byte>, address: nat, bs: seq<Byte>, b: Byte)
    requires InDram(|m|, address, |bs| + 1) && m1 == Splice(m, address - MEMORY_BASE, bs)
    ensures DramWrite(m1, address + |bs|, b, 1) == Splice(m, address - MEMORY_BASE, bs + [b])
  {
    WriteOneByte(m1, address + |bs|, b);
    SpliceExtends(m, address - MEMORY_BASE, bs, b);
  }

  class Ram {
    const data: array<Byte>
    /** `cpu[0].halted`, as far as memory accesses set it. */
    var halted: bool

    constructor (size: nat)
      ensures fresh(data) && data.Length == size && !halted
      ensures forall i :: 0 <= i < size ==> data[i] == 0
    {
      data := new Byte[size](_ => 0);
      halted := false;
    }

    method RamRead(offset: nat, size: nat) returns (val: nat)
      requires size <= 8
      ensures val == ReadAt(data[..], offset, size)
    {
      val := 0;
      if offset + size > data.Length || offset >= data.Length {
        assert offset == data.Length && size == 0 ==> data[..][offset..offset] == [];
        return;
      }
      var i := 0;
      while i < size
        invariant i <= size
        invariant val == LeValue(data[offset..offset + i])
      {
        var vl := data[offset + i];
        LeValueAppend(data[offset..offset + i], vl);
        assert data[offset..offset + i] + [vl] == data[offset..offset + i + 1];
        val := val + vl * Pow256(i);
        i := i + 1;
      }
      assert data[..][offset..offset + size] == data[offset..offset + size];
      LeAtIsValue(data[..], offset, size);
    }

    method RamWrite(offset: nat, value: nat, size: nat)
      requires size <= 8
      modifies data
      ensures data[..] == WriteAt(old(data[..]), offset, value, size)
    {
      if offset + size > data.Length { return; }
      ghost var bs := LeBytes(value, size);
      var i := 0;
      while i < size
        invariant i <= size
        invariant data[..] == Splice(old(data[..]), offset, bs[..i])
      {
        LeByteAt(value, size, i);
        data[offset + i] := value / Pow256(i) % 256;
        i := i + 1;
      }
      assert bs[..size] == bs;
    }

    method BusRead(address: nat, size: nat) returns (val: nat)
      requires size <= 8
      ensures val == DramRead(data[..], address, size)
    {
      val := 0;
      if MEMORY_BASE <= address < MEMORY_BASE + data.Length {
        val := RamRead(address - MEMORY_BASE, size);
      }
    }

    method BusWrite(address: nat, value: nat, size: nat)
      requires size <= 8
      modifies data
      ensures data[..] == DramWrite(old(data[..]), address, value, size)
    {
      if MEMORY_BASE <= address < MEMORY_BASE + data.Length {
        RamWrite(address - MEMORY_BASE, value, size);
      }
    }

    method MemoryRead(address: nat, size: nat) returns (value: nat)
      requires size <= 8
      modifies this`halted
      ensures value == ReadAt(data[..], ReadOffset(address), size)
      ensures halted == (old(halted) || ReadOffset(address) + size > data.Length)
    {
      var offset: nat := 0;
      if address >= MEMORY_BASE {
        offset := address - MEMORY_BASE;
      } else if address >= VIRTIO_BASE {
        offset := address - VIRTIO_BASE;
      } else if address >= CLINT_BASE {
        offset := address - CLINT_BASE;
      }
      if offset + size > data.Length {
        halted := true;
        return 0;
      }
      value := 0;
      var i := 0;
      while i < size
        invariant i <= size
        invariant value == LeValue(data[offset..offset + i])
        invariant halted == old(halted)
      {
        LeValueAppend(data[offset..offset + i], data[offset + i]);
        assert data[offset..offset + i] + [data[offset + i]] == data[offset..offset + i + 1];
        value := value + data[offset + i] * Pow256(i);
        i := i + 1;
      }
      assert data[..][offset..offset + size] == data[offset..offset + size];
      LeAtIsValue(data[..], offset, size);
    }

    /** The bytes copied are those of a little-endian host. */
    method MemoryWrite(address: nat, value: nat, size: nat)
      requires size <= 8
      modifies data
      ensures data[..] == WriteAt(old(data[..]), WriteOffset(address), value, size)
    {
      var offset: nat := 0;
      if address >= MEMORY_BASE {
        offset := address - MEMORY_BASE;
      } else if address >= VIRTIO_BASE {
        offset := address - VIRTIO_BASE;
      }
      if offset + size > data.Length { return; }
      CopyBytes(offset, LeBytes(value, size));
    }

    /** `memcpy` into DRAM */
    method CopyBytes(offset: nat, bytes: seq<Byte>)
      requires offset + |bytes| <= data.Length
      modifies data
      ensures data[..] == Splice(old(data[..]), offset, bytes)
    {
      ghost var before := data[..];
      forall i | 0 <= i < |bytes| { data[offset + i] := bytes[i]; }
      SpliceIs(before, offset, bytes, data[..]);
    }
  }

  /** The two helpers use the same DRAM byte for an address exactly outside the CLINT/PLIC/UART
      window, where a read is rebased to CLINT_BASE and a write lands at offset 0. */
  lemma OffsetsAgree(address: nat)
    ensures ReadOffset(address) == WriteOffset(address)
        <==> (address <= CLINT_BASE || address >= VIRTIO_BASE)
  {}

  datatype Path = ViaBus | ViaHelper

  datatype Write = Write(path: Path, address: nat, value: nat, size: nat)

  predicate WriteInDram(size: nat, w: Write) {
    InDram(size, w.address, w.size)
  }

  /** DRAM after one write through the chosen path. */
  function Apply(m: seq<Byte>, w: Write): (m': seq<Byte>)
    ensures |m'| == |m|
  {
    match w.path
    case ViaBus => DramWrite(m, w.address, w.value, w.size)
    case ViaHelper => WriteAt(m, WriteOffset(w.address), w.value, w.size)
  }

  function ApplyAll(m: seq<Byte>, ws: seq<Write>): (m': seq<Byte>)
    ensures |m'| == |m|
  {
    if ws == [] then m else Apply(ApplyAll(m, ws[..|ws| - 1]), ws[|ws| - 1])
  }

  /** What a read through the chosen path returns. */
  function ReadVia(m: seq<Byte>, path: Path, address: nat, n: nat): nat {
    match path
    case ViaBus => DramRead(m, address, n)
    case ViaHelper => ReadAt(m, ReadOffset(address), n)
  }

  predicate Covers(w: Write, a: nat) {
    w.address <= a < w.address + w.size
  }

  /** The flat byte map: the byte at address `a` comes from the latest write covering it,
      whatever path and width that write used. */
  function FlatByte(m: seq<Byte>, ws: seq<Write>, a: nat): Byte
    requires InDram(|m|, a, 1)
  {
    if ws == [] then m[a - MEMORY_BASE]
    else
      var w := ws[|ws| - 1];
      if Covers(w, a) then w.value / Pow256(a - w.address) % 256
      else FlatByte(m, ws[..|ws| - 1], a)
  }

  lemma ApplyAt(m: seq<Byte>, w: Write, a: nat)
    requires WriteInDram(|m|, w) && InDram(|m|, a, 1)
    ensures Apply(m, w)[a - MEMORY_BASE]
         == if Covers(w, a) then w.value / Pow256(a - w.address) % 256 else m[a - MEMORY_BASE]
  {
    if Covers(w, a) { LeByteAt(w.value, w.size, a - w.address); }
    if w.size == 0 { assert LeBytes(w.value, 0) == []; }
  }

  lemma LastWrite(m: seq<Byte>, ws: seq<Write>, a: nat) returns (rest: seq<Write>, w: Write, m1: seq<Byte>)
    requires ws != [] && InDram(|m|, a, 1) && forall i :: 0 <= i < |ws| ==> WriteInDram(|m|, ws[i])
    ensures |rest| == |ws| - 1 && WriteInDram(|m|, w) && forall i :: 0 <= i < |rest| ==> WriteInDram(|m|, rest[i])
    ensures m1 == ApplyAll(m, rest) && |m1| == |m| && ApplyAll(m, ws) == Apply(m1, w)
    ensures FlatByte(m, ws, a)
         == if Covers(w, a) then w.value / Pow256(a - w.address) % 256 else FlatByte(m, rest, a)
  {
    rest, w := ws[..|ws| - 1], ws[|ws| - 1];
    m1 := ApplyAll(m, rest);
  }

  lemma {:induction false} ApplyAllIsFlat(m: seq<Byte>, ws: seq<Write>, a: nat)
    requires forall i :: 0 <= i < |ws| ==> WriteInDram(|m|, ws[i])
    requires InDram(|m|, a, 1)
    ensures ApplyAll(m, ws)[a - MEMORY_BASE] == FlatByte(m, ws, a)
    decreases |ws|
  {
    if ws != [] {
      var rest, w, m1 := LastWrite(m, ws, a);
      ApplyAllIsFlat(m, rest, a);
      ApplyAt(m1, w, a);
    }
  }

  function FlatBytes(m: seq<Byte>, ws: seq<Write>, a: nat, n: nat): (bs: seq<Byte>)
    requires InDram(|m|, a, n)
    ensures |bs| == n
    decreases n
  {
    if n == 0 then [] else [FlatByte(m, ws, a)] + FlatBytes(m, ws, a + 1, n - 1)
  }

  lemma {:induction false} SliceIsFlat(m: seq<Byte>, ws: seq<Write>, a: nat, n: nat)
    requires forall i :: 0 <= i < |ws| ==> WriteInDram(|m|, ws[i])
    requires InDram(|m|, a, n)
    ensures ApplyAll(m, ws)[a - MEMORY_BASE..a - MEMORY_BASE + n] == FlatBytes(m, ws, a, n)
    decreases n
  {
    if n > 0 {
      var after, off := ApplyAll(m, ws), a - MEMORY_BASE;
      ApplyAllIsFlat(m, ws, a);
      SliceIsFlat(m, ws, a + 1, n - 1);
      HeadOfSlice(after, off, n);
    }
  }

  lemma HeadOfSlice(s: seq<Byte>, o: nat, n: nat)
    requires 0 < n && o + n <= |s|
    ensures s[o..o + n] == [s[o]] + s[o + 1..o + n]
  {}

  lemma InDramRead(m: seq<Byte>, path: Path, address: nat, n: nat)
    requires InDram(|m|, address, n) && n > 0
    ensures ReadVia(m, path, address, n)
         == LeValue(m[address - MEMORY_BASE..address - MEMORY_BASE + n])
  {
    LeAtIsValue(m, address - MEMORY_BASE, n);
  }

  /** After any mix of in-range writes through either path, a read through either path returns
      the little-endian value of the flat byte map, also where widths partly overlap. */
  lemma PathsAgree(m: seq<Byte>, ws: seq<Write>, path: Path, address: nat, n: nat)
    requires forall i :: 0 <= i < |ws| ==> WriteInDram(|m|, ws[i])
    requires InDram(|m|, address, n) && n > 0
    ensures ReadVia(ApplyAll(m, ws), path, address, n) == LeValue(FlatBytes(m, ws, address, n))
  {
    SliceIsFlat(m, ws, address, n);
    InDramRead(ApplyAll(m, ws), path, address, n);
  }
}
