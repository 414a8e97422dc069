/** The block device on the bytes of memory and of the image: what it takes from the available ring,
    which buffers a descriptor chain names, what a request moves, and what it leaves in the used ring. */
module VirtioBytes {
  import opened Options
  import opened Bytes
  import opened Memory
  import opened Words
  import opened DiskModel
  import opened Sv39
  import opened TlbModel
  import opened VirtioModel
  import Division
  import WalkWords
  import VirtioData

  // ---- Reads and writes -----------------------------------------------------------------------

  lemma PhysReadIs(m: seq<Byte>, a: nat)
    ensures Inside(m, a, 2) ==> PhysRead(m, a, 2) == Half(m, a)
    ensures Inside(m, a, 4) ==> PhysRead(m, a, 4) == Word(m, a)
    ensures Inside(m, a, 8) ==> PhysRead(m, a, 8) == Double(m, a)
  {
    ReadsSpelledOut(m, ViaHelper, a);
  }

  lemma PhysWriteIs(m: seq<Byte>, a: nat, v: nat, n: nat, b: nat)
    requires Inside(m, a, n) && n > 0
    ensures At(PhysWrite(m, a, v, n), b) == if a <= b < a + n then v / Pow256(b - a) % 256 else At(m, b)
  {
    WritesSpelledOut(m, ViaHelper, a, v, n, b);
  }

  lemma ByteWritten(m: seq<Byte>, a: nat, v: Byte, b: nat)
    ensures At(DramWrite(m, a, v, 1), b) == if b == a && Inside(m, b, 1) then v else At(m, b)
  {
    if Inside(m, a, 1) { WriteOneByte(m, a, v); }
  }

  lemma {:induction false} WriteBytesAt(m: seq<Byte>, a: nat, bs: seq<Byte>, b: nat)
    requires Inside(m, b, 1)
    ensures At(WriteBytes(m, a, bs), b) == if a <= b < a + |bs| then bs[b - a] else At(m, b)
  {
    if bs != [] {
      var init, last, m1 := VirtioData.LastByte(m, a, bs);
      WriteBytesAt(m, a, init, b);
      ByteWritten(m1, a + |init|, last, b);
    }
  }

  lemma {:induction false} ReadBytesAt(m: seq<Byte>, a: nat, n: nat, k: nat)
    requires k < n
    ensures ReadBytes(m, a, n)[k] == At(m, a + k)
    decreases n
  {
    if k < n - 1 { ReadBytesAt(m, a, n - 1, k); }
  }

  // ---- Descriptors ----------------------------------------------------------------------------

  lemma HalfParity(m: seq<Byte>, a: nat)
    ensures Half(m, a) % 2 == At(m, a) % 2
  {}

  lemma HalfRead(m: seq<Byte>, a: nat) returns (v: nat)
    requires Inside(m, a, 2)
    ensures v == PhysRead(m, a, 2) == Half(m, a)
  {
    PhysReadIs(m, a);
    v := Half(m, a);
  }

  lemma DoubleRead(m: seq<Byte>, a: nat) returns (v: nat)
    requires Inside(m, a, 8)
    ensures v == PhysRead(m, a, 8) == Double(m, a)
  {
    PhysReadIs(m, a);
    v := Double(m, a);
  }

  /** A descriptor: its address in bytes 0 to 7, the NEXT flag in bit 0 of byte 12, the next one's
      number in bytes 14 and 15. */
  lemma DescIs(m: seq<Byte>, cfg: Config, idx: nat)
    requires Inside(m, cfg.descAddr + 16 * idx, 16)
    ensures var a := cfg.descAddr + 16 * idx;
            DescAt(m, cfg, idx) == Desc(Double(m, a), At(m, a + 12) % 2 == 1, Half(m, a + 14))
  {
    var a := cfg.descAddr + 16 * idx;
    var addr := DoubleRead(m, a);
    var flags := HalfRead(m, a + 12);
    var next := HalfRead(m, a + 14);
    HalfParity(m, a + 12);
  }

  /** The descriptors `ids` form a chain whose addresses are `addrs`: each but the last has the NEXT
      flag and names the one after it, which is not the head again. */
  predicate Linked(m: seq<Byte>, descAddr: nat, head: nat, ids: seq<nat>, addrs: seq<nat>)
    decreases |ids|
  {
    && |ids| == |addrs| > 0
    && var a := descAddr + 16 * ids[0];
       && Inside(m, a, 16) && Double(m, a) == addrs[0]
       && if |ids| == 1 then At(m, a + 12) % 2 == 0
          else && At(m, a + 12) % 2 == 1 && Half(m, a + 14) == ids[1] && ids[1] != head
               && Linked(m, descAddr, head, ids[1..], addrs[1..])
  }

  lemma FollowMore(s: MmuState, cfg: Config, head: nat, idx: nat, fuel: nat, req: nat, data: nat, got: nat, next: nat)
    requires SatpMode(s.satp) == 0 && fuel > 0 && Inside(s.mem, cfg.descAddr + 16 * idx, 16)
    requires At(s.mem, cfg.descAddr + 16 * idx + 12) % 2 == 1 && Half(s.mem, cfg.descAddr + 16 * idx + 14) == next
    requires got == Double(s.mem, cfg.descAddr + 16 * idx)
    ensures Follow(s, cfg, head, idx, fuel, req, data)
         == Follow(s, cfg, head, next, fuel - 1, if idx == head then got else req, if idx == head then data else got)
  {
    DescIs(s.mem, cfg, idx);
  }

  lemma FollowLast(s: MmuState, cfg: Config, head: nat, idx: nat, fuel: nat, req: nat, data: nat, got: nat)
    requires SatpMode(s.satp) == 0 && fuel > 0 && Inside(s.mem, cfg.descAddr + 16 * idx, 16)
    requires At(s.mem, cfg.descAddr + 16 * idx + 12) % 2 == 0 && got == Double(s.mem, cfg.descAddr + 16 * idx)
    ensures Follow(s, cfg, head, idx, fuel, req, data) == Ended(Chain(if idx == head then got else req, data, got), s.lines)
  {
    DescIs(s.mem, cfg, idx);
  }

  /** One round over a chain of several descriptors. */
  lemma FollowOne(s: MmuState, cfg: Config, head: nat, ids: seq<nat>, addrs: seq<nat>, fuel: nat, req: nat, data: nat)
    returns (all: Followed, ids': seq<nat>, addrs': seq<nat>, req': nat, data': nat)
    requires SatpMode(s.satp) == 0 && fuel > 0
    requires Linked(s.mem, cfg.descAddr, head, ids, addrs) && |ids| > 1
    ensures ids' == ids[1..] && addrs' == addrs[1..] && ids'[0] != head && Linked(s.mem, cfg.descAddr, head, ids', addrs')
    ensures req' == (if ids[0] == head then addrs[0] else req) && data' == (if ids[0] == head then data else addrs[0])
    ensures all == Follow(s, cfg, head, ids[0], fuel, req, data) == Follow(s, cfg, head, ids'[0], fuel - 1, req', data')
  {
    ids', addrs' := ids[1..], addrs[1..];
    req', data' := if ids[0] == head then addrs[0] else req, if ids[0] == head then data else addrs[0];
    FollowMore(s, cfg, head, ids[0], fuel, req, data, addrs[0], ids[1]);
    all := Follow(s, cfg, head, ids[0], fuel, req, data);
  }

  /** The end of a chain with these addresses, whose first descriptor is the head or not. */
  function EndOf(atHead: bool, addrs: seq<nat>, req: nat, data: nat, lines: seq<Line>): Followed
    requires addrs != []
    decreases |addrs|
  {
    if |addrs| == 1 then Ended(Chain(if atHead then addrs[0] else req, data, addrs[0]), lines)
    else EndOf(false, addrs[1..], if atHead then addrs[0] else req, if atHead then data else addrs[0], lines)
  }

  lemma FollowEnd(s: MmuState, cfg: Config, head: nat, ids: seq<nat>, addrs: seq<nat>, fuel: nat, req: nat, data: nat)
    returns (all: Followed)
    requires SatpMode(s.satp) == 0 && fuel > 0
    requires Linked(s.mem, cfg.descAddr, head, ids, addrs) && |ids| == 1
    ensures all == Follow(s, cfg, head, ids[0], fuel, req, data)
    ensures all == EndOf(ids[0] == head, addrs, req, data, s.lines)
  {
    FollowLast(s, cfg, head, ids[0], fuel, req, data, addrs[0]);
    all := Follow(s, cfg, head, ids[0], fuel, req, data);
  }

  lemma {:induction false} FollowAll(s: MmuState, cfg: Config, head: nat, ids: seq<nat>, addrs: seq<nat>,
                                     fuel: nat, req: nat, data: nat) returns (all: Followed)
    requires SatpMode(s.satp) == 0 && fuel >= |ids|
    requires Linked(s.mem, cfg.descAddr, head, ids, addrs)
    ensures all == Follow(s, cfg, head, ids[0], fuel, req, data)
    ensures all == EndOf(ids[0] == head, addrs, req, data, s.lines)
    decreases |ids|
  {
    if |ids| == 1 {
      all := FollowEnd(s, cfg, head, ids, addrs, fuel, req, data);
    } else {
      var ids', addrs', req', data', all';
      all, ids', addrs', req', data' := FollowOne(s, cfg, head, ids, addrs, fuel, req, data);
      all' := FollowAll(s, cfg, head, ids', addrs', fuel - 1, req', data');
    }
  }

  lemma {:induction false} EndIs(atHead: bool, addrs: seq<nat>, req: nat, data: nat, lines: seq<Line>)
    requires addrs != []
    ensures var n := |addrs|;
            EndOf(atHead, addrs, req, data, lines)
            == Ended(Chain(if atHead then addrs[0] else req,
                           if n > 2 || (n == 2 && !atHead) then addrs[n - 2] else data, addrs[n - 1]), lines)
    decreases |addrs|
  {
    if |addrs| > 1 {
      EndIs(false, addrs[1..], if atHead then addrs[0] else req, if atHead then data else addrs[0], lines);
    }
  }

  /** With translation off the request is the buffer of the head, the status that of the last
      descriptor, and the data that of the last one before it, if it is not the head. */
  lemma ChainNames(d: Dev, ids: seq<nat>, addrs: seq<nat>)
    requires d.mapping.satp / 0x1000_0000_0000_0000 % 16 == 0 && 0 < |ids| <= 65536
    requires Linked(d.mem, d.cfg.descAddr, ids[0], ids, addrs)
    ensures var n := |addrs|;
            Walked(d, ids[0])
            == Ended(Chain(addrs[0], if n > 2 then addrs[n - 2] else 0, addrs[n - 1]), d.mapping.lines)
  {
    WalkWords.FieldsAreQuotients(d.mapping.satp, 0);
    var all := FollowAll(MmuOf(d.mem, d.mapping), d.cfg, ids[0], ids, addrs, IDX, 0, 0);
    EndIs(true, addrs, 0, 0, d.mapping.lines);
  }

  // ---- A completion ---------------------------------------------------------------------------

  /** The status byte is cleared. */
  ghost predicate StatusSet(m: seq<Byte>, m1: seq<Byte>, status: nat) {
    |m1| == |m| && forall a: nat :: At(m1, a) == if a == status then 0 else At(m, a)
  }

  /** The request is a read, bytes 0,0,0,0, or a write, bytes 1,0,0,0. */
  predicate TypeIs(m: seq<Byte>, req: nat, kind: Byte) {
    At(m, req) == kind && At(m, req + 1) == 0 && At(m, req + 2) == 0 && At(m, req + 3) == 0
  }

  /** A valid cache holds the 1024 bytes of its block. */
  predicate CacheHolds(disk: Disk) {
    && |disk.block| == 1024
    && (disk.valid ==>
          1024 * disk.blockno + 1024 <= |disk.data|
          && disk.block == disk.data[1024 * disk.blockno..1024 * disk.blockno + 1024])
  }

  /** 1024 bytes of the image, from byte o on, are in the buffer, and all other memory is as it was. */
  ghost predicate Filled(m: seq<Byte>, m': seq<Byte>, data: nat, image: seq<Byte>, o: nat) {
    && |m'| == |m| && o + 1024 <= |image|
    && forall a: nat :: Inside(m, a, 1) ==>
         At(m', a) == if data <= a < data + 1024 then image[o + (a - data)] else At(m, a)
  }

  /** The buffer is in the image, from byte o on, and the rest of the image is as it was. */
  predicate Stored(m: seq<Byte>, data: nat, image: seq<Byte>, image': seq<Byte>, o: nat) {
    && |image'| == |image| && o + 1024 <= |image|
    && forall i :: 0 <= i < |image| ==> image'[i] == if o <= i < o + 1024 then At(m, data + (i - o)) else image[i]
  }

  /** What a request moves: a read fills the buffer from byte 512 * s of the image on, s being its
      sector number, a write stores the buffer there, and any other request moves nothing. */
  ghost predicate Moved(m: seq<Byte>, m': seq<Byte>, image: seq<Byte>, image': seq<Byte>, req: nat, data: nat) {
    if req == 0 || data == 0 then m' == m && image' == image
    else if TypeIs(m, req, 0) then image' == image && Filled(m, m', data, image, 512 * Double(m, req + 8))
    else if TypeIs(m, req, 1) then m' == m && Stored(m, data, image, image', 512 * Double(m, req + 8))
    else m' == m && image' == image
  }

  /** The element at e holds the low two bytes of the head and, four bytes further, 512; the index at
      i holds `next`. */
  ghost predicate Pushed(m: seq<Byte>, m': seq<Byte>, e: nat, head: nat, i: nat, next: nat) {
    && |m'| == |m|
    && forall a: nat ::
         At(m', a) == if a == i then next % 256 else if a == i + 1 then next / 256
                      else if a == e then head % 256 else if a == e + 1 then head / 256 % 256
                      else if a == e + 4 || a == e + 6 || a == e + 7 then 0 else if a == e + 5 then 2 else At(m, a)
  }

  /** The 16-bit index in bytes 2 and 3 selects the element, eight bytes each from byte 4 on, and
      advances. */
  ghost predicate Returned(m: seq<Byte>, m': seq<Byte>, usedRing: nat, queueNum: nat, head: nat)
    requires queueNum > 0
  {
    var idx := Half(m, usedRing + 2);
    Pushed(m, m', usedRing + 4 + 8 * (idx % queueNum), head, usedRing + 2, (idx + 1) % 65536)
  }

  lemma StatusIs(m: seq<Byte>, m1: seq<Byte>, status: nat)
    requires Inside(m, status, 1)
    ensures m1 == PhysWrite(m, status, 0, 1) <==> StatusSet(m, m1, status)
  {
    var m' := PhysWrite(m, status, 0, 1);
    forall a: nat ensures At(m', a) == if a == status then 0 else At(m, a) { PhysWriteIs(m, status, 0, 1, a); }
    if StatusSet(m, m1, status) { SameBytes(m1, m'); }
  }

  lemma SameBytes(m: seq<Byte>, m': seq<Byte>)
    requires |m| == |m'| && forall a: nat :: At(m, a) == At(m', a)
    ensures m == m'
  {
    forall i | 0 <= i < |m| ensures m[i] == m'[i] { assert At(m, 0x8000_0000 + i) == At(m', 0x8000_0000 + i); }
  }

  lemma CacheIs(disk: Disk)
    ensures CacheOk(disk) <==> CacheHolds(disk)
  {}

  lemma RequestIs(m: seq<Byte>, chain: Chain)
    requires Inside(m, chain.req, 16)
    ensures RequestType(m, chain) == 0 <==> TypeIs(m, chain.req, 0)
    ensures RequestType(m, chain) == 1 <==> TypeIs(m, chain.req, 1)
    ensures RequestSector(m, chain) == Double(m, chain.req + 8)
  {
    PhysReadIs(m, chain.req);
    PhysReadIs(m, chain.req + 8);
  }

  lemma BufferWritten(m: seq<Byte>, data: nat, image: seq<Byte>, o: nat)
    requires o + 1024 <= |image|
    ensures Filled(m, WriteBytes(m, data, image[o..o + 1024]), data, image, o)
  {
    var bytes := image[o..o + 1024];
    forall a: nat | Inside(m, a, 1)
      ensures At(WriteBytes(m, data, bytes), a) == if data <= a < data + 1024 then image[o + (a - data)] else At(m, a)
    {
      WriteBytesAt(m, data, bytes, a);
    }
  }

  lemma MovedIn(m: seq<Byte>, disk: Disk, chain: Chain, s: nat)
    requires CacheHolds(disk) && Serves(disk, s) && RequestType(m, chain) == 0 && s == RequestSector(m, chain)
    requires chain.req > 0 && chain.data > 0
    ensures TransferDisk(m, disk, chain).data == disk.data
    ensures Filled(m, TransferMem(m, disk, chain), chain.data, disk.data, 512 * s)
  {
    CacheIs(disk);
    ReadIsPlain(disk, s);
    BufferWritten(m, chain.data, disk.data, 512 * s);
  }

  lemma MovedOut(m: seq<Byte>, disk: Disk, chain: Chain, s: nat)
    requires CacheHolds(disk) && Serves(disk, s) && RequestType(m, chain) == 1 && s == RequestSector(m, chain)
    requires chain.req > 0 && chain.data > 0
    ensures TransferMem(m, disk, chain) == m
    ensures Stored(m, chain.data, disk.data, TransferDisk(m, disk, chain).data, 512 * s)
  {
    CacheIs(disk);
    var bytes := ReadBytes(m, chain.data, 1024);
    WriteIsPlain(disk, s, bytes);
    forall i | 512 * s <= i < 512 * s + 1024
      ensures PlainWrite(disk.data, s, bytes)[i] == At(m, chain.data + (i - 512 * s))
    {
      ReadBytesAt(m, chain.data, 1024, i - 512 * s);
    }
  }

  lemma TransferIs(m: seq<Byte>, disk: Disk, chain: Chain)
    requires CacheHolds(disk) && (chain.req > 0 && chain.data > 0 ==> Inside(m, chain.req, 16))
    requires var s := Double(m, chain.req + 8);
      chain.req > 0 && chain.data > 0 && (TypeIs(m, chain.req, 0) || TypeIs(m, chain.req, 1))
      ==> s % 2 == 0 && 512 * s + 1024 <= |disk.data|
    ensures Moved(m, TransferMem(m, disk, chain), disk.data, TransferDisk(m, disk, chain).data, chain.req, chain.data)
  {
    if chain.req > 0 && chain.data > 0 {
      RequestIs(m, chain);
      TransferOfKind(m, disk, chain, RequestType(m, chain), RequestSector(m, chain));
    }
  }

  lemma TransferOfKind(m: seq<Byte>, disk: Disk, chain: Chain, kind: nat, s: nat)
    requires CacheHolds(disk) && chain.req > 0 && chain.data > 0
    requires kind == RequestType(m, chain) && s == RequestSector(m, chain)
    requires kind == 0 || kind == 1 ==> s % 2 == 0 && 512 * s + 1024 <= |disk.data|
    ensures var m', disk' := TransferMem(m, disk, chain), TransferDisk(m, disk, chain);
      && (kind == 0 ==> disk'.data == disk.data && Filled(m, m', chain.data, disk.data, 512 * s))
      && (kind == 1 ==> m' == m && Stored(m, chain.data, disk.data, disk'.data, 512 * s))
      && (kind > 1 ==> m' == m && disk' == disk)
  {
    if kind == 0 {
      MovedIn(m, disk, chain, s);
    } else if kind == 1 {
      MovedOut(m, disk, chain, s);
    }
  }

  lemma HeadBytes(m: seq<Byte>, e: nat, head: nat, a: nat)
    requires Inside(m, e, 2)
    ensures At(PhysWrite(m, e, head, 2), a)
         == if a == e then head % 256 else if a == e + 1 then head / 256 % 256 else At(m, a)
  {
    PhysWriteIs(m, e, head, 2, a);
    Places();
  }

  lemma LengthBytes(m: seq<Byte>, e: nat, a: nat)
    requires Inside(m, e, 4)
    ensures At(PhysWrite(m, e, 512, 4), a)
         == if a == e + 1 then 2 else if a == e || a == e + 2 || a == e + 3 then 0 else At(m, a)
  {
    PhysWriteIs(m, e, 512, 4, a);
    Places();
  }

  /** A used element at e and the index at i. */
  lemma PushIs(m: seq<Byte>, e: nat, head: nat, i: nat, next: nat, a: nat)
    requires Inside(m, e, 8) && Inside(m, i, 2) && i + 2 <= e && next < 65536
    ensures At(PushAt(m, e, head, i, next), a)
         == if a == i then next % 256 else if a == i + 1 then next / 256
            else if a == e then head % 256 else if a == e + 1 then head / 256 % 256
            else if a == e + 4 || a == e + 6 || a == e + 7 then 0 else if a == e + 5 then 2 else At(m, a)
  {
    var m1 := PhysWrite(m, e, head, 2);
    var m2 := PhysWrite(m1, e + 4, 512, 4);
    HeadBytes(m, e, head, a);
    LengthBytes(m1, e + 4, a);
    HeadBytes(m2, i, next, a);
  }

  lemma ReturnIs(m: seq<Byte>, cfg: Config, head: nat)
    requires cfg.queueNum > 0 && Inside(m, cfg.usedRing, 4 + 8 * cfg.queueNum)
    ensures Returned(m, PushUsed(m, cfg, head), cfg.usedRing, cfg.queueNum, head)
  {
    var idx, e := ReturnPlaces(m, cfg, head);
    PushAll(m, e, head, cfg.usedRing + 2, (idx + 1) % 65536);
  }

  lemma ReturnPlaces(m: seq<Byte>, cfg: Config, head: nat) returns (idx: nat, e: nat)
    requires cfg.queueNum > 0 && Inside(m, cfg.usedRing, 4 + 8 * cfg.queueNum)
    ensures idx == Half(m, cfg.usedRing + 2) && e == cfg.usedRing + 4 + 8 * (idx % cfg.queueNum)
    ensures Inside(m, e, 8) && PushUsed(m, cfg, head) == PushAt(m, e, head, cfg.usedRing + 2, (idx + 1) % 65536)
  {
    var next;
    idx := PhysRead(m, cfg.usedRing + 2, 2);
    PhysReadIs(m, cfg.usedRing + 2);
    e, next := PushUsedIs(m, cfg, head);
    ElementInside(m, cfg.usedRing, cfg.queueNum, idx % cfg.queueNum);
  }

  lemma PushAll(m: seq<Byte>, e: nat, head: nat, i: nat, next: nat)
    requires Inside(m, e, 8) && Inside(m, i, 2) && i + 2 <= e && next < 65536
    ensures Pushed(m, PushAt(m, e, head, i, next), e, head, i, next)
  {
    var m' := PushAt(m, e, head, i, next);
    forall a: nat
      ensures At(m', a) == if a == i then next % 256 else if a == i + 1 then next / 256
                           else if a == e then head % 256 else if a == e + 1 then head / 256 % 256
                           else if a == e + 4 || a == e + 6 || a == e + 7 then 0 else if a == e + 5 then 2 else At(m, a)
    {
      PushIs(m, e, head, i, next, a);
    }
  }

  lemma ElementInside(m: seq<Byte>, usedRing: nat, queueNum: nat, slot: nat)
    requires slot < queueNum && Inside(m, usedRing, 4 + 8 * queueNum)
    ensures Inside(m, usedRing + 4 + 8 * slot, 8) && Inside(m, usedRing, 4)
  {}

  /** A completion, step by step, for the buffers its chain leads to: the status byte, the transfer,
      the used ring; the interrupt flag is set and nothing else of the device changes but the cache. */
  lemma CompletionIs(d: Dev, op: Op, req: nat, data: nat, status: nat, lines: seq<Line>, m1: seq<Byte>)
    returns (m2: seq<Byte>)
    requires WellFormedDev(d) && Walked(d, op.head) == Ended(Chain(req, data, status), lines)
    requires CacheHolds(d.disk) && Inside(d.mem, status, 1) && StatusSet(d.mem, m1, status)
    requires Inside(d.mem, d.cfg.usedRing, 4 + 8 * d.cfg.queueNum)
    requires req > 0 && data > 0 ==> Inside(d.mem, req, 16)
    requires req > 0 && data > 0 && (TypeIs(m1, req, 0) || TypeIs(m1, req, 1)) ==>
      Double(m1, req + 8) % 2 == 0 && 512 * Double(m1, req + 8) + 1024 <= |d.disk.data|
    ensures var d' := Complete(d, op);
      && Moved(m1, m2, d.disk.data, d'.disk.data, req, data)
      && Returned(m2, d'.mem, d.cfg.usedRing, d.cfg.queueNum, op.head)
      && d'.interrupt && d'.completed == d.completed + [op.head] && CacheHolds(d'.disk)
      && d' == d.(mem := d'.mem, disk := d'.disk, interrupt := true, completed := d'.completed,
                  mapping := d.mapping.(lines := lines))
  {
    StatusIs(d.mem, m1, status);
    var chain := Chain(req, data, status);
    TransferIs(m1, d.disk, chain);
    m2 := TransferMem(m1, d.disk, chain);
    ReturnIs(m2, d.cfg, op.head);
    CacheIs(d.disk);
    VirtioData.CompleteKeepsCache(d, op);
    CacheIs(Complete(d, op).disk);
  }

  // ---- The two kinds of request, in full --------------------------------------------------------

  /** A request as a driver builds it, with translation off: three descriptors for the request, the
      buffer and the status, apart from each other and from the used ring. */
  predicate Built(d: Dev, head: nat, second: nat, third: nat, req: nat, data: nat, status: nat) {
    && d.mapping.satp / 0x1000_0000_0000_0000 % 16 == 0
    && Linked(d.mem, d.cfg.descAddr, head, [head, second, third], [req, data, status])
    && Placed(d, req, data, status)
  }

  predicate Placed(d: Dev, req: nat, data: nat, status: nat) {
    && Inside(d.mem, req, 16) && Inside(d.mem, data, 1024) && Inside(d.mem, status, 1)
    && Apart(req, 16, status, 1) && Apart(data, 1024, status, 1)
    && d.cfg.queueNum > 0 && Inside(d.mem, d.cfg.usedRing, 4 + 8 * d.cfg.queueNum)
    && Apart(data, 1024, d.cfg.usedRing, 4 + 8 * d.cfg.queueNum)
    && Apart(status, 1, d.cfg.usedRing, 4 + 8 * d.cfg.queueNum)
  }

  lemma BuiltChain(d: Dev, head: nat, second: nat, third: nat, req: nat, data: nat, status: nat)
    requires Built(d, head, second, third, req, data, status)
    ensures Walked(d, head) == Ended(Chain(req, data, status), d.mapping.lines)
  {
    ChainNames(d, [head, second, third], [req, data, status]);
  }

  /** The status is 0, the head has gone into the used ring, and the interrupt flag is set. */
  predicate Done(d: Dev, d': Dev, head: nat, status: nat)
    requires d.cfg.queueNum > 0
  {
    var i := d.cfg.usedRing + 2;
    var e := d.cfg.usedRing + 4 + 8 * (Half(d.mem, i) % d.cfg.queueNum);
    && At(d'.mem, status) == 0 && d'.interrupt && d'.completed == d.completed + [head]
    && Half(d'.mem, i) == (Half(d.mem, i) + 1) % 65536 && Half(d'.mem, e) == head % 65536 && Word(d'.mem, e + 4) == 512
  }

  lemma SameRequest(m: seq<Byte>, m1: seq<Byte>, req: nat, status: nat)
    requires StatusSet(m, m1, status) && !(req <= status < req + 16)
    ensures Double(m1, req + 8) == Double(m, req + 8)
    ensures forall kind :: TypeIs(m1, req, kind) == TypeIs(m, req, kind)
  {
    SameDouble(m, m1, req + 8);
  }

  lemma SameDouble(m: seq<Byte>, m': seq<Byte>, a: nat)
    requires forall b: nat :: a <= b < a + 8 ==> At(m', b) == At(m, b)
    ensures Double(m', a) == Double(m, a)
  {}

  lemma PushedReads(m: seq<Byte>, m': seq<Byte>, e: nat, head: nat, i: nat, next: nat)
    requires Pushed(m, m', e, head, i, next) && i + 2 <= e && next < 65536
    ensures Half(m', e) == head % 65536 && Word(m', e + 4) == 512 && Half(m', i) == next
  {
    Division.DivisionIsUnique(head, 65536, head / 256 / 256, head / 256 % 256 * 256 + head % 256);
  }

  lemma AfterRequest(d: Dev, d': Dev, head: nat, status: nat, m1: seq<Byte>, m2: seq<Byte>)
    requires d.cfg.queueNum > 0 && StatusSet(d.mem, m1, status) && Inside(d.mem, d.cfg.usedRing, 4 + 8 * d.cfg.queueNum)
    requires Apart(status, 1, d.cfg.usedRing, 4 + 8 * d.cfg.queueNum)
    requires forall a: nat :: a == status || d.cfg.usedRing <= a < d.cfg.usedRing + 4 + 8 * d.cfg.queueNum ==>
      At(m2, a) == At(m1, a)
    requires Returned(m2, d'.mem, d.cfg.usedRing, d.cfg.queueNum, head)
    requires d'.interrupt && d'.completed == d.completed + [head]
    ensures Done(d, d', head, status)
  {
    var i := d.cfg.usedRing + 2;
    assert Half(m2, i) == Half(d.mem, i);
    var slot := Half(d.mem, i) % d.cfg.queueNum;
    ElementInside(d.mem, d.cfg.usedRing, d.cfg.queueNum, slot);
    PushedReads(m2, d'.mem, d.cfg.usedRing + 4 + 8 * slot, head, i, (Half(d.mem, i) + 1) % 65536);
  }

  lemma BufferStays(m2: seq<Byte>, m3: seq<Byte>, usedRing: nat, queueNum: nat, head: nat, data: nat)
    requires queueNum > 0 && Returned(m2, m3, usedRing, queueNum, head) && Inside(m2, usedRing, 4 + 8 * queueNum)
    requires Apart(data, 1024, usedRing, 4 + 8 * queueNum)
    ensures forall a: nat :: data <= a < data + 1024 ==> At(m3, a) == At(m2, a)
  {
    ElementInside(m2, usedRing, queueNum, Half(m2, usedRing + 2) % queueNum);
  }

  lemma ElsewhereStays(m1: seq<Byte>, m2: seq<Byte>, data: nat, image: seq<Byte>, o: nat, b: nat, n: nat)
    requires Filled(m1, m2, data, image, o) && Apart(data, 1024, b, n) && Inside(m1, b, n)
    ensures forall a: nat :: b <= a < b + n ==> At(m2, a) == At(m1, a)
  {}

  /** What is known of a completion's buffers and of its last step. */
  ghost predicate Ends(d: Dev, d': Dev, head: nat, data: nat, status: nat, m1: seq<Byte>, m2: seq<Byte>) {
    && d.cfg.queueNum > 0 && StatusSet(d.mem, m1, status)
    && Returned(m2, d'.mem, d.cfg.usedRing, d.cfg.queueNum, head)
    && Inside(d.mem, d.cfg.usedRing, 4 + 8 * d.cfg.queueNum) && Inside(d.mem, status, 1) && Inside(d.mem, data, 1024)
    && Apart(data, 1024, d.cfg.usedRing, 4 + 8 * d.cfg.queueNum)
    && Apart(status, 1, d.cfg.usedRing, 4 + 8 * d.cfg.queueNum) && Apart(data, 1024, status, 1)
    && d'.interrupt && d'.completed == d.completed + [head]
  }

  /** The buffer holds 1024 bytes of the image, from byte o on. */
  ghost predicate Delivered(m: seq<Byte>, data: nat, image: seq<Byte>, o: nat) {
    o + 1024 <= |image| && forall a: nat :: data <= a < data + 1024 ==> At(m, a) == image[o + (a - data)]
  }

  lemma ReadLands(d: Dev, d': Dev, head: nat, data: nat, status: nat, m1: seq<Byte>, m2: seq<Byte>, o: nat)
    requires Ends(d, d', head, data, status, m1, m2) && Filled(m1, m2, data, d.disk.data, o)
    ensures Done(d, d', head, status)
    ensures Delivered(d'.mem, data, d.disk.data, o)
  {
    ElsewhereStays(m1, m2, data, d.disk.data, o, d.cfg.usedRing, 4 + 8 * d.cfg.queueNum);
    ElsewhereStays(m1, m2, data, d.disk.data, o, status, 1);
    AfterRequest(d, d', head, status, m1, m2);
    BufferStays(m2, d'.mem, d.cfg.usedRing, d.cfg.queueNum, head, data);
  }

  lemma WriteLands(d: Dev, d': Dev, head: nat, data: nat, status: nat, m1: seq<Byte>, o: nat)
    requires Ends(d, d', head, data, status, m1, m1) && Stored(m1, data, d.disk.data, d'.disk.data, o)
    ensures Done(d, d', head, status) && Stored(d.mem, data, d.disk.data, d'.disk.data, o)
    ensures forall a: nat :: data <= a < data + 1024 ==> At(d'.mem, a) == At(d.mem, a)
  {
    AfterRequest(d, d', head, status, m1, m1);
    BufferStays(m1, d'.mem, d.cfg.usedRing, d.cfg.queueNum, head, data);
  }

  lemma KindCompletion(d: Dev, op: Op, req: nat, data: nat, status: nat, kind: Byte, s: nat)
    returns (d': Dev, m1: seq<Byte>, m2: seq<Byte>)
    requires WellFormedDev(d) && CacheHolds(d.disk) && Placed(d, req, data, status)
    requires Walked(d, op.head) == Ended(Chain(req, data, status), d.mapping.lines)
    requires kind < 2 && TypeIs(d.mem, req, kind)
    requires s == Double(d.mem, req + 8) && s % 2 == 0 && 512 * s + 1024 <= |d.disk.data|
    ensures d' == Complete(d, op) && Ends(d, d', op.head, data, status, m1, m2)
    ensures kind == 0 ==> d'.disk.data == d.disk.data && Filled(m1, m2, data, d.disk.data, 512 * s)
    ensures kind == 1 ==> m2 == m1 && Stored(m1, data, d.disk.data, d'.disk.data, 512 * s)
  {
    d', m1 := Complete(d, op), PhysWrite(d.mem, status, 0, 1);
    StatusIs(d.mem, m1, status);
    SameRequest(d.mem, m1, req, status);
    m2 := CompletionIs(d, op, req, data, status, d.mapping.lines, m1);
  }

  lemma ReadChain(d: Dev, op: Op, req: nat, data: nat, status: nat, s: nat) returns (d': Dev)
    requires WellFormedDev(d) && CacheHolds(d.disk) && Placed(d, req, data, status)
    requires Walked(d, op.head) == Ended(Chain(req, data, status), d.mapping.lines)
    requires TypeIs(d.mem, req, 0)
    requires s == Double(d.mem, req + 8) && s % 2 == 0 && 512 * s + 1024 <= |d.disk.data|
    ensures d' == Complete(d, op) && d'.disk.data == d.disk.data && Done(d, d', op.head, status)
    ensures Delivered(d'.mem, data, d.disk.data, 512 * s)
  {
    var m1, m2;
    d', m1, m2 := KindCompletion(d, op, req, data, status, 0, s);
    ReadLands(d, d', op.head, data, status, m1, m2, 512 * s);
  }

  lemma WriteChain(d: Dev, op: Op, req: nat, data: nat, status: nat, s: nat) returns (d': Dev)
    requires WellFormedDev(d) && CacheHolds(d.disk) && Placed(d, req, data, status)
    requires Walked(d, op.head) == Ended(Chain(req, data, status), d.mapping.lines)
    requires TypeIs(d.mem, req, 1)
    requires s == Double(d.mem, req + 8) && s % 2 == 0 && 512 * s + 1024 <= |d.disk.data|
    ensures d' == Complete(d, op) && Done(d, d', op.head, status)
    ensures Stored(d.mem, data, d.disk.data, d'.disk.data, 512 * s)
    ensures forall a: nat :: data <= a < data + 1024 ==> At(d'.mem, a) == At(d.mem, a)
  {
    var m1, m2;
    d', m1, m2 := KindCompletion(d, op, req, data, status, 1, s);
    WriteLands(d, d', op.head, data, status, m1, 512 * s);
  }

  /** A read, request bytes 0,0,0,0: the image stays and the buffer becomes its 1024 bytes from byte
      512 * s on, s being the value of request bytes 8 to 15. */
  lemma ReadOnBytes(d: Dev, op: Op, second: nat, third: nat, req: nat, data: nat, status: nat, s: nat) returns (d': Dev)
    requires WellFormedDev(d) && CacheHolds(d.disk) && Built(d, op.head, second, third, req, data, status)
    requires TypeIs(d.mem, req, 0)
    requires s == Double(d.mem, req + 8) && s % 2 == 0 && 512 * s + 1024 <= |d.disk.data|
    ensures d' == Complete(d, op) && d'.disk.data == d.disk.data && Done(d, d', op.head, status)
    ensures Delivered(d'.mem, data, d.disk.data, 512 * s)
  {
    BuiltChain(d, op.head, second, third, req, data, status);
    d' := ReadChain(d, op, req, data, status, s);
  }

  /** A write, request bytes 1,0,0,0: the buffer becomes those 1024 bytes of the image, and the rest
      of the image and the buffer stay. */
  lemma WriteOnBytes(d: Dev, op: Op, second: nat, third: nat, req: nat, data: nat, status: nat, s: nat) returns (d': Dev)
    requires WellFormedDev(d) && CacheHolds(d.disk) && Built(d, op.head, second, third, req, data, status)
    requires TypeIs(d.mem, req, 1)
    requires s == Double(d.mem, req + 8) && s % 2 == 0 && 512 * s + 1024 <= |d.disk.data|
    ensures d' == Complete(d, op) && Done(d, d', op.head, status)
    ensures Stored(d.mem, data, d.disk.data, d'.disk.data, 512 * s)
    ensures forall a: nat :: data <= a < data + 1024 ==> At(d'.mem, a) == At(d.mem, a)
  {
    BuiltChain(d, op.head, second, third, req, data, status);
    d' := WriteChain(d, op, req, data, status, s);
  }

  // ---- Taking requests --------------------------------------------------------------------------

  /** One entry: two bytes of the slot that the 16-bit index selects; the operation it starts falls due
      1000 cycles later. */
  lemma StartIs(d: Dev)
    requires WellFormedDev(d)
    requires Inside(d.mem, d.cfg.availRing + 4 + 2 * (d.prevAvail % d.cfg.queueNum), 2)
    ensures var head := Half(d.mem, d.cfg.availRing + 4 + 2 * (d.prevAvail % d.cfg.queueNum));
      Start(d) == d.(pending := [Op(head, d.cycle, d.cycle + 1000)] + d.pending,
                     prevAvail := (d.prevAvail + 1) % 65536, consumed := d.consumed + [head])
  {
    ReadsSpelledOut(d.mem, ViaBus, d.cfg.availRing + 4 + 2 * (d.prevAvail % d.cfg.queueNum));
  }

  /** The entry n places after the index. */
  function EntryAt(m: seq<Byte>, availRing: nat, queueNum: nat, index: nat, n: nat): nat
    requires queueNum > 0
  {
    Half(m, availRing + 4 + 2 * ((index + n) % 65536 % queueNum))
  }

  /** n entries from the index on are appended to the heads taken, in order, and their operations
      put before those in flight, the newest first, each due 1000 cycles after the current one. */
  ghost predicate Entered(m: seq<Byte>, availRing: nat, queueNum: nat, index: nat, cycle: nat, n: nat,
                          heads: seq<nat>, heads': seq<nat>, ops: seq<Op>, ops': seq<Op>)
    requires queueNum > 0
  {
    && |heads'| == |heads| + n && |ops'| == |ops| + n && heads'[..|heads|] == heads && ops'[n..] == ops
    && forall j :: 0 <= j < n ==>
         && heads'[|heads| + j] == EntryAt(m, availRing, queueNum, index, j)
         && ops'[n - 1 - j] == Op(heads'[|heads| + j], cycle, cycle + 1000)
  }

  /** From d to d' the device takes n entries. */
  ghost predicate Taken(d: Dev, d': Dev, n: nat)
    requires d.cfg.queueNum > 0
  {
    && Entered(d.mem, d.cfg.availRing, d.cfg.queueNum, d.prevAvail, d.cycle, n, d.consumed, d'.consumed, d.pending, d'.pending)
    && d' == d.(pending := d'.pending, prevAvail := (d.prevAvail + n) % 65536, consumed := d'.consumed)
  }

  lemma NextIndex(k: nat, j: nat)
    ensures ((k + 1) % 65536 + j) % 65536 == (k + 1 + j) % 65536
  {
    var q, r := (k + 1) / 65536, (k + 1) % 65536;
    var q', r' := (r + j) / 65536, (r + j) % 65536;
    Division.DivisionIsUnique(k + 1 + j, 65536, q + q', r');
  }

  lemma OneMore(m: seq<Byte>, availRing: nat, queueNum: nat, index: nat, cycle: nat, n: nat, head: nat,
                heads: seq<nat>, heads': seq<nat>, ops: seq<Op>, ops': seq<Op>)
    requires queueNum > 0 && head == EntryAt(m, availRing, queueNum, index, 0)
    requires Entered(m, availRing, queueNum, (index + 1) % 65536, cycle, n, heads + [head], heads',
                     [Op(head, cycle, cycle + 1000)] + ops, ops')
    ensures Entered(m, availRing, queueNum, index, cycle, n + 1, heads, heads', ops, ops')
  {
    var k := |heads|;
    assert heads'[..k] == heads'[..k + 1][..k] && ops'[n + 1..] == ops'[n..][1..];
    assert heads'[k] == heads'[..k + 1][k] && ops'[n] == ops'[n..][0];
    forall j | 0 <= j < n + 1
      ensures heads'[k + j] == EntryAt(m, availRing, queueNum, index, j)
      ensures ops'[n + 1 - 1 - j] == Op(heads'[k + j], cycle, cycle + 1000)
    {
      if j > 0 {
        NextIndex(index, j - 1);
        assert heads'[k + 1 + (j - 1)] == EntryAt(m, availRing, queueNum, (index + 1) % 65536, j - 1);
        assert ops'[n - 1 - (j - 1)] == Op(heads'[k + 1 + (j - 1)], cycle, cycle + 1000);
      }
    }
  }

  /** d1 is d after one entry. */
  ghost predicate OneTaken(d: Dev, d1: Dev)
    requires d.cfg.queueNum > 0
  {
    var head := EntryAt(d.mem, d.cfg.availRing, d.cfg.queueNum, d.prevAvail, 0);
    d1 == d.(pending := [Op(head, d.cycle, d.cycle + 1000)] + d.pending,
             prevAvail := (d.prevAvail + 1) % 65536, consumed := d.consumed + [head])
  }

  lemma TakenOnce(d: Dev, d1: Dev, d': Dev, n: nat)
    requires d.cfg.queueNum > 0 && d.prevAvail < 65536 && OneTaken(d, d1) && Taken(d1, d', n)
    ensures Taken(d, d', n + 1)
  {
    NextIndex(d.prevAvail, n);
    OneMore(d.mem, d.cfg.availRing, d.cfg.queueNum, d.prevAvail, d.cycle, n,
            EntryAt(d.mem, d.cfg.availRing, d.cfg.queueNum, d.prevAvail, 0),
            d.consumed, d'.consumed, d.pending, d'.pending);
  }

  lemma NoneTaken(d: Dev)
    requires WellFormedDev(d)
    ensures Taken(d, d, 0)
  {}

  lemma EntryHere(m: seq<Byte>, availRing: nat, queueNum: nat, index: nat)
    requires 0 < queueNum && index < 65536 && Inside(m, availRing, 4 + 2 * queueNum)
    ensures Inside(m, availRing + 4 + 2 * (index % queueNum), 2)
    ensures EntryAt(m, availRing, queueNum, index, 0) == Half(m, availRing + 4 + 2 * (index % queueNum))
  {}

  lemma IndexAfter(prev: nat, n: nat) returns (next: nat)
    requires prev < 65536 && 0 < n < 65536
    ensures next == (prev + 1) % 65536 && (prev + n) % 65536 == (next + (n - 1)) % 65536 && (prev + n) % 65536 != prev
  {
    NextIndex(prev, n - 1);
    next := (prev + 1) % 65536;
  }

  lemma FirstEntry(d: Dev, n: nat, last: nat) returns (d1: Dev)
    requires WellFormedDev(d) && 0 < n < 65536 && last == (d.prevAvail + n) % 65536
    requires Inside(d.mem, d.cfg.availRing, 4 + 2 * d.cfg.queueNum)
    ensures OneTaken(d, d1) && WellFormedDev(d1) && d1.mem == d.mem && d1.cfg == d.cfg
    ensures last == (d1.prevAvail + (n - 1)) % 65536 && Consume(d, last) == Consume(d1, last)
  {
    EntryHere(d.mem, d.cfg.availRing, d.cfg.queueNum, d.prevAvail);
    var next := IndexAfter(d.prevAvail, n);
    StartIs(d);
    d1 := Start(d);
    ConsumeStep(d, last);
  }

  lemma {:induction false} ConsumeIs(d: Dev, n: nat, last: nat) returns (d': Dev)
    requires WellFormedDev(d) && n < 65536 && last == (d.prevAvail + n) % 65536
    requires Inside(d.mem, d.cfg.availRing, 4 + 2 * d.cfg.queueNum)
    ensures d' == Consume(d, last) && Taken(d, d', n)
    decreases n
  {
    if n == 0 {
      NoneTaken(d);
      d' := d;
    } else {
      var d1 := FirstEntry(d, n, last);
      d' := ConsumeIs(d1, n - 1, last);
      TakenOnce(d, d1, d', n - 1);
    }
  }

  lemma Distance(prev: nat, last: nat) returns (n: nat)
    requires prev < 65536 && last < 65536
    ensures n < 65536 && (prev + n) % 65536 == last
  {
    n := if prev <= last then last - prev else last + 65536 - prev;
  }

  /** A notification takes the entries up to the index in bytes 2 and 3 of the available ring, modulo
      2 to the 16th. */
  lemma NotifyOnBytes(d: Dev) returns (n: nat)
    requires WellFormedDev(d) && Inside(d.mem, d.cfg.availRing, 4 + 2 * d.cfg.queueNum)
    ensures !d.ready ==> ProcessQueue(d) == d
    ensures n < 65536 && (d.prevAvail + n) % 65536 == Half(d.mem, d.cfg.availRing + 2)
    ensures d.ready ==> Taken(d, ProcessQueue(d), n)
  {
    PhysReadIs(d.mem, d.cfg.availRing + 2);
    n := Distance(d.prevAvail, Half(d.mem, d.cfg.availRing + 2));
    var d' := ConsumeIs(d, n, Half(d.mem, d.cfg.availRing + 2));
  }
}
