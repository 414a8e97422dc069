/** The disk array behind its one-block write-through cache, and the plain array it stands for. */
module DiskModel {
  import opened Bytes

  const BSIZE: nat := 1024
  const SECTOR: nat := 512

  /** `data` is the disk image; `block` holds block number `blockno` when `valid`. */
  datatype Disk = Disk(data: seq<Byte>, valid: bool, blockno: nat, block: seq<Byte>)

  predicate WellFormed(d: Disk) { |d.block| == BSIZE }

  /** The requests the device can serve: a whole block inside the image. An odd sector would run
      past the end of the cache block. */
  predicate Serves(d: Disk, sector: nat) {
    sector % 2 == 0 && sector * SECTOR + BSIZE <= |d.data|
  }

  function LoadBlock(d: Disk, blockno: nat): (d': Disk)
    requires blockno * BSIZE + BSIZE <= |d.data|
    ensures WellFormed(d) ==> WellFormed(d')
    ensures d'.data == d.data
  {
    if d.valid && d.blockno == blockno then d
    else Disk(d.data, true, blockno, d.data[blockno * BSIZE..blockno * BSIZE + BSIZE])
  }

  /** A read request: the bytes delivered come from the cache block. */
  function ReadBlock(d: Disk, sector: nat): (r: (Disk, seq<Byte>))
    requires WellFormed(d) && Serves(d, sector)
    ensures WellFormed(r.0) && |r.1| == BSIZE && r.0.data == d.data
  {
    var d' := LoadBlock(d, sector / 2);
    (d', d'.block)
  }

  /** A write request: through the cache block into the image. */
  function WriteBlock(d: Disk, sector: nat, bytes: seq<Byte>): (d': Disk)
    requires WellFormed(d) && Serves(d, sector) && |bytes| == BSIZE
    ensures WellFormed(d') && |d'.data| == |d.data|
  {
    var l := LoadBlock(d, sector / 2);
    l.(block := bytes, data := Splice(l.data, sector / 2 * BSIZE, bytes))
  }

  // ---- The plain array ----------------------------------------------------------------------

  function PlainRead(data: seq<Byte>, sector: nat): seq<Byte>
    requires sector * SECTOR + BSIZE <= |data|
  {
    data[sector * SECTOR..sector * SECTOR + BSIZE]
  }

  function PlainWrite(data: seq<Byte>, sector: nat, bytes: seq<Byte>): seq<Byte>
    requires sector * SECTOR + BSIZE <= |data| && |bytes| == BSIZE
  {
    Splice(data, sector * SECTOR, bytes)
  }

  /** A valid cache always equals its disk block. */
  predicate CacheOk(d: Disk) {
    && WellFormed(d)
    && (d.valid ==> d.blockno * BSIZE + BSIZE <= |d.data|
                    && d.block == d.data[d.blockno * BSIZE..d.blockno * BSIZE + BSIZE])
  }

  lemma ReadIsPlain(d: Disk, sector: nat)
    requires CacheOk(d) && Serves(d, sector)
    ensures CacheOk(ReadBlock(d, sector).0)
    ensures ReadBlock(d, sector).1 == PlainRead(d.data, sector)
  {
    assert sector / 2 * BSIZE == sector * SECTOR;
  }

  lemma WriteIsPlain(d: Disk, sector: nat, bytes: seq<Byte>)
    requires CacheOk(d) && Serves(d, sector) && |bytes| == BSIZE
    ensures CacheOk(WriteBlock(d, sector, bytes))
    ensures WriteBlock(d, sector, bytes).data == PlainWrite(d.data, sector, bytes)
  {
    assert sector / 2 * BSIZE == sector * SECTOR;
    SpliceSame(d.data, sector / 2 * BSIZE, bytes);
  }

  datatype Request = In(sector: nat) | Out(sector: nat, bytes: seq<Byte>)

  predicate RequestOk(size: nat, r: Request) {
    r.sector % 2 == 0 && r.sector * SECTOR + BSIZE <= size && (r.Out? ==> |r.bytes| == BSIZE)
  }

  /** The disk after a sequence of requests, and the answers to its reads. */
  function Serve(d: Disk, rs: seq<Request>): (r: (Disk, seq<seq<Byte>>))
    requires WellFormed(d) && forall i :: 0 <= i < |rs| ==> RequestOk(|d.data|, rs[i])
    ensures WellFormed(r.0) && |r.0.data| == |d.data|
  {
    if rs == [] then (d, [])
    else
      assert RequestOk(|d.data|, rs[|rs| - 1]);
      var (d', answers) := Serve(d, rs[..|rs| - 1]);
      match rs[|rs| - 1]
      case In(sector) => (ReadBlock(d', sector).0, answers + [ReadBlock(d', sector).1])
      case Out(sector, bytes) => (WriteBlock(d', sector, bytes), answers)
  }

  function PlainServe(data: seq<Byte>, rs: seq<Request>): (r: (seq<Byte>, seq<seq<Byte>>))
    requires forall i :: 0 <= i < |rs| ==> RequestOk(|data|, rs[i])
    ensures |r.0| == |data|
  {
    if rs == [] then (data, [])
    else
      assert RequestOk(|data|, rs[|rs| - 1]);
      var (data', answers) := PlainServe(data, rs[..|rs| - 1]);
      match rs[|rs| - 1]
      case In(sector) => (data', answers + [PlainRead(data', sector)])
      case Out(sector, bytes) => (PlainWrite(data', sector, bytes), answers)
  }

  /** Over any sequence of requests the cached disk answers and ends up like the plain array. */
  lemma {:induction false} CacheRefinesPlain(d: Disk, rs: seq<Request>)
    requires CacheOk(d) && forall i :: 0 <= i < |rs| ==> RequestOk(|d.data|, rs[i])
    ensures CacheOk(Serve(d, rs).0)
    ensures Serve(d, rs).0.data == PlainServe(d.data, rs).0
    ensures Serve(d, rs).1 == PlainServe(d.data, rs).1
  {
    if rs != [] {
      var before, last := rs[..|rs| - 1], rs[|rs| - 1];
      assert forall i :: 0 <= i < |before| ==> before[i] == rs[i];
      CacheRefinesPlain(d, before);
      assert RequestOk(|d.data|, last);
      match last
      case In(sector) => ReadIsPlain(Serve(d, before).0, sector);
      case Out(sector, bytes) => WriteIsPlain(Serve(d, before).0, sector, bytes);
    }
  }
}
