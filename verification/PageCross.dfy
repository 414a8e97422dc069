/** Doubleword accesses that cross a page: `get_pa` translates the first byte only. */
module PageCross {
  import opened Options
  import opened Bits
  import opened Bytes
  import opened Memory
  import opened Sv39
  import opened TlbModel
  import MmuRuns

  function WalkOf(s: MmuState, va: nat, acc: Access): Translation {
    Walk(s.mem, s.satp, s.mode, va, acc)
  }

  function Walker(s: MmuState, acc: Access): nat -> Translation {
    (va: nat) => WalkOf(s, va, acc)
  }

  /** Where `walk` puts each of the n bytes from `va` on. */
  function ByteWalks(walk: nat -> Translation, va: nat, n: nat): (ts: seq<Translation>)
    ensures |ts| == n && forall i :: 0 <= i < n ==> ts[i] == walk(va + i)
  {
    seq(n, i requires 0 <= i < n => walk(va + i))
  }

  predicate InOnePiece(ts: seq<Translation>, pa: nat) {
    forall i :: 0 <= i < |ts| ==> ts[i] == Pa(pa + i)
  }

  // ---- Addresses within a page ----------------------------------------------------------------

  lemma OffsetBound(va: nat)
    ensures PageOffset(va) < PAGE && va == PageOffset(va) + Shr(va, 12) * PAGE
  {
    LowBound(va, 12);
    Pow2Of12();
    Packed(va, 12);
  }

  lemma PageParts(q: nat, o: nat)
    requires o < PAGE
    ensures PageOffset(o + q * PAGE) == o && Shr(o + q * PAGE, 12) == q
  {
    Pow2Of12();
    LowOfPacked(o, q, 12);
    ShrOfPacked(o, q, 12);
  }

  lemma WithinPage(va: nat, i: nat, at: nat)
    requires at == va + i && PageOffset(va) + i < PAGE
    ensures PageOffset(at) == PageOffset(va) + i && Vpn(at) == Vpn(va)
  {
    OffsetBound(va);
    PageParts(Shr(va, 12), PageOffset(va) + i);
  }

  /** How many bytes of the page are left from `va` on. */
  function Left(va: nat): (k: nat)
    ensures 0 < k <= PAGE && PageOffset(va) + k == PAGE
  {
    OffsetBound(va);
    PAGE - PageOffset(va)
  }

  lemma NextPageStarts(va: nat) returns (k: nat, start: nat)
    ensures k == Left(va) && start == va + k && PageOffset(start) == 0
  {
    OffsetBound(va);
    PageParts(Shr(va, 12) + 1, 0);
    k, start := Left(va), va + Left(va);
    assert start == 0 + (Shr(va, 12) + 1) * PAGE;
  }

  /** The access stays in its page, or the next page maps to the next frame. */
  predicate StaysOrFollows(s: MmuState, va: nat, n: nat, acc: Access, pa: nat) {
    Follows(Walker(s, acc), va, n, pa, Left(va))
  }

  predicate Follows(walk: nat -> Translation, va: nat, n: nat, pa: nat, k: nat) {
    n <= k || walk(va + k) == Pa(pa + k)
  }

  /** The walk grants the access at `pa`, through a 4 KiB leaf. */
  predicate OnPage(s: MmuState, va: nat, acc: Access, pa: nat) {
    && SatpMode(s.satp) == 8 && |s.mem| % PAGE == 0 && WalkOf(s, va, acc) == Pa(pa)
    && var leaf := MapOf(s.mem, s.satp, Vpn(va)); leaf.Some? && leaf.value.level == 0
  }

  lemma LeafOf(s: MmuState, va: nat, acc: Access, pa: nat) returns (leaf: Leaf)
    requires OnPage(s, va, acc, pa)
    ensures MapOf(s.mem, s.satp, Vpn(va)) == Some(leaf) && leaf.level == 0
    ensures LeafResult(Some(leaf), |s.mem|, s.mode, va, acc) == Pa(pa)
  {
    leaf := MapOf(s.mem, s.satp, Vpn(va)).value;
  }

  lemma LeafDecides(s: MmuState, va: nat, acc: Access, leaf: Leaf)
    requires SatpMode(s.satp) == 8 && MapOf(s.mem, s.satp, Vpn(va)) == Some(leaf)
    ensures WalkOf(s, va, acc) == LeafResult(Some(leaf), |s.mem|, s.mode, va, acc)
  {}

  lemma LeafAlong(leaf: Leaf, size: nat, m: Mode, va: nat, va': nat, i: nat, acc: Access, pa: nat)
    requires leaf.level == 0 && size % PAGE == 0 && LeafResult(Some(leaf), size, m, va, acc) == Pa(pa)
    requires PageOffset(va') == PageOffset(va) + i
    ensures LeafResult(Some(leaf), size, m, va', acc) == Pa(pa + i)
  {
    MmuRuns.UsableIsPagewise(size, leaf, va);
    MmuRuns.UsableIsPagewise(size, leaf, va');
  }

  lemma SamePage(s: MmuState, va: nat, at: nat, i: nat, acc: Access, pa: nat)
    requires OnPage(s, va, acc, pa) && Vpn(at) == Vpn(va) && PageOffset(at) == PageOffset(va) + i
    ensures WalkOf(s, at, acc) == Pa(pa + i)
  {
    var leaf := LeafOf(s, va, acc, pa);
    LeafAlong(leaf, |s.mem|, s.mode, va, at, i, acc, pa);
    LeafDecides(s, at, acc, leaf);
  }

  /** Such a page lies in one piece. */
  lemma AlongPage(s: MmuState, va: nat, i: nat, at: nat, acc: Access, pa: nat)
    requires OnPage(s, va, acc, pa) && at == va + i && PageOffset(va) + i < PAGE
    ensures WalkOf(s, at, acc) == Pa(pa + i)
  {
    WithinPage(va, i, at);
    SamePage(s, va, at, i, acc, pa);
  }

  /** Only a 4 KiB leaf leads to an address other than 0. */
  lemma FrameIsPage(s: MmuState, va: nat, acc: Access, pa: nat)
    requires SatpMode(s.satp) == 8 && |s.mem| % PAGE == 0 && WalkOf(s, va, acc) == Pa(pa) && pa > 0
    ensures OnPage(s, va, acc, pa)
  {}

  /** `walk` puts the k bytes from `va` on at the k bytes from `pa` on. */
  predicate Maps(walk: nat -> Translation, va: nat, k: nat, pa: nat) {
    forall x: nat :: va <= x < va + k ==> walk(x) == Pa(pa + (x - va))
  }

  lemma RestOfPage(s: MmuState, va: nat, acc: Access, pa: nat)
    requires OnPage(s, va, acc, pa)
    ensures Maps(Walker(s, acc), va, Left(va), pa)
  {
    forall x: nat | va <= x < va + Left(va) ensures Walker(s, acc)(x) == Pa(pa + (x - va)) {
      AlongPage(s, va, x - va, x, acc, pa);
    }
  }

  lemma WholePage(s: MmuState, start: nat, acc: Access, frame: nat)
    requires SatpMode(s.satp) == 8 && |s.mem| % PAGE == 0 && WalkOf(s, start, acc) == Pa(frame) && frame > 0
    requires PageOffset(start) == 0
    ensures Maps(Walker(s, acc), start, PAGE, frame)
  {
    FrameIsPage(s, start, acc, frame);
    assert Left(start) == PAGE;
    RestOfPage(s, start, acc, frame);
  }

  lemma TwoPages(walk: nat -> Translation, va: nat, n: nat, pa: nat, k: nat, start: nat)
    requires 0 < k && start == va + k && n <= PAGE && Maps(walk, va, k, pa)
    requires walk(start) == Pa(pa + k) ==> Maps(walk, start, PAGE, pa + k)
    ensures InOnePiece(ByteWalks(walk, va, n), pa) <==> Follows(walk, va, n, pa, k)
  {
    var ts := ByteWalks(walk, va, n);
    if n <= k || walk(start) == Pa(pa + k) {
      forall i | 0 <= i < n ensures ts[i] == Pa(pa + i) {
        assert walk(va + i) == Pa(pa + i);
      }
    } else {
      assert ts[k] == walk(start);
    }
  }

  lemma BothPages(s: MmuState, va: nat, acc: Access, pa: nat) returns (k: nat, start: nat)
    requires OnPage(s, va, acc, pa)
    ensures 0 < k && k == Left(va) && start == va + k && Maps(Walker(s, acc), va, k, pa)
    ensures Walker(s, acc)(start) == Pa(pa + k) ==> Maps(Walker(s, acc), start, PAGE, pa + k)
  {
    RestOfPage(s, va, acc, pa);
    k, start := NextPageStarts(va);
    if WalkOf(s, start, acc) == Pa(pa + k) { WholePage(s, start, acc, pa + k); }
  }

  /** The bytes of an access on a 4 KiB page lie in one piece, as `get_pa` takes for granted, if and
      only if the access stays in the page or the next page maps to the next frame. */
  lemma OnePieceIff(s: MmuState, va: nat, n: nat, acc: Access, pa: nat)
    requires OnPage(s, va, acc, pa) && 0 < n <= PAGE
    ensures InOnePiece(ByteWalks(Walker(s, acc), va, n), pa) <==> StaysOrFollows(s, va, n, acc, pa)
  {
    var k, start := BothPages(s, va, acc, pa);
    TwoPages(Walker(s, acc), va, n, pa, k, start);
  }

  // ---- Stores, byte by byte -------------------------------------------------------------------

  /** Every byte stored where its own address leads, or nowhere. */
  function StoreEach(m: seq<Byte>, ts: seq<Translation>, bs: seq<Byte>): (m': seq<Byte>)
    requires |ts| == |bs|
    ensures |m'| == |m|
  {
    if bs == [] then m
    else
      var k := |bs| - 1;
      var m1 := StoreEach(m, ts[..k], bs[..k]);
      match ts[k]
      case Pa(pa) => DramWrite(m1, pa, bs[k], 1)
      case PageFault => m1
  }

  lemma StoreLast(m: seq<Byte>, ts: seq<Translation>, bs: seq<Byte>)
    returns (init: seq<Byte>, b: Byte, front: seq<Translation>, t: Translation, m1: seq<Byte>)
    requires |ts| == |bs| > 0
    ensures bs == init + [b] && ts == front + [t] && |front| == |init| && m1 == StoreEach(m, front, init) && |m1| == |m|
    ensures StoreEach(m, ts, bs) == match t case Pa(pa) => DramWrite(m1, pa, b, 1) case PageFault => m1
  {
    var k := |bs| - 1;
    init, b, front, t := bs[..k], bs[k], ts[..k], ts[k];
    m1 := StoreEach(m, front, init);
  }

  lemma PieceFront(front: seq<Translation>, t: Translation, pa: nat)
    requires InOnePiece(front + [t], pa)
    ensures InOnePiece(front, pa) && t == Pa(pa + |front|)
  {
    var ts := front + [t];
    assert ts[|front|] == t;
    forall i | 0 <= i < |front| ensures front[i] == Pa(pa + i) { assert front[i] == ts[i]; }
  }

  lemma {:induction false} StoreInOnePiece(m: seq<Byte>, ts: seq<Translation>, bs: seq<Byte>, pa: nat)
    requires |ts| == |bs| && InOnePiece(ts, pa) && InDram(|m|, pa, |bs|)
    ensures StoreEach(m, ts, bs) == Splice(m, pa - MEMORY_BASE, bs)
    decreases |bs|
  {
    if bs != [] {
      var init, b, front, t, m1 := StoreLast(m, ts, bs);
      PieceFront(front, t, pa);
      StoreInOnePiece(m, front, init, pa);
      AppendByte(m, m1, pa, init, b);
    }
  }

  lemma OtherByte(m: seq<Byte>, pa: nat, b: Byte, a: nat)
    requires InDram(|m|, a, 1) && pa != a
    ensures DramWrite(m, pa, b, 1)[a - MEMORY_BASE] == m[a - MEMORY_BASE]
  {
    if InDram(|m|, pa, 1) { WriteOneByte(m, pa, b); }
  }

  /** The byte at an address after such a store is one of those that go there, and the old one only
      if none does. */
  lemma {:induction false} StoreEachAt(m: seq<Byte>, ts: seq<Translation>, bs: seq<Byte>, a: nat)
    returns (hit: bool, j: nat)
    requires |ts| == |bs| && InDram(|m|, a, 1)
    ensures hit ==> j < |bs| && ts[j] == Pa(a) && StoreEach(m, ts, bs)[a - MEMORY_BASE] == bs[j]
    ensures !hit ==> StoreEach(m, ts, bs)[a - MEMORY_BASE] == m[a - MEMORY_BASE] && Pa(a) !in ts
    decreases |bs|
  {
    hit, j := false, 0;
    if bs != [] {
      var k := |bs| - 1;
      var m1 := StoreEach(m, ts[..k], bs[..k]);
      if ts[k] == Pa(a) {
        hit, j := true, k;
        WriteOneByte(m1, a, bs[k]);
      } else {
        hit, j := StoreEachAt(m, ts[..k], bs[..k], a);
        if ts[k].Pa? { OtherByte(m1, ts[k].pa, bs[k], a); }
        assert ts == ts[..k] + [ts[k]];
      }
    }
  }

  /** SD after a translation to `pa`. */
  lemma StoredAt(s: MmuState, va: nat, value: nat, pa: nat) returns (mem: seq<Byte>)
    requires Translate(s, va, Store).1 == Pa(pa) && MEMORY_BASE <= pa
    ensures mem == Store64(s, va, value).0.mem && |mem| == |s.mem|
    ensures mem == if InDram(|s.mem|, pa, 8) then Splice(s.mem, pa - MEMORY_BASE, LeBytes(value, 8)) else s.mem
  {
    OnlyLines(s, va, Store);
    mem := Store64(s, va, value).0.mem;
  }

  /** A value whose byte i differs from the other bytes, and all from a given one. */
  lemma TellTale(i: nat, was: Byte) returns (value: nat, bs: seq<Byte>)
    requires i < 8
    ensures bs == LeBytes(value, 8) && was !in bs && forall j :: 0 <= j < 8 && j != i ==> bs[j] != bs[i]
  {
    var x: Byte, y: Byte := if was == 0 then 2 else 0, if was == 1 then 2 else if was == 0 then 1 else 1;
    bs := seq(8, j => if j == i then x else y);
    value := LeValue(bs);
    LeBytesOfValue(bs);
  }

  /** A byte that goes elsewhere is not where SD puts it. */
  lemma GoesWrong(m: seq<Byte>, ts: seq<Translation>, pa: nat, i: nat) returns (value: nat)
    requires |ts| == 8 && i < 8 && InDram(|m|, pa, 8) && ts[i] != Pa(pa + i)
    ensures Splice(m, pa - MEMORY_BASE, LeBytes(value, 8)) != StoreEach(m, ts, LeBytes(value, 8))
  {
    var bs;
    value, bs := TellTale(i, m[pa + i - MEMORY_BASE]);
    var hit, j := StoreEachAt(m, ts, bs, pa + i);
    assert Splice(m, pa - MEMORY_BASE, bs)[pa + i - MEMORY_BASE] == bs[i];
  }

  /** At the end of memory SD stores nothing, and its first byte is missing. */
  lemma StoresNothing(m: seq<Byte>, ts: seq<Translation>, pa: nat) returns (value: nat)
    requires |ts| == 8 && InDram(|m|, pa, 1) && ts[0] == Pa(pa)
    ensures m != StoreEach(m, ts, LeBytes(value, 8))
  {
    var bs;
    value, bs := TellTale(0, m[pa - MEMORY_BASE]);
    var hit, j := StoreEachAt(m, ts, bs, pa);
  }

  /** Page crossing, exactly: where SD translates as the walk does, to DRAM through a 4 KiB leaf, it
      stores every doubleword as its bytes would be stored one by one if and only if it stays in its
      page or the next page maps to the next frame. */
  lemma StoreCrossingIff(s: MmuState, va: nat, pa: nat)
    requires OnPage(s, va, Store, pa) && InDram(|s.mem|, pa, 1) && Translate(s, va, Store).1 == Pa(pa)
    ensures (forall value: nat ::
              Store64(s, va, value).0.mem == StoreEach(s.mem, ByteWalks(Walker(s, Store), va, 8), LeBytes(value, 8)))
            <==> StaysOrFollows(s, va, 8, Store, pa)
  {
    var ts := ByteWalks(Walker(s, Store), va, 8);
    OnePieceIff(s, va, 8, Store, pa);
    if InOnePiece(ts, pa) {
      PieceInDram(s, va, 8, Store, pa);
      forall value: nat ensures Store64(s, va, value).0.mem == StoreEach(s.mem, ts, LeBytes(value, 8)) {
        var mem := StoredAt(s, va, value, pa);
        StoreInOnePiece(s.mem, ts, LeBytes(value, 8), pa);
      }
    } else {
      var value: nat;
      if InDram(|s.mem|, pa, 8) {
        var i :| 0 <= i < |ts| && ts[i] != Pa(pa + i);
        value := GoesWrong(s.mem, ts, pa, i);
      } else {
        value := StoresNothing(s.mem, ts, pa);
      }
      var mem := StoredAt(s, va, value, pa);
      assert Store64(s, va, value).0.mem != StoreEach(s.mem, ts, LeBytes(value, 8));
    }
  }

  /** What the walk grants lies below the end of memory. */
  lemma PieceInDram(s: MmuState, va: nat, n: nat, acc: Access, pa: nat)
    requires SatpMode(s.satp) == 8 && 0 < n && MEMORY_BASE <= pa && InOnePiece(ByteWalks(Walker(s, acc), va, n), pa)
    ensures InDram(|s.mem|, pa, n)
  {
    assert ByteWalks(Walker(s, acc), va, n)[n - 1] == Pa(pa + (n - 1));
  }

  // ---- Loads, byte by byte --------------------------------------------------------------------

  /** Every byte loaded from where its own address leads. */
  function LoadEach(m: seq<Byte>, ts: seq<Translation>): (bs: seq<nat>)
    ensures |bs| == |ts|
    ensures forall i :: 0 <= i < |ts| ==> bs[i] == if ts[i].Pa? then DramRead(m, ts[i].pa, 1) else 0
  {
    seq(|ts|, i requires 0 <= i < |ts| => if ts[i].Pa? then DramRead(m, ts[i].pa, 1) else 0)
  }

  lemma OneByteRead(m: seq<Byte>, a: nat)
    requires InDram(|m|, a, 1)
    ensures DramRead(m, a, 1) == m[a - MEMORY_BASE]
  {
    assert LeAt(m, a - MEMORY_BASE, 1) == m[a - MEMORY_BASE] + 256 * LeAt(m, a - MEMORY_BASE + 1, 0);
  }

  lemma LoadInOnePiece(m: seq<Byte>, ts: seq<Translation>, pa: nat)
    requires InOnePiece(ts, pa) && InDram(|m|, pa, |ts|) && ts != []
    ensures LoadEach(m, ts) == m[pa - MEMORY_BASE..pa - MEMORY_BASE + |ts|]
  {
    forall i | 0 <= i < |ts| ensures LoadEach(m, ts)[i] == m[pa - MEMORY_BASE + i] {
      assert ts[i] == Pa(pa + i);
      OneByteRead(m, pa + i);
    }
  }

  /** LD under the same condition returns the value of the bytes that would be loaded one by one. */
  lemma LoadAgrees(s: MmuState, va: nat, pa: nat)
    requires OnPage(s, va, Load, pa) && InDram(|s.mem|, pa, 1) && Translate(s, va, Load).1 == Pa(pa)
    requires StaysOrFollows(s, va, 8, Load, pa)
    ensures exists bs: seq<Byte> ::
              bs == LoadEach(s.mem, ByteWalks(Walker(s, Load), va, 8)) && Load64(s, va).2 == LeValue(bs)
  {
    var ts := ByteWalks(Walker(s, Load), va, 8);
    OnePieceIff(s, va, 8, Load, pa);
    PieceInDram(s, va, 8, Load, pa);
    LoadInOnePiece(s.mem, ts, pa);
    OnlyLines(s, va, Load);
    LeAtIsValue(s.mem, pa - MEMORY_BASE, 8);
  }
}
