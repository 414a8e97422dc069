/** TLB slots with timestamps, and how they list the lines of TlbModel newest first. */
module TlbSlots {
  import opened Bits
  import opened Sv39
  import opened TlbModel

  const TAG_VPNS: nat := 0x400_0000

  datatype TlbEntry = TlbEntry(tag: nat, ppn: nat, flags: Flags, valid: bool, global: bool, asid: nat, lastUsed: nat)

  function TagFor(vpn: nat, global: bool, asid: nat): nat {
    if global then vpn else vpn + asid * TAG_VPNS
  }

  function EntryVpn(e: TlbEntry): nat { Low(e.tag, 26) }

  function EntryLine(e: TlbEntry): Line { Line(EntryVpn(e), e.ppn, e.flags) }

  predicate Matches(e: TlbEntry, vpn: nat, asid: nat) {
    e.valid && if e.global then EntryVpn(e) == vpn else e.tag == TagFor(vpn, false, asid)
  }

  ghost predicate EntryOk(e: TlbEntry, asid: nat) {
    e.tag == TagFor(EntryVpn(e), e.global, asid) && e.flags.v && (e.flags.w ==> e.flags.r)
  }

  lemma MatchIsVpn(e: TlbEntry, vpn: nat, asid: nat)
    requires e.valid && EntryOk(e, asid)
    ensures Matches(e, vpn, asid) <==> EntryVpn(e) == vpn
  {}

  ghost predicate Differ(order: seq<nat>, a: nat, b: nat)
    requires a < |order| && b < |order|
  {
    order[a] != order[b]
  }

  ghost predicate Distinct(order: seq<nat>) {
    forall a, b :: 0 <= a < b < |order| ==> Differ(order, a, b)
  }

  /** `order` lists the valid slots, newest first. */
  ghost predicate Lists(es: seq<TlbEntry>, order: seq<nat>) {
    && Distinct(order)
    && (forall k :: 0 <= k < |order| ==> order[k] < |es| && es[order[k]].valid)
    && (forall i :: 0 <= i < |es| && es[i].valid ==> i in order)
  }

  ghost predicate Newer(es: seq<TlbEntry>, order: seq<nat>, a: nat, b: nat)
    requires a < |order| && b < |order| && order[a] < |es| && order[b] < |es|
  {
    es[order[a]].lastUsed > es[order[b]].lastUsed
  }

  /** Timestamps fall along `order`. */
  ghost predicate Falling(es: seq<TlbEntry>, order: seq<nat>) {
    && (forall k :: 0 <= k < |order| ==> order[k] < |es|)
    && (forall a, b :: 0 <= a < b < |order| ==> Newer(es, order, a, b))
  }

  /** The counter is past every timestamp in use, and a free slot 0 is never younger than a valid
      slot, which is what makes the replacement scan, which does not test slot 0 for being free,
      choose it. */
  ghost predicate Clocked(es: seq<TlbEntry>, cnt: nat) {
    && (forall i :: 0 <= i < |es| ==> es[i].lastUsed <= cnt && (es[i].valid ==> es[i].lastUsed < cnt))
    && (es != [] && !es[0].valid ==>
          forall i :: 0 <= i < |es| && es[i].valid ==> es[0].lastUsed <= es[i].lastUsed)
  }

  ghost predicate Apart(es: seq<TlbEntry>, i: nat, j: nat)
    requires i < |es| && j < |es|
  {
    es[i].valid && es[j].valid ==> EntryVpn(es[i]) != EntryVpn(es[j])
  }

  ghost predicate Tagged(es: seq<TlbEntry>, asid: nat) {
    && (forall i :: 0 <= i < |es| && es[i].valid ==> EntryOk(es[i], asid))
    && (forall i, j :: 0 <= i < j < |es| ==> Apart(es, i, j))
  }

  datatype Aspect = Listing | Order | Clock | Tags

  ghost predicate Holds(a: Aspect, es: seq<TlbEntry>, order: seq<nat>, cnt: nat, asid: nat) {
    match a
    case Listing => Lists(es, order)
    case Order => Falling(es, order)
    case Clock => Clocked(es, cnt)
    case Tags => Tagged(es, asid)
  }

  /** The TLB invariant. It stays folded in proofs that only hand it on: RankedParts takes it apart
      and RankedWhole puts it together. */
  ghost predicate Ranked(es: seq<TlbEntry>, order: seq<nat>, cnt: nat, asid: nat) {
    && (forall k :: 0 <= k < |order| ==> order[k] < |es|)
    && forall a: Aspect :: Holds(a, es, order, cnt, asid)
  }

  lemma RankedParts(es: seq<TlbEntry>, order: seq<nat>, cnt: nat, asid: nat)
    requires Ranked(es, order, cnt, asid)
    ensures Lists(es, order) && Falling(es, order) && Clocked(es, cnt) && Tagged(es, asid)
  {
    assert Holds(Listing, es, order, cnt, asid) && Holds(Order, es, order, cnt, asid);
    assert Holds(Clock, es, order, cnt, asid) && Holds(Tags, es, order, cnt, asid);
  }

  lemma RankedWhole(es: seq<TlbEntry>, order: seq<nat>, cnt: nat, asid: nat)
    requires Lists(es, order) && Falling(es, order) && Clocked(es, cnt) && Tagged(es, asid)
    ensures Ranked(es, order, cnt, asid)
  {}

  ghost function LinesOf(es: seq<TlbEntry>, order: seq<nat>): (lines: seq<Line>)
    requires forall k :: 0 <= k < |order| ==> order[k] < |es|
    ensures |lines| == |order|
    ensures forall k :: 0 <= k < |order| ==> lines[k] == EntryLine(es[order[k]])
  {
    seq(|order|, k requires 0 <= k < |order| => EntryLine(es[order[k]]))
  }

  ghost function Range(n: nat): (r: set<nat>)
    ensures |r| == n && forall i :: i in r <==> 0 <= i < n
  {
    if n == 0 then {} else Range(n - 1) + {n - 1}
  }

  ghost function Members(order: seq<nat>): (r: set<nat>)
    ensures forall i :: i in r <==> i in order
  {
    set i | i in order
  }

  lemma {:induction false} DistinctSize(order: seq<nat>)
    requires Distinct(order)
    ensures |Members(order)| == |order|
  {
    if order != [] {
      var rest := order[1..];
      forall a, b | 0 <= a < b < |rest| ensures Differ(rest, a, b) { assert Differ(order, a + 1, b + 1); }
      DistinctSize(rest);
      forall k | 0 <= k < |rest| ensures rest[k] != order[0] { assert Differ(order, 0, k + 1); }
      assert Members(order) == Members(rest) + {order[0]};
    }
  }

  lemma SubsetSize(a: set<nat>, b: set<nat>)
    requires a <= b
    ensures |a| <= |b|
    ensures |a| == |b| ==> a == b
  {
    assert b == a + (b - a);
  }

  /** The list is full exactly when every slot is valid. */
  lemma FullIffAllValid(es: seq<TlbEntry>, order: seq<nat>)
    requires Lists(es, order)
    ensures |order| <= |es|
    ensures |order| == |es| <==> forall i :: 0 <= i < |es| ==> es[i].valid
  {
    DistinctSize(order);
    SubsetSize(Members(order), Range(|es|));
    if forall i :: 0 <= i < |es| ==> es[i].valid {
      assert Members(order) == Range(|es|);
    }
    if |order| == |es| {
      forall i | 0 <= i < |es| ensures es[i].valid {
        assert i in Members(order);
      }
    }
  }

  lemma VpnsDiffer(es: seq<TlbEntry>, order: seq<nat>, asid: nat, i: nat, j: nat)
    requires Lists(es, order) && Tagged(es, asid) && i < j < |order|
    ensures EntryVpn(es[order[i]]) != EntryVpn(es[order[j]])
  {
    assert Differ(order, i, j);
    assert if order[i] < order[j] then Apart(es, order[i], order[j]) else Apart(es, order[j], order[i]);
  }

  function MoveToFront(order: seq<nat>, k: nat): seq<nat>
    requires k < |order|
  {
    [order[k]] + order[..k] + order[k + 1..]
  }

  lemma MoveToFrontAt(order: seq<nat>, k: nat)
    requires k < |order| && Distinct(order)
    ensures var order' := MoveToFront(order, k);
            && |order'| == |order| && Distinct(order') && order'[0] == order[k]
            && (forall j :: 1 <= j < |order| ==> order'[j] == order[Origin(k, j)] && order'[j] != order[k])
            && (forall i :: i in order <==> i in order')
  {
    var order' := MoveToFront(order, k);
    forall a, b | 0 <= a < b < |order'| ensures Differ(order', a, b) {
      var x, y := Origin(k, a), Origin(k, b);
      assert order'[a] == order[x] && order'[b] == order[y];
      assert if x < y then Differ(order, x, y) else Differ(order, y, x);
    }
    forall j | 1 <= j < |order| ensures order'[j] != order[k] { assert Differ(order', 0, j); }
    forall i | i in order ensures i in order' {
      var j :| 0 <= j < |order| && order[j] == i;
      if j == k {
        assert order'[0] == i;
      } else {
        assert order'[if j < k then j + 1 else j] == i;
      }
    }
  }

  /** Slots other than the updated one keep their place in the order. */
  lemma PromoteLists(es: seq<TlbEntry>, order: seq<nat>, k: nat, e: TlbEntry)
    requires Lists(es, order) && k < |order| && e.valid
    ensures Lists(es[order[k] := e], MoveToFront(order, k))
  {
    MoveToFrontAt(order, k);
    var es', order' := es[order[k] := e], MoveToFront(order, k);
    forall j | 0 <= j < |order'| ensures order'[j] < |es'| && es'[order'[j]].valid {
      if j > 0 { assert order'[j] == order[Origin(k, j)]; }
    }
  }

  lemma PromotePair(es: seq<TlbEntry>, order: seq<nat>, cnt: nat, k: nat, e: TlbEntry, a: nat, b: nat)
    requires Lists(es, order) && Falling(es, order) && Clocked(es, cnt) && k < |order| && e.lastUsed == cnt
    requires a < b < |order|
    ensures var es', order' := es[order[k] := e], MoveToFront(order, k);
            order'[a] < |es| && order'[b] < |es| && Newer(es', order', a, b)
  {
    MoveToFrontAt(order, k);
    assert MoveToFront(order, k)[b] == order[Origin(k, b)] && Origin(k, b) != k;
    if a > 0 {
      assert MoveToFront(order, k)[a] == order[Origin(k, a)] && Newer(es, order, Origin(k, a), Origin(k, b));
    }
  }

  lemma PromoteFalling(es: seq<TlbEntry>, order: seq<nat>, cnt: nat, k: nat, e: TlbEntry)
    requires Lists(es, order) && Falling(es, order) && Clocked(es, cnt) && k < |order| && e.lastUsed == cnt
    ensures Falling(es[order[k] := e], MoveToFront(order, k))
  {
    MoveToFrontAt(order, k);
    var es', order' := es[order[k] := e], MoveToFront(order, k);
    forall a, b | 0 <= a < b < |order'| ensures Newer(es', order', a, b) {
      PromotePair(es, order, cnt, k, e, a, b);
    }
  }

  /** Writing the newest timestamp into any slot keeps the clock invariant. */
  lemma StampClocked(es: seq<TlbEntry>, cnt: nat, i: nat, e: TlbEntry)
    requires Clocked(es, cnt) && i < |es| && e.valid && e.lastUsed == cnt
    ensures Clocked(es[i := e], cnt + 1)
  {}

  lemma PromoteLines(es: seq<TlbEntry>, order: seq<nat>, k: nat, e: TlbEntry)
    requires Lists(es, order) && k < |order| && e.valid
    ensures Lists(es[order[k] := e], MoveToFront(order, k))
    ensures LinesOf(es[order[k] := e], MoveToFront(order, k)) == Promote(LinesOf(es, order), k, EntryLine(e))
  {
    PromoteLists(es, order, k, e);
    MoveToFrontAt(order, k);
    var es', order' := es[order[k] := e], MoveToFront(order, k);
    var lines, lines' := LinesOf(es, order), LinesOf(es', order');
    forall j | 0 <= j < |lines'| ensures lines'[j] == Promote(lines, k, EntryLine(e))[j] {
      PromoteAt(lines, k, EntryLine(e), j);
      if j > 0 { assert order'[j] == order[Origin(k, j)]; }
    }
  }

  /** Two valid slots hold different pages. */
  lemma PagesApart(es: seq<TlbEntry>, asid: nat, i: nat, j: nat)
    requires Tagged(es, asid) && i < |es| && j < |es| && i != j
    ensures Apart(es, i, j)
  {
    assert if i < j then Apart(es, i, j) else Apart(es, j, i);
  }

  lemma RewriteTags(es: seq<TlbEntry>, asid: nat, i: nat, e: TlbEntry)
    requires Tagged(es, asid) && i < |es| && e.valid && EntryOk(e, asid)
    requires forall j :: 0 <= j < |es| && j != i && es[j].valid ==> EntryVpn(es[j]) != EntryVpn(e)
    ensures Tagged(es[i := e], asid)
  {
    var es' := es[i := e];
    forall a, b | 0 <= a < b < |es'| ensures Apart(es', a, b) {
      assert Apart(es, a, b);
    }
  }

  /** A hit: slot order[k] gets the newest timestamp. */
  lemma PromoteSlot(es: seq<TlbEntry>, order: seq<nat>, cnt: nat, asid: nat, k: nat, e: TlbEntry)
    requires Ranked(es, order, cnt, asid) && k < |order|
    requires e.valid && e.lastUsed == cnt && EntryOk(e, asid) && EntryVpn(e) == EntryVpn(es[order[k]])
    ensures Ranked(es[order[k] := e], MoveToFront(order, k), cnt + 1, asid)
    ensures LinesOf(es[order[k] := e], MoveToFront(order, k)) == Promote(LinesOf(es, order), k, EntryLine(e))
  {
    RankedParts(es, order, cnt, asid);
    PromoteFalling(es, order, cnt, k, e);
    StampClocked(es, cnt, order[k], e);
    forall j | 0 <= j < |es| && es[j].valid && j != order[k] ensures EntryVpn(es[j]) != EntryVpn(e) {
      PagesApart(es, asid, j, order[k]);
    }
    RewriteTags(es, asid, order[k], e);
    PromoteLines(es, order, k, e);
  }

  function PushFront(order: seq<nat>, i: nat, capacity: nat): seq<nat> {
    [i] + if |order| < capacity || order == [] then order else order[..|order| - 1]
  }

  /** The slot a fill may take: a free one, or the oldest when none is free. */
  ghost predicate Victim(es: seq<TlbEntry>, order: seq<nat>, i: nat) {
    && i < |es|
    && if |order| < |es| then !es[i].valid else |order| > 0 && i == order[|order| - 1]
  }

  /** The slots that keep their entry are a prefix of the order without the victim. */
  lemma Survivors(es: seq<TlbEntry>, order: seq<nat>, i: nat) returns (m: nat)
    requires Lists(es, order) && Victim(es, order, i)
    ensures m <= |order| && PushFront(order, i, |es|) == [i] + order[..m]
    ensures m == if |order| < |es| then |order| else |order| - 1
    ensures i !in order[..m]
    ensures forall j :: 0 <= j < |es| && es[j].valid && j != i ==> j in order[..m]
  {
    FullIffAllValid(es, order);
    m := if |order| < |es| then |order| else |order| - 1;
    if |order| < |es| { assert order[..m] == order; }
    forall q | 0 <= q < m ensures order[..m][q] != i { if m < |order| { assert Differ(order, q, m); } }
    forall j | 0 <= j < |es| && es[j].valid && j != i ensures j in order[..m] {
      var q :| 0 <= q < |order| && order[q] == j;
      assert order[..m][q] == j;
    }
  }

  lemma InsertLists(es: seq<TlbEntry>, order: seq<nat>, i: nat, e: TlbEntry)
    requires Lists(es, order) && Victim(es, order, i) && e.valid
    ensures Lists(es[i := e], PushFront(order, i, |es|))
  {
    var m := Survivors(es, order, i);
    DistinctPrefix(order, m);
    ListsFromParts(es[i := e], [i] + order[..m], i, order[..m]);
  }

  lemma DistinctPrefix(order: seq<nat>, m: nat)
    requires Distinct(order) && m <= |order|
    ensures Distinct(order[..m])
  {
    forall a, b | 0 <= a < b < m ensures Differ(order[..m], a, b) { assert Differ(order, a, b); }
  }

  lemma ListsFromParts(es: seq<TlbEntry>, order: seq<nat>, i: nat, kept: seq<nat>)
    requires order == [i] + kept && i < |es| && es[i].valid
    requires Distinct(kept) && i !in kept
    requires forall j :: 0 <= j < |kept| ==> kept[j] < |es| && es[kept[j]].valid
    requires forall j :: 0 <= j < |es| && es[j].valid && j != i ==> j in kept
    ensures Lists(es, order)
  {
    assert forall j :: 1 <= j < |order| ==> order[j] == kept[j - 1];
    forall a, b | 0 <= a < b < |order| ensures Differ(order, a, b) {
      if a > 0 { assert Differ(kept, a - 1, b - 1); }
    }
    assert order[0] == i && i in order;
  }

  lemma InsertLines(es: seq<TlbEntry>, order: seq<nat>, i: nat, e: TlbEntry)
    requires Lists(es, order) && Victim(es, order, i) && e.valid
    ensures Lists(es[i := e], PushFront(order, i, |es|))
    ensures LinesOf(es[i := e], PushFront(order, i, |es|)) == Insert(LinesOf(es, order), EntryLine(e), |es|)
  {
    InsertLists(es, order, i, e);
    var m := Survivors(es, order, i);
    LinesFromParts(es, order, m, i, e);
    FullIffAllValid(es, order);
    InsertIs(LinesOf(es, order), EntryLine(e), |es|, m);
  }

  lemma InsertIs(lines: seq<Line>, line: Line, capacity: nat, m: nat)
    requires capacity > 0 && m == if |lines| < capacity then |lines| else |lines| - 1
    requires |lines| <= capacity
    ensures Insert(lines, line, capacity) == [line] + lines[..m]
  {
    if |lines| < capacity { assert lines[..m] == lines; }
  }

  lemma LinesFromParts(es: seq<TlbEntry>, order: seq<nat>, m: nat, i: nat, e: TlbEntry)
    requires forall k :: 0 <= k < |order| ==> order[k] < |es|
    requires m <= |order| && i < |es| && i !in order[..m]
    ensures LinesOf(es[i := e], [i] + order[..m]) == [EntryLine(e)] + LinesOf(es, order)[..m]
  {
    var es', order' := es[i := e], [i] + order[..m];
    forall j | 1 <= j <= m ensures LinesOf(es', order')[j] == LinesOf(es, order)[j - 1] {
      assert order'[j] == order[..m][j - 1] == order[j - 1];
    }
  }

  lemma InsertFalling(es: seq<TlbEntry>, order: seq<nat>, cnt: nat, i: nat, e: TlbEntry)
    requires Lists(es, order) && Falling(es, order) && Clocked(es, cnt)
    requires Victim(es, order, i) && e.lastUsed == cnt
    ensures Falling(es[i := e], PushFront(order, i, |es|))
  {
    var m := Survivors(es, order, i);
    forall a, b | 0 <= a < b < m ensures Newer(es, order[..m], a, b) { assert Newer(es, order, a, b); }
    FallingFromParts(es, order[..m], i, e);
  }

  lemma FallingFromParts(es: seq<TlbEntry>, kept: seq<nat>, i: nat, e: TlbEntry)
    requires i < |es| && i !in kept && Falling(es, kept)
    requires forall j :: 0 <= j < |kept| ==> es[kept[j]].lastUsed < e.lastUsed
    ensures Falling(es[i := e], [i] + kept)
  {
    var es', order := es[i := e], [i] + kept;
    forall j | 0 <= j < |kept| ensures order[j + 1] == kept[j] && es'[kept[j]] == es[kept[j]] {
      assert kept[j] != i;
    }
    forall a, b | 0 <= a < b < |order| ensures Newer(es', order, a, b) {
      assert order[b] == kept[b - 1];
      if a > 0 { assert order[a] == kept[a - 1] && Newer(es, kept, a - 1, b - 1); }
    }
  }

  /** A fill: the victim's slot gets the new entry and the newest timestamp. */
  lemma InsertSlot(es: seq<TlbEntry>, order: seq<nat>, cnt: nat, asid: nat, i: nat, e: TlbEntry)
    requires Ranked(es, order, cnt, asid) && Victim(es, order, i)
    requires e.valid && e.lastUsed == cnt && EntryOk(e, asid)
    requires forall j :: 0 <= j < |es| && es[j].valid ==> EntryVpn(es[j]) != EntryVpn(e)
    ensures Ranked(es[i := e], PushFront(order, i, |es|), cnt + 1, asid)
    ensures LinesOf(es[i := e], PushFront(order, i, |es|)) == Insert(LinesOf(es, order), EntryLine(e), |es|)
  {
    RankedParts(es, order, cnt, asid);
    InsertLines(es, order, i, e);
    InsertFalling(es, order, cnt, i, e);
    StampClocked(es, cnt, i, e);
    RewriteTags(es, asid, i, e);
  }

  /** The one slot that matches a page holds the line the recency list finds for it. */
  lemma MatchPosition(es: seq<TlbEntry>, order: seq<nat>, asid: nat, i: nat, vpn: nat) returns (k: nat)
    requires Lists(es, order) && Tagged(es, asid) && i < |es| && Matches(es[i], vpn, asid)
    ensures k < |order| && order[k] == i && k == IndexOf(LinesOf(es, order), vpn)
    ensures LinesOf(es, order)[k] == EntryLine(es[i])
  {
    MatchIsVpn(es[i], vpn, asid);
    k :| 0 <= k < |order| && order[k] == i;
    var lines := LinesOf(es, order);
    forall j | 0 <= j < k ensures lines[j].vpn != vpn {
      VpnsDiffer(es, order, asid, j, k);
    }
    IndexIs(lines, vpn, k);
  }

  /** A hit at slot order[k]: the new timestamp and the marked flags promote its line. */
  lemma HitPromotes(es: seq<TlbEntry>, order: seq<nat>, cnt: nat, asid: nat, k: nat, line: Line, m: Mode, acc: Access)
    returns (order': seq<nat>)
    requires Ranked(es, order, cnt, asid) && k < |order| && line == EntryLine(es[order[k]])
    ensures var i := order[k];
            var es' := es[i := es[i].(lastUsed := cnt, flags := AfterCheck(line, m, acc).flags)];
            && Ranked(es', order', cnt + 1, asid)
            && LinesOf(es', order') == Promote(LinesOf(es, order), k, AfterCheck(line, m, acc))
  {
    order' := MoveToFront(order, k);
    RankedParts(es, order, cnt, asid);
    PromoteSlot(es, order, cnt, asid, k, es[order[k]].(lastUsed := cnt, flags := AfterCheck(line, m, acc).flags));
  }

  lemma NoMatchNoLine(es: seq<TlbEntry>, order: seq<nat>, asid: nat, vpn: nat)
    requires Lists(es, order) && Tagged(es, asid)
    requires forall i :: 0 <= i < |es| ==> !Matches(es[i], vpn, asid)
    ensures !Cached(LinesOf(es, order), vpn)
  {
    forall k | 0 <= k < |order| ensures LinesOf(es, order)[k].vpn != vpn {
      MatchIsVpn(es[order[k]], vpn, asid);
    }
  }

  /** The oldest slot of a full TLB, characterised by its timestamp. */
  lemma OldestIsLast(es: seq<TlbEntry>, order: seq<nat>, i: nat)
    requires Lists(es, order) && Falling(es, order) && i < |es|
    requires forall j :: 0 <= j < |es| ==> es[j].valid && es[i].lastUsed <= es[j].lastUsed
    ensures Victim(es, order, i)
  {
    FullIffAllValid(es, order);
    var k :| 0 <= k < |order| && order[k] == i;
    if k < |order| - 1 { assert Newer(es, order, k, |order| - 1); }
  }

  lemma FreeIsVictim(es: seq<TlbEntry>, order: seq<nat>, i: nat)
    requires Lists(es, order) && i < |es| && !es[i].valid
    ensures Victim(es, order, i)
  {
    FullIffAllValid(es, order);
  }

  lemma EmptyRanked(es: seq<TlbEntry>, cnt: nat, asid: nat)
    requires forall i :: 0 <= i < |es| ==> !es[i].valid && es[i].lastUsed <= cnt
    ensures Ranked(es, [], cnt, asid) && LinesOf(es, []) == []
  {}

  /** The entry `tlb_insert` builds. */
  function NewEntry(vpn: nat, pte: nat, asid: nat, cnt: nat): TlbEntry {
    TlbEntry(TagFor(vpn, PteGlobal(pte), asid), PtePpn(pte), PteFlags(pte), true, PteGlobal(pte), asid % 256, cnt)
  }

  lemma NewEntryOk(vpn: nat, pte: nat, asid: nat, cnt: nat)
    requires vpn < TAG_VPNS && PteFlags(pte).v && (PteFlags(pte).w ==> PteFlags(pte).r)
    ensures EntryOk(NewEntry(vpn, pte, asid, cnt), asid)
    ensures EntryLine(NewEntry(vpn, pte, asid, cnt)) == LineOf(vpn, pte)
  {
    Pow2Of26();
    LowOfPacked(vpn, asid, 26);
    LowOfPacked(vpn, 0, 26);
  }

  lemma NotCachedNoSlot(es: seq<TlbEntry>, order: seq<nat>, vpn: nat)
    requires Lists(es, order) && !Cached(LinesOf(es, order), vpn)
    ensures forall j :: 0 <= j < |es| && es[j].valid ==> EntryVpn(es[j]) != vpn
  {
    forall j | 0 <= j < |es| && es[j].valid ensures EntryVpn(es[j]) != vpn {
      var k :| 0 <= k < |order| && order[k] == j;
      assert LinesOf(es, order)[k].vpn != vpn;
    }
  }
}
