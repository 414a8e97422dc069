/** Little-endian byte strings: the common ground of every memory access in the emulator. */
module Bytes {
  import opened Division

  type Byte = b: int | 0 <= b < 256

  function Pow256(n: nat): (p: nat)
    ensures p > 0
  {
    if n == 0 then 1 else 256 * Pow256(n - 1)
  }

  /** The number a byte string denotes, least significant byte first. */
  function LeValue(bs: seq<Byte>): nat {
    if bs == [] then 0 else bs[0] + 256 * LeValue(bs[1..])
  }

  /** The number in the `n` bytes at `off`. */
  function LeAt(m: seq<Byte>, off: nat, n: nat): nat
    requires off + n <= |m|
    decreases m, n
  {
    if n == 0 then 0 else m[off] + 256 * LeAt(m, off + 1, n - 1)
  }

  lemma {:induction false} LeAtIsValue(m: seq<Byte>, off: nat, n: nat)
    requires off + n <= |m|
    ensures LeAt(m, off, n) == LeValue(m[off..off + n])
    decreases n
  {
    if n > 0 {
      LeAtIsValue(m, off + 1, n - 1);
      assert m[off..off + n][1..] == m[off + 1..off + n];
    }
  }

  /** The low `n` bytes of `v`, least significant byte first. */
  function LeBytes(v: nat, n: nat): (bs: seq<Byte>)
    ensures |bs| == n
  {
    if n == 0 then [] else [v % 256] + LeBytes(v / 256, n - 1)
  }

  /** `m` with the bytes at `off..off + |bs|` replaced by `bs`. */
  function Splice(m: seq<Byte>, off: nat, bs: seq<Byte>): (m': seq<Byte>)
    requires off + |bs| <= |m|
    ensures |m'| == |m|
    ensures forall j :: 0 <= j < |m| ==> m'[j] == if off <= j < off + |bs| then bs[j - off] else m[j]
    decreases |bs|
  {
    if bs == [] then m else Splice(m[off := bs[0]], off + 1, bs[1..])
  }

  predicate Apart(a: nat, m: nat, b: nat, n: nat) {
    a + m <= b || b + n <= a
  }

  lemma {:induction false} LeValueBound(bs: seq<Byte>)
    ensures LeValue(bs) < Pow256(|bs|)
  {
    if bs != [] { LeValueBound(bs[1..]); }
  }

  lemma {:induction false} LeValueAppend(bs: seq<Byte>, b: Byte)
    ensures LeValue(bs + [b]) == LeValue(bs) + b * Pow256(|bs|)
  {
    if bs == [] {
      assert bs + [b] == [b] && [b][1..] == [];
    } else {
      assert (bs + [b])[1..] == bs[1..] + [b];
      LeValueAppend(bs[1..], b);
      var p := Pow256(|bs| - 1);
      assert b * (256 * p) == 256 * (b * p);
    }
  }

  lemma DivMod(v: nat, p: nat)
    requires p > 0
    ensures v % (256 * p) == v % 256 + 256 * ((v / 256) % p)
    ensures (v / 256) / p == v / (256 * p)
  {
    var q := v / 256;
    var k, r := q / p, q % p;
    assert v == 256 * (p * k + r) + v % 256;
    assert v == (256 * p) * k + (256 * r + v % 256) by {
      assert 256 * (p * k) == (256 * p) * k;
    }
    assert 0 <= 256 * r + v % 256 < 256 * p by { assert 256 * r <= 256 * (p - 1); }
    DivisionIsUnique(v, 256 * p, k, 256 * r + v % 256);
  }

  /** Storing a value and reading it back truncates it to the width of the access. */
  lemma {:induction false} LeRoundTrip(v: nat, n: nat)
    ensures LeValue(LeBytes(v, n)) == v % Pow256(n)
  {
    if n > 0 {
      LeRoundTrip(v / 256, n - 1);
      assert LeBytes(v, n)[1..] == LeBytes(v / 256, n - 1);
      DivMod(v, Pow256(n - 1));
    }
  }

  /** Reading a byte string as a number and storing it again changes nothing. */
  lemma {:induction false} LeBytesOfValue(bs: seq<Byte>)
    ensures LeBytes(LeValue(bs), |bs|) == bs
  {
    if bs != [] {
      LeBytesOfValue(bs[1..]);
      assert LeValue(bs) % 256 == bs[0] && LeValue(bs) / 256 == LeValue(bs[1..]);
      assert bs == [bs[0]] + bs[1..];
    }
  }

  lemma {:induction false} LeByteAt(v: nat, n: nat, i: nat)
    requires i < n
    ensures LeBytes(v, n)[i] == v / Pow256(i) % 256
  {
    if i > 0 {
      LeByteAt(v / 256, n - 1, i - 1);
      DivMod(v, Pow256(i - 1));
    }
  }

  lemma SpliceIs(m: seq<Byte>, off: nat, bs: seq<Byte>, m': seq<Byte>)
    requires off + |bs| <= |m| == |m'|
    requires forall j :: 0 <= j < |m| ==> m'[j] == if off <= j < off + |bs| then bs[j - off] else m[j]
    ensures m' == Splice(m, off, bs)
  {}

  lemma SpliceExtends(m: seq<Byte>, off: nat, bs: seq<Byte>, b: Byte)
    requires off + |bs| + 1 <= |m|
    ensures Splice(Splice(m, off, bs), off + |bs|, [b]) == Splice(m, off, bs + [b])
  {}

  lemma SpliceSame(m: seq<Byte>, off: nat, bs: seq<Byte>)
    requires off + |bs| <= |m|
    ensures Splice(m, off, bs)[off..off + |bs|] == bs
  {}

  lemma SpliceApart(m: seq<Byte>, off: nat, bs: seq<Byte>, a: nat, n: nat)
    requires off + |bs| <= |m| && a + n <= |m| && Apart(off, |bs|, a, n)
    ensures Splice(m, off, bs)[a..a + n] == m[a..a + n]
  {}
}
