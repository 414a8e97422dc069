/** Shifts and masks on natural numbers: `n >> k`, `n & (2^w - 1)` and single bits. */
module Bits {
  import opened Division

  function Pow2(k: nat): (p: nat)
    ensures p > 0
  {
    if k == 0 then 1 else 2 * Pow2(k - 1)
  }

  /** n >> k */
  function Shr(n: nat, k: nat): nat {
    if k == 0 then n else Shr(n / 2, k - 1)
  }

  /** The low w bits of n. */
  function Low(n: nat, w: nat): nat {
    if w == 0 then 0 else n % 2 + 2 * Low(n / 2, w - 1)
  }

  predicate Bit(n: nat, k: nat) {
    if k == 0 then n % 2 == 1 else Bit(n / 2, k - 1)
  }

  /** (n >> lo) & (2^w - 1) */
  function Field(n: nat, lo: nat, w: nat): nat { Low(Shr(n, lo), w) }

  lemma {:induction false} LowBound(n: nat, w: nat)
    ensures Low(n, w) < Pow2(w)
  {
    if w > 0 { LowBound(n / 2, w - 1); }
  }

  lemma {:induction false} ShrShr(n: nat, a: nat, b: nat)
    ensures Shr(Shr(n, a), b) == Shr(n, a + b)
  {
    if a > 0 { ShrShr(n / 2, a - 1, b); }
  }

  lemma {:induction false} LowLow(n: nat, w: nat, v: nat)
    requires v <= w
    ensures Low(Low(n, w), v) == Low(n, v)
  {
    if v > 0 {
      assert Low(n, w) / 2 == Low(n / 2, w - 1) && Low(n, w) % 2 == n % 2;
      LowLow(n / 2, w - 1, v - 1);
    }
  }

  lemma {:induction false} ShrLow(n: nat, w: nat, k: nat)
    requires k <= w
    ensures Shr(Low(n, w), k) == Low(Shr(n, k), w - k)
  {
    if k > 0 {
      assert Low(n, w) / 2 == Low(n / 2, w - 1);
      ShrLow(n / 2, w - 1, k - 1);
    }
  }

  /** A field of a field is a field. */
  lemma FieldField(n: nat, lo: nat, w: nat, lo': nat, w': nat)
    requires lo' + w' <= w
    ensures Field(Field(n, lo, w), lo', w') == Field(n, lo + lo', w')
  {
    ShrLow(Shr(n, lo), w, lo');
    ShrShr(n, lo, lo');
    LowLow(Shr(n, lo + lo'), w - lo', w');
  }

  lemma {:induction false} LowStep(n: nat, w: nat)
    ensures Low(n, w + 1) == Low(n, w) + if Bit(n, w) then Pow2(w) else 0
  {
    if w > 0 { LowStep(n / 2, w - 1); }
  }

  lemma {:induction false} BitOfShr(n: nat, k: nat, w: nat)
    ensures Bit(Shr(n, k), w) == Bit(n, k + w)
  {
    if k > 0 { BitOfShr(n / 2, k - 1, w); }
  }

  lemma DivTwice(n: nat, p: nat)
    requires p > 0
    ensures n / 2 / p == n / (2 * p)
    ensures n % (2 * p) == n % 2 + 2 * (n / 2 % p)
  {
    var h := n / 2;
    var k, r := h / p, h % p;
    assert h == p * k + r;
    assert n == (2 * p) * k + (2 * r + n % 2) by { assert 2 * (p * k) == (2 * p) * k; }
    DivisionIsUnique(n, 2 * p, k, 2 * r + n % 2);
  }

  /** Shifts, masks and bits in plain arithmetic. */
  lemma {:induction false} ShrIsDiv(n: nat, k: nat)
    ensures Shr(n, k) == n / Pow2(k)
  {
    if k > 0 {
      ShrIsDiv(n / 2, k - 1);
      DivTwice(n, Pow2(k - 1));
    }
  }

  lemma {:induction false} LowIsMod(n: nat, w: nat)
    ensures Low(n, w) == n % Pow2(w)
  {
    if w > 0 {
      LowIsMod(n / 2, w - 1);
      DivTwice(n, Pow2(w - 1));
    }
  }

  lemma {:induction false} BitIsDigit(n: nat, k: nat)
    ensures Bit(n, k) <==> n / Pow2(k) % 2 == 1
  {
    if k > 0 {
      BitIsDigit(n / 2, k - 1);
      DivTwice(n, Pow2(k - 1));
    }
  }

  lemma FieldIsDivMod(n: nat, lo: nat, w: nat)
    ensures Field(n, lo, w) == n / Pow2(lo) % Pow2(w)
  {
    ShrIsDiv(n, lo);
    LowIsMod(Shr(n, lo), w);
  }

  lemma Pow2Values()
    ensures Pow2(1) == 2 && Pow2(2) == 4 && Pow2(3) == 8 && Pow2(4) == 16 && Pow2(5) == 32
    ensures Pow2(6) == 64 && Pow2(7) == 128 && Pow2(8) == 256 && Pow2(9) == 512 && Pow2(10) == 1024
    ensures Pow2(11) == 2048 && Pow2(12) == 4096 && Pow2(18) == 0x4_0000 && Pow2(21) == 0x20_0000
    ensures Pow2(27) == 0x800_0000 && Pow2(30) == 0x4000_0000 && Pow2(31) == 0x8000_0000
    ensures Pow2(44) == 0x1000_0000_0000 && Pow2(60) == 0x1000_0000_0000_0000
  {
    assert Pow2(6) == 64;
    assert Pow2(12) == 4096;
    assert Pow2(18) == 0x4_0000;
    assert Pow2(24) == 0x100_0000;
    assert Pow2(31) == 0x8000_0000;
    assert Pow2(38) == 0x40_0000_0000;
    assert Pow2(44) == 0x1000_0000_0000;
    assert Pow2(51) == 0x8_0000_0000_0000;
    assert Pow2(58) == 0x400_0000_0000_0000;
  }

  lemma Pow2Of26()
    ensures Pow2(26) == 0x400_0000
  {
    assert Pow2(10) == 1024;
    assert Pow2(18) == 0x4_0000;
  }

  lemma Pow2Of12()
    ensures Pow2(12) == 4096
  {
    assert Pow2(6) == 64;
  }

  /** Two fields packed side by side: the lower one is read back. */
  lemma {:induction false} LowOfPacked(v: nat, a: nat, w: nat)
    requires v < Pow2(w)
    ensures Low(v + a * Pow2(w), w) == v
  {
    if w > 0 {
      var q := a * Pow2(w - 1);
      assert a * Pow2(w) == 2 * q;
      assert (v + 2 * q) / 2 == v / 2 + q && (v + 2 * q) % 2 == v % 2;
      LowOfPacked(v / 2, a, w - 1);
    }
  }

  lemma {:induction false} ShrOfPacked(v: nat, a: nat, w: nat)
    requires v < Pow2(w)
    ensures Shr(v + a * Pow2(w), w) == a
  {
    if w > 0 {
      var q := a * Pow2(w - 1);
      assert a * Pow2(w) == 2 * q;
      assert (v + 2 * q) / 2 == v / 2 + q;
      ShrOfPacked(v / 2, a, w - 1);
    }
  }

  lemma {:induction false} Packed(n: nat, w: nat)
    ensures n == Low(n, w) + Shr(n, w) * Pow2(w)
  {
    if w > 0 {
      Packed(n / 2, w - 1);
      var q := Shr(n / 2, w - 1) * Pow2(w - 1);
      assert Shr(n, w) * Pow2(w) == 2 * q;
    }
  }

  /** w | (1 << k) or w & ~(1 << k) */
  function WithBit(w: nat, k: nat, on: bool): nat {
    if k == 0 then w / 2 * 2 + (if on then 1 else 0) else w % 2 + 2 * WithBit(w / 2, k - 1, on)
  }

  /** Setting or clearing a bit touches no other bit. */
  lemma {:induction false} BitOfWithBit(w: nat, k: nat, on: bool, j: nat)
    ensures Bit(WithBit(w, k, on), j) == if j == k then on else Bit(w, j)
  {
    if k > 0 && j > 0 {
      assert WithBit(w, k, on) / 2 == WithBit(w / 2, k - 1, on);
      BitOfWithBit(w / 2, k - 1, on, j - 1);
    }
  }

  lemma {:induction false} BitOfLow(n: nat, w: nat, k: nat)
    ensures Bit(Low(n, w), k) == (k < w && Bit(n, k))
  {
    if w > 0 {
      assert Low(n, w) / 2 == Low(n / 2, w - 1) && Low(n, w) % 2 == n % 2;
      if k > 0 { BitOfLow(n / 2, w - 1, k - 1); }
    } else if k > 0 {
      BitOfLow(0, 0, k - 1);
    }
  }

  /** Masking to w bits changes nothing exactly when there are no others. */
  lemma {:induction false} LowSame(n: nat, w: nat)
    ensures Low(n, w) == n <==> n < Pow2(w)
  {
    if w > 0 { LowSame(n / 2, w - 1); }
  }

  /** A number is its bits. */
  lemma {:induction false} SameBits(a: nat, b: nat)
    requires forall k: nat :: Bit(a, k) == Bit(b, k)
    ensures a == b
    decreases a + b
  {
    if a + b > 0 {
      assert Bit(a, 0) == Bit(b, 0);
      forall k: nat ensures Bit(a / 2, k) == Bit(b / 2, k) { assert Bit(a, k + 1) == Bit(b, k + 1); }
      SameBits(a / 2, b / 2);
    }
  }

  lemma {:induction false} WithBitTwice(w: nat, k: nat, a: bool, b: bool)
    ensures WithBit(WithBit(w, k, a), k, b) == WithBit(w, k, b)
  {
    if k > 0 {
      assert WithBit(w, k, a) / 2 == WithBit(w / 2, k - 1, a);
      WithBitTwice(w / 2, k - 1, a, b);
    }
  }
}
