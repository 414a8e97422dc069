/** What the instructions compute, bit by bit and in plain machine arithmetic. */
module InstrBits {
  import opened Isa

  function Twice(x: bv64): bv64 { x << 1 }

  function Halved(x: bv64): bv64 { x >> 1 }

  function Cut(x: bv64, b: bv64): bv64 { x & b }

  /** 2 to the k, or 0 from 64 on. */
  function Place(k: nat): bv64 {
    if k == 0 then 1 else Twice(Place(k - 1))
  }

  /** Bit k of a register. */
  predicate On(x: bv64, k: nat) { Cut(x, Place(k)) != 0 }

  /** The number in the low six bits of a field. */
  function Amount(n: bv32): nat { Ix(n) + if n & 32 != 0 then 32 else 0 }

  // ---- Shifts and logic, bit by bit -----------------------------------------------------------

  /** Bit k of y is bit k - n of x, and 0 below n. */
  ghost predicate MovedUp(x: bv64, y: bv64, n: nat) {
    forall k: nat :: k < 64 ==> (On(y, k) <==> k >= n && On(x, k - n))
  }

  /** Bit k of y is bit k + n of x, and 0 above. */
  ghost predicate MovedDown(x: bv64, y: bv64, n: nat) {
    forall k: nat :: k < 64 ==> (On(y, k) <==> k + n < 64 && On(x, k + n))
  }

  /** Bit k of y is bit k + n of x, and its sign above. */
  ghost predicate SignedDown(x: bv64, y: bv64, n: nat) {
    forall k: nat :: k < 64 ==> (On(y, k) <==> On(x, if k + n < 64 then k + n else 63))
  }

  ghost predicate Both(x: bv64, y: bv64, z: bv64) {
    forall k: nat :: k < 64 ==> (On(z, k) <==> On(x, k) && On(y, k))
  }

  ghost predicate Either(x: bv64, y: bv64, z: bv64) {
    forall k: nat :: k < 64 ==> (On(z, k) <==> On(x, k) || On(y, k))
  }

  ghost predicate OneOf(x: bv64, y: bv64, z: bv64) {
    forall k: nat :: k < 64 ==> (On(z, k) <==> On(x, k) != On(y, k))
  }

  // ---- Places -----------------------------------------------------------------------------------

  lemma OneBitStays(b: bv64)
    requires b & (b - 1) == 0
    ensures (b << 1) & ((b << 1) - 1) == 0
    ensures b & 0x8000_0000_0000_0000 != 0 ==> b << 1 == 0
  {}

  lemma {:induction false} OneBit(k: nat)
    ensures Place(k) & (Place(k) - 1) == 0
  {
    if k > 0 {
      OneBit(k - 1);
      OneBitStays(Place(k - 1));
    }
  }

  lemma {:induction false} ZeroStays(k: nat, j: nat)
    requires Place(k) == 0 && k <= j
    ensures Place(j) == 0
    decreases j
  {
    if k < j { ZeroStays(k, j - 1); }
  }

  lemma Places()
    ensures Place(0) == 1 && Place(1) == 2 && Place(2) == 4 && Place(3) == 8 && Place(4) == 0x10 && Place(5) == 0x20
    ensures Place(63) == 0x8000_0000_0000_0000 && Place(64) == 0
  {
    assert Place(8) == 0x100;
    assert Place(16) == 0x1_0000;
    assert Place(24) == 0x100_0000;
    assert Place(32) == 0x1_0000_0000;
    assert Place(40) == 0x100_0000_0000;
    assert Place(48) == 0x1_0000_0000_0000;
    assert Place(56) == 0x100_0000_0000_0000;
    assert Place(64) == 0;
  }

  lemma BelowTop(k: nat)
    requires k < 63
    ensures Place(k) & 0x8000_0000_0000_0000 == 0
  {
    if Place(k) & 0x8000_0000_0000_0000 != 0 {
      OneBit(k);
      OneBitStays(Place(k));
      ZeroStays(k + 1, 63);
      Places();
      assert false;
    }
  }

  // ---- One place up or down -----------------------------------------------------------------------

  lemma UpMask(x: bv64, b: bv64)
    requires b & 0x8000_0000_0000_0000 == 0
    ensures Cut(Twice(x), Twice(b)) == 0 <==> Cut(x, b) == 0
  {}

  lemma DownMask(x: bv64, b: bv64)
    ensures Cut(Halved(x), b) == 0 <==> Cut(x, Twice(b)) == 0
  {}

  lemma UpLowest(x: bv64)
    ensures Cut(Twice(x), 1) == 0
  {}

  lemma Nowhere(x: bv64)
    ensures Cut(x, 0) == 0
  {}

  lemma UpBit(x: bv64, k: nat)
    requires k < 64
    ensures On(Twice(x), k) == (k >= 1 && On(x, k - 1))
  {
    if k == 0 {
      UpLowest(x);
    } else {
      BelowTop(k - 1);
      UpMask(x, Place(k - 1));
    }
  }

  lemma DownBit(x: bv64, k: nat)
    requires k < 64
    ensures On(Halved(x), k) == (k + 1 < 64 && On(x, k + 1))
  {
    DownMask(x, Place(k));
    if k == 63 {
      Places();
      Nowhere(x);
    }
  }

  lemma UpOnce(x: bv64, y: bv64)
    requires y == Twice(x)
    ensures MovedUp(x, y, 1)
  {
    forall k: nat | k < 64 ensures On(y, k) <==> k >= 1 && On(x, k - 1) { UpBit(x, k); }
  }

  lemma DownOnce(x: bv64, y: bv64)
    requires y == Halved(x)
    ensures MovedDown(x, y, 1)
  {
    forall k: nat | k < 64 ensures On(y, k) <==> k + 1 < 64 && On(x, k + 1) { DownBit(x, k); }
  }

  lemma MovedTwice(x: bv64, y: bv64, z: bv64, a: nat, b: nat)
    ensures MovedUp(x, y, a) && MovedUp(y, z, b) ==> MovedUp(x, z, a + b)
    ensures MovedDown(x, y, a) && MovedDown(y, z, b) ==> MovedDown(x, z, a + b)
  {}

  // ---- Shifts -------------------------------------------------------------------------------------

  lemma AmountStep(n: bv32)
    requires n < 64
    ensures n == 0 <==> Amount(n) == 0
    ensures n > 0 ==> Amount(n - 1) == Amount(n) - 1
    ensures n >= 8 ==> Amount(n - 8) == Amount(n) - 8
  {}

  lemma UpStep(x: bv64, n: bv32)
    requires 0 < n < 8
    ensures Shl(x, n) == Shl(Twice(x), n - 1)
  {}

  lemma UpLeap(x: bv64, n: bv32)
    requires 8 <= n < 64
    ensures Shl(x, n) == Shl(x << 8, n - 8)
  {}

  lemma DownStep(x: bv64, n: bv32)
    requires 0 < n < 8
    ensures Shr(x, n) == Shr(Halved(x), n - 1)
  {}

  lemma DownLeap(x: bv64, n: bv32)
    requires 8 <= n < 64
    ensures Shr(x, n) == Shr(x >> 8, n - 8)
  {}

  lemma UpFour(x: bv64) returns (y: bv64)
    ensures y == Twice(Twice(Twice(Twice(x)))) && MovedUp(x, y, 4)
  {
    var a, b, c := Twice(x), Twice(Twice(x)), Twice(Twice(Twice(x)));
    y := Twice(c);
    UpOnce(x, a);
    UpOnce(a, b);
    UpOnce(b, c);
    UpOnce(c, y);
    MovedTwice(x, a, b, 1, 1);
    MovedTwice(x, b, c, 2, 1);
    MovedTwice(x, c, y, 3, 1);
  }

  lemma UpEight(x: bv64) returns (y: bv64)
    ensures y == x << 8 && MovedUp(x, y, 8)
  {
    var z := UpFour(x);
    y := UpFour(z);
    MovedTwice(x, z, y, 4, 4);
  }

  lemma DownFour(x: bv64) returns (y: bv64)
    ensures y == Halved(Halved(Halved(Halved(x)))) && MovedDown(x, y, 4)
  {
    var a, b, c := Halved(x), Halved(Halved(x)), Halved(Halved(Halved(x)));
    y := Halved(c);
    DownOnce(x, a);
    DownOnce(a, b);
    DownOnce(b, c);
    DownOnce(c, y);
    MovedTwice(x, a, b, 1, 1);
    MovedTwice(x, b, c, 2, 1);
    MovedTwice(x, c, y, 3, 1);
  }

  lemma DownEight(x: bv64) returns (y: bv64)
    ensures y == x >> 8 && MovedDown(x, y, 8)
  {
    var z := DownFour(x);
    y := DownFour(z);
    MovedTwice(x, z, y, 4, 4);
  }

  lemma NoShift(x: bv64)
    ensures Shl(x, 0) == x && Shr(x, 0) == x
  {}

  lemma {:induction false} UpBits(x: bv64, n: bv32)
    requires n < 64
    ensures MovedUp(x, Shl(x, n), Amount(n))
    decreases n
  {
    AmountStep(n);
    if n == 0 {
      NoShift(x);
    } else if n >= 8 {
      var y := UpEight(x);
      UpBits(y, n - 8);
      UpLeap(x, n);
      MovedTwice(x, y, Shl(x, n), 8, Amount(n - 8));
    } else {
      UpBits(Twice(x), n - 1);
      UpStep(x, n);
      UpOnce(x, Twice(x));
      MovedTwice(x, Twice(x), Shl(x, n), 1, Amount(n - 1));
    }
  }

  lemma {:induction false} DownBits(x: bv64, n: bv32)
    requires n < 64
    ensures MovedDown(x, Shr(x, n), Amount(n))
    decreases n
  {
    AmountStep(n);
    if n == 0 {
      NoShift(x);
    } else if n >= 8 {
      var y := DownEight(x);
      DownBits(y, n - 8);
      DownLeap(x, n);
      MovedTwice(x, y, Shr(x, n), 8, Amount(n - 8));
    } else {
      DownBits(Halved(x), n - 1);
      DownStep(x, n);
      DownOnce(x, Halved(x));
      MovedTwice(x, Halved(x), Shr(x, n), 1, Amount(n - 1));
    }
  }

  // ---- Arithmetic shifts and logic ----------------------------------------------------------------

  lemma AllOrNone(x: bv64, b: bv64)
    requires b & (b - 1) == 0
    ensures Cut(x, b) == 0 || Cut(x, b) == b
  {}

  lemma NotCut(x: bv64, b: bv64)
    ensures Cut(x, b) == 0 ==> Cut(Not(x), b) == b
    ensures Cut(x, b) == b ==> Cut(Not(x), b) == 0
  {}

  lemma AndIsOr(x: bv64, y: bv64)
    ensures BitAnd(x, y) == Not(BitOr(Not(x), Not(y)))
  {}

  lemma OrClear(x: bv64, y: bv64, b: bv64)
    ensures Cut(x, b) == 0 && Cut(y, b) == 0 ==> Cut(BitOr(x, y), b) == 0
  {}

  lemma OrLeft(x: bv64, y: bv64, b: bv64)
    ensures Cut(x, b) == b ==> Cut(BitOr(x, y), b) == b
  {}

  lemma OrRight(x: bv64, y: bv64, b: bv64)
    ensures Cut(y, b) == b ==> Cut(BitOr(x, y), b) == b
  {}

  lemma XorClear(x: bv64, y: bv64, b: bv64)
    ensures Cut(x, b) == Cut(y, b) ==> Cut(BitXor(x, y), b) == 0
  {}

  lemma XorLeft(x: bv64, y: bv64, b: bv64)
    ensures Cut(x, b) == b && Cut(y, b) == 0 ==> Cut(BitXor(x, y), b) == b
  {}

  lemma XorRight(x: bv64, y: bv64, b: bv64)
    ensures Cut(x, b) == 0 && Cut(y, b) == b ==> Cut(BitXor(x, y), b) == b
  {}

  lemma {:induction false} NotZero(k: nat)
    requires k < 64
    ensures Place(k) != 0
  {
    Places();
    if Place(k) == 0 { ZeroStays(k, 63); }
  }

  /** The value of a register at one place. */
  lemma AtPlace(x: bv64, k: nat) returns (b: bv64)
    requires k < 64
    ensures b == Place(k) && b != 0 && Cut(x, b) == if On(x, k) then b else 0
  {
    b := Place(k);
    NotZero(k);
    OneBit(k);
    AllOrNone(x, b);
  }

  lemma NotBit(x: bv64, k: nat)
    requires k < 64
    ensures On(Not(x), k) == !On(x, k)
  {
    var b := AtPlace(x, k);
    NotCut(x, b);
  }

  lemma OrBit(x: bv64, y: bv64, k: nat)
    requires k < 64
    ensures On(BitOr(x, y), k) == (On(x, k) || On(y, k))
  {
    var b := AtPlace(x, k);
    var c := AtPlace(y, k);
    if On(x, k) {
      OrLeft(x, y, b);
    } else if On(y, k) {
      OrRight(x, y, b);
    } else {
      OrClear(x, y, b);
    }
  }

  lemma AndBit(x: bv64, y: bv64, k: nat)
    requires k < 64
    ensures On(BitAnd(x, y), k) == (On(x, k) && On(y, k))
  {
    AndIsOr(x, y);
    NotBit(x, k);
    NotBit(y, k);
    OrBit(Not(x), Not(y), k);
    NotBit(BitOr(Not(x), Not(y)), k);
  }

  lemma XorBit(x: bv64, y: bv64, k: nat)
    requires k < 64
    ensures On(BitXor(x, y), k) == (On(x, k) != On(y, k))
  {
    var b := AtPlace(x, k);
    var c := AtPlace(y, k);
    if On(x, k) == On(y, k) {
      XorClear(x, y, b);
    } else if On(x, k) {
      XorLeft(x, y, b);
    } else {
      XorRight(x, y, b);
    }
  }

  lemma LogicBits(x: bv64, y: bv64)
    ensures Both(x, y, BitAnd(x, y)) && Either(x, y, BitOr(x, y)) && OneOf(x, y, BitXor(x, y))
  {
    forall k: nat | k < 64
      ensures On(BitAnd(x, y), k) == (On(x, k) && On(y, k))
      ensures On(BitOr(x, y), k) == (On(x, k) || On(y, k))
      ensures On(BitXor(x, y), k) == (On(x, k) != On(y, k))
    {
      AndBit(x, y, k);
      OrBit(x, y, k);
      XorBit(x, y, k);
    }
  }

  lemma SignBit(x: bv64)
    ensures On(x, 63) <==> x & 0x8000_0000_0000_0000 != 0
  {
    Places();
  }

  lemma SignedBits(x: bv64, n: bv32)
    requires n < 64
    ensures SignedDown(x, Asr(x, n), Amount(n))
  {
    AsrIs(x, n);
    SignBit(x);
    var m := Amount(n);
    if On(x, 63) {
      DownBits(Not(x), n);
      var z := Shr(Not(x), n);
      forall k: nat | k < 64 ensures On(Asr(x, n), k) <==> On(x, if k + m < 64 then k + m else 63) {
        NotBit(z, k);
        if k + m < 64 { NotBit(x, k + m); }
      }
    } else {
      DownBits(x, n);
    }
  }

  /** An arithmetic shift of a negative number is a logical one of the complement. */
  lemma AsrIs(x: bv64, n: bv32)
    ensures x & 0x8000_0000_0000_0000 != 0 ==> Asr(x, n) == Not(Shr(Not(x), n))
    ensures x & 0x8000_0000_0000_0000 == 0 ==> Asr(x, n) == Shr(x, n)
  {}
}
