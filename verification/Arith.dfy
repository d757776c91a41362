/** Shifts, masks and powers of two over unbounded naturals. All are defined
    by doubling and halving, so every proof about them is linear. */
module Arith {

  type byte = x: nat | x < 256

  function Pow2(n: nat): (p: nat)
    ensures p >= 1
  {
    if n == 0 then 1 else 2 * Pow2(n - 1)
  }

  /** `x << n` without a register width. */
  function Shl(x: nat, n: nat): (r: nat)
    ensures r >= x
  {
    if n == 0 then x else 2 * Shl(x, n - 1)
  }

  /** `x >> n`. */
  function Shr(x: nat, n: nat): (r: nat)
    ensures r <= x
  {
    if n == 0 then x else Shr(x / 2, n - 1)
  }

  /** The low `n` bits of `x`. */
  function Low(x: nat, n: nat): (r: nat)
    ensures r < Pow2(n) && r <= x
  {
    if n == 0 then 0 else x % 2 + 2 * Low(x / 2, n - 1)
  }

  function Min(a: nat, b: nat): nat {
    if a <= b then a else b
  }

  function Max(a: nat, b: nat): nat {
    if a >= b then a else b
  }

  // ----- laws of shifts -----

  lemma {:induction false} ShlAdd(a: nat, b: nat, n: nat)
    ensures Shl(a + b, n) == Shl(a, n) + Shl(b, n)
  {
    if n > 0 { ShlAdd(a, b, n - 1); }
  }

  lemma {:induction false} ShlShl(x: nat, a: nat, b: nat)
    ensures Shl(Shl(x, a), b) == Shl(x, a + b)
  {
    if b > 0 { ShlShl(x, a, b - 1); }
  }

  lemma ShlStep(x: nat, n: nat)
    ensures Shl(x, n + 1) == 2 * Shl(x, n)
  {
  }

  lemma {:induction false} ShlDouble(x: nat, n: nat)
    ensures Shl(2 * x, n) == Shl(x, n + 1)
  {
    if n > 0 { ShlDouble(x, n - 1); }
  }

  lemma {:induction false} ShlOne(n: nat)
    ensures Shl(1, n) == Pow2(n) && Shl(0, n) == 0
  {
    if n > 0 { ShlOne(n - 1); }
  }

  lemma ShlByte(x: nat)
    ensures Shl(x, 8) == 256 * x
  {
    assert Shl(x, 1) == 2 * Shl(x, 0);
    assert Shl(x, 2) == 2 * Shl(x, 1);
    assert Shl(x, 3) == 2 * Shl(x, 2);
    assert Shl(x, 4) == 2 * Shl(x, 3);
    assert Shl(x, 5) == 2 * Shl(x, 4);
    assert Shl(x, 6) == 2 * Shl(x, 5);
    assert Shl(x, 7) == 2 * Shl(x, 6);
  }

  lemma {:induction false} ShlMono(a: nat, b: nat, n: nat)
    requires a <= b
    ensures Shl(a, n) <= Shl(b, n)
    ensures a < b ==> Shl(a, n) + Pow2(n) <= Shl(b, n)
  {
    if n > 0 { ShlMono(a, b, n - 1); }
  }

  lemma ShrZero(x: nat)
    ensures Shr(x, 0) == x
  {
  }

  lemma {:induction false} ShrShr(x: nat, a: nat, b: nat)
    ensures Shr(Shr(x, a), b) == Shr(x, a + b)
  {
    if a > 0 { ShrShr(x / 2, a - 1, b); }
  }

  lemma {:induction false} ShrMono(a: nat, b: nat, n: nat)
    requires a <= b
    ensures Shr(a, n) <= Shr(b, n)
  {
    if n > 0 { ShrMono(a / 2, b / 2, n - 1); }
  }

  /** A number is its high part shifted back plus its low part. */
  lemma {:induction false} SplitAt(x: nat, n: nat)
    ensures x == Low(x, n) + Shl(Shr(x, n), n)
  {
    if n > 0 {
      SplitAt(x / 2, n - 1);
    }
  }

  /** And these parts are the only ones. */
  lemma {:induction false} SplitUnique(r: nat, q: nat, n: nat)
    requires r < Pow2(n)
    ensures Low(r + Shl(q, n), n) == r && Shr(r + Shl(q, n), n) == q
  {
    if n > 0 {
      var x := r + Shl(q, n);
      assert x / 2 == r / 2 + Shl(q, n - 1) && x % 2 == r % 2;
      SplitUnique(r / 2, q, n - 1);
    }
  }

  lemma {:induction false} LowLow(x: nat, a: nat, b: nat)
    requires a <= b
    ensures Low(Low(x, b), a) == Low(x, a)
  {
    if a > 0 {
      assert Low(x, b) / 2 == Low(x / 2, b - 1);
      LowLow(x / 2, a - 1, b - 1);
    }
  }

  lemma {:induction false} ShrLow(x: nat, a: nat, b: nat)
    ensures Shr(Low(x, a + b), a) == Low(Shr(x, a), b)
  {
    if a > 0 {
      assert Low(x, a + b) / 2 == Low(x / 2, a - 1 + b);
      ShrLow(x / 2, a - 1, b);
    }
  }

  lemma {:induction false} LowOfSmall(x: nat, n: nat)
    requires x < Pow2(n)
    ensures Low(x, n) == x && Shr(x, n) == 0
  {
    ShlOne(n);
    SplitUnique(x, 0, n);
  }

  /** Bits above the cut do not matter. */
  lemma LowAdd(x: nat, q: nat, a: nat, b: nat)
    requires a <= b
    ensures Low(x + Shl(q, b), a) == Low(x, a)
  {
    hide Low, Shr, Shl, Pow2;
    SplitAt(x, a);
    ShlShl(q, b - a, a);
    ShlAdd(Shr(x, a), Shl(q, b - a), a);
    SplitUnique(Low(x, a), Shr(x, a) + Shl(q, b - a), a);
    SplitUnique(Low(x, a), Shr(x, a), a);
  }

  lemma {:induction false} ShrOfShl(x: nat, a: nat, b: nat)
    requires b <= a
    ensures Shr(Shl(x, a), b) == Shl(x, a - b)
  {
    ShlShl(x, a - b, b);
    SplitUnique(0, Shl(x, a - b), b);
  }

  // ----- powers of two -----

  lemma {:induction false} Pow2Add(a: nat, b: nat)
    ensures Shl(Pow2(a), b) == Pow2(a + b)
  {
    ShlOne(a);
    ShlShl(1, a, b);
    ShlOne(a + b);
  }

  lemma Pow2Step(n: nat)
    ensures Pow2(n + 1) == 2 * Pow2(n)
  {
  }

  lemma {:induction false} Pow2Mono(a: nat, b: nat)
    requires a <= b
    ensures Pow2(a) <= Pow2(b)
    ensures a < b ==> 2 * Pow2(a) <= Pow2(b)
  {
    if a < b {
      Pow2Mono(a, b - 1);
    }
  }

  lemma ShlBelow(x: nat, a: nat, b: nat)
    requires x < Pow2(a)
    ensures Shl(x, b) + Pow2(b) <= Pow2(a + b)
  {
    ShlMono(x, Pow2(a), b);
    Pow2Add(a, b);
  }

  lemma ShrBelow(x: nat, a: nat, b: nat)
    requires x < Pow2(a + b)
    ensures Shr(x, b) < Pow2(a)
  {
    SplitAt(x, b);
    Pow2Add(a, b);
    if Shr(x, b) >= Pow2(a) {
      ShlMono(Pow2(a), Shr(x, b), b);
    }
  }

  lemma ShrAtLeast(x: nat, a: nat, b: nat)
    requires x >= Pow2(a + b)
    ensures Shr(x, b) >= Pow2(a)
  {
    ShrMono(Pow2(a + b), x, b);
    Pow2Add(a, b);
    SplitUnique(0, Pow2(a), b);
  }

  lemma Pow2Values()
    ensures Pow2(0) == 1 && Pow2(1) == 2 && Pow2(2) == 4 && Pow2(3) == 8
    ensures Pow2(4) == 16 && Pow2(5) == 32 && Pow2(6) == 64 && Pow2(7) == 128
    ensures Pow2(8) == 256 && Pow2(9) == 512 && Pow2(10) == 1024 && Pow2(11) == 2048
  {
  }

  lemma Pow2Large()
    ensures Pow2(12) == 4096 && Pow2(13) == 8192 && Pow2(14) == 16384 && Pow2(15) == 32768 && Pow2(16) == 65536
    ensures Pow2(29) == 0x2000_0000 && Pow2(32) == 0x1_0000_0000
  {
    Pow2Values();
    assert Pow2(12) == 4096;
    assert Pow2(13) == 8192;
    assert Pow2(14) == 16384;
    assert Pow2(15) == 32768;
    assert Pow2(16) == 65536;
    assert Pow2(17) == 131072;
    assert Pow2(18) == 262144;
    assert Pow2(19) == 524288;
    assert Pow2(20) == 1048576;
    assert Pow2(21) == 2097152;
    assert Pow2(22) == 4194304;
    assert Pow2(23) == 8388608;
    assert Pow2(24) == 16777216;
    assert Pow2(25) == 33554432;
    assert Pow2(26) == 67108864;
    assert Pow2(27) == 134217728;
    assert Pow2(28) == 268435456;
    assert Pow2(29) == 536870912;
    assert Pow2(30) == 1073741824;
    assert Pow2(31) == 2147483648;
    assert Pow2(32) == 4294967296;
  }

  // ----- floor of the base-2 logarithm -----

  /** `31 - x.leading_zeros()`: the position of the top set bit. */
  function HighBit(x: nat): (h: nat)
    requires x > 0
    ensures Pow2(h) <= x < Pow2(h + 1)
  {
    if x == 1 then
      assert Pow2(1) == 2;
      0
    else
      HighBit(x / 2) + 1
  }

  lemma HighBitBelow(x: nat, n: nat)
    requires x > 0
    ensures HighBit(x) < n <==> x < Pow2(n)
  {
    if HighBit(x) < n {
      Pow2Mono(HighBit(x) + 1, n);
    } else {
      Pow2Mono(n, HighBit(x));
    }
  }

  lemma HighBitUnique(x: nat, h: nat)
    requires Pow2(h) <= x < Pow2(h + 1)
    ensures x > 0 && HighBit(x) == h
  {
    var k := HighBit(x);
    if k < h {
      Pow2Mono(k + 1, h);
    } else if h < k {
      Pow2Mono(h + 1, k);
    }
  }

  // ----- bitwise operations -----

  function BitOr(a: nat, b: nat): nat
    decreases a + b
  {
    if a == 0 && b == 0 then 0
    else 2 * BitOr(a / 2, b / 2) + (if a % 2 == 1 || b % 2 == 1 then 1 else 0)
  }

  function BitAnd(a: nat, b: nat): nat
    decreases a + b
  {
    if a == 0 || b == 0 then 0
    else 2 * BitAnd(a / 2, b / 2) + (if a % 2 == 1 && b % 2 == 1 then 1 else 0)
  }

  /** `x << n` in a 64-bit register: bits shifted past the top are lost. */
  function Shl64(x: nat, n: nat): nat {
    Low(Shl(x, n), 64)
  }

  lemma {:induction false} OrZero(b: nat)
    ensures BitOr(0, b) == b
    decreases b
  {
    if b != 0 {
      OrZero(b / 2);
    }
  }

  /** OR of values without common bits is their sum. */
  lemma {:induction false} OrDisjoint(a: nat, b: nat, n: nat)
    requires a < Pow2(n)
    ensures BitOr(a, Shl(b, n)) == a + Shl(b, n)
    decreases n
  {
    if n == 0 {
      OrZero(b);
    } else {
      assert Shl(b, n) / 2 == Shl(b, n - 1);
      OrDisjoint(a / 2, b, n - 1);
    }
  }

  /** A mask of `n` ones keeps the low `n` bits. */
  lemma {:induction false} AndMask(x: nat, n: nat)
    ensures BitAnd(x, Pow2(n) - 1) == Low(x, n)
    decreases n
  {
    if n > 0 {
      var m: nat := Pow2(n) - 1;
      assert m / 2 == Pow2(n - 1) - 1 && m % 2 == 1;
      AndMask(x / 2, n - 1);
      if x == 0 { LowOfSmall(0, n); }
    }
  }
}
