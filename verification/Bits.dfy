/** Bit strings, most significant bit first, and the `u32` operations the Base32 functions use. */
module Bits {
  import opened Arithmetic
  import opened Words

  type Bits = seq<bool>

  function ToBits(x: nat, n: nat): (b: Bits)
    ensures |b| == n
  {
    if n == 0 then [] else ToBits(x / 2, n - 1) + [x % 2 == 1]
  }

  function FromBits(b: Bits): nat {
    if b == [] then 0 else 2 * FromBits(b[..|b| - 1]) + (if b[|b| - 1] then 1 else 0)
  }

  function Zeros(n: nat): (b: Bits)
    ensures |b| == n && forall i :: 0 <= i < n ==> !b[i]
  {
    seq(n, _ => false)
  }

  function Pow2(n: nat): (p: nat)
    ensures p >= 1
  {
    if n == 0 then 1 else 2 * Pow2(n - 1)
  }

  // --- u32 -----------------------------------------------------------------------------------

  const TOP_BIT: nat := 0x8000_0000

  /** `x << n`: what is shifted past the top bit is lost. */
  function Shl(x: u32, n: nat): u32
    decreases n
  {
    if n == 0 then x else Shl(if x >= TOP_BIT then 2 * (x - TOP_BIT) else 2 * x, n - 1)
  }

  /** `x >> n` */
  function Shr(x: u32, n: nat): u32 {
    if n == 0 then x else Shr(x / 2, n - 1)
  }

  /** `x | y` */
  function Or(x: nat, y: nat): nat {
    if x == 0 && y == 0 then 0 else 2 * Or(x / 2, y / 2) + (if x % 2 == 1 || y % 2 == 1 then 1 else 0)
  }

  // --- What they do to bits --------------------------------------------------------------------

  lemma {:induction false} FromToBits(b: Bits)
    ensures ToBits(FromBits(b), |b|) == b
  {
    if b != [] {
      FromToBits(b[..|b| - 1]);
    }
  }

  lemma {:induction false} ToFromBits(x: nat, n: nat)
    requires x < Pow2(n)
    ensures FromBits(ToBits(x, n)) == x
  {
    if n > 0 {
      ToFromBits(x / 2, n - 1);
      assert ToBits(x, n)[..n - 1] == ToBits(x / 2, n - 1);
    }
  }

  lemma {:induction false} FromBitsBound(b: Bits)
    ensures FromBits(b) < Pow2(|b|)
  {
    if b != [] { FromBitsBound(b[..|b| - 1]); }
  }

  lemma {:induction false} SplitBits(x: u32, m: nat, n: nat)
    ensures ToBits(x, m + n) == ToBits(Shr(x, n), m) + ToBits(x, n)
    decreases n
  {
    if n == 0 {
      assert ToBits(x, 0) == [];
    } else {
      SplitBits(x / 2, m, n - 1);
    }
  }

  lemma HalveLess(x: nat, p: nat)
    requires x >= 2 * p
    ensures (x - 2 * p) / 2 == x / 2 - p && (x - 2 * p) % 2 == x % 2
  {
    DivModUnique(x - 2 * p, 2, x / 2 - p, x % 2);
  }

  lemma {:induction false} DropHighBit(x: nat, m: nat, n: nat)
    requires x >= Pow2(m) && n <= m
    ensures ToBits(x - Pow2(m), n) == ToBits(x, n)
  {
    if n > 0 {
      HalveLess(x, Pow2(m - 1));
      DropHighBit(x / 2, m - 1, n - 1);
    }
  }

  lemma Pow2Of31()
    ensures Pow2(31) == TOP_BIT
  {
    assert Pow2(8) == 256 && Pow2(16) == 0x1_0000 && Pow2(24) == 0x100_0000;
  }

  /** Shifting left appends zeros to whatever bits still fit. */
  lemma {:induction false} ShlBits(x: u32, k: nat, n: nat)
    requires n + k <= 32
    ensures ToBits(Shl(x, k), n + k) == ToBits(x, n) + Zeros(k)
    decreases k
  {
    if k == 0 {
      assert Zeros(0) == [];
    } else {
      var y := if x >= TOP_BIT then 2 * (x - TOP_BIT) else 2 * x;
      ShlBits(y, k - 1, n + 1);
      if x >= TOP_BIT { Pow2Of31(); DropHighBit(x, 31, n); }
      assert ToBits(y, n + 1) == ToBits(x, n) + [false];
      assert [false] + Zeros(k - 1) == Zeros(k);
      assert ToBits(x, n) + [false] + Zeros(k - 1) == ToBits(x, n) + ([false] + Zeros(k - 1));
    }
  }

  lemma {:induction false} OrBits(x: nat, y: nat, n: nat)
    ensures forall i :: 0 <= i < n ==> ToBits(Or(x, y), n)[i] == (ToBits(x, n)[i] || ToBits(y, n)[i])
  {
    if n > 0 { OrBits(x / 2, y / 2, n - 1); }
  }

  lemma {:induction false} OrFits(x: nat, y: nat, n: nat)
    requires x < Pow2(n) && y < Pow2(n)
    ensures Or(x, y) < Pow2(n)
  {
    if n > 0 { OrFits(x / 2, y / 2, n - 1); }
  }

  lemma {:induction false} SmallBits(x: nat, m: nat, n: nat)
    requires x < Pow2(n)
    ensures ToBits(x, m + n) == Zeros(m) + ToBits(x, n)
    decreases n
  {
    if n == 0 {
      ZeroBits(m);
    } else {
      SmallBits(x / 2, m, n - 1);
    }
  }

  lemma {:induction false} ZeroBits(n: nat)
    ensures ToBits(0, n) == Zeros(n)
  {
    if n > 0 { ZeroBits(n - 1); }
  }

  /** Masking to five bits, and truncating to a byte. */
  lemma LowBits(x: nat)
    ensures ToBits(x % 32, 5) == ToBits(x, 5)
    ensures ToBits(x % 256, 8) == ToBits(x, 8)
  {
    LowBitsOf(x, 32, 5);
    LowBitsOf(x, 256, 8);
  }

  lemma {:induction false} LowBitsOf(x: nat, d: nat, n: nat)
    requires d == Pow2(n)
    ensures d > 0 && ToBits(x % d, n) == ToBits(x, n)
  {
    if n > 0 {
      LowBitsOf(x / 2, d / 2, n - 1);
      HalveMod(x, d / 2);
    }
  }

  lemma HalveMod(x: nat, h: nat)
    requires h >= 1
    ensures (x % (2 * h)) / 2 == (x / 2) % h && (x % (2 * h)) % 2 == x % 2
  {
    var q, r, b := (x / 2) / h, (x / 2) % h, x % 2;
    assert q * (2 * h) == 2 * (q * h);
    DivModUnique(x, 2 * h, q, 2 * r + b);
    DivModUnique(2 * r + b, 2, r, b);
  }
}
