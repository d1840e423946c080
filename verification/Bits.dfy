/** Bitwise operations of unsigned words, on the numbers they stand for. */
module Bits {
  function Pow2(k: nat): (r: nat)
    ensures r >= 1
  {
    if k == 0 then 1 else 2 * Pow2(k - 1)
  }

  const WORD: nat := 0x1_0000_0000

  function BitAnd(x: nat, y: nat): (r: nat)
    ensures r <= x && r <= y
  {
    if x == 0 || y == 0 then 0 else (x % 2) * (y % 2) + 2 * BitAnd(x / 2, y / 2)
  }

  function BitOr(x: nat, y: nat): (r: nat)
    decreases x + y
  {
    if x == 0 then y else if y == 0 then x
    else (if x % 2 == 1 || y % 2 == 1 then 1 else 0) + 2 * BitOr(x / 2, y / 2)
  }

  function ShiftRight(x: nat, s: nat): nat {
    if s == 0 then x else ShiftRight(x / 2, s - 1)
  }

  predicate Bit(x: nat, i: nat) {
    if i == 0 then x % 2 == 1 else Bit(x / 2, i - 1)
  }

  lemma Pow2Word()
    ensures Pow2(32) == WORD && Pow2(31) == 0x8000_0000
  {
    assert Pow2(8) == 256;
    assert Pow2(16) == 0x1_0000;
    assert Pow2(24) == 0x100_0000;
  }

  lemma {:induction false} Pow2Monotone(a: nat, b: nat)
    requires a < b
    ensures 2 * Pow2(a) <= Pow2(b)
  {
    if a + 1 < b {
      Pow2Monotone(a, b - 1);
    }
  }

  lemma {:induction false} ZeroBits(i: nat)
    ensures !Bit(0, i)
  {
    if i > 0 {
      ZeroBits(i - 1);
    }
  }

  lemma OrParts(x: nat, y: nat)
    requires x > 0 && y > 0
    ensures BitOr(x, y) % 2 == (if x % 2 == 1 || y % 2 == 1 then 1 else 0)
    ensures BitOr(x, y) / 2 == BitOr(x / 2, y / 2)
  {
    var b := if x % 2 == 1 || y % 2 == 1 then 1 else 0;
    Halve(b, BitOr(x / 2, y / 2), BitOr(x, y));
  }

  lemma Halve(b: nat, h: nat, x: nat)
    requires b < 2 && x == b + 2 * h
    ensures x % 2 == b && x / 2 == h
  {
  }

  lemma {:induction false} OrBits(x: nat, y: nat, i: nat)
    ensures Bit(BitOr(x, y), i) <==> Bit(x, i) || Bit(y, i)
    decreases i
  {
    if x == 0 || y == 0 {
      ZeroBits(i);
    } else {
      hide BitOr;
      OrParts(x, y);
      if i > 0 {
        OrBits(x / 2, y / 2, i - 1);
      }
    }
  }

  lemma {:induction false} ShiftBits(x: nat, s: nat, i: nat)
    ensures Bit(ShiftRight(x, s), i) <==> Bit(x, i + s)
  {
    if s > 0 {
      ShiftBits(x / 2, s - 1, i);
    }
  }

  /** A number below a power of two has no bit from that position on. */
  lemma {:induction false} HighBits(x: nat, n: nat, i: nat)
    requires x < Pow2(n) && n <= i
    ensures !Bit(x, i)
  {
    if i == 0 {
    } else if n == 0 {
      ZeroBits(i);
    } else {
      HighBits(x / 2, n - 1, i - 1);
    }
  }

  /** A number is determined by its bits: all ones below position `n` is 2^n - 1. */
  lemma {:induction false} AllOnes(x: nat, n: nat)
    requires forall i :: 0 <= i ==> (Bit(x, i) <==> i < n)
    ensures x == Pow2(n) - 1
    decreases n, x
  {
    assert Bit(x, 0) <==> 0 < n;
    if x > 0 {
      forall i | 0 <= i
        ensures Bit(x / 2, i) <==> i < n - 1
      {
        assert Bit(x, i + 1) <==> i + 1 < n;
      }
      if n > 0 {
        AllOnes(x / 2, n - 1);
      } else {
        var l := HighestBit(x);
        assert false;
      }
    }
  }

  /** A nonzero number has a highest bit. */
  lemma {:induction false} HighestBit(x: nat) returns (l: nat)
    requires x > 0
    ensures Pow2(l) <= x < 2 * Pow2(l) && Bit(x, l)
  {
    if x == 1 {
      l := 0;
    } else {
      var m := HighestBit(x / 2);
      l := m + 1;
    }
  }

  /** Masking with one less than a power of two is taking the remainder. */
  lemma {:induction false} MaskIsModulus(x: nat, k: nat)
    ensures BitAnd(x, Pow2(k) - 1) == x % Pow2(k)
  {
    if k > 0 {
      MaskIsModulus(x / 2, k - 1);
      MaskStep(x, Pow2(k - 1));
    }
  }

  lemma MaskStep(x: nat, m: nat)
    requires m > 0 && BitAnd(x / 2, m - 1) == x / 2 % m
    ensures BitAnd(x, 2 * m - 1) == x % (2 * m)
  {
    hide BitAnd;
    Halve(1, m - 1, 2 * m - 1);
    BitAndStep(x, 2 * m - 1);
    ModDouble(x, m);
  }

  lemma BitAndStep(x: nat, y: nat)
    requires y % 2 == 1
    ensures BitAnd(x, y) == x % 2 + 2 * BitAnd(x / 2, y / 2)
  {
  }

  lemma ModDouble(x: nat, m: nat)
    requires m > 0
    ensures x % (2 * m) == x % 2 + 2 * (x / 2 % m)
  {
    var q, r := x / 2 / m, x / 2 % m;
    assert x / 2 == q * m + r;
    assert x == 2 * (q * m + r) + x % 2;
    var s := 2 * r + x % 2;
    assert 0 <= s < 2 * m;
    assert x == q * (2 * m) + s;
    DivModUnique(x, 2 * m, q, s);
  }

  lemma DivModUnique(x: nat, m: nat, q: nat, s: nat)
    requires 0 <= s < m && x == q * m + s
    ensures x % m == s
  {
    var d := x / m - q;
    assert d * m == s - x % m by {
      assert x == (x / m) * m + x % m;
    }
    if d != 0 {
      MultipleFar(d, m);
      assert false;
    }
  }

  lemma {:induction false} MultipleFar(d: int, m: int)
    requires d != 0 && m > 0
    ensures d * m >= m || d * m <= -m
    decreases if d < 0 then -d else d
  {
    if d > 1 {
      MultipleFar(d - 1, m);
    } else if d < -1 {
      MultipleFar(d + 1, m);
    }
  }

  // ---------------------------------------------------------------- rounding up

  /** `r` is the least power of two that is at least `v`. */
  ghost predicate LeastPow2(v: nat, r: nat) {
    && v <= r
    && (exists k: nat {:trigger Pow2(k)} :: r == Pow2(k))
    && (forall k: nat {:trigger Pow2(k)} :: v <= Pow2(k) ==> r <= Pow2(k))
  }

  /** Bits `l` down to `l - w + 1` are ones, and none is above. */
  ghost predicate Smeared(x: nat, l: nat, w: nat) {
    forall i {:trigger Bit(x, i)} :: 0 <= i ==> (i > l ==> !Bit(x, i)) && (i <= l < i + w ==> Bit(x, i))
  }

  lemma SmearStep(x: nat, l: nat, w: nat)
    requires Smeared(x, l, w) && w >= 1
    ensures Smeared(BitOr(x, ShiftRight(x, w)), l, 2 * w)
  {
    var y := BitOr(x, ShiftRight(x, w));
    forall i {:trigger Bit(y, i)} | 0 <= i
      ensures (i > l ==> !Bit(y, i)) && (i <= l < i + 2 * w ==> Bit(y, i))
    {
      OrBits(x, ShiftRight(x, w), i);
      ShiftBits(x, w, i);
      assert Bit(x, i + w) || true;
    }
  }

  /** next_pow2: the least power of two that is at least `v`, as a 32-bit word: 0 when that
      power does not fit, and for v == 0. */
  method NextPow2(v: nat) returns (r: nat)
    requires v < WORD
    ensures v == 0 ==> r == 0
    ensures 0 < v <= 0x8000_0000 ==> LeastPow2(v, r) && v <= r < 2 * v
    ensures 0x8000_0000 < v ==> r == 0
  {
    hide Bit, BitOr, ShiftRight, Smeared, Pow2, LeastPow2;
    var x := (v - 1) % WORD;
    ghost var x0 := x;
    ghost var l := 0;
    if x > 0 {
      l := HighestBit(x);
      StartSmear(x, l);
    }
    x := BitOr(x, ShiftRight(x, 1));
    ghost var x1 := x;
    x := BitOr(x, ShiftRight(x, 2));
    ghost var x2 := x;
    x := BitOr(x, ShiftRight(x, 4));
    ghost var x3 := x;
    x := BitOr(x, ShiftRight(x, 8));
    ghost var x4 := x;
    x := BitOr(x, ShiftRight(x, 16));
    if x0 > 0 {
      SmearStep(x0, l, 1);
      SmearStep(x1, l, 2);
      SmearStep(x2, l, 4);
      SmearStep(x3, l, 8);
      SmearStep(x4, l, 16);
      FullSmear(x0, x, l);
      if v > 0 {
        RoundedUp(v, l);
      }
    } else {
      NothingToSmear();
    }
    r := (x + 1) % WORD;
    if 0 < v <= 0x8000_0000 {
      LeastIsNear(v, r);
    }
  }

  lemma LeastIsNear(v: nat, r: nat)
    requires v > 0 && LeastPow2(v, r)
    ensures v <= r < 2 * v
  {
    var k: nat :| r == Pow2(k);
    if k > 0 {
      assert !(v <= Pow2(k - 1));
    }
  }

  lemma StartSmear(x: nat, l: nat)
    requires Pow2(l) <= x < 2 * Pow2(l) && Bit(x, l)
    ensures Smeared(x, l, 1)
  {
    forall i {:trigger Bit(x, i)} | i > l
      ensures !Bit(x, i)
    {
      HighBits(x, l + 1, i);
    }
  }

  lemma FullSmear(x0: nat, x: nat, l: nat)
    requires 0 < x0 < WORD && Pow2(l) <= x0 < 2 * Pow2(l) && Smeared(x, l, 32)
    ensures x0 < 0x8000_0000 ==> x + 1 <= 0x8000_0000
    ensures l < 32 && x0 <= x && x + 1 == Pow2(l + 1) && (x + 1 <= 0x8000_0000 || x + 1 == WORD)
  {
    Pow2Word();
    if l >= 32 {
      if l > 32 { Pow2Monotone(32, l); }
      assert false;
    }
    forall i | 0 <= i
      ensures Bit(x, i) <==> i < l + 1
    {
    }
    AllOnes(x, l + 1);
    if l + 1 < 31 {
      Pow2Monotone(l + 1, 31);
    }
  }

  lemma NothingToSmear()
    ensures BitOr(0, ShiftRight(0, 1)) == 0 && BitOr(0, ShiftRight(0, 2)) == 0 && BitOr(0, ShiftRight(0, 4)) == 0
    ensures BitOr(0, ShiftRight(0, 8)) == 0 && BitOr(0, ShiftRight(0, 16)) == 0
    ensures LeastPow2(1, 1)
  {
    ZeroShift(1);
    ZeroShift(2);
    ZeroShift(4);
    ZeroShift(8);
    ZeroShift(16);
    assert Pow2(0) == 1;
  }

  lemma {:induction false} ZeroShift(s: nat)
    ensures ShiftRight(0, s) == 0
  {
    if s > 0 {
      ZeroShift(s - 1);
    }
  }

  lemma RoundedUp(v: nat, l: nat)
    requires Pow2(l) <= v - 1 < 2 * Pow2(l)
    ensures LeastPow2(v, Pow2(l + 1))
  {
    forall k: nat {:trigger Pow2(k)} | v <= Pow2(k)
      ensures Pow2(l + 1) <= Pow2(k)
    {
      if k < l {
        Pow2Monotone(k, l);
      } else if k > l + 1 {
        Pow2Monotone(l + 1, k);
      }
    }
  }
}
