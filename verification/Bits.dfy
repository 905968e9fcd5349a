/** The fixed-width integers of the program, as ranges of the mathematical ones, and the bitwise
    operators on them, defined bit by bit. Wrap-around is always written out. */
module Bits {

  type Byte = x: int | 0 <= x < 0x100
  type UInt32 = x: int | 0 <= x < 0x1_0000_0000
  type UInt64 = x: int | 0 <= x < TWO_TO_THE_64
  type Int32 = x: int | -0x8000_0000 <= x < 0x8000_0000

  /** The widths of the integral types. */
  type Width = w: int | w == 8 || w == 16 || w == 32 || w == 64 witness 64

  /** The width at which a shift is done: narrow types are promoted to `int` first. */
  function Promoted(w: Width): Width {
    if w < 32 then 32 else w
  }

  /** A `char` of the program holds one byte, and its strings are sequences of them. */
  type Char = c: char | c < '\U{0100}' witness 'a'
  type Text = seq<Char>

  const TWO_TO_THE_64: int := 0x1_0000_0000_0000_0000
  const MAX_UINT64: UInt64 := 0xFFFF_FFFF_FFFF_FFFF

  function Pow2(n: nat): (p: nat)
    ensures 0 < p
  {
    if n == 0 then 1 else 2 * Pow2(n - 1)
  }

  lemma Pow2Is64()
    ensures Pow2(64) == TWO_TO_THE_64
  {
    assert Pow2(4) == 16;
    Pow2Sum(4, 4);
    assert Pow2(8) == 0x100;
    Pow2Sum(8, 8);
    assert Pow2(16) == 0x1_0000;
    Pow2Sum(16, 16);
    assert Pow2(32) == 0x1_0000_0000;
    Pow2Sum(32, 32);
  }

  lemma Pow2Values()
    ensures Pow2(0) == 1 && Pow2(7) == 0x80 && Pow2(8) == 0x100
  {
  }

  lemma {:induction false} Pow2Sum(m: nat, n: nat)
    ensures Pow2(m + n) == Pow2(m) * Pow2(n)
  {
    if m > 0 {
      Pow2Sum(m - 1, n);
      assert Pow2(m + n) == 2 * (Pow2(m - 1) * Pow2(n));
    }
  }

  lemma Pow2Grows(m: nat, n: nat)
    requires m <= n
    ensures Pow2(m) <= Pow2(n)
  {
    Pow2Sum(m, n - m);
    MulGrows(Pow2(m), Pow2(n - m));
  }

  lemma MulGrows(x: nat, y: nat)
    requires 0 < y
    ensures x <= x * y
  {
  }

  /** x << n where no bit is lost, and x >> n. */
  function Shl(x: nat, n: nat): nat {
    x * Pow2(n)
  }

  function Shr(x: nat, n: nat): nat {
    DivMod(x, Pow2(n));
    x / Pow2(n)
  }

  lemma ShlSum(x: nat, y: nat, n: nat)
    ensures Shl(x + y, n) == Shl(x, n) + Shl(y, n)
  {
  }

  lemma ShlPow2(m: nat, n: nat)
    ensures Shl(Pow2(m), n) == Pow2(n + m)
  {
    Pow2Sum(m, n);
  }

  lemma ShlMore(x: nat, m: nat, n: nat)
    ensures Shl(x, m + n) == Pow2(m) * Shl(x, n)
  {
    hide Pow2;
    Pow2Sum(m, n);
    MulSwap(x, Pow2(m), Pow2(n));
  }

  lemma MulSwap(x: nat, p: nat, q: nat)
    ensures x * (p * q) == p * (x * q)
  {
  }

  /** What a word of w bits keeps of x. */
  function Wrap(x: nat, w: nat): nat {
    DivMod(x, Pow2(w));
    x % Pow2(w)
  }

  lemma WrapSmall(x: nat, w: nat)
    requires x < Pow2(w)
    ensures Wrap(x, w) == x
  {
    DivModUnique(x, 0, Pow2(w), x);
  }

  lemma WrapBound(x: nat, w: nat)
    ensures Wrap(x, w) < Pow2(w) && Wrap(x, w) <= x
  {
    DivMod(x, Pow2(w));
    MulGrows(x / Pow2(w), Pow2(w));
  }

  /** The low digit of width m, and the rest. */
  lemma WrapStep(x: nat, m: nat, n: nat)
    ensures Wrap(x, m + n) == Wrap(x, m) + Pow2(m) * Wrap(Shr(x, m), n)
  {
    hide Pow2;
    Pow2Sum(m, n);
    ModStep(x, Pow2(m), Pow2(n));
  }

  lemma Regroup(x: nat, h: nat, q: nat, y: nat, p: nat)
    requires x == h * q + y
    ensures x * p == h * (q * p) + y * p
  {
    assert (h * q) * p == h * (q * p);
  }

  lemma ModStep(v: nat, b: nat, p: nat)
    requires 0 < b && 0 < p
    ensures 0 < b * p && v % b + b * ((v / b) % p) == v % (b * p)
  {
    var q, r := v / b / p, (v / b) % p;
    DivMod(v, b);
    DivMod(v / b, p);
    SumBelow(v % b, r, b, p);
    Regroup(v / b, q, p, r, b);
    assert b * p == p * b;
    DivModUnique(v, q, b * p, r * b + v % b);
  }

  lemma MulMonotone(x: nat, y: nat, d: nat)
    requires x <= y
    ensures x * d <= y * d
  {
    assert y * d == x * d + (y - x) * d;
  }

  // ------------------------------------------------------------------------ bitwise operators

  function Or(a: nat, b: nat): nat
    decreases a + b
  {
    if a == 0 && b == 0 then 0
    else (if a % 2 == 1 || b % 2 == 1 then 1 else 0) + 2 * Or(a / 2, b / 2)
  }

  function And(a: nat, b: nat): nat
    decreases a + b
  {
    if a == 0 && b == 0 then 0
    else (if a % 2 == 1 && b % 2 == 1 then 1 else 0) + 2 * And(a / 2, b / 2)
  }

  function Xor(a: nat, b: nat): nat
    decreases a + b
  {
    if a == 0 && b == 0 then 0
    else (if a % 2 != b % 2 then 1 else 0) + 2 * Xor(a / 2, b / 2)
  }

  lemma {:induction false} OrZero(b: nat)
    ensures Or(0, b) == b
  {
    if b > 0 {
      OrZero(b / 2);
    }
  }

  /** Where the operands have no bit in common, | is +. */
  lemma {:induction false} OrDisjoint(a: nat, b: nat, k: nat)
    requires a < Pow2(k)
    ensures Or(a, b * Pow2(k)) == a + b * Pow2(k)
  {
    if k == 0 {
      OrZero(b);
    } else {
      var h := b * Pow2(k - 1);
      assert b * Pow2(k) == 2 * h;
      OrDisjoint(a / 2, b, k - 1);
    }
  }

  lemma {:induction false} AndZero(a: nat)
    ensures And(a, 0) == 0
  {
    if a > 0 {
      AndZero(a / 2);
    }
  }

  /** Masking with n ones keeps the n low bits. */
  lemma {:induction false} AndMask(x: nat, n: nat)
    ensures And(x, Pow2(n) - 1) == Wrap(x, n)
  {
    hide Pow2, Wrap;
    if n == 0 {
      Pow2Values();
      AndZero(x);
      WrapNone(x);
    } else {
      AndMask(x / 2, n - 1);
      MaskHalves(n);
      WrapHalf(x, n);
    }
  }

  lemma WrapNone(x: nat)
    ensures Wrap(x, 0) == 0
  {
  }

  lemma MaskHalves(n: nat)
    requires 0 < n
    ensures (Pow2(n) - 1) / 2 == Pow2(n - 1) - 1 && (Pow2(n) - 1) % 2 == 1
  {
  }

  lemma WrapHalf(x: nat, n: nat)
    requires 0 < n
    ensures Wrap(x, n) == x % 2 + 2 * Wrap(x / 2, n - 1)
  {
    assert Pow2(1) == 2;
    WrapStep(x, 1, n - 1);
  }

  /** Masking with a single bit tests it. */
  lemma {:induction false} AndBit(x: nat, k: nat)
    ensures And(x, Pow2(k)) != 0 <==> Shr(x, k) % 2 == 1
  {
    if k == 0 {
      AndZero(x / 2);
      assert Pow2(0) / 2 == 0;
      assert x / 1 == x;
    } else {
      AndBit(x / 2, k - 1);
      assert Pow2(k) % 2 == 0 && Pow2(k) / 2 == Pow2(k - 1);
      ShrHalf(x, k - 1);
    }
  }

  lemma ShrHalf(x: nat, k: nat)
    ensures Shr(x / 2, k) == Shr(x, k + 1)
  {
    DivDiv(x, 2, Pow2(k));
  }

  lemma {:induction false} XorCancels(a: nat, b: nat)
    ensures Xor(Xor(a, b), b) == a
    decreases a + b
  {
    if a > 0 || b > 0 {
      XorCancels(a / 2, b / 2);
      var x := Xor(a, b);
      assert x / 2 == Xor(a / 2, b / 2);
      assert x % 2 == if a % 2 != b % 2 then 1 else 0;
      if x == 0 && b == 0 {
      } else {
        assert Xor(x, b) == (if x % 2 != b % 2 then 1 else 0) + 2 * Xor(x / 2, b / 2);
      }
    }
  }

  lemma {:induction false} XorBound(a: nat, b: nat, k: nat)
    requires a < Pow2(k) && b < Pow2(k)
    ensures Xor(a, b) < Pow2(k)
  {
    if k > 0 {
      XorBound(a / 2, b / 2, k - 1);
    }
  }

  lemma {:induction false} OrBound(a: nat, b: nat, k: nat)
    requires a < Pow2(k) && b < Pow2(k)
    ensures Or(a, b) < Pow2(k)
  {
    if k > 0 {
      OrBound(a / 2, b / 2, k - 1);
    }
  }

  // ----------------------------------------------------------------- truncation and signs

  lemma WrapWrap(x: nat, v: nat, w: nat)
    requires w <= v
    ensures Wrap(Wrap(x, v), w) == Wrap(x, w)
  {
    hide Pow2;
    Pow2Sum(w, v - w);
    WrapStep(x, w, v - w);
    DivMod(x, Pow2(w));
    DivModUnique(Wrap(x, v), Wrap(Shr(x, w), v - w), Pow2(w), Wrap(x, w));
  }

  lemma {:induction false} WrapOr(a: nat, b: nat, w: nat)
    ensures Wrap(Or(a, b), w) == Or(Wrap(a, w), Wrap(b, w))
  {
    hide Wrap;
    if w == 0 {
      WrapNone(a);
      WrapNone(b);
      WrapNone(Or(a, b));
    } else {
      WrapOr(a / 2, b / 2, w - 1);
      WrapHalf(a, w);
      WrapHalf(b, w);
      WrapHalf(Or(a, b), w);
    }
  }

  /** The low bits that survive (x << n) in a word of w bits. */
  lemma ShiftedGroup(x: nat, n: nat, w: nat)
    requires n <= w
    ensures Shl(x, n) % Pow2(w) == (x % Pow2(w - n)) * Pow2(n)
  {
    var q := Pow2(w - n);
    DivMod(x, q);
    Pow2Sum(w - n, n);
    ShiftOut(x, x / q, q, x % q, Pow2(n));
  }

  /** One step of an accumulation in w bits: or-ing in a shifted group adds it modulo 2^w, also
      when nothing of it is left in the word. */
  lemma AccumulateGroup(acc: nat, x: nat, n: nat, w: nat)
    requires acc < Pow2(n)
    ensures Or(Wrap(acc, w), Wrap(Shl(x, n), w)) == Wrap(acc + Shl(x, n), w)
  {
    if n < w {
      AccumulateInside(acc, x, n, w);
    } else {
      AccumulateOutside(acc, x, n, w);
    }
  }

  lemma AccumulateInside(acc: nat, x: nat, n: nat, w: nat)
    requires n < w && acc < Pow2(n)
    ensures Or(Wrap(acc, w), Wrap(Shl(x, n), w)) == Wrap(acc + Shl(x, n), w)
  {
    hide Pow2;
    var q, p := Pow2(w - n), Pow2(n);
    Pow2Grows(n, w);
    Pow2Sum(w - n, n);
    WrapSmall(acc, w);
    ShiftedGroup(x, n, w);
    DivMod(x, q);
    OrDisjoint(acc, x % q, n);
    SumBelow(acc, x % q, p, q);
    Regroup(x, x / q, q, x % q, p);
    DivModUnique(acc + x * p, x / q, q * p, acc + (x % q) * p);
  }

  lemma AccumulateOutside(acc: nat, x: nat, n: nat, w: nat)
    requires w <= n
    ensures Or(Wrap(acc, w), Wrap(Shl(x, n), w)) == Wrap(acc + Shl(x, n), w)
  {
    hide Pow2, Or;
    var p, h := Pow2(w), x * Pow2(n - w);
    Pow2Sum(n - w, w);
    assert Shl(x, n) == h * p;
    DivModUnique(h * p, h, p, 0);
    AddMultiple(acc, h, p);
    DivMod(acc, p);
    OrDisjoint(Wrap(acc, w), 0, w);
  }

  lemma AddMultiple(x: nat, h: nat, p: nat)
    requires 0 < p
    ensures 0 <= h * p && (x + h * p) % p == x % p
  {
    DivMod(x, p);
    MulMonotone(0, h, p);
    assert x + h * p == (x / p + h) * p + x % p;
    DivModUnique(x + h * p, x / p + h, p, x % p);
  }

  /** The value of a pattern of w bits in two's complement. */
  function Signed(w: nat, pattern: nat): int
    requires 1 <= w
  {
    if pattern < Pow2(w - 1) then pattern else pattern - Pow2(w)
  }

  /** The pattern of w bits that stands for x. */
  function Pattern(w: nat, x: int): nat
    requires 0 <= x + Pow2(w)
  {
    if x < 0 then x + Pow2(w) else x
  }

  lemma SignedPattern(w: nat, x: int)
    requires 1 <= w && 0 <= x + Pow2(w - 1) < Pow2(w)
    ensures 0 <= x + Pow2(w) && Pattern(w, x) < Pow2(w) && Signed(w, Pattern(w, x)) == x
  {
  }

  // ------------------------------------------------------------------- 64-bit word arithmetic

  /** x | (1 << i). */
  function SetBit64(x: UInt64, i: nat): UInt64
    requires i < 64
  {
    Pow2Is64();
    Pow2Sum(64 - i, i);
    SumBelow(0, 1, Pow2(i), Pow2(64 - i));
    OrBound(x, Shl(1, i), 64);
    Or(x, Shl(1, i))
  }

  function Add64(x: UInt64, y: UInt64): UInt64 {
    if x + y < TWO_TO_THE_64 then x + y else x + y - TWO_TO_THE_64
  }

  function Sub64(x: UInt64, y: UInt64): UInt64 {
    if y <= x then x - y else x - y + TWO_TO_THE_64
  }

  function Xor64(x: UInt64, y: UInt64): UInt64 {
    Pow2Is64();
    XorBound(x, y, 64);
    Xor(x, y)
  }

  /** x << n, losing the bits that leave the word. */
  function Shl64(x: UInt64, n: nat): UInt64
    requires n < 64
  {
    (x * Pow2(n)) % TWO_TO_THE_64
  }

  function Shr64(x: UInt64, n: nat): UInt64
    requires n < 64
  {
    DivBound(x, Pow2(n));
    x / Pow2(n)
  }

  function RotL64(x: UInt64, r: nat): UInt64
    requires 0 < r < 64
  {
    RotLAsSum(x, r);
    Or(Shr64(x, 64 - r), Shl64(x, r))
  }

  // ------------------------------------------------------------------- quotients and remainders

  lemma DivMod(x: nat, d: nat)
    requires 0 < d
    ensures x == (x / d) * d + x % d && 0 <= x / d && 0 <= x % d < d
  {
  }

  lemma DivModUnique(x: nat, q: nat, d: nat, r: nat)
    requires r < d && x == q * d + r
    ensures x / d == q && x % d == r
  {
    DivMod(x, d);
    var q' := x / d;
    assert (q' - q) * d == r - x % d;
    if q' > q {
      MulGrows(d, q' - q);
    } else if q' < q {
      assert (q - q') * d == x % d - r;
      MulGrows(d, q - q');
    }
  }

  lemma DivDiv(x: nat, a: nat, b: nat)
    requires 0 < a && 0 < b
    ensures 0 < a * b && (x / a) / b == x / (a * b)
  {
    var q := (x / a) / b;
    var r := (x / a) % b;
    DivMod(x, a);
    DivMod(x / a, b);
    assert x == (q * b + r) * a + x % a;
    assert (q * b + r) * a == q * (a * b) + r * a;
    SumBelow(x % a, r, a, b);
    DivModUnique(x, q, a * b, r * a + x % a);
  }

  lemma DivBound(x: nat, d: nat)
    requires 0 < d
    ensures 0 <= x / d <= x
  {
    DivMod(x, d);
    MulGrows(x / d, d);
  }

  lemma DivBelow(x: nat, d: nat, q: nat)
    requires 0 < d && x < q * d
    ensures x / d < q
  {
    DivMod(x, d);
    if x / d >= q {
      MulMonotone(q, x / d, d);
    }
  }

  lemma DivAtLeast(x: nat, d: nat, q: nat)
    requires 0 < d && q * d <= x
    ensures q <= x / d
  {
    var y := x - q * d;
    DivMod(y, d);
    assert (q + y / d) * d == q * d + (y / d) * d;
    DivModUnique(x, q + y / d, d, y % d);
  }

  /** Multiplying hi * q + lo by p modulo q * p drops hi. */
  lemma ShiftOut(x: nat, hi: nat, q: nat, lo: nat, p: nat)
    requires lo < q && 0 < p && x == hi * q + lo
    ensures 0 < q * p && (x * p) % (q * p) == lo * p
  {
    assert x * p == hi * (q * p) + lo * p by {
      assert (hi * q) * p == hi * (q * p);
    }
    assert q * p == lo * p + (q - lo) * p;
    MulGrows(p, q - lo);
    DivModUnique(x * p, hi, q * p, lo * p);
  }

  lemma SumBelow(hi: nat, lo: nat, p: nat, q: nat)
    requires hi < p && lo < q
    ensures lo * p + hi < q * p
  {
    assert q * p == lo * p + (q - lo) * p;
    MulGrows(p, q - lo);
  }

  lemma RotLAsSum(x: UInt64, r: nat)
    requires 0 < r < 64
    ensures Or(Shr64(x, 64 - r), Shl64(x, r)) == (x % Pow2(64 - r)) * Pow2(r) + x / Pow2(64 - r) < TWO_TO_THE_64
  {
    var p, q := Pow2(r), Pow2(64 - r);
    Pow2Is64();
    Pow2Sum(64 - r, r);
    DivMod(x, q);
    DivBelow(x, q, p);
    ShiftOut(x, x / q, q, x % q, p);
    OrDisjoint(x / q, x % q, r);
    SumBelow(x / q, x % q, p, q);
  }

  lemma RotLValue(x: UInt64, r: nat)
    requires 0 < r < 64
    ensures RotL64(x, r) == (x % Pow2(64 - r)) * Pow2(r) + x / Pow2(64 - r)
  {
    hide Pow2;
    RotLAsSum(x, r);
  }

  lemma RotateBack(x: UInt64, r: nat)
    requires 0 < r < 64
    ensures RotL64(RotL64(x, r), 64 - r) == x
  {
    hide Pow2, RotL64;
    var p, q := Pow2(r), Pow2(64 - r);
    var y := RotL64(x, r);
    Pow2Is64();
    Pow2Sum(64 - r, r);
    DivMod(x, q);
    DivBelow(x, q, p);
    RotLValue(x, r);
    RotLValue(y, 64 - r);
    DivModUnique(y, x % q, p, x / q);
  }
}
