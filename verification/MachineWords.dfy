/** The 64-bit words as bit-vectors of the machine: what the operators do to numbers, bit by bit, is
    what the hardware does to words. */
module MachineWords {
  import opened Bits

  // ------------------------------------------------------------------ words without numbers

  predicate Odd(a: bv64) { a & 1 == 1 }

  function Half(a: bv64): bv64 { a >> 1 }

  function XorOf(a: bv64, b: bv64): bv64 { a ^ b }

  function SumOf(a: bv64, b: bv64): bv64 { a + b }

  /** The carries that go into the bits of a sum. */
  function CarriesOf(a: bv64, b: bv64): bv64 { XorOf(SumOf(a, b), XorOf(a, b)) }

  /** Within the mask, the next carry is what a full adder makes of the bits. */
  predicate Carries(a: bv64, b: bv64, c: bv64, mask: bv64) {
    ((c >> 1) ^ ((a & b) | ((a ^ b) & c))) & mask == 0
  }

  lemma XorHalf(a: bv64, b: bv64)
    ensures (a ^ b) >> 1 == (a >> 1) ^ (b >> 1)
    ensures (a ^ b) & 1 == 1 <==> (a & 1 == 1) != (b & 1 == 1)
  {
  }

  lemma XorParts(a: bv64, b: bv64)
    ensures (Odd(XorOf(a, b)) <==> Odd(a) != Odd(b)) && Half(XorOf(a, b)) == XorOf(Half(a), Half(b))
  {
    XorHalf(a, b);
  }

  // Byte by byte, since each carry depends on all those below it.

  lemma CarriesOfByte0(a: bv64, b: bv64, s: bv64)
    requires s == a + b
    ensures Carries(a, b, s ^ (a ^ b), 0xFF)
  {
  }

  lemma CarriesOfByte1(a: bv64, b: bv64, s: bv64)
    requires s == a + b
    ensures Carries(a, b, s ^ (a ^ b), 0xFF00)
  {
  }

  lemma CarriesOfByte2(a: bv64, b: bv64, s: bv64)
    requires s == a + b
    ensures Carries(a, b, s ^ (a ^ b), 0xFF_0000)
  {
  }

  lemma CarriesOfByte3(a: bv64, b: bv64, s: bv64)
    requires s == a + b
    ensures Carries(a, b, s ^ (a ^ b), 0xFF00_0000)
  {
  }

  lemma CarriesOfByte4(a: bv64, b: bv64, s: bv64)
    requires s == a + b
    ensures Carries(a, b, s ^ (a ^ b), 0xFF_0000_0000)
  {
  }

  lemma CarriesOfByte5(a: bv64, b: bv64, s: bv64)
    requires s == a + b
    ensures Carries(a, b, s ^ (a ^ b), 0xFF00_0000_0000)
  {
  }

  lemma CarriesOfByte6(a: bv64, b: bv64, s: bv64)
    requires s == a + b
    ensures Carries(a, b, s ^ (a ^ b), 0xFF_0000_0000_0000)
  {
  }

  lemma CarriesOfByte7(a: bv64, b: bv64, s: bv64)
    requires s == a + b
    ensures Carries(a, b, s ^ (a ^ b), 0x7F00_0000_0000_0000)
  {
  }

  lemma MoreCarries(a: bv64, b: bv64, c: bv64, m: bv64, n: bv64)
    requires Carries(a, b, c, m) && Carries(a, b, c, n)
    ensures Carries(a, b, c, m | n)
  {
  }

  lemma SumCarries(a: bv64, b: bv64, s: bv64)
    requires s == a + b
    ensures Carries(a, b, s ^ (a ^ b), 0x7FFF_FFFF_FFFF_FFFF)
  {
    hide Carries;
    CarriesOfByte0(a, b, s);
    CarriesOfByte1(a, b, s);
    CarriesOfByte2(a, b, s);
    CarriesOfByte3(a, b, s);
    CarriesOfByte4(a, b, s);
    CarriesOfByte5(a, b, s);
    CarriesOfByte6(a, b, s);
    CarriesOfByte7(a, b, s);
    var c := s ^ (a ^ b);
    MoreCarries(a, b, c, 0xFF, 0xFF00);
    MoreCarries(a, b, c, 0xFFFF, 0xFF_0000);
    MoreCarries(a, b, c, 0xFF_FFFF, 0xFF00_0000);
    MoreCarries(a, b, c, 0xFFFF_FFFF, 0xFF_0000_0000);
    MoreCarries(a, b, c, 0xFF_FFFF_FFFF, 0xFF00_0000_0000);
    MoreCarries(a, b, c, 0xFFFF_FFFF_FFFF, 0xFF_0000_0000_0000);
    MoreCarries(a, b, c, 0xFF_FFFF_FFFF_FFFF, 0x7F00_0000_0000_0000);
  }

  lemma XorTwice(a: bv64, s: bv64)
    ensures XorOf(a, XorOf(s, a)) == s
  {
  }

  lemma NoCarryIn(a: bv64, b: bv64, s: bv64)
    requires s == a + b
    ensures (s ^ (a ^ b)) & 1 == 0
  {
  }

  lemma CarriesAre(a: bv64, b: bv64)
    ensures CarriesOf(a, b) == SumOf(a, b) ^ (a ^ b)
  {
    hide SumOf;
  }

  lemma CarriesStart(a: bv64, b: bv64)
    ensures Carries(a, b, CarriesOf(a, b), 0x7FFF_FFFF_FFFF_FFFF) && !Odd(CarriesOf(a, b))
  {
    hide Carries, CarriesOf;
    CarriesAre(a, b);
    SumCarries(a, b, SumOf(a, b));
    NoCarryIn(a, b, SumOf(a, b));
  }

  lemma SumFromCarries(a: bv64, b: bv64)
    ensures SumOf(a, b) == XorOf(XorOf(a, b), CarriesOf(a, b))
  {
    hide SumOf, XorOf;
    XorTwice(XorOf(a, b), SumOf(a, b));
  }

  lemma CarriesShift(a: bv64, b: bv64, c: bv64, mask: bv64)
    requires Carries(a, b, c, mask)
    ensures Carries(a >> 1, b >> 1, c >> 1, mask >> 1)
  {
  }

  lemma NextCarry(a: bv64, b: bv64, c: bv64, mask: bv64)
    requires Carries(a, b, c, mask) && Odd(mask)
    ensures Odd(c >> 1) <==> CarryOut(Odd(a), Odd(b), Odd(c))
  {
  }

  lemma CarriesHalf(a: bv64, b: bv64, c: bv64, mask: bv64)
    requires Carries(a, b, c, mask)
    ensures Carries(Half(a), Half(b), Half(c), Half(mask))
    ensures Odd(mask) ==> (Odd(Half(c)) <==> CarryOut(Odd(a), Odd(b), Odd(c)))
  {
    hide Carries, Odd;
    CarriesShift(a, b, c, mask);
    if Odd(mask) {
      NextCarry(a, b, c, mask);
    }
  }

  predicate CarryOut(x: bool, y: bool, z: bool) {
    (x && y) || (x != y && z)
  }

  // ------------------------------------------------------------------------- the n low bits

  function Bit(x: bool): nat { if x then 1 else 0 }

  predicate Ones(m: bv64, n: nat)
    decreases n
  {
    if n == 0 then m == 0 else Odd(m) && Ones(Half(m), n - 1)
  }

  /** The number a word's n low bits stand for. */
  function Number(b: bv64, n: nat): nat
    decreases n
  {
    if n == 0 then 0 else Bit(Odd(b)) + 2 * Number(Half(b), n - 1)
  }

  lemma HalfOf(bit: bool, x: nat)
    ensures (Bit(bit) + 2 * x) / 2 == x
    ensures (Bit(bit) + 2 * x) % 2 == 1 <==> bit
  {
  }

  lemma XorStep(x: nat, y: nat)
    ensures Xor(x, y) == Bit(x % 2 != y % 2) + 2 * Xor(x / 2, y / 2)
  {
  }

  lemma XorNone()
    ensures Xor(0, 0) == 0
  {
  }

  lemma FullAdder(x: bool, y: bool, z: bool)
    ensures Bit((x != y) != z) + 2 * Bit(CarryOut(x, y, z)) == Bit(x) + Bit(y) + Bit(z)
  {
  }

  lemma Twice(p: nat, carry: nat)
    ensures (2 * p) * carry == 2 * (p * carry)
  {
  }

  lemma SumStep(a: bv64, b: bv64, c: bv64, n: nat)
    requires 0 < n
    ensures Number(XorOf(XorOf(a, b), c), n)
         == Bit((Odd(a) != Odd(b)) != Odd(c)) + 2 * Number(XorOf(XorOf(Half(a), Half(b)), Half(c)), n - 1)
  {
    hide Odd, Half, XorOf, Bit, Number;
    XorParts(a, b);
    XorParts(XorOf(a, b), c);
    Unfold(XorOf(XorOf(a, b), c), n);
  }

  /** The carry out of the n low bits. */
  lemma {:induction false} SumNumber(a: bv64, b: bv64, c: bv64, mask: bv64, n: nat) returns (carry: nat)
    requires 0 < n && Ones(mask, n - 1) && Carries(a, b, c, mask)
    ensures Number(XorOf(XorOf(a, b), c), n) + Pow2(n) * carry == Number(a, n) + Number(b, n) + Bit(Odd(c))
    decreases n
  {
    hide Odd, Half, Carries, XorOf, CarryOut, Bit, Ones, Number, Pow2;
    Unfold(a, n);
    Unfold(b, n);
    SumStep(a, b, c, n);
    CarriesHalf(a, b, c, mask);
    FullAdder(Odd(a), Odd(b), Odd(c));
    if n == 1 {
      carry := Bit(CarryOut(Odd(a), Odd(b), Odd(c)));
      NoNumber(XorOf(XorOf(Half(a), Half(b)), Half(c)));
    } else {
      Unfold(mask, n - 1);
      carry := SumNumber(Half(a), Half(b), Half(c), Half(mask), n - 1);
      Twice(Pow2(n - 1), carry);
    }
  }

  lemma NoNumber(b: bv64)
    ensures Number(b, 0) == 0
  {
  }

  lemma Unfold(b: bv64, n: nat)
    requires 0 < n
    ensures Ones(b, n) <==> Odd(b) && Ones(Half(b), n - 1)
    ensures Number(b, n) == Bit(Odd(b)) + 2 * Number(Half(b), n - 1)
    ensures Number(Half(b), 0) == 0 && Pow2(n) == 2 * Pow2(n - 1) && Pow2(0) == 1
  {
    hide Odd, Half;
  }

  // ------------------------------------------------------------------- the value of a word

  function Joined(high: bv63, low: bv1): bv64 { ((high as bv64) << 1) | (low as bv64) }

  function High(b: bv64): bv63 { (b >> 1) as bv63 }

  function Low(b: bv64): bv1 { (b & 1) as bv1 }

  /** The number a word stands for. */
  function Value(b: bv64): UInt64 { b as int }

  function HighInt(b: bv63): int { b as int }

  function LowInt(b: bv1): int { b as int }

  lemma JoinedInt(high: bv63, low: bv1)
    ensures Value(Joined(high, low)) == 2 * HighInt(high) + LowInt(low)
  {
    Concatenated(high, low);
  }

  lemma Concatenated(high: bv63, low: bv1)
    ensures (((high as bv64) << 1) | (low as bv64)) as int == 2 * (high as int) + (low as int)
  {
  }

  lemma Widened(high: bv63)
    ensures (high as bv64) as int == high as int
  {
  }

  lemma Rejoined(b: bv64)
    ensures Joined(High(b), Low(b)) == b
  {
  }

  lemma HalfIsHigh(b: bv64)
    ensures Half(b) == High(b) as bv64
  {
  }

  lemma HalfInt(b: bv64)
    ensures Value(Half(b)) == HighInt(High(b))
  {
    HalfIsHigh(b);
    Widened(High(b));
    hide High, Half;
  }

  lemma LowBit(b: bv64)
    ensures LowInt(Low(b)) == Bit(Odd(b))
  {
  }

  lemma ValueHalves(b: bv64)
    ensures Value(b) == 2 * Value(Half(b)) + Bit(Odd(b))
  {
    hide Joined, High, Low, Value, HighInt, LowInt, Half, Odd;
    Rejoined(b);
    JoinedInt(High(b), Low(b));
    HalfInt(b);
    LowBit(b);
  }

  // ---------------------------------------------------- the operators on words and on numbers

  lemma Zero(b: bv64)
    requires Value(b) == 0
    ensures b == 0
  {
    WordOfValue(b);
  }

  lemma WordOfValue(b: bv64)
    ensures (b as int) as bv64 == b
  {
  }

  lemma KnownValues()
    ensures Value(0) == 0 && Value(0x7FFF_FFFF_FFFF_FFFF) == 0x7FFF_FFFF_FFFF_FFFF && XorOf(0, 0) == 0
  {
  }

  lemma {:induction false} XorValue(a: bv64, b: bv64)
    ensures Value(XorOf(a, b)) == Xor(Value(a), Value(b))
    decreases Value(a) + Value(b)
  {
    hide Value, XorOf, Half, Odd, Xor;
    if Value(a) == 0 && Value(b) == 0 {
      Zero(a);
      Zero(b);
      KnownValues();
      XorNone();
    } else {
      ValueHalves(a);
      ValueHalves(b);
      ValueHalves(XorOf(a, b));
      XorParts(a, b);
      XorValue(Half(a), Half(b));
      HalfOf(Odd(a), Value(Half(a)));
      HalfOf(Odd(b), Value(Half(b)));
      XorStep(Value(a), Value(b));
    }
  }

  lemma {:induction false} NumberIs(b: bv64, n: nat)
    requires Value(b) < Pow2(n)
    ensures Number(b, n) == Value(b)
    decreases n
  {
    hide Value, Half, Odd;
    if n > 0 {
      ValueHalves(b);
      NumberIs(Half(b), n - 1);
    }
  }

  lemma {:induction false} OnesAre(b: bv64, n: nat)
    requires Value(b) == Pow2(n) - 1
    ensures Ones(b, n)
    decreases n
  {
    hide Value, Half, Odd;
    if n == 0 {
      Zero(b);
    } else {
      ValueHalves(b);
      OnesAre(Half(b), n - 1);
    }
  }

  lemma SumValue(a: bv64, b: bv64)
    ensures Value(SumOf(a, b)) == Value(a) + Value(b) || Value(SumOf(a, b)) == Value(a) + Value(b) - TWO_TO_THE_64
  {
    hide Value, SumOf, XorOf, CarriesOf, Carries, Odd, Number, Ones;
    KnownValues();
    Pow2Is64();
    Pow2Is63();
    OnesAre(0x7FFF_FFFF_FFFF_FFFF, 63);
    CarriesStart(a, b);
    SumFromCarries(a, b);
    var carry := SumNumber(a, b, CarriesOf(a, b), 0x7FFF_FFFF_FFFF_FFFF, 64);
    NumberIs(a, 64);
    NumberIs(b, 64);
    NumberIs(SumOf(a, b), 64);
  }

  function Top(b: bv64): bv1 { (b >> 63) as bv1 }

  function Rest(b: bv64): bv63 { (b & 0x7FFF_FFFF_FFFF_FFFF) as bv63 }

  function Stacked(top: bv1, rest: bv63): bv64 { ((top as bv64) << 63) | (rest as bv64) }

  lemma StackedInt(top: bv1, rest: bv63)
    ensures Value(Stacked(top, rest)) == 0x8000_0000_0000_0000 * LowInt(top) + HighInt(rest)
  {
    Stack(top, rest);
  }

  lemma Stack(top: bv1, rest: bv63)
    ensures (((top as bv64) << 63) | (rest as bv64)) as int == 0x8000_0000_0000_0000 * (top as int) + (rest as int)
  {
  }

  lemma Restacked(b: bv64)
    ensures Stacked(Top(b), Rest(b)) == b && Joined(Rest(b), Top(b)) == RotatedOnce(b)
  {
  }

  function RotatedOnce(b: bv64): bv64 { (b << 1) | (b >> 63) }

  lemma SmallBounds(top: bv1, rest: bv63)
    ensures 0 <= LowInt(top) <= 1 && 0 <= HighInt(rest) < 0x8000_0000_0000_0000
  {
  }

  lemma RotatedOnceValue(b: bv64)
    ensures Value(RotatedOnce(b)) == RotL64(Value(b), 1)
  {
    hide Value, RotatedOnce, Top, Rest, Stacked, Joined, LowInt, HighInt, RotL64;
    Restacked(b);
    StackedInt(Top(b), Rest(b));
    JoinedInt(Rest(b), Top(b));
    SmallBounds(Top(b), Rest(b));
    RotateOnceValue(Value(b));
  }

  lemma RotateOnceValue(x: UInt64)
    ensures RotL64(x, 1) == if x < 0x8000_0000_0000_0000 then 2 * x else 2 * (x - 0x8000_0000_0000_0000) + 1
  {
    hide RotL64, Pow2;
    Pow2Is63();
    RotLIs(x, 1, 2, 0x8000_0000_0000_0000);
    DivModOf2To63(x);
  }

  lemma Pow2Is63()
    ensures Pow2(63) == 0x8000_0000_0000_0000 && Pow2(1) == 2
  {
    assert Pow2(1) == 2;
    Pow2Is64();
    Pow2Sum(1, 63);
  }

  lemma DivModOf2To63(x: UInt64)
    ensures x / 0x8000_0000_0000_0000 == if x < 0x8000_0000_0000_0000 then 0 else 1
    ensures x % 0x8000_0000_0000_0000 == if x < 0x8000_0000_0000_0000 then x else x - 0x8000_0000_0000_0000
  {
  }

  lemma RotateOnceMore(x: UInt64, r: nat)
    requires 0 < r < 63
    ensures RotL64(x, r + 1) == RotL64(RotL64(x, r), 1)
  {
    hide Pow2, Or, RotL64;
    var p, q := Pow2(r), Pow2(63 - r);
    Pow2Is63();
    Pow2Is64();
    Pow2Sum(1, 63 - r);
    Pow2Sum(1, r);
    Pow2Sum(63 - r, r);
    RotLIs(x, r, p, 2 * q);
    RotLIs(x, r + 1, 2 * p, q);
    RotateOnceValue(RotL64(x, r));
    SplitThree(x, p, q);
  }

  lemma RotLIs(x: UInt64, r: nat, p: nat, q: nat)
    requires 0 < r < 64 && p == Pow2(r) && q == Pow2(64 - r)
    ensures RotL64(x, r) == (x % q) * p + x / q
  {
    RotLAsSum(x, r);
  }

  /** What one more rotation does to a number of three parts. */
  lemma SplitThree(x: nat, p: nat, q: nat)
    requires 0 < p && 0 < q && x < 2 * q * p
    ensures 0 < 2 * q && 0 < q * p
    ensures var y := (x % (2 * q)) * p + x / (2 * q);
            (if y < q * p then 2 * y else 2 * (y - q * p) + 1) == (x % q) * (2 * p) + x / q
  {
    var h, l := x / (2 * q), x % (2 * q);
    DivMod(x, 2 * q);
    DivBelow(x, 2 * q, p);
    if l < q {
      LowPart(x, h, l, q);
      LowSum(h, l, p, q);
    } else {
      HighPart(x, h, l, q);
      HighSum(h, l - q, p, q);
    }
  }

  lemma LowSum(h: nat, k: nat, p: nat, q: nat)
    requires h < p && k < q
    ensures k * p + h < q * p && 2 * (k * p + h) == k * (2 * p) + 2 * h
  {
    SumBelow(h, k, p, q);
    Twice(p, k);
  }

  lemma HighSum(h: nat, k: nat, p: nat, q: nat)
    requires h < p && k < q
    ensures (k + q) * p + h >= q * p && 2 * ((k + q) * p + h - q * p) + 1 == k * (2 * p) + 2 * h + 1
  {
    LowSum(h, k, p, q);
    assert (k + q) * p == k * p + q * p;
  }

  lemma LowPart(x: nat, h: nat, l: nat, q: nat)
    requires l < q && x == h * (2 * q) + l
    ensures x / q == 2 * h && x % q == l
  {
    assert x == (2 * h) * q + l;
    DivModUnique(x, 2 * h, q, l);
  }

  lemma HighPart(x: nat, h: nat, l: nat, q: nat)
    requires q <= l < 2 * q && x == h * (2 * q) + l
    ensures x / q == 2 * h + 1 && x % q == l - q
  {
    assert x == (2 * h + 1) * q + (l - q);
    DivModUnique(x, 2 * h + 1, q, l - q);
  }

  /** A rotation in steps of eight and of one. */
  function RotatedBy(b: bv64, r: nat): bv64
    decreases r
  {
    if r >= 8 then RotatedBy((b << 8) | (b >> 56), r - 8)
    else if r > 0 then RotatedBy((b << 1) | (b >> 63), r - 1)
    else b
  }

  lemma RotatedTwice(b: bv64)
    ensures RotatedOnce(RotatedOnce(b)) == (b << 2) | (b >> 62)
  {
  }

  lemma Twos(b: bv64, c: bv64)
    requires c == (b << 2) | (b >> 62)
    ensures (c << 2) | (c >> 62) == (b << 4) | (b >> 60)
  {
  }

  lemma Fours(b: bv64, c: bv64)
    requires c == (b << 4) | (b >> 60)
    ensures (c << 4) | (c >> 60) == (b << 8) | (b >> 56)
  {
  }

  lemma {:induction false} RotateTwice(x: UInt64, m: nat, n: nat)
    requires 0 < m && 0 < n && m + n < 64
    ensures RotL64(RotL64(x, m), n) == RotL64(x, m + n)
    decreases n
  {
    hide RotL64;
    RotateOnceMore(x, m + n - 1);
    if n > 1 {
      RotateTwice(x, m, n - 1);
      RotateOnceMore(RotL64(x, m), n - 1);
    }
  }

  lemma RotatedTwiceValue(b: bv64)
    ensures Value((b << 2) | (b >> 62)) == RotL64(Value(b), 2)
  {
    hide Value, RotatedOnce, RotL64;
    RotatedTwice(b);
    RotatedOnceValue(b);
    RotatedOnceValue(RotatedOnce(b));
    RotateTwice(Value(b), 1, 1);
  }

  lemma RotatedFourValue(b: bv64)
    ensures Value((b << 4) | (b >> 60)) == RotL64(Value(b), 4)
  {
    hide Value, RotL64;
    var c := (b << 2) | (b >> 62);
    Twos(b, c);
    RotatedTwiceValue(b);
    RotatedTwiceValue(c);
    RotateTwice(Value(b), 2, 2);
  }

  lemma RotatedEightValue(b: bv64)
    ensures Value((b << 8) | (b >> 56)) == RotL64(Value(b), 8)
  {
    hide Value, RotL64;
    var c := (b << 4) | (b >> 60);
    Fours(b, c);
    RotatedFourValue(b);
    RotatedFourValue(c);
    RotateTwice(Value(b), 4, 4);
  }

  lemma RotatedNowhere(b: bv64)
    ensures RotatedBy(b, 0) == b
  {
  }

  lemma {:induction false} RotatedValue(b: bv64, r: nat)
    requires 0 < r < 64
    ensures Value(RotatedBy(b, r)) == RotL64(Value(b), r)
    decreases r
  {
    hide Value, RotL64;
    var n, c := if r >= 8 then 8 else 1, if r >= 8 then (b << 8) | (b >> 56) else (b << 1) | (b >> 63);
    RotatedEightValue(b);
    RotatedOnceValue(b);
    RotatedNowhere(c);
    assert RotatedBy(b, r) == RotatedBy(c, r - n);
    hide RotatedBy, RotatedOnce;
    if r > n {
      RotatedValue(c, r - n);
      RotateTwice(Value(b), n, r - n);
    }
  }

  /** The machine's operators and those on numbers. */
  lemma OperatorsAgree(a: bv64, b: bv64)
    ensures Value(XorOf(a, b)) == Xor64(Value(a), Value(b))
    ensures Value(SumOf(a, b)) == Add64(Value(a), Value(b))
  {
    hide Value, Xor, XorOf, SumOf;
    XorValue(a, b);
    SumValue(a, b);
  }
}
