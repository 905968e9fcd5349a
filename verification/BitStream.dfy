/** Random bits in portions: the words of a source are cut into requests of any width. */
module BitStream {
  import opened Bits

  /** The source: the k-th word it will yield. Of a word of w bits the w low ones count. */
  type Words = nat -> UInt64

  /** How many bits an accumulator of 64 bits can be shifted over. */
  const BUFFER_BITS: nat := 64
  const NOMINAL_SIZE: int := 100

  // ------------------------------------------------------------- one endless string of bits

  function BitAt(words: Words, w: Width, i: nat): nat {
    Shr(words(i / w), i % w) % 2
  }

  /** The number whose bits, least significant first, are the n bits from `from` on. */
  function Slice(words: Words, w: Width, from: nat, n: nat): nat
    decreases n
  {
    if n == 0 then 0 else BitAt(words, w, from) + 2 * Slice(words, w, from + 1, n - 1)
  }

  lemma {:induction false} SliceBound(words: Words, w: Width, from: nat, n: nat)
    ensures Slice(words, w, from, n) < Pow2(n)
    decreases n
  {
    if n > 0 {
      SliceBound(words, w, from + 1, n - 1);
    }
  }

  /** Cutting a slice in two loses no bit and repeats none. */
  lemma {:induction false} SliceSplit(words: Words, w: Width, from: nat, m: nat, n: nat)
    ensures Slice(words, w, from, m + n) == Slice(words, w, from, m) + Shl(Slice(words, w, from + m, n), m)
    decreases m
  {
    hide BitAt;
    if m == 0 {
      assert Shl(Slice(words, w, from, n), 0) == Slice(words, w, from, n) by {
        assert Pow2(0) == 1;
      }
    } else {
      SliceSplit(words, w, from + 1, m - 1, n);
      assert from + 1 + (m - 1) == from + m;
      assert Pow2(1) == 2;
      ShlMore(Slice(words, w, from + m, n), 1, m - 1);
    }
  }

  lemma BitOfWord(words: Words, w: Width, k: nat, r: nat)
    requires r < w
    ensures 0 <= k * w + r && BitAt(words, w, k * w + r) == Shr(words(k), r) % 2
  {
    hide Shr;
    MulMonotone(0, k, w);
    DivModUnique(k * w + r, k, w, r);
  }

  /** Part of a word is a slice. */
  lemma {:induction false} WordSlice(words: Words, w: Width, k: nat, start: nat, r: nat, n: nat)
    requires start == k * w && r + n <= w
    ensures Wrap(Shr(words(k), r), n) == Slice(words, w, start + r, n)
    decreases n
  {
    hide Pow2, Shr, Wrap, BitAt;
    if n == 0 {
      WrapNone(Shr(words(k), r));
    } else {
      WordSlice(words, w, k, start, r + 1, n - 1);
      WrapHalf(Shr(words(k), r), n);
      ShrOnce(words(k), r);
      BitOfWord(words, w, k, r);
    }
  }

  lemma ShrOnce(x: nat, r: nat)
    ensures Shr(x, r) / 2 == Shr(x, r + 1)
  {
    DivDiv(x, Pow2(r), 2);
  }

  // -------------------------------------------------------------------------- masks and signs

  /** `~((~0 - 1) << (nbits - 1))` in w bits. */
  function BitMask(w: nat, nbits: nat): nat
    requires 1 <= nbits <= w
  {
    MaskValue(w, nbits);
    Pow2(w) - 1 - Wrap(Shl(Pow2(w) - 1 - 1, nbits - 1), w)
  }

  lemma MaskValue(w: nat, nbits: nat)
    requires 1 <= nbits <= w
    ensures 0 <= Pow2(w) - 1 - 1
    ensures Pow2(w) - 1 - Wrap(Shl(Pow2(w) - 1 - 1, nbits - 1), w) == Pow2(nbits) - 1
  {
    hide Pow2;
    Pow2Grows(nbits, w);
    Pow2One();
    Pow2Sum(1, nbits - 1);
    ShiftedOnes(Pow2(w), Pow2(nbits - 1));
  }

  lemma ShiftedOnes(p: nat, half: nat)
    requires 0 < half && 2 * half <= p
    ensures 0 <= (p - 2) * half && ((p - 2) * half) % p == p - 2 * half
  {
    MulMonotone(0, p - 2, half);
    assert (p - 2) * half == p * half - 2 * half;
    assert (half - 1) * p == p * half - p;
    DivModUnique((p - 2) * half, half - 1, p, p - 2 * half);
  }

  lemma Pow2One()
    ensures Pow2(1) == 2
  {
  }

  /** Setting all bits above a set sign bit keeps the value the n low bits stand for. */
  lemma SignExtension(w: nat, n: nat, x: nat)
    requires 1 <= n <= w && x < Pow2(n)
    ensures And(x, Pow2(n - 1)) != 0 <==> Pow2(n - 1) <= x
    ensures Pow2(n) <= Pow2(w)
    ensures Signed(w, if Pow2(n - 1) <= x then Or(x, Pow2(w) - Pow2(n)) else x) == Signed(n, x)
  {
    hide Pow2, Or, And;
    Pow2One();
    Pow2Sum(1, n - 1);
    Pow2Sum(1, w - 1);
    Pow2Grows(n, w);
    Pow2Grows(n - 1, w - 1);
    BitSet(x, n);
    if Pow2(n - 1) <= x {
      OnesAbove(x, w, n);
    }
  }

  lemma BitSet(x: nat, n: nat)
    requires 1 <= n && x < Pow2(n)
    ensures And(x, Pow2(n - 1)) != 0 <==> Pow2(n - 1) <= x
  {
    hide Pow2, And;
    Pow2One();
    Pow2Sum(1, n - 1);
    AndBit(x, n - 1);
    if x < Pow2(n - 1) {
      DivModUnique(x, 0, Pow2(n - 1), x);
    } else {
      DivModUnique(x, 1, Pow2(n - 1), x - Pow2(n - 1));
    }
  }

  lemma OnesAbove(x: nat, w: nat, n: nat)
    requires n <= w && x < Pow2(n)
    ensures 0 <= Pow2(w) - Pow2(n) && Or(x, Pow2(w) - Pow2(n)) == x + (Pow2(w) - Pow2(n))
  {
    hide Pow2, Or;
    Pow2Sum(w - n, n);
    var h := Pow2(w - n) - 1;
    assert h * Pow2(n) == Pow2(w) - Pow2(n);
    OrDisjoint(x, h, n);
  }

  // -------------------------------------------------------------------------------- requests

  /** What is asked for: a number of bits of an unsigned or a signed type of some width, or a bool. */
  datatype Request =
    | AsUnsigned(nbits: nat, width: Width)
    | AsSigned(nbits: nat, width: Width)
    | AsBool(nbits: nat)
  {
    /** No more bits are asked for than the type has. */
    predicate Fits() {
      match this
      case AsUnsigned(n, width) => n <= width
      case AsSigned(n, width) => n <= width
      case AsBool(n) => n <= 1
    }

    /** How many bits are taken: one for a bool, whatever number of them is asked for. */
    function Bits(): nat {
      if AsBool? then 1 else nbits
    }
  }

  /** What a request comes to. It is undefined when its code shifts by the width of a word or more. */
  datatype Drawn<+T> = Drawn(value: T) | Undefined {
    predicate IsFailure() { Undefined? }

    function PropagateFailure<U>(): Drawn<U>
      requires IsFailure()
    {
      Undefined
    }

    function Extract(): T
      requires Drawn?
    {
      value
    }
  }

  /** How many bits of the last word are left at a position. */
  function Buffered(w: Width, from: nat): (n: nat)
    ensures n < w
  {
    (w - from % w) % w
  }

  /** Bits beyond the width of the type are taken, but lost. */
  function UnsignedAt(words: Words, w: Width, from: nat, nbits: nat, width: Width): Drawn<nat> {
    if nbits > BUFFER_BITS + Buffered(w, from) then Undefined
    else Drawn(Wrap(Slice(words, w, from, nbits), width))
  }

  /** The last bit is the sign, unless it is lost. It is looked for at the promoted width. */
  function SignedAt(words: Words, w: Width, from: nat, nbits: nat, width: Width): Drawn<int> {
    var x := Slice(words, w, from, nbits);
    if nbits == 0 then Drawn(0)
    else if nbits > Promoted(width) then Undefined
    else if nbits <= width then Drawn(Signed(nbits, x))
    else Drawn(Signed(width, Wrap(x, width)))
  }

  function Value(words: Words, w: Width, from: nat, q: Request): Drawn<int> {
    match q
    case AsUnsigned(nbits, width) => UnsignedAt(words, w, from, nbits, width)
    case AsSigned(nbits, width) => SignedAt(words, w, from, nbits, width)
    case AsBool(_) => Drawn(BitAt(words, w, from))
  }

  function Values(words: Words, w: Width, from: nat, qs: seq<Request>): Drawn<seq<int>>
    decreases |qs|
  {
    if qs == [] then Drawn([])
    else
      var value :- Value(words, w, from, qs[0]);
      var rest :- Values(words, w, from + qs[0].Bits(), qs[1..]);
      Drawn([value] + rest)
  }

  function TotalBits(qs: seq<Request>): nat {
    if qs == [] then 0 else qs[0].Bits() + TotalBits(qs[1..])
  }

  /** The slice a request should get, its last bit being the sign of a signed number. */
  function Exact(words: Words, w: Width, from: nat, q: Request): int {
    var x := Slice(words, w, from, q.Bits());
    if q.AsSigned? && q.nbits > 0 then Signed(q.nbits, x) else x
  }

  /** Requests that fit get their slices. */
  lemma ExactWhenFits(words: Words, w: Width, from: nat, q: Request)
    requires q.Fits()
    ensures Value(words, w, from, q) == Drawn(Exact(words, w, from, q))
  {
    hide Pow2, BitAt;
    SliceNone(words, w, from);
    if q.AsUnsigned? {
      SliceBound(words, w, from, q.nbits);
      Pow2Grows(q.nbits, q.width);
      WrapSmall(Slice(words, w, from, q.nbits), q.width);
    } else if q.AsBool? {
      SliceNone(words, w, from + 1);
    }
  }

  lemma {:induction false} ValuesWhenFit(words: Words, w: Width, from: nat, qs: seq<Request>)
    requires forall i :: 0 <= i < |qs| ==> qs[i].Fits()
    ensures Values(words, w, from, qs).Drawn? && |Values(words, w, from, qs).value| == |qs|
    ensures forall i :: 0 <= i < |qs| ==>
      Values(words, w, from, qs).value[i] == Exact(words, w, from + TotalBits(qs[..i]), qs[i])
    decreases |qs|
  {
    hide Exact, Value;
    if qs != [] {
      var next := from + qs[0].Bits();
      ExactWhenFits(words, w, from, qs[0]);
      ValuesWhenFit(words, w, next, qs[1..]);
      forall i | 1 <= i < |qs|
        ensures from + TotalBits(qs[..i]) == next + TotalBits(qs[1..][..i - 1]) && qs[i] == qs[1..][i - 1] {
        assert qs[..i][0] == qs[0] && qs[..i][1..] == qs[1..][..i - 1];
      }
    }
  }

  /** Every source's slice comes back whole exactly when no more bits are asked for than the type
      has: of a source of ones the bits beyond are lost otherwise, if the request is defined at all. */
  lemma WholeWhenFits(w: Width, from: nat, nbits: nat, width: Width)
    ensures (forall words: Words :: UnsignedAt(words, w, from, nbits, width) == Drawn(Slice(words, w, from, nbits)))
       <==> nbits <= width
  {
    hide Slice, Buffered, BitAt, Pow2, Wrap;
    if nbits <= width {
      forall words: Words
        ensures UnsignedAt(words, w, from, nbits, width) == Drawn(Slice(words, w, from, nbits)) {
        ExactWhenFits(words, w, from, AsUnsigned(nbits, width));
      }
    } else {
      var ones: Words := k => MAX_UINT64;
      SliceOfOnes(ones, w, from, nbits);
      LosesBits(nbits, width);
      assert UnsignedAt(ones, w, from, nbits, width) != Drawn(Slice(ones, w, from, nbits));
    }
  }

  lemma LosesBits(nbits: nat, width: nat)
    requires width < nbits
    ensures Wrap(Pow2(nbits) - 1, width) < Pow2(nbits) - 1
  {
    Pow2Grows(width + 1, nbits);
    WrapBound(Pow2(nbits) - 1, width);
  }

  lemma {:induction false} SliceOfOnes(words: Words, w: Width, from: nat, n: nat)
    requires forall k :: words(k) == MAX_UINT64
    ensures Slice(words, w, from, n) == Pow2(n) - 1
    decreases n
  {
    if n > 0 {
      hide Shr, Pow2;
      OnesShifted(from % w);
      SliceOfOnes(words, w, from + 1, n - 1);
      Pow2One();
      Pow2Sum(1, n - 1);
    }
  }

  lemma OnesShifted(r: nat)
    requires r < 64
    ensures Shr(MAX_UINT64, r) % 2 == 1
  {
    hide Pow2;
    Pow2Is64();
    Pow2Sum(64 - r, r);
    Pow2One();
    Pow2Sum(1, 63 - r);
    var q, p := Pow2(64 - r), Pow2(r);
    assert (q - 1) * p == q * p - p;
    DivModUnique(MAX_UINT64, q - 1, p, p - 1);
  }

  /** As many bits are taken as are asked for, except that a bool takes one bit. */
  lemma TakesWhatIsAsked(q: Request)
    ensures q.Bits() == q.nbits <==> (q.AsBool? ==> q.nbits == 1)
  {
  }

  /** The bits of a list of numbers put one after the other again. */
  function Reassembled(words: Words, w: Width, from: nat, qs: seq<Request>): nat
    decreases |qs|
  {
    if qs == [] then 0
    else
      var n := qs[0].Bits();
      Slice(words, w, from, n) + Shl(Reassembled(words, w, from + n, qs[1..]), n)
  }

  /** However the string is cut, the pieces put together are the string. */
  lemma {:induction false} PiecesReassemble(words: Words, w: Width, from: nat, qs: seq<Request>)
    ensures Reassembled(words, w, from, qs) == Slice(words, w, from, TotalBits(qs))
    decreases |qs|
  {
    hide Slice, Shl;
    if qs == [] {
      SliceNone(words, w, from);
    } else {
      PiecesReassemble(words, w, from + qs[0].Bits(), qs[1..]);
      SliceSplit(words, w, from, qs[0].Bits(), TotalBits(qs[1..]));
    }
  }

  // ------------------------------------------------------------------------- requests by size

  /** The number of bits in proportion to a size, which is not limited to the nominal one. */
  function BitsForSize(size: nat, width: nat): nat {
    NotNegative(size, width);
    (size * width + NOMINAL_SIZE / 2) / NOMINAL_SIZE
  }

  lemma NotNegative(size: nat, width: nat)
    ensures 0 <= size * width
  {
  }

  /** A size asks for no more bits than there are exactly when its excess over the nominal one
      amounts to less than half a bit. */
  lemma SizeFits(size: nat, width: nat)
    requires 1 <= width
    ensures BitsForSize(size, width) <= width <==> (size - NOMINAL_SIZE) * width < NOMINAL_SIZE / 2
    ensures size == 0 ==> BitsForSize(size, width) == 0
    ensures size == NOMINAL_SIZE ==> BitsForSize(size, width) == width
  {
    assert (size - NOMINAL_SIZE) * width == size * width - NOMINAL_SIZE * width;
  }

  /** It is the number of bits nearest to the exact proportion, the greater of two that are. */
  lemma NearestBits(size: nat, width: nat, n: nat)
    ensures n == BitsForSize(size, width) <==> -NOMINAL_SIZE <= 2 * (size * width - NOMINAL_SIZE * n) < NOMINAL_SIZE
  {
    NotNegative(size, width);
  }

  /** The product computed for it stays within 32 bits unless far more bits are asked for than
      any request is defined for. */
  lemma SizeOverflows(size: nat, width: Width)
    requires size * width + NOMINAL_SIZE / 2 > 0x7FFF_FFFF
    ensures BitsForSize(size, width) > 2 * BUFFER_BITS
  {
  }

  function SizedRequest(size: nat, width: Width, isSigned: bool): Request {
    if isSigned then AsSigned(BitsForSize(size, width), width) else AsUnsigned(BitsForSize(size, width), width)
  }

  // --------------------------------------------------------------------------------- the class

  class BitStream {
    const words: Words
    const wordBits: Width
    var drawn: nat
    var bits: UInt64
    var numBits: nat

    /** The buffer holds the bits of the last word that have not been handed out. */
    ghost predicate Valid()
      reads this
    {
      && numBits < wordBits
      && (0 < numBits ==> 0 < drawn && bits == Shr(words(drawn - 1), wordBits - numBits))
    }

    /** How many bits have been handed out. */
    ghost function Position(): (p: nat)
      reads this
      requires Valid()
    {
      PositionParts(wordBits, drawn, numBits);
      At(wordBits, drawn, numBits)
    }

    constructor (words: Words, wordBits: Width)
      ensures Valid() && this.words == words && this.wordBits == wordBits && Position() == 0 && drawn == 0
    {
      this.words, this.wordBits, drawn, bits, numBits := words, wordBits, 0, 0, 0;
    }

    /** The loop takes what the buffer has, refilling it when it is empty. A shift of the buffer by
        64 bits leaves a value that is not read; one of the bits for the result would be undefined. */
    method NextUnsigned(nbits: nat, width: Width) returns (r: Drawn<nat>)
      requires Valid()
      modifies this`drawn, this`bits, this`numBits
      ensures r == UnsignedAt(words, wordBits, old(Position()), nbits, width)
      ensures r.Drawn? ==> Valid() && Position() == old(Position()) + nbits
    {
      hide Pow2, Or, And, Shl, Shr, Wrap, BitMask, Slice, Buffered, Gathered, At;
      ghost var start := Position();
      var value: nat := 0;
      SliceNone(words, wordBits, start);
      WrapSmall(0, width);
      PositionParts(wordBits, drawn, numBits);
      var wantBits := nbits;
      while wantBits > 0
        invariant 0 <= wantBits <= nbits && Valid()
        invariant Position() == start + nbits - wantBits
        invariant value == Wrap(Slice(words, wordBits, start, nbits - wantBits), width)
        invariant nbits == wantBits || wantBits == 0 || numBits == 0
        invariant nbits - wantBits <= BUFFER_BITS + Buffered(wordBits, start)
      {
        var got := nbits - wantBits;
        Refills(wordBits, start, got, drawn, numBits);
        if numBits == 0 {
          AtRefill(wordBits, drawn);
          bits := words(drawn);
          drawn := drawn + 1;
          numBits := numBits + wordBits;
          ShrNone(bits);
        }
        if got >= BUFFER_BITS {
          return Undefined;
        }
        var n := if numBits < wantBits then numBits else wantBits;
        TakeBits(words, wordBits, start, got, drawn, numBits, n, bits, width);
        AtTake(wordBits, drawn, numBits, n);
        value := Gathered(value, And(bits, BitMask(wordBits, n)), got, width);
        if n < BUFFER_BITS {
          bits := ShrWord(bits, n);
        } else {
          var unread: UInt64 := *;
          bits := unread;
        }
        numBits := numBits - n;
        wantBits := wantBits - n;
      }
      return Drawn(value);
    }

    /** The last of the bits is the sign; everything above it is set to it. */
    method NextSigned(nbits: nat, width: Width) returns (r: Drawn<int>)
      requires Valid()
      modifies this`drawn, this`bits, this`numBits
      ensures r == SignedAt(words, wordBits, old(Position()), nbits, width)
      ensures r.Drawn? ==> Valid() && Position() == old(Position()) + nbits
    {
      hide Pow2, Or, And, Slice, Signed, Wrap, Shl, Buffered, BitMask;
      if nbits == 0 {
        return Drawn(0);
      }
      ghost var x := Slice(words, wordBits, Position(), nbits);
      SliceBound(words, wordBits, Position(), nbits);
      var pattern :- NextUnsigned(nbits, width);
      if nbits - 1 >= Promoted(width) {
        return Undefined;
      }
      var signBit := Wrap(Shl(1, nbits - 1), width);
      if nbits <= width {
        SignBitInside(width, nbits, x);
      } else {
        SignBitOutside(width, nbits, pattern);
      }
      if And(pattern, signBit) != 0 {
        pattern := Or(pattern, Pow2(width) - 1 - BitMask(width, nbits));
      }
      return Drawn(Signed(width, pattern));
    }

    method NextBool(nbits: nat) returns (value: bool)
      requires Valid()
      modifies this`drawn, this`bits, this`numBits
      ensures Valid() && Position() == old(Position()) + 1
      ensures value <==> BitAt(words, wordBits, old(Position())) == 1
      ensures Position() == old(Position()) + nbits <==> nbits == 1
    {
      hide BitAt, Buffered;
      ghost var from := Position();
      ExactWhenFits(words, wordBits, from, AsUnsigned(1, 32));
      SliceNone(words, wordBits, from + 1);
      OneBit(words, wordBits, from);
      var x := NextUnsigned(1, 32);
      value := x.value != 0;
    }

    method NextRequest(q: Request) returns (r: Drawn<int>)
      requires Valid()
      modifies this`drawn, this`bits, this`numBits
      ensures r == Value(words, wordBits, old(Position()), q)
      ensures r.Drawn? ==> Valid() && Position() == old(Position()) + q.Bits()
    {
      hide Slice, Signed, UnsignedAt, SignedAt, BitAt;
      match q {
        case AsUnsigned(nbits, width) =>
          var x :- NextUnsigned(nbits, width);
          r := Drawn(x);
        case AsSigned(nbits, width) =>
          r := NextSigned(nbits, width);
        case AsBool(nbits) =>
          OneBit(words, wordBits, Position());
          var b := NextBool(nbits);
          r := Drawn(if b then 1 else 0);
      }
    }

    /** Any series of requests gets the consecutive slices of the bit string, unless one of them is
        undefined, and no more words are drawn than it takes to have that many bits. */
    method NextAll(qs: seq<Request>) returns (r: Drawn<seq<int>>)
      requires Valid()
      modifies this`drawn, this`bits, this`numBits
      ensures r == Values(words, wordBits, old(Position()), qs)
      ensures r.Drawn? ==>
        && Valid() && Position() == old(Position()) + TotalBits(qs)
        && drawn == (Position() + wordBits - 1) / wordBits
    {
      hide Value;
      ghost var start := Position();
      var values: seq<int> := [];
      var rest := qs;
      PrependNothing(Values(words, wordBits, start, qs));
      while rest != []
        invariant Valid()
        invariant Position() + TotalBits(rest) == start + TotalBits(qs)
        invariant Values(words, wordBits, start, qs) == Prepend(values, Values(words, wordBits, Position(), rest))
        decreases |rest|
      {
        ghost var from := Position();
        ValuesStep(words, wordBits, from, values, rest);
        var value :- NextRequest(rest[0]);
        values := values + [value];
        rest := rest[1..];
      }
      WordsDrawn(wordBits, drawn, numBits);
      assert values + [] == values;
      return Drawn(values);
    }

    /** Asks for a number of bits in proportion to the size, be it more than the type has. */
    method NextWithSize(size: nat, width: Width, isSigned: bool) returns (r: Drawn<int>)
      requires Valid()
      modifies this`drawn, this`bits, this`numBits
      ensures r == Value(words, wordBits, old(Position()), SizedRequest(size, width, isSigned))
      ensures r.Drawn? ==> Valid() && Position() == old(Position()) + BitsForSize(size, width)
    {
      r := NextRequest(SizedRequest(size, width, isSigned));
    }
  }

  function Prepend(xs: seq<int>, d: Drawn<seq<int>>): Drawn<seq<int>> {
    match d
    case Drawn(ys) => Drawn(xs + ys)
    case Undefined => Undefined
  }

  lemma PrependNothing(d: Drawn<seq<int>>)
    ensures Prepend([], d) == d
  {
    if d.Drawn? {
      assert [] + d.value == d.value;
    }
  }

  lemma ValuesStep(words: Words, w: Width, from: nat, xs: seq<int>, qs: seq<Request>)
    requires qs != []
    ensures Prepend(xs, Values(words, w, from, qs))
         == match Value(words, w, from, qs[0])
            case Drawn(v) => Prepend(xs + [v], Values(words, w, from + qs[0].Bits(), qs[1..]))
            case Undefined => Undefined
  {
    hide Value;
    var v, d := Value(words, w, from, qs[0]), Values(words, w, from + qs[0].Bits(), qs[1..]);
    if v.Drawn? && d.Drawn? {
      assert xs + ([v.value] + d.value) == xs + [v.value] + d.value;
    }
  }

  // ------------------------------------------------------------------------ positions and words

  /** The position when that many words have been drawn and that many bits of the last are left. */
  function At(w: Width, drawn: nat, numBits: nat): int {
    drawn * w - numBits
  }

  lemma AtRefill(w: Width, drawn: nat)
    ensures At(w, drawn + 1, w) == At(w, drawn, 0)
  {
  }

  lemma AtTake(w: Width, drawn: nat, numBits: nat, n: nat)
    requires n <= numBits
    ensures At(w, drawn, numBits - n) == At(w, drawn, numBits) + n
  {
  }

  lemma PositionParts(w: Width, drawn: nat, numBits: nat)
    requires numBits < w && (0 < numBits ==> 0 < drawn)
    ensures 0 <= At(w, drawn, numBits) && Buffered(w, At(w, drawn, numBits)) == numBits
  {
    hide Buffered;
    MulMonotone(0, drawn, w);
    if numBits == 0 {
      DivModUnique(drawn * w, drawn, w, 0);
      BufferedIs(w, drawn * w);
    } else {
      var p := (drawn - 1) * w + (w - numBits);
      assert At(w, drawn, numBits) == p;
      MulMonotone(0, drawn - 1, w);
      DivModUnique(p, drawn - 1, w, w - numBits);
      BufferedIs(w, p);
    }
  }

  lemma BufferedIs(w: Width, p: nat)
    ensures Buffered(w, p) == if p % w == 0 then 0 else w - p % w
  {
    DivMod(p, w);
    if p % w == 0 {
      DivModUnique(w, 1, w, 0);
    } else {
      DivModUnique(w - p % w, 0, w, w - p % w);
    }
  }

  lemma WordsDrawn(w: Width, drawn: nat, numBits: nat)
    requires numBits < w
    ensures (At(w, drawn, numBits) + w - 1) / w == drawn
  {
    MulMonotone(0, drawn, w);
    DivModUnique(drawn * w - numBits + w - 1, drawn, w, w - 1 - numBits);
  }

  lemma Aligned(w: Width, start: nat, got: nat, drawn: nat)
    requires drawn * w == start + got
    ensures got % w == Buffered(w, start)
  {
    hide Buffered;
    var q, r := start / w, start % w;
    DivMod(start, w);
    BufferedIs(w, start);
    assert drawn * w - q * w == (drawn - q) * w;
    if q >= drawn {
      MulMonotone(0, q - drawn, w);
      DivModUnique(got, 0, w, 0);
    } else if r == 0 {
      DivModUnique(got, drawn - q, w, 0);
    } else {
      assert (drawn - q) * w == (drawn - q - 1) * w + w;
      DivModUnique(got, drawn - q - 1, w, w - r);
    }
  }

  lemma WholeWords(w: Width) returns (n: nat)
    ensures n * w == BUFFER_BITS
  {
    n := BUFFER_BITS / w;
  }

  /** At a refill the bits taken so far are those that were buffered and some whole words, which
      fill 64 bits evenly. */
  lemma Refills(w: Width, start: nat, got: nat, drawn: nat, numBits: nat)
    requires numBits < w && (0 < numBits ==> 0 < drawn) && At(w, drawn, numBits) == start + got
    requires got == 0 || numBits == 0
    ensures got < BUFFER_BITS ==>
      got + (if numBits == 0 then w else numBits) <= BUFFER_BITS + Buffered(w, start)
    ensures got >= BUFFER_BITS ==> got >= BUFFER_BITS + Buffered(w, start)
  {
    if numBits > 0 {
      PositionParts(w, drawn, numBits);
    } else {
      hide Buffered;
      var m := WholeWords(w);
      Aligned(w, start, got, drawn);
      DivMod(got, w);
      if got < BUFFER_BITS {
        if got / w >= m {
          MulMonotone(m, got / w, w);
        }
        MulMonotone(got / w + 1, m, w);
        assert (got / w + 1) * w == (got / w) * w + w;
      } else {
        DivAtLeast(got, w, m);
        MulMonotone(m, got / w, w);
      }
    }
  }

  /** Or-ing in the n low bits of what is left of word k extends the slice gathered so far. */
  lemma TakeBits(words: Words, w: Width, from: nat, got: nat,
                 drawn: nat, numBits: nat, n: nat, bits: UInt64, width: Width)
    requires 1 <= n <= numBits <= w && 0 < drawn && At(w, drawn, numBits) == from + got
    requires bits == Shr(words(drawn - 1), w - numBits)
    ensures Gathered(Wrap(Slice(words, w, from, got), width), And(bits, BitMask(w, n)), got, width)
         == Wrap(Slice(words, w, from, got + n), width)
    ensures Shr(bits, n) == Shr(words(drawn - 1), w - (numBits - n))
  {
    hide Pow2, Or, And, Shl, Shr, Wrap, BitMask, Slice;
    var k, r := drawn - 1, w - numBits;
    assert k * w + r == At(w, drawn, numBits);
    MaskKeeps(bits, w, n);
    MulMonotone(0, k, w);
    WordSlice(words, w, k, k * w, r, n);
    SliceSplit(words, w, from, got, n);
    SliceBound(words, w, from, got);
    var acc, part := Slice(words, w, from, got), Shl(Slice(words, w, from + got, n), got);
    AccumulateGroup(acc, Slice(words, w, from + got, n), got, width);
    WrapOr(Wrap(acc, width), Wrap(part, BUFFER_BITS), width);
    WrapWrap(acc, width, width);
    WrapWrap(part, BUFFER_BITS, width);
    ShrShr(words(k), r, n);
  }

  /** `value |= (x << got)` for a value of the given width. */
  function Gathered(value: nat, x: nat, got: nat, width: Width): nat {
    Wrap(Or(value, Wrap(Shl(x, got), BUFFER_BITS)), width)
  }

  lemma SliceNone(words: Words, w: Width, from: nat)
    ensures Slice(words, w, from, 0) == 0
    ensures Slice(words, w, from, 1) == BitAt(words, w, from)
  {
    assert Slice(words, w, from + 1, 0) == 0;
  }

  lemma OneBit(words: Words, w: Width, from: nat)
    ensures 0 <= BitAt(words, w, from) <= 1
  {
  }

  lemma ShrNone(x: nat)
    ensures Shr(x, 0) == x
  {
  }

  lemma ShrShr(x: nat, m: nat, n: nat)
    ensures Shr(Shr(x, m), n) == Shr(x, m + n)
  {
    DivDiv(x, Pow2(m), Pow2(n));
    Pow2Sum(m, n);
  }

  function ShrWord(x: UInt64, n: nat): UInt64 {
    DivBound(x, Pow2(n));
    Shr(x, n)
  }

  lemma MaskKeeps(x: UInt64, w: Width, n: nat)
    requires 1 <= n <= w
    ensures And(x, BitMask(w, n)) == Wrap(x, n)
  {
    hide Pow2, And, Wrap;
    MaskValue(w, n);
    AndMask(x, n);
  }

  lemma SignBitInside(width: Width, nbits: nat, x: nat)
    requires 1 <= nbits <= width && x < Pow2(nbits)
    ensures Wrap(x, width) == x && BitMask(width, nbits) < Pow2(width)
    ensures Signed(nbits, x)
         == Signed(width, if And(x, Wrap(Shl(1, nbits - 1), width)) != 0 then Or(x, Pow2(width) - 1 - BitMask(width, nbits))
                          else x)
  {
    hide Pow2, Or, And, Signed;
    Pow2Grows(nbits, width);
    Pow2Grows(nbits - 1, width);
    Pow2One();
    Pow2Sum(1, nbits - 1);
    WrapSmall(x, width);
    WrapSmall(Pow2(nbits - 1), width);
    SignExtension(width, nbits, x);
    MaskValue(width, nbits);
  }

  lemma SignBitOutside(width: Width, nbits: nat, pattern: nat)
    requires width < nbits
    ensures And(pattern, Wrap(Shl(1, nbits - 1), width)) == 0
  {
    hide Pow2;
    Pow2Sum(nbits - 1 - width, width);
    DivModUnique(Pow2(nbits - 1), Pow2(nbits - 1 - width), Pow2(width), 0);
    AndZero(pattern);
  }
}
