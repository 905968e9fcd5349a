/** Threefish-256 as section 3.3 of "The Skein Hash Function Family", version 1.3, defines it
    (rounds with an explicit word permutation, a subkey every four rounds), its inverse, and
    the permutation-free unrolled form in which the generator computes it. */
module Threefish {
  import opened Bits

  /** The `std::array<uint64_t, 4>` that serves as key, as plaintext and as block. */
  datatype Block = Block(w0: UInt64, w1: UInt64, w2: UInt64, w3: UInt64)

  datatype Tweak = Tweak(t0: UInt64, t1: UInt64)

  const KEY_SCHEDULE_PARITY: UInt64 := 0x1BD1_1BDA_A9FC_1A22
  const ROUNDS: nat := 72

  /** The tweak the generator always uses. */
  const TWEAK := Tweak(13, 37)

  // ---------------------------------------------------------------- the cipher of the paper

  function KeyWord(key: Block, i: nat): UInt64 {
    match i % 5
    case 0 => key.w0
    case 1 => key.w1
    case 2 => key.w2
    case 3 => key.w3
    case _ => Xor64(Xor64(Xor64(Xor64(key.w0, key.w1), key.w2), key.w3), KEY_SCHEDULE_PARITY)
  }

  function TweakWord(tweak: Tweak, i: nat): UInt64 {
    match i % 3
    case 0 => tweak.t0
    case 1 => tweak.t1
    case _ => Xor64(tweak.t0, tweak.t1)
  }

  /** The s-th of the 19 scheduled subkeys. */
  function Subkey(key: Block, tweak: Tweak, s: nat): Block
    requires s <= ROUNDS / 4
  {
    Block(KeyWord(key, s),
          Add64(KeyWord(key, s + 1), TweakWord(tweak, s)),
          Add64(KeyWord(key, s + 2), TweakWord(tweak, s + 1)),
          Add64(KeyWord(key, s + 3), s))
  }

  /** The two rotation amounts of round d. */
  function Rotation(d: nat): (r: (nat, nat))
    ensures 0 < r.0 < 64 && 0 < r.1 < 64
  {
    match d % 8
    case 0 => (14, 16)
    case 1 => (52, 57)
    case 2 => (23, 40)
    case 3 => (5, 37)
    case 4 => (25, 33)
    case 5 => (46, 12)
    case 6 => (58, 22)
    case _ => (32, 32)
  }

  function Mix(x: UInt64, y: UInt64, r: nat): (UInt64, UInt64)
    requires 0 < r < 64
  {
    (Add64(x, y), Xor64(RotL64(y, r), Add64(x, y)))
  }

  function Plus(v: Block, k: Block): Block {
    Block(Add64(v.w0, k.w0), Add64(v.w1, k.w1), Add64(v.w2, k.w2), Add64(v.w3, k.w3))
  }

  /** Two MIX operations followed by the word permutation 0, 3, 2, 1. */
  function MixAndPermute(v: Block, d: nat): Block {
    var (f0, f1) := Mix(v.w0, v.w1, Rotation(d).0);
    var (f2, f3) := Mix(v.w2, v.w3, Rotation(d).1);
    Block(f0, f3, f2, f1)
  }

  function Round(key: Block, tweak: Tweak, d: nat, v: Block): Block
    requires d < ROUNDS
  {
    MixAndPermute(if d % 4 == 0 then Plus(v, Subkey(key, tweak, d / 4)) else v, d)
  }

  /** The state after the first d rounds. */
  function Rounds(key: Block, tweak: Tweak, d: nat, v: Block): Block
    requires d <= ROUNDS
  {
    if d == 0 then v else Round(key, tweak, d - 1, Rounds(key, tweak, d - 1, v))
  }

  function Encrypt(key: Block, tweak: Tweak, v: Block): Block {
    Plus(Rounds(key, tweak, ROUNDS, v), Subkey(key, tweak, ROUNDS / 4))
  }

  // ---------------------------------------------------------------------------- its inverse

  function Unmix(y: UInt64, z: UInt64, r: nat): (UInt64, UInt64)
    requires 0 < r < 64
  {
    var x1 := RotL64(Xor64(z, y), 64 - r);
    (Sub64(y, x1), x1)
  }

  function Minus(v: Block, k: Block): Block {
    Block(Sub64(v.w0, k.w0), Sub64(v.w1, k.w1), Sub64(v.w2, k.w2), Sub64(v.w3, k.w3))
  }

  function UnpermuteAndUnmix(v: Block, d: nat): Block {
    var (x0, x1) := Unmix(v.w0, v.w3, Rotation(d).0);
    var (x2, x3) := Unmix(v.w2, v.w1, Rotation(d).1);
    Block(x0, x1, x2, x3)
  }

  function Unround(key: Block, tweak: Tweak, d: nat, v: Block): Block
    requires d < ROUNDS
  {
    var e := UnpermuteAndUnmix(v, d);
    if d % 4 == 0 then Minus(e, Subkey(key, tweak, d / 4)) else e
  }

  function Unrounds(key: Block, tweak: Tweak, d: nat, v: Block): Block
    requires d <= ROUNDS
  {
    if d == 0 then v else Unrounds(key, tweak, d - 1, Unround(key, tweak, d - 1, v))
  }

  function Decrypt(key: Block, tweak: Tweak, c: Block): Block {
    Unrounds(key, tweak, ROUNDS, Minus(c, Subkey(key, tweak, ROUNDS / 4)))
  }

  lemma UnmixMix(x: UInt64, y: UInt64, r: nat)
    requires 0 < r < 64
    ensures Unmix(Mix(x, y, r).0, Mix(x, y, r).1, r) == (x, y)
  {
    XorCancels(RotL64(y, r), Add64(x, y));
    RotateBack(y, r);
  }

  lemma MixUnmix(y: UInt64, z: UInt64, r: nat)
    requires 0 < r < 64
    ensures Mix(Unmix(y, z, r).0, Unmix(y, z, r).1, r) == (y, z)
  {
    XorCancels(z, y);
    RotateBack(Xor64(z, y), 64 - r);
  }

  lemma UnroundRound(key: Block, tweak: Tweak, d: nat, v: Block)
    requires d < ROUNDS
    ensures Unround(key, tweak, d, Round(key, tweak, d, v)) == v
    ensures Round(key, tweak, d, Unround(key, tweak, d, v)) == v
  {
    hide Mix, Unmix, Rotation, Subkey, Add64, Sub64;
    var e := if d % 4 == 0 then Plus(v, Subkey(key, tweak, d / 4)) else v;
    UnmixMix(e.w0, e.w1, Rotation(d).0);
    UnmixMix(e.w2, e.w3, Rotation(d).1);
    MixUnmix(v.w0, v.w3, Rotation(d).0);
    MixUnmix(v.w2, v.w1, Rotation(d).1);
    if d % 4 == 0 {
      PlusMinus(v, Subkey(key, tweak, d / 4));
      PlusMinus(UnpermuteAndUnmix(v, d), Subkey(key, tweak, d / 4));
    }
  }

  lemma PlusMinus(v: Block, k: Block)
    ensures Minus(Plus(v, k), k) == v == Plus(Minus(v, k), k)
  {
  }

  lemma {:induction false} UnroundsRounds(key: Block, tweak: Tweak, d: nat, v: Block)
    requires d <= ROUNDS
    ensures Unrounds(key, tweak, d, Rounds(key, tweak, d, v)) == v
  {
    hide Round, Unround;
    if d > 0 {
      UnroundRound(key, tweak, d - 1, Rounds(key, tweak, d - 1, v));
      UnroundsRounds(key, tweak, d - 1, v);
    }
  }

  lemma {:induction false} RoundsUnrounds(key: Block, tweak: Tweak, d: nat, v: Block)
    requires d <= ROUNDS
    ensures Rounds(key, tweak, d, Unrounds(key, tweak, d, v)) == v
  {
    hide Round, Unround;
    if d > 0 {
      RoundsUnrounds(key, tweak, d - 1, Unround(key, tweak, d - 1, v));
      UnroundRound(key, tweak, d - 1, v);
    }
  }

  /** Under every key and tweak, Encrypt is a bijection on blocks and Decrypt is its inverse. */
  lemma Bijective(key: Block, tweak: Tweak, v: Block)
    ensures Decrypt(key, tweak, Encrypt(key, tweak, v)) == v
    ensures Encrypt(key, tweak, Decrypt(key, tweak, v)) == v
  {
    hide Rounds, Unrounds, Plus, Minus, Subkey;
    var k := Subkey(key, tweak, ROUNDS / 4);
    PlusMinus(Rounds(key, tweak, ROUNDS, v), k);
    PlusMinus(v, k);
    UnroundsRounds(key, tweak, ROUNDS, v);
    RoundsUnrounds(key, tweak, ROUNDS, Minus(v, k));
  }

  // ----------------------------------------------------- the form the generator computes it in

  /** Eight rounds on words that stay where they are: in odd rounds word 0 is mixed with word 3
      and word 2 with word 1, which is what the permutation would have brought about. The first
      half adds the subkey whose words are k0, k1 + t0, k2 + t1 and k3 + s, the second half
      the next one. The original repeats these lines nine times. */
  method MixEightRounds(v: Block, k0: UInt64, k1: UInt64, k2: UInt64, k3: UInt64, k4: UInt64,
                        t0: UInt64, t1: UInt64, t2: UInt64, s: nat)
    returns (b0: UInt64, b1: UInt64, b2: UInt64, b3: UInt64)
    requires s < 18
    ensures Block(b0, b1, b2, b3)
         == EightRounds(v, Block(k0, Add64(k1, t0), Add64(k2, t1), Add64(k3, s)),
                        Block(k1, Add64(k2, t1), Add64(k3, t2), Add64(k4, s + 1)))
  {
    hide Add64, Xor64, RotL64;
    b0, b1, b2, b3 := v.w0, v.w1, v.w2, v.w3;

    AddSwap(b0, Add64(b1, Add64(k1, t0)), k0);
    AddAssoc(Add64(b3, Add64(k3, s)), k2, t1);
    AddSwap(b2, Add64(b3, Add64(k3, s)), Add64(k2, t1));
    b1 := Add64(b1, Add64(k1, t0));
    b0 := Add64(b0, Add64(b1, k0));
    b1 := Xor64(RotL64(b1, 14), b0);
    b3 := Add64(b3, Add64(k3, s));
    b2 := Add64(b2, Add64(Add64(b3, k2), t1));
    b3 := Xor64(RotL64(b3, 16), b2);
    b0 := Add64(b0, b3);
    b3 := Xor64(RotL64(b3, 52), b0);
    b2 := Add64(b2, b1);
    b1 := Xor64(RotL64(b1, 57), b2);
    b0 := Add64(b0, b1);
    b1 := Xor64(RotL64(b1, 23), b0);
    b2 := Add64(b2, b3);
    b3 := Xor64(RotL64(b3, 40), b2);
    b0 := Add64(b0, b3);
    b3 := Xor64(RotL64(b3, 5), b0);
    b2 := Add64(b2, b1);
    b1 := Xor64(RotL64(b1, 37), b2);

    AddSwap(b0, Add64(b1, Add64(k2, t1)), k1);
    AddAssoc(Add64(b3, Add64(k4, s + 1)), k3, t2);
    AddSwap(b2, Add64(b3, Add64(k4, s + 1)), Add64(k3, t2));
    b1 := Add64(b1, Add64(k2, t1));
    b0 := Add64(b0, Add64(b1, k1));
    b1 := Xor64(RotL64(b1, 25), b0);
    b3 := Add64(b3, Add64(k4, s + 1));
    b2 := Add64(b2, Add64(Add64(b3, k3), t2));
    b3 := Xor64(RotL64(b3, 33), b2);
    b0 := Add64(b0, b3);
    b3 := Xor64(RotL64(b3, 46), b0);
    b2 := Add64(b2, b1);
    b1 := Xor64(RotL64(b1, 12), b2);
    b0 := Add64(b0, b1);
    b1 := Xor64(RotL64(b1, 58), b0);
    b2 := Add64(b2, b3);
    b3 := Xor64(RotL64(b3, 22), b2);
    b0 := Add64(b0, b3);
    b3 := Xor64(RotL64(b3, 32), b0);
    b2 := Add64(b2, b1);
    b1 := Xor64(RotL64(b1, 32), b2);
  }

  /** Rounds 8g to 8g + 7 of the paper with the two subkeys passed in. */
  function EightRounds(v: Block, even: Block, odd: Block): Block {
    var u := MixAndPermute(MixAndPermute(MixAndPermute(MixAndPermute(Plus(v, even), 0), 1), 2), 3);
    MixAndPermute(MixAndPermute(MixAndPermute(MixAndPermute(Plus(u, odd), 4), 5), 6), 7)
  }

  lemma AddSwap(x: UInt64, y: UInt64, z: UInt64)
    ensures Add64(x, Add64(y, z)) == Add64(Add64(x, z), y)
  {
  }

  lemma AddAssoc(x: UInt64, y: UInt64, z: UInt64)
    ensures Add64(Add64(x, y), z) == Add64(x, Add64(y, z))
  {
  }

  lemma RotationPeriod(d: nat, e: nat)
    requires d % 8 == e % 8
    ensures MixAndPermute.requires(Block(0, 0, 0, 0), d)
    ensures forall v :: MixAndPermute(v, d) == MixAndPermute(v, e)
  {
  }

  lemma EightRoundsOfTheCipher(key: Block, tweak: Tweak, v: Block, g: nat)
    requires g < 9
    ensures Rounds(key, tweak, 8 * g + 8, v)
         == EightRounds(Rounds(key, tweak, 8 * g, v), Subkey(key, tweak, 2 * g), Subkey(key, tweak, 2 * g + 1))
  {
    hide Plus, Subkey, MixAndPermute;
    var d := 8 * g;
    RotationPeriod(d, 0);
    RotationPeriod(d + 1, 1);
    RotationPeriod(d + 2, 2);
    RotationPeriod(d + 3, 3);
    RotationPeriod(d + 4, 4);
    RotationPeriod(d + 5, 5);
    RotationPeriod(d + 6, 6);
    RotationPeriod(d + 7, 7);
    var w := Plus(Rounds(key, tweak, d, v), Subkey(key, tweak, 2 * g));
    assert Rounds(key, tweak, d + 4, v) == MixAndPermute(MixAndPermute(MixAndPermute(MixAndPermute(w, 0), 1), 2), 3) by {
      assert Rounds(key, tweak, d + 2, v) == MixAndPermute(MixAndPermute(w, 0), 1);
    }
    var u := Plus(Rounds(key, tweak, d + 4, v), Subkey(key, tweak, 2 * g + 1));
    assert Rounds(key, tweak, d + 6, v) == MixAndPermute(MixAndPermute(u, 4), 5);
  }

  /** One group of eight rounds, given that its key words are those the schedule prescribes. */
  lemma NextGroup(key: Block, tweak: Tweak, start: Block, g: nat, v: Block, even: Block, odd: Block)
    requires g < 9 && v == Rounds(key, tweak, 8 * g, start)
    requires even == Subkey(key, tweak, 2 * g) && odd == Subkey(key, tweak, 2 * g + 1)
    ensures EightRounds(v, even, odd) == Rounds(key, tweak, 8 * (g + 1), start)
  {
    hide EightRounds, Rounds, Subkey;
    EightRoundsOfTheCipher(key, tweak, start, g);
    assert 8 * (g + 1) == 8 * g + 8;
  }

  /** The generator's unrolled computation, group after group, encrypts (bits, counter, 0, 0). */
  method Mash(key: Block, bits: UInt64, counter: UInt64) returns (output: Block)
    ensures output == Encrypt(key, Tweak(13, 37), Block(bits, counter, 0, 0))
  {
    hide Add64, Xor64, EightRounds, Rounds, Subkey;
    var b0, b1, b2, b3 := bits, counter, 0, 0;
    var k0, k1, k2, k3 := key.w0, key.w1, key.w2, key.w3;
    var k4 := Xor64(Xor64(Xor64(Xor64(k0, k1), k2), k3), KEY_SCHEDULE_PARITY);
    ghost var tweak := TWEAK;
    var t0, t1: UInt64 := 13, 37;
    var t2 := Xor64(t0, t1);
    ghost var start := Block(b0, b1, b2, b3);
    RoundsStart(key, tweak, start);

    NextGroupWords(key, tweak, start, 0, Block(b0, b1, b2, b3), k0, k1, k2, k3, k4, t0, t1, t2);
    b0, b1, b2, b3 := MixEightRounds(Block(b0, b1, b2, b3), k0, k1, k2, k3, k4, t0, t1, t2, 0);
    NextGroupWords(key, tweak, start, 1, Block(b0, b1, b2, b3), k2, k3, k4, k0, k1, t2, t0, t1);
    b0, b1, b2, b3 := MixEightRounds(Block(b0, b1, b2, b3), k2, k3, k4, k0, k1, t2, t0, t1, 2);
    NextGroupWords(key, tweak, start, 2, Block(b0, b1, b2, b3), k4, k0, k1, k2, k3, t1, t2, t0);
    b0, b1, b2, b3 := MixEightRounds(Block(b0, b1, b2, b3), k4, k0, k1, k2, k3, t1, t2, t0, 4);
    NextGroupWords(key, tweak, start, 3, Block(b0, b1, b2, b3), k1, k2, k3, k4, k0, t0, t1, t2);
    b0, b1, b2, b3 := MixEightRounds(Block(b0, b1, b2, b3), k1, k2, k3, k4, k0, t0, t1, t2, 6);
    NextGroupWords(key, tweak, start, 4, Block(b0, b1, b2, b3), k3, k4, k0, k1, k2, t2, t0, t1);
    b0, b1, b2, b3 := MixEightRounds(Block(b0, b1, b2, b3), k3, k4, k0, k1, k2, t2, t0, t1, 8);
    NextGroupWords(key, tweak, start, 5, Block(b0, b1, b2, b3), k0, k1, k2, k3, k4, t1, t2, t0);
    b0, b1, b2, b3 := MixEightRounds(Block(b0, b1, b2, b3), k0, k1, k2, k3, k4, t1, t2, t0, 10);
    NextGroupWords(key, tweak, start, 6, Block(b0, b1, b2, b3), k2, k3, k4, k0, k1, t0, t1, t2);
    b0, b1, b2, b3 := MixEightRounds(Block(b0, b1, b2, b3), k2, k3, k4, k0, k1, t0, t1, t2, 12);
    NextGroupWords(key, tweak, start, 7, Block(b0, b1, b2, b3), k4, k0, k1, k2, k3, t2, t0, t1);
    b0, b1, b2, b3 := MixEightRounds(Block(b0, b1, b2, b3), k4, k0, k1, k2, k3, t2, t0, t1, 14);
    NextGroupWords(key, tweak, start, 8, Block(b0, b1, b2, b3), k1, k2, k3, k4, k0, t1, t2, t0);
    b0, b1, b2, b3 := MixEightRounds(Block(b0, b1, b2, b3), k1, k2, k3, k4, k0, t1, t2, t0, 16);

    LastSubkey(key, tweak);
    output := Block(Add64(b0, k3), Add64(Add64(b1, k4), t0), Add64(Add64(b2, k0), t1), Add64(Add64(b3, k1), 18));
    AddAssoc(b1, k4, t0);
    AddAssoc(b2, k0, t1);
    AddAssoc(b3, k1, 18);
  }

  lemma RoundsStart(key: Block, tweak: Tweak, v: Block)
    ensures Rounds(key, tweak, 8 * 0, v) == v
  {
  }

  lemma LastSubkey(key: Block, tweak: Tweak)
    ensures Subkey(key, tweak, 18) == Block(KeyWord(key, 3), Add64(KeyWord(key, 4), tweak.t0),
                                     Add64(KeyWord(key, 0), tweak.t1), Add64(KeyWord(key, 1), 18))
  {
    hide Add64, Xor64;
  }

  /** NextGroup for key and tweak words that are passed in rotated. */
  lemma NextGroupWords(key: Block, tweak: Tweak, start: Block, g: nat, v: Block,
                       k0: UInt64, k1: UInt64, k2: UInt64, k3: UInt64, k4: UInt64,
                       t0: UInt64, t1: UInt64, t2: UInt64)
    requires g < 9 && v == Rounds(key, tweak, 8 * g, start)
    requires k0 == KeyWord(key, 2 * g) && k1 == KeyWord(key, 2 * g + 1) && k2 == KeyWord(key, 2 * g + 2)
    requires k3 == KeyWord(key, 2 * g + 3) && k4 == KeyWord(key, 2 * g + 4)
    requires t0 == TweakWord(tweak, 2 * g) && t1 == TweakWord(tweak, 2 * g + 1) && t2 == TweakWord(tweak, 2 * g + 2)
    ensures EightRounds(v, Block(k0, Add64(k1, t0), Add64(k2, t1), Add64(k3, 2 * g)),
                        Block(k1, Add64(k2, t1), Add64(k3, t2), Add64(k4, 2 * g + 1)))
         == Rounds(key, tweak, 8 * (g + 1), start)
  {
    hide EightRounds, Rounds, KeyWord, TweakWord, Add64;
    NextGroup(key, tweak, start, g, v, Subkey(key, tweak, 2 * g), Subkey(key, tweak, 2 * g + 1));
  }
}
