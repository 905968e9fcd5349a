/** Threefish-256 run on the machine's own words, and with it the answers published for the cipher. */
module ThreefishVectors {
  import opened Bits
  import opened Threefish
  import opened MachineWords
  import opened SplittableRandom
  import opened RandomStreams

  function BlockOf(x0: bv64, x1: bv64, x2: bv64, x3: bv64): Block {
    Block(Value(x0), Value(x1), Value(x2), Value(x3))
  }

  /** The rounds from n / 3 up to m / 3, each in three phases: its sums, its rotations, and its
      exclusive ors with the permutation. Every phase only does what one instruction does to a word. */
  function Run(n: nat, m: nat, x0: bv64, x1: bv64, x2: bv64, x3: bv64): Block
    decreases m - n
  {
    if n >= m then BlockOf(x0, x1, x2, x3)
    else if n % 3 == 0 then Run(n + 1, m, x0 + x1, x1, x2 + x3, x3)
    else if n % 3 == 2 then Run(n + 1, m, x0, x3 ^ x2, x2, x1 ^ x0)
    else
      match n / 3
      case 0 => Run(n + 1, m, x0, (x1 << 14) | (x1 >> 50), x2, (x3 << 16) | (x3 >> 48))
      case 1 => Run(n + 1, m, x0, (x1 << 52) | (x1 >> 12), x2, (x3 << 57) | (x3 >> 7))
      case 2 => Run(n + 1, m, x0, (x1 << 23) | (x1 >> 41), x2, (x3 << 40) | (x3 >> 24))
      case 3 => Run(n + 1, m, x0, (x1 << 5) | (x1 >> 59), x2, (x3 << 37) | (x3 >> 27))
      case 4 => Run(n + 1, m, x0, (x1 << 25) | (x1 >> 39), x2, (x3 << 33) | (x3 >> 31))
      case 5 => Run(n + 1, m, x0, (x1 << 46) | (x1 >> 18), x2, (x3 << 12) | (x3 >> 52))
      case 6 => Run(n + 1, m, x0, (x1 << 58) | (x1 >> 6), x2, (x3 << 22) | (x3 >> 42))
      case _ => Run(n + 1, m, x0, (x1 << 32) | (x1 >> 32), x2, (x3 << 32) | (x3 >> 32))
  }

  // ------------------------------------------------------------------ it is the cipher's rounds

  lemma Rotated5(b: bv64)
    ensures RotatedBy(b, 5) == (b << 5) | (b >> 59)
  {
  }

  lemma Rotated12(b: bv64)
    ensures RotatedBy(b, 12) == (b << 12) | (b >> 52)
  {
  }

  lemma Rotated14(b: bv64)
    ensures RotatedBy(b, 14) == (b << 14) | (b >> 50)
  {
  }

  lemma Rotated16(b: bv64)
    ensures RotatedBy(b, 16) == (b << 16) | (b >> 48)
  {
  }

  lemma Rotated22(b: bv64)
    ensures RotatedBy(b, 22) == (b << 22) | (b >> 42)
  {
  }

  lemma Rotated23(b: bv64)
    ensures RotatedBy(b, 23) == (b << 23) | (b >> 41)
  {
  }

  lemma Rotated25(b: bv64)
    ensures RotatedBy(b, 25) == (b << 25) | (b >> 39)
  {
  }

  lemma Rotated32(b: bv64)
    ensures RotatedBy(b, 32) == (b << 32) | (b >> 32)
  {
  }

  lemma Rotated33(b: bv64)
    ensures RotatedBy(b, 33) == (b << 33) | (b >> 31)
  {
  }

  lemma Rotated37(b: bv64)
    ensures RotatedBy(b, 37) == (b << 37) | (b >> 27)
  {
  }

  lemma Rotated40(b: bv64)
    ensures RotatedBy(b, 40) == (b << 40) | (b >> 24)
  {
  }

  lemma Rotated46(b: bv64)
    ensures RotatedBy(b, 46) == (b << 46) | (b >> 18)
  {
  }

  lemma Rotated52(b: bv64)
    ensures RotatedBy(b, 52) == (b << 52) | (b >> 12)
  {
  }

  lemma Rotated57(b: bv64)
    ensures RotatedBy(b, 57) == (b << 57) | (b >> 7)
  {
  }

  lemma Rotated58(b: bv64)
    ensures RotatedBy(b, 58) == (b << 58) | (b >> 6)
  {
  }

  lemma SumPhase(n: nat, m: nat, x0: bv64, x1: bv64, x2: bv64, x3: bv64)
    requires n < m && n % 3 == 0
    ensures Run(n, m, x0, x1, x2, x3) == Run(n + 1, m, SumOf(x0, x1), x1, SumOf(x2, x3), x3)
  {
  }

  lemma XorPhase(n: nat, m: nat, x0: bv64, x1: bv64, x2: bv64, x3: bv64)
    requires n < m && n % 3 == 2
    ensures Run(n, m, x0, x1, x2, x3) == Run(n + 1, m, x0, XorOf(x3, x2), x2, XorOf(x1, x0))
  {
  }

  lemma TurnPhase(n: nat, m: nat, x0: bv64, x1: bv64, x2: bv64, x3: bv64)
    requires n < m && n < 24 && n % 3 == 1
    ensures Run(n, m, x0, x1, x2, x3)
         == Run(n + 1, m, x0, RotatedBy(x1, Rotation(n / 3).0), x2, RotatedBy(x3, Rotation(n / 3).1))
  {
    hide RotatedBy;
    match n / 3 {
      case 0 =>
        Rotated14(x1);
        Rotated16(x3);
      case 1 =>
        Rotated52(x1);
        Rotated57(x3);
      case 2 =>
        Rotated23(x1);
        Rotated40(x3);
      case 3 =>
        Rotated5(x1);
        Rotated37(x3);
      case 4 =>
        Rotated25(x1);
        Rotated33(x3);
      case 5 =>
        Rotated46(x1);
        Rotated12(x3);
      case 6 =>
        Rotated58(x1);
        Rotated22(x3);
      case _ =>
        Rotated32(x1);
        Rotated32(x3);
    }
  }

  lemma RunEnds(n: nat, x0: bv64, x1: bv64, x2: bv64, x3: bv64)
    ensures Run(n, n, x0, x1, x2, x3) == BlockOf(x0, x1, x2, x3)
  {
  }

  /** Three phases make a round. */
  lemma RunRound(d: nat, m: nat, x0: bv64, x1: bv64, x2: bv64, x3: bv64)
    returns (y0: bv64, y1: bv64, y2: bv64, y3: bv64)
    requires d < 8 && 3 * d + 3 <= m
    ensures Run(3 * d, m, x0, x1, x2, x3) == Run(3 * (d + 1), m, y0, y1, y2, y3)
    ensures MixAndPermute(BlockOf(x0, x1, x2, x3), d) == BlockOf(y0, y1, y2, y3)
  {
    hide Run, Value, SumOf, XorOf, RotatedBy, Add64, Xor64, RotL64, Rotation;
    var r0, r1 := Rotation(d).0, Rotation(d).1;
    y0, y2 := SumOf(x0, x1), SumOf(x2, x3);
    y1, y3 := XorOf(RotatedBy(x3, r1), y2), XorOf(RotatedBy(x1, r0), y0);
    SumPhase(3 * d, m, x0, x1, x2, x3);
    TurnPhase(3 * d + 1, m, y0, x1, y2, x3);
    XorPhase(3 * d + 2, m, y0, RotatedBy(x1, r0), y2, RotatedBy(x3, r1));
    OperatorsAgree(x0, x1);
    OperatorsAgree(x2, x3);
    RotatedValue(x1, r0);
    RotatedValue(x3, r1);
    OperatorsAgree(RotatedBy(x1, r0), y0);
    OperatorsAgree(RotatedBy(x3, r1), y2);
  }

  /** Twelve phases make the four rounds between two subkeys. */
  lemma RunFour(d: nat, x0: bv64, x1: bv64, x2: bv64, x3: bv64)
    requires d == 0 || d == 4
    ensures MixAndPermute(MixAndPermute(MixAndPermute(MixAndPermute(BlockOf(x0, x1, x2, x3), d), d + 1), d + 2), d + 3)
         == Run(3 * d, 3 * d + 12, x0, x1, x2, x3)
  {
    hide Run, BlockOf, MixAndPermute;
    var m := 3 * d + 12;
    var a0, a1, a2, a3 := RunRound(d, m, x0, x1, x2, x3);
    var b0, b1, b2, b3 := RunRound(d + 1, m, a0, a1, a2, a3);
    var c0, c1, c2, c3 := RunRound(d + 2, m, b0, b1, b2, b3);
    var f0, f1, f2, f3 := RunRound(d + 3, m, c0, c1, c2, c3);
    RunEnds(m, f0, f1, f2, f3);
  }

  lemma NextRound(key: Block, tweak: Tweak, v: Block, d: nat, e: nat)
    requires d < ROUNDS && d % 8 == e % 8
    ensures var u := Rounds(key, tweak, d, v);
            Rounds(key, tweak, d + 1, v) == MixAndPermute(Keyed(key, tweak, d, u), e)
  {
    hide Plus, Subkey, MixAndPermute;
    RotationPeriod(d, e);
  }

  function Keyed(key: Block, tweak: Tweak, d: nat, u: Block): Block
    requires d < ROUNDS
  {
    if d % 4 == 0 then Plus(u, Subkey(key, tweak, d / 4)) else u
  }

  /** The block after the next four rounds, from the block after the subkey has been added. */
  lemma FourMore(key: Block, tweak: Tweak, v: Block, s: nat, e: nat)
    requires s < 18 && e == 4 * (s % 2)
    ensures var u := Plus(Rounds(key, tweak, 4 * s, v), Subkey(key, tweak, s));
            Rounds(key, tweak, 4 * (s + 1), v)
              == MixAndPermute(MixAndPermute(MixAndPermute(MixAndPermute(u, e), e + 1), e + 2), e + 3)
  {
    hide Plus, Subkey, MixAndPermute, Rounds;
    NextRound(key, tweak, v, 4 * s, e);
    NextRound(key, tweak, v, 4 * s + 1, e + 1);
    NextRound(key, tweak, v, 4 * s + 2, e + 2);
    NextRound(key, tweak, v, 4 * s + 3, e + 3);
    assert 4 * s + 3 + 1 == 4 * (s + 1);
  }

  /** Four rounds from literal words y, which have the subkey added, to literal words f. */
  lemma EvenFour(key: Block, tweak: Tweak, v: Block, s: nat, y0: bv64, y1: bv64, y2: bv64, y3: bv64,
                 f0: bv64, f1: bv64, f2: bv64, f3: bv64)
    requires s < 18 && s % 2 == 0
    requires Plus(Rounds(key, tweak, 4 * s, v), Subkey(key, tweak, s)) == BlockOf(y0, y1, y2, y3)
    requires Run(0, 12, y0, y1, y2, y3) == BlockOf(f0, f1, f2, f3)
    ensures Rounds(key, tweak, 4 * (s + 1), v) == BlockOf(f0, f1, f2, f3)
  {
    hide BlockOf, Run, Rounds, Plus, Subkey, MixAndPermute;
    FourMore(key, tweak, v, s, 0);
    RunFour(0, y0, y1, y2, y3);
  }

  lemma OddFour(key: Block, tweak: Tweak, v: Block, s: nat, y0: bv64, y1: bv64, y2: bv64, y3: bv64,
                f0: bv64, f1: bv64, f2: bv64, f3: bv64)
    requires s < 18 && s % 2 == 1
    requires Plus(Rounds(key, tweak, 4 * s, v), Subkey(key, tweak, s)) == BlockOf(y0, y1, y2, y3)
    requires Run(12, 24, y0, y1, y2, y3) == BlockOf(f0, f1, f2, f3)
    ensures Rounds(key, tweak, 4 * (s + 1), v) == BlockOf(f0, f1, f2, f3)
  {
    hide BlockOf, Run, Rounds, Plus, Subkey, MixAndPermute;
    FourMore(key, tweak, v, s, 4);
    RunFour(4, y0, y1, y2, y3);
  }

  lemma XorIs(a: bv64, b: bv64, c: bv64)
    requires XorOf(a, b) == c
    ensures Xor64(Value(a), Value(b)) == Value(c)
  {
    hide Xor, XorOf, Value;
    OperatorsAgree(a, b);
  }

  // ------------------------------------------------------------------------- known answers

  // Key, tweak and text are all zero.

  const ZERO_KEY := Block(0, 0, 0, 0)
  const ZERO_TWEAK := Tweak(0, 0)
  const ZERO_TEXT := Block(0, 0, 0, 0)

  lemma ZeroXors()
    ensures KeyWord(ZERO_KEY, 4) == 0x1BD11BDAA9FC1A22 && TweakWord(ZERO_TWEAK, 2) == 0
  {
    hide Xor64;
    XorIs(0, 0, 0);
    XorIs(0, 0, 0);
    XorIs(0, 0, 0);
    XorIs(0, 0x1BD11BDAA9FC1A22, 0x1BD11BDAA9FC1A22);
    XorIs(0, 0, 0);
  }

  lemma ZeroRounds8()
    ensures Rounds(ZERO_KEY, ZERO_TWEAK, 8, ZERO_TEXT)
         == BlockOf(0x1EA302AB48203EC4, 0xEC4F5F584D27D4ED, 0xCEB2E889A2B2DBF5, 0xE166F5A0F28889F7)
  {
    RoundsStart(ZERO_KEY, ZERO_TWEAK, ZERO_TEXT);
    ZeroXors();
    hide Xor64, MixAndPermute, Rounds;
    EvenFour(ZERO_KEY, ZERO_TWEAK, ZERO_TEXT, 0, 0, 0, 0, 0,
      0, 0, 0, 0);
    OddFour(ZERO_KEY, ZERO_TWEAK, ZERO_TEXT, 1, 0, 0, 0, 0x1BD11BDAA9FC1A23,
      0x1EA302AB48203EC4, 0xEC4F5F584D27D4ED, 0xCEB2E889A2B2DBF5, 0xE166F5A0F28889F7);
  }

  lemma ZeroRounds16()
    ensures Rounds(ZERO_KEY, ZERO_TWEAK, 16, ZERO_TEXT)
         == BlockOf(0x3B990EB01D392BE7, 0xF2619FFF64551D63, 0x6E57BBDF621ED96C, 0x163B5111349A2736)
  {
    ZeroRounds8();
    ZeroXors();
    hide Xor64, MixAndPermute, Rounds;
    EvenFour(ZERO_KEY, ZERO_TWEAK, ZERO_TEXT, 2,
      0x1EA302AB48203EC4, 0xEC4F5F584D27D4ED, 0xEA8404644CAEF617, 0xE166F5A0F28889F9,
      0x0068C71D9376B741, 0x243817C6A469BCA2, 0xEAE334BACAEEDB8E, 0x4E8FDCFAEDB0C1B8);
    OddFour(ZERO_KEY, ZERO_TWEAK, ZERO_TEXT, 3,
      0x0068C71D9376B741, 0x400933A14E65D6C4, 0xEAE334BACAEEDB8E, 0x4E8FDCFAEDB0C1BB,
      0x3B990EB01D392BE7, 0xF2619FFF64551D63, 0x6E57BBDF621ED96C, 0x163B5111349A2736);
  }

  lemma ZeroRounds24()
    ensures Rounds(ZERO_KEY, ZERO_TWEAK, 24, ZERO_TEXT)
         == BlockOf(0x75BECBAC289FD112, 0x9BC4D61B72F26549, 0xEA674D074A8C7DC7, 0x5DC974355B899CE0)
  {
    ZeroRounds16();
    ZeroXors();
    hide Xor64, MixAndPermute, Rounds;
    EvenFour(ZERO_KEY, ZERO_TWEAK, ZERO_TEXT, 4,
      0x576A2A8AC7354609, 0xF2619FFF64551D63, 0x6E57BBDF621ED96C, 0x163B5111349A273A,
      0x09218EBDE6C85537, 0x55941F5266D86105, 0x4BD25E16282434DC, 0xEE29EC846BD2E406);
    OddFour(ZERO_KEY, ZERO_TWEAK, ZERO_TEXT, 5,
      0x09218EBDE6C85537, 0x55941F5266D86105, 0x4BD25E16282434DC, 0xEE29EC846BD2E40B,
      0x75BECBAC289FD112, 0x9BC4D61B72F26549, 0xEA674D074A8C7DC7, 0x5DC974355B899CE0);
  }

  lemma ZeroRounds32()
    ensures Rounds(ZERO_KEY, ZERO_TWEAK, 32, ZERO_TEXT)
         == BlockOf(0x2A3EBD4B5A5F589D, 0x95881B47736C3C80, 0x5FBD71FE2DF78A00, 0x5FD0D6377784A4FE)
  {
    ZeroRounds24();
    ZeroXors();
    hide Xor64, MixAndPermute, Rounds;
    EvenFour(ZERO_KEY, ZERO_TWEAK, ZERO_TEXT, 6,
      0x75BECBAC289FD112, 0x9BC4D61B72F26549, 0xEA674D074A8C7DC7, 0x799A90100585B708,
      0xBC084BCCBBF1BA0E, 0x533DF3019C970D94, 0x2E88371B2A4325AD, 0xF8786AFE3637AAD5);
    OddFour(ZERO_KEY, ZERO_TWEAK, ZERO_TEXT, 7,
      0xBC084BCCBBF1BA0E, 0x533DF3019C970D94, 0x4A5952F5D43F3FCF, 0xF8786AFE3637AADC,
      0x2A3EBD4B5A5F589D, 0x95881B47736C3C80, 0x5FBD71FE2DF78A00, 0x5FD0D6377784A4FE);
  }

  lemma ZeroRounds40()
    ensures Rounds(ZERO_KEY, ZERO_TWEAK, 40, ZERO_TEXT)
         == BlockOf(0x79AB69A98327020F, 0xEEC7739F146C75DD, 0x96330B5BAD75D64D, 0x3C8057C188A320EB)
  {
    ZeroRounds32();
    ZeroXors();
    hide Xor64, MixAndPermute, Rounds;
    EvenFour(ZERO_KEY, ZERO_TWEAK, ZERO_TEXT, 8,
      0x2A3EBD4B5A5F589D, 0xB15937221D6856A2, 0x5FBD71FE2DF78A00, 0x5FD0D6377784A506,
      0x9815125C9E04E420, 0x11E186DB543B0CE7, 0xA7CC195A60EEC71D, 0x184E040B0C5E1079);
    OddFour(ZERO_KEY, ZERO_TWEAK, ZERO_TEXT, 9,
      0xB3E62E374800FE42, 0x11E186DB543B0CE7, 0xA7CC195A60EEC71D, 0x184E040B0C5E1082,
      0x79AB69A98327020F, 0xEEC7739F146C75DD, 0x96330B5BAD75D64D, 0x3C8057C188A320EB);
  }

  lemma ZeroRounds48()
    ensures Rounds(ZERO_KEY, ZERO_TWEAK, 48, ZERO_TEXT)
         == BlockOf(0xF1674E8F910A5AF7, 0x54AE0662FD869FF5, 0xC2D6BE5490A2F31D, 0xAD0215BA1F6118BA)
  {
    ZeroRounds40();
    ZeroXors();
    hide Xor64, MixAndPermute, Rounds;
    EvenFour(ZERO_KEY, ZERO_TWEAK, ZERO_TEXT, 10,
      0x79AB69A98327020F, 0xEEC7739F146C75DD, 0x96330B5BAD75D64D, 0x3C8057C188A320F5,
      0xE3428610322D2839, 0xDDC8F40AEACC94F4, 0x634B07BBAC5150AE, 0xC42FFF334A4E08AE);
    OddFour(ZERO_KEY, ZERO_TWEAK, ZERO_TEXT, 11,
      0xE3428610322D2839, 0xDDC8F40AEACC94F4, 0x634B07BBAC5150AE, 0xE0011B0DF44A22DB,
      0xF1674E8F910A5AF7, 0x54AE0662FD869FF5, 0xC2D6BE5490A2F31D, 0xAD0215BA1F6118BA);
  }

  lemma ZeroRounds56()
    ensures Rounds(ZERO_KEY, ZERO_TWEAK, 56, ZERO_TEXT)
         == BlockOf(0x0AF0E94A6AD8FE03, 0x855778F01D3A5DBA, 0x7C5414A788D46CE2, 0x8010C5830EAF53EB)
  {
    ZeroRounds48();
    ZeroXors();
    hide Xor64, MixAndPermute, Rounds;
    EvenFour(ZERO_KEY, ZERO_TWEAK, ZERO_TEXT, 12,
      0xF1674E8F910A5AF7, 0x54AE0662FD869FF5, 0xDEA7DA2F3A9F0D3F, 0xAD0215BA1F6118C6,
      0x3503EABC847BCF44, 0xD3A005B13AA97C6A, 0x3CB919639CBA484D, 0xB13F787D38DC988A);
    OddFour(ZERO_KEY, ZERO_TWEAK, ZERO_TEXT, 13,
      0x3503EABC847BCF44, 0xEF71218BE4A5968C, 0x3CB919639CBA484D, 0xB13F787D38DC9897,
      0x0AF0E94A6AD8FE03, 0x855778F01D3A5DBA, 0x7C5414A788D46CE2, 0x8010C5830EAF53EB);
  }

  lemma ZeroRounds64()
    ensures Rounds(ZERO_KEY, ZERO_TWEAK, 64, ZERO_TEXT)
         == BlockOf(0x9156884E44DDF84D, 0x94AD5A0B66F4F446, 0xBE14150AA6B1F75E, 0x9DE6FFA80CDEDED4)
  {
    ZeroRounds56();
    ZeroXors();
    hide Xor64, MixAndPermute, Rounds;
    EvenFour(ZERO_KEY, ZERO_TWEAK, ZERO_TEXT, 14,
      0x26C2052514D51825, 0x855778F01D3A5DBA, 0x7C5414A788D46CE2, 0x8010C5830EAF53F9,
      0xED3B9A96CBB06F43, 0xB3E093499AE8B471, 0x3367DC12DFBFC0ED, 0x74BE4A7FE55C56F2);
    OddFour(ZERO_KEY, ZERO_TWEAK, ZERO_TEXT, 15,
      0xED3B9A96CBB06F43, 0xB3E093499AE8B471, 0x3367DC12DFBFC0ED, 0x74BE4A7FE55C5701,
      0x9156884E44DDF84D, 0x94AD5A0B66F4F446, 0xBE14150AA6B1F75E, 0x9DE6FFA80CDEDED4);
  }

  lemma ZeroRounds72()
    ensures Rounds(ZERO_KEY, ZERO_TWEAK, 72, ZERO_TEXT)
         == BlockOf(0x94EEEA8B1F2ADA84, 0x921FE75694B24C4E, 0x952419A1F4B16D53, 0xD83F13E63C9F6AFF)
  {
    ZeroRounds64();
    ZeroXors();
    hide Xor64, MixAndPermute, Rounds;
    EvenFour(ZERO_KEY, ZERO_TWEAK, ZERO_TEXT, 16,
      0x9156884E44DDF84D, 0x94AD5A0B66F4F446, 0xBE14150AA6B1F75E, 0xB9B81B82B6DAF906,
      0xFB9BAA7C4BB6D4D0, 0x63161811CF835089, 0x21C28134F38E5DB0, 0xE801D2EBF0CAEE8A);
    OddFour(ZERO_KEY, ZERO_TWEAK, ZERO_TEXT, 17,
      0xFB9BAA7C4BB6D4D0, 0x63161811CF835089, 0x3D939D0F9D8A77D2, 0xE801D2EBF0CAEE9B,
      0x94EEEA8B1F2ADA84, 0x921FE75694B24C4E, 0x952419A1F4B16D53, 0xD83F13E63C9F6AFF);
  }

  lemma ZeroVector()
    ensures Encrypt(Block(0, 0, 0, 0), Tweak(0, 0), Block(0, 0, 0, 0))
         == Block(0x94EEEA8B1F2ADA84, 0xADF103313EAE6670, 0x952419A1F4B16D53, 0xD83F13E63C9F6B11)
  {
    ZeroRounds72();
    ZeroXors();
    hide Xor64, Rounds;
    assert Encrypt(ZERO_KEY, ZERO_TWEAK, ZERO_TEXT)
        == Block(0x94EEEA8B1F2ADA84, 0xADF103313EAE6670, 0x952419A1F4B16D53, 0xD83F13E63C9F6B11);
  }

  // Their bytes are all different.

  const RISING_KEY := Block(0x1716151413121110, 0x1F1E1D1C1B1A1918, 0x2726252423222120, 0x2F2E2D2C2B2A2928)
  const RISING_TWEAK := Tweak(0x0706050403020100, 0x0F0E0D0C0B0A0908)
  const RISING_TEXT := Block(0xF8F9FAFBFCFDFEFF, 0xF0F1F2F3F4F5F6F7, 0xE8E9EAEBECEDEEEF, 0xE0E1E2E3E4E5E6E7)

  lemma RisingXors()
    ensures KeyWord(RISING_KEY, 4) == 0x1BD11BDAA9FC1A22 && TweakWord(RISING_TWEAK, 2) == 0x0808080808080808
  {
    hide Xor64;
    XorIs(0x1716151413121110, 0x1F1E1D1C1B1A1918, 0x0808080808080808);
    XorIs(0x0808080808080808, 0x2726252423222120, 0x2F2E2D2C2B2A2928);
    XorIs(0x2F2E2D2C2B2A2928, 0x2F2E2D2C2B2A2928, 0);
    XorIs(0, 0x1BD11BDAA9FC1A22, 0x1BD11BDAA9FC1A22);
    XorIs(0x0706050403020100, 0x0F0E0D0C0B0A0908, 0x0808080808080808);
  }

  lemma RisingRounds8()
    ensures Rounds(RISING_KEY, RISING_TWEAK, 8, RISING_TEXT)
         == BlockOf(0x91E19CB9B414FF47, 0xF416175EB4332409, 0x55D880D20BDF0D86, 0xA9EEA0647E35C393)
  {
    RoundsStart(RISING_KEY, RISING_TWEAK, RISING_TEXT);
    RisingXors();
    hide Xor64, MixAndPermute, Rounds;
    EvenFour(RISING_KEY, RISING_TWEAK, RISING_TEXT, 0,
      0x101010101010100F, 0x171615141312110F, 0x1F1E1D1C1B1A1917, 0x101010101010100F,
      0x0FAAD314D98B9DA1, 0xF660B054A04B61D2, 0x3148EB59F64A38E0, 0x41B63FB829A52D09);
    OddFour(RISING_KEY, RISING_TWEAK, RISING_TEXT, 1,
      0x2EC8F030F4A5B6B9, 0x2C94E284CE778BFA, 0x687F208E297C6A10, 0x5D875B92D3A1472C,
      0x91E19CB9B414FF47, 0xF416175EB4332409, 0x55D880D20BDF0D86, 0xA9EEA0647E35C393);
  }

  lemma RisingRounds16()
    ensures Rounds(RISING_KEY, RISING_TWEAK, 16, RISING_TEXT)
         == BlockOf(0x74FA3B44186E578B, 0x9973994CB7D8434A, 0xD2658A809F67EA48, 0x296634FA54A0A40E)
  {
    RisingRounds8();
    RisingXors();
    hide Xor64, MixAndPermute, Rounds;
    EvenFour(RISING_KEY, RISING_TWEAK, RISING_TEXT, 2,
      0xB907C1DDD7372067, 0x2B4C4C92E7655539, 0x78AFA1B0B8DD28A8, 0xC104B5789147D4A5,
      0x5A71A0EF8D31D028, 0x0A1911AD35BA5CF9, 0x80BCFBBE0E40C60A, 0x0AEA2A96B341600A);
    OddFour(RISING_KEY, RISING_TWEAK, RISING_TEXT, 3,
      0x899FCE1BB85BF950, 0x2CF0328BE2B8781B, 0xA6E11DDE2C5CE022, 0x2A0847B2CE5B7925,
      0x74FA3B44186E578B, 0x9973994CB7D8434A, 0xD2658A809F67EA48, 0x296634FA54A0A40E);
  }

  lemma RisingRounds24()
    ensures Rounds(RISING_KEY, RISING_TWEAK, 24, RISING_TEXT)
         == BlockOf(0xE6C603935695472E, 0x6B82E956F0D349C1, 0xA7828756156A33EF, 0xD3FCB4B4006A4DC2)
  {
    RisingRounds16();
    RisingXors();
    hide Xor64, MixAndPermute, Rounds;
    EvenFour(RISING_KEY, RISING_TWEAK, RISING_TEXT, 4,
      0x90CB571EC26A71AD, 0xBF97BB6CD5F45D62, 0xF98BAFA4C28A0B68, 0x508C5A1E77C2C532,
      0xE976E24905AF8C90, 0xF656EF99FF44C6B8, 0x2EDDB6C15FDA451B, 0x85771AE0350F8845);
    OddFour(RISING_KEY, RISING_TWEAK, RISING_TEXT, 5,
      0x008CF75D18C19DA0, 0x1D7D14BE2266E7D8, 0x5D09E0E985FE673B, 0xB4A5480C6039B172,
      0xE6C603935695472E, 0x6B82E956F0D349C1, 0xA7828756156A33EF, 0xD3FCB4B4006A4DC2);
  }

  lemma RisingRounds32()
    ensures Rounds(RISING_KEY, RISING_TWEAK, 32, RISING_TEXT)
         == BlockOf(0x0A4BA6C55FFABE26, 0xB44439CE05A1D630, 0xA7FA44B8BF80B8D5, 0x059F0DE1F3BCBC75)
  {
    RisingRounds24();
    RisingXors();
    hide Xor64, MixAndPermute, Rounds;
    EvenFour(RISING_KEY, RISING_TWEAK, RISING_TEXT, 6,
      0x05E420AF71AF6046, 0x99AF137F16F76BE1, 0xE5BEC18E4B9E661F, 0xEFCDD08EAA6667EA,
      0x2162507EB9FA94AF, 0x7F7209747955537E, 0x4E62A558EF29F0BF, 0xAADB6038AA46ACD5);
    OddFour(RISING_KEY, RISING_TWEAK, RISING_TEXT, 7,
      0x488875A2DD1CB5CF, 0xBDAE43ACAF8985AE, 0x723BC93BA12E12E9, 0xC1F1754CBD58BDEC,
      0x0A4BA6C55FFABE26, 0xB44439CE05A1D630, 0xA7FA44B8BF80B8D5, 0x059F0DE1F3BCBC75);
  }

  lemma RisingRounds40()
    ensures Rounds(RISING_KEY, RISING_TWEAK, 40, RISING_TEXT)
         == BlockOf(0x11F6299989C99344, 0xDA8993A923C06233, 0x7DA96158C1371E1A, 0x373AB342D7B31791)
  {
    RisingRounds32();
    RisingXors();
    hide Xor64, MixAndPermute, Rounds;
    EvenFour(RISING_KEY, RISING_TWEAK, RISING_TEXT, 8,
      0x3979D3F18B24E74E, 0xD81D5DB0B7A5F85A, 0xC6165ED0D594CAE5, 0x24BD2AFE0ED6D595,
      0xC704F0BECA23FF1E, 0xC64C28AA772D3CFB, 0x1FDAF0807D5F3C71, 0x78980C8D0F3F09AE);
    OddFour(RISING_KEY, RISING_TWEAK, RISING_TEXT, 9,
      0xE2D60C9974201940, 0xE46842C28D414F0B, 0x4E071AA8A3835E91, 0x9FBE31B132612AD7,
      0x11F6299989C99344, 0xDA8993A923C06233, 0x7DA96158C1371E1A, 0x373AB342D7B31791);
  }

  lemma RisingRounds48()
    ensures Rounds(RISING_KEY, RISING_TWEAK, 48, RISING_TEXT)
         == BlockOf(0x2E2B79DABDE6F96C, 0x7C194A7BEBB28C47, 0x6BCD2FA6A9176B1F, 0x8396443BA92E73B3)
  {
    RisingRounds40();
    RisingXors();
    hide Xor64, MixAndPermute, Rounds;
    EvenFour(RISING_KEY, RISING_TWEAK, RISING_TEXT, 10,
      0x290C3EAD9CDBA454, 0x08B5BDD149E48453, 0xACD78E84EC614742, 0x6668E06F02DD40C3,
      0xEB099DEA748CF27B, 0xC30FDF24D1C57432, 0x8E05258FEDD0B32E, 0xF29E2F4ED2CCF3D7);
    OddFour(RISING_KEY, RISING_TWEAK, RISING_TEXT, 11,
      0x0A27BB068FA70B93, 0xF23E0C50FCEF9D5A, 0xC43957C01BFCDD56, 0x0E6F4B297CC90E04,
      0x2E2B79DABDE6F96C, 0x7C194A7BEBB28C47, 0x6BCD2FA6A9176B1F, 0x8396443BA92E73B3);
  }

  lemma RisingRounds56()
    ensures Rounds(RISING_KEY, RISING_TWEAK, 56, RISING_TEXT)
         == BlockOf(0x0534EFBA7A96C4E2, 0xAD1827E22CEDC98D, 0xE482538F84CED1D0, 0xE374B5E23A2C207B)
  {
    RisingRounds48();
    RisingXors();
    hide Xor64, MixAndPermute, Rounds;
    EvenFour(RISING_KEY, RISING_TWEAK, RISING_TEXT, 12,
      0x55519EFEE1091A8C, 0xB24D7CAC19DEB66F, 0x96AC588D5E1D8E49, 0x9AAC594FBC4084CF,
      0xA8C290D0A7C14E1E, 0x91FA6C0519F31D98, 0x8993E2844B3E4FAB, 0x611A9018FDA620E5);
    OddFour(RISING_KEY, RISING_TWEAK, RISING_TEXT, 13,
      0xD7F0BDFCD2EB7746, 0xBCD994EBCEF940C2, 0xA8B1FFA0665868C3, 0x8038AD3518C03A0A,
      0x0534EFBA7A96C4E2, 0xAD1827E22CEDC98D, 0xE482538F84CED1D0, 0xE374B5E23A2C207B);
  }

  lemma RisingRounds64()
    ensures Rounds(RISING_KEY, RISING_TWEAK, 64, RISING_TEXT)
         == BlockOf(0xAE158DCC3B55F7E9, 0x68F3BA1E15465759, 0x5215E6E572B26AB1, 0x9D5461E583B752D4)
  {
    RisingRounds56();
    RisingXors();
    hide Xor64, MixAndPermute, Rounds;
    EvenFour(RISING_KEY, RISING_TWEAK, RISING_TEXT, 14,
      0x21060B952492DF04, 0xCC3644FE4807E2A5, 0x0AA675AFA2EAEBE8, 0x0A9ADB065D4E41A9,
      0x87B5EBE899109A9E, 0xB0684E808E05A327, 0x501D9F5EFD1F8079, 0xC91AFA0FAD35C9C0);
    OddFour(RISING_KEY, RISING_TWEAK, RISING_TEXT, 15,
      0x9ECC00FCAC22ABAE, 0xD68C70A0AC21BD3F, 0x8651D18F2B4BAAA1, 0xF849273BD85FF2F7,
      0xAE158DCC3B55F7E9, 0x68F3BA1E15465759, 0x5215E6E572B26AB1, 0x9D5461E583B752D4);
  }

  lemma RisingRounds72()
    ensures Rounds(RISING_KEY, RISING_TWEAK, 72, RISING_TEXT)
         == BlockOf(0xB061BCE2D467A7B8, 0xB233B750399466A7, 0x50D06B37EA416C85, 0xC07941799A3C573B)
  {
    RisingRounds64();
    RisingXors();
    hide Xor64, MixAndPermute, Rounds;
    EvenFour(RISING_KEY, RISING_TWEAK, RISING_TEXT, 16,
      0xCD33AAE856701101, 0x9F27EC4E43728181, 0x894C1C19A5E49BE1, 0xB9257DC02DB36D06,
      0x9DEA7B3B37E0521B, 0x10B06C8CE008857E, 0xA9311C0F0911B765, 0xF555C2FB89426DEF);
    OddFour(RISING_KEY, RISING_TWEAK, RISING_TEXT, 17,
      0xC510A05F5B02733B, 0x47E6A1C1133AB6AE, 0xCC083CEDB60FD287, 0x0C6BD80F9C547F10,
      0xB061BCE2D467A7B8, 0xB233B750399466A7, 0x50D06B37EA416C85, 0xC07941799A3C573B);
  }

  lemma RisingVector()
    ensures Encrypt(Block(0x1716151413121110, 0x1F1E1D1C1B1A1918, 0x2726252423222120, 0x2F2E2D2C2B2A2928),
                    Tweak(0x0706050403020100, 0x0F0E0D0C0B0A0908),
                    Block(0xF8F9FAFBFCFDFEFF, 0xF0F1F2F3F4F5F6F7, 0xE8E9EAEBECEDEEEF, 0xE0E1E2E3E4E5E6E7))
         == Block(0xDF8FEA0EFF91D0E0, 0xD50AD82EE69281C9, 0x76F48D58085D869D, 0xDF975E95B5567065)
  {
    RisingRounds72();
    RisingXors();
    hide Xor64, Rounds;
    assert Encrypt(RISING_KEY, RISING_TWEAK, RISING_TEXT)
        == Block(0xDF8FEA0EFF91D0E0, 0xD50AD82EE69281C9, 0x76F48D58085D869D, 0xDF975E95B5567065);
  }

  // What a default-constructed generator encrypts first.

  const FIRST_KEY := Block(0, 0, 0, 0)
  const FIRST_TWEAK := Tweak(0x000000000000000D, 0x0000000000000025)
  const FIRST_TEXT := Block(0, 0, 0, 0)

  lemma FirstXors()
    ensures KeyWord(FIRST_KEY, 4) == 0x1BD11BDAA9FC1A22 && TweakWord(FIRST_TWEAK, 2) == 0x0000000000000028
  {
    hide Xor64;
    XorIs(0, 0, 0);
    XorIs(0, 0, 0);
    XorIs(0, 0, 0);
    XorIs(0, 0x1BD11BDAA9FC1A22, 0x1BD11BDAA9FC1A22);
    XorIs(0x000000000000000D, 0x0000000000000025, 0x0000000000000028);
  }

  lemma FirstRounds8()
    ensures Rounds(FIRST_KEY, FIRST_TWEAK, 8, FIRST_TEXT)
         == BlockOf(0x971E2147E36152BA, 0xB92F1467483FAC97, 0x5067A6C5C7773189, 0xD1B66CB3449A08CD)
  {
    RoundsStart(FIRST_KEY, FIRST_TWEAK, FIRST_TEXT);
    FirstXors();
    hide Xor64, MixAndPermute, Rounds;
    EvenFour(FIRST_KEY, FIRST_TWEAK, FIRST_TEXT, 0, 0, 0x000000000000000D, 0x0000000000000025, 0,
      0x1C50320250068748, 0x3D98DD201911B323, 0x1C5001A359118748, 0x56567248506E8BC8);
    OddFour(FIRST_KEY, FIRST_TWEAK, FIRST_TEXT, 1,
      0x1C50320250068748, 0x3D98DD201911B348, 0x1C5001A359118770, 0x72278E22FA6AA5EB,
      0x971E2147E36152BA, 0xB92F1467483FAC97, 0x5067A6C5C7773189, 0xD1B66CB3449A08CD);
  }

  lemma FirstRounds16()
    ensures Rounds(FIRST_KEY, FIRST_TWEAK, 16, FIRST_TEXT)
         == BlockOf(0xFD278EFD9E4EB44A, 0xD6ADC76CE0E85272, 0x986E406E6547948B, 0xBF74CC34A73FBA37)
  {
    FirstRounds8();
    FirstXors();
    hide Xor64, MixAndPermute, Rounds;
    EvenFour(FIRST_KEY, FIRST_TWEAK, FIRST_TEXT, 2,
      0x971E2147E36152BA, 0xB92F1467483FACBF, 0x6C38C2A071734BB8, 0xD1B66CB3449A08CF,
      0x9680A9F492A170B2, 0x00C25AE40992C468, 0x8B84B9BCB9EF0555, 0x5B8981FAB6AF7D15);
    OddFour(FIRST_KEY, FIRST_TWEAK, FIRST_TEXT, 3,
      0x9680A9F492A170B2, 0x1C9376BEB38EDE97, 0x8B84B9BCB9EF057A, 0x5B8981FAB6AF7D18,
      0xFD278EFD9E4EB44A, 0xD6ADC76CE0E85272, 0x986E406E6547948B, 0xBF74CC34A73FBA37);
  }

  lemma FirstRounds24()
    ensures Rounds(FIRST_KEY, FIRST_TWEAK, 24, FIRST_TEXT)
         == BlockOf(0xA312DA7DA1265415, 0x78862CB35D2DBAD8, 0x1E27FDB1B69DF31E, 0x8D643681F13D7F30)
  {
    FirstRounds16();
    FirstXors();
    hide Xor64, MixAndPermute, Rounds;
    EvenFour(FIRST_KEY, FIRST_TWEAK, FIRST_TEXT, 4,
      0x18F8AAD8484ACE6C, 0xD6ADC76CE0E85297, 0x986E406E654794B3, 0xBF74CC34A73FBA3B,
      0xE52970C7FC4E286A, 0x026921800BFF0883, 0x72B8F0DD3BE02B72, 0xACFDD52B036ED9BC);
    OddFour(FIRST_KEY, FIRST_TWEAK, FIRST_TEXT, 5,
      0xE52970C7FC4E286A, 0x026921800BFF08AB, 0x72B8F0DD3BE02B7F, 0xACFDD52B036ED9C1,
      0xA312DA7DA1265415, 0x78862CB35D2DBAD8, 0x1E27FDB1B69DF31E, 0x8D643681F13D7F30);
  }

  lemma FirstRounds32()
    ensures Rounds(FIRST_KEY, FIRST_TWEAK, 32, FIRST_TEXT)
         == BlockOf(0xA9655BC6BB0E667E, 0xF5BDFB04333E4C07, 0x2DF53AF04E8E4693, 0xF0992F0274B66363)
  {
    FirstRounds24();
    FirstXors();
    hide Xor64, MixAndPermute, Rounds;
    EvenFour(FIRST_KEY, FIRST_TWEAK, FIRST_TEXT, 6,
      0xA312DA7DA1265415, 0x78862CB35D2DBAE5, 0x1E27FDB1B69DF343, 0xA935525C9B399958,
      0x7D0815A608AF2A24, 0xAA3A3951E759DD6C, 0x4DCE92108FA43F2A, 0xDA57172374729E9F);
    OddFour(FIRST_KEY, FIRST_TWEAK, FIRST_TEXT, 7,
      0x7D0815A608AF2A24, 0xAA3A3951E759DD91, 0x699FADEB39A05974, 0xDA57172374729EA6,
      0xA9655BC6BB0E667E, 0xF5BDFB04333E4C07, 0x2DF53AF04E8E4693, 0xF0992F0274B66363);
  }

  lemma FirstRounds40()
    ensures Rounds(FIRST_KEY, FIRST_TWEAK, 40, FIRST_TEXT)
         == BlockOf(0xEF06F3A96B7687ED, 0x9AF99BF0C6AB3F44, 0xF9D550571DCA71FF, 0xCB20B1ADFC47E73A)
  {
    FirstRounds32();
    FirstXors();
    hide Xor64, MixAndPermute, Rounds;
    EvenFour(FIRST_KEY, FIRST_TWEAK, FIRST_TEXT, 8,
      0xA9655BC6BB0E667E, 0x118F16DEDD3A6651, 0x2DF53AF04E8E46A0, 0xF0992F0274B6636B,
      0x82FD8B8C5E5F26AE, 0x611EDA7C1EDE5D2D, 0x7E1A700F4A4B7D9E, 0xA8F7E20E06D15254);
    OddFour(FIRST_KEY, FIRST_TWEAK, FIRST_TEXT, 9,
      0x9ECEA767085B40D0, 0x611EDA7C1EDE5D3A, 0x7E1A700F4A4B7DC3, 0xA8F7E20E06D1525D,
      0xEF06F3A96B7687ED, 0x9AF99BF0C6AB3F44, 0xF9D550571DCA71FF, 0xCB20B1ADFC47E73A);
  }

  lemma FirstRounds48()
    ensures Rounds(FIRST_KEY, FIRST_TWEAK, 48, FIRST_TEXT)
         == BlockOf(0x776522B78DEB87F6, 0xF35EFF4EFA41749F, 0x6B76FBFA3AFF4BA8, 0x01DD6D80015340C5)
  {
    FirstRounds40();
    FirstXors();
    hide Xor64, MixAndPermute, Rounds;
    EvenFour(FIRST_KEY, FIRST_TWEAK, FIRST_TEXT, 10,
      0xEF06F3A96B7687ED, 0x9AF99BF0C6AB3F69, 0xF9D550571DCA7227, 0xCB20B1ADFC47E744,
      0x39DA176AB22C5081, 0xA357D105D3A47C7C, 0x8899D4BA84C3F848, 0x73901F0BA5910A9A);
    OddFour(FIRST_KEY, FIRST_TWEAK, FIRST_TEXT, 11,
      0x39DA176AB22C5081, 0xA357D105D3A47CA4, 0x8899D4BA84C3F855, 0x8F613AE64F8D24C7,
      0x776522B78DEB87F6, 0xF35EFF4EFA41749F, 0x6B76FBFA3AFF4BA8, 0x01DD6D80015340C5);
  }

  lemma FirstRounds56()
    ensures Rounds(FIRST_KEY, FIRST_TWEAK, 56, FIRST_TEXT)
         == BlockOf(0x05789AFEFFDA349D, 0x3939213253354AA3, 0xB975BE400A4425EE, 0xAC1B0385D0992A19)
  {
    FirstRounds48();
    FirstXors();
    hide Xor64, MixAndPermute, Rounds;
    EvenFour(FIRST_KEY, FIRST_TWEAK, FIRST_TEXT, 12,
      0x776522B78DEB87F6, 0xF35EFF4EFA4174AC, 0x874817D4E4FB65EF, 0x01DD6D80015340D1,
      0x2F40005D63AA7388, 0xEB38277B4059A3FE, 0x0940D916C920F96D, 0x68A96FCEDF86910D);
    OddFour(FIRST_KEY, FIRST_TWEAK, FIRST_TEXT, 13,
      0x2F40005D63AA7388, 0x07094355EA55BE45, 0x0940D916C920F995, 0x68A96FCEDF86911A,
      0x05789AFEFFDA349D, 0x3939213253354AA3, 0xB975BE400A4425EE, 0xAC1B0385D0992A19);
  }

  lemma FirstRounds64()
    ensures Rounds(FIRST_KEY, FIRST_TWEAK, 64, FIRST_TEXT)
         == BlockOf(0x876E77B14E1D2B47, 0x21E5AA585A560121, 0xC0CB7F6BF3882B94, 0xC14AF72A8290CE93)
  {
    FirstRounds56();
    FirstXors();
    hide Xor64, MixAndPermute, Rounds;
    EvenFour(FIRST_KEY, FIRST_TWEAK, FIRST_TEXT, 14,
      0x2149B6D9A9D64EBF, 0x3939213253354ACB, 0xB975BE400A4425FB, 0xAC1B0385D0992A27,
      0x640D76437DB8E6B5, 0x13F8FEEAA5BB6A7D, 0x36F2365DD7889897, 0x3B522EF380B79383);
    OddFour(FIRST_KEY, FIRST_TWEAK, FIRST_TEXT, 15,
      0x640D76437DB8E6B5, 0x13F8FEEAA5BB6A8A, 0x36F2365DD78898BC, 0x3B522EF380B79392,
      0x876E77B14E1D2B47, 0x21E5AA585A560121, 0xC0CB7F6BF3882B94, 0xC14AF72A8290CE93);
  }

  lemma FirstRounds72()
    ensures Rounds(FIRST_KEY, FIRST_TWEAK, 72, FIRST_TEXT)
         == BlockOf(0xAC7F6FA1D77115EC, 0x4CE9FCAC84760EF8, 0xEE2205975F33C5CA, 0x16DE3148F48A6762)
  {
    FirstRounds64();
    FirstXors();
    hide Xor64, MixAndPermute, Rounds;
    EvenFour(FIRST_KEY, FIRST_TWEAK, FIRST_TEXT, 16,
      0x876E77B14E1D2B47, 0x21E5AA585A560146, 0xC0CB7F6BF3882BBC, 0xDD1C13052C8CE8C5,
      0x5D521503EA840A6B, 0x88084521AD65EB5D, 0x75F4EDCFE6C719E2, 0xC0CC0602F1870AD8);
    OddFour(FIRST_KEY, FIRST_TWEAK, FIRST_TEXT, 17,
      0x5D521503EA840A6B, 0x88084521AD65EB85, 0x91C609AA90C33411, 0xC0CC0602F1870AE9,
      0xAC7F6FA1D77115EC, 0x4CE9FCAC84760EF8, 0xEE2205975F33C5CA, 0x16DE3148F48A6762);
  }

  lemma FirstVector()
    ensures Encrypt(Block(0, 0, 0, 0), Tweak(0x000000000000000D, 0x0000000000000025), Block(0, 0, 0, 0))
         == Block(0xAC7F6FA1D77115EC, 0x68BB18872E722927, 0xEE2205975F33C5EF, 0x16DE3148F48A6774)
  {
    FirstRounds72();
    FirstXors();
    hide Xor64, Rounds;
    assert Encrypt(FIRST_KEY, FIRST_TWEAK, FIRST_TEXT)
        == Block(0xAC7F6FA1D77115EC, 0x68BB18872E722927, 0xEE2205975F33C5EF, 0x16DE3148F48A6774);
  }

  /** The first four numbers drawn from a default-constructed generator. */
  lemma FirstNumbers()
    ensures Drawn(Fresh(Block(0, 0, 0, 0)), 0) == 0xAC7F6FA1D77115EC
    ensures Drawn(Fresh(Block(0, 0, 0, 0)), 1) == 0x68BB18872E722927
    ensures Drawn(Fresh(Block(0, 0, 0, 0)), 2) == 0xEE2205975F33C5EF
    ensures Drawn(Fresh(Block(0, 0, 0, 0)), 3) == 0x16DE3148F48A6774
  {
    hide Encrypt, Drawn;
    FirstVector();
    DrawnAt(Fresh(Block(0, 0, 0, 0)), 0);
    DrawnAt(Fresh(Block(0, 0, 0, 0)), 1);
    DrawnAt(Fresh(Block(0, 0, 0, 0)), 2);
    DrawnAt(Fresh(Block(0, 0, 0, 0)), 3);
  }
}
