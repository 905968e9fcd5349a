/** How a recorded failure becomes text: the codecs of Random, Reproduce and the reproduce map,
    and the Base64 string that carries them. */
module ReproduceCodec {
  import opened Bits
  import opened Threefish
  import opened SplittableRandom
  import opened RandomStreams
  import opened Serialization
  import Base64

  // --------------------------------------------------------------------------------- Random

  function KeyWords(key: Block): seq<UInt64> {
    [key.w0, key.w1, key.w2, key.w3]
  }

  /** The cached block is not written. */
  function EncodeRandom(s: RandomState): Bytes {
    EncodeAll(EncodeWord, KeyWords(s.key)) + EncodeCompact(s.bits) + EncodeCompact(s.counter) + [s.bitsi]
  }

  /** Decodes into a generator whose cached block is `block`, which is kept when no number has been
      drawn and recomputed otherwise. Reading the last byte past the end is undefined. */
  function DecodeRandom(block: Block, input: Bytes): (d: Decoded<RandomState>)
    ensures d.Ok? ==> |d.rest| < |input|
  {
    var (words, rest) :- DecodeAll(DecodeWord, 4, input);
    var key := Block(words[0], words[1], words[2], words[3]);
    WordsOutcome(4, input);
    Pow2Is64();
    var (bits, rest) :- DecodeCompact(64, rest);
    var (counter, rest) :- DecodeCompact(64, rest);
    if rest == [] then Undefined
    else Ok(Restored(RandomState(key, block, bits, counter, rest[0]), block), rest[1..])
  }

  /** What decoding makes of an encoded state: everything but the cached block is as it was. */
  function Restored(s: RandomState, block: Block): RandomState {
    s.(block := if s.counter == 0 then block else BlockFor(s.key, s.bits, LastRefill(s.counter)))
  }

  lemma EncodeKey(key: Block, suffix: Bytes)
    ensures DecodeAll(DecodeWord, 4, EncodeAll(EncodeWord, KeyWords(key)) + suffix) == Ok(KeyWords(key), suffix)
  {
    var words := KeyWords(key);
    forall i | 0 <= i < |words| ensures ReadsBack(DecodeWord, EncodeWord(words[i]), words[i]) {
      WordReadsBack(words[i]);
    }
    AllRoundTrip(EncodeWord, DecodeWord, words, suffix);
  }

  lemma RandomRoundTrip(s: RandomState, block: Block, suffix: Bytes)
    ensures DecodeRandom(block, EncodeRandom(s) + suffix) == Ok(Restored(s, block), suffix)
  {
    hide Pow2, EncodeCompact, DecodeCompact, EncodeAll, DecodeAll, BlockFor;
    var tail2 := [s.bitsi] + suffix;
    var tail1 := EncodeCompact(s.counter) + tail2;
    var tail0 := EncodeCompact(s.bits) + tail1;
    assert EncodeRandom(s) + suffix == EncodeAll(EncodeWord, KeyWords(s.key)) + tail0;
    EncodeKey(s.key, tail0);
    Pow2Is64();
    CompactRoundTrip(64, s.bits, tail1);
    CompactRoundTrip(64, s.counter, tail2);
    assert tail2[1..] == suffix;
  }

  /** The state comes back equal exactly when its cached block is the one decoding supplies. */
  lemma RandomEqualRoundTrip(s: RandomState, block: Block, suffix: Bytes)
    requires Inv(s)
    ensures DecodeRandom(block, EncodeRandom(s) + suffix) == Ok(s, suffix) <==> 0 < s.counter || s.block == block
  {
    hide BlockFor;
    RandomRoundTrip(s, block, suffix);
  }

  /** Equal or not, what comes back draws the same numbers in every run, splits included. */
  lemma RandomFutureRoundTrip(s: RandomState, block: Block, suffix: Bytes, steps: seq<Step>)
    requires Inv(s) && CanRun(s, steps)
    ensures var d := DecodeRandom(block, EncodeRandom(s) + suffix);
            d.Ok? && d.rest == suffix && CanRun(d.value, steps) && Numbers(d.value, steps) == Numbers(s, steps)
  {
    hide BlockFor;
    RandomRoundTrip(s, block, suffix);
    SameFuture(s, Restored(s, block), steps);
  }

  /** A draw on which the 64-bit counter wraps. */
  predicate Wraps(s: RandomState, step: Step) {
    step.Next? && s.counter == MAX_UINT64
  }

  predicate NeverWraps(s: RandomState, steps: seq<Step>)
    requires CanRun(s, steps)
    decreases |steps|
  {
    steps != [] ==> !Wraps(s, steps[0]) && NeverWraps(Apply(s, steps[0]), steps[1..])
  }

  /** A state is canonical when decoding its encoding into a fresh generator gives it back. */
  ghost predicate Canonical(s: RandomState) {
    s == Restored(s, ZERO_BLOCK)
  }

  /** Whether decoding recomputes the cached block, or leaves it zero and has it so. */
  predicate DrawnOrUnused(s: RandomState) {
    0 < s.counter || s.block == ZERO_BLOCK
  }

  /** Among states that keep the invariant the canonical ones are told by that alone. */
  lemma CanonicalGuard(s: RandomState)
    requires Inv(s)
    ensures Canonical(s) <==> DrawnOrUnused(s)
  {
    hide BlockFor;
  }

  lemma {:induction false} RunStaysCanonical(s: RandomState, steps: seq<Step>)
    requires Inv(s) && Canonical(s) && CanRun(s, steps) && NeverWraps(s, steps)
    ensures Canonical(Run(s, steps))
    decreases |steps|
  {
    if steps != [] {
      hide BlockFor, Pow2;
      StepKeepsInv(s, steps[0]);
      RunStaysCanonical(Apply(s, steps[0]), steps[1..]);
    }
  }

  /** Everything reached from a fresh generator before its counter wraps survives the codec. */
  lemma ReachableRoundTrip(key: Block, steps: seq<Step>, suffix: Bytes)
    requires CanRun(Fresh(key), steps) && NeverWraps(Fresh(key), steps)
    ensures var s := Run(Fresh(key), steps);
            Canonical(s) && DecodeRandom(ZERO_BLOCK, EncodeRandom(s) + suffix) == Ok(s, suffix)
  {
    hide EncodeRandom, DecodeRandom;
    Pow2Values();
    RunStaysCanonical(Fresh(key), steps);
    RandomRoundTrip(Run(Fresh(key), steps), ZERO_BLOCK, suffix);
  }

  /** The state in which a counter has just wrapped. */
  function Wrapped(s: RandomState): RandomState
    requires s.bitsi <= BITS
  {
    After(s, MAX_UINT64 + 1)
  }

  /** After a wrap equality is lost: for every key at least one of the two halves of the first
      split, having drawn 2^64 numbers, does not come back equal, since its stale block stays. */
  lemma WrapBreaksRoundTrip(key: Block)
    ensures !Canonical(Wrapped(Append(Fresh(key), false))) || !Canonical(Wrapped(Append(Fresh(key), true)))
  {
    hide BlockFor;
    var l, r := Append(Fresh(key), false), Append(Fresh(key), true);
    AfterDraws(l, MAX_UINT64);
    AfterDraws(r, MAX_UINT64);
    Pow2Values();
    AppendBits(Fresh(key), false);
    AppendBits(Fresh(key), true);
    var last := LastRefill(MAX_UINT64);
    if BlockFor(key, l.bits, last) == BlockFor(key, r.bits, last) {
      BlockForInjective(key, l.bits, last, r.bits, last);
    }
    assert Wrapped(l).counter == 0 && Wrapped(l).block == BlockFor(key, l.bits, last);
    assert Wrapped(r).counter == 0 && Wrapped(r).block == BlockFor(key, r.bits, last);
  }

  method SerializeRandom(random: Random, output: Bytes) returns (oit: Bytes)
    ensures oit == output + EncodeRandom(random.State())
  {
    hide EncodeAll, EncodeCompact;
    oit := SerializeN(KeyWords(random.key), output);
    oit := SerializeCompact(random.bits, oit);
    oit := SerializeCompact(random.counter, oit);
    oit := oit + [random.bitsi];
  }

  /** The key with its first words replaced. */
  function Overwritten(key: Block, words: seq<UInt64>): Block
    requires |words| <= 4
  {
    var all := words + KeyWords(key)[|words|..];
    Block(all[0], all[1], all[2], all[3])
  }

  /** What a generator holds after its decoding has met the end of the input: the words of the key
      that were read, and the bits if they were. */
  function Interrupted(s: RandomState, input: Bytes): RandomState {
    var words := WordsRead(4, input);
    var t := s.(key := Overwritten(s.key, words));
    WordsOutcome(4, input);
    Pow2Is64();
    if |words| == 4 && DecodeCompact(64, input[32..]).Ok? then t.(bits := DecodeCompact(64, input[32..]).value)
    else t
  }

  /** Fills `random` in place; its counter is set back for a moment to recompute the block. */
  method DeserializeRandom(random: Random, input: Bytes) returns (d: Decoded<()>)
    modifies random
    ensures match DecodeRandom(old(random.block), input)
            case Ok(s, rest) => random.State() == s && d == Ok((), rest)
            case EndOfInput => random.State() == Interrupted(old(random.State()), input) && d == EndOfInput
            case LengthError => d == LengthError
            case Undefined => d == Undefined
  {
    hide DecodeCompact, DecodeAll, BlockFor, WordsRead;
    var words, written := DeserializeN(4, input);
    WordsOutcome(4, input);
    random.key := Overwritten(random.key, written);
    if !words.Ok? {
      return words.PropagateFailure();
    }
    Pow2Is64();
    var bits :- DeserializeCompact(64, words.rest);
    random.bits := bits.0;
    var counter :- DeserializeCompact(64, bits.1);
    if counter.0 != 0 {
      var blki := (counter.0 - 1) % 4 + 1;
      if blki != 0 {
        random.counter := counter.0 - blki;
        random.block := random.MashBlock();
        assert random.counter == LastRefill(counter.0);
      }
    }
    random.counter := counter.0;
    if counter.1 == [] {
      return Undefined;
    }
    random.bitsi := counter.1[0];
    return Ok((), counter.1[1..]);
  }

  /** A compact integer runs on, or the input ends before the last byte, which is read all the same. */
  ghost predicate LosesItsWay(input: Bytes) {
    && 32 <= |input|
    && (RunsOn(64, input[32..])
        || exists n: nat :: EndsAfter(64, input[32..], n) && LosesItsEnd(input[32 + n..]))
  }

  predicate LosesItsEnd(input: Bytes) {
    RunsOn(64, input) || EndsAfter(64, input, |input|)
  }

  lemma SecondField(input: Bytes)
    ensures var d := DecodeCompact(64, input);
            LosesItsEnd(input) <==> d.Undefined? || (d.Ok? && d.rest == [])
  {
    hide DecodeCompact, RunsOn, EndsAfter;
    CompactOutcome(64, input);
    if DecodeCompact(64, input).Ok? {
      var m: nat :| EndsAfter(64, input, m);
      EndsOnce(input, m);
      if DecodeCompact(64, input).rest == [] {
        assert |input[m..]| == 0;
      }
    }
  }

  /** Decoding a generator is undefined exactly on such inputs. */
  lemma RandomUndefined(block: Block, input: Bytes)
    ensures DecodeRandom(block, input).Undefined? <==> LosesItsWay(input)
  {
    hide DecodeCompact, DecodeAll, BlockFor, RunsOn, EndsAfter, LosesItsEnd;
    WordsOutcome(4, input);
    if 32 <= |input| {
      var first := input[32..];
      CompactOutcome(64, first);
      if DecodeCompact(64, first).Ok? {
        var n: nat :| EndsAfter(64, first, n);
        EndsOnce(first, n);
        assert first[n..] == input[32 + n..];
        SecondField(first[n..]);
      }
    }
  }

  lemma EndsOnce(input: Bytes, n: nat)
    requires EndsAfter(64, input, n)
    ensures n <= |input| && forall m: nat :: EndsAfter(64, input, m) ==> m == n
  {
  }

  // ------------------------------------------------------------------------------ Reproduce

  /** Indices into shrinks and lengths are of type size_t: see FitsSizeT. */
  datatype Reproduce = Reproduce(random: RandomState, size: Int32, shrinkPath: seq<nat>)

  function ToUnsigned(x: Int32): UInt32 {
    if x < 0 then x + 0x1_0000_0000 else x
  }

  function ToSigned(x: UInt32): Int32 {
    if x < 0x8000_0000 then x else x - 0x1_0000_0000
  }

  ghost predicate FitsSizeT(path: seq<nat>) {
    |path| < TWO_TO_THE_64 && forall i :: 0 <= i < |path| ==> path[i] < TWO_TO_THE_64
  }

  function EncodeReproduce(r: Reproduce): Bytes {
    EncodeRandom(r.random) + EncodeFixed(ToUnsigned(r.size), 4) + EncodeRange(r.shrinkPath)
  }

  /** The generator decoded into is a default-constructed one. */
  function DecodeReproduce(input: Bytes): (d: Decoded<Reproduce>)
    ensures d.Ok? ==> |d.rest| < |input|
  {
    var (random, rest) :- DecodeRandom(ZERO_BLOCK, input);
    Pow2Is32();
    FixedOutcome(4, rest);
    var (size, rest) :- DecodeFixed(4, rest);
    DecodeRangeShrinks(rest);
    var (shrinkPath, rest) :- DecodeRange(rest);
    Ok(Reproduce(random, ToSigned(size), shrinkPath), rest)
  }

  lemma Pow2Is32()
    ensures Pow2(8 * 4) == 0x1_0000_0000
  {
    Pow2Values();
    Pow2Sum(8, 8);
    Pow2Sum(16, 16);
  }

  lemma {:induction false} DecodeAllShrinks<T(!new)>(dec: Bytes -> Decoded<T>, n: nat, input: Bytes)
    requires Consumes(dec)
    ensures DecodeAll(dec, n, input).Ok? ==> |DecodeAll(dec, n, input).rest| <= |input|
  {
    if n > 0 && dec(input).Ok? {
      DecodeAllShrinks(dec, n - 1, dec(input).rest);
    }
  }

  lemma DecodeRangeShrinks(input: Bytes)
    ensures DecodeRange(input).Ok? ==> |DecodeRange(input).rest| < |input|
  {
    var count := DecodeCompact(64, input);
    if count.Ok? {
      DecodeAllShrinks(bs => DecodeCompact(64, bs), count.value, count.rest);
    }
  }

  function RestoredReproduce(r: Reproduce): Reproduce {
    r.(random := Restored(r.random, ZERO_BLOCK))
  }

  lemma ReproduceRoundTrip(r: Reproduce, suffix: Bytes)
    requires FitsSizeT(r.shrinkPath)
    ensures DecodeReproduce(EncodeReproduce(r) + suffix) == Ok(RestoredReproduce(r), suffix)
  {
    hide Pow2, EncodeRandom, DecodeRandom, EncodeFixed, DecodeFixed, EncodeRange, DecodeRange, Restored;
    var tail1 := EncodeRange(r.shrinkPath) + suffix;
    var tail0 := EncodeFixed(ToUnsigned(r.size), 4) + tail1;
    assert EncodeReproduce(r) + suffix == EncodeRandom(r.random) + tail0;
    RandomRoundTrip(r.random, ZERO_BLOCK, tail0);
    Pow2Is32();
    Pow2Is64();
    FixedRoundTrip(ToUnsigned(r.size), 4, tail1);
    RangeRoundTrip(r.shrinkPath, suffix);
  }

  method SerializeReproduce(random: Random, size: Int32, shrinkPath: seq<nat>, output: Bytes) returns (oit: Bytes)
    ensures oit == output + EncodeReproduce(Reproduce(random.State(), size, shrinkPath))
  {
    hide EncodeRandom, EncodeFixed, EncodeRange;
    oit := SerializeRandom(random, output);
    oit := SerializeFixed(ToUnsigned(size), 4, oit);
    oit := SerializeRange(shrinkPath, oit);
  }

  /** The record decoded into starts out with a default-constructed generator. */
  method DeserializeReproduce(input: Bytes) returns (d: Decoded<Reproduce>)
    ensures d == DecodeReproduce(input)
  {
    hide DecodeRandom, DecodeFixed, DecodeRange;
    var random := new Random.Default();
    var first :- DeserializeRandom(random, input);
    Pow2Is32();
    var size :- DeserializeFixed(4, first.1);
    var path :- DeserializeRange(size.1);
    return Ok(Reproduce(random.State(), ToSigned(size.0), path.0), path.1);
  }

  // ---------------------------------------------------------------------------- reproduce map

  type ReproduceMap = map<Text, Reproduce>
  type Entry = (Text, Reproduce)

  function EncodeEntry(e: Entry): Bytes {
    EncodeText(e.0) + EncodeReproduce(e.1)
  }

  function DecodeEntry(input: Bytes): (d: Decoded<Entry>)
    ensures d.Ok? ==> |d.rest| < |input|
  {
    DecodePair(DecodeText, DecodeReproduce, input)
  }

  /** `base64Encode` of the serialized map, iterated in the order of `items`. */
  function EntriesToString(items: seq<Entry>): Text {
    Base64.Encode(EncodeMap(EncodeEntry, items))
  }

  const INVALID_FORMAT := "Invalid format"

  /** What reading a string of reproduce entries comes to. Bytes left over are ignored. Only
      SerializationException is turned into a parse error; std::length_error is let through. */
  datatype MapResult =
    | Entries(entries: ReproduceMap)
    | Malformed(pos: nat, message: string)
    | TextTooLong
    | UndefinedBehaviour

  function StringToMap(str: Text): MapResult {
    match Base64.Decode(str)
    case ParseError(pos, message) => Malformed(pos, message)
    case Success(data) =>
      match DecodeMap(DecodeEntry, data)
      case Ok(m, _) => Entries(m)
      case EndOfInput => Malformed(0, INVALID_FORMAT)
      case LengthError => TextTooLong
      case Undefined => UndefinedBehaviour
  }

  const RUNNING_ON: Text := "ACIgACIgACIgACIg"
  const TOO_LONG: Text := "BAIgACIgACIgAGA"

  /** Both outcomes can be had from a command line. The first string stands for twelve bytes that all
      continue the number of entries; the second announces one entry and an identifier of 2^63 characters. */
  lemma BadStrings()
    ensures StringToMap(RUNNING_ON) == UndefinedBehaviour
    ensures StringToMap(TOO_LONG) == TextTooLong
  {
    hide StringToMap, DecodeMap, Base64.Encode, Base64.Decode;
    var full: Bytes := [0x80, 0x80, 0x80];
    EncodedRuns(full);
    Base64.DecodeEncode(full + (full + (full + full)));
    Base64.DecodeEncode([1, 0x80, 0x80] + (full + (full + [0x80, 1])));
    RunsOnForever(full + (full + (full + full)));
    AnnouncesTooMuch([1, 0x80, 0x80] + (full + (full + [0x80, 1])));
    StringToMapOf(RUNNING_ON);
    StringToMapOf(TOO_LONG);
  }

  lemma EncodedRuns(full: Bytes)
    requires full == [0x80, 0x80, 0x80]
    ensures Base64.Encode(full + (full + (full + full))) == RUNNING_ON
    ensures Base64.Encode([1, 0x80, 0x80] + (full + (full + [0x80, 1]))) == TOO_LONG
  {
    hide Base64.Encode, Base64.EncodeGroup;
    EncodedGroups();
    Base64.EncodeFirst(full, []);
    Base64.EncodeFirst([0x80, 1], []);
    assert full + [] == full && [0x80, 1] + [] == [0x80, 1];
    EncodeNothing();
    Base64.EncodeFirst(full, full);
    Base64.EncodeFirst(full, full + full);
    Base64.EncodeFirst(full, full + (full + full));
    Base64.EncodeFirst(full, [0x80, 1]);
    Base64.EncodeFirst(full, full + [0x80, 1]);
    Base64.EncodeFirst([1, 0x80, 0x80], full + (full + [0x80, 1]));
  }

  lemma EncodeNothing()
    ensures Base64.Encode([]) == []
  {
  }

  lemma EncodedGroups()
    ensures Base64.EncodeGroup([0x80, 0x80, 0x80]) == "ACIg"
    ensures Base64.EncodeGroup([1, 0x80, 0x80]) == "BAIg"
    ensures Base64.EncodeGroup([0x80, 1]) == "AGA"
  {
    hide Base64.Symbols;
    ThreeDigits(0x80, 0x80, 0x80);
    ThreeDigits(1, 0x80, 0x80);
    ThreeDigits(0x80, 1, 0);
    FourSymbols(0, 2, 8, 32);
    FourSymbols(1, 0, 8, 32);
    SymbolsMore(0, 0, 0);
    SymbolsMore(6, 0, 1);
    SymbolsMore(0, 6, 2);
  }

  lemma ThreeDigits(a: Byte, b: Byte, c: Byte)
    ensures Base64.FromDigits256([a, b, c]) == a + 0x100 * b + 0x1_0000 * c
    ensures Base64.FromDigits256([a, b]) == a + 0x100 * b
  {
    assert [a, b, c][1..] == [b, c] && [b, c][1..] == [c] && [c][1..] == [];
    assert [a, b][1..] == [b] && [b][1..] == [];
    assert Base64.FromDigits256([b]) == b && Base64.FromDigits256([c]) == c;
    assert Base64.FromDigits256([b, c]) == b + 0x100 * c;
  }

  lemma FourSymbols(a: nat, b: nat, c: nat, d: nat)
    requires a < 64 && b < 64 && c < 64 && d < 64
    ensures Base64.Symbols(a + 64 * (b + 64 * (c + 64 * d)), 4)
         == [Base64.Symbol(a), Base64.Symbol(b), Base64.Symbol(c), Base64.Symbol(d)]
  {
    hide Base64.Symbols, Base64.Symbol;
    var v1 := c + 64 * d;
    var v2 := b + 64 * v1;
    SymbolsMore(d, 0, 0);
    SymbolsMore(c, d, 1);
    assert Base64.Symbols(v1, 2) == [Base64.Symbol(c), Base64.Symbol(d)];
    SymbolsMore(b, v1, 2);
    assert Base64.Symbols(v2, 3) == [Base64.Symbol(b), Base64.Symbol(c), Base64.Symbol(d)];
    SymbolsMore(a, v2, 3);
  }

  lemma SymbolsMore(x: nat, v: nat, n: nat)
    requires x < 64
    ensures Base64.Symbols(x + 64 * v, n + 1) == [Base64.Symbol(x)] + Base64.Symbols(v, n)
    ensures Base64.Symbols(v, 0) == [] && (v == 0 && n == 0 ==> Base64.Symbols(x, 1) == [Base64.Symbol(x)])
  {
    hide Base64.Symbol;
    assert (x + 64 * v) % 64 == x && (x + 64 * v) / 64 == v;
  }

  lemma StringToMapOf(str: Text)
    requires Base64.Decode(str).Success?
    ensures var d := DecodeMap(DecodeEntry, Base64.Decode(str).value);
            && (d.Undefined? ==> StringToMap(str) == UndefinedBehaviour)
            && (d.LengthError? ==> StringToMap(str) == TextTooLong)
  {
  }

  lemma RunsOnForever(data: Bytes)
    requires RunsOn(64, data)
    ensures DecodeMap(DecodeEntry, data).Undefined?
  {
    CompactOutcome(64, data);
  }

  lemma {:induction false} ZeroGroups(n: nat)
    ensures EncodeCompact(Pow2(7 * n)) == seq(n, _ => 0x80) + [1]
  {
    hide EncodeCompact, Pow2;
    Pow2Values();
    EncodeCompactHead(Pow2(7 * n));
    if n > 0 {
      Pow2Sum(7, 7 * (n - 1));
      assert 7 + 7 * (n - 1) == 7 * n;
      ZeroGroups(n - 1);
      assert [0x80] + (seq(n - 1, _ => 0x80) + [1]) == seq(n, _ => 0x80) + [1];
    }
  }

  lemma HugeLength(text: Bytes)
    requires text == seq(9, _ => 0x80) + [1]
    ensures DecodeText(text).LengthError?
  {
    hide EncodeCompact, DecodeCompact, Pow2;
    Pow2Is64();
    Pow2Sum(1, 63);
    Pow2IsTwo();
    Pow2Grows(63, 64);
    ZeroGroups(9);
    CompactRoundTrip(64, Pow2(63), []);
    assert text + [] == text;
  }

  lemma Pow2IsTwo()
    ensures Pow2(1) == 2
  {
  }

  lemma AnnouncesTooMuch(data: Bytes)
    requires |data| == 11 && data[0] == data[10] == 1 && forall i :: 1 <= i < 10 ==> data[i] == 0x80
    ensures DecodeMap(DecodeEntry, data).LengthError?
  {
    var text := data[1..];
    OneGroup();
    assert data == EncodeCompact(1) + text;
    Pow2Is64();
    CompactRoundTrip(64, 1, text);
    assert text == seq(9, _ => 0x80) + [1];
    HugeLength(text);
    hide DecodeReproduce, DecodeText, EncodeCompact, DecodeCompact, Pow2;
  }

  lemma OneGroup()
    ensures EncodeCompact(1) == [1]
  {
  }

  ghost predicate MapFits(m: ReproduceMap) {
    |m| < TWO_TO_THE_64 && forall id :: id in m ==> |id| <= MAX_TEXT_SIZE && FitsSizeT(m[id].shrinkPath)
  }

  function RestoredMap(m: ReproduceMap): ReproduceMap {
    map id | id in m :: RestoredReproduce(m[id])
  }

  function RestoredEntry(e: Entry): Entry {
    (e.0, RestoredReproduce(e.1))
  }

  lemma EntryReadsBack(e: Entry)
    requires |e.0| <= MAX_TEXT_SIZE && FitsSizeT(e.1.shrinkPath)
    ensures ReadsBack(DecodeEntry, EncodeEntry(e), RestoredEntry(e))
  {
    hide EncodeText, DecodeText, EncodeReproduce, DecodeReproduce, Pow2, RestoredReproduce;
    Pow2Is64();
    forall suffix ensures DecodeEntry(EncodeEntry(e) + suffix) == Ok(RestoredEntry(e), suffix) {
      assert EncodeEntry(e) + suffix == EncodeText(e.0) + (EncodeReproduce(e.1) + suffix);
      TextRoundTrip(e.0, EncodeReproduce(e.1) + suffix);
      ReproduceRoundTrip(e.1, suffix);
    }
  }

  /** The bytes of an entry do not depend on the cached block. */
  lemma SameBytes(e: Entry)
    ensures EncodeEntry(RestoredEntry(e)) == EncodeEntry(e)
  {
    hide BlockFor, EncodeCompact, EncodeAll;
  }

  lemma {:induction false} SameBytesAll(items: seq<Entry>, restored: seq<Entry>)
    requires |restored| == |items| && forall i :: 0 <= i < |items| ==> restored[i] == RestoredEntry(items[i])
    ensures EncodeAll(EncodeEntry, restored) == EncodeAll(EncodeEntry, items)
  {
    hide EncodeEntry, RestoredEntry;
    if items != [] {
      SameBytes(items[0]);
      SameBytesAll(items[1..], restored[1..]);
    }
  }

  lemma EnumerationSize<K(!new), V(!new)>(items: seq<(K, V)>, m: map<K, V>)
    requires Enumerates(items, m)
    ensures |items| == |m|
    decreases |items|
  {
    if items == [] {
      assert m == map[];
    } else {
      var n := |items| - 1;
      var (key, init) := (items[n].0, items[..n]);
      var less := m - {key};
      forall k | k in less ensures exists i :: 0 <= i < n && init[i].0 == k {
        var i :| 0 <= i < |items| && items[i].0 == k;
        assert init[i].0 == k;
      }
      EnumerationSize(init, less);
      RemoveOne(m, key);
    }
  }

  /** Reading back what was written gives the map up to the cached blocks, whatever order the
      container iterated in, and leaves what follows. */
  lemma MapBytesRoundTrip(items: seq<Entry>, m: ReproduceMap, suffix: Bytes)
    requires Enumerates(items, m) && MapFits(m)
    ensures DecodeMap(DecodeEntry, EncodeMap(EncodeEntry, items) + suffix) == Ok(RestoredMap(m), suffix)
  {
    hide EncodeEntry, DecodeEntry, RestoredReproduce, Pow2, EncodeMap, DecodeMap, FitsSizeT;
    var restored := seq(|items|, i requires 0 <= i < |items| => RestoredEntry(items[i]));
    EnumerationSize(items, m);
    RestoredEnumeration(items, m, restored);
    forall i | 0 <= i < |restored| ensures ReadsBack(DecodeEntry, EncodeEntry(restored[i]), restored[i]) {
      assert items[i].0 in m;
      EntryReadsBack(items[i]);
      SameBytes(items[i]);
    }
    Pow2Is64();
    MapRoundTrip(EncodeEntry, DecodeEntry, restored, RestoredMap(m), suffix);
    SameMapBytes(items, restored);
  }

  lemma MapStringRoundTrip(items: seq<Entry>, m: ReproduceMap)
    requires Enumerates(items, m) && MapFits(m)
    ensures StringToMap(EntriesToString(items)) == Entries(RestoredMap(m))
  {
    hide EncodeEntry, DecodeEntry, RestoredReproduce, EncodeMap, DecodeMap, MapFits;
    var data := EncodeMap(EncodeEntry, items);
    assert data + [] == data;
    MapBytesRoundTrip(items, m, []);
    Base64.DecodeEncode(data);
  }

  /** Bytes behind the map are ignored. */
  lemma TrailingBytesIgnored(items: seq<Entry>, m: ReproduceMap, junk: Bytes)
    requires Enumerates(items, m) && MapFits(m)
    ensures StringToMap(Base64.Encode(EncodeMap(EncodeEntry, items) + junk)) == Entries(RestoredMap(m))
  {
    hide EncodeEntry, DecodeEntry, RestoredReproduce, EncodeMap, DecodeMap, MapFits;
    MapBytesRoundTrip(items, m, junk);
    Base64.DecodeEncode(EncodeMap(EncodeEntry, items) + junk);
  }

  /** The three ways in which a string can be malformed. */
  lemma MalformedStrings()
    ensures StringToMap("") == Malformed(0, "Invalid format")
    ensures StringToMap("A") == Malformed(1, "Invalid number of characters for Base64")
    ensures StringToMap("A-") == Malformed(1, "Invalid Base64 character")
  {
    Base64.DecodeSucceeds("");
    Base64.DecodeSucceeds("A");
    Base64.DecodeSucceeds("A-");
    assert Base64.InAlphabet('A') && !Base64.InAlphabet('-');
    hide Base64.Decode;
    EmptyString();
  }

  lemma EmptyString()
    ensures Base64.Decode("").Success? && Base64.Decode("").value == []
  {
    EncodeNothing();
    Base64.DecodeEncode([]);
  }

  const NAME: Text := "b"

  /** The layout of a record and of a map: one entry "b" whose generator has the key words 1 to 4,
      the path bits 300, the counter 7 and 9 path bits, found at size -2, with the path 5, 200. */
  lemma KnownBytes(block: Block)
    ensures var r := Reproduce(RandomState(Block(1, 2, 3, 4), block, 300, 7, 9), -2, [5, 200]);
            var items: seq<Entry> := [(NAME, r)];
            EncodeMap(EncodeEntry, items) ==
              [1] + ([1, 98] +
                (([1, 0, 0, 0, 0, 0, 0, 0] + [2, 0, 0, 0, 0, 0, 0, 0] + [3, 0, 0, 0, 0, 0, 0, 0]
                  + [4, 0, 0, 0, 0, 0, 0, 0] + [172, 2] + [7] + [9]) + [254, 255, 255, 255] + [2, 5, 200, 1]))
  {
    var random := RandomState(Block(1, 2, 3, 4), block, 300, 7, 9);
    var r := Reproduce(random, -2, [5, 200]);
    KnownRandom(block);
    SmallCompacts();
    KnownSize();
    KnownPath();
    KnownName();
    OneEntry((NAME, r));
    hide EncodeRandom, EncodeFixed, EncodeRange, EncodeCompact, EncodeText, EncodeAll, EncodeMap;
    assert EncodeEntry((NAME, r)) == EncodeText(NAME) + EncodeReproduce(r);
  }

  lemma KnownName()
    ensures EncodeText(NAME) == [1, 98]
  {
    SmallCompacts();
    hide EncodeCompact;
    assert ToBytes(NAME) == [98];
  }

  lemma KnownRandom(block: Block)
    ensures EncodeRandom(RandomState(Block(1, 2, 3, 4), block, 300, 7, 9))
         == [1, 0, 0, 0, 0, 0, 0, 0] + [2, 0, 0, 0, 0, 0, 0, 0] + [3, 0, 0, 0, 0, 0, 0, 0]
            + [4, 0, 0, 0, 0, 0, 0, 0] + [172, 2] + [7] + [9]
  {
    SmallWord(1);
    SmallWord(2);
    SmallWord(3);
    SmallWord(4);
    KnownKey();
    SmallCompacts();
    hide EncodeWord, EncodeAll, EncodeCompact, KeyWords;
  }

  lemma SmallWord(x: UInt64)
    requires x < 0x100
    ensures EncodeWord(x) == [x, 0, 0, 0, 0, 0, 0, 0]
  {
    NoBytes(7);
    assert EncodeFixed(x, 8) == [x] + EncodeFixed(0, 7);
  }

  lemma {:induction false} NoBytes(n: nat)
    ensures EncodeFixed(0, n) == seq(n, _ => 0)
  {
    if n > 0 {
      NoBytes(n - 1);
      assert [0] + EncodeFixed(0, n - 1) == seq(n, _ => 0);
    }
  }

  lemma KnownKey()
    ensures EncodeAll(EncodeWord, KeyWords(Block(1, 2, 3, 4)))
         == EncodeWord(1) + EncodeWord(2) + EncodeWord(3) + EncodeWord(4)
  {
    hide EncodeWord;
    var ws := KeyWords(Block(1, 2, 3, 4));
    assert ws[1..] == [2, 3, 4] && ws[1..][1..] == [3, 4] && ws[1..][1..][1..] == [4] && ws[1..][1..][1..][1..] == [];
    assert EncodeAll(EncodeWord, [4]) == EncodeWord(4);
    assert EncodeAll(EncodeWord, [3, 4]) == EncodeWord(3) + EncodeWord(4);
    assert EncodeAll(EncodeWord, [2, 3, 4]) == EncodeWord(2) + (EncodeWord(3) + EncodeWord(4));
  }

  lemma SmallCompacts()
    ensures EncodeCompact(1) == [1] && EncodeCompact(2) == [2] && EncodeCompact(5) == [5] && EncodeCompact(7) == [7]
    ensures EncodeCompact(300) == [172, 2] && EncodeCompact(200) == [200, 1]
  {
  }

  lemma KnownSize()
    ensures EncodeFixed(ToUnsigned(-2), 4) == [254, 255, 255, 255]
  {
    assert EncodeFixed(0xFF, 1) == [255];
    assert EncodeFixed(0xFFFF, 2) == [255, 255];
    assert EncodeFixed(0xFF_FFFF, 3) == [255, 255, 255];
  }

  lemma KnownPath()
    ensures EncodeRange([5, 200]) == [2, 5, 200, 1]
  {
    SmallCompacts();
    hide EncodeCompact;
    assert [5, 200][1..] == [200] && [200][1..] == [];
    assert EncodeAll(EncodeCompact, [200]) == EncodeCompact(200);
  }

  lemma OneEntry(e: Entry)
    ensures EncodeMap(EncodeEntry, [e]) == EncodeCompact(1) + EncodeEntry(e)
  {
    hide EncodeEntry, EncodeCompact;
    assert EncodeAll(EncodeEntry, [e]) == EncodeEntry(e) + EncodeAll(EncodeEntry, [e][1..]);
    assert EncodeAll(EncodeEntry, []) == [];
    assert EncodeEntry(e) + [] == EncodeEntry(e);
  }

  lemma SameMapBytes(items: seq<Entry>, restored: seq<Entry>)
    requires |restored| == |items| && forall i :: 0 <= i < |items| ==> restored[i] == RestoredEntry(items[i])
    ensures EncodeMap(EncodeEntry, restored) == EncodeMap(EncodeEntry, items)
  {
    hide EncodeEntry, RestoredEntry, EncodeCompact;
    SameBytesAll(items, restored);
  }

  lemma RestoredEnumeration(items: seq<Entry>, m: ReproduceMap, restored: seq<Entry>)
    requires Enumerates(items, m)
    requires |restored| == |items| && forall i :: 0 <= i < |items| ==> restored[i] == RestoredEntry(items[i])
    ensures Enumerates(restored, RestoredMap(m))
  {
    hide RestoredReproduce;
    forall k | k in RestoredMap(m) ensures exists i :: 0 <= i < |restored| && restored[i].0 == k {
      var i :| 0 <= i < |items| && items[i].0 == k;
      assert restored[i].0 == k;
    }
  }

  ghost predicate MapCanonical(m: ReproduceMap) {
    forall id :: id in m ==> Canonical(m[id].random)
  }

  ghost predicate MapInv(m: ReproduceMap) {
    forall id :: id in m ==> Inv(m[id].random)
  }

  ghost predicate MapDrawnOrUnused(m: ReproduceMap) {
    forall id :: id in m ==> DrawnOrUnused(m[id].random)
  }

  lemma MapCanonicalGuard(m: ReproduceMap)
    ensures MapInv(m) ==> (MapCanonical(m) <==> MapDrawnOrUnused(m))
  {
    hide Inv, Canonical, DrawnOrUnused;
    forall id | id in m && Inv(m[id].random) {
      CanonicalGuard(m[id].random);
    }
  }

  /** The map itself comes back exactly when all its generators are canonical. */
  lemma MapStringEqual(items: seq<Entry>, m: ReproduceMap)
    requires Enumerates(items, m) && MapFits(m)
    ensures StringToMap(EntriesToString(items)) == Entries(m) <==> MapCanonical(m)
    ensures MapInv(m) ==> (StringToMap(EntriesToString(items)) == Entries(m) <==> MapDrawnOrUnused(m))
  {
    hide Restored, StringToMap, EntriesToString, MapFits;
    MapStringRoundTrip(items, m);
    MapCanonicalGuard(m);
    if MapCanonical(m) {
      assert RestoredMap(m) == m;
    } else {
      var id :| id in m && !Canonical(m[id].random);
      assert RestoredMap(m)[id] != m[id];
    }
  }

  /** The string is that of some iteration order, so that what it reads back as is known. */
  method ReproduceMapToString(reproduceMap: ReproduceMap) returns (str: Text)
    ensures exists items :: Enumerates(items, reproduceMap) && str == EntriesToString(items)
    ensures MapFits(reproduceMap) ==> StringToMap(str) == Entries(RestoredMap(reproduceMap))
  {
    hide EncodeEntry, MapFits, StringToMap, RestoredMap;
    var data := SerializeMap(EncodeEntry, reproduceMap, []);
    ghost var items :| Enumerates(items, reproduceMap) && data == [] + EncodeMap(EncodeEntry, items);
    assert data == EncodeMap(EncodeEntry, items);
    str := Base64.Base64Encode(data);
    assert str == EntriesToString(items);
    if MapFits(reproduceMap) {
      MapStringRoundTrip(items, reproduceMap);
    }
  }

  method StringToReproduceMap(str: Text) returns (r: MapResult)
    ensures r == StringToMap(str)
  {
    hide DecodeEntry;
    var data := Base64.Base64Decode(str);
    if data.ParseError? {
      return Malformed(data.pos, data.message);
    }
    var d := DeserializeMap(DecodeEntry, data.value);
    match d {
      case Ok(m, _) => return Entries(m);
      case EndOfInput => return Malformed(0, INVALID_FORMAT);
      case LengthError => return TextTooLong;
      case Undefined => return UndefinedBehaviour;
    }
  }
}
