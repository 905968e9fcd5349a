/** The suite configuration and its text form. */
module Configuration {
  import opened Bits
  import opened Serialization
  import opened StringMap
  import opened ReproduceCodec
  import opened MapParser
  import Base64

  datatype TestParams = TestParams(seed: UInt64, maxSuccess: Int32, maxSize: Int32, maxDiscardRatio: Int32,
                                   disableShrinking: bool)

  datatype Config = Config(testParams: TestParams, verboseProgress: bool, verboseShrinking: bool, reproduce: ReproduceMap)

  /** The standard defaults. */
  const DEFAULTS := Config(TestParams(0, 100, 100, 10, false), false, false, map[])

  // -------------------------------------------------------- numbers as the standard streams do

  predicate IsDigit(c: Char) { '0' <= c <= '9' }

  function Digit(d: nat): Char
    requires d < 10
  {
    (d + 48) as char
  }

  function DigitsText(n: nat): (s: Text)
    ensures s != []
  {
    if n < 10 then [Digit(n)] else DigitsText(n / 10) + [Digit(n % 10)]
  }

  /** `std::to_string`. */
  function IntText(x: int): Text {
    if x < 0 then ['-'] + DigitsText(-x) else DigitsText(x)
  }

  function BoolText(b: bool): Text {
    if b then "1" else "0"
  }

  function DigitsValue(s: Text): nat
    requires forall i :: 0 <= i < |s| ==> IsDigit(s[i])
  {
    if s == [] then 0
    else
      assert IsDigit(s[|s| - 1]);
      10 * DigitsValue(s[..|s| - 1]) + (s[|s| - 1] as int - 48)
  }

  datatype Number = NotANumber | Number(negative: bool, magnitude: nat)

  function Unsigned(s: Text, negative: bool): Number {
    SpanDigits(s);
    var n := Span(s, IsDigit);
    if n == 0 then NotANumber else Number(negative, DigitsValue(s[..n]))
  }

  /** What extraction from a string stream reads: white space is skipped, a sign may come first,
      and whatever follows the digits is left unread. */
  function ReadNumber(s: Text): Number {
    var t := DropSpace(s);
    if t != [] && (t[0] == '-' || t[0] == '+') then Unsigned(t[1..], t[0] == '-') else Unsigned(t, false)
  }

  lemma {:induction false} SpanDigits(s: Text)
    ensures forall i :: 0 <= i < Span(s, IsDigit) ==> IsDigit(s[i])
  {
    if s != [] && IsDigit(s[0]) {
      SpanDigits(s[1..]);
      assert forall i :: 1 <= i < Span(s, IsDigit) ==> s[i] == s[1..][i - 1];
    }
  }

  // ------------------------------------------------------------------------ reading parameters

  datatype ReadResult<+T> = Read(value: T) | NotRead | ReadLengthError | ReadUndefined

  /** A negative number wraps around, as extraction into an unsigned type prescribes. */
  function ReadUInt64(s: Text): ReadResult<UInt64> {
    match ReadNumber(s)
    case NotANumber => NotRead
    case Number(negative, magnitude) =>
      if magnitude > MAX_UINT64 then NotRead
      else if negative && magnitude > 0 then Read(TWO_TO_THE_64 - magnitude)
      else Read(magnitude)
  }

  function ReadInt32(s: Text): ReadResult<Int32> {
    match ReadNumber(s)
    case NotANumber => NotRead
    case Number(negative, magnitude) =>
      var size: int := magnitude;
      var x := if negative then -size else size;
      if -0x8000_0000 <= x < 0x8000_0000 then Read(x) else NotRead
  }

  function ReadBool(s: Text): ReadResult<bool> {
    match ReadNumber(s)
    case NotANumber => NotRead
    case Number(negative, magnitude) =>
      if magnitude == 0 then Read(false)
      else if magnitude == 1 && !negative then Read(true)
      else NotRead
  }

  function ReadReproduce(s: Text): ReadResult<ReproduceMap> {
    match StringToMap(s)
    case Entries(m) => Read(m)
    case Malformed(_, _) => NotRead
    case TextTooLong => ReadLengthError
    case UndefinedBehaviour => ReadUndefined
  }

  /** What loading comes to: a value, a ConfigurationException, or std::length_error or undefined
      behaviour while decoding the reproduce string. */
  datatype Outcome<+T> = Loaded(value: T) | ConfigurationException(message: string) | LengthException | Unspecified {
    predicate IsFailure() { !Loaded? }

    function PropagateFailure<U>(): Outcome<U>
      requires IsFailure()
    {
      if Unspecified? then Unspecified
      else if LengthException? then LengthException
      else ConfigurationException(message)
    }

    function Extract(): T
      requires Loaded?
    {
      value
    }
  }

  predicate Anything<T>(x: T) { true }

  predicate IsNonNegative(x: Int32) { x >= 0 }

  function LoadParam<T>(m: Dict, key: Text, dest: T, failMsg: string, read: Text -> ReadResult<T>, validate: T -> bool)
    : Outcome<T>
  {
    if key !in m then Loaded(dest)
    else
      match read(m[key])
      case Read(value) => if validate(value) then Loaded(value) else ConfigurationException(failMsg)
      case NotRead => ConfigurationException(failMsg)
      case ReadLengthError => LengthException
      case ReadUndefined => Unspecified
  }

  const SEED: Text := "seed"
  const MAX_SUCCESS: Text := "max_success"
  const MAX_SIZE: Text := "max_size"
  const MAX_DISCARD_RATIO: Text := "max_discard_ratio"
  const NOSHRINK: Text := "noshrink"
  const VERBOSE_PROGRESS: Text := "verbose_progress"
  const VERBOSE_SHRINKING: Text := "verbose_shrinking"
  const REPRODUCE: Text := "reproduce"

  const BAD_SEED := "'seed' must be a valid integer"
  const BAD_MAX_SUCCESS := "'max_success' must be a valid non-negative integer"
  const BAD_MAX_SIZE := "'max_size' must be a valid non-negative integer"
  const BAD_MAX_DISCARD_RATIO := "'max_discard_ratio' must be a valid non-negative integer"
  const BAD_NOSHRINK := "'noshrink' must be either '1' or '0'"
  const BAD_VERBOSE_PROGRESS := "'verbose_progress' must be either '1' or '0'"
  const BAD_VERBOSE_SHRINKING := "'verbose_shrinking' must be either '1' or '0'"
  const BAD_REPRODUCE := "'reproduce' string has invalid format"
  const PARSE_FAILED := "Failed to parse configuration string -- "

  function ConfigFromMap(m: Dict, defaults: Config): Outcome<Config> {
    var p := defaults.testParams;
    var seed :- LoadParam(m, SEED, p.seed, BAD_SEED, ReadUInt64, Anything);
    var maxSuccess :- LoadParam(m, MAX_SUCCESS, p.maxSuccess, BAD_MAX_SUCCESS, ReadInt32, IsNonNegative);
    var maxSize :- LoadParam(m, MAX_SIZE, p.maxSize, BAD_MAX_SIZE, ReadInt32, IsNonNegative);
    var maxDiscardRatio :- LoadParam(m, MAX_DISCARD_RATIO, p.maxDiscardRatio, BAD_MAX_DISCARD_RATIO,
        ReadInt32, IsNonNegative);
    var disableShrinking :- LoadParam(m, NOSHRINK, p.disableShrinking, BAD_NOSHRINK, ReadBool, Anything);
    var verboseProgress :- LoadParam(m, VERBOSE_PROGRESS, defaults.verboseProgress, BAD_VERBOSE_PROGRESS,
        ReadBool, Anything);
    var verboseShrinking :- LoadParam(m, VERBOSE_SHRINKING, defaults.verboseShrinking, BAD_VERBOSE_SHRINKING,
        ReadBool, Anything);
    var reproduce :- LoadParam(m, REPRODUCE, defaults.reproduce, BAD_REPRODUCE, ReadReproduce, Anything);
    Loaded(Config(TestParams(seed, maxSuccess, maxSize, maxDiscardRatio, disableShrinking),
                  verboseProgress, verboseShrinking, reproduce))
  }

  /** `ParseException::what`. */
  function ParseMessage(pos: nat, message: string): string {
    "@" + IntText(pos) + ": " + message
  }

  function ConfigFromString(s: Text, defaults: Config): Outcome<Config> {
    match Parse(s)
    case Success(m) => ConfigFromMap(m, defaults)
    case ParseError(pos, message) => ConfigurationException(PARSE_FAILED + ParseMessage(pos, message))
  }

  // ------------------------------------------------------------------------------- printing

  function ConfigMap(c: Config, reproduce: Text): Dict {
    map[SEED := IntText(c.testParams.seed),
        MAX_SUCCESS := IntText(c.testParams.maxSuccess),
        MAX_SIZE := IntText(c.testParams.maxSize),
        MAX_DISCARD_RATIO := IntText(c.testParams.maxDiscardRatio),
        NOSHRINK := BoolText(c.testParams.disableShrinking),
        VERBOSE_PROGRESS := BoolText(c.verboseProgress),
        VERBOSE_SHRINKING := BoolText(c.verboseShrinking),
        REPRODUCE := reproduce]
  }

  /** `items` is the order in which the reproduce map happens to be iterated. */
  function MapFromConfig(c: Config, items: seq<Entry>): Dict {
    ConfigMap(c, EntriesToString(items))
  }

  /** The pairs of lhs that are not pairs of rhs. */
  function MapDifference(lhs: Dict, rhs: Dict): Dict {
    map k | k in lhs && (k !in rhs || lhs[k] != rhs[k]) :: lhs[k]
  }

  ghost function ConfigText(c: Config, items: seq<Entry>): Text {
    MapText(MapFromConfig(c, items), false)
  }

  /** The keys a minimal string may leave out, with the texts for which it does. */
  function DefaultMap(): Dict {
    MapFromConfig(DEFAULTS, []) - {SEED}
  }

  ghost function MinimalText(c: Config, items: seq<Entry>): Text {
    MapText(MapDifference(MapFromConfig(c, items), DefaultMap()), false)
  }

  // ---------------------------------------------------------------------- numbers read back

  lemma {:induction false} DigitsReadBack(n: nat)
    ensures forall i :: 0 <= i < |DigitsText(n)| ==> IsDigit(DigitsText(n)[i])
    ensures DigitsValue(DigitsText(n)) == n
  {
    var s := DigitsText(n);
    if n < 10 {
      assert s[..0] == [];
    } else {
      DigitsReadBack(n / 10);
      assert s[..|s| - 1] == DigitsText(n / 10);
    }
  }

  lemma UnsignedReadsBack(n: nat, negative: bool)
    ensures Unsigned(DigitsText(n), negative) == Number(negative, n)
  {
    var s := DigitsText(n);
    DigitsReadBack(n);
    SpanAt(s, |s|, IsDigit);
    assert s[..|s|] == s;
  }

  lemma IntReadsBack(x: int)
    ensures ReadNumber(IntText(x)) == Number(x < 0, if x < 0 then -x else x)
  {
    hide DigitsText, Unsigned, Span;
    var s := IntText(x);
    if x < 0 {
      DropSpaceNone(s);
      assert s[1..] == DigitsText(-x);
      UnsignedReadsBack(-x, true);
    } else {
      DigitsReadBack(x);
      assert IsDigit(s[0]);
      DropSpaceNone(s);
      UnsignedReadsBack(x, false);
    }
  }

  lemma BoolReadsBack(b: bool)
    ensures ReadBool(BoolText(b)) == Read(b)
  {
    hide ReadNumber;
    IntReadsBack(0);
    IntReadsBack(1);
    assert IntText(0) == BoolText(false) && IntText(1) == BoolText(true);
  }

  // ------------------------------------------------------------------ configurations read back

  const KEYS: set<Text> :=
    {SEED, MAX_SUCCESS, MAX_SIZE, MAX_DISCARD_RATIO, NOSHRINK, VERBOSE_PROGRESS, VERBOSE_SHRINKING, REPRODUCE}

  lemma ConfigEntries(c: Config, items: seq<Entry>)
    ensures var m := MapFromConfig(c, items);
            && m.Keys == KEYS && [] !in m
            && m[SEED] == IntText(c.testParams.seed)
            && m[MAX_SUCCESS] == IntText(c.testParams.maxSuccess)
            && m[MAX_SIZE] == IntText(c.testParams.maxSize)
            && m[MAX_DISCARD_RATIO] == IntText(c.testParams.maxDiscardRatio)
            && m[NOSHRINK] == BoolText(c.testParams.disableShrinking)
            && m[VERBOSE_PROGRESS] == BoolText(c.verboseProgress)
            && m[VERBOSE_SHRINKING] == BoolText(c.verboseShrinking)
            && m[REPRODUCE] == EntriesToString(items)
  {
    hide IntText, BoolText, EntriesToString;
    assert MAX_SIZE[0] != NOSHRINK[0] && MAX_DISCARD_RATIO[0] != VERBOSE_SHRINKING[0];
  }

  ghost predicate NonNegative(p: TestParams) {
    p.maxSuccess >= 0 && p.maxSize >= 0 && p.maxDiscardRatio >= 0
  }

  /** What loading the printed parameters comes to. */
  ghost function Reloaded(c: Config): Outcome<Config> {
    if c.testParams.maxSuccess < 0 then ConfigurationException(BAD_MAX_SUCCESS)
    else if c.testParams.maxSize < 0 then ConfigurationException(BAD_MAX_SIZE)
    else if c.testParams.maxDiscardRatio < 0 then ConfigurationException(BAD_MAX_DISCARD_RATIO)
    else Loaded(c.(reproduce := RestoredMap(c.reproduce)))
  }

  lemma IntsReadBack(p: TestParams)
    ensures ReadUInt64(IntText(p.seed)) == Read(p.seed)
    ensures ReadInt32(IntText(p.maxSuccess)) == Read(p.maxSuccess)
    ensures ReadInt32(IntText(p.maxSize)) == Read(p.maxSize)
    ensures ReadInt32(IntText(p.maxDiscardRatio)) == Read(p.maxDiscardRatio)
  {
    hide ReadNumber, IntText;
    IntReadsBack(p.seed);
    IntReadsBack(p.maxSuccess);
    IntReadsBack(p.maxSize);
    IntReadsBack(p.maxDiscardRatio);
  }

  lemma ConfigMapReadsBack(c: Config, items: seq<Entry>, defaults: Config)
    requires Enumerates(items, c.reproduce) && MapFits(c.reproduce)
    ensures ConfigFromMap(MapFromConfig(c, items), defaults) == Reloaded(c)
  {
    hide MapFromConfig, IntText, BoolText, EntriesToString, ReadUInt64, ReadInt32, ReadBool, StringToMap, MapFits;
    ConfigEntries(c, items);
    IntsReadBack(c.testParams);
    BoolReadsBack(c.testParams.disableShrinking);
    BoolReadsBack(c.verboseProgress);
    BoolReadsBack(c.verboseShrinking);
    MapStringRoundTrip(items, c.reproduce);
  }

  lemma ReloadedEqual(c: Config)
    ensures Reloaded(c) == Loaded(c) <==> NonNegative(c.testParams) && MapCanonical(c.reproduce)
  {
    hide Restored;
    if MapCanonical(c.reproduce) {
      assert RestoredMap(c.reproduce) == c.reproduce;
    } else {
      var id :| id in c.reproduce && !Canonical(c.reproduce[id].random);
      assert RestoredMap(c.reproduce)[id] != c.reproduce[id];
    }
  }

  /** A configuration's string reads back, whatever the defaults and whatever order the reproduce
      map is iterated in, exactly when its limits are not negative and its generators canonical. */
  lemma FullRoundTrip(c: Config, items: seq<Entry>, defaults: Config)
    requires Enumerates(items, c.reproduce) && MapFits(c.reproduce)
    ensures ConfigFromString(ConfigText(c, items), defaults) == Reloaded(c)
    ensures ConfigFromString(ConfigText(c, items), defaults) == Loaded(c)
       <==> NonNegative(c.testParams) && MapCanonical(c.reproduce)
    ensures MapInv(c.reproduce) ==>
      (ConfigFromString(ConfigText(c, items), defaults) == Loaded(c)
       <==> NonNegative(c.testParams) && MapDrawnOrUnused(c.reproduce))
  {
    hide ConfigFromMap, MapFromConfig, MapText, Parse, MapFits, MapCanonical, Reloaded, MapInv, MapDrawnOrUnused;
    MapCanonicalGuard(c.reproduce);
    ConfigEntries(c, items);
    MapTextReadsBack(MapFromConfig(c, items), false);
    ConfigMapReadsBack(c, items, defaults);
    ReloadedEqual(c);
  }

  /** What is printed after a run with failures, to be given to the next run. */
  function ReproduceParams(items: seq<Entry>): Text {
    REPRODUCE + ['='] + EntriesToString(items)
  }

  /** What loading a lone reproduce string comes to: everything else is as in the defaults. */
  function LoadedAlone(t: Text, defaults: Config): Outcome<Config> {
    match StringToMap(t)
    case Entries(m) => Loaded(defaults.(reproduce := m))
    case Malformed(_, _) => ConfigurationException(BAD_REPRODUCE)
    case TextTooLong => LengthException
    case UndefinedBehaviour => Unspecified
  }

  /** A text of one pair that needs no quotes is loaded as a map of that pair. */
  lemma LonePairLoads(key: Text, t: Text, defaults: Config)
    requires key != [] && t != [] && !HasSpecial(key) && !HasSpecial(t)
    ensures ConfigFromString(key + ['='] + t, defaults) == ConfigFromMap(map[key := t], defaults)
  {
    hide ParsePair, MaybeQuote, HasSpecial, ConfigFromMap;
    var s := key + ['='] + t;
    PlainText(t);
    PlainText(key);
    KeyValueReadsBack(key, t, false, []);
    assert s == key + (['='] + (t + []));
    ParsePairsStep(map[], s);
    NothingToParse();
    assert Parse(s).Success? && Parse(s).value == map[key := t];
  }

  lemma LoneStringLoads(t: Text, defaults: Config)
    requires t != [] && Base64.AllInAlphabet(t)
    ensures ConfigFromString(REPRODUCE + ['='] + t, defaults) == LoadedAlone(t, defaults)
  {
    hide HasSpecial, ConfigFromString;
    NothingSpecial(t);
    LonePairLoads(REPRODUCE, t, defaults);
    OnlyReproduce(map[REPRODUCE := t], t, defaults);
  }

  lemma NothingSpecial(t: Text)
    requires Base64.AllInAlphabet(t)
    ensures !HasSpecial(t) && !HasSpecial(REPRODUCE)
  {
    forall i | 0 <= i < |t| ensures !IsSpecial(t[i]) {
      assert Base64.InAlphabet(t[i]);
    }
  }

  lemma PlainText(t: Text)
    requires t != [] && !HasSpecial(t)
    ensures MaybeQuote(t, false) == t
  {
  }

  lemma OnlyReproduce(m: Dict, t: Text, defaults: Config)
    requires m == map[REPRODUCE := t]
    ensures ConfigFromMap(m, defaults) == LoadedAlone(t, defaults)
  {
    hide StringToMap, ReadUInt64, ReadInt32, ReadBool;
    assert MAX_SIZE[0] != REPRODUCE[0] && |SEED| != |REPRODUCE| && |NOSHRINK| != |REPRODUCE|;
    assert |VERBOSE_PROGRESS| != |REPRODUCE| && |VERBOSE_SHRINKING| != |REPRODUCE|;
  }

  /** The string printed for a reproduce map sets the map and nothing else. */
  lemma ReproduceParamsLoad(items: seq<Entry>, m: ReproduceMap, defaults: Config)
    requires Enumerates(items, m) && MapFits(m)
    ensures ConfigFromString(ReproduceParams(items), defaults) == Loaded(defaults.(reproduce := RestoredMap(m)))
  {
    hide ConfigFromString, StringToMap, EncodeEntry, EncodeCompact, MapFits, Restored, Base64.Encode;
    var data := EncodeMap(EncodeEntry, items);
    Base64.GroupsRoundTrip(data);
    Base64.EncodedLength(data);
    LoneStringLoads(EntriesToString(items), defaults);
    MapStringRoundTrip(items, m);
  }

  /** A reproduce string can take the loading into undefined behaviour, or make it end with an
      exception that nothing catches. */
  lemma BadParams(defaults: Config)
    ensures ConfigFromString(REPRODUCE + ['='] + RUNNING_ON, defaults) == Unspecified
    ensures ConfigFromString(REPRODUCE + ['='] + TOO_LONG, defaults) == LengthException
  {
    hide ConfigFromString, StringToMap;
    BadStrings();
    LoneStringLoads(RUNNING_ON, defaults);
    LoneStringLoads(TOO_LONG, defaults);
  }

  /** Leaving out a key whose text is the default's changes nothing if loading falls back on the
      value that text stands for. */
  predicate SameParam<T(==)>(m: Dict, less: Dict, key: Text, dest: T, read: Text -> ReadResult<T>) {
    if key in less then key in m && less[key] == m[key]
    else key in m ==> read(m[key]) == Read(dest)
  }

  lemma LoadSame<T>(m: Dict, less: Dict, key: Text, dest: T,
      failMsg: string, read: Text -> ReadResult<T>, validate: T -> bool)
    requires SameParam(m, less, key, dest, read) && validate(dest)
    ensures LoadParam(less, key, dest, failMsg, read, validate) == LoadParam(m, key, dest, failMsg, read, validate)
  {
  }

  lemma DefaultsReadBack()
    ensures var m := MapFromConfig(DEFAULTS, []);
            && m.Keys == KEYS
            && ReadInt32(m[MAX_SUCCESS]) == Read(DEFAULTS.testParams.maxSuccess)
            && ReadInt32(m[MAX_SIZE]) == Read(DEFAULTS.testParams.maxSize)
            && ReadInt32(m[MAX_DISCARD_RATIO]) == Read(DEFAULTS.testParams.maxDiscardRatio)
            && ReadBool(m[NOSHRINK]) == Read(DEFAULTS.testParams.disableShrinking)
            && ReadBool(m[VERBOSE_PROGRESS]) == Read(DEFAULTS.verboseProgress)
            && ReadBool(m[VERBOSE_SHRINKING]) == Read(DEFAULTS.verboseShrinking)
            && ReadReproduce(m[REPRODUCE]) == Read(DEFAULTS.reproduce)
  {
    hide MapFromConfig, IntText, BoolText, EntriesToString, ReadUInt64, ReadInt32, ReadBool, StringToMap, KEYS;
    ConfigEntries(DEFAULTS, []);
    IntsReadBack(DEFAULTS.testParams);
    BoolReadsBack(false);
    MapStringRoundTrip([], map[]);
    assert RestoredMap(map[]) == map[];
  }

  lemma MinimalLoadsSame(c: Config, items: seq<Entry>)
    ensures var m := MapFromConfig(c, items);
            ConfigFromMap(MapDifference(m, DefaultMap()), DEFAULTS) == ConfigFromMap(m, DEFAULTS)
  {
    hide MapFromConfig, ReadUInt64, ReadInt32, ReadBool, ReadReproduce, LoadParam;
    var m, d := MapFromConfig(c, items), MapFromConfig(DEFAULTS, []);
    var less := MapDifference(m, DefaultMap());
    ConfigEntries(c, items);
    DefaultsReadBack();
    var p := DEFAULTS.testParams;
    LoadSame(m, less, SEED, p.seed, BAD_SEED, ReadUInt64, Anything);
    LoadSame(m, less, MAX_SUCCESS, p.maxSuccess, BAD_MAX_SUCCESS, ReadInt32, IsNonNegative);
    LoadSame(m, less, MAX_SIZE, p.maxSize, BAD_MAX_SIZE, ReadInt32, IsNonNegative);
    LoadSame(m, less, MAX_DISCARD_RATIO, p.maxDiscardRatio, BAD_MAX_DISCARD_RATIO, ReadInt32, IsNonNegative);
    LoadSame(m, less, NOSHRINK, p.disableShrinking, BAD_NOSHRINK, ReadBool, Anything);
    LoadSame(m, less, VERBOSE_PROGRESS, DEFAULTS.verboseProgress, BAD_VERBOSE_PROGRESS, ReadBool, Anything);
    LoadSame(m, less, VERBOSE_SHRINKING, DEFAULTS.verboseShrinking, BAD_VERBOSE_SHRINKING, ReadBool, Anything);
    LoadSame(m, less, REPRODUCE, DEFAULTS.reproduce, BAD_REPRODUCE, ReadReproduce, Anything);
  }

  /** The minimal string says as much as the full one to a reader with the standard defaults. */
  lemma MinimalRoundTrip(c: Config, items: seq<Entry>)
    requires Enumerates(items, c.reproduce) && MapFits(c.reproduce)
    ensures ConfigFromString(MinimalText(c, items), DEFAULTS) == ConfigFromString(ConfigText(c, items), DEFAULTS)
    ensures ConfigFromString(MinimalText(c, items), DEFAULTS) == Loaded(c)
       <==> NonNegative(c.testParams) && MapCanonical(c.reproduce)
  {
    hide ConfigFromMap, MapFromConfig, MapText, Parse, MapFits, MapCanonical, Reloaded;
    var m := MapFromConfig(c, items);
    ConfigEntries(c, items);
    MapTextReadsBack(m, false);
    MapTextReadsBack(MapDifference(m, DefaultMap()), false);
    MinimalLoadsSame(c, items);
    FullRoundTrip(c, items, DEFAULTS);
  }

  lemma LoadAgree<T>(m: Dict, m': Dict, key: Text, dest: T,
      failMsg: string, read: Text -> ReadResult<T>, validate: T -> bool)
    requires key in KEYS && forall k :: k in KEYS ==> (k in m <==> k in m') && (k in m ==> m[k] == m'[k])
    ensures LoadParam(m, key, dest, failMsg, read, validate) == LoadParam(m', key, dest, failMsg, read, validate)
  {
  }

  /** Keys other than the eight known ones are ignored. */
  lemma OnlyKnownKeys(m: Dict, m': Dict, defaults: Config)
    requires forall k :: k in KEYS ==> (k in m <==> k in m') && (k in m ==> m[k] == m'[k])
    ensures ConfigFromMap(m, defaults) == ConfigFromMap(m', defaults)
  {
    hide ReadUInt64, ReadInt32, ReadBool, ReadReproduce, LoadParam;
    var p := defaults.testParams;
    LoadAgree(m, m', SEED, p.seed, BAD_SEED, ReadUInt64, Anything);
    LoadAgree(m, m', MAX_SUCCESS, p.maxSuccess, BAD_MAX_SUCCESS, ReadInt32, IsNonNegative);
    LoadAgree(m, m', MAX_SIZE, p.maxSize, BAD_MAX_SIZE, ReadInt32, IsNonNegative);
    LoadAgree(m, m', MAX_DISCARD_RATIO, p.maxDiscardRatio, BAD_MAX_DISCARD_RATIO, ReadInt32, IsNonNegative);
    LoadAgree(m, m', NOSHRINK, p.disableShrinking, BAD_NOSHRINK, ReadBool, Anything);
    LoadAgree(m, m', VERBOSE_PROGRESS, defaults.verboseProgress, BAD_VERBOSE_PROGRESS, ReadBool, Anything);
    LoadAgree(m, m', VERBOSE_SHRINKING, defaults.verboseShrinking, BAD_VERBOSE_SHRINKING, ReadBool, Anything);
    LoadAgree(m, m', REPRODUCE, defaults.reproduce, BAD_REPRODUCE, ReadReproduce, Anything);
  }

  /** A text that sets none of them, the empty one included, leaves the defaults. */
  lemma NoKnownKeys(m: Dict, defaults: Config)
    requires forall k :: k in KEYS ==> k !in m
    ensures ConfigFromMap(m, defaults) == Loaded(defaults)
  {
    hide ReadUInt64, ReadInt32, ReadBool, ReadReproduce;
    OnlyKnownKeys(m, map[], defaults);
  }

  // --------------------------------------------------------------------------- the loading code

  method LoadInto<T>(m: Dict, key: Text, dest: T, failMsg: string, read: Text -> ReadResult<T>, validate: T -> bool)
    returns (r: Outcome<T>)
    ensures r == LoadParam(m, key, dest, failMsg, read, validate)
  {
    if key !in m {
      return Loaded(dest);
    }
    var value := read(m[key]);
    if value.ReadUndefined? {
      return Unspecified;
    } else if value.ReadLengthError? {
      return LengthException;
    } else if value.NotRead? || !validate(value.value) {
      return ConfigurationException(failMsg);
    }
    return Loaded(value.value);
  }

  lemma DifferenceStep(lhs: Dict, rhs: Dict, rest: Dict, key: Text)
    requires key in rest && rest.Keys <= lhs.Keys
    ensures var before := MapDifference(lhs - rest.Keys, rhs);
            MapDifference(lhs - (rest - {key}).Keys, rhs)
              == if key !in rhs || lhs[key] != rhs[key] then before[key := lhs[key]] else before
  {
  }

  lemma DifferenceEnds(lhs: Dict, rhs: Dict)
    ensures MapDifference(lhs - lhs.Keys, rhs) == map[]
    ensures forall rest: Dict :: rest == map[] ==> lhs - rest.Keys == lhs
  {
  }

  /** The loop inserts the pairs of lhs one by one. */
  method Difference(lhs: Dict, rhs: Dict) returns (result: Dict)
    ensures result == MapDifference(lhs, rhs)
  {
    hide MapDifference;
    result := map[];
    var rest := lhs;
    DifferenceEnds(lhs, rhs);
    while rest != map[]
      invariant rest.Keys <= lhs.Keys
      invariant result == MapDifference(lhs - rest.Keys, rhs)
      decreases |rest|
    {
      var key :| key in rest;
      RemoveOne(rest, key);
      DifferenceStep(lhs, rhs, rest, key);
      if key !in rhs || lhs[key] != rhs[key] {
        result := result[key := lhs[key]];
      }
      rest := rest - {key};
    }
  }

  method ConfigToString(c: Config) returns (str: Text)
    ensures exists items :: Enumerates(items, c.reproduce) && str == ConfigText(c, items)
    ensures MapFits(c.reproduce) ==> forall defaults :: ConfigFromString(str, defaults) == Reloaded(c)
  {
    hide MapText, IntText, BoolText, EntriesToString, ConfigFromString, MapFits, Reloaded;
    var reproduce := ReproduceMapToString(c.reproduce);
    ghost var items :| Enumerates(items, c.reproduce) && reproduce == EntriesToString(items);
    var m := ConfigMap(c, reproduce);
    str := MapToString(m, false);
    assert str == ConfigText(c, items);
    if MapFits(c.reproduce) {
      forall defaults ensures ConfigFromString(str, defaults) == Reloaded(c) {
        FullRoundTrip(c, items, defaults);
      }
    }
  }

  method ConfigToMinimalString(c: Config) returns (str: Text)
    ensures exists items :: Enumerates(items, c.reproduce) && str == MinimalText(c, items)
    ensures MapFits(c.reproduce) ==> ConfigFromString(str, DEFAULTS) == Reloaded(c)
  {
    hide MapText, IntText, BoolText, EntriesToString, ConfigFromString, MapFits, Reloaded;
    var defaults := DefaultMap();
    var reproduce := ReproduceMapToString(c.reproduce);
    ghost var items :| Enumerates(items, c.reproduce) && reproduce == EntriesToString(items);
    var m := ConfigMap(c, reproduce);
    var difference := Difference(m, defaults);
    str := MapToString(difference, false);
    assert str == MinimalText(c, items);
    if MapFits(c.reproduce) {
      FullRoundTrip(c, items, DEFAULTS);
      MinimalRoundTrip(c, items);
    }
  }

  method LoadConfig(str: Text, defaults: Config) returns (r: Outcome<Config>)
    ensures r == ConfigFromString(str, defaults)
  {
    var parsed := ParseMap(str);
    if parsed.ParseError? {
      return ConfigurationException(PARSE_FAILED + ParseMessage(parsed.pos, parsed.message));
    }
    r := LoadMap(parsed.value, defaults);
  }

  /** Loads one parameter after the other into a copy of the defaults. */
  method LoadMap(m: Dict, defaults: Config) returns (r: Outcome<Config>)
    ensures r == ConfigFromMap(m, defaults)
  {
    hide LoadParam, ReadUInt64, ReadInt32, ReadBool, ReadReproduce;
    var config := defaults;
    var seed :- LoadInto(m, SEED, config.testParams.seed, BAD_SEED, ReadUInt64, Anything);
    config := config.(testParams := config.testParams.(seed := seed));
    var maxSuccess :- LoadInto(m, MAX_SUCCESS, config.testParams.maxSuccess, BAD_MAX_SUCCESS, ReadInt32, IsNonNegative);
    config := config.(testParams := config.testParams.(maxSuccess := maxSuccess));
    var maxSize :- LoadInto(m, MAX_SIZE, config.testParams.maxSize, BAD_MAX_SIZE, ReadInt32, IsNonNegative);
    config := config.(testParams := config.testParams.(maxSize := maxSize));
    var ratio :- LoadInto(m, MAX_DISCARD_RATIO, config.testParams.maxDiscardRatio, BAD_MAX_DISCARD_RATIO,
        ReadInt32, IsNonNegative);
    config := config.(testParams := config.testParams.(maxDiscardRatio := ratio));
    var noshrink :- LoadInto(m, NOSHRINK, config.testParams.disableShrinking, BAD_NOSHRINK, ReadBool, Anything);
    config := config.(testParams := config.testParams.(disableShrinking := noshrink));
    var progress :- LoadInto(m, VERBOSE_PROGRESS, config.verboseProgress, BAD_VERBOSE_PROGRESS, ReadBool, Anything);
    config := config.(verboseProgress := progress);
    var shrinking :- LoadInto(m, VERBOSE_SHRINKING, config.verboseShrinking, BAD_VERBOSE_SHRINKING, ReadBool, Anything);
    config := config.(verboseShrinking := shrinking);
    var reproduce :- LoadInto(m, REPRODUCE, config.reproduce, BAD_REPRODUCE, ReadReproduce, Anything);
    config := config.(reproduce := reproduce);
    return Loaded(config);
  }
}
