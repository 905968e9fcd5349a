/** The parameters one by one, as they are written on a command line, and what a minimal string holds. */
module Parameters {
  import opened Bits
  import opened Serialization
  import opened MapParser
  import opened ReproduceCodec
  import opened Configuration
  import opened FreeText

  // --------------------------------------------------------------------------------- numbers

  lemma KnownNumbers()
    ensures IntText(0) == "0" && IntText(1) == "1" && IntText(1337) == "1337" && IntText(-100) == "-100"
  {
    assert DigitsText(1) == "1" && DigitsText(13) == "13" && DigitsText(133) == "133";
    assert DigitsText(10) == "10";
  }

  lemma {:induction false} DigitsSpan(digits: Text, rest: Text)
    requires forall i :: 0 <= i < |digits| ==> IsDigit(digits[i])
    requires rest == [] || !IsDigit(rest[0])
    ensures Span(digits + rest, IsDigit) == |digits|
  {
    var s := digits + rest;
    assert |digits| < |s| ==> s[|digits|] == rest[0];
    SpanAt(s, |digits|, IsDigit);
  }

  /** A number is read through white space in front of it, with either sign, up to the first
      character that is not a digit. */
  lemma NumberReads(lead: Text, sign: Text, n: nat, rest: Text)
    requires Blanks(lead) && (sign == [] || sign == "+" || sign == "-") && (rest == [] || !IsDigit(rest[0]))
    ensures ReadNumber(lead + (sign + (DigitsText(n) + rest))) == Number(sign == "-", n)
  {
    hide Span, DigitsText, DigitsValue, Blanks;
    var digits := DigitsText(n);
    var s := sign + (digits + rest);
    DigitsReadBack(n);
    DigitsSpan(digits, rest);
    assert (digits + rest)[..|digits|] == digits;
    DropBlanks(lead, s);
    assert IsDigit(digits[0]);
    assert s[0] == (if sign == [] then digits[0] else sign[0]);
    DropSpaceNone(s);
    if sign == [] {
      assert s == digits + rest;
    } else {
      assert s[1..] == digits + rest;
    }
  }

  /** Of the numbers read, those are taken that fit their type; a negative one wraps around for an
      unsigned type, and a flag is 0 or 1. */
  lemma NumbersTaken(lead: Text, sign: Text, n: nat, rest: Text)
    requires Blanks(lead) && (sign == [] || sign == "+" || sign == "-") && (rest == [] || !IsDigit(rest[0]))
    ensures var s := lead + (sign + (DigitsText(n) + rest));
            var x: int := if sign == "-" then 0 - n else n;
            && ReadInt32(s) == (if -0x8000_0000 <= x <= 0x7FFF_FFFF then Read(x) else NotRead)
            && ReadBool(s) == (if x == 0 then Read(false) else if x == 1 then Read(true) else NotRead)
            && (n <= 0xFFFF_FFFF_FFFF_FFFF ==>
                  ReadUInt64(s) == Read(if x < 0 then 0x1_0000_0000_0000_0000 - n else n))
            && (n > 0xFFFF_FFFF_FFFF_FFFF ==> ReadUInt64(s) == NotRead)
  {
    hide ReadNumber, DigitsText, Blanks;
    NumberReads(lead, sign, n, rest);
  }

  /** What starts neither with a digit, nor with a sign, nor with white space, is no number. */
  lemma NoNumber(s: Text)
    requires s == [] || (!IsDigit(s[0]) && s[0] != '+' && s[0] != '-' && !Blank(s[0]))
    ensures ReadNumber(s) == NotANumber
  {
    if s != [] {
      BlankIsSpace(s[0]);
    }
    DropSpaceNone(s);
  }

  // ------------------------------------------------------------------------- each by its name

  lemma {:induction false} DigitsPlain(n: nat)
    ensures forall i :: 0 <= i < |DigitsText(n)| ==> '0' <= DigitsText(n)[i] <= '9'
  {
    if n >= 10 {
      DigitsPlain(n / 10);
    }
  }

  lemma NumberPlain(x: int)
    ensures IntText(x) != [] && !HasSpecial(IntText(x))
  {
    hide DigitsText;
    DigitsPlain(if x < 0 then -x else x);
  }

  lemma NamesPlain()
    ensures !HasSpecial("seed") && !HasSpecial("max_success")
    ensures !HasSpecial("max_size") && !HasSpecial("max_discard_ratio")
    ensures !HasSpecial("noshrink") && !HasSpecial("verbose_progress") && !HasSpecial("verbose_shrinking")
    ensures !HasSpecial("x") && !HasSpecial("0") && !HasSpecial("1")
  {
  }

  lemma NamesDiffer()
    ensures |SEED| == 4 && |MAX_SUCCESS| == 11 && |MAX_SIZE| == 8 && |MAX_DISCARD_RATIO| == 17 && |NOSHRINK| == 8
    ensures |VERBOSE_PROGRESS| == 16 && |VERBOSE_SHRINKING| == 17 && |REPRODUCE| == 9
    ensures MAX_SIZE != NOSHRINK && MAX_DISCARD_RATIO != VERBOSE_SHRINKING
  {
    assert MAX_SIZE[0] != NOSHRINK[0] && MAX_DISCARD_RATIO[0] != VERBOSE_SHRINKING[0];
  }

  /** Each limit sets its own field to the number given, unless that is negative. */
  lemma Limits(x: Int32, d: Config)
    ensures ConfigFromString("max_success=" + IntText(x), d)
         == if x < 0 then ConfigurationException("'max_success' must be a valid non-negative integer")
            else Loaded(d.(testParams := d.testParams.(maxSuccess := x)))
    ensures ConfigFromString("max_size=" + IntText(x), d)
         == if x < 0 then ConfigurationException("'max_size' must be a valid non-negative integer")
            else Loaded(d.(testParams := d.testParams.(maxSize := x)))
    ensures ConfigFromString("max_discard_ratio=" + IntText(x), d)
         == if x < 0 then ConfigurationException("'max_discard_ratio' must be a valid non-negative integer")
            else Loaded(d.(testParams := d.testParams.(maxDiscardRatio := x)))
  {
    hide ConfigFromString, HasSpecial, ReadNumber, IntText;
    NumberPlain(x);
    NamesPlain();
    NamesDiffer();
    IntReadsBack(x);
    LonePairLoads("max_success", IntText(x), d);
    LonePairLoads("max_size", IntText(x), d);
    LonePairLoads("max_discard_ratio", IntText(x), d);
    assert "max_success=" == "max_success" + ['='] && "max_size=" == "max_size" + ['='];
    assert "max_discard_ratio=" == "max_discard_ratio" + ['='];
  }

  lemma Seeds(x: UInt64, d: Config)
    ensures ConfigFromString("seed=" + IntText(x), d) == Loaded(d.(testParams := d.testParams.(seed := x)))
  {
    hide ConfigFromString, HasSpecial, ReadNumber, IntText;
    NumberPlain(x);
    NamesPlain();
    NamesDiffer();
    IntReadsBack(x);
    LonePairLoads("seed", IntText(x), d);
    assert "seed=" == "seed" + ['='];
  }

  lemma Flags(on: bool, d: Config)
    ensures var digit := if on then "1" else "0";
            && ConfigFromString("noshrink=" + digit, d) == Loaded(d.(testParams := d.testParams.(disableShrinking := on)))
            && ConfigFromString("verbose_progress=" + digit, d) == Loaded(d.(verboseProgress := on))
            && ConfigFromString("verbose_shrinking=" + digit, d) == Loaded(d.(verboseShrinking := on))
  {
    hide ConfigFromString, HasSpecial, ReadNumber;
    NamesPlain();
    NamesDiffer();
    BoolReadsBack(on);
    var digit := BoolText(on);
    LonePairLoads("noshrink", digit, d);
    LonePairLoads("verbose_progress", digit, d);
    LonePairLoads("verbose_shrinking", digit, d);
    assert "noshrink=" == "noshrink" + ['='] && "verbose_progress=" == "verbose_progress" + ['='];
    assert "verbose_shrinking=" == "verbose_shrinking" + ['='];
  }

  /** What is said of a value that cannot be read. */
  lemma NotNumbers(d: Config)
    ensures ConfigFromString("seed=x", d) == ConfigurationException("'seed' must be a valid integer")
    ensures ConfigFromString("max_success=x", d)
         == ConfigurationException("'max_success' must be a valid non-negative integer")
    ensures ConfigFromString("max_size=x", d) == ConfigurationException("'max_size' must be a valid non-negative integer")
    ensures ConfigFromString("max_discard_ratio=x", d)
         == ConfigurationException("'max_discard_ratio' must be a valid non-negative integer")
    ensures ConfigFromString("noshrink=x", d) == ConfigurationException("'noshrink' must be either '1' or '0'")
    ensures ConfigFromString("verbose_progress=x", d)
         == ConfigurationException("'verbose_progress' must be either '1' or '0'")
    ensures ConfigFromString("verbose_shrinking=x", d)
         == ConfigurationException("'verbose_shrinking' must be either '1' or '0'")
  {
    hide ConfigFromString, HasSpecial, ReadNumber;
    NamesPlain();
    NamesDiffer();
    NoNumber("x");
    LonePairLoads("seed", "x", d);
    LonePairLoads("max_success", "x", d);
    LonePairLoads("max_size", "x", d);
    LonePairLoads("max_discard_ratio", "x", d);
    LonePairLoads("noshrink", "x", d);
    LonePairLoads("verbose_progress", "x", d);
    LonePairLoads("verbose_shrinking", "x", d);
    assert "seed=x" == "seed" + ['='] + "x" && "max_success=x" == "max_success" + ['='] + "x";
    assert "max_size=x" == "max_size" + ['='] + "x" && "max_discard_ratio=x" == "max_discard_ratio" + ['='] + "x";
    assert "noshrink=x" == "noshrink" + ['='] + "x";
    assert "verbose_progress=x" == "verbose_progress" + ['='] + "x";
    assert "verbose_shrinking=x" == "verbose_shrinking" + ['='] + "x";
  }

  // ----------------------------------------------------------------------- the minimal string

  lemma IntTextsDiffer(x: int, y: int)
    ensures IntText(x) == IntText(y) <==> x == y
  {
    hide IntText, ReadNumber;
    IntReadsBack(x);
    IntReadsBack(y);
  }

  lemma BoolTextsDiffer(x: bool, y: bool)
    ensures BoolText(x) == BoolText(y) <==> x == y
  {
  }

  lemma ReproduceTextsDiffer(items: seq<Entry>, m: ReproduceMap)
    requires Enumerates(items, m) && MapFits(m)
    ensures EntriesToString(items) == EntriesToString([]) <==> m == map[]
  {
    var nothing: ReproduceMap := map[];
    assert MapFits(nothing) && Enumerates([], nothing);
    hide EntriesToString, StringToMap, MapFits, Restored;
    MapStringRoundTrip(items, m);
    MapStringRoundTrip([], nothing);
    if m == nothing {
      EnumerationSize(items, m);
    } else {
      var id :| id in m;
      assert id in RestoredMap(m) && id !in RestoredMap(nothing);
    }
  }

  /** The minimal string holds the seed, and of the other parameters those that are not at their
      standard values, each with the text it has in the full string. */
  lemma MinimalHolds(c: Config, items: seq<Entry>)
    requires Enumerates(items, c.reproduce) && MapFits(c.reproduce)
    ensures Parse(MinimalText(c, items)).Success? && Parse(ConfigText(c, items)).Success?
    ensures var m, p := Parse(MinimalText(c, items)).value, c.testParams;
            && "seed" in m
            && ("max_success" in m <==> p.maxSuccess != 100)
            && ("max_size" in m <==> p.maxSize != 100)
            && ("max_discard_ratio" in m <==> p.maxDiscardRatio != 10)
            && ("noshrink" in m <==> p.disableShrinking)
            && ("verbose_progress" in m <==> c.verboseProgress)
            && ("verbose_shrinking" in m <==> c.verboseShrinking)
            && ("reproduce" in m <==> c.reproduce != map[])
            && m["seed"] == IntText(p.seed)
    ensures var m, full := Parse(MinimalText(c, items)).value, Parse(ConfigText(c, items)).value;
            && (forall key :: key in m ==> key in full && m[key] == full[key])
            && full.Keys == {"seed", "max_success", "max_size", "max_discard_ratio", "noshrink",
                             "verbose_progress", "verbose_shrinking", "reproduce"}
  {
    hide MapFromConfig, MapText, Parse, MapFits, IntText, BoolText, EntriesToString;
    var full, d := MapFromConfig(c, items), MapFromConfig(DEFAULTS, []);
    ConfigEntries(c, items);
    ConfigEntries(DEFAULTS, []);
    MapTextReadsBack(full, false);
    MapTextReadsBack(MapDifference(full, DefaultMap()), false);
    NamesDiffer();
    IntTextsDiffer(c.testParams.maxSuccess, 100);
    IntTextsDiffer(c.testParams.maxSize, 100);
    IntTextsDiffer(c.testParams.maxDiscardRatio, 10);
    BoolTextsDiffer(c.testParams.disableShrinking, false);
    BoolTextsDiffer(c.verboseProgress, false);
    BoolTextsDiffer(c.verboseShrinking, false);
    ReproduceTextsDiffer(items, c.reproduce);
  }

  /** What the error of an unreadable text says. */
  lemma OpenQuoteReported(lead: Text, items: Items, quote: Char, chars: seq<(Char, bool)>, d: Config)
    requires Blanks(lead) && ProperItems(items) && (items != [] ==> items[|items| - 1].1 != [])
    requires (quote == '\'' || quote == '"') && forall i :: 0 <= i < |chars| ==> ProperIn(quote, chars[i])
    ensures var s := lead + (TextOf(items) + ([quote] + Body(chars)));
            ConfigFromString(s, d) == ConfigurationException(
              "Failed to parse configuration string -- " + ("@" + IntText(|s|) + ": " + "Unexpected end in quoted string"))
  {
    hide Parse, IntText, Blanks, ProperItems, TextOf, Body, ProperIn;
    OpenQuoteFails(lead, items, quote, chars);
  }
}
