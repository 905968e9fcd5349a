/** Configuration text: `key=value` pairs separated by white space, quoted where necessary. */
module MapParser {
  import opened Bits
  import opened Parsing
  import opened Serialization
  import opened StringMap
  import opened Options

  const UNTERMINATED := "Unexpected end in quoted string"

  // ------------------------------------------------------------------------------ characters

  /** The white space of the classic locale. */
  predicate IsSpace(c: Char) {
    c == ' ' || '\U{0009}' <= c <= '\U{000D}'
  }

  predicate IsQuote(c: Char) { c == '\'' || c == '"' }

  predicate IsKeyChar(c: Char) { c != '=' && !IsSpace(c) }

  predicate IsValueChar(c: Char) { !IsSpace(c) }

  predicate IsSpecial(c: Char) { IsSpace(c) || IsQuote(c) || c == '=' || c == '\\' }

  // --------------------------------------------------------------------------------- parsing

  /** How many characters `takeWhile` takes. */
  function Span(s: Text, p: Char -> bool): (n: nat)
    ensures n <= |s|
  {
    if s == [] || !p(s[0]) then 0 else 1 + Span(s[1..], p)
  }

  function DropSpace(s: Text): Text {
    s[Span(s, IsSpace)..]
  }

  /** The text up to the closing quote and what follows it; None if there is no closing quote.
      A backslash takes the next character literally. */
  function QuotedBody(quote: Char, s: Text, escape: bool): (r: Option<(Text, Text)>)
    ensures r.Some? ==> |r.value.1| < |s|
  {
    if s == [] then None
    else if !escape && s[0] == '\\' then QuotedBody(quote, s[1..], true)
    else if !escape && s[0] == quote then Some(([], s[1..]))
    else match QuotedBody(quote, s[1..], false)
         case None => None
         case Some((value, rest)) => Some(([s[0]] + value, rest))
  }

  function ParseString(s: Text, p: Char -> bool): (r: Option<(Text, Text)>)
    ensures r.Some? ==> |r.value.1| <= |s| && (r.value.0 != [] ==> |r.value.1| < |s|)
  {
    if s == [] then Some(([], []))
    else if IsQuote(s[0]) then QuotedBody(s[0], s[1..], false)
    else Some((s[..Span(s, p)], s[Span(s, p)..]))
  }

  datatype PairResult = Pair(key: Text, value: Text, rest: Text) | NoPair | Unterminated

  function ParsePair(s: Text): (r: PairResult)
    ensures r.Pair? ==> r.key != [] && |r.rest| < |s|
  {
    match ParseString(DropSpace(s), IsKeyChar)
    case None => Unterminated
    case Some((key, rest)) =>
      if key == [] then NoPair
      else if DropSpace(rest) == [] || DropSpace(rest)[0] != '=' then Pair(key, [], DropSpace(rest))
      else
        match ParseString(DropSpace(DropSpace(rest)[1..]), IsValueChar)
        case None => Unterminated
        case Some((value, rest')) => Pair(key, value, rest')
  }

  /** The pairs of s added to m, a later value replacing an earlier one; None if a quote stays open. */
  function ParsePairs(m: Dict, s: Text): Option<Dict>
    decreases |s|
  {
    match ParsePair(s)
    case NoPair => Some(m)
    case Unterminated => None
    case Pair(key, value, rest) => ParsePairs(m[key := value], rest)
  }

  function Parse(s: Text): Parsed<Dict> {
    match ParsePairs(map[], s)
    case Some(m) => Success(m)
    case None => ParseError(|s|, UNTERMINATED)
  }

  // -------------------------------------------------------------------------------- printing

  function EscapeChar(c: Char, quote: Char): Text {
    if c == quote || c == '\\' then ['\\', c] else [c]
  }

  function Escape(s: Text, quote: Char): Text {
    if s == [] then [] else EscapeChar(s[0], quote) + Escape(s[1..], quote)
  }

  function Quote(s: Text, quote: Char): Text {
    [quote] + Escape(s, quote) + [quote]
  }

  predicate HasSpecial(s: Text) {
    exists i :: 0 <= i < |s| && IsSpecial(s[i])
  }

  function MaybeQuote(s: Text, doubleQuote: bool): Text {
    if s == [] then ['"', '"']
    else if HasSpecial(s) then Quote(s, if doubleQuote then '"' else '\'')
    else s
  }

  function PrintPair(p: Pair, doubleQuote: bool): Text {
    if p.1 == [] then MaybeQuote(p.0, doubleQuote)
    else MaybeQuote(p.0, doubleQuote) + ['='] + MaybeQuote(p.1, doubleQuote)
  }

  /** The pairs in the order given, separated by single spaces. */
  function PrintPairs(items: seq<Pair>, doubleQuote: bool): Text {
    if items == [] then []
    else PrintPair(items[0], doubleQuote) + if |items| == 1 then [] else [' '] + PrintPairs(items[1..], doubleQuote)
  }

  // ---------------------------------------------------------------- reading back what is printed

  lemma {:induction false} SpanAt(s: Text, n: nat, p: Char -> bool)
    requires n <= |s| && (forall i :: 0 <= i < n ==> p(s[i])) && (n < |s| ==> !p(s[n]))
    ensures Span(s, p) == n
  {
    if n > 0 {
      SpanAt(s[1..], n - 1, p);
    }
  }

  lemma QuotedChar(c: Char, quote: Char, inner: Text, value: Text, tail: Text)
    requires IsQuote(quote) && QuotedBody(quote, inner, false) == Some((value, tail))
    ensures QuotedBody(quote, EscapeChar(c, quote) + inner, false) == Some(([c] + value, tail))
  {
    var input := EscapeChar(c, quote) + inner;
    if c == quote || c == '\\' {
      assert input[0] == '\\' && input[1] == c && input[1..][1..] == inner;
    } else {
      assert input[0] == c && input[1..] == inner;
    }
  }

  lemma {:induction false} QuotedReadsBack(s: Text, quote: Char, tail: Text)
    requires IsQuote(quote)
    ensures QuotedBody(quote, Escape(s, quote) + [quote] + tail, false) == Some((s, tail))
  {
    var input := Escape(s, quote) + [quote] + tail;
    if s == [] {
      assert input[0] == quote && input[1..] == tail;
    } else {
      hide QuotedBody, EscapeChar;
      var inner := Escape(s[1..], quote) + [quote] + tail;
      QuotedReadsBack(s[1..], quote, tail);
      QuotedChar(s[0], quote, inner, s[1..], tail);
      assert input == EscapeChar(s[0], quote) + inner;
      assert [s[0]] + s[1..] == s;
    }
  }

  /** Nothing follows that the string could swallow. */
  predicate Delimited(tail: Text, p: Char -> bool) {
    tail == [] || !p(tail[0])
  }

  lemma QuotedStringReadsBack(s: Text, quote: Char, p: Char -> bool, tail: Text)
    requires IsQuote(quote)
    ensures ParseString(Quote(s, quote) + tail, p) == Some((s, tail))
  {
    hide QuotedBody, Escape, Span;
    var body := Escape(s, quote) + [quote] + tail;
    assert Quote(s, quote) + tail == [quote] + body;
    assert ([quote] + body)[1..] == body;
    QuotedReadsBack(s, quote, tail);
  }

  lemma PlainStringReadsBack(s: Text, p: Char -> bool, tail: Text)
    requires s != [] && !HasSpecial(s)
    requires Delimited(tail, p) && forall c :: !IsSpecial(c) ==> p(c)
    ensures ParseString(s + tail, p) == Some((s, tail))
  {
    hide QuotedBody, Span;
    var input := s + tail;
    forall i | 0 <= i < |s| ensures !IsSpecial(s[i]) && input[i] == s[i] {
    }
    assert |s| < |input| ==> input[|s|] == tail[0];
    SpanAt(input, |s|, p);
    assert !IsSpecial(s[0]);
    assert input[..|s|] == s && input[|s|..] == tail;
  }

  lemma StringReadsBack(s: Text, doubleQuote: bool, p: Char -> bool, tail: Text)
    requires Delimited(tail, p) && forall c :: !IsSpecial(c) ==> p(c)
    ensures ParseString(MaybeQuote(s, doubleQuote) + tail, p) == Some((s, tail))
  {
    hide ParseString, HasSpecial, Quote;
    if s == [] {
      QuotedStringReadsBack([], '"', p, tail);
      QuoteNothing('"');
    } else if HasSpecial(s) {
      QuotedStringReadsBack(s, if doubleQuote then '"' else '\'', p, tail);
    } else {
      PlainStringReadsBack(s, p, tail);
    }
  }

  lemma QuoteNothing(quote: Char)
    ensures Quote([], quote) == [quote, quote]
  {
  }

  lemma PrintedStart(s: Text, doubleQuote: bool)
    ensures MaybeQuote(s, doubleQuote) != []
    ensures !IsSpace(MaybeQuote(s, doubleQuote)[0]) && MaybeQuote(s, doubleQuote)[0] != '='
  {
    if s != [] && !HasSpecial(s) {
      assert !IsSpecial(s[0]);
    }
  }

  lemma DropSpaceNone(s: Text)
    requires s == [] || !IsSpace(s[0])
    ensures DropSpace(s) == s
  {
  }

  /** What may follow a printed pair: nothing, or white space and then no '='. */
  predicate PairEnd(tail: Text) {
    tail == [] || (IsSpace(tail[0]) && (DropSpace(tail) == [] || DropSpace(tail)[0] != '='))
  }

  lemma KeyReadsBack(key: Text, doubleQuote: bool, tail: Text)
    requires key != [] && PairEnd(tail)
    ensures var r := ParsePair(MaybeQuote(key, doubleQuote) + tail);
            r.Pair? && r.key == key && r.value == [] && DropSpace(r.rest) == DropSpace(tail)
  {
    hide MaybeQuote, ParseString, Span;
    PrintedStart(key, doubleQuote);
    DropSpaceNone(MaybeQuote(key, doubleQuote) + tail);
    StringReadsBack(key, doubleQuote, IsKeyChar, tail);
    DropSpaceTwice(tail);
  }

  lemma KeyValueReadsBack(key: Text, value: Text, doubleQuote: bool, tail: Text)
    requires key != [] && (tail == [] || IsSpace(tail[0]))
    ensures ParsePair(MaybeQuote(key, doubleQuote) + (['='] + (MaybeQuote(value, doubleQuote) + tail)))
         == PairResult.Pair(key, value, tail)
  {
    hide MaybeQuote, ParseString, DropSpace;
    var after := MaybeQuote(value, doubleQuote) + tail;
    var equals: Text := ['='] + after;
    PrintedStart(key, doubleQuote);
    DropSpaceNone(MaybeQuote(key, doubleQuote) + equals);
    StringReadsBack(key, doubleQuote, IsKeyChar, equals);
    DropSpaceNone(equals);
    assert equals[1..] == after;
    PrintedStart(value, doubleQuote);
    DropSpaceNone(after);
    StringReadsBack(value, doubleQuote, IsValueChar, tail);
  }

  lemma PairReadsBack(p: Pair, doubleQuote: bool, tail: Text)
    requires p.0 != [] && PairEnd(tail)
    ensures var r := ParsePair(PrintPair(p, doubleQuote) + tail);
            r.Pair? && r.key == p.0 && r.value == p.1 && DropSpace(r.rest) == DropSpace(tail)
  {
    hide MaybeQuote, ParsePair, DropSpace;
    if p.1 == [] {
      KeyReadsBack(p.0, doubleQuote, tail);
    } else {
      var key, value := MaybeQuote(p.0, doubleQuote), MaybeQuote(p.1, doubleQuote);
      KeyValueReadsBack(p.0, p.1, doubleQuote, tail);
      assert key + ['='] + value + tail == key + (['='] + (value + tail));
    }
  }

  lemma {:induction false} SpanStops(s: Text, p: Char -> bool)
    ensures Span(s, p) == |s| || !p(s[Span(s, p)])
  {
    if s != [] && p(s[0]) {
      SpanStops(s[1..], p);
    }
  }

  lemma DropSpaceTwice(s: Text)
    ensures DropSpace(DropSpace(s)) == DropSpace(s)
  {
    SpanStops(s, IsSpace);
  }

  lemma SkippingSpace(s: Text, t: Text, m: Dict)
    requires DropSpace(s) == DropSpace(t)
    ensures ParsePairs(m, s) == ParsePairs(m, t)
  {
  }

  lemma PrintedPairsStart(items: seq<Pair>, doubleQuote: bool)
    requires items != []
    ensures PrintPairs(items, doubleQuote) != []
    ensures !IsSpace(PrintPairs(items, doubleQuote)[0]) && PrintPairs(items, doubleQuote)[0] != '='
  {
    hide MaybeQuote;
    PrintedStart(items[0].0, doubleQuote);
  }

  function AddAll(m: Dict, items: seq<Pair>): Dict
    decreases |items|
  {
    if items == [] then m else AddAll(m[items[0].0 := items[0].1], items[1..])
  }

  lemma ParsePairsStep(m: Dict, s: Text)
    requires ParsePair(s).Pair?
    ensures ParsePairs(m, s) == ParsePairs(m[ParsePair(s).key := ParsePair(s).value], ParsePair(s).rest)
  {
  }

  /** What follows the first printed pair, which reads on like the other pairs. */
  lemma PrintedTail(items: seq<Pair>, doubleQuote: bool) returns (tail: Text)
    requires items != []
    ensures PrintPairs(items, doubleQuote) == PrintPair(items[0], doubleQuote) + tail
    ensures PairEnd(tail) && DropSpace(tail) == DropSpace(PrintPairs(items[1..], doubleQuote))
  {
    hide PrintPair;
    var printed := PrintPairs(items[1..], doubleQuote);
    tail := if |items| == 1 then [] else [' '] + printed;
    if |items| > 1 {
      PrintedPairsStart(items[1..], doubleQuote);
      DropOneSpace(printed);
    }
  }

  lemma {:induction false} PairsReadBack(m: Dict, items: seq<Pair>, doubleQuote: bool)
    requires forall i :: 0 <= i < |items| ==> items[i].0 != []
    ensures ParsePairs(m, PrintPairs(items, doubleQuote)) == Some(AddAll(m, items))
    decreases |items|
  {
    hide ParsePair, PrintPair, DropSpace, PairEnd;
    if items == [] {
      NothingToParse();
    } else {
      hide ParsePairs, PrintPairs;
      var p, m' := items[0], m[items[0].0 := items[0].1];
      var s, printed := PrintPairs(items, doubleQuote), PrintPairs(items[1..], doubleQuote);
      var tail := PrintedTail(items, doubleQuote);
      PairReadsBack(p, doubleQuote, tail);
      ParsePairsStep(m, s);
      SkippingSpace(ParsePair(s).rest, printed, m');
      PairsReadBack(m', items[1..], doubleQuote);
    }
  }

  lemma NothingToParse()
    ensures ParsePair([]) == NoPair
  {
  }

  lemma DropOneSpace(s: Text)
    requires s != [] && !IsSpace(s[0])
    ensures DropSpace([' '] + s) == s == DropSpace(s)
  {
    SpanAt([' '] + s, 1, IsSpace);
  }

  lemma {:induction false} AddAllAt(m: Dict, items: seq<Pair>, key: Text)
    requires forall i, j :: 0 <= i < j < |items| ==> items[i].0 != items[j].0
    ensures key in AddAll(m, items) <==> key in m || exists i :: 0 <= i < |items| && items[i].0 == key
    ensures forall i :: 0 <= i < |items| && items[i].0 == key ==> AddAll(m, items)[key] == items[i].1
    ensures key in m && (forall i :: 0 <= i < |items| ==> items[i].0 != key) ==> AddAll(m, items)[key] == m[key]
    decreases |items|
  {
    if items != [] {
      AddAllAt(m[items[0].0 := items[0].1], items[1..], key);
      assert forall i :: 1 <= i < |items| ==> items[i] == items[1..][i - 1];
      assert forall i :: 0 <= i < |items[1..]| ==> items[1..][i] == items[i + 1];
    }
  }

  lemma AddAllEnumeration(items: seq<Pair>, m: Dict)
    requires Enumerates(items, m)
    ensures AddAll(map[], items) == m
  {
    forall key ensures key in AddAll(map[], items) <==> key in m
               ensures key in m ==> AddAll(map[], items)[key] == m[key] {
      AddAllAt(map[], items, key);
    }
  }

  lemma {:induction false} ParsedKeys(m: Dict, s: Text)
    requires [] !in m && ParsePairs(m, s).Some?
    ensures [] !in ParsePairs(m, s).value
    decreases |s|
  {
    match ParsePair(s)
    case Pair(key, value, rest) => ParsedKeys(m[key := value], rest);
    case _ =>
  }

  /** In any order and with either quote, a map reads back exactly when it has no empty key: an
      empty key ends the parsing, so it and all pairs behind it are lost. */
  lemma PrintedMapReadsBack(items: seq<Pair>, m: Dict, doubleQuote: bool)
    requires Enumerates(items, m)
    ensures Parse(PrintPairs(items, doubleQuote)) == Success(m) <==> [] !in m
  {
    hide ParsePairs, PrintPairs;
    if [] !in m {
      forall i | 0 <= i < |items| ensures items[i].0 != [] {
        assert items[i].0 in m;
      }
      PairsReadBack(map[], items, doubleQuote);
      AddAllEnumeration(items, m);
    } else if ParsePairs(map[], PrintPairs(items, doubleQuote)).Some? {
      ParsedKeys(map[], PrintPairs(items, doubleQuote));
    }
  }

  // ------------------------------------------------------------------------ whole maps as text

  ghost function MapText(m: Dict, doubleQuote: bool): Text {
    PrintPairs(Items(m), doubleQuote)
  }

  lemma MapTextReadsBack(m: Dict, doubleQuote: bool)
    ensures Parse(MapText(m, doubleQuote)) == Success(m) <==> [] !in m
  {
    ItemsEnumerate(m);
    PrintedMapReadsBack(Items(m), m, doubleQuote);
  }

  /** Parsing and printing again, which quotes and orders the pairs in one way. */
  ghost function Normalised(s: Text, doubleQuote: bool): Parsed<Text> {
    match Parse(s)
    case Success(m) => Success(MapText(m, doubleQuote))
    case ParseError(pos, message) => ParseError(pos, message)
  }

  /** Normalising keeps what the text says and is idempotent, whichever quotes come last. */
  lemma NormaliserIdempotent(s: Text, first: bool, second: bool)
    requires Parse(s).Success?
    ensures Parse(Normalised(s, first).value) == Parse(s)
    ensures Normalised(Normalised(s, first).value, second) == Normalised(s, second)
  {
    hide ParsePairs, MapText;
    ParsedKeys(map[], s);
    MapTextReadsBack(Parse(s).value, first);
  }

  // ---------------------------------------------------------------------------- the parser's state

  /** The position in the string being parsed, which the parsing methods move. */
  class ParseState {
    const str: Text
    var pos: nat

    ghost predicate Valid()
      reads this
    {
      pos <= |str|
    }

    ghost function Rest(): Text
      reads this
      requires Valid()
    {
      str[pos..]
    }

    constructor (str: Text, pos: nat)
      requires pos <= |str|
      ensures Valid() && this.str == str && this.pos == pos
    {
      this.str, this.pos := str, pos;
    }

    predicate End()
      reads this
    {
      pos >= |str|
    }

    method TakeWhile(p: Char -> bool) returns (result: Text)
      requires Valid()
      modifies this
      ensures Valid()
      ensures result == old(Rest())[..Span(old(Rest()), p)]
      ensures Rest() == old(Rest())[Span(old(Rest()), p)..]
    {
      var start := pos;
      while !End() && p(str[pos])
        invariant start <= pos <= |str|
        invariant Span(str[start..], p) == pos - start + Span(str[pos..], p)
        decreases |str| - pos
      {
        assert str[pos..][1..] == str[pos + 1..];
        pos := pos + 1;
      }
      result := str[start..pos];
    }

    method SkipSpace()
      requires Valid()
      modifies this
      ensures Valid() && Rest() == DropSpace(old(Rest()))
    {
      var space := TakeWhile(IsSpace);
    }

    /** ok: a quoted string was read; thrown: its end was missing; neither: there is no quote. */
    method ParseQuotedString() returns (ok: bool, thrown: bool, value: Text)
      requires Valid() && !End()
      modifies this
      ensures Valid()
      ensures !IsQuote(old(Rest())[0]) ==> !ok && !thrown && pos == old(pos)
      ensures IsQuote(old(Rest())[0]) ==>
        match QuotedBody(old(Rest())[0], old(Rest())[1..], false)
        case Some((v, rest)) => ok && !thrown && value == v && Rest() == rest
        case None => !ok && thrown && pos == |str|
    {
      var quote := str[pos];
      value := [];
      if !IsQuote(quote) {
        return false, false, value;
      }
      pos := pos + 1;
      ghost var start := pos;
      ghost var body := QuotedBody(quote, str[start..], false);
      if body.Some? {
        assert [] + body.value.0 == body.value.0;
      }
      var escape := false;
      while !End()
        invariant start <= pos <= |str|
        invariant QuotedBody(quote, str[start..], false) ==
                  match QuotedBody(quote, str[pos..], escape)
                  case None => None
                  case Some((v, rest)) => Some((value + v, rest))
        decreases |str| - pos
      {
        var c := str[pos];
        assert str[pos..][1..] == str[pos + 1..];
        if !escape && c == '\\' {
          escape := true;
        } else if !escape && c == quote {
          pos := pos + 1;
          assert value + [] == value;
          return true, false, value;
        } else {
          ghost var tail := QuotedBody(quote, str[pos + 1..], false);
          if tail.Some? {
            assert value + ([c] + tail.value.0) == value + [c] + tail.value.0;
          }
          value := value + [c];
          escape := false;
        }
        pos := pos + 1;
      }
      return false, true, value;
    }

    method ParseStringOrQuoted(p: Char -> bool) returns (thrown: bool, value: Text)
      requires Valid()
      modifies this
      ensures Valid()
      ensures match ParseString(old(Rest()), p)
              case Some((v, rest)) => !thrown && value == v && Rest() == rest
              case None => thrown && pos == |str|
    {
      thrown := false;
      if End() {
        value := [];
      } else {
        var ok;
        ok, thrown, value := ParseQuotedString();
        if !ok && !thrown {
          value := TakeWhile(p);
        }
      }
    }
  }

  /** Parses a pair from a copy of the state and moves the state only if there is one. */
  method ParsePairAt(s0: ParseState) returns (r: Option<Pair>, thrown: bool)
    requires s0.Valid()
    modifies s0
    ensures s0.Valid()
    ensures match ParsePair(old(s0.Rest()))
            case Pair(key, value, rest) => r == Some((key, value)) && !thrown && s0.Rest() == rest
            case NoPair => r == None && !thrown && s0.pos == old(s0.pos)
            case Unterminated => r == None && thrown && s0.pos == old(s0.pos)
  {
    hide ParseString, DropSpace;
    var s1 := new ParseState(s0.str, s0.pos);
    s1.SkipSpace();
    var key, value;
    thrown, key := s1.ParseStringOrQuoted(IsKeyChar);
    if thrown || key == [] {
      return None, thrown;
    }
    s1.SkipSpace();
    if s1.End() || s1.str[s1.pos] != '=' {
      value := [];
    } else {
      s1.pos := s1.pos + 1;
      s1.SkipSpace();
      thrown, value := s1.ParseStringOrQuoted(IsValueChar);
      if thrown {
        return None, true;
      }
    }
    s0.pos := s1.pos;
    return Some((key, value)), false;
  }

  /** Every accepted pair moves the position forward, so the loop ends. */
  method ParseMap(str: Text) returns (r: Parsed<Dict>)
    ensures r == Parse(str)
  {
    hide ParsePair;
    var config: Dict := map[];
    var state := new ParseState(str, 0);
    assert str[0..] == str;
    var pair, thrown := ParsePairAt(state);
    ghost var before := str;
    while pair.Some?
      invariant state.Valid() && state.str == str
      invariant match ParsePair(before)
                case Pair(key, value, rest) => pair == Some((key, value)) && !thrown && state.Rest() == rest
                case NoPair => pair == None && !thrown
                case Unterminated => pair == None && thrown
      invariant ParsePairs(map[], str) == ParsePairs(config, before)
      decreases |before|
    {
      config := config[pair.value.0 := pair.value.1];
      before := state.Rest();
      pair, thrown := ParsePairAt(state);
    }
    if thrown {
      return ParseError(|str|, UNTERMINATED);
    }
    return Success(config);
  }

  // --------------------------------------------------------------------------------- printers

  method QuoteString(str: Text, quoteChar: Char) returns (result: Text)
    ensures result == Quote(str, quoteChar)
  {
    var escaped: Text := [];
    for i := 0 to |str|
      invariant escaped == Escape(str[..i], quoteChar)
    {
      EscapeSnoc(str[..i], str[i], quoteChar);
      assert str[..i + 1] == str[..i] + [str[i]];
      if str[i] == quoteChar || str[i] == '\\' {
        escaped := escaped + ['\\'];
      }
      escaped := escaped + [str[i]];
    }
    assert str[..|str|] == str;
    return [quoteChar] + escaped + [quoteChar];
  }

  lemma {:induction false} EscapeSnoc(s: Text, c: Char, quote: Char)
    ensures Escape(s + [c], quote) == Escape(s, quote) + EscapeChar(c, quote)
  {
    hide EscapeChar;
    var all, last := s + [c], EscapeChar(c, quote);
    if s == [] {
      assert all[0] == c && all[1..] == [];
      assert last + [] == last == [] + last;
    } else {
      var head, more := EscapeChar(s[0], quote), Escape(s[1..], quote);
      EscapeSnoc(s[1..], c, quote);
      assert all[0] == s[0] && all[1..] == s[1..] + [c];
      assert head + (more + last) == head + more + last;
    }
  }

  method MaybeQuoteString(str: Text, doubleQuote: bool) returns (result: Text)
    ensures result == MaybeQuote(str, doubleQuote)
  {
    if str == [] {
      return ['"', '"'];
    }
    var hasSpecialChar := exists i :: 0 <= i < |str| && IsSpecial(str[i]);
    if hasSpecialChar {
      result := QuoteString(str, if doubleQuote then '"' else '\'');
    } else {
      result := str;
    }
  }

  method PairToString(pair: Pair, doubleQuote: bool) returns (result: Text)
    ensures result == PrintPair(pair, doubleQuote)
  {
    result := MaybeQuoteString(pair.0, doubleQuote);
    if pair.1 != [] {
      var value := MaybeQuoteString(pair.1, doubleQuote);
      result := result + ['='] + value;
    }
  }

  /** The pairs still to be printed behind another one. */
  function PrintMore(items: seq<Pair>, doubleQuote: bool): Text {
    if items == [] then [] else [' '] + PrintPairs(items, doubleQuote)
  }

  lemma PrintPairsHead(m: Dict, doubleQuote: bool)
    requires m != map[]
    ensures var key := Least(m.Keys);
            key in m && MapText(m, doubleQuote)
                     == PrintPair((key, m[key]), doubleQuote) + PrintMore(Items(m - {key}), doubleQuote)
  {
    hide PrintPair, Items;
    ItemsHead(m);
    assert Items(m)[1..] == Items(m - {Least(m.Keys)});
  }

  method NextKey(rest: Dict) returns (key: Text)
    requires rest != map[]
    ensures key in rest && key == Least(rest.Keys)
  {
    LeastExists(rest.Keys);
    ghost var least :| IsLeast(least, rest.Keys);
    assert least in rest && forall k :: k in rest ==> LexLeq(least, k);
    key :| key in rest && forall k :: k in rest ==> LexLeq(key, k);
    LeastUnique(key, rest.Keys);
  }

  method MapToString(m: Dict, doubleQuote: bool) returns (str: Text)
    ensures str == MapText(m, doubleQuote)
  {
    hide PrintPair, Items, Least, LexLeq, PrintPairs;
    str := [];
    if m == map[] {
      NothingToPrint(doubleQuote);
      return;
    }
    var key := NextKey(m);
    PrintPairsHead(m, doubleQuote);
    var printed := PairToString((key, m[key]), doubleQuote);
    str := str + printed;
    var rest := m - {key};
    while rest != map[]
      invariant forall k :: k in rest ==> k in m && rest[k] == m[k]
      invariant str + PrintMore(Items(rest), doubleQuote) == MapText(m, doubleQuote)
      decreases |rest|
    {
      key := NextKey(rest);
      RemoveOne(rest, key);
      PrintPairsHead(rest, doubleQuote);
      PrintMoreHead(rest, doubleQuote);
      printed := PairToString((key, m[key]), doubleQuote);
      JoinMore(str, printed, PrintMore(Items(rest - {key}), doubleQuote));
      str := str + ([' '] + printed);
      rest := rest - {key};
    }
    NothingToPrint(doubleQuote);
  }

  lemma NothingToPrint(doubleQuote: bool)
    ensures MapText(map[], doubleQuote) == [] && PrintMore(Items(map[]), doubleQuote) == []
  {
  }

  lemma PrintMoreHead(m: Dict, doubleQuote: bool)
    requires m != map[]
    ensures PrintMore(Items(m), doubleQuote) == [' '] + MapText(m, doubleQuote)
  {
  }

  lemma JoinMore(str: Text, printed: Text, more: Text)
    ensures str + ([' '] + printed) + more == str + ([' '] + (printed + more))
  {
  }
}
