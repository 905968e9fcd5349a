/** Configuration text as people write it: pairs in any spacing and quoting. */
module FreeText {
  import opened Bits
  import opened Options
  import opened Parsing
  import opened StringMap
  import opened MapParser

  predicate Blank(c: Char) {
    c == ' ' || c == '\t' || c == '\n' || c == '\U{000B}' || c == '\U{000C}' || c == '\r'
  }

  predicate Blanks(s: Text) {
    forall i :: 0 <= i < |s| ==> Blank(s[i])
  }

  /** A string can be written as it is, or between quotes of either kind, where any character may
      have a backslash in front of it. */
  datatype Written = Plain(text: Text) | Quoted(quote: Char, chars: seq<(Char, bool)>) {

    function Spelling(): Text {
      match this
      case Plain(text) => text
      case Quoted(quote, chars) => [quote] + Body(chars) + [quote]
    }

    function Meaning(): Text {
      match this
      case Plain(text) => text
      case Quoted(_, chars) => Characters(chars)
    }

    /** Plain text holds no white space, and does not start with a quote; in quotes the closing one
        and the backslash need a backslash. */
    predicate Proper() {
      match this
      case Plain(text) =>
        && text != [] && text[0] != '\'' && text[0] != '"'
        && (forall i :: 0 <= i < |text| ==> !Blank(text[i]))
      case Quoted(quote, chars) =>
        && (quote == '\'' || quote == '"')
        && (forall i :: 0 <= i < |chars| ==> ProperIn(quote, chars[i]))
    }

    /** A key that is written plainly does not hold an equals sign either, and no key is empty. */
    predicate ProperKey() {
      && Proper() && Meaning() != []
      && (Plain? ==> forall i :: 0 <= i < |text| ==> text[i] != '=')
    }
  }

  predicate ProperIn(quote: Char, c: (Char, bool)) {
    c.0 == quote || c.0 == '\\' ==> c.1
  }

  function Character(c: Char, escaped: bool): Text {
    if escaped then ['\\', c] else [c]
  }

  function Body(chars: seq<(Char, bool)>): Text {
    if chars == [] then [] else Character(chars[0].0, chars[0].1) + Body(chars[1..])
  }

  function Characters(chars: seq<(Char, bool)>): Text {
    if chars == [] then [] else [chars[0].0] + Characters(chars[1..])
  }

  /** A key alone, or with a value, and white space around the equals sign. */
  datatype Item = Alone(key: Written) | Assigned(key: Written, before: Text, after: Text, value: Written) {

    function Spelling(): Text {
      match this
      case Alone(key) => key.Spelling()
      case Assigned(key, before, after, value) => key.Spelling() + (before + (['='] + (after + value.Spelling())))
    }

    function Meaning(): Pair {
      match this
      case Alone(key) => (key.Meaning(), [])
      case Assigned(key, _, _, value) => (key.Meaning(), value.Meaning())
    }

    predicate Proper() {
      && key.ProperKey()
      && (Assigned? ==> value.Proper() && Blanks(before) && Blanks(after))
    }
  }

  /** Each item with the white space behind it, without which only the last one may be. */
  type Items = seq<(Item, Text)>

  function TextOf(items: Items): Text {
    if items == [] then [] else items[0].0.Spelling() + (items[0].1 + TextOf(items[1..]))
  }

  predicate ProperItems(items: Items) {
    forall i :: 0 <= i < |items| ==>
      items[i].0.Proper() && Blanks(items[i].1) && (i < |items| - 1 ==> items[i].1 != [])
  }

  /** The pairs in order, a later value replacing an earlier one. */
  function Meanings(m: Dict, items: Items): Dict
    decreases |items|
  {
    if items == [] then m else Meanings(m[items[0].0.Meaning().0 := items[0].0.Meaning().1], items[1..])
  }

  predicate LastFor(items: Items, key: Text, i: int) {
    0 <= i < |items| && items[i].0.Meaning().0 == key && forall j :: i < j < |items| ==> items[j].0.Meaning().0 != key
  }

  /** Each key has the value it is last given, and there are no others. */
  lemma {:induction false} LastValueCounts(m: Dict, items: Items, key: Text)
    ensures key in Meanings(m, items) <==> key in m || exists i :: 0 <= i < |items| && items[i].0.Meaning().0 == key
    ensures forall i :: LastFor(items, key, i) ==> Meanings(m, items)[key] == items[i].0.Meaning().1
    ensures key in m && (forall i :: 0 <= i < |items| ==> items[i].0.Meaning().0 != key) ==>
      Meanings(m, items)[key] == m[key]
    decreases |items|
  {
    if items != [] {
      var m', rest := m[items[0].0.Meaning().0 := items[0].0.Meaning().1], items[1..];
      LastValueCounts(m', rest, key);
      assert forall i :: 1 <= i < |items| ==> items[i] == rest[i - 1];
      assert forall i :: 0 <= i < |rest| ==> rest[i] == items[i + 1];
    }
  }

  // ---------------------------------------------------------------------------- it reads back

  lemma BlankIsSpace(c: Char)
    ensures Blank(c) <==> IsSpace(c)
  {
  }

  lemma {:induction false} DropBlanks(s: Text, t: Text)
    requires Blanks(s)
    ensures DropSpace(s + t) == DropSpace(t)
  {
    if s == [] {
      assert s + t == t;
    } else {
      BlankIsSpace(s[0]);
      assert (s + t)[1..] == s[1..] + t;
      DropBlanks(s[1..], t);
      DropFirst(s + t);
    }
  }

  lemma DropFirst(s: Text)
    requires s != [] && IsSpace(s[0])
    ensures DropSpace(s) == DropSpace(s[1..])
  {
    assert s[1 + Span(s[1..], IsSpace)..] == s[1..][Span(s[1..], IsSpace)..];
  }

  lemma BodyChar(c: Char, escaped: bool, quote: Char, inner: Text, value: Text, tail: Text)
    requires ProperIn(quote, (c, escaped))
    requires QuotedBody(quote, inner, false) == Some((value, tail))
    ensures QuotedBody(quote, Character(c, escaped) + inner, false) == Some(([c] + value, tail))
  {
    var input := Character(c, escaped) + inner;
    if escaped {
      assert input[0] == '\\' && input[1..][0] == c && input[1..][1..] == inner;
    } else {
      assert input[0] == c && input[1..] == inner;
    }
  }

  lemma {:induction false} BodyReads(quote: Char, chars: seq<(Char, bool)>, tail: Text)
    requires IsQuote(quote) && forall i :: 0 <= i < |chars| ==> ProperIn(quote, chars[i])
    ensures QuotedBody(quote, Body(chars) + ([quote] + tail), false) == Some((Characters(chars), tail))
  {
    var end: Text := [quote] + tail;
    if chars == [] {
      assert Body(chars) + end == end && end[1..] == tail;
    } else {
      hide QuotedBody, Character, ProperIn, IsQuote;
      var rest := chars[1..];
      BodyReads(quote, rest, tail);
      BodyChar(chars[0].0, chars[0].1, quote, Body(rest) + end, Characters(rest), tail);
      Regrouped(Character(chars[0].0, chars[0].1), Body(rest), end);
    }
  }

  lemma Regrouped(s: Text, t: Text, u: Text)
    ensures s + t + u == s + (t + u)
  {
  }

  lemma PlainReads(text: Text, p: Char -> bool, tail: Text)
    requires Plain(text).Proper() && Delimited(tail, p) && forall i :: 0 <= i < |text| ==> p(text[i])
    ensures ParseString(text + tail, p) == Some((text, tail))
  {
    hide QuotedBody, Span;
    var s := text + tail;
    assert forall i :: 0 <= i < |text| ==> s[i] == text[i];
    assert |text| < |s| ==> s[|text|] == tail[0];
    SpanAt(s, |text|, p);
    assert s[..|text|] == text && s[|text|..] == tail;
  }

  lemma QuotedReads(w: Written, p: Char -> bool, tail: Text)
    requires w.Quoted? && w.Proper()
    ensures ParseString(w.Spelling() + tail, p) == Some((w.Meaning(), tail))
  {
    hide QuotedBody, Span, Body, Characters;
    var inner := Body(w.chars) + ([w.quote] + tail);
    BodyReads(w.quote, w.chars, tail);
    assert w.Spelling() + tail == [w.quote] + inner;
    assert ([w.quote] + inner)[1..] == inner;
  }

  lemma WrittenReads(w: Written, p: Char -> bool, tail: Text)
    requires w.Proper() && (w.Plain? ==> Delimited(tail, p) && forall i :: 0 <= i < |w.text| ==> p(w.text[i]))
    ensures ParseString(w.Spelling() + tail, p) == Some((w.Meaning(), tail))
  {
    hide ParseString;
    match w {
      case Plain(text) => PlainReads(text, p, tail);
      case Quoted(_, _) => QuotedReads(w, p, tail);
    }
  }

  lemma FirstCharacter(w: Written)
    requires w.Proper()
    ensures w.Spelling() != [] && !Blank(w.Spelling()[0]) && (w.ProperKey() ==> w.Spelling()[0] != '=')
  {
    hide Body, Characters;
  }

  /** A written string starts with something that is neither white space nor, for a key, an equals sign. */
  lemma WrittenStart(w: Written, tail: Text)
    requires w.Proper()
    ensures var s := w.Spelling() + tail;
            s != [] && !IsSpace(s[0]) && DropSpace(s) == s && (w.ProperKey() ==> s[0] != '=')
  {
    FirstCharacter(w);
    BlankIsSpace(w.Spelling()[0]);
    var s := w.Spelling() + tail;
    assert s[0] == w.Spelling()[0];
    DropSpaceNone(s);
    hide Span, IsSpace, DropSpace, Blank;
  }

  lemma KeyReads(key: Written, tail: Text)
    requires key.ProperKey() && (tail == [] || IsSpace(tail[0]) || tail[0] == '=')
    ensures ParseString(DropSpace(key.Spelling() + tail), IsKeyChar) == Some((key.Meaning(), tail))
  {
    hide Span, DropSpace, ParseString;
    WrittenStart(key, tail);
    if key.Plain? {
      forall i | 0 <= i < |key.text| ensures IsKeyChar(key.text[i]) {
        BlankIsSpace(key.text[i]);
      }
    }
    WrittenReads(key, IsKeyChar, tail);
  }

  lemma ValueReads(value: Written, tail: Text)
    requires value.Proper() && (tail == [] || IsSpace(tail[0]))
    ensures ParseString(DropSpace(value.Spelling() + tail), IsValueChar) == Some((value.Meaning(), tail))
  {
    hide Span, DropSpace, ParseString;
    WrittenStart(value, tail);
    if value.Plain? {
      forall i | 0 <= i < |value.text| ensures IsValueChar(value.text[i]) {
        BlankIsSpace(value.text[i]);
      }
    }
    WrittenReads(value, IsValueChar, tail);
  }

  lemma BlanksStart(s: Text, t: Text)
    requires Blanks(s)
    ensures s != [] ==> (s + t) != [] && IsSpace((s + t)[0])
    ensures s == [] ==> s + t == t
  {
    if s != [] {
      BlankIsSpace(s[0]);
    }
  }

  /** What follows an item: nothing, or white space and then nothing or another item. */
  predicate ItemEnd(tail: Text) {
    (tail == [] || IsSpace(tail[0])) && (DropSpace(tail) == [] || DropSpace(tail)[0] != '=')
  }

  lemma AssignedReads(item: Item, tail: Text)
    requires item.Assigned? && item.Proper() && (tail == [] || IsSpace(tail[0]))
    ensures ParsePair(item.Spelling() + tail) == PairResult.Pair(item.Meaning().0, item.Meaning().1, tail)
  {
    hide ParseString, DropSpace, Blanks, IsSpace;
    var value := item.value.Spelling() + tail;
    var equals: Text := ['='] + (item.after + value);
    assert item.Spelling() + tail == item.key.Spelling() + (item.before + equals);
    BlanksStart(item.before, equals);
    KeyReads(item.key, item.before + equals);
    DropBlanks(item.before, equals);
    EqualsIsNoSpace();
    DropSpaceNone(equals);
    assert equals[1..] == item.after + value;
    DropBlanks(item.after, value);
    ValueReads(item.value, tail);
  }

  lemma EqualsIsNoSpace()
    ensures !IsSpace('=')
  {
  }

  lemma AloneReads(item: Item, tail: Text)
    requires item.Alone? && item.Proper() && ItemEnd(tail)
    ensures ParsePair(item.Spelling() + tail) == PairResult.Pair(item.Meaning().0, item.Meaning().1, DropSpace(tail))
  {
    hide ParseString, DropSpace, IsSpace;
    KeyReads(item.key, tail);
  }

  lemma ItemReads(item: Item, tail: Text)
    requires item.Proper() && ItemEnd(tail)
    ensures var r := ParsePair(item.Spelling() + tail);
            r.Pair? && (r.key, r.value) == item.Meaning() && DropSpace(r.rest) == DropSpace(tail)
  {
    hide ParsePair, DropSpace, IsSpace;
    if item.Assigned? {
      AssignedReads(item, tail);
    } else {
      AloneReads(item, tail);
      DropSpaceTwice(tail);
    }
  }

  lemma ItemStart(item: Item, tail: Text)
    requires item.Proper()
    ensures var s := item.Spelling() + tail;
            DropSpace(s) == s && s != [] && s[0] != '='
  {
    hide DropSpace, Blanks, IsSpace;
    if item.Assigned? {
      var after := item.before + (['='] + (item.after + item.value.Spelling()));
      WrittenStart(item.key, after + tail);
      Regrouped(item.key.Spelling(), after, tail);
    } else {
      WrittenStart(item.key, tail);
    }
  }

  /** What is not an item may come behind, if it starts neither with white space nor with '='. */
  predicate Follows(more: Text) {
    DropSpace(more) == more && (more == [] || more[0] != '=')
  }

  lemma ItemsStart(items: Items, more: Text)
    requires ProperItems(items) && Follows(more)
    ensures Follows(TextOf(items) + more)
  {
    hide DropSpace, Blanks, IsSpace;
    if items == [] {
      assert TextOf(items) + more == more;
    } else {
      assert items[0].0.Proper();
      RegroupedItem(items, more);
      ItemStart(items[0].0, items[0].1 + (TextOf(items[1..]) + more));
    }
  }

  lemma RegroupedItem(items: Items, more: Text)
    requires items != []
    ensures TextOf(items) + more == items[0].0.Spelling() + (items[0].1 + (TextOf(items[1..]) + more))
  {
    Regrouped(items[0].0.Spelling(), items[0].1 + TextOf(items[1..]), more);
    Regrouped(items[0].1, TextOf(items[1..]), more);
  }

  lemma {:induction false} ItemsRead(m: Dict, items: Items, more: Text)
    requires ProperItems(items) && Follows(more) && (items != [] && more != [] ==> items[|items| - 1].1 != [])
    ensures ParsePairs(m, TextOf(items) + more) == ParsePairs(Meanings(m, items), more)
    decreases |items|
  {
    hide ParsePair, DropSpace, Blanks, IsSpace, ParsePairs, Follows;
    if items == [] {
      assert TextOf(items) + more == more;
    } else {
      var item, gap, rest := items[0].0, items[0].1, items[1..];
      var tail, meaning := TextOf(rest) + more, item.Meaning();
      ProperTail(items);
      ItemsStart(rest, more);
      BlanksStart(gap, tail);
      DropBlanks(gap, tail);
      EndOfItem(gap, tail);
      ItemReads(item, gap + tail);
      RegroupedItem(items, more);
      ParsePairsStep(m, TextOf(items) + more);
      SkippingSpace(ParsePair(TextOf(items) + more).rest, tail, m[meaning.0 := meaning.1]);
      ItemsRead(m[meaning.0 := meaning.1], rest, more);
    }
  }

  lemma ProperTail(items: Items)
    requires items != [] && ProperItems(items)
    ensures items[0].0.Proper() && Blanks(items[0].1) && (|items| > 1 ==> items[0].1 != [])
    ensures ProperItems(items[1..]) && (|items| > 1 ==> items[1..][|items| - 2] == items[|items| - 1])
  {
    hide Blanks;
    var rest := items[1..];
    assert forall i :: 0 <= i < |rest| ==> rest[i] == items[i + 1];
  }

  lemma EndOfItem(gap: Text, tail: Text)
    requires Blanks(gap) && Follows(tail) && (tail != [] ==> gap != [])
    ensures ItemEnd(gap + tail)
  {
    hide DropSpace, IsSpace, Blanks;
    BlanksStart(gap, tail);
    DropBlanks(gap, tail);
  }

  lemma ParsePairsEnd(m: Dict, s: Text)
    ensures ParsePair(s).NoPair? ==> ParsePairs(m, s) == Some(m)
    ensures ParsePair(s).Unterminated? ==> ParsePairs(m, s) == None
  {
  }

  /** Text in any spacing and quoting parses to what it says. */
  lemma FreeTextReads(lead: Text, items: Items)
    requires Blanks(lead) && ProperItems(items)
    ensures Parse(lead + TextOf(items)) == Success(Meanings(map[], items))
  {
    hide ParsePairs, DropSpace, Blanks;
    DropBlanks(lead, TextOf(items));
    SkippingSpace(lead + TextOf(items), TextOf(items), map[]);
    DropSpaceNone([]);
    ItemsRead(map[], items, []);
    assert TextOf(items) + [] == TextOf(items);
    NothingToParse();
    ParsePairsEnd(Meanings(map[], items), []);
  }

  lemma {:induction false} BodyStaysOpen(quote: Char, chars: seq<(Char, bool)>)
    requires forall i :: 0 <= i < |chars| ==> ProperIn(quote, chars[i])
    ensures QuotedBody(quote, Body(chars), false) == None
  {
    if chars != [] {
      var rest := Body(chars[1..]);
      BodyStaysOpen(quote, chars[1..]);
      if chars[0].1 {
        assert Body(chars)[1..][0] == chars[0].0 && Body(chars)[1..][1..] == rest;
      } else {
        assert Body(chars)[0] == chars[0].0 && Body(chars)[1..] == rest;
      }
    }
  }

  /** A quote that is never closed makes the whole text malformed; the end is where that is noticed. */
  lemma OpenQuoteFails(lead: Text, items: Items, quote: Char, chars: seq<(Char, bool)>)
    requires Blanks(lead) && ProperItems(items) && (items != [] ==> items[|items| - 1].1 != [])
    requires (quote == '\'' || quote == '"') && forall i :: 0 <= i < |chars| ==> ProperIn(quote, chars[i])
    ensures var s := lead + (TextOf(items) + ([quote] + Body(chars)));
            Parse(s) == ParseError(|s|, "Unexpected end in quoted string")
  {
    hide ParsePairs, Blanks, QuotedBody, Body;
    var more: Text := [quote] + Body(chars);
    BodyStaysOpen(quote, chars);
    DropSpaceNone(more);
    assert more[1..] == Body(chars);
    assert ParsePair(more).Unterminated?;
    hide DropSpace, ParsePair;
    DropBlanks(lead, TextOf(items) + more);
    SkippingSpace(lead + (TextOf(items) + more), TextOf(items) + more, map[]);
    ItemsRead(map[], items, more);
    ParsePairsEnd(Meanings(map[], items), more);
  }

  lemma EmptyKey(quote: Char, more: Text)
    requires quote == '\'' || quote == '"'
    ensures Follows([quote, quote] + more) && ParsePair([quote, quote] + more).NoPair?
  {
    hide ParseString;
    var w := Quoted(quote, []);
    assert w.Spelling() == [quote, quote] && w.Meaning() == [];
    QuotedReads(w, IsKeyChar, more);
    DropSpaceNone([quote, quote] + more);
    hide DropSpace;
  }

  /** A text ends for the parser where a key is empty. */
  lemma EmptyKeyEnds(lead: Text, items: Items, quote: Char, more: Text)
    requires Blanks(lead) && ProperItems(items) && (items != [] ==> items[|items| - 1].1 != [])
    requires quote == '\'' || quote == '"'
    ensures Parse(lead + (TextOf(items) + ([quote, quote] + more))) == Success(Meanings(map[], items))
  {
    hide ParsePairs, Blanks;
    var end: Text := [quote, quote] + more;
    EmptyKey(quote, more);
    hide DropSpace, ParsePair;
    DropBlanks(lead, TextOf(items) + end);
    SkippingSpace(lead + (TextOf(items) + end), TextOf(items) + end, map[]);
    ItemsRead(map[], items, end);
    ParsePairsEnd(Meanings(map[], items), end);
  }

  // ------------------------------------------------------------------------- what is printed

  predicate Special(c: Char) {
    Blank(c) || c == '\'' || c == '"' || c == '=' || c == '\\'
  }

  /** How the printer writes a string: plainly if nothing in it is special and there is something,
      otherwise in quotes with no backslash more than needed; the empty string in double quotes. */
  predicate Printed(w: Written, s: Text, doubleQuote: bool) {
    && w.Proper() && w.Meaning() == s
    && (w.Plain? <==> s != [] && forall i :: 0 <= i < |s| ==> !Special(s[i]))
    && (w.Quoted? ==>
          && w.quote == (if doubleQuote || s == [] then '"' else '\'')
          && forall i :: 0 <= i < |w.chars| ==> (w.chars[i].1 <==> w.chars[i].0 == w.quote || w.chars[i].0 == '\\'))
  }

  function Escaped(s: Text, quote: Char): (chars: seq<(Char, bool)>)
    ensures forall i :: 0 <= i < |chars| ==> (chars[i].1 <==> chars[i].0 == quote || chars[i].0 == '\\')
  {
    if s == [] then [] else [(s[0], s[0] == quote || s[0] == '\\')] + Escaped(s[1..], quote)
  }

  lemma {:induction false} EscapedIs(s: Text, quote: Char)
    ensures Body(Escaped(s, quote)) == Escape(s, quote) && Characters(Escaped(s, quote)) == s
  {
    if s != [] {
      EscapedIs(s[1..], quote);
      assert [s[0]] + s[1..] == s;
    }
  }

  lemma SpecialIs(s: Text)
    ensures HasSpecial(s) <==> exists i :: 0 <= i < |s| && Special(s[i])
  {
    forall i | 0 <= i < |s| ensures IsSpecial(s[i]) <==> Special(s[i]) {
      BlankIsSpace(s[i]);
    }
  }

  lemma PrintedString(s: Text, doubleQuote: bool) returns (w: Written)
    ensures MaybeQuote(s, doubleQuote) == w.Spelling() && Printed(w, s, doubleQuote)
  {
    SpecialIs(s);
    var quote: Char := if doubleQuote || s == [] then '"' else '\'';
    EscapedIs(s, quote);
    if s != [] && !HasSpecial(s) {
      w := Plain(s);
    } else {
      hide HasSpecial, Special, Blank, Escape, Escaped, Body, Characters;
      w := Quoted(quote, Escaped(s, quote));
      if s == [] {
        NothingQuoted(quote);
      }
    }
  }

  lemma NothingQuoted(quote: Char)
    ensures Escape([], quote) == []
  {
  }

  /** A pair is printed without a value that is empty, and without spaces. */
  predicate PrintedItem(item: Item, p: Pair, doubleQuote: bool) {
    && Printed(item.key, p.0, doubleQuote)
    && (item.Assigned? <==> p.1 != [])
    && (item.Assigned? ==> item.before == [] && item.after == [] && Printed(item.value, p.1, doubleQuote))
  }

  /** An item for each pair and single spaces between them. */
  predicate PrintedItems(items: Items, pairs: seq<Pair>, doubleQuote: bool) {
    && |items| == |pairs|
    && (forall i :: 0 <= i < |items| ==>
          PrintedItem(items[i].0, pairs[i], doubleQuote) && items[i].1 == (if i < |items| - 1 then [' '] else []))
  }

  lemma PrintedPair(p: Pair, doubleQuote: bool) returns (item: Item)
    ensures PrintPair(p, doubleQuote) == item.Spelling() && PrintedItem(item, p, doubleQuote)
  {
    hide MaybeQuote, Printed;
    var key := PrintedString(p.0, doubleQuote);
    item := Alone(key);
    if p.1 != [] {
      var value := PrintedString(p.1, doubleQuote);
      item := Assigned(key, [], [], value);
      NoBlanks(key.Spelling(), value.Spelling());
    }
  }

  lemma NoBlanks(k: Text, v: Text)
    ensures k + ([] + (['='] + ([] + v))) == k + ['='] + v
  {
  }

  /** A printed list of pairs, and so a printed map in the order of its keys, is a text of this form. */
  lemma {:induction false} PrintedMap(pairs: seq<Pair>, doubleQuote: bool) returns (items: Items)
    ensures PrintPairs(pairs, doubleQuote) == TextOf(items) && PrintedItems(items, pairs, doubleQuote)
    decreases |pairs|
  {
    hide PrintPair, PrintedItem;
    if pairs == [] {
      items := [];
    } else {
      var rest := PrintedMap(pairs[1..], doubleQuote);
      var item := PrintedPair(pairs[0], doubleQuote);
      var gap: Text := if |pairs| == 1 then [] else [' '];
      items := [(item, gap)] + rest;
      assert items[1..] == rest;
      assert forall i :: 1 <= i < |items| ==> items[i] == rest[i - 1] && pairs[i] == pairs[1..][i - 1];
      if |pairs| == 1 {
        assert TextOf(rest) == [] && gap + TextOf(rest) == [];
      }
    }
  }
}
