/** The Base64 variant of the configuration strings: groups of three bytes, least significant
    first, no padding, and `_` where the standard alphabet has `/`. */
module Base64 {
  import opened Bits
  import opened Serialization
  import opened Parsing

  const BAD_LENGTH := "Invalid number of characters for Base64"
  const BAD_CHARACTER := "Invalid Base64 character"

  // ------------------------------------------------------------------------------ the alphabet

  /** Character i of A-Z, a-z, 0-9, +, _. */
  function Symbol(i: nat): Char
    requires i < 64
  {
    if i < 26 then (i + 65) as char
    else if i < 52 then (i + 71) as char
    else if i < 62 then (i - 4) as char
    else if i == 62 then '+' else '_'
  }

  /** The table that maps every character to its place in the alphabet, or to -1. */
  function Reverse(c: Char): (x: int)
    ensures -1 <= x < 64
  {
    if c == '+' then 62
    else if '0' <= c <= '9' then c as int + 4
    else if 'A' <= c <= 'Z' then c as int - 65
    else if c == '_' then 63
    else if 'a' <= c <= 'z' then c as int - 71
    else -1
  }

  predicate InAlphabet(c: Char) {
    Reverse(c) != -1
  }

  predicate AllInAlphabet(s: Text) {
    forall i :: 0 <= i < |s| ==> InAlphabet(s[i])
  }

  lemma ReverseSymbol(i: nat)
    requires i < 64
    ensures Reverse(Symbol(i)) == i
  {
  }

  lemma SymbolReverse(c: Char)
    requires InAlphabet(c)
    ensures Symbol(Reverse(c)) == c
  {
  }

  const UPPER: string := "ABCDEFGHIJKLMNOPQRSTUVWXYZ"
  const LOWER: string := "abcdefghijklmnopqrstuvwxyz"
  const OTHERS: string := "0123456789+_"

  lemma Places(i: nat)
    ensures i < 26 ==> UPPER[i] == (i + 65) as char && LOWER[i] == (i + 97) as char
    ensures i < 10 ==> OTHERS[i] == (i + 48) as char
  {
  }

  /** The alphabet in order, and the table that leads back. */
  lemma Alphabet()
    ensures |UPPER + LOWER + OTHERS| == 64
    ensures forall i :: 0 <= i < 64 ==> Symbol(i) == (UPPER + LOWER + OTHERS)[i]
    ensures forall c: Char ::
      (InAlphabet(c) <==> c in UPPER + LOWER + OTHERS) && (InAlphabet(c) ==> (UPPER + LOWER + OTHERS)[Reverse(c)] == c)
  {
    var all := UPPER + LOWER + OTHERS;
    forall i | 0 <= i < 64 ensures Symbol(i) == all[i] {
      Places(i);
      Places(if i < 26 then i else if i < 52 then i - 26 else i - 52);
    }
    hide Reverse, Symbol;
    forall c: Char ensures (InAlphabet(c) <==> c in all) && (InAlphabet(c) ==> all[Reverse(c)] == c) {
      if InAlphabet(c) {
        SymbolReverse(c);
        assert all[Reverse(c)] == c;
      }
      if c in all {
        var i :| 0 <= i < 64 && all[i] == c;
        ReverseSymbol(i);
      }
    }
  }

  // ------------------------------------------------------------------------- groups of digits

  function Min(x: nat, y: nat): nat { if x < y then x else y }

  /** The number whose base-256 digits are the given bytes. */
  function FromDigits256(bs: Bytes): nat {
    if bs == [] then 0 else bs[0] + 0x100 * FromDigits256(bs[1..])
  }

  /** The number whose base-64 digits the given characters stand for. */
  function FromSymbols(s: Text): nat
    requires AllInAlphabet(s)
  {
    if s == [] then 0
    else
      assert InAlphabet(s[0]);
      Reverse(s[0]) + 64 * FromSymbols(s[1..])
  }

  /** The n low base-64 digits of v. */
  function Symbols(v: nat, n: nat): (s: Text)
    ensures |s| == n
  {
    if n == 0 then [] else [Symbol(v % 64)] + Symbols(v / 64, n - 1)
  }

  /** Three bytes, or what is left of them, become one more characters than they are. */
  function EncodeGroup(bs: Bytes): Text {
    Symbols(FromDigits256(bs), |bs| + 1)
  }

  /** Four characters, or what is left of them, hold one byte less than they are. */
  function DecodeGroup(s: Text): Bytes
    requires s != [] && AllInAlphabet(s)
  {
    EncodeFixed(FromSymbols(s), |s| - 1)
  }

  function Encode(data: Bytes): Text {
    if data == [] then []
    else
      var n := Min(3, |data|);
      EncodeGroup(data[..n]) + Encode(data[n..])
  }

  /** The bytes of a text whose characters are all in the alphabet. */
  function DecodeGroups(s: Text): Bytes
    requires AllInAlphabet(s)
  {
    if s == [] then []
    else
      var n := Min(4, |s|);
      DecodeGroup(s[..n]) + DecodeGroups(s[n..])
  }

  /** The first position at or after `from` whose character is not in the alphabet, or |s|. */
  function FirstBad(s: Text, from: nat): (pos: nat)
    requires from <= |s|
    ensures from <= pos <= |s|
    ensures forall i :: from <= i < pos ==> InAlphabet(s[i])
    ensures pos < |s| ==> !InAlphabet(s[pos])
    decreases |s| - from
  {
    if from == |s| || !InAlphabet(s[from]) then from else FirstBad(s, from + 1)
  }

  function Decode(s: Text): Parsed<Bytes> {
    if |s| % 4 == 1 then ParseError(|s|, BAD_LENGTH)
    else
      var bad := FirstBad(s, 0);
      if bad < |s| then ParseError(bad, BAD_CHARACTER) else Success(DecodeGroups(s))
  }

  // ------------------------------------------------------------------------------- properties

  lemma Pow2More()
    ensures Pow2(6) == 64 && Pow2(16) == 0x1_0000 && Pow2(24) == 0x100_0000
  {
    Pow2Values();
    Pow2Sum(8, 8);
    Pow2Sum(8, 16);
  }

  lemma {:induction false} SymbolsInAlphabet(v: nat, n: nat)
    ensures AllInAlphabet(Symbols(v, n))
    ensures FromSymbols(Symbols(v, n)) == Wrap(v, 6 * n)
  {
    hide Pow2, Reverse, Symbol;
    Pow2Values();
    if n > 0 {
      Pow2More();
      SymbolsInAlphabet(v / 64, n - 1);
      var s := Symbols(v, n);
      ReverseSymbol(v % 64);
      assert s[1..] == Symbols(v / 64, n - 1);
      assert forall i :: 1 <= i < n ==> s[i] == s[1..][i - 1];
      WrapStep(v, 6, 6 * (n - 1));
      assert 6 + 6 * (n - 1) == 6 * n;
    }
  }

  lemma {:induction false} Digits256(bs: Bytes)
    ensures FromDigits256(bs) < Pow2(8 * |bs|)
    ensures EncodeFixed(FromDigits256(bs), |bs|) == bs
  {
    hide Pow2;
    Pow2Values();
    if bs != [] {
      var rest := bs[1..];
      var v, high := FromDigits256(bs), FromDigits256(rest);
      Digits256(rest);
      Pow2Sum(8, 8 * |rest|);
      assert 8 + 8 * |rest| == 8 * |bs|;
      assert v == bs[0] + 0x100 * high;
      assert v % 0x100 == bs[0] && v / 0x100 == high;
      assert EncodeFixed(v, |bs|) == [bs[0]] + EncodeFixed(high, |rest|);
    }
  }

  lemma {:induction false} EncodeFixedDigits(v: nat, n: nat)
    ensures FromDigits256(EncodeFixed(v, n)) == Wrap(v, 8 * n)
  {
    hide Pow2;
    Pow2Values();
    if n > 0 {
      EncodeFixedDigits(v / 0x100, n - 1);
      assert EncodeFixed(v, n)[1..] == EncodeFixed(v / 0x100, n - 1);
      WrapStep(v, 8, 8 * (n - 1));
      assert 8 + 8 * (n - 1) == 8 * n;
    }
  }

  lemma {:induction false} SymbolsFromSymbols(s: Text)
    requires AllInAlphabet(s)
    ensures FromSymbols(s) < Pow2(6 * |s|)
    ensures Symbols(FromSymbols(s), |s|) == s
  {
    hide Pow2, Reverse, Symbol;
    Pow2Values();
    if s != [] {
      assert InAlphabet(s[0]);
      var x, rest := Reverse(s[0]), s[1..];
      var v, high := FromSymbols(s), FromSymbols(rest);
      SymbolsFromSymbols(rest);
      SymbolReverse(s[0]);
      Pow2More();
      Pow2Sum(6, 6 * |rest|);
      assert 6 + 6 * |rest| == 6 * |s|;
      assert v % 64 == x && v / 64 == high;
      assert Symbols(v, |s|) == [Symbol(x)] + Symbols(high, |rest|);
    }
  }

  lemma GroupRoundTrip(bs: Bytes)
    requires 1 <= |bs| <= 3
    ensures AllInAlphabet(EncodeGroup(bs)) && DecodeGroup(EncodeGroup(bs)) == bs
  {
    hide Pow2, Wrap;
    var v := FromDigits256(bs);
    SymbolsInAlphabet(v, |bs| + 1);
    Digits256(bs);
    Pow2Grows(8 * |bs|, 6 * (|bs| + 1));
    WrapSmall(v, 6 * (|bs| + 1));
  }

  lemma {:induction false} EncodedLength(data: Bytes)
    ensures |Encode(data)| == (|data| * 4 + 2) / 3
  {
    if data != [] {
      EncodedLength(data[Min(3, |data|)..]);
    }
  }

  /** A full group of bytes, or a shorter last one, is encoded on its own. */
  lemma EncodeFirst(group: Bytes, rest: Bytes)
    requires 1 <= |group| <= 3 && (|group| < 3 ==> rest == [])
    ensures Encode(group + rest) == EncodeGroup(group) + Encode(rest)
  {
    hide EncodeGroup;
    var data := group + rest;
    assert Min(3, |data|) == |group|;
    assert data[..|group|] == group && data[|group|..] == rest;
  }

  /** A full group of characters, or a shorter last one, is decoded on its own. */
  lemma DecodeFirst(group: Text, rest: Text)
    requires 1 <= |group| <= 4 && (|group| < 4 ==> rest == [])
    requires AllInAlphabet(group) && AllInAlphabet(rest)
    ensures AllInAlphabet(group + rest)
    ensures DecodeGroups(group + rest) == DecodeGroup(group) + DecodeGroups(rest)
  {
    hide DecodeGroup, InAlphabet;
    var s := group + rest;
    assert Min(4, |s|) == |group|;
    assert s[..|group|] == group && s[|group|..] == rest;
  }

  lemma {:induction false} GroupsRoundTrip(data: Bytes)
    ensures AllInAlphabet(Encode(data)) && DecodeGroups(Encode(data)) == data
  {
    if data != [] {
      hide Encode, DecodeGroups, EncodeGroup, DecodeGroup, AllInAlphabet;
      var n := Min(3, |data|);
      var group, rest := data[..n], data[n..];
      assert data == group + rest;
      GroupRoundTrip(group);
      GroupsRoundTrip(rest);
      EncodedGroupLength(group);
      assert n < 3 ==> Encode(rest) == [] by {
        EncodedLength(rest);
      }
      EncodeFirst(group, rest);
      DecodeFirst(EncodeGroup(group), Encode(rest));
    }
  }

  lemma EncodedGroupLength(bs: Bytes)
    ensures |EncodeGroup(bs)| == |bs| + 1
  {
  }

  /** Decoding an encoding gives the data back. */
  lemma DecodeEncode(data: Bytes)
    ensures Decode(Encode(data)) == Success(data)
  {
    hide Encode, DecodeGroups, InAlphabet;
    GroupsRoundTrip(data);
    EncodedLength(data);
    var groups, rest := |data| / 3, |data| % 3;
    assert |Encode(data)| == 4 * groups + (if rest == 0 then 0 else rest + 1);
  }

  /** Decoding succeeds on exactly the texts over the alphabet of a possible length, and otherwise
      reports the length first, then the first character that does not belong. */
  lemma DecodeSucceeds(s: Text)
    ensures Decode(s).Success? <==> |s| % 4 != 1 && AllInAlphabet(s)
    ensures Decode(s).ParseError? && |s| % 4 != 1 ==>
      Decode(s).pos < |s| && !InAlphabet(s[Decode(s).pos]) && AllInAlphabet(s[..Decode(s).pos])
      && Decode(s).message == "Invalid Base64 character"
    ensures |s| % 4 == 1 ==> Decode(s) == ParseError(|s|, "Invalid number of characters for Base64")
  {
    var bad := FirstBad(s, 0);
  }

  /** The bits of the last character that belong to no byte are zero. */
  predicate NoStrayBits(s: Text) {
    && (|s| % 4 == 2 ==> Reverse(s[|s| - 1]) < 4)
    && (|s| % 4 == 3 ==> Reverse(s[|s| - 1]) < 16)
  }

  lemma GroupReencodes(s: Text)
    requires 2 <= |s| <= 4 && AllInAlphabet(s)
    ensures EncodeGroup(DecodeGroup(s)) == s <==> NoStrayBits(s)
  {
    hide Pow2, Wrap, AllInAlphabet, FromSymbols, Symbols, EncodeFixed, FromDigits256, NoStrayBits;
    var v := FromSymbols(s);
    var n := |s| - 1;
    var low := Wrap(v, 8 * n);
    EncodeFixedDigits(v, n);
    SymbolsFromSymbols(s);
    SymbolsInAlphabet(low, |s|);
    WrapBound(v, 8 * n);
    WrapBound(low, 6 * |s|);
    if v < Pow2(8 * n) {
      WrapSmall(v, 8 * n);
    }
    assert EncodeGroup(DecodeGroup(s)) == s <==> v < Pow2(8 * n);
    StrayBits(s);
    Pow2More();
    Pow2Values();
  }

  lemma AlphabetDigits(s: Text)
    requires AllInAlphabet(s)
    ensures forall i :: 0 <= i < |s| ==> 0 <= Reverse(s[i]) < 64
  {
    forall i | 0 <= i < |s| ensures 0 <= Reverse(s[i]) < 64 {
      assert InAlphabet(s[i]);
    }
  }

  lemma StrayBits(s: Text)
    requires 2 <= |s| <= 4 && AllInAlphabet(s)
    ensures |s| == 2 ==> (FromSymbols(s) < 0x100 <==> NoStrayBits(s))
    ensures |s| == 3 ==> (FromSymbols(s) < 0x1_0000 <==> NoStrayBits(s))
    ensures |s| == 4 ==> FromSymbols(s) < 0x100_0000 && NoStrayBits(s)
  {
    hide InAlphabet, Reverse;
    AlphabetDigits(s);
    var x0, x1 := Reverse(s[0]), Reverse(s[1]);
    assert s[1..][1..] == s[2..];
    assert FromSymbols(s) == x0 + 64 * (x1 + 64 * FromSymbols(s[2..]));
    if |s| == 2 {
      assert s[2..] == [];
    } else {
      assert s[2..][1..] == s[3..];
      assert FromSymbols(s[2..]) == Reverse(s[2]) + 64 * FromSymbols(s[3..]);
      if |s| == 3 {
        assert s[3..] == [];
      } else {
        assert s[3..][1..] == [];
        assert FromSymbols(s[3..]) == Reverse(s[3]);
      }
    }
  }

  /** Re-encoding what was decoded gives the text back exactly when it had no stray bits. */
  lemma {:induction false} GroupsReencode(s: Text)
    requires AllInAlphabet(s) && |s| % 4 != 1
    ensures Encode(DecodeGroups(s)) == s <==> NoStrayBits(s)
  {
    if s != [] {
      hide Encode, DecodeGroups, EncodeGroup, DecodeGroup, InAlphabet, NoStrayBits;
      var n := Min(4, |s|);
      var group, rest := s[..n], s[n..];
      assert s == group + rest;
      GroupReencodes(group);
      GroupsReencode(rest);
      DecodedGroupLength(group);
      EncodedGroupLength(DecodeGroup(group));
      DecodeFirst(group, rest);
      assert n < 4 ==> DecodeGroups(rest) == [] by {
        DecodeNothing(rest);
      }
      EncodeFirst(DecodeGroup(group), DecodeGroups(rest));
      StrayBitsAtTheEnd(group, rest);
      var again, after := EncodeGroup(DecodeGroup(group)), Encode(DecodeGroups(rest));
      if again + after == s {
        assert (again + after)[..n] == group && (again + after)[n..] == rest;
      }
    }
  }

  lemma DecodeNothing(s: Text)
    requires AllInAlphabet(s)
    ensures s == [] ==> DecodeGroups(s) == []
  {
  }

  lemma StrayBitsAtTheEnd(group: Text, rest: Text)
    requires 2 <= |group| <= 4 && (|group| < 4 ==> rest == []) && |rest| % 4 != 1
    requires AllInAlphabet(group) && AllInAlphabet(rest)
    ensures NoStrayBits(group + rest) <==> NoStrayBits(group) && NoStrayBits(rest)
  {
    hide Reverse;
    if rest == [] {
      assert group + rest == group;
    }
  }

  lemma DecodedGroupLength(s: Text)
    requires s != [] && AllInAlphabet(s)
    ensures |DecodeGroup(s)| == |s| - 1
  {
  }

  lemma EncodeDecode(s: Text)
    requires Decode(s).Success?
    ensures Encode(Decode(s).value) == s <==> NoStrayBits(s)
  {
    DecodeSucceeds(s);
    GroupsReencode(s);
  }

  // ------------------------------------------------------------------------- the two algorithms

  lemma {:induction false} SnocSum(bs: Bytes, b: Byte)
    ensures FromDigits256(bs + [b]) == FromDigits256(bs) + Shl(b, 8 * |bs|)
  {
    hide Pow2;
    Pow2Values();
    if bs == [] {
      assert [b][1..] == [];
    } else {
      SnocSum(bs[1..], b);
      assert (bs + [b])[1..] == bs[1..] + [b];
      ShlMore(b, 8, 8 * |bs[1..]|);
    }
  }

  /** Gathers the bytes from i on, at most three of them. */
  method GatherBytes(data: Bytes, i: nat) returns (bits: nat, nbits: nat)
    requires i < |data|
    ensures var group := data[i..Min(|data|, i + 3)];
            bits == FromDigits256(group) && nbits == 8 * |group|
  {
    hide Pow2, FromDigits256;
    Digits256([]);
    Pow2Values();
    bits, nbits := 0, 0;
    assert data[i..i] == [];
    for j := i to Min(|data|, i + 3)
      invariant nbits == 8 * (j - i)
      invariant bits == FromDigits256(data[i..j])
    {
      assert data[i..j + 1] == data[i..j] + [data[j]];
      SnocSum(data[i..j], data[j]);
      Digits256(data[i..j]);
      OrDisjoint(bits, data[j], nbits);
      bits := Or(bits, Shl(data[j], nbits));
      nbits := nbits + 8;
    }
  }

  /** Appends characters while there are bits left. */
  method AppendSymbols(bits: nat, nbits: nat, output: Text, ghost nbytes: nat) returns (result: Text)
    requires nbits == 8 * nbytes && 1 <= nbytes <= 3
    ensures result == output + Symbols(bits, nbytes + 1)
  {
    result := output;
    var left, nleft: int := bits, nbits;
    ghost var k := 0;
    while nleft > 0
      invariant 0 <= k <= nbytes + 1 && nleft == nbits - 6 * k && left >= 0
      invariant result + Symbols(left, nbytes + 1 - k) == output + Symbols(bits, nbytes + 1)
      decreases nleft
    {
      result := result + [Symbol(left % 64)];
      nleft := nleft - 6;
      left := left / 64;
      k := k + 1;
    }
  }

  method Base64Encode(data: Bytes) returns (output: Text)
    ensures output == Encode(data)
  {
    hide Encode, EncodeFrom, Symbols;
    output := [];
    var i := 0;
    EncodeEnds(data);
    while i < |data|
      invariant 0 <= i
      invariant Encode(data) == output + EncodeFrom(data, i)
      decreases |data| - i
    {
      var bits, nbits := GatherBytes(data, i);
      EncodeStep(data, i);
      output := AppendSymbols(bits, nbits, output, |data[i..Min(|data|, i + 3)]|);
      i := i + 3;
    }
  }

  /** What is still to come at position i, which may have run past the end. */
  function EncodeFrom(data: Bytes, i: nat): Text {
    if i < |data| then Encode(data[i..]) else []
  }

  lemma EncodeEnds(data: Bytes)
    ensures EncodeFrom(data, 0) == Encode(data)
    ensures forall i :: |data| <= i ==> EncodeFrom(data, i) == []
  {
    assert data[0..] == data;
  }

  lemma EncodeStep(data: Bytes, i: nat)
    requires i < |data|
    ensures var group := data[i..Min(|data|, i + 3)];
            EncodeFrom(data, i) == Symbols(FromDigits256(group), |group| + 1) + EncodeFrom(data, i + 3)
  {
    hide Symbols, FromDigits256;
    var rest, n := data[i..], Min(3, |data[i..]|);
    var group := data[i..Min(|data|, i + 3)];
    assert rest[..n] == group;
    assert Encode(rest) == EncodeGroup(group) + Encode(rest[n..]);
    if i + 3 < |data| {
      assert rest[n..] == data[i + 3..];
    } else {
      assert rest[n..] == [];
    }
  }

  // ------------------------------------------------------------------------------- decoding

  lemma {:induction false} SnocSymbol(s: Text, c: Char)
    requires AllInAlphabet(s) && InAlphabet(c)
    ensures AllInAlphabet(s + [c]) && FromSymbols(s + [c]) == FromSymbols(s) + Shl(Reverse(c), 6 * |s|)
  {
    hide Pow2, Reverse;
    Pow2Values();
    Pow2More();
    if s == [] {
      assert [c][1..] == [];
    } else {
      SnocSymbol(s[1..], c);
      assert (s + [c])[1..] == s[1..] + [c];
      assert InAlphabet(s[0]);
      ShlMore(Reverse(c), 6, 6 * |s[1..]|);
    }
  }

  /** Gathers the characters from i on, at most four of them; stops at a foreign one. */
  method GatherSymbols(data: Text, i: nat) returns (bits: nat, nbits: nat, bad: nat)
    requires i < |data|
    ensures i <= bad <= Min(|data|, i + 4) && AllInAlphabet(data[i..bad])
    ensures bad < Min(|data|, i + 4) ==> !InAlphabet(data[bad])
    ensures bits == FromSymbols(data[i..bad]) && nbits == 6 * (bad - i)
  {
    hide Pow2, Reverse;
    bits, nbits := 0, 0;
    assert data[i..i] == [];
    var j := i;
    while j < Min(|data|, i + 4)
      invariant i <= j <= Min(|data|, i + 4) && nbits == 6 * (j - i)
      invariant AllInAlphabet(data[i..j]) && bits == FromSymbols(data[i..j])
    {
      var x := Reverse(data[j]);
      if x == -1 {
        return bits, nbits, j;
      }
      assert data[i..j + 1] == data[i..j] + [data[j]];
      SnocSymbol(data[i..j], data[j]);
      SymbolsFromSymbols(data[i..j]);
      OrDisjoint(bits, x, nbits);
      bits := Or(bits, Shl(x, nbits));
      nbits := nbits + 6;
      j := j + 1;
    }
    return bits, nbits, j;
  }

  /** Appends bytes while there are eight bits left. */
  method AppendBytes(bits: nat, nbits: nat, output: Bytes, ghost n: nat) returns (result: Bytes)
    requires nbits == 6 * n && 2 <= n <= 4
    ensures result == output + EncodeFixed(bits, n - 1)
  {
    result := output;
    var left, nleft := bits, nbits;
    ghost var k := 0;
    while nleft >= 8
      invariant 0 <= k <= n - 1 && nleft == nbits - 8 * k && left >= 0
      invariant result + EncodeFixed(left, n - 1 - k) == output + EncodeFixed(bits, n - 1)
    {
      result := result + [left % 0x100];
      nleft := nleft - 8;
      left := left / 0x100;
      k := k + 1;
    }
  }

  function DecodeFrom(s: Text, i: nat): Bytes
    requires AllInAlphabet(s)
  {
    if i < |s| then DecodeGroups(s[i..]) else []
  }

  lemma DecodeEnds(s: Text)
    requires AllInAlphabet(s)
    ensures DecodeFrom(s, 0) == DecodeGroups(s)
    ensures forall i :: |s| <= i ==> DecodeFrom(s, i) == []
  {
    assert s[0..] == s;
  }

  lemma DecodeStep(s: Text, i: nat)
    requires i < |s| && AllInAlphabet(s)
    ensures AllInAlphabet(s[i..Min(|s|, i + 4)])
    ensures var group := s[i..Min(|s|, i + 4)];
            DecodeFrom(s, i) == EncodeFixed(FromSymbols(group), |group| - 1) + DecodeFrom(s, i + 4)
  {
    hide EncodeFixed, FromSymbols, InAlphabet;
    var rest, n := s[i..], Min(4, |s[i..]|);
    var group := s[i..Min(|s|, i + 4)];
    assert rest[..n] == group;
    assert DecodeGroups(rest) == DecodeGroup(group) + DecodeGroups(rest[n..]);
    if i + 4 < |s| {
      assert rest[n..] == s[i + 4..];
    } else {
      assert rest[n..] == [];
    }
  }

  lemma {:induction false} FirstBadAt(s: Text, from: nat, bad: nat)
    requires from <= bad < |s| && !InAlphabet(s[bad])
    requires forall i :: from <= i < bad ==> InAlphabet(s[i])
    ensures FirstBad(s, from) == bad
    decreases bad - from
  {
    if from < bad {
      FirstBadAt(s, from + 1, bad);
    }
  }

  method Base64Decode(data: Text) returns (result: Parsed<Bytes>)
    ensures result == Decode(data)
  {
    hide Reverse, InAlphabet, FirstBad, FromSymbols, EncodeFixed, DecodeGroups, DecodeFrom;
    if |data| % 4 == 1 {
      return ParseError(|data|, BAD_LENGTH);
    }
    var output: Bytes := [];
    var i := 0;
    if AllInAlphabet(data) {
      DecodeEnds(data);
    }
    while i < |data|
      invariant 0 <= i && i % 4 == 0
      invariant forall j :: 0 <= j < i && j < |data| ==> InAlphabet(data[j])
      invariant AllInAlphabet(data) ==> DecodeGroups(data) == output + DecodeFrom(data, i)
      decreases |data| - i
    {
      var bits, nbits, bad := GatherSymbols(data, i);
      var end := Min(|data|, i + 4);
      assert forall j :: i <= j < bad ==> data[j] == data[i..bad][j - i];
      if bad < end {
        FirstBadAt(data, 0, bad);
        return ParseError(bad, BAD_CHARACTER);
      }
      if AllInAlphabet(data) {
        DecodeStep(data, i);
      }
      output := AppendBytes(bits, nbits, output, end - i);
      i := i + 4;
    }
    DecodeSucceeds(data);
    assert AllInAlphabet(data);
    assert output + [] == output;
    return Success(output);
  }
}
