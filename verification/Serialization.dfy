/** The byte codecs: little-endian integers, compact integers in seven-bit groups, strings,
    ranges, pairs and maps. An input iterator is the sequence of bytes still to be read; an
    output iterator is the sequence of bytes written so far. */
module Serialization {
  import opened Bits

  type Bytes = seq<Byte>

  /** What a decoder does: it returns a value and the input it has not read, or throws
      SerializationException("Unexpected end of input"), or std::length_error, or runs into undefined
      behaviour of the language (a shift by the width of the type or more, a read past the end). */
  datatype Decoded<+T> = Ok(value: T, rest: Bytes) | EndOfInput | LengthError | Undefined {
    predicate IsFailure() { !Ok? }

    function PropagateFailure<U>(): Decoded<U>
      requires IsFailure()
    {
      if EndOfInput? then EndOfInput else if LengthError? then LengthError else Undefined
    }

    function Extract(): (T, Bytes)
      requires Ok?
    {
      (value, rest)
    }
  }

  /** `max_size` of strings, which the standard leaves to its implementations: this is libstdc++'s
      on 64-bit machines. No proof depends on more than that lengths fit 64 bits. */
  const MAX_TEXT_SIZE: nat := 0x7FFF_FFFF_FFFF_FFFE

  // ------------------------------------------------------------------ fixed-width integers

  /** The value of a decoding whose result is still to be scaled and added to `low`. */
  function Shifted(low: nat, scale: nat, d: Decoded<nat>): Decoded<nat> {
    match d
    case Ok(v, rest) => Ok(low + scale * v, rest)
    case EndOfInput => EndOfInput
    case LengthError => LengthError
    case Undefined => Undefined
  }

  lemma ShiftedTwice(low: nat, n: nat, next: nat, base: nat, d: Decoded<nat>)
    ensures Shifted(low, Pow2(n), Shifted(next, base, d)) == Shifted(low + Shl(next, n), Pow2(n) * base, d)
  {
    if d.Ok? {
      Distribute(Pow2(n), next, base, d.value);
    }
  }

  lemma ShiftedOk(low: nat, n: nat, v: nat, rest: Bytes)
    ensures Shifted(low, Pow2(n), Ok(v, rest)) == Ok(low + Shl(v, n), rest)
  {
  }

  lemma ShiftedFails(low: nat, scale: nat, d: Decoded<nat>)
    requires !d.Ok?
    ensures Shifted(low, scale, d) == d
  {
  }

  lemma Distribute(a: nat, x: nat, b: nat, y: nat)
    ensures a * (x + b * y) == x * a + (a * b) * y
  {
    assert a * (b * y) == (a * b) * y;
  }

  function EncodeFixed(v: nat, nbytes: nat): (bs: Bytes)
    ensures |bs| == nbytes
  {
    if nbytes == 0 then [] else [v % 0x100] + EncodeFixed(v / 0x100, nbytes - 1)
  }

  function DecodeFixed(nbytes: nat, input: Bytes): (d: Decoded<nat>)
    ensures d.Ok? ==> d.value < Pow2(8 * nbytes)
  {
    if nbytes == 0 then Ok(0, input)
    else if input == [] then EndOfInput
    else
      var (v, rest) :- DecodeFixed(nbytes - 1, input[1..]);
      Pow2Values();
      Pow2Sum(8, 8 * (nbytes - 1));
      assert 8 + 8 * (nbytes - 1) == 8 * nbytes;
      Ok(input[0] + 0x100 * v, rest)
  }

  /** The input is read to the end or by exactly the announced number of bytes. */
  lemma {:induction false} FixedOutcome(nbytes: nat, input: Bytes)
    ensures DecodeFixed(nbytes, input) == EndOfInput <==> |input| < nbytes
    ensures DecodeFixed(nbytes, input).Ok? <==> nbytes <= |input|
    ensures nbytes <= |input| ==> DecodeFixed(nbytes, input).rest == input[nbytes..]
  {
    if nbytes > 0 && input != [] {
      FixedOutcome(nbytes - 1, input[1..]);
      assert nbytes <= |input| ==> input[1..][nbytes - 1..] == input[nbytes..];
    }
  }

  lemma {:induction false} FixedRoundTrip(v: nat, nbytes: nat, suffix: Bytes)
    requires v < Pow2(8 * nbytes)
    ensures DecodeFixed(nbytes, EncodeFixed(v, nbytes) + suffix) == Ok(v, suffix)
  {
    hide Pow2;
    Pow2Values();
    if nbytes == 0 {
      assert [] + suffix == suffix;
    } else {
      Pow2Sum(8, 8 * (nbytes - 1));
      Pow2Values();
      FixedRoundTrip(v / 0x100, nbytes - 1, suffix);
      assert (EncodeFixed(v, nbytes) + suffix)[1..] == EncodeFixed(v / 0x100, nbytes - 1) + suffix;
    }
  }

  lemma {:induction false} EncodeFixedAt(v: nat, nbytes: nat, i: nat)
    requires i < nbytes
    ensures EncodeFixed(v, nbytes)[i] == (v / Pow2(8 * i)) % 0x100
  {
    hide Pow2;
    if i == 0 {
      Pow2Values();
    } else {
      EncodeFixedAt(v / 0x100, nbytes - 1, i - 1);
      Pow2Sum(8, 8 * (i - 1));
      Pow2Values();
      DivDiv(v, 0x100, Pow2(8 * (i - 1)));
    }
  }

  method SerializeFixed(value: nat, nbytes: nat, output: Bytes) returns (it: Bytes)
    ensures it == output + EncodeFixed(value, nbytes)
  {
    it := output;
    for i := 0 to nbytes
      invariant it == output + EncodeFixed(value, nbytes)[..i]
    {
      EncodeFixedAt(value, nbytes, i);
      it := it + [Shr(value, 8 * i) % 0x100];
    }
  }

  method DeserializeFixed(nbytes: nat, input: Bytes) returns (d: Decoded<nat>)
    ensures d == DecodeFixed(nbytes, input)
  {
    hide Pow2, Or, Shl;
    var uvalue: nat := 0;
    var it := input;
    ShiftedByNothing(DecodeFixed(nbytes, input));
    for i := 0 to nbytes
      invariant uvalue < Pow2(8 * i)
      invariant DecodeFixed(nbytes, input) == Shifted(uvalue, Pow2(8 * i), DecodeFixed(nbytes - i, it))
    {
      if it == [] {
        return EndOfInput;
      }
      Pow2Values();
      AppendDigit(uvalue, it[0], 8 * i, 8);
      ShiftedTwice(uvalue, 8 * i, it[0], 0x100, DecodeFixed(nbytes - i - 1, it[1..]));
      uvalue := Or(uvalue, Shl(it[0], 8 * i));
      it := it[1..];
    }
    return Ok(uvalue, it);
  }

  lemma ShiftedByNothing(d: Decoded<nat>)
    ensures Shifted(0, Pow2(0), d) == d
  {
    if d.Ok? {
      assert Pow2(0) * d.value == d.value;
    }
  }

  /** Or-ing in a digit above all bits seen so far adds it and keeps the accumulator in range. */
  lemma AppendDigit(acc: nat, digit: nat, n: nat, width: nat)
    requires acc < Pow2(n) && digit < Pow2(width)
    ensures Or(acc, Shl(digit, n)) == acc + Shl(digit, n) < Pow2(n + width) == Pow2(n) * Pow2(width)
  {
    hide Pow2;
    OrDisjoint(acc, digit, n);
    Pow2Sum(n, width);
    SumBelow(acc, digit, Pow2(n), Pow2(width));
  }

  // ---------------------------------------------------------------------- compact integers

  /** Seven bits to a byte, least significant group first, the high bit set on all but the last:
      unsigned LEB128 (section 7.6 of "DWARF Debugging Information Format", Version 5). */
  function EncodeCompact(v: nat): (bs: Bytes)
    ensures 0 < |bs|
  {
    if v < 0x80 then [v] else [v % 0x80 + 0x80] + EncodeCompact(v / 0x80)
  }

  /** Decodes group k and those after it, without truncation to the width. */
  function DecodeGroups(w: Width, k: nat, input: Bytes): (d: Decoded<nat>)
    ensures d.Ok? ==> |d.rest| < |input|
    decreases |input|
  {
    if input == [] then EndOfInput
    else if 7 * k >= Promoted(w) then Undefined
    else if input[0] < 0x80 then Ok(input[0], input[1..])
    else
      var (v, rest) :- DecodeGroups(w, k + 1, input[1..]);
      Ok(input[0] - 0x80 + 0x80 * v, rest)
  }

  function DecodeCompact(w: Width, input: Bytes): (d: Decoded<nat>)
    ensures d.Ok? ==> |d.rest| < |input| && d.value < Pow2(w)
  {
    var (v, rest) :- DecodeGroups(w, 0, input);
    DivMod(v, Pow2(w));
    Ok(Wrap(v, w), rest)
  }

  lemma LastGroup(w: Width, k: nat, x: Byte, rest: Bytes)
    requires 7 * k < w && x < 0x80
    ensures DecodeGroups(w, k, [x] + rest) == Ok(x, rest)
  {
    assert ([x] + rest)[1..] == rest;
  }

  lemma MoreGroups(w: Width, k: nat, x: Byte, v: nat, rest: Bytes, suffix: Bytes)
    requires 7 * k < w && x < 0x80 && DecodeGroups(w, k + 1, rest) == Ok(v, suffix)
    ensures DecodeGroups(w, k, [x + 0x80] + rest) == Ok(x + 0x80 * v, suffix)
  {
    assert ([x + 0x80] + rest)[1..] == rest;
  }

  lemma {:induction false} GroupsRoundTrip(w: Width, k: nat, v: nat, suffix: Bytes)
    requires 7 * k < w && v < Pow2(w - 7 * k)
    ensures DecodeGroups(w, k, EncodeCompact(v) + suffix) == Ok(v, suffix)
    decreases v
  {
    hide Pow2, EncodeCompact, DecodeGroups;
    EncodeCompactHead(v);
    if v < 0x80 {
      LastGroup(w, k, v, suffix);
    } else {
      var rest := EncodeCompact(v / 0x80) + suffix;
      NextGroupFits(w - 7 * k, v);
      GroupsRoundTrip(w, k + 1, v / 0x80, suffix);
      MoreGroups(w, k, v % 0x80, v / 0x80, rest, suffix);
      assert EncodeCompact(v) + suffix == [v % 0x80 + 0x80] + rest;
    }
  }

  lemma EncodeCompactHead(v: nat)
    ensures EncodeCompact(v) == if v < 0x80 then [v] else [v % 0x80 + 0x80] + EncodeCompact(v / 0x80)
  {
  }

  lemma NextGroupFits(n: nat, v: nat)
    requires 0x80 <= v < Pow2(n)
    ensures n > 7 && v / 0x80 < Pow2(n - 7)
  {
    Pow2Values();
    if n <= 7 {
      Pow2Grows(n, 7);
    } else {
      Pow2Sum(7, n - 7);
    }
  }

  /** Decoding takes exactly the encoding off the front of any input. */
  lemma CompactRoundTrip(w: Width, v: nat, suffix: Bytes)
    requires v < Pow2(w)
    ensures DecodeCompact(w, EncodeCompact(v) + suffix) == Ok(v, suffix)
  {
    hide Pow2;
    GroupsRoundTrip(w, 0, v, suffix);
    WrapSmall(v, w);
  }

  /** The same for signed types, whose negative values are written as their bit patterns. */
  lemma CompactSignedRoundTrip(w: Width, x: int, suffix: Bytes)
    requires 0 <= x + Pow2(w - 1) < Pow2(w)
    ensures 0 <= x + Pow2(w)
    ensures var d := DecodeCompact(w, EncodeCompact(Pattern(w, x)) + suffix);
            d.Ok? && Signed(w, d.value) == x && d.rest == suffix
  {
    hide Pow2, EncodeCompact, DecodeCompact;
    SignedPattern(w, x);
    CompactRoundTrip(w, Pattern(w, x), suffix);
  }

  /** How many groups a shift at the promoted width leaves room for: five, or ten for 64 bits. */
  function MaxGroups(w: Width): nat {
    (Promoted(w) + 6) / 7
  }

  /** All groups there is room for, and the one after them as well, are to be continued. */
  predicate RunsOn(w: Width, input: Bytes) {
    |input| > MaxGroups(w) && forall i :: 0 <= i < MaxGroups(w) ==> input[i] >= 0x80
  }

  /** The first byte without the high bit is the n-th. */
  predicate EndsWith(input: Bytes, n: nat) {
    0 < n <= |input| && input[n - 1] < 0x80 && forall i :: 0 <= i < n - 1 ==> input[i] >= 0x80
  }

  /** There is room for all groups up to the last one. */
  predicate EndsAfter(w: Width, input: Bytes, n: nat) {
    EndsWith(input, n) && n <= MaxGroups(w)
  }

  lemma {:induction false} GroupsOutcome(w: Width, k: nat, input: Bytes)
    requires k <= MaxGroups(w)
    ensures var m := MaxGroups(w) - k;
            var d := DecodeGroups(w, k, input);
            && (d.Undefined? <==> |input| > m && forall i :: 0 <= i < m ==> input[i] >= 0x80)
            && (d.EndOfInput? <==> |input| <= m && forall i :: 0 <= i < |input| ==> input[i] >= 0x80)
            && (forall n :: 0 < n <= |input| && n <= m && EndsWith(input, n) ==> d.Ok? && d.rest == input[n..])
            && !d.LengthError?
    decreases |input|
  {
    if input != [] && 7 * k < Promoted(w) && input[0] >= 0x80 {
      var tail := input[1..];
      GroupsOutcome(w, k + 1, tail);
      assert forall i :: 1 <= i < |input| ==> input[i] == tail[i - 1];
      assert forall i :: 0 <= i < |tail| ==> tail[i] == input[i + 1];
      forall n: nat | EndsWith(input, n) ensures 1 < n && EndsWith(tail, n - 1) && tail[n - 1..] == input[n..] {
      }
    }
  }

  /** What decoding comes to, byte by byte: it is undefined exactly when the groups run on past the
      width, and successful exactly when one of those there is room for is the last. */
  lemma CompactOutcome(w: Width, input: Bytes)
    ensures DecodeCompact(w, input).Undefined? <==> RunsOn(w, input)
    ensures DecodeCompact(w, input).Ok? <==> exists n: nat :: EndsAfter(w, input, n)
    ensures forall n: nat :: EndsAfter(w, input, n) ==> DecodeCompact(w, input).rest == input[n..]
    ensures !DecodeCompact(w, input).LengthError?
  {
    hide DecodeGroups;
    GroupsOutcome(w, 0, input);
    if !RunsOn(w, input) && (exists i :: 0 <= i < |input| && input[i] < 0x80) {
      var i := FirstLow(input, 0);
      assert EndsAfter(w, input, i + 1);
    }
  }

  function FirstLow(input: Bytes, from: nat): (i: nat)
    requires from <= |input| && (forall j :: 0 <= j < from ==> input[j] >= 0x80)
    requires exists j :: 0 <= j < |input| && input[j] < 0x80
    ensures i < |input| && input[i] < 0x80 && forall j :: 0 <= j < i ==> input[j] >= 0x80
    decreases |input| - from
  {
    if input[from] < 0x80 then from else FirstLow(input, from + 1)
  }

  /** n bytes hold the values below 2^(7n) and, when minimal, no value below 2^(7(n-1)). */
  lemma {:induction false} CompactLength(v: nat)
    ensures v < Pow2(7 * |EncodeCompact(v)|)
    ensures |EncodeCompact(v)| > 1 ==> Pow2(7 * (|EncodeCompact(v)| - 1)) <= v
  {
    hide Pow2;
    Pow2Values();
    if v >= 0x80 {
      CompactLength(v / 0x80);
      var n := |EncodeCompact(v / 0x80)|;
      Pow2Sum(7, 7 * n);
      if n > 1 {
        Pow2Sum(7, 7 * (n - 1));
      }
    }
  }

  lemma {:induction false} GroupsBound(w: Width, k: nat, input: Bytes)
    requires DecodeGroups(w, k, input).Ok?
    ensures DecodeGroups(w, k, input).value < Pow2(7 * (|input| - |DecodeGroups(w, k, input).rest|))
    decreases |input|
  {
    hide Pow2;
    Pow2Values();
    if input[0] >= 0x80 {
      GroupsBound(w, k + 1, input[1..]);
      Pow2Sum(7, 7 * (|input| - 1 - |DecodeGroups(w, k, input).rest|));
    }
  }

  /** The encoder's form is the shortest: whatever bytes decode to v, they are at least as many. */
  lemma CompactMinimal(w: Width, input: Bytes)
    requires DecodeCompact(w, input).Ok?
    ensures |EncodeCompact(DecodeCompact(w, input).value)| <= |input| - |DecodeCompact(w, input).rest|
  {
    hide Pow2;
    var raw := DecodeGroups(w, 0, input);
    var v := Wrap(raw.value, w);
    var m, n := |EncodeCompact(v)|, |input| - |raw.rest|;
    GroupsBound(w, 0, input);
    CompactLength(v);
    DivMod(raw.value, Pow2(w));
    MulGrows(raw.value / Pow2(w), Pow2(w));
    if m > n {
      Pow2Grows(7 * n, 7 * (m - 1));
    }
  }

  /** Without stray groups or bits: the last group is not empty, unless alone, and fits the width. */
  predicate Shortest(w: nat, read: Bytes)
    requires read != []
  {
    var n := |read|;
    (n == 1 || read[n - 1] != 0) && 7 * (n - 1) < w && read[n - 1] < Pow2(w - 7 * (n - 1))
  }

  /** The bytes DecodeGroups has taken off its input. */
  function GroupsTaken(w: Width, k: nat, input: Bytes): (read: Bytes)
    requires DecodeGroups(w, k, input).Ok?
    ensures read != [] && read + DecodeGroups(w, k, input).rest == input
    decreases |input|
  {
    if input[0] < 0x80 then [input[0]] else [input[0]] + GroupsTaken(w, k + 1, input[1..])
  }

  lemma GroupsHead(w: Width, k: nat, input: Bytes)
    requires DecodeGroups(w, k, input).Ok?
    ensures var v, read := DecodeGroups(w, k, input).value, GroupsTaken(w, k, input);
            && input != []
            && (input[0] < 0x80 ==> read == [input[0]] && v == input[0])
            && (input[0] >= 0x80 ==>
                  && DecodeGroups(w, k + 1, input[1..]).Ok?
                  && var v', read' := DecodeGroups(w, k + 1, input[1..]).value, GroupsTaken(w, k + 1, input[1..]);
                  && v == input[0] - 0x80 + 0x80 * v' && v / 0x80 == v' && v % 0x80 == input[0] - 0x80
                  && read == [input[0]] + read' && read[1..] == read' && |read| > 1
                  && read[|read| - 1] == read'[|read'| - 1])
  {
  }

  lemma {:induction false} GroupsReencode(w: Width, k: nat, input: Bytes)
    requires DecodeGroups(w, k, input).Ok?
    ensures var v, read := DecodeGroups(w, k, input).value, GroupsTaken(w, k, input);
            && (|read| == 1 ==> v == read[0])
            && (|read| > 1 && read[|read| - 1] != 0 ==> 0 < v)
            && (EncodeCompact(v) == read <==> |read| == 1 || read[|read| - 1] != 0)
    decreases |input|
  {
    hide EncodeCompact, DecodeGroups, GroupsTaken;
    GroupsHead(w, k, input);
    var v, read := DecodeGroups(w, k, input).value, GroupsTaken(w, k, input);
    EncodeCompactHead(v);
    if input[0] >= 0x80 {
      GroupsReencode(w, k + 1, input[1..]);
      assert 0x80 <= v ==> EncodeCompact(v)[1..] == EncodeCompact(v / 0x80);
    }
  }

  lemma {:induction false} GroupsFit(w: Width, k: nat, input: Bytes, bits: nat)
    requires DecodeGroups(w, k, input).Ok? && 0 < bits
    requires var read := GroupsTaken(w, k, input); |read| == 1 || read[|read| - 1] != 0
    ensures DecodeGroups(w, k, input).value < Pow2(bits) <==> Shortest(bits, GroupsTaken(w, k, input))
    decreases |input|
  {
    hide Pow2, EncodeCompact, DecodeGroups, GroupsTaken;
    GroupsHead(w, k, input);
    var v, read := DecodeGroups(w, k, input).value, GroupsTaken(w, k, input);
    if input[0] >= 0x80 {
      var tail, read' := input[1..], GroupsTaken(w, k + 1, input[1..]);
      GroupsReencode(w, k + 1, tail);
      Pow2Values();
      if bits <= 7 {
        Pow2Grows(bits, 7);
      } else {
        GroupsFit(w, k + 1, tail, bits - 7);
        Pow2Sum(7, bits - 7);
        assert bits - 7 * (|read| - 1) == bits - 7 - 7 * (|read'| - 1);
      }
    }
  }

  /** Encoding what was decoded gives back the bytes read exactly when they have no stray groups
      or bits: the decoder accepts longer forms, and drops bits beyond the width. */
  lemma CompactReencodes(w: Width, input: Bytes)
    requires DecodeCompact(w, input).Ok?
    ensures var d := DecodeCompact(w, input);
            var read := input[..|input| - |d.rest|];
            && read != [] && read + d.rest == input
            && (EncodeCompact(d.value) == read <==> Shortest(w, read))
  {
    hide Pow2, EncodeCompact, Shortest;
    var raw, read := DecodeGroups(w, 0, input), GroupsTaken(w, 0, input);
    var v := Wrap(raw.value, w);
    assert read == input[..|input| - |raw.rest|];
    GroupsReencode(w, 0, input);
    ShortestEnd(w, read);
    WrapBound(raw.value, w);
    if EncodeCompact(v) == read {
      GroupsRoundTrip(w, 0, v, raw.rest);
      GroupsFit(w, 0, input, w);
    } else if Shortest(w, read) {
      GroupsFit(w, 0, input, w);
      WrapSmall(raw.value, w);
    }
  }

  lemma ShortestEnd(w: nat, read: Bytes)
    requires read != []
    ensures Shortest(w, read) ==> |read| == 1 || read[|read| - 1] != 0
  {
  }

  method SerializeCompact(value: nat, output: Bytes) returns (oit: Bytes)
    ensures oit == output + EncodeCompact(value)
  {
    hide EncodeCompact;
    oit := output;
    var uvalue := value;
    var more := true;
    while more
      invariant more ==> oit + EncodeCompact(uvalue) == output + EncodeCompact(value)
      invariant !more ==> oit == output + EncodeCompact(value)
      decreases more, uvalue
    {
      var x := uvalue % 0x80;
      var shifted := uvalue / 0x80;
      EncodeCompactHead(uvalue);
      if shifted != 0 {
        assert oit + ([x + 0x80] + EncodeCompact(shifted)) == oit + [x + 0x80] + EncodeCompact(shifted);
      }
      oit := oit + [if shifted == 0 then x else x + 0x80];
      uvalue := shifted;
      more := uvalue != 0;
    }
  }

  lemma ContinuedGroup(w: Width, k: nat, input: Bytes)
    requires input != [] && input[0] >= 0x80 && 7 * k < Promoted(w)
    ensures DecodeGroups(w, k, input) == Shifted(input[0] % 0x80, 0x80, DecodeGroups(w, k + 1, input[1..]))
  {
  }

  method DeserializeCompact(w: Width, input: Bytes) returns (d: Decoded<nat>)
    ensures d == DecodeCompact(w, input)
  {
    hide Pow2, Or, Shl, Wrap, Shifted;
    var uvalue: nat := 0;
    var nbits: nat := 0;
    var it := input;
    ghost var k: nat, acc: nat := 0, 0;
    ShiftedByNothing(DecodeGroups(w, 0, input));
    WrapSmall(0, w);
    while it != []
      invariant nbits == 7 * k && acc < Pow2(nbits) && uvalue == Wrap(acc, w)
      invariant DecodeGroups(w, 0, input) == Shifted(acc, Pow2(nbits), DecodeGroups(w, k, it))
      decreases |it|
    {
      if nbits >= Promoted(w) {
        ShiftedFails(acc, Pow2(nbits), Undefined);
        return Undefined;
      }
      var x := it[0];
      ghost var accBefore := acc;
      var group: nat := x % 0x80;
      AccumulateGroup(acc, group, nbits, w);
      Pow2Values();
      AppendDigit(acc, group, nbits, 7);
      if x >= 0x80 {
        ContinuedGroup(w, k, it);
      }
      ShiftedTwice(acc, nbits, group, 0x80, DecodeGroups(w, k + 1, it[1..]));
      uvalue := Or(uvalue, Wrap(Shl(group, nbits), w));
      acc := acc + Shl(group, nbits);
      nbits := nbits + 7;
      k := k + 1;
      it := it[1..];
      if x < 0x80 {
        ShiftedOk(accBefore, nbits - 7, x, it);
        return Ok(uvalue, it);
      }
    }
    ShiftedFails(acc, Pow2(nbits), EndOfInput);
    return EndOfInput;
  }

  // ------------------------------------------------------------------------------- strings

  function ToBytes(t: Text): (bs: Bytes)
    ensures |bs| == |t|
  {
    seq(|t|, i requires 0 <= i < |t| => t[i] as int)
  }

  function FromBytes(bs: Bytes): (t: Text)
    ensures |t| == |bs|
  {
    seq(|bs|, i requires 0 <= i < |bs| => bs[i] as char)
  }

  lemma TextBytes(t: Text)
    ensures FromBytes(ToBytes(t)) == t
  {
  }

  function EncodeText(t: Text): Bytes {
    EncodeCompact(|t|) + ToBytes(t)
  }

  function DecodeText(input: Bytes): (d: Decoded<Text>)
    ensures d.Ok? ==> |d.rest| < |input|
  {
    var (len, rest) :- DecodeCompact(64, input);
    if len > MAX_TEXT_SIZE then LengthError
    else if |rest| < len then EndOfInput
    else Ok(FromBytes(rest[..len]), rest[len..])
  }

  lemma TextRoundTrip(t: Text, suffix: Bytes)
    requires |t| <= MAX_TEXT_SIZE
    ensures DecodeText(EncodeText(t) + suffix) == Ok(t, suffix)
  {
    hide Pow2, EncodeCompact, DecodeCompact;
    assert EncodeText(t) + suffix == EncodeCompact(|t|) + (ToBytes(t) + suffix);
    Pow2Is64();
    CompactRoundTrip(64, |t|, ToBytes(t) + suffix);
    assert (ToBytes(t) + suffix)[..|t|] == ToBytes(t);
    assert (ToBytes(t) + suffix)[|t|..] == suffix;
    TextBytes(t);
  }

  method SerializeText(value: Text, output: Bytes) returns (oit: Bytes)
    ensures oit == output + EncodeText(value)
  {
    hide EncodeCompact;
    oit := SerializeCompact(|value|, output);
    ghost var written := oit;
    for i := 0 to |value|
      invariant oit == written + ToBytes(value)[..i]
    {
      oit := oit + [value[i] as int];
    }
    assert ToBytes(value)[..|value|] == ToBytes(value);
  }

  method DeserializeText(input: Bytes) returns (d: Decoded<Text>)
    ensures d == DecodeText(input)
  {
    hide DecodeCompact;
    var length :- DeserializeCompact(64, input);
    var (len, start) := length;
    if len > MAX_TEXT_SIZE {
      return LengthError;
    }
    var iit := start;
    var text: Text := [];
    while |text| < len
      invariant |text| <= len && |text| <= |start|
      invariant iit == start[|text|..] && text == FromBytes(start[..|text|])
    {
      if iit == [] {
        return EndOfInput;
      }
      text := text + [iit[0] as char];
      iit := iit[1..];
    }
    return Ok(text, iit);
  }

  // ------------------------------------------------------- pairs, and sequences of elements

  /** A decoder that reads at least one byte whenever it succeeds. */
  ghost predicate Consumes<T(!new)>(dec: Bytes -> Decoded<T>) {
    forall input :: dec(input).Ok? ==> |dec(input).rest| < |input|
  }

  /** `dec` gives back `x` and exactly what follows its encoding `bs`. */
  ghost predicate ReadsBack<T(!new)>(dec: Bytes -> Decoded<T>, bs: Bytes, x: T) {
    forall suffix :: dec(bs + suffix) == Ok(x, suffix)
  }

  function DecodePair<A, B>(first: Bytes -> Decoded<A>, second: Bytes -> Decoded<B>, input: Bytes): Decoded<(A, B)> {
    var (a, rest) :- first(input);
    var (b, rest) :- second(rest);
    Ok((a, b), rest)
  }

  lemma PairRoundTrip<A(!new), B(!new)>(first: Bytes -> Decoded<A>, second: Bytes -> Decoded<B>,
                                        bs: Bytes, a: A, cs: Bytes, b: B, suffix: Bytes)
    requires ReadsBack(first, bs, a) && ReadsBack(second, cs, b)
    ensures DecodePair(first, second, bs + cs + suffix) == Ok((a, b), suffix)
  {
    assert bs + cs + suffix == bs + (cs + suffix);
  }

  function EncodeAll<T>(enc: T -> Bytes, xs: seq<T>): Bytes {
    if xs == [] then [] else enc(xs[0]) + EncodeAll(enc, xs[1..])
  }

  function DecodeAll<T>(dec: Bytes -> Decoded<T>, n: nat, input: Bytes): (d: Decoded<seq<T>>)
    ensures d.Ok? ==> |d.value| == n
  {
    if n == 0 then Ok([], input)
    else
      var (x, rest) :- dec(input);
      var (xs, rest) :- DecodeAll(dec, n - 1, rest);
      Ok([x] + xs, rest)
  }

  lemma {:induction false} AllRoundTrip<T(!new)>(enc: T -> Bytes, dec: Bytes -> Decoded<T>, xs: seq<T>, suffix: Bytes)
    requires forall i :: 0 <= i < |xs| ==> ReadsBack(dec, enc(xs[i]), xs[i])
    ensures DecodeAll(dec, |xs|, EncodeAll(enc, xs) + suffix) == Ok(xs, suffix)
  {
    if xs == [] {
      assert [] + suffix == suffix;
    } else {
      var tail := EncodeAll(enc, xs[1..]) + suffix;
      assert EncodeAll(enc, xs) + suffix == enc(xs[0]) + tail;
      assert ReadsBack(dec, enc(xs[0]), xs[0]);
      AllRoundTrip(enc, dec, xs[1..], suffix);
      assert [xs[0]] + xs[1..] == xs;
    }
  }

  lemma {:induction false} EncodeAllSnoc<T>(enc: T -> Bytes, xs: seq<T>, x: T)
    ensures EncodeAll(enc, xs + [x]) == EncodeAll(enc, xs) + enc(x)
  {
    if xs == [] {
      assert [x][1..] == [];
    } else {
      EncodeAllSnoc(enc, xs[1..], x);
      assert (xs + [x])[1..] == xs[1..] + [x];
    }
  }

  // ------------------------------------------------------------------- arrays of 64-bit words

  function EncodeWord(x: UInt64): Bytes {
    EncodeFixed(x, 8)
  }

  function DecodeWord(input: Bytes): Decoded<UInt64> {
    var (v, rest) :- DecodeFixed(8, input);
    Pow2Is64();
    Ok(v, rest)
  }

  lemma WordReadsBack(x: UInt64)
    ensures ReadsBack(DecodeWord, EncodeWord(x), x)
  {
    hide EncodeFixed, DecodeFixed, Pow2;
    Pow2Is64();
    forall suffix ensures DecodeWord(EncodeWord(x) + suffix) == Ok(x, suffix) {
      FixedRoundTrip(x, 8, suffix);
    }
  }

  method SerializeN(words: seq<UInt64>, output: Bytes) returns (oit: Bytes)
    ensures oit == output + EncodeAll(EncodeWord, words)
  {
    hide EncodeFixed;
    oit := output;
    for i := 0 to |words|
      invariant oit == output + EncodeAll(EncodeWord, words[..i])
    {
      EncodeAllSnoc(EncodeWord, words[..i], words[i]);
      assert words[..i + 1] == words[..i] + [words[i]];
      oit := SerializeFixed(words[i], 8, oit);
    }
    assert words[..|words|] == words;
  }

  /** Prefixing values already decoded to those still to come. */
  function Prepend<T>(xs: seq<T>, d: Decoded<seq<T>>): Decoded<seq<T>> {
    match d
    case Ok(ys, rest) => Ok(xs + ys, rest)
    case EndOfInput => EndOfInput
    case LengthError => LengthError
    case Undefined => Undefined
  }

  lemma PrependStep<T>(xs: seq<T>, dec: Bytes -> Decoded<T>, n: nat, input: Bytes)
    requires 0 < n && dec(input).Ok?
    ensures Prepend(xs, DecodeAll(dec, n, input))
         == Prepend(xs + [dec(input).value], DecodeAll(dec, n - 1, dec(input).rest))
  {
    var tail := DecodeAll(dec, n - 1, dec(input).rest);
    if tail.Ok? {
      assert xs + ([dec(input).value] + tail.value) == xs + [dec(input).value] + tail.value;
    }
  }

  /** The words read before the input ends or n of them have been read. */
  function WordsRead(n: nat, input: Bytes): (words: seq<UInt64>)
    ensures |words| <= n
  {
    if n == 0 || DecodeWord(input).EndOfInput? then []
    else
      FixedOutcome(8, input);
      [DecodeWord(input).value] + WordsRead(n - 1, DecodeWord(input).rest)
  }

  lemma {:induction false} WordsOutcome(n: nat, input: Bytes)
    ensures DecodeAll(DecodeWord, n, input).Ok? <==> 8 * n <= |input|
    ensures DecodeAll(DecodeWord, n, input).EndOfInput? <==> |input| < 8 * n
    ensures 8 * n <= |input| ==> DecodeAll(DecodeWord, n, input).rest == input[8 * n..]
    ensures |WordsRead(n, input)| == n <==> 8 * n <= |input|
  {
    hide DecodeFixed;
    FixedOutcome(8, input);
    if n > 0 && 8 <= |input| {
      WordsOutcome(n - 1, input[8..]);
      assert 8 * n <= |input| ==> input[8..][8 * (n - 1)..] == input[8 * n..];
    }
  }

  /** The words are written out one by one, so some of them are even if the input ends too early. */
  method DeserializeN(n: nat, input: Bytes) returns (d: Decoded<seq<UInt64>>, written: seq<UInt64>)
    ensures d == DecodeAll(DecodeWord, n, input)
    ensures written == WordsRead(n, input) && (d.Ok? ==> written == d.value)
  {
    hide DecodeFixed, Pow2;
    var iit := input;
    written := [];
    assert forall ys: seq<UInt64> :: [] + ys == ys;
    for i := 0 to n
      invariant DecodeAll(DecodeWord, n, input) == Prepend(written, DecodeAll(DecodeWord, n - i, iit))
      invariant WordsRead(n, input) == written + WordsRead(n - i, iit)
    {
      var value := DeserializeFixed(8, iit);
      FixedOutcome(8, iit);
      Pow2Is64();
      if value.EndOfInput? {
        assert written + [] == written;
        return EndOfInput, written;
      }
      PrependStep(written, DecodeWord, n - i, iit);
      assert written + ([value.value] + WordsRead(n - i - 1, value.rest))
          == written + [value.value] + WordsRead(n - i - 1, value.rest);
      written := written + [value.value];
      iit := value.rest;
    }
    assert written + [] == written;
    return Ok(written, iit), written;
  }

  // ------------------------------------------------------------- ranges of compact integers

  function EncodeRange(xs: seq<nat>): Bytes {
    EncodeCompact(|xs|) + EncodeAll(EncodeCompact, xs)
  }

  function DecodeRange(input: Bytes): Decoded<seq<nat>> {
    var (n, rest) :- DecodeCompact(64, input);
    DecodeAll(bs => DecodeCompact(64, bs), n, rest)
  }

  lemma RangeRoundTrip(xs: seq<nat>, suffix: Bytes)
    requires |xs| < Pow2(64) && forall i :: 0 <= i < |xs| ==> xs[i] < Pow2(64)
    ensures DecodeRange(EncodeRange(xs) + suffix) == Ok(xs, suffix)
  {
    hide Pow2, EncodeCompact, DecodeCompact;
    var dec := bs => DecodeCompact(64, bs);
    var tail := EncodeAll(EncodeCompact, xs) + suffix;
    assert EncodeRange(xs) + suffix == EncodeCompact(|xs|) + tail;
    CompactRoundTrip(64, |xs|, tail);
    forall i | 0 <= i < |xs| ensures ReadsBack(dec, EncodeCompact(xs[i]), xs[i]) {
      forall rest { CompactRoundTrip(64, xs[i], rest); }
    }
    AllRoundTrip(EncodeCompact, dec, xs, suffix);
  }

  method SerializeRange(xs: seq<nat>, output: Bytes) returns (oit: Bytes)
    ensures oit == output + EncodeRange(xs)
  {
    hide EncodeCompact;
    oit := SerializeCompact(|xs|, output);
    ghost var written := oit;
    for i := 0 to |xs|
      invariant oit == written + EncodeAll(EncodeCompact, xs[..i])
    {
      EncodeAllSnoc(EncodeCompact, xs[..i], xs[i]);
      assert xs[..i + 1] == xs[..i] + [xs[i]];
      oit := SerializeCompact(xs[i], oit);
    }
    assert xs[..|xs|] == xs;
  }

  method DeserializeRange(input: Bytes) returns (d: Decoded<seq<nat>>)
    ensures d == DecodeRange(input)
  {
    hide DecodeCompact;
    var count :- DeserializeCompact(64, input);
    ghost var dec := bs => DecodeCompact(64, bs);
    var (n, iit) := count;
    var xs: seq<nat> := [];
    ghost var start := iit;
    assert forall ys: seq<nat> :: [] + ys == ys;
    for i := 0 to n
      invariant DecodeAll(dec, n, start) == Prepend(xs, DecodeAll(dec, n - i, iit))
    {
      var value :- DeserializeCompact(64, iit);
      PrependStep(xs, dec, n - i, iit);
      xs := xs + [value.0];
      iit := value.1;
    }
    assert xs + [] == xs;
    return Ok(xs, iit);
  }

  // ---------------------------------------------------------------------------------- maps

  /** `items` lists the entries of a map once each, in whatever order its iteration takes. */
  ghost predicate Enumerates<K(!new), V(!new)>(items: seq<(K, V)>, m: map<K, V>) {
    && (forall i, j :: 0 <= i < j < |items| ==> items[i].0 != items[j].0)
    && (forall i :: 0 <= i < |items| ==> items[i].0 in m && m[items[i].0] == items[i].1)
    && (forall k :: k in m ==> exists i :: 0 <= i < |items| && items[i].0 == k)
  }

  /** `insert` of an unordered_map: it does nothing when the key is present. */
  function Insert<K, V>(m: map<K, V>, entry: (K, V)): map<K, V> {
    if entry.0 in m then m else m[entry.0 := entry.1]
  }

  function InsertAll<K, V>(m: map<K, V>, items: seq<(K, V)>): map<K, V>
    decreases |items|
  {
    if items == [] then m else InsertAll(Insert(m, items[0]), items[1..])
  }

  function EncodeMap<K, V>(enc: ((K, V)) -> Bytes, items: seq<(K, V)>): Bytes {
    EncodeCompact(|items|) + EncodeAll(enc, items)
  }

  function DecodeEntries<K(!new), V(!new)>(
    dec: Bytes -> Decoded<(K, V)>, len: nat, m: map<K, V>, input: Bytes
  ): Decoded<map<K, V>>
    requires Consumes(dec)
    decreases |input|
  {
    if |m| >= len then Ok(m, input)
    else
      match dec(input)
      case Ok(entry, rest) =>
        assert dec(input).Ok?;
        DecodeEntries(dec, len, Insert(m, entry), rest)
      case EndOfInput => EndOfInput
      case LengthError => LengthError
      case Undefined => Undefined
  }

  function DecodeMap<K(!new), V(!new)>(dec: Bytes -> Decoded<(K, V)>, input: Bytes): Decoded<map<K, V>>
    requires Consumes(dec)
  {
    var (len, rest) :- DecodeCompact(64, input);
    DecodeEntries(dec, len, map[], rest)
  }

  lemma {:induction false} EntriesRoundTrip<K(!new), V(!new)>(
      enc: ((K, V)) -> Bytes, dec: Bytes -> Decoded<(K, V)>, items: seq<(K, V)>, m: map<K, V>, suffix: Bytes)
    requires Consumes(dec)
    requires forall i, j :: 0 <= i < j < |items| ==> items[i].0 != items[j].0
    requires forall i :: 0 <= i < |items| ==> items[i].0 !in m && ReadsBack(dec, enc(items[i]), items[i])
    ensures DecodeEntries(dec, |m| + |items|, m, EncodeAll(enc, items) + suffix) == Ok(InsertAll(m, items), suffix)
    decreases |items|
  {
    if items == [] {
      assert [] + suffix == suffix;
    } else {
      var tail := EncodeAll(enc, items[1..]) + suffix;
      assert EncodeAll(enc, items) + suffix == enc(items[0]) + tail;
      assert ReadsBack(dec, enc(items[0]), items[0]);
      assert dec(enc(items[0]) + tail) == Ok(items[0], tail);
      EntriesRoundTrip(enc, dec, items[1..], Insert(m, items[0]), suffix);
    }
  }

  lemma {:induction false} InsertAllAt<K, V>(m: map<K, V>, items: seq<(K, V)>, key: K)
    requires forall i, j :: 0 <= i < j < |items| ==> items[i].0 != items[j].0
    ensures key in InsertAll(m, items) <==> key in m || exists i :: 0 <= i < |items| && items[i].0 == key
    ensures key in m ==> InsertAll(m, items)[key] == m[key]
    ensures forall i :: 0 <= i < |items| && items[i].0 == key && key !in m ==> InsertAll(m, items)[key] == items[i].1
    decreases |items|
  {
    if items != [] {
      InsertAllAt(Insert(m, items[0]), items[1..], key);
      assert forall i :: 1 <= i < |items| ==> items[i] == items[1..][i - 1];
      assert forall i :: 0 <= i < |items[1..]| ==> items[1..][i] == items[i + 1];
    }
  }

  lemma InsertAllEnumeration<K(!new), V(!new)>(items: seq<(K, V)>, m: map<K, V>)
    requires Enumerates(items, m)
    ensures InsertAll(map[], items) == m
  {
    forall key ensures key in InsertAll(map[], items) <==> key in m
               ensures key in m ==> InsertAll(map[], items)[key] == m[key] {
      InsertAllAt(map[], items, key);
    }
  }

  /** Whatever order the entries were written in, the map comes back, with the suffix unread. */
  lemma MapRoundTrip<K(!new), V(!new)>(
      enc: ((K, V)) -> Bytes, dec: Bytes -> Decoded<(K, V)>, items: seq<(K, V)>, m: map<K, V>, suffix: Bytes)
    requires Consumes(dec) && Enumerates(items, m) && |items| < Pow2(64)
    requires forall i :: 0 <= i < |items| ==> ReadsBack(dec, enc(items[i]), items[i])
    ensures DecodeMap(dec, EncodeMap(enc, items) + suffix) == Ok(m, suffix)
  {
    hide Pow2, EncodeCompact, DecodeCompact;
    var tail := EncodeAll(enc, items) + suffix;
    assert EncodeMap(enc, items) + suffix == EncodeCompact(|items|) + tail;
    CompactRoundTrip(64, |items|, tail);
    EntriesRoundTrip(enc, dec, items, map[], suffix);
    InsertAllEnumeration(items, m);
  }

  /** The value an element list first gives for a key. */
  ghost predicate FirstValue<K(!new), V(!new)>(entries: seq<(K, V)>, key: K, value: V) {
    exists i :: 0 <= i < |entries| && entries[i] == (key, value) && forall j :: 0 <= j < i ==> entries[j].0 != key
  }

  lemma {:induction false} InsertAllFirst<K(!new), V(!new)>(m: map<K, V>, items: seq<(K, V)>, key: K)
    ensures key in InsertAll(m, items) <==> key in m || exists i :: 0 <= i < |items| && items[i].0 == key
    ensures key in m ==> InsertAll(m, items)[key] == m[key]
    ensures key !in m && key in InsertAll(m, items) ==> FirstValue(items, key, InsertAll(m, items)[key])
    decreases |items|
  {
    if items != [] {
      var m', rest := Insert(m, items[0]), items[1..];
      InsertAllFirst(m', rest, key);
      assert forall i :: 1 <= i < |items| ==> items[i] == rest[i - 1];
      assert forall i :: 0 <= i < |rest| ==> rest[i] == items[i + 1];
      if key !in m && key in InsertAll(m, items) {
        var value := InsertAll(m, items)[key];
        if items[0].0 == key {
          assert items[0] == (key, value);
        } else {
          var i :| 0 <= i < |rest| && rest[i] == (key, value) && forall j :: 0 <= j < i ==> rest[j].0 != key;
          assert items[i + 1] == (key, value) && forall j :: 0 <= j < i + 1 ==> items[j].0 != key;
        }
      }
    }
  }

  /** A successful map decoding read some number of elements, stopped at the announced number of
      distinct keys and kept the value first seen for each of them. */
  lemma {:induction false} EntriesRead<K(!new), V(!new)>(dec: Bytes -> Decoded<(K, V)>, len: nat, m: map<K, V>, input: Bytes)
    returns (entries: seq<(K, V)>)
    requires Consumes(dec) && DecodeEntries(dec, len, m, input).Ok? && |m| <= len
    ensures var d := DecodeEntries(dec, len, m, input);
            && DecodeAll(dec, |entries|, input) == Ok(entries, d.rest)
            && d.value == InsertAll(m, entries)
            && |d.value| == len
            && forall k :: 0 <= k < |entries| ==> |InsertAll(m, entries[..k])| < len
    decreases |input|
  {
    if |m| >= len {
      entries := [];
    } else {
      var d := dec(input);
      assert |d.rest| < |input|;
      var tail := EntriesRead(dec, len, Insert(m, d.value), d.rest);
      entries := [d.value] + tail;
      assert entries[1..] == tail;
      forall k | 0 <= k < |entries| ensures |InsertAll(m, entries[..k])| < len {
        if k > 0 {
          assert entries[..k][1..] == tail[..k - 1];
        }
      }
    }
  }

  lemma MapHoldsFirstValues<K(!new), V(!new)>(dec: Bytes -> Decoded<(K, V)>, input: Bytes) returns (entries: seq<(K, V)>)
    requires Consumes(dec) && DecodeMap(dec, input).Ok?
    ensures var count := DecodeCompact(64, input);
            var d := DecodeMap(dec, input);
            && count.Ok? && |d.value| == count.value
            && DecodeAll(dec, |entries|, count.rest) == Ok(entries, d.rest)
            && (forall key :: key in d.value <==> exists i :: 0 <= i < |entries| && entries[i].0 == key)
            && (forall key :: key in d.value ==> FirstValue(entries, key, d.value[key]))
            && (forall k :: 0 <= k < |entries| ==> |InsertAll(map[], entries[..k])| < count.value)
  {
    hide DecodeCompact;
    var count := DecodeCompact(64, input);
    entries := EntriesRead(dec, count.value, map[], count.rest);
    forall key {
      InsertAllFirst(map[], entries, key);
    }
  }

  /** `items` lists the entries of `value` that are not in `rest`, which is what is left of it. */
  ghost predicate Listed<K(!new), V(!new)>(items: seq<(K, V)>, value: map<K, V>, rest: map<K, V>) {
    && rest.Keys <= value.Keys
    && (forall k :: k in rest ==> rest[k] == value[k])
    && Enumerates(items, value - rest.Keys)
    && |items| + |rest| == |value|
  }

  lemma ListOne<K(!new), V(!new)>(items: seq<(K, V)>, value: map<K, V>, rest: map<K, V>, key: K)
    requires Listed(items, value, rest) && key in rest
    ensures Listed(items + [(key, value[key])], value, rest - {key})
  {
    var more := items + [(key, value[key])];
    var done := value - (rest - {key}).Keys;
    RemoveOne(rest, key);
    forall k | k in done ensures exists i :: 0 <= i < |more| && more[i].0 == k {
      if k == key {
        assert more[|items|].0 == k;
      } else {
        assert k in value - rest.Keys;
        var i :| 0 <= i < |items| && items[i].0 == k;
        assert more[i].0 == k;
      }
    }
  }

  lemma ListNone<K(!new), V(!new)>(value: map<K, V>)
    ensures Listed([], value, value)
  {
  }

  lemma ListAll<K(!new), V(!new)>(items: seq<(K, V)>, value: map<K, V>)
    requires Listed(items, value, map[])
    ensures Enumerates(items, value) && |items| == |value|
  {
    var none: map<K, V> := map[];
    assert value - none.Keys == value;
  }

  /** The iteration order is up to the container: any key not yet written may come next. */
  method SerializeMap<K(!new, ==), V(!new)>(enc: ((K, V)) -> Bytes, value: map<K, V>, output: Bytes)
    returns (oit: Bytes)
    ensures exists items :: Enumerates(items, value) && oit == output + EncodeMap(enc, items)
  {
    hide EncodeCompact, Enumerates, EncodeAll, Listed;
    oit := SerializeCompact(|value|, output);
    ghost var written := oit;
    ghost var items: seq<(K, V)> := [];
    var rest := value;
    ListNone(value);
    EncodeAllNothing(enc);
    while rest != map[]
      invariant Listed(items, value, rest) && rest.Keys <= value.Keys
      invariant oit == written + EncodeAll(enc, items)
      decreases |rest|
    {
      var key :| key in rest;
      ListOne(items, value, rest, key);
      EncodeAllSnoc(enc, items, (key, value[key]));
      RemoveOne(rest, key);
      oit := oit + enc((key, value[key]));
      items := items + [(key, value[key])];
      rest := rest - {key};
    }
    ListAll(items, value);
    assert oit == output + EncodeMap(enc, items);
  }

  lemma EncodeAllNothing<T>(enc: T -> Bytes)
    ensures EncodeAll(enc, []) == []
  {
  }

  lemma RemoveOne<K, V>(m: map<K, V>, key: K)
    requires key in m
    ensures |m - {key}| == |m| - 1
  {
    assert (m - {key}).Keys == m.Keys - {key};
  }

  method DeserializeMap<K(!new, ==), V(!new)>(dec: Bytes -> Decoded<(K, V)>, input: Bytes) returns (d: Decoded<map<K, V>>)
    requires Consumes(dec)
    ensures d == DecodeMap(dec, input)
  {
    hide DecodeCompact;
    var count :- DeserializeCompact(64, input);
    var len, iit := count.0, count.1;
    var output: map<K, V> := map[];
    while |output| < len
      invariant DecodeMap(dec, input) == DecodeEntries(dec, len, output, iit)
      decreases |iit|
    {
      var element := dec(iit);
      if !element.Ok? {
        return element.PropagateFailure();
      }
      assert |dec(iit).rest| < |iit|;
      output := Insert(output, element.value);
      iit := element.rest;
    }
    return Ok(output, iit);
  }
}
