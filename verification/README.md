# RapidCheck core, modelled and proved in Dafny

The property-testing engine vendored with OUTPOST (`ext/rapidcheck`) generates cases from a splittable
random generator, shrinks a failing one, prints a record of it in a configuration string, and replays the
failure from that string. This project models that engine and proves what it relies on. `dafny verify
dfyconfig.toml` checks everything.

The modules, from the bottom up:

- `Bits`: fixed-width integers as ranges of the mathematical ones, and the bitwise operators defined bit by bit.
- `Threefish`: the cipher of section 3.3 of "The Skein Hash Function Family", version 1.3, its inverse, and the
  unrolled form. The original's 324 lines are nine groups that differ only in which key and tweak words they add;
  the group is written out once, as `MixEightRounds`, and `Mash` calls it nine times with the words the original uses.
- `MachineWords`, `ThreefishVectors`: the operators on numbers are those of 64-bit bit-vectors, on which the verifier can
  run the cipher: its known answers, as the reference implementation publishes them, and the first numbers drawn.
- `SplittableRandom`, `RandomStreams`: the generator as a class and as a state machine; what its streams share.
- `Serialization`, `ReproduceCodec`, `Base64`: the byte codecs, the records, and their text form.
- `StringMap`, `MapParser`, `Configuration`: configuration text; `FreeText`, `Parameters`: what it may look like when
  people write it, and what each parameter means.
- `SizeSchedule`, `Testing`, `SearchRuns`, `Check`: the size schedule, search, shrinking, recording and replay.
- `SearchSizes`: which sizes a search reaches, and what they mean for generated integers and for its own arithmetic.
- `BitStream`, `ImplicitParam`, `FrequencyMap`, `AdapterContext`: the bit chunker, implicit parameters, weighted
  choice, and the combination of reported results.

Functions specify; each loop or update in place of the original is a method proved against them, and the lemmas are
about the functions. Words of 64 bits wrap around explicitly. Decoders and the bit chunker have an outcome `Undefined`
where the original would shift by too much or read past the end, so they are total; `CompactOutcome`, `RandomUndefined`
and `IntegersDefined` say exactly when it comes up.
`hide` statements only keep definitions that a proof does not need away from the solver.

Properties that hold under a condition only are stated as equivalences:

- A generator comes back equal from the codec iff a number has been drawn or its block is the one decoded into
  (`RandomEqualRoundTrip`); this fails after the 64-bit counter has wrapped (`WrapBreaksRoundTrip`).
- A printed map parses to itself iff it has no empty key; a configuration loads to itself iff its limits are not
  negative and its generators survive the codec; decoded Base64 text is re-encoded to itself iff it has no stray bits.
- Decoded compact integers are re-encoded to the same bytes iff these have no empty last group and no stray bits.
- A replay finds the same failure iff shrinking has not been switched off since, or nothing had been shrunk.
- The lookup table is sorted iff the sum of the weights does not overflow.
- No search asks an integer generator for more bits than its type has iff the excess of its largest possible size,
  which discards drive beyond the schedule, over the nominal one amounts to less than half a bit (`WidestRequest`);
  the standard parameters do not meet this for any type.

Where code and comments differ the code is followed: `BitStream::next<bool>` takes one bit whatever number is asked
for (`NextBool`), and `nextWithSize` does not limit the size to the nominal one as its comment says (`DefaultsExceed`).

## Model

| member | source | states |
|---|---|---|
| `Check.EndToEnd` | ext/rapidcheck/src/detail/StringSerialization.cpp:9-27 | For every deterministic property and non-empty id: a failure returned by testing, put into any reproduce map, printed in any iteration order and read back, is found again by checking under any parameters; the reading never fails and the replay is never an error. Description, counterexample and record are the same iff shrinking is still on or there was nothing to shrink; otherwise they are those of the recorded case before it was shrunk. All other properties are skipped |
| `Check.EndToEndThroughPrintedLine` | ext/rapidcheck/src/detail/ReproduceListener.cpp:23-32 | The same through the parameters printed after a run with failures, loaded over any defaults, a new seed included: they set the reproduce map alone, replay the failure, and skip the properties the map does not name |
| `Check.EndToEndThroughConfiguration` | ext/rapidcheck/src/detail/Configuration.cpp:175-194 | The same through a whole configuration string, full or minimal: it loads with the same parameters and replays the failure |
| `Check.ReplayFindsFailure` | ext/rapidcheck/src/Check.cpp:9-31 | Replaying a recorded failure, under whatever parameters, out of any map that holds it under the id gives a failure, with zero successes: the same one iff shrinking is still on or there was nothing to shrink |
| `Check.RecordedFailure` | ext/rapidcheck/src/detail/Testing.cpp:129-150 | A recorded failure leads along its path to a failing case whose description and example it carries; the path is the greedy one to a local minimum, or empty if shrinking is off; its generator survives the codec |
| `Check.TestOutcome` | ext/rapidcheck/src/detail/Testing.cpp:112-151 | What testing returns in terms of the cases run: counts, tag distribution, the description of the last discard, the generator and size of the failing case; never an error |
| `Check.DoTestProperty` | ext/rapidcheck/src/detail/Testing.cpp:112-151 | The search, the shrinking and the filling in of the result meet the specification |
| `Check.Replay` | ext/rapidcheck/src/detail/Testing.cpp:164-188 | Walking the path and classifying its end meets the specification, with its two error cases |
| `Check.CheckWith` | ext/rapidcheck/src/Check.cpp:9-31 | The dispatch between testing, skipping and replaying meets the specification |
| `Check.OnlyNamedAreReplayed` | ext/rapidcheck/src/Check.cpp:9-31 | With a map that is not empty a property it does not name is skipped, as a success of no cases, and only a named one can fail or be in error; with an empty map everything is tested, and the result is what the cases run say |
| `Check.ReplayOutcome` | ext/rapidcheck/src/detail/Testing.cpp:164-188 | Which of its two errors, or which failure, a replay ends in, according to where the path leads: out of the tree, to a case that does not fail, or to a failing one |
| `Check.RecordedRandom` | ext/rapidcheck/src/detail/Testing.cpp:43-60 | The recorded generator in terms of the seed and the number of cases run: key, path bits and depth |
| `SearchRuns.SearchTheorem` | ext/rapidcheck/src/detail/Testing.cpp:31-83 | A search runs at most maxSuccess + maxDiscardRatio * maxSuccess cases; it succeeds iff maxSuccess cases succeeded, gives up iff one discard more than the limit was seen, fails iff the last case failed; no other case failed; the recorded generator and size regenerate the recorded case, and the size is at most maxSize + maxDiscard / 10 |
| `SearchRuns.SearchClassifies` | ext/rapidcheck/src/detail/Testing.cpp:44-82 | The same from any point of the search on, with the counters it has reached |
| `SearchRuns.CaseAt` | ext/rapidcheck/src/detail/Testing.cpp:44-50 | Case k is what the property makes of the k-th generator split off the seed's, at the size called for by the successes and by the discards since the last of them |
| `SearchRuns.CaseRandom` | ext/rapidcheck/src/detail/Testing.cpp:43-50 | The generator of case k from the seed alone: the seed four times as key, no bits but bit k, k + 1 bits deep; from case 64 on under the keys that full paths lead to |
| `SearchRuns.SearchTags` | ext/rapidcheck/src/detail/Testing.cpp:72-78 | The tags collected are those of the successful cases that have any, in order |
| `SearchSizes.WidestRequest` | ext/rapidcheck/include/rapidcheck/detail/BitStream.h:24-27 | For which parameters the limit of the comment holds: no search asks for more bits than a type has iff it runs no case or the excess of its largest possible size over the nominal one amounts to less than half a bit of that type |
| `SearchSizes.IntegersDefined` | ext/rapidcheck/include/rapidcheck/gen/Numeric.hpp:12-18 | For which parameters no integer generated at the size of a case is undefined, for every property, source and type |
| `SearchSizes.DefaultsExceed` | ext/rapidcheck/include/rapidcheck/gen/Numeric.hpp:12-18 | Under the standard parameters a search asks for sizes 101 and 102, for 65 bits of a 64-bit integer, which is undefined, and for 33 bits of a 32-bit one |
| `SearchSizes.SizesReached` | ext/rapidcheck/src/detail/Testing.cpp:45-46 | Every size from the largest of the schedule to that plus a tenth of the discard limit is the size of a case of one and the same property |
| `SearchSizes.NeverLarger` | ext/rapidcheck/src/detail/Testing.cpp:45-46 | No search of any property asks for a larger size |
| `SearchSizes.SearchFits` | ext/rapidcheck/src/detail/Testing.cpp:10-83 | Under NoOverflow every counter, product and size computed for any case of any search fits 32 bits |
| `Testing.SearchProperty` | ext/rapidcheck/src/detail/Testing.cpp:31-83 | The loop over splits, counters and tags computes the specified search, or throws if maxSuccess is negative |
| `Testing.ShrinkTestCase` | ext/rapidcheck/src/detail/Testing.cpp:85-108 | The loop ends; its result is reached by the returned path, is a local minimum, fails if the root fails, and the path is the greedy one |
| `Testing.GreedyPathUnique` | ext/rapidcheck/src/detail/Testing.cpp:91-105 | At most one path goes through the first failing shrink of each level and stops only at a local minimum |
| `Testing.GreedyPathLeads` | ext/rapidcheck/include/rapidcheck/shrinkable/Operations.hpp:44-57 | Walking such a path succeeds and ends in a failing local minimum |
| `Testing.ShrinkPath` | ext/rapidcheck/src/detail/Testing.cpp:91-105 | The path shrinking takes has the first failing shrink of its level at each index and ends in a local minimum |
| `SizeSchedule.Fair` | ext/rapidcheck/src/detail/Testing.cpp:10-27 | Each size from 0 to maxSize is used q or q + 1 times in maxSuccess cases, q being maxSuccess / (maxSize + 1) |
| `SizeSchedule.SizeInRange` | ext/rapidcheck/src/detail/Testing.cpp:10-27 | No size outside 0 to maxSize is used |
| `SizeSchedule.MaxSizeUsed` | ext/rapidcheck/src/detail/Testing.cpp:11-13 | maxSize is used iff there are at least two cases, or one case and maxSize is 0 |
| `SizeSchedule.RestSizesGrow` | ext/rapidcheck/src/detail/Testing.cpp:21-26 | The sizes of the cases after the last full round strictly increase |
| `SizeSchedule.RestSizesEven` | ext/rapidcheck/src/detail/Testing.cpp:21-26 | They go from 0 to maxSize in steps of maxSize / (number of cases left - 1), rounded down or up |
| `SizeSchedule.Regular` | ext/rapidcheck/src/detail/Testing.cpp:15-19 | In each full round case j has size j |
| `RandomStreams.LiveGeneratorsDisjoint` | ext/rapidcheck/src/Random.cpp:33-39 | However one fresh generator and its descendants are split, two live generators at most 64 splits deep share no 256-bit block at any positions before their counters wrap |
| `RandomStreams.SplitStreamsDisjoint` | ext/rapidcheck/src/Random.cpp:57-68 | The same for any two diverging paths from any state in which no number has been drawn |
| `RandomStreams.SameStream` | ext/rapidcheck/include/rapidcheck/Random.h:40-46 | Two generators of one tree draw the same numbers iff one is reached from the other by left turns alone, which is why a generator must not be both split and drawn from |
| `RandomStreams.SplitAllDiverges` | ext/rapidcheck/src/Random.cpp:33-39 | Splitting keeps the paths of all live generators diverging |
| `RandomStreams.SameBits` | ext/rapidcheck/src/Random.cpp:64-67 | Paths leave equal bits iff one is the other continued to the left |
| `RandomStreams.FullPathsRekeyApart` | ext/rapidcheck/src/Random.cpp:57-62 | Generators on different full paths continue under different keys, each the encryption of its path |
| `RandomStreams.NoBlockRepeats` | ext/rapidcheck/src/Random.cpp:41-55 | A generator draws no block twice before its counter wraps |
| `RandomStreams.DrawnAt` | ext/rapidcheck/src/Random.cpp:41-55 | Until the counter wraps, draw n is word n mod 4 of the block encrypted for n rounded down to a multiple of four |
| `RandomStreams.CounterWraps` | ext/rapidcheck/src/Random.cpp:41-55 | After 2^64 draws the counter is 0 again, on the path continued to the right under the same key |
| `RandomStreams.SameFuture` | ext/rapidcheck/src/Random.cpp:41-68 | States that differ at most in a cached block that will be recomputed draw the same numbers in every run of draws and splits |
| `SplittableRandom.ReachableInv` | ext/rapidcheck/src/Random.cpp:22-68 | Every reachable state has at most 64 path bits, none set above them, and after a draw the block of the last multiple of four |
| `SplittableRandom.RunKeepsInv` | ext/rapidcheck/src/Random.cpp:33-68 | Any run keeps that invariant, and only a split after a draw is not allowed |
| `SplittableRandom.AppendBits` | ext/rapidcheck/src/Random.cpp:57-68 | Appending adds one bit on top of the path, or, if it was full, starts a new path under the key that the old one encrypts to |
| `SplittableRandom.Random.Split` | ext/rapidcheck/src/Random.cpp:33-39 | Both halves continue from the old state, one with bit 0 and one with bit 1 |
| `SplittableRandom.Random.Next` | ext/rapidcheck/src/Random.cpp:41-55 | The number returned and the new state, including the refill and the wrap of the counter |
| `SplittableRandom.Random.AppendBit` | ext/rapidcheck/src/Random.cpp:57-68 | The new state, including the folding of a full path into the key |
| `Threefish.Mash` | ext/rapidcheck/src/Random.cpp:70-425 | The unrolled computation on words that are never permuted is the 72-round Threefish-256 encryption of (bits, counter, 0, 0) with its 19 subkeys and the tweak (13, 37) |
| `ThreefishVectors.ZeroVector` | ext/rapidcheck/src/Random.cpp:70-425 | The published answer for a zero key, tweak and block, in literals |
| `ThreefishVectors.RisingVector` | ext/rapidcheck/src/Random.cpp:70-425 | The published answer for a key, tweak and block of different bytes, in literals |
| `ThreefishVectors.FirstNumbers` | ext/rapidcheck/src/Random.cpp:22-28 | The first four numbers of a default-constructed generator, in literals |
| `ThreefishVectors.RunFour` | ext/rapidcheck/src/Random.cpp:87-122 | Four rounds of the cipher on numbers are the same rounds done with the machine's additions, shifts and exclusive ors |
| `MachineWords.OperatorsAgree` | ext/rapidcheck/src/Random.cpp:87-122 | Addition modulo 2^64 and exclusive or, as defined bit by bit on numbers, are those of 64-bit words |
| `MachineWords.RotatedValue` | ext/rapidcheck/src/Random.cpp:87-122 | Rotation as defined on numbers is that of 64-bit words |
| `Threefish.MixEightRounds` | ext/rapidcheck/src/Random.cpp:87-122 | One of the nine repeated groups is eight rounds of the cipher with the two subkeys it adds, permutations included |
| `Threefish.EightRoundsOfTheCipher` | ext/rapidcheck/src/Random.cpp:87-418 | Eight rounds with the scheduled subkeys advance the cipher by one group |
| `Threefish.Bijective` | ext/rapidcheck/src/Random.cpp:70-425 | Under every key decryption inverts encryption and encryption inverts decryption |
| `Threefish.UnroundRound` | ext/rapidcheck/src/Random.cpp:87-96 | Each round, with or without a subkey, is undone by its inverse and undoes it |
| `ReproduceCodec.RandomRoundTrip` | ext/rapidcheck/include/rapidcheck/Random.hpp:7-44 | Decoding an encoded generator followed by anything gives it back up to the cached block, and the rest unread |
| `ReproduceCodec.RandomEqualRoundTrip` | ext/rapidcheck/include/rapidcheck/Random.hpp:29-40 | It comes back equal iff a number has been drawn since the counter was 0 or the block decoded into is its own |
| `ReproduceCodec.CanonicalGuard` | ext/rapidcheck/include/rapidcheck/Random.hpp:29-40 | Among states that keep the invariant those that survive the codec are the ones with a positive counter or an empty block |
| `ReproduceCodec.RandomFutureRoundTrip` | ext/rapidcheck/include/rapidcheck/Random.hpp:18-44 | Equal or not, it draws the same numbers in every run |
| `ReproduceCodec.ReachableRoundTrip` | ext/rapidcheck/include/rapidcheck/Random.hpp:7-44 | Every state reached from a fresh generator before the counter first wraps comes back equal |
| `ReproduceCodec.WrapBreaksRoundTrip` | ext/rapidcheck/src/Random.cpp:47-49 | After a wrap equality is lost: for every key, one of the two halves of the first split, having drawn 2^64 numbers, does not come back equal |
| `ReproduceCodec.SerializeRandom` | ext/rapidcheck/include/rapidcheck/Random.hpp:7-16 | The bytes written, in order |
| `ReproduceCodec.DeserializeRandom` | ext/rapidcheck/include/rapidcheck/Random.hpp:18-44 | The state filled in place, the recomputed block included, or the failure and, if the input ends too early, what has been filled in by then |
| `ReproduceCodec.RandomUndefined` | ext/rapidcheck/include/rapidcheck/Random.hpp:18-44 | Byte by byte, the inputs on which decoding a generator is undefined: those where a compact field runs on past its width, or that end before the last byte |
| `ReproduceCodec.ReproduceRoundTrip` | ext/rapidcheck/include/rapidcheck/detail/Results.hpp:6-29 | Decoding an encoded record followed by anything gives it back up to the cached block, negative sizes included |
| `ReproduceCodec.SerializeReproduce` | ext/rapidcheck/include/rapidcheck/detail/Results.hpp:6-13 | The bytes written, in order |
| `ReproduceCodec.DeserializeReproduce` | ext/rapidcheck/include/rapidcheck/detail/Results.hpp:15-29 | The record read, or the failure |
| `ReproduceCodec.MapStringRoundTrip` | ext/rapidcheck/src/detail/StringSerialization.cpp:9-27 | Reading a printed reproduce map gives it back up to cached blocks, whatever order it was iterated in |
| `ReproduceCodec.MapStringEqual` | ext/rapidcheck/src/detail/StringSerialization.cpp:9-27 | It comes back equal iff all its generators are ones the codec preserves: given the invariant, iff each has a positive counter or an empty block |
| `ReproduceCodec.ReproduceMapToString` | ext/rapidcheck/src/detail/StringSerialization.cpp:9-14 | The string written is that of some iteration order, and it reads back as the map up to cached blocks |
| `ReproduceCodec.StringToReproduceMap` | ext/rapidcheck/src/detail/StringSerialization.cpp:16-27 | The map read, or the parse error, its position included, or the length_error that is let through |
| `ReproduceCodec.BadStrings` | ext/rapidcheck/src/detail/StringSerialization.cpp:16-27 | One string whose reading is undefined and one whose reading ends in length_error |
| `ReproduceCodec.MalformedStrings` | ext/rapidcheck/src/detail/StringSerialization.cpp:16-27 | A string of each kind that is refused, with the position and the message |
| `ReproduceCodec.TrailingBytesIgnored` | ext/rapidcheck/src/detail/StringSerialization.cpp:16-27 | Whatever follows the encoded map is ignored |
| `ReproduceCodec.KnownBytes` | ext/rapidcheck/include/rapidcheck/detail/Results.hpp:6-13 | The bytes of one map with one record, in literals: the order of all fields and their encodings |
| `Serialization.FixedRoundTrip` | ext/rapidcheck/include/rapidcheck/detail/Serialization.hpp:8-41 | Decoding a little-endian integer followed by anything gives the integer and the rest |
| `Serialization.CompactRoundTrip` | ext/rapidcheck/include/rapidcheck/detail/Serialization.hpp:167-201 | The same for compact integers of every width |
| `Serialization.CompactSignedRoundTrip` | ext/rapidcheck/include/rapidcheck/detail/Serialization.hpp:167-201 | The same for signed types, negative values included |
| `Serialization.CompactOutcome` | ext/rapidcheck/include/rapidcheck/detail/Serialization.hpp:183-201 | Byte by byte, when decoding a compact integer succeeds, meets the end of the input, or is undefined: the last iff five groups, or ten at 64 bits, and another byte follow without an end |
| `Serialization.CompactReencodes` | ext/rapidcheck/include/rapidcheck/detail/Serialization.hpp:167-201 | Encoding what was decoded gives the bytes read iff their last group is not empty, unless alone, and has no bits beyond the width |
| `Serialization.CompactMinimal` | ext/rapidcheck/include/rapidcheck/detail/Serialization.h:98-104 | No byte sequence that decodes to a value is shorter than its compact encoding |
| `Serialization.CompactLength` | ext/rapidcheck/include/rapidcheck/detail/Serialization.h:98-104 | n bytes are used for the values from 2^(7(n-1)) to 2^(7n) - 1: unsigned LEB128, section 7.6 of DWARF Version 5 |
| `Serialization.TextRoundTrip` | ext/rapidcheck/include/rapidcheck/detail/Serialization.hpp:43-68 | The same for strings |
| `Serialization.RangeRoundTrip` | ext/rapidcheck/include/rapidcheck/detail/Serialization.hpp:203-229 | The same for ranges of compact integers |
| `Serialization.AllRoundTrip` | ext/rapidcheck/include/rapidcheck/detail/Serialization.hpp:138-165 | The same for a known number of elements of any type that reads back |
| `Serialization.PairRoundTrip` | ext/rapidcheck/include/rapidcheck/detail/Serialization.hpp:69-83 | The same for pairs |
| `Serialization.MapRoundTrip` | ext/rapidcheck/include/rapidcheck/detail/Serialization.hpp:85-111 | The same for maps whose entries read back, in any iteration order |
| `Serialization.MapHoldsFirstValues` | ext/rapidcheck/include/rapidcheck/detail/Serialization.hpp:96-111 | A successful map decoding read elements up to the announced number of distinct keys and no further, and holds for each key the value first seen |
| `Serialization.SerializeFixed` | ext/rapidcheck/include/rapidcheck/detail/Serialization.hpp:8-21 | The bytes written |
| `Serialization.DeserializeFixed` | ext/rapidcheck/include/rapidcheck/detail/Serialization.hpp:23-41 | The shifting loop reads the integer or reports the end of input |
| `Serialization.SerializeCompact` | ext/rapidcheck/include/rapidcheck/detail/Serialization.hpp:167-181 | The bytes written |
| `Serialization.DeserializeCompact` | ext/rapidcheck/include/rapidcheck/detail/Serialization.hpp:183-201 | The shifting loop reads the integer modulo the width, or reports the end of input, or a shift that is too wide |
| `Serialization.DeserializeText` | ext/rapidcheck/include/rapidcheck/detail/Serialization.hpp:50-68 | The string read, or the failure |
| `Serialization.SerializeMap` | ext/rapidcheck/include/rapidcheck/detail/Serialization.hpp:85-94 | The size and every entry once are written, in some order |
| `Serialization.DeserializeMap` | ext/rapidcheck/include/rapidcheck/detail/Serialization.hpp:96-111 | The loop ends on every input, as each element consumes bytes, and gives the decoded map or the failure |
| `Serialization.DeserializeRange` | ext/rapidcheck/include/rapidcheck/detail/Serialization.hpp:215-229 | The numbers read, or the failure |
| `Base64.DecodeEncode` | ext/rapidcheck/src/detail/Base64.cpp:32-87 | Decoding an encoding gives the data back |
| `Base64.EncodedLength` | ext/rapidcheck/src/detail/Base64.cpp:34 | n bytes become (4n + 2) / 3 characters |
| `Base64.DecodeSucceeds` | ext/rapidcheck/src/detail/Base64.cpp:56-75 | Decoding succeeds iff all characters belong to the alphabet and the length modulo 4 is not 1; otherwise the length is reported first, then the first foreign character |
| `Base64.Alphabet` | ext/rapidcheck/src/detail/Base64.cpp:9-30 | The 64 characters in order, and that the table leads back to their places and to no others |
| `Base64.EncodeDecode` | ext/rapidcheck/src/detail/Base64.cpp:56-87 | Encoding what was decoded gives the text back iff the bits of its last character that belong to no byte are zero |
| `Base64.Base64Encode` | ext/rapidcheck/src/detail/Base64.cpp:32-54 | The nested loops compute the specified encoding |
| `Base64.Base64Decode` | ext/rapidcheck/src/detail/Base64.cpp:56-87 | The nested loops compute the specified decoding, errors included |
| `MapParser.PrintedMapReadsBack` | ext/rapidcheck/src/detail/MapParser.cpp:113-185 | A printed map, in any order and with either quote, parses to itself iff it has no empty key, which would end the parsing |
| `MapParser.NormaliserIdempotent` | ext/rapidcheck/src/detail/MapParser.cpp:115-185 | Printing what was parsed keeps what the text says, and doing so again changes nothing, whichever quotes are used |
| `FreeText.FreeTextReads` | ext/rapidcheck/src/detail/MapParser.cpp:83-127 | Text in any spacing parses to what it says: any of the six white space characters in front, behind, between pairs and around each equals sign, keys and values plain or in either quotes, with any further backslashes, and keys without values |
| `FreeText.LastValueCounts` | ext/rapidcheck/src/detail/MapParser.cpp:122-124 | Of several values for a key the last one counts |
| `FreeText.OpenQuoteFails` | ext/rapidcheck/src/detail/MapParser.cpp:43-68 | A quote that is never closed makes any text malformed, at its end and with the stated message |
| `FreeText.EmptyKeyEnds` | ext/rapidcheck/src/detail/MapParser.cpp:83-93 | An empty key ends the text for the parser, whatever follows |
| `FreeText.PrintedString` | ext/rapidcheck/src/detail/MapParser.cpp:131-161 | A string is printed plainly iff it is not empty and nothing in it is special, and otherwise in the right quotes with no backslash more than needed |
| `FreeText.PrintedMap` | ext/rapidcheck/src/detail/MapParser.cpp:163-185 | A printed map is such a text with single spaces between the pairs, none elsewhere, and no value where it is empty |
| `MapParser.PairReadsBack` | ext/rapidcheck/src/detail/MapParser.cpp:83-168 | A printed pair parses to itself and leaves what follows it |
| `MapParser.QuotedReadsBack` | ext/rapidcheck/src/detail/MapParser.cpp:43-68 | An escaped string parses to itself up to its closing quote |
| `MapParser.ParsePairAt` | ext/rapidcheck/src/detail/MapParser.cpp:83-111 | The state moves past a pair if there is one and stays where it is otherwise |
| `MapParser.ParseMap` | ext/rapidcheck/src/detail/MapParser.cpp:115-127 | The loop ends, as each pair moves the position forward, and gives the parsed map or the error |
| `MapParser.ParseState.ParseQuotedString` | ext/rapidcheck/src/detail/MapParser.cpp:43-68 | The value, the new position and the error of the escape loop |
| `MapParser.MapToString` | ext/rapidcheck/src/detail/MapParser.cpp:172-185 | The pairs in key order, separated by single spaces |
| `StringMap.ItemsOrdered` | ext/rapidcheck/src/detail/MapParser.cpp:175-182 | A map is printed in the order of its keys |
| `StringMap.LexMeaning` | ext/rapidcheck/src/detail/MapParser.cpp:175-182 | That order is lexicographic |
| `StringMap.ItemsEnumerate` | ext/rapidcheck/src/detail/MapParser.cpp:175-182 | Each entry is printed once |
| `Configuration.FullRoundTrip` | ext/rapidcheck/src/detail/Configuration.cpp:92-187 | A configuration's string loads to it, whatever the defaults and the iteration order, iff its limits are not negative and its generators are ones the codec preserves (given the invariant, those with a positive counter or an empty block); otherwise the first negative limit is reported |
| `Configuration.MinimalRoundTrip` | ext/rapidcheck/src/detail/Configuration.cpp:159-194 | The minimal string loads with the standard defaults to what the full one does |
| `Parameters.MinimalHolds` | ext/rapidcheck/src/detail/Configuration.cpp:159-194 | The minimal string holds the seed, and each other parameter iff it is not at its standard value, with the text of the full string |
| `Parameters.Limits` | ext/rapidcheck/src/detail/Configuration.cpp:100-116 | Each of the three limits sets its own field, or is refused with its own message if negative |
| `Parameters.Seeds` | ext/rapidcheck/src/detail/Configuration.cpp:94-98 | The seed sets its field |
| `Parameters.Flags` | ext/rapidcheck/src/detail/Configuration.cpp:118-134 | Each of the three flags sets its own field |
| `Parameters.NotNumbers` | ext/rapidcheck/src/detail/Configuration.cpp:92-145 | The message for each parameter whose value cannot be read |
| `Parameters.NumberReads` | ext/rapidcheck/src/detail/Configuration.cpp:41-46 | A number is read through leading white space, with either sign, up to the first character that is no digit |
| `Parameters.NumbersTaken` | ext/rapidcheck/src/detail/Configuration.cpp:41-46 | Which of the numbers read each type takes: those in range, for the unsigned one modulo 2^64, for a flag 0 and 1 |
| `Parameters.OpenQuoteReported` | ext/rapidcheck/src/detail/Configuration.cpp:175-183 | The exception of a text that does not parse, position and message included |
| `Configuration.OnlyKnownKeys` | ext/rapidcheck/src/detail/Configuration.cpp:92-145 | Loading depends on the eight known keys alone |
| `Configuration.ReproduceParamsLoad` | ext/rapidcheck/src/detail/ReproduceListener.cpp:28-31 | The printed parameters load over any defaults to these defaults with the reproduce map |
| `Configuration.LoneStringLoads` | ext/rapidcheck/src/detail/Configuration.cpp:92-145 | What a lone reproduce string comes to: only the map is set, or its failure is passed on |
| `Configuration.BadParams` | ext/rapidcheck/src/detail/Configuration.cpp:48-58 | Parameters whose loading is undefined, and parameters whose loading ends in an exception nothing catches |
| `Configuration.IntReadsBack` | ext/rapidcheck/src/detail/Configuration.cpp:41-46 | A printed integer is read back, sign included |
| `Configuration.LoadMap` | ext/rapidcheck/src/detail/Configuration.cpp:92-145 | Loading the parameters one by one meets the specification, the first error included |
| `Configuration.Difference` | ext/rapidcheck/src/detail/Configuration.cpp:159-171 | The loop computes the pairs that the other map does not have |
| `Configuration.ConfigToString` | ext/rapidcheck/src/detail/Configuration.cpp:185-187 | The string written loads with any defaults to the configuration, or to the error its first negative limit deserves |
| `Configuration.ConfigToMinimalString` | ext/rapidcheck/src/detail/Configuration.cpp:189-194 | The string written loads with the standard defaults to the configuration, or to the error its first negative limit deserves |
| `BitStream.BitStream.NextAll` | ext/rapidcheck/include/rapidcheck/detail/BitStream.hpp:39-76 | Any series of requests from a source of any word width gets the specified values one after the other, or is undefined because one of them is; exactly ceil(bits / word width) words are drawn |
| `BitStream.ValuesWhenFit` | ext/rapidcheck/include/rapidcheck/detail/BitStream.hpp:39-76 | If no request asks for more bits than its type has, the values are the consecutive slices of the endless bit string of the source, sign-extended for signed types |
| `BitStream.WholeWhenFits` | ext/rapidcheck/include/rapidcheck/detail/BitStream.hpp:48-63 | An unsigned request returns its whole slice of every source iff it asks for no more bits than its type has |
| `BitStream.SizeFits` | ext/rapidcheck/include/rapidcheck/detail/BitStream.hpp:78-82 | A size asks for no more bits than the type has iff its excess over the nominal size amounts to less than half a bit |
| `BitStream.NearestBits` | ext/rapidcheck/include/rapidcheck/detail/BitStream.hpp:78-82 | The number of bits is the one nearest to the proportion of the size to the nominal one |
| `BitStream.BitStream.NextWithSize` | ext/rapidcheck/include/rapidcheck/detail/BitStream.hpp:78-82 | The request in proportion to the size, for every size and type |
| `BitStream.BitStream.NextBool` | ext/rapidcheck/include/rapidcheck/detail/BitStream.hpp:42-46 | One bit is taken and returned; that is what was asked for iff one bit was |
| `BitStream.BitStream.NextUnsigned` | ext/rapidcheck/include/rapidcheck/detail/BitStream.hpp:48-63 | The refill, mask and shift loop returns the next bits, least significant first, those beyond the width of the type being lost; it is undefined iff more than 64 bits and those in the buffer are asked for |
| `BitStream.BitStream.NextSigned` | ext/rapidcheck/include/rapidcheck/detail/BitStream.hpp:65-75 | The last bit asked for becomes the sign unless it is beyond the width; the request is undefined iff more bits are asked for than the promoted type has |
| `BitStream.SignExtension` | ext/rapidcheck/include/rapidcheck/detail/BitStream.hpp:65-73 | Setting all bits above a set sign bit gives the value of the shorter number |
| `BitStream.MaskValue` | ext/rapidcheck/include/rapidcheck/detail/Utility.h:94-99 | The mask expression has exactly its n low bits set, for every n up to the full width |
| `BitStream.PiecesReassemble` | ext/rapidcheck/include/rapidcheck/detail/BitStream.hpp:50-63 | However the bit string is cut, the pieces put together are the string: no bit is lost or repeated |
| `BitStream.SliceSplit` | ext/rapidcheck/include/rapidcheck/detail/BitStream.hpp:50-63 | A slice is its first part and, shifted, its second |
| `ImplicitParam.Refines` | ext/rapidcheck/include/rapidcheck/detail/ImplicitParam.hpp:9-38 | Every well-nested program, from every state, pops no empty stack, reads what dynamic scoping says, and changes the stacks of the innermost scope only, registering each new default once |
| `ImplicitParam.ReadsAreDynamicallyScoped` | ext/rapidcheck/include/rapidcheck/detail/ImplicitParam.h:8-26 | From the initial state each read returns the innermost binding made since the innermost scope opened, or else the default or what was assigned to it |
| `ImplicitParam.ScopeRestores` | ext/rapidcheck/src/detail/ImplicitParam.cpp:6-13 | A scope leaves all stacks and all registered pops as they were when it opened; inside it each parameter is registered at most once |
| `ImplicitParam.CloseRestores` | ext/rapidcheck/src/detail/ImplicitParam.cpp:8-13 | The deferred pops undo exactly what the scope has pushed |
| `ImplicitParam.Unbound` | ext/rapidcheck/include/rapidcheck/detail/ImplicitParam.hpp:35-38 | The end of a binding pops exactly what its beginning pushed |
| `ImplicitParam.ImplicitState.Value` | ext/rapidcheck/include/rapidcheck/detail/ImplicitParam.hpp:20-33 | The lazily pushed default and its registration |
| `ImplicitParam.ImplicitState.CloseScope` | ext/rapidcheck/src/detail/ImplicitParam.cpp:8-13 | The loop over the registered pops |
| `ImplicitParam.RunProgram` | ext/rapidcheck/include/rapidcheck/detail/ImplicitParam.hpp:9-38 | Running a program with the stacks updated in place reads what dynamic scoping says |
| `FrequencyMap.LookupExact` | ext/rapidcheck/src/detail/FrequencyMap.cpp:8-19 | Of the numbers below the sum each index gets as many as its weight says |
| `FrequencyMap.LookupRange` | ext/rapidcheck/src/detail/FrequencyMap.cpp:17-19 | A number is mapped to the weight whose share of [0, sum) contains it, and from the sum on to none |
| `FrequencyMap.SortedUnlessOverflow` | ext/rapidcheck/src/detail/FrequencyMap.cpp:8-15 | The table is sorted, as the search needs, iff the sum of the weights fits 64 bits |
| `FrequencyMap.FrequencyMap.constructor` | ext/rapidcheck/src/detail/FrequencyMap.cpp:8-15 | The running sums, wrapping around at 64 bits |
| `AdapterContext.AdapterContext.ReportResult` | ext/rapidcheck/src/detail/Property.cpp:11-48 | After any series of reports the kept type and messages are those of the whole series: the first discard, else all failures in order, else the last success |
| `AdapterContext.FinalKindIsMaximum` | ext/rapidcheck/src/detail/Property.cpp:11-48 | The final type is the greatest reported under Discard > Failure > Success |
| `AdapterContext.KeptMessages` | ext/rapidcheck/src/detail/Property.cpp:11-48 | The messages kept are the first discard's, or each failure's at its place among the failures, or the last success's |
| `AdapterContext.JoinPlaces` | ext/rapidcheck/src/detail/Property.cpp:61-66 | Each message stands at its place in the description, after an empty line unless first, and nothing follows the last |
| `AdapterContext.WhereThingsStand` | ext/rapidcheck/src/detail/Property.cpp:68-76 | Behind the messages comes the log under its heading, iff there is one |
| `AdapterContext.AdapterContext.Result` | ext/rapidcheck/src/detail/Property.cpp:58-76 | The messages joined by blank lines, the log if there is one, and the tags |

## Left out

- Rekeying across generations: that keys after a rekey differ from all earlier ones is a cryptographic assumption; only keys from different full paths under one key are compared.
- RandomStreams.LiveGeneratorsDisjoint: does not speak of generators more than 64 splits deep or of draws after the counter wraps, because both continue under other keys or other bits.
- Testing.SearchProperty: counters are mathematical integers; under the condition `NoOverflow` those of the original do not overflow. A negative maxSize, which loading rejects, is excluded unless maxSuccess is negative too.
- Check.EndToEnd: asks that lengths, counts and shrink indices fit 64 bits, as they do in any process.
- ReproduceCodec.DeserializeRandom: does not say what the generator holds after an undefined decoding.
- BitStream.BitStream.NextUnsigned: does not cover sources of signed words or negative numbers of bits; a shift of the buffer by 64 leaves an arbitrary value, which is not read.
- BitStream.BitStream.NextWithSize: does not cover negative sizes, which no search asks for.
- Left shifts into the sign and of negative numbers are those of two's complement, as C++20 prescribes and earlier compilers do.
- `MAX_TEXT_SIZE` is libstdc++'s limit on 64-bit machines; other libraries have others.
- Threefish.Mash: the 324 unrolled lines are nine calls of one group.
- Base64.Reverse: the 256-entry table is given by its ranges.
- Shrink trees are finite values; laziness, reference counting and atomics of generators and sequences are not modelled.
- Properties are deterministic functions of generator and size; exceptions thrown by generators are part of the case description.
- Extraction from and insertion into standard streams are modelled for decimal integers in the classic locale; `std::upper_bound` by its definition.
- Listeners, output, environment variables and the random device are I/O and left out, and so is running out of memory on a huge announced length below the limit.
- The ordering of generators, hashing, `avalanche`, and the printing of results are left out because they would only add easy members.
- The OUTPOST modules, gtest, gsl and icecream are not part of this model.
