/** Which sizes a search asks for, and what they mean for the arithmetic of the program: for its
    counters, and for the integers generated at these sizes. */
module SearchSizes {
  import opened Bits
  import opened SplittableRandom
  import opened Configuration
  import opened SizeSchedule
  import opened Testing
  import opened SearchRuns
  import opened BitStream

  // ------------------------------------------------------------------------ the largest size

  /** The largest size of the schedule. */
  function TopSize(params: TestParams): int {
    if params.maxSuccess == 1 then 0 else params.maxSize
  }

  /** The largest size of a case: every tenth discard in a row adds one. */
  function LargestSize(params: TestParams): int {
    TopSize(params) + AtLeastZero(MaxDiscard(params)) / 10
  }

  lemma TopSizeIsMaximum(params: TestParams)
    requires 0 <= params.maxSize && 0 < params.maxSuccess
    ensures forall i :: 0 <= i < params.maxSuccess ==> SizeFor(params, i) <= TopSize(params)
    ensures exists i :: 0 <= i < params.maxSuccess && SizeFor(params, i) == TopSize(params)
  {
    hide SizeFor;
    MaxSizeUsed(params);
    forall i | 0 <= i < params.maxSuccess ensures SizeFor(params, i) <= TopSize(params) {
      SizeInRange(params, i);
      if params.maxSuccess == 1 {
        FirstSize(params);
      }
    }
    if params.maxSuccess == 1 {
      FirstSize(params);
      assert SizeFor(params, 0) == TopSize(params);
    }
  }

  lemma FirstSize(params: TestParams)
    requires 0 <= params.maxSize && 0 < params.maxSuccess
    ensures SizeFor(params, 0) == 0
  {
  }

  /** No case of any search exceeds it. */
  lemma NeverLarger(prop: Property, params: TestParams, k: nat)
    requires 0 <= params.maxSize && 0 <= params.maxSuccess && k < |Cases(prop, params, Start(params))|
    ensures 0 <= Cases(prop, params, Start(params))[k].size <= LargestSize(params)
  {
    hide SizeFor, Append, Cases;
    CaseAt(prop, params, Start(params), k);
    TopSizeIsMaximum(params);
  }

  /** A property that discards the cases from some size on and is satisfied by the others. */
  function DiscardFrom(size: int): Property {
    (r, s) => Shrinkable(CaseDescription(CaseResult(if s < size then Succeeded else Discarded, []), [], []), [])
  }

  /** Some case of the search from p on has the given size. */
  ghost predicate SizeOccurs(prop: Property, params: TestParams, p: Progress, size: int)
    requires Searching(params, p)
  {
    exists k :: 0 <= k < |Cases(prop, params, p)| && Cases(prop, params, p)[k].size == size
  }

  lemma OccursNow(prop: Property, params: TestParams, p: Progress)
    requires Searching(params, p) && p.numSuccess < params.maxSuccess
    ensures SizeOccurs(prop, params, p, SizeFor(params, p.numSuccess) + p.recentDiscards / 10)
  {
    hide SizeFor;
    AppendKeepsCounter(p.r, false);
    assert Cases(prop, params, p)[0].size == SizeFor(params, p.numSuccess) + p.recentDiscards / 10;
  }

  lemma OccursLater(prop: Property, params: TestParams, p: Progress, size: int)
    requires Searching(params, p) && p.numSuccess < params.maxSuccess
    requires Continues(params, p, NextCase(prop, params, p))
    requires Searching(params, Advance(p, NextCase(prop, params, p)))
    requires SizeOccurs(prop, params, Advance(p, NextCase(prop, params, p)), size)
    ensures SizeOccurs(prop, params, p, size)
  {
    hide SizeFor, Append;
    var rest := Cases(prop, params, Advance(p, NextCase(prop, params, p)));
    SearchStep(prop, params, p);
    var k :| 0 <= k < |rest| && rest[k].size == size;
    assert Cases(prop, params, p)[k + 1] == rest[k];
  }

  /** Discards in a row drive the size up as far as the limit on their number lets them. */
  lemma {:induction false} DiscardsOn(params: TestParams, p: Progress, d: nat)
    requires Searching(params, p) && WithinLimits(params, p) && p.numSuccess < params.maxSuccess
    requires SizeFor(params, p.numSuccess) == TopSize(params)
    requires p.recentDiscards == p.numDiscarded <= d <= AtLeastZero(MaxDiscard(params))
    ensures SizeOccurs(DiscardFrom(TopSize(params)), params, p, TopSize(params) + d / 10)
    decreases d - p.numDiscarded
  {
    hide SizeFor, Append, Cases, SizeOccurs, TopSize, MaxDiscard;
    var prop := DiscardFrom(TopSize(params));
    OccursNow(prop, params, p);
    if p.numDiscarded < d {
      AdvanceStays(prop, params, p);
      DiscardsOn(params, Advance(p, NextCase(prop, params, p)), d);
      OccursLater(prop, params, p, TopSize(params) + d / 10);
    }
  }

  /** Successes before the first case of the largest scheduled size, then discards. */
  lemma {:induction false} ReachesTop(params: TestParams, p: Progress, i: nat, d: nat)
    requires Searching(params, p) && WithinLimits(params, p) && p.numDiscarded == 0
    requires p.numSuccess <= i < params.maxSuccess && SizeFor(params, i) == TopSize(params)
    requires d <= AtLeastZero(MaxDiscard(params))
    ensures SizeOccurs(DiscardFrom(TopSize(params)), params, p, TopSize(params) + d / 10)
    decreases i - p.numSuccess
  {
    hide SizeFor, Append, Cases, SizeOccurs, TopSize, MaxDiscard;
    var prop := DiscardFrom(TopSize(params));
    var size := SizeFor(params, p.numSuccess);
    TopSizeIsMaximum(params);
    if size == TopSize(params) {
      DiscardsOn(params, p, d);
    } else {
      assert size < TopSize(params);
      AdvanceStays(prop, params, p);
      ReachesTop(params, Advance(p, NextCase(prop, params, p)), i, d);
      OccursLater(prop, params, p, TopSize(params) + d / 10);
    }
  }

  /** One property brings out every size between the largest of the schedule and the largest of all. */
  lemma SizesReached(params: TestParams, size: int)
    requires 0 <= params.maxSize && 0 < params.maxSuccess && TopSize(params) <= size <= LargestSize(params)
    ensures SizeOccurs(DiscardFrom(TopSize(params)), params, Start(params), size)
  {
    hide SizeFor, SizeOccurs, TopSize;
    TopSizeIsMaximum(params);
    var i :| 0 <= i < params.maxSuccess && SizeFor(params, i) == TopSize(params);
    ReachesTop(params, Start(params), i, 10 * (size - TopSize(params)));
  }

  // ---------------------------------------------------------------- integers of these sizes

  /** No case of any search is given a size for which more bits are asked than the type has. */
  ghost predicate AlwaysFits(params: TestParams, width: nat)
    requires 0 <= params.maxSize && 0 <= params.maxSuccess
  {
    forall prop: Property, k: nat :: k < |Cases(prop, params, Start(params))| ==>
      0 <= Cases(prop, params, Start(params))[k].size
      && BitsForSize(Cases(prop, params, Start(params))[k].size, width) <= width
  }

  lemma BitsGrow(s: nat, t: nat, width: nat)
    requires s <= t
    ensures BitsForSize(s, width) <= BitsForSize(t, width)
  {
    MulMonotone(s, t, width);
  }

  /** Exactly for which parameters the nominal size is a limit that holds. */
  lemma WidestRequest(params: TestParams, width: nat)
    requires 0 <= params.maxSize && 0 <= params.maxSuccess && 1 <= width
    ensures AlwaysFits(params, width)
       <==> params.maxSuccess == 0 || (LargestSize(params) - NOMINAL_SIZE) * width < NOMINAL_SIZE / 2
  {
    hide Cases, BitsForSize, LargestSize;
    if params.maxSuccess == 0 {
      forall prop: Property ensures Cases(prop, params, Start(params)) == [] {
        SearchDone(prop, params, Start(params));
      }
    } else {
      var largest := LargestSize(params);
      LargestIsSize(params);
      SizeFits(largest, width);
      if BitsForSize(largest, width) <= width {
        forall prop: Property, k: nat | k < |Cases(prop, params, Start(params))|
          ensures 0 <= Cases(prop, params, Start(params))[k].size
          ensures BitsForSize(Cases(prop, params, Start(params))[k].size, width) <= width {
          NeverLarger(prop, params, k);
          BitsGrow(Cases(prop, params, Start(params))[k].size, largest, width);
        }
      } else {
        SizesReached(params, largest);
      }
    }
  }

  lemma LargestIsSize(params: TestParams)
    requires 0 <= params.maxSize
    ensures 0 <= TopSize(params) <= LargestSize(params)
  {
  }

  /** How many bits of a new stream an integer can be made of before a shift is undefined. */
  function BitLimit(width: Width, isSigned: bool): nat {
    if isSigned then Promoted(width) else BUFFER_BITS
  }

  lemma FreshRequest(words: Words, size: nat, width: Width, isSigned: bool)
    ensures Value(words, 64, 0, SizedRequest(size, width, isSigned)).Undefined?
       <==> BitsForSize(size, width) > BitLimit(width, isSigned)
  {
    hide Slice, Wrap, Signed, BitsForSize;
  }

  /** No integer that a property generates from a new stream at the size of its case is undefined. */
  ghost predicate AlwaysDefined(params: TestParams, width: Width, isSigned: bool)
    requires 0 <= params.maxSize && 0 <= params.maxSuccess
  {
    forall prop: Property, k: nat, words: Words :: k < |Cases(prop, params, Start(params))| ==>
      DefinedAt(words, Cases(prop, params, Start(params))[k].size, width, isSigned)
  }

  predicate DefinedAt(words: Words, size: int, width: Width, isSigned: bool) {
    0 <= size && Value(words, 64, 0, SizedRequest(size, width, isSigned)).Drawn?
  }

  /** Exactly for which parameters generating integers stays clear of undefined behaviour. */
  lemma IntegersDefined(params: TestParams, width: Width, isSigned: bool)
    requires 0 <= params.maxSize && 0 <= params.maxSuccess
    ensures AlwaysDefined(params, width, isSigned)
       <==> params.maxSuccess == 0 || BitsForSize(LargestSize(params), width) <= BitLimit(width, isSigned)
  {
    hide Cases, BitsForSize, LargestSize, Value, BitLimit;
    if params.maxSuccess == 0 {
      forall prop: Property ensures Cases(prop, params, Start(params)) == [] {
        SearchDone(prop, params, Start(params));
      }
    } else {
      var largest := LargestSize(params);
      LargestIsSize(params);
      if BitsForSize(largest, width) <= BitLimit(width, isSigned) {
        forall prop: Property, k: nat, words: Words | k < |Cases(prop, params, Start(params))|
          ensures DefinedAt(words, Cases(prop, params, Start(params))[k].size, width, isSigned) {
          NeverLarger(prop, params, k);
          BitsGrow(Cases(prop, params, Start(params))[k].size, largest, width);
          FreshRequest(words, Cases(prop, params, Start(params))[k].size, width, isSigned);
        }
      } else {
        var words: Words := k => 0;
        SizesReached(params, largest);
        var cases := Cases(DiscardFrom(TopSize(params)), params, Start(params));
        var k: nat :| k < |cases| && cases[k].size == largest;
        FreshRequest(words, largest, width, isSigned);
        assert !DefinedAt(words, cases[k].size, width, isSigned);
      }
    }
  }

  /** With the standard parameters a search asks for size 101, at which an unsigned integer of 64 bits
      is undefined, and for 102, at which a signed one of 32 bits is and an unsigned one loses a bit. */
  lemma DefaultsExceed(words: Words)
    ensures var params := DEFAULTS.testParams;
            && SizeOccurs(DiscardFrom(100), params, Start(params), 101)
            && SizeOccurs(DiscardFrom(100), params, Start(params), 102)
            && LargestSize(params) == 200 && (forall width: nat :: 1 <= width ==> !AlwaysFits(params, width))
    ensures BitsForSize(101, 64) == 65 && BitsForSize(102, 32) == 33
    ensures Value(words, 64, 0, SizedRequest(101, 64, false)).Undefined?
    ensures Value(words, 64, 0, SizedRequest(102, 32, true)).Undefined?
    ensures Value(words, 64, 0, SizedRequest(102, 32, false)) == Drawn(Wrap(Slice(words, 64, 0, 33), 32))
  {
    hide AlwaysFits, SizeOccurs, Slice, Wrap;
    var params := DEFAULTS.testParams;
    SizesReached(params, 101);
    SizesReached(params, 102);
    forall width: nat | 1 <= width ensures !AlwaysFits(params, width) {
      WidestRequest(params, width);
    }
  }

  // ------------------------------------------------------------------- 32-bit arithmetic

  predicate FitsInt32(x: int) { -0x8000_0000 <= x < 0x8000_0000 }

  /** Every value `sizeFor` computes for case i. */
  ghost predicate SizeForFits(params: TestParams, i: nat)
    requires 0 <= params.maxSize
  {
    var numSizes := params.maxSize + 1;
    var numRegular := (params.maxSuccess / numSizes) * numSizes;
    var numRest := params.maxSuccess - numRegular;
    && FitsInt32(numSizes) && FitsInt32(params.maxSuccess / numSizes) && FitsInt32(numRegular)
    && FitsInt32(i % numSizes)
    && (i >= numRegular ==>
          && FitsInt32(numRest) && FitsInt32(numRest - 1)
          && (numRest != 1 ==> FitsInt32((i % numSizes) * params.maxSize)))
  }

  lemma NoOverflowInSizes(params: TestParams, i: nat)
    requires NoOverflow(params) && i < params.maxSuccess
    ensures SizeForFits(params, i)
  {
    hide Rest;
    var numSizes := params.maxSize + 1;
    var q := params.maxSuccess / numSizes;
    DivMod(params.maxSuccess, numSizes);
    DivBound(params.maxSuccess, numSizes);
    DivMod(i, numSizes);
    RestIs(params);
    MulMonotone(0, q, numSizes);
    if i >= q * numSizes {
      Position(params, i);
      Rounded(params, i);
      ProductsWithin(params, 0x7FFF_FFFF);
      MulMonotone(0, i % numSizes, params.maxSize);
    }
  }

  lemma RestIs(params: TestParams)
    requires 0 <= params.maxSize && 0 <= params.maxSuccess
    ensures Rest(params) == params.maxSuccess % (params.maxSize + 1)
    ensures Rounds(params) == params.maxSuccess / (params.maxSize + 1)
  {
  }

  lemma Rounded(params: TestParams, i: nat)
    requires 0 <= params.maxSize && 0 <= params.maxSuccess && i >= Rounds(params) * (params.maxSize + 1)
    ensures i / (params.maxSize + 1) >= Rounds(params)
  {
    DivAtLeast(i, params.maxSize + 1, Rounds(params));
  }

  /** Every value the search computes for a case, given what it has counted before it. */
  ghost predicate CaseFits(params: TestParams, numSuccess: nat, numDiscarded: nat, recent: nat, size: int)
    requires 0 <= params.maxSize
  {
    && FitsInt32(MaxDiscard(params)) && SizeForFits(params, numSuccess)
    && FitsInt32(recent / 10) && FitsInt32(size)
    && FitsInt32(numSuccess + 1) && FitsInt32(numDiscarded + 1) && FitsInt32(recent + 1)
  }

  /** Under NoOverflow no search of any property leaves the range of 32 bits at any case. */
  lemma SearchFits(prop: Property, params: TestParams, k: nat)
    requires NoOverflow(params) && k < |Cases(prop, params, Start(params))|
    ensures var cases := Cases(prop, params, Start(params));
            var before := cases[..k];
            CaseFits(params, Count(before, Succeeded), Count(before, Discarded), RecentDiscards(0, before), cases[k].size)
  {
    hide SizeFor, Append, Cases, SizeForFits, Rest;
    CaseAt(prop, params, Start(params), k);
    NoOverflowInSizes(params, Count(Cases(prop, params, Start(params))[..k], Succeeded));
  }
}
