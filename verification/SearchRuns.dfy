/** The search seen from outside: the list of cases it runs, and how its result follows from it. */
module SearchRuns {
  import opened Options
  import opened Bits
  import opened Threefish
  import opened SplittableRandom
  import opened Configuration
  import opened SizeSchedule
  import opened Testing

  /** The cases run from p on, in order. */
  function Cases(prop: Property, params: TestParams, p: Progress): seq<TestCase>
    requires Searching(params, p)
    decreases Remaining(params, p)
  {
    if p.numSuccess >= params.maxSuccess then []
    else
      var c := NextCase(prop, params, p);
      if Kind(c) == Failed || (Kind(c) == Discarded && p.numDiscarded + 1 > MaxDiscard(params)) then [c]
      else [c] + Cases(prop, params, Advance(p, c))
  }

  function Kind(c: TestCase): CaseType {
    c.shrinkable.value.result.kind
  }

  function Count(cases: seq<TestCase>, kind: CaseType): nat {
    if cases == [] then 0 else (if Kind(cases[0]) == kind then 1 else 0) + Count(cases[1..], kind)
  }

  /** The tags of the successful cases that have any. */
  function TagsOf(cases: seq<TestCase>): seq<Tags> {
    if cases == [] then [] else OwnTags(cases[0]) + TagsOf(cases[1..])
  }

  function OwnTags(c: TestCase): seq<Tags> {
    if Kind(c) == Succeeded && c.shrinkable.value.tags != [] then [c.shrinkable.value.tags] else []
  }

  /** The discards since the last success, `recent` of them from before. */
  function RecentDiscards(recent: nat, cases: seq<TestCase>): nat
    decreases |cases|
  {
    if cases == [] then recent
    else RecentDiscards(if Kind(cases[0]) == Succeeded then 0 else recent + 1, cases[1..])
  }

  /** The generator after k splits. */
  function GoneLeft(r: RandomState, k: nat): RandomState
    requires r.bitsi <= BITS
    decreases k
  {
    if k == 0 then r
    else
      AppendKeepsCounter(r, false);
      GoneLeft(Append(r, false), k - 1)
  }

  ghost predicate WithinLimits(params: TestParams, p: Progress) {
    && p.numSuccess <= params.maxSuccess
    && p.recentDiscards <= p.numDiscarded <= AtLeastZero(MaxDiscard(params))
  }

  /** The case does not end the search. */
  predicate Continues(params: TestParams, p: Progress, c: TestCase) {
    Kind(c) == Succeeded || (Kind(c) == Discarded && p.numDiscarded + 1 <= MaxDiscard(params))
  }

  lemma AdvanceStays(prop: Property, params: TestParams, p: Progress)
    requires Searching(params, p) && WithinLimits(params, p) && p.numSuccess < params.maxSuccess
    requires Continues(params, p, NextCase(prop, params, p))
    ensures Searching(params, Advance(p, NextCase(prop, params, p)))
    ensures WithinLimits(params, Advance(p, NextCase(prop, params, p)))
  {
    AppendKeepsCounter(p.r, false);
  }

  lemma CasesTail(prop: Property, params: TestParams, p: Progress)
    requires Searching(params, p) && 0 < |Cases(prop, params, p)|
    ensures var cases := Cases(prop, params, p);
            && p.numSuccess < params.maxSuccess
            && cases[0] == NextCase(prop, params, p)
            && (1 < |cases| ==>
                  var c := cases[0];
                  && Continues(params, p, c)
                  && Searching(params, Advance(p, c)) && cases[1..] == Cases(prop, params, Advance(p, c)))
  {
    hide SizeFor;
    var c := NextCase(prop, params, p);
    if Kind(c) != Failed && !(Kind(c) == Discarded && p.numDiscarded + 1 > MaxDiscard(params)) {
      AppendKeepsCounter(p.r, false);
    }
  }

  /** Case k of a run: split off the generator that has gone left k times, at the size that the
      successes and the recent discards so far call for, and what the property makes of these. */
  lemma {:induction false} CaseAt(prop: Property, params: TestParams, p: Progress, k: nat)
    requires Searching(params, p) && WithinLimits(params, p) && k < |Cases(prop, params, p)|
    ensures var cases := Cases(prop, params, p);
            var c, before := cases[k], cases[..k];
            var numSuccess := p.numSuccess + Count(before, Succeeded);
            && GoneLeft(p.r, k).bitsi <= BITS
            && c.random == Append(GoneLeft(p.r, k), true)
            && numSuccess < params.maxSuccess
            && c.size == SizeFor(params, numSuccess) + RecentDiscards(p.recentDiscards, before) / 10
            && RecentDiscards(p.recentDiscards, before) <= p.numDiscarded + Count(before, Discarded)
            && p.numDiscarded + Count(before, Discarded) <= AtLeastZero(MaxDiscard(params))
            && 0 <= c.size <= params.maxSize + AtLeastZero(MaxDiscard(params)) / 10
            && c.shrinkable == prop(c.random, c.size)
            && (k < |cases| - 1 ==> Kind(c) != Failed)
    decreases k
  {
    hide SizeFor, Append, Cases;
    var cases := Cases(prop, params, p);
    CasesTail(prop, params, p);
    if k == 0 {
      SizeInRange(params, p.numSuccess);
      assert cases[..0] == [];
    } else {
      var p' := Advance(p, cases[0]);
      AdvanceStays(prop, params, p);
      CaseAt(prop, params, p', k - 1);
      assert cases[1..][k - 1] == cases[k];
      assert cases[..k][0] == cases[0] && cases[..k][1..] == cases[1..][..k - 1];
    }
  }

  /** The result is determined by the cases run: it counts them, and its type says why the last
      one was the last. */
  lemma {:induction false} SearchClassifies(prop: Property, params: TestParams, p: Progress)
    requires Searching(params, p) && WithinLimits(params, p)
    ensures var cases := Cases(prop, params, p);
            var result := Search(prop, params, p);
            && result.numSuccess == p.numSuccess + Count(cases, Succeeded)
            && result.numDiscarded == p.numDiscarded + Count(cases, Discarded)
            && (result.kind == AllSucceeded <==> result.numSuccess == params.maxSuccess)
            && (result.kind == GaveUp <==> result.numDiscarded == AtLeastZero(MaxDiscard(params)) + 1)
            && (result.kind == FoundFailure <==> cases != [] && Kind(cases[|cases| - 1]) == Failed)
            && result.failure == (if result.kind == AllSucceeded then None else Some(cases[|cases| - 1]))
            && result.numSuccess <= params.maxSuccess
            && |cases| <= params.maxSuccess - p.numSuccess + AtLeastZero(MaxDiscard(params)) - p.numDiscarded
    decreases Remaining(params, p)
  {
    hide SizeFor, Append;
    if p.numSuccess < params.maxSuccess {
      var c := NextCase(prop, params, p);
      var cases := Cases(prop, params, p);
      if Continues(params, p, c) {
        var p' := Advance(p, c);
        AdvanceStays(prop, params, p);
        SearchClassifies(prop, params, p');
        assert cases[1..] == Cases(prop, params, p');
      } else {
        assert cases[1..] == [];
      }
    }
  }

  lemma SearchStep(prop: Property, params: TestParams, p: Progress)
    requires Searching(params, p) && p.numSuccess < params.maxSuccess
    ensures var c := NextCase(prop, params, p);
            var p' := Advance(p, c);
            if Continues(params, p, c) then
              && Searching(params, p') && p'.tags == p.tags + OwnTags(c)
              && Remaining(params, p') < Remaining(params, p)
              && Search(prop, params, p) == Search(prop, params, p')
              && Cases(prop, params, p) == [c] + Cases(prop, params, p')
            else
              Search(prop, params, p).tags == p.tags && Cases(prop, params, p) == [c] && OwnTags(c) == []
  {
    hide SizeFor;
    AppendKeepsCounter(p.r, false);
  }

  lemma SearchDone(prop: Property, params: TestParams, p: Progress)
    requires Searching(params, p) && p.numSuccess >= params.maxSuccess
    ensures Search(prop, params, p).tags == p.tags && Cases(prop, params, p) == []
  {
  }

  lemma {:induction false} SearchTags(prop: Property, params: TestParams, p: Progress)
    requires Searching(params, p)
    ensures Search(prop, params, p).tags == p.tags + TagsOf(Cases(prop, params, p))
    decreases Remaining(params, p)
  {
    hide SizeFor, Append, Search, Cases, NextCase, OwnTags, Advance, MaxDiscard, Remaining, Kind;
    if p.numSuccess >= params.maxSuccess {
      SearchDone(prop, params, p);
    } else {
      var c := NextCase(prop, params, p);
      SearchStep(prop, params, p);
      if Continues(params, p, c) {
        var p' := Advance(p, c);
        var rest := Cases(prop, params, p');
        SearchTags(prop, params, p');
        assert ([c] + rest)[1..] == rest;
        assert p.tags + OwnTags(c) + TagsOf(rest) == p.tags + (OwnTags(c) + TagsOf(rest));
      }
    }
  }

  /** A whole search ends after at most maxSuccess + maxDiscardRatio * maxSuccess cases and gives
      the reason; what it records regenerates the case it records. */
  lemma SearchTheorem(prop: Property, params: TestParams)
    requires 0 <= params.maxSize && 0 <= params.maxSuccess
    ensures var cases := Cases(prop, params, Start(params));
            var result := Search(prop, params, Start(params));
            var limit := AtLeastZero(params.maxDiscardRatio * params.maxSuccess);
            && |cases| <= params.maxSuccess + limit
            && (result.kind == AllSucceeded <==> Count(cases, Succeeded) == params.maxSuccess)
            && (result.kind == GaveUp <==> Count(cases, Discarded) == limit + 1)
            && (result.kind == FoundFailure <==> cases != [] && Kind(cases[|cases| - 1]) == Failed)
            && (forall k :: 0 <= k < |cases| - 1 ==> Kind(cases[k]) != Failed)
            && result.numSuccess == Count(cases, Succeeded) && result.tags == TagsOf(cases)
            && (result.kind != AllSucceeded ==>
                  result.failure.Some? && var c := result.failure.value;
                  && c == cases[|cases| - 1] && c.shrinkable == prop(c.random, c.size)
                  && c.random.counter == 0 && c.random.block == ZERO_BLOCK
                  && 0 <= c.size <= params.maxSize + limit / 10)
  {
    hide Cases, Search, SizeFor, Append;
    var p := Start(params);
    var cases := Cases(prop, params, p);
    SearchClassifies(prop, params, p);
    SearchTags(prop, params, p);
    assert [] + TagsOf(cases) == TagsOf(cases);
    forall k | 0 <= k < |cases| - 1 ensures Kind(cases[k]) != Failed {
      CaseAt(prop, params, p, k);
    }
    if Search(prop, params, p).kind != AllSucceeded {
      CasesIfStopped(prop, params, p);
      CaseAt(prop, params, p, |cases| - 1);
      GoneLeftFresh(p.r, |cases| - 1);
      AppendKeepsCounter(GoneLeft(p.r, |cases| - 1), true);
    }
  }

  lemma CasesIfStopped(prop: Property, params: TestParams, p: Progress)
    requires Searching(params, p) && Search(prop, params, p).kind != AllSucceeded
    ensures Cases(prop, params, p) != []
  {
  }

  lemma {:induction false} GoneLeftFresh(r: RandomState, k: nat)
    requires r.bitsi <= BITS
    ensures GoneLeft(r, k).bitsi <= BITS && GoneLeft(r, k).counter == r.counter && GoneLeft(r, k).block == r.block
    decreases k
  {
    if k > 0 {
      AppendKeepsCounter(r, false);
      GoneLeftFresh(Append(r, false), k - 1);
    }
  }

  // ---------------------------------------------------------------------- generators of cases

  /** The key after the n-th full path to the left. */
  function KeyAfter(seed: UInt64, n: nat): Block {
    if n == 0 then Block(seed, seed, seed, seed)
    else Encrypt(KeyAfter(seed, n - 1), Tweak(13, 37), Block(0, 0, 0, 0))
  }

  /** Bit k alone, k + 1 bits deep, under the seed's own key for k < 64 and then under the key that
      each full path leads to. */
  function CaseGenerator(seed: UInt64, k: nat): RandomState {
    SmallPower(k % 64);
    RandomState(KeyAfter(seed, k / 64), Block(0, 0, 0, 0), Pow2(k % 64), 0, k % 64 + 1)
  }

  /** Going left n times leaves a path of zeros, starting anew after every 64. */
  lemma {:induction false} GoneLeftFrom(seed: UInt64, k: nat)
    requires 0 < k
    ensures GoneLeft(Seeded(seed), k)
         == RandomState(KeyAfter(seed, (k - 1) / 64), Block(0, 0, 0, 0), 0, 0, (k - 1) % 64 + 1)
  {
    hide Encrypt, Pow2;
    Pow2Positive();
    GoneLeftLast(Seeded(seed), k - 1);
    if k == 1 {
      AppendBits(Seeded(seed), false);
    } else {
      GoneLeftFrom(seed, k - 1);
      AppendBits(GoneLeft(Seeded(seed), k - 1), false);
    }
  }

  lemma Pow2Positive()
    ensures Pow2(0) == 1 && forall n: nat :: 0 < Pow2(n)
  {
    Pow2Values();
  }

  lemma {:induction false} GoneLeftLast(r: RandomState, k: nat)
    requires r.bitsi <= BITS
    ensures GoneLeft(r, k).bitsi <= BITS && GoneLeft(r, k + 1) == Append(GoneLeft(r, k), false)
    decreases k
  {
    hide Append;
    AppendKeepsCounter(r, false);
    if k > 0 {
      GoneLeftLast(Append(r, false), k - 1);
    } else {
      AppendKeepsCounter(Append(r, false), false);
    }
  }

  /** The generator of case k, from the seed alone: left k times and then to the right. */
  lemma CaseRandom(prop: Property, params: TestParams, k: nat)
    requires 0 <= params.maxSize && 0 <= params.maxSuccess && k < |Cases(prop, params, Start(params))|
    ensures var seed, random := params.seed, Cases(prop, params, Start(params))[k].random;
            && random == CaseGenerator(seed, k)
            && (k < 64 ==> random == RandomState(Block(seed, seed, seed, seed), Block(0, 0, 0, 0), Pow2(k), 0, k + 1))
  {
    hide Pow2, Cases, SizeFor, Append, CaseGenerator, GoneLeft;
    CaseAt(prop, params, Start(params), k);
    SplitOff(params.seed, k);
    FirstGenerators(params.seed, k);
  }

  lemma FirstGenerators(seed: UInt64, k: nat)
    ensures k < 64 ==> CaseGenerator(seed, k) == RandomState(Block(seed, seed, seed, seed), Block(0, 0, 0, 0), Pow2(k), 0, k + 1)
  {
    hide Pow2;
  }

  lemma SplitOff(seed: UInt64, k: nat)
    ensures GoneLeft(Seeded(seed), k).bitsi <= BITS && Append(GoneLeft(Seeded(seed), k), true) == CaseGenerator(seed, k)
  {
    hide Encrypt, Pow2, Append;
    Pow2Positive();
    SmallPower(k % 64);
    if k > 0 {
      GoneLeftFrom(seed, k);
      hide GoneLeft;
    }
    AppendBits(GoneLeft(Seeded(seed), k), true);
  }

  lemma SmallPower(n: nat)
    requires n < 64
    ensures Pow2(n) < TWO_TO_THE_64
  {
    Pow2Is64();
    Pow2Sum(1, n);
    Pow2Grows(n + 1, 64);
    assert Pow2(1) == 2;
  }
}
