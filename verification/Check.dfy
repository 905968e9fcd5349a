/** Testing a property or replaying a recorded failure of it. */
module Check {
  import opened Bits
  import opened SplittableRandom
  import opened Serialization
  import opened ReproduceCodec
  import opened Configuration
  import opened Testing
  import opened SearchRuns

  datatype TestResult =
    | SuccessResult(numSuccess: int, distribution: map<Tags, nat>)
    | FailureResult(numSuccess: int, description: Text, reproduce: Reproduce, counterExample: Example)
    | GaveUpResult(numSuccess: int, description: Text)
    | Error(message: string)

  const NO_MINIMUM := "Unable to reproduce minimum value"
  const NOT_A_FAILURE := "Reproduced result is not a failure"

  /** How often each list of tags was seen. */
  function Distribution(tags: seq<Tags>): map<Tags, nat> {
    map t | t in tags :: multiset(tags)[t]
  }

  lemma SizeFits(prop: Property, params: TestParams)
    requires NoOverflow(params) && Search(prop, params, Start(params)).kind == FoundFailure
    ensures Search(prop, params, Start(params)).failure.Some?
    ensures var size := Search(prop, params, Start(params)).failure.value.size; 0 <= size < 0x8000_0000
  {
    SearchTheorem(prop, params);
  }

  function TestProperty(prop: Property, params: TestParams): TestResult
    requires NoOverflow(params)
  {
    var found := Search(prop, params, Start(params));
    match found.kind
    case AllSucceeded => SuccessResult(found.numSuccess, Distribution(found.tags))
    case GaveUp =>
      SearchTheorem(prop, params);
      GaveUpResult(found.numSuccess, found.failure.value.shrinkable.value.result.description)
    case FoundFailure =>
      SizeFits(prop, params);
      var c := found.failure.value;
      var path := if params.disableShrinking then [] else ShrinkPath(c.shrinkable);
      GreedyPathLeads(c.shrinkable, ShrinkPath(c.shrinkable));
      var minimum := WalkPath(c.shrinkable, path).value.value;
      FailureResult(found.numSuccess, minimum.result.description, Reproduce(c.random, c.size, path), minimum.example)
  }

  function ReproduceProperty(prop: Property, reproduce: Reproduce): TestResult {
    match WalkPath(prop(reproduce.random, reproduce.size), reproduce.shrinkPath)
    case None => Error(NO_MINIMUM)
    case Some(minimum) =>
      if minimum.value.result.kind != Failed then Error(NOT_A_FAILURE)
      else FailureResult(0, minimum.value.result.description, reproduce, minimum.value.example)
  }

  /** With an empty map the property is tested; otherwise only what the map names is replayed. */
  function CheckProperty(prop: Property, id: Text, params: TestParams, reproduceMap: ReproduceMap): TestResult
    requires reproduceMap == map[] ==> NoOverflow(params)
  {
    if reproduceMap == map[] then TestProperty(prop, params)
    else if id == [] || id !in reproduceMap then SuccessResult(0, map[])
    else
      var reproduce := reproduceMap[id];
      ReproduceProperty(prop, if params.disableShrinking then reproduce.(shrinkPath := []) else reproduce)
  }

  /** What testing returns, in terms of the cases it ran. */
  lemma TestOutcome(prop: Property, params: TestParams)
    requires NoOverflow(params)
    ensures var cases := Cases(prop, params, Start(params));
            match TestProperty(prop, params)
            case SuccessResult(n, distribution) =>
              && n == Count(cases, Succeeded) == params.maxSuccess
              && (forall t :: t in distribution <==> t in TagsOf(cases))
              && (forall t :: t in distribution ==> distribution[t] == multiset(TagsOf(cases))[t])
            case GaveUpResult(n, description) =>
              && n == Count(cases, Succeeded) && Count(cases, Discarded) == AtLeastZero(MaxDiscard(params)) + 1
              && description == cases[|cases| - 1].shrinkable.value.result.description
            case FailureResult(n, _, reproduce, _) =>
              && n == Count(cases, Succeeded) < params.maxSuccess && Kind(cases[|cases| - 1]) == Failed
              && reproduce.random == cases[|cases| - 1].random && reproduce.size == cases[|cases| - 1].size
            case Error(_) => false
  {
    hide Search, ShrinkPath, Cases, WalkPath;
    SearchTheorem(prop, params);
    SearchClassifies(prop, params, Start(params));
  }

  // ------------------------------------------------------------------------------- replaying

  /** A replay run as a whole: properties that the map does not name are skipped, so that only a
      named one can fail, be given up or be in error. Without a map everything is tested. */
  lemma OnlyNamedAreReplayed(prop: Property, id: Text, params: TestParams, reproduceMap: ReproduceMap)
    requires reproduceMap == map[] ==> NoOverflow(params)
    ensures var result := CheckProperty(prop, id, params, reproduceMap);
            if reproduceMap == map[] then
              var cases := Cases(prop, params, Start(params));
              && !result.Error?
              && (result.SuccessResult? <==> Count(cases, Succeeded) == params.maxSuccess)
              && (result.FailureResult? <==> cases != [] && Kind(cases[|cases| - 1]) == Failed)
              && result.numSuccess == Count(cases, Succeeded)
            else if id == [] || id !in reproduceMap then
              result == SuccessResult(0, map[])
            else
              result.FailureResult? || result.Error?
  {
    hide Search, ShrinkPath, Cases, WalkPath;
    if reproduceMap == map[] {
      SearchTheorem(prop, params);
      SearchClassifies(prop, params, Start(params));
    }
  }

  /** Where the walk along a path leaves the tree. */
  ghost predicate LeavesAt(s: Shrinkable, path: seq<nat>, k: nat) {
    k < |path| && WalkPath(s, path[..k]).Some? && path[k] >= |WalkPath(s, path[..k]).value.shrinks|
  }

  lemma {:induction false} WalkFails(s: Shrinkable, path: seq<nat>)
    ensures WalkPath(s, path).None? <==> exists k: nat :: LeavesAt(s, path, k)
    decreases |path|
  {
    if path != [] {
      WalkNowhere(s);
      assert path[..0] == [];
      if path[0] >= |s.shrinks| {
        assert LeavesAt(s, path, 0);
      } else {
        var child, rest := s.shrinks[path[0]], path[1..];
        WalkFails(child, rest);
        forall k: nat | k < |rest| ensures LeavesAt(child, rest, k) <==> LeavesAt(s, path, k + 1) {
          assert path[..k + 1][0] == path[0] && path[..k + 1][1..] == rest[..k];
        }
        assert forall k: nat :: LeavesAt(s, path, k) ==> 0 < k && LeavesAt(child, rest, k - 1);
        if k: nat :| LeavesAt(child, rest, k) {
          assert LeavesAt(s, path, k + 1);
        }
      }
    }
  }

  /** A replay has three ends: the path leaves the tree, it leads to a case that does not fail,
      a discarded one included, or it leads to a failure. */
  lemma ReplayOutcome(prop: Property, reproduce: Reproduce)
    ensures var start := prop(reproduce.random, reproduce.size);
            var end := WalkPath(start, reproduce.shrinkPath);
            var result := ReproduceProperty(prop, reproduce);
            && (result == Error("Unable to reproduce minimum value") <==>
                  exists k: nat :: LeavesAt(start, reproduce.shrinkPath, k))
            && (result == Error("Reproduced result is not a failure") <==> end.Some? && !Fails(end.value))
            && (result.FailureResult? <==> end.Some? && Fails(end.value))
            && (result.FailureResult? ==>
                  && result.numSuccess == 0 && result.reproduce == reproduce
                  && result.description == end.value.value.result.description
                  && result.counterExample == end.value.value.example)
  {
    hide WalkPath;
    WalkFails(prop(reproduce.random, reproduce.size), reproduce.shrinkPath);
    assert NO_MINIMUM[0] != NOT_A_FAILURE[0];
  }

  /** What a failure of testing records: a failing case of the property at the end of the path, a
      generator the codec preserves, and the empty path if shrinking is off. */
  lemma RecordedFailure(prop: Property, params: TestParams)
    requires NoOverflow(params) && TestProperty(prop, params).FailureResult?
    ensures var f := TestProperty(prop, params);
            var end := WalkPath(prop(f.reproduce.random, f.reproduce.size), f.reproduce.shrinkPath);
            && end.Some? && Fails(end.value)
            && f.description == end.value.value.result.description && f.counterExample == end.value.value.example
            && Canonical(f.reproduce.random)
            && (if params.disableShrinking then
                  f.reproduce.shrinkPath == []
                else
                  && f.reproduce.shrinkPath == ShrinkPath(prop(f.reproduce.random, f.reproduce.size))
                  && LocalMinimum(end.value))
  {
    hide Search, ShrinkPath, Cases, Append;
    SearchTheorem(prop, params);
    var c := Search(prop, params, Start(params)).failure.value;
    GreedyPathLeads(c.shrinkable, ShrinkPath(c.shrinkable));
  }

  /** The generator of a recorded failure, from the seed and the number of cases run before it. */
  lemma RecordedRandom(prop: Property, params: TestParams)
    requires NoOverflow(params) && TestProperty(prop, params).FailureResult?
    ensures var k := |Cases(prop, params, Start(params))| - 1;
            0 <= k && TestProperty(prop, params).reproduce.random == CaseGenerator(params.seed, k)
  {
    hide TestProperty, Search, Cases, CaseGenerator, Pow2;
    TestOutcome(prop, params);
    SearchFailed(prop, params);
    CaseRandom(prop, params, |Cases(prop, params, Start(params))| - 1);
  }

  lemma SearchFailed(prop: Property, params: TestParams)
    requires NoOverflow(params) && TestProperty(prop, params).FailureResult?
    ensures Cases(prop, params, Start(params)) != []
  {
    hide Search, ShrinkPath, Cases, WalkPath;
    SearchTheorem(prop, params);
  }

  /** The failure a replay should find: the one recorded, no case having succeeded before it. */
  function Replayed(f: TestResult): TestResult
    requires f.FailureResult?
  {
    FailureResult(0, f.description, f.reproduce, f.counterExample)
  }

  /** What a replay finds when shrinking has been switched off: the case that was recorded, before
      it was shrunk. */
  function Unshrunk(prop: Property, f: TestResult): TestResult
    requires f.FailureResult?
  {
    var c := prop(f.reproduce.random, f.reproduce.size).value;
    FailureResult(0, c.result.description, f.reproduce.(shrinkPath := []), c.example)
  }

  /** What a replay finds under parameters that need not be those of the recording. */
  function ReplayedUnder(prop: Property, f: TestResult, params: TestParams): TestResult
    requires f.FailureResult?
  {
    if params.disableShrinking then Unshrunk(prop, f) else Replayed(f)
  }

  /** Replaying the record of a failure out of a map, whatever the parameters are by then, finds a
      failure and never an error. It is the same failure exactly when shrinking is still on or there
      was nothing to shrink. */
  lemma ReplayFindsFailure(prop: Property, id: Text, params: TestParams, other: TestParams, reproduceMap: ReproduceMap)
    requires NoOverflow(params) && TestProperty(prop, params).FailureResult?
    requires id != [] && id in reproduceMap && reproduceMap[id] == TestProperty(prop, params).reproduce
    ensures var f := TestProperty(prop, params);
            var replay := CheckProperty(prop, id, other, reproduceMap);
            && replay == ReplayedUnder(prop, f, other)
            && (replay == Replayed(f) <==> !other.disableShrinking || f.reproduce.shrinkPath == [])
  {
    hide TestProperty, Canonical, ShrinkPath;
    RecordedFailure(prop, params);
    RecordedCaseFails(prop, params);
    assert reproduceMap != map[];
  }

  /** The case that is recorded fails before it is shrunk as well. */
  lemma RecordedCaseFails(prop: Property, params: TestParams)
    requires NoOverflow(params) && TestProperty(prop, params).FailureResult?
    ensures var r := TestProperty(prop, params).reproduce; Fails(prop(r.random, r.size))
  {
    hide Search, ShrinkPath, Cases, WalkPath;
    SearchTheorem(prop, params);
  }

  /** End to end: a failure that testing returns, printed as a string and read back, is found again
      under any parameters, with the same description, counterexample and record exactly when
      shrinking is still on or there was nothing to shrink. */
  lemma EndToEnd(prop: Property, id: Text, params: TestParams, other: TestParams, others: ReproduceMap, items: seq<Entry>)
    requires NoOverflow(params) && TestProperty(prop, params).FailureResult? && id != []
    requires var m := others[id := TestProperty(prop, params).reproduce]; MapFits(m) && Enumerates(items, m)
    ensures StringToMap(EntriesToString(items)).Entries? && StringToMap(EntriesToString(items)).entries != map[]
    ensures var f := TestProperty(prop, params);
            var replay := CheckProperty(prop, id, other, StringToMap(EntriesToString(items)).entries);
            && replay == ReplayedUnder(prop, f, other)
            && (replay == Replayed(f) <==> !other.disableShrinking || f.reproduce.shrinkPath == [])
    ensures forall prop', id', params' :: id' != id && id' !in others ==>
      CheckProperty(prop', id', params', StringToMap(EntriesToString(items)).entries) == SuccessResult(0, map[])
  {
    hide TestProperty, CheckProperty, Canonical, StringToMap, EntriesToString, MapFits, Restored, ReplayedUnder, Replayed;
    var m := others[id := TestProperty(prop, params).reproduce];
    MapStringRoundTrip(items, m);
    RecordedFailure(prop, params);
    RestoredRecord(m, id);
    ReplayFindsFailure(prop, id, params, other, RestoredMap(m));
    OthersAreSkipped(m, RestoredMap(m));
  }

  lemma OthersAreSkipped(m: ReproduceMap, read: ReproduceMap)
    requires read.Keys == m.Keys && m != map[]
    ensures read != map[]
    ensures forall prop, id, params :: id !in m ==> CheckProperty(prop, id, params, read) == SuccessResult(0, map[])
  {
    hide TestProperty, ReproduceProperty, NoOverflow;
    var key :| key in m;
    assert key in read;
  }

  /** The same through the line that is printed after a run, loaded over other defaults, whose seed
      for one is new in every run: all other parameters stay as they are. */
  lemma EndToEndThroughPrintedLine(prop: Property, id: Text, params: TestParams, others: ReproduceMap,
                                   items: seq<Entry>, defaults: Config)
    requires NoOverflow(params) && TestProperty(prop, params).FailureResult? && id != []
    requires var m := others[id := TestProperty(prop, params).reproduce]; MapFits(m) && Enumerates(items, m)
    ensures var loaded := ConfigFromString(ReproduceParams(items), defaults);
            && loaded.Loaded? && loaded.value == defaults.(reproduce := loaded.value.reproduce)
            && loaded.value.reproduce != map[]
            && var f := TestProperty(prop, params);
            var replay := CheckProperty(prop, id, defaults.testParams, loaded.value.reproduce);
            && replay == ReplayedUnder(prop, f, defaults.testParams)
            && (replay == Replayed(f) <==> !defaults.testParams.disableShrinking || f.reproduce.shrinkPath == [])
    ensures forall prop', id', params' :: id' != id && id' !in others ==>
      CheckProperty(prop', id', params', ConfigFromString(ReproduceParams(items), defaults).value.reproduce)
        == SuccessResult(0, map[])
  {
    hide TestProperty, CheckProperty, Canonical, ConfigFromString, ReproduceParams, MapFits, Restored;
    hide ReplayedUnder, Replayed;
    var m := others[id := TestProperty(prop, params).reproduce];
    ReproduceParamsLoad(items, m, defaults);
    RecordedFailure(prop, params);
    RestoredRecord(m, id);
    ReplayFindsFailure(prop, id, params, defaults.testParams, RestoredMap(m));
    OthersAreSkipped(m, RestoredMap(m));
  }

  lemma RestoredRecord(m: ReproduceMap, id: Text)
    requires id in m && Canonical(m[id].random)
    ensures id in RestoredMap(m) && RestoredMap(m)[id] == m[id]
  {
    hide Restored;
  }

  /** The same through a configuration string, in its full and in its minimal form: a suite that is
      configured with what it printed tests with the same parameters and replays the failure. */
  lemma EndToEndThroughConfiguration(prop: Property, id: Text, c: Config, items: seq<Entry>, defaults: Config)
    requires NoOverflow(c.testParams) && NonNegative(c.testParams)
    requires TestProperty(prop, c.testParams).FailureResult? && id != []
    requires id in c.reproduce && c.reproduce[id] == TestProperty(prop, c.testParams).reproduce
    requires MapFits(c.reproduce) && Enumerates(items, c.reproduce)
    ensures var full := ConfigFromString(ConfigText(c, items), defaults);
            var minimal := ConfigFromString(MinimalText(c, items), DEFAULTS);
            && full.Loaded? && minimal == full && full.value.testParams == c.testParams
            && CheckProperty(prop, id, c.testParams, full.value.reproduce)
            == Replayed(TestProperty(prop, c.testParams))
  {
    hide TestProperty, CheckProperty, Canonical, ConfigFromString, ConfigText, MinimalText;
    hide MapFits, Restored, MapCanonical, NoOverflow;
    FullRoundTrip(c, items, defaults);
    FullRoundTrip(c, items, DEFAULTS);
    MinimalRoundTrip(c, items);
    RecordedFailure(prop, c.testParams);
    RestoredRecord(c.reproduce, id);
    SameParameters(prop, c.testParams);
    ReplayFindsFailure(prop, id, c.testParams, c.testParams, RestoredMap(c.reproduce));
  }

  lemma SameParameters(prop: Property, params: TestParams)
    requires NoOverflow(params) && TestProperty(prop, params).FailureResult?
    ensures params.disableShrinking ==> TestProperty(prop, params).reproduce.shrinkPath == []
  {
    RecordedFailure(prop, params);
  }

  // --------------------------------------------------------------------------------- the code

  method CountTags(tags: seq<Tags>) returns (distribution: map<Tags, nat>)
    ensures distribution == Distribution(tags)
  {
    distribution := map[];
    for i := 0 to |tags|
      invariant distribution == Distribution(tags[..i])
    {
      var t := tags[i];
      assert tags[..i + 1] == tags[..i] + [t];
      distribution := distribution[t := (if t in distribution then distribution[t] else 0) + 1];
    }
    assert tags[..|tags|] == tags;
  }

  method DoTestProperty(prop: Property, params: TestParams) returns (result: TestResult)
    requires NoOverflow(params)
    ensures result == TestProperty(prop, params)
  {
    hide Search, ShrinkPath, WalkPath, Distribution, Cases, Count, Kind;
    var search := SearchProperty(prop, params);
    var found := search.value;
    if found.kind == AllSucceeded {
      var distribution := CountTags(found.tags);
      return SuccessResult(found.numSuccess, distribution);
    } else if found.kind == GaveUp {
      SearchTheorem(prop, params);
      return GaveUpResult(found.numSuccess, found.failure.value.shrinkable.value.result.description);
    }
    SizeFits(prop, params);
    var shrinkable := found.failure.value.shrinkable;
    var best, path := shrinkable, [];
    if !params.disableShrinking {
      best, path := ShrinkTestCase(shrinkable);
    } else {
      WalkNowhere(shrinkable);
    }
    return FailureResult(found.numSuccess, best.value.result.description,
                         Reproduce(found.failure.value.random, found.failure.value.size, path), best.value.example);
  }

  /** `walkPath` and what is made of the place it leads to. */
  method Replay(prop: Property, reproduce: Reproduce) returns (result: TestResult)
    ensures result == ReproduceProperty(prop, reproduce)
  {
    var start := prop(reproduce.random, reproduce.size);
    var current := start;
    var path := reproduce.shrinkPath;
    for k := 0 to |path|
      invariant WalkPath(start, path) == WalkPath(current, path[k..])
    {
      if path[k] >= |current.shrinks| {
        return Error(NO_MINIMUM);
      }
      assert path[k..][1..] == path[k + 1..];
      current := current.shrinks[path[k]];
    }
    if current.value.result.kind != Failed {
      return Error(NOT_A_FAILURE);
    }
    return FailureResult(0, current.value.result.description, reproduce, current.value.example);
  }

  method CheckWith(prop: Property, id: Text, params: TestParams, reproduceMap: ReproduceMap) returns (result: TestResult)
    requires reproduceMap == map[] ==> NoOverflow(params)
    ensures result == CheckProperty(prop, id, params, reproduceMap)
  {
    hide TestProperty, ReproduceProperty, NoOverflow;
    if reproduceMap == map[] {
      result := DoTestProperty(prop, params);
    } else if id == [] || id !in reproduceMap {
      result := SuccessResult(0, map[]);
    } else {
      var reproduce := reproduceMap[id];
      if params.disableShrinking {
        reproduce := reproduce.(shrinkPath := []);
      }
      result := Replay(prop, reproduce);
    }
  }
}
