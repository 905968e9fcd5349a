/** Searching for a failing case, shrinking it, recording it and replaying the record. */
module Testing {
  import opened Bits
  import opened SplittableRandom
  import opened Configuration
  import opened SizeSchedule
  import opened Options

  datatype CaseType = Succeeded | Failed | Discarded

  datatype CaseResult = CaseResult(kind: CaseType, description: Text)

  type Tags = seq<Text>
  type Example = seq<(Text, Text)>

  datatype CaseDescription = CaseDescription(result: CaseResult, tags: Tags, example: Example)

  /** A case with the cases it can be shrunk to, all of them finite in number and depth. */
  datatype Shrinkable = Shrinkable(value: CaseDescription, shrinks: seq<Shrinkable>)

  /** A deterministic property: what it generates and finds depends on generator and size alone. */
  type Property = (RandomState, int) -> Shrinkable

  // --------------------------------------------------------------------------------- shrinking

  predicate Fails(s: Shrinkable) {
    s.value.result.kind == Failed
  }

  function WalkPath(s: Shrinkable, path: seq<nat>): Option<Shrinkable>
    decreases |path|
  {
    if path == [] then Some(s)
    else if path[0] >= |s.shrinks| then None
    else WalkPath(s.shrinks[path[0]], path[1..])
  }

  predicate LocalMinimum(s: Shrinkable) {
    forall i :: 0 <= i < |s.shrinks| ==> !Fails(s.shrinks[i])
  }

  predicate FirstFailing(s: Shrinkable, i: nat) {
    i < |s.shrinks| && Fails(s.shrinks[i]) && forall j :: 0 <= j < i ==> !Fails(s.shrinks[j])
  }

  /** Each index of the path is the first failing shrink of its level, and the path stops only
      where no shrink fails. */
  predicate GreedyPath(s: Shrinkable, path: seq<nat>)
    decreases |path|
  {
    if path == [] then LocalMinimum(s)
    else FirstFailing(s, path[0]) && GreedyPath(s.shrinks[path[0]], path[1..])
  }

  /** There is one greedy path at most, so the search for it has one outcome. */
  lemma {:induction false} GreedyPathUnique(s: Shrinkable, p: seq<nat>, q: seq<nat>)
    requires GreedyPath(s, p) && GreedyPath(s, q)
    ensures p == q
    decreases |p|
  {
    if p != [] && q != [] {
      assert p[0] == q[0];
      GreedyPathUnique(s.shrinks[p[0]], p[1..], q[1..]);
      assert p == [p[0]] + p[1..] && q == [q[0]] + q[1..];
    }
  }

  lemma {:induction false} GreedyPathLeads(s: Shrinkable, path: seq<nat>)
    requires GreedyPath(s, path)
    ensures WalkPath(s, path).Some? && LocalMinimum(WalkPath(s, path).value)
    ensures Fails(s) || path != [] ==> Fails(WalkPath(s, path).value)
    decreases |path|
  {
    if path != [] {
      GreedyPathLeads(s.shrinks[path[0]], path[1..]);
    }
  }

  function FirstFail(s: Shrinkable, i: nat): (r: nat)
    requires i <= |s.shrinks|
    requires forall j :: 0 <= j < i ==> !Fails(s.shrinks[j])
    ensures r <= |s.shrinks| && (forall j :: 0 <= j < r ==> !Fails(s.shrinks[j]))
    ensures r < |s.shrinks| ==> Fails(s.shrinks[r])
    decreases |s.shrinks| - i
  {
    if i == |s.shrinks| || Fails(s.shrinks[i]) then i else FirstFail(s, i + 1)
  }

  /** The path greedy shrinking takes. */
  function ShrinkPath(s: Shrinkable): (path: seq<nat>)
    ensures GreedyPath(s, path)
  {
    var i := FirstFail(s, 0);
    if i == |s.shrinks| then [] else
      var rest := ShrinkPath(s.shrinks[i]);
      assert ([i] + rest)[1..] == rest;
      [i] + rest
  }

  lemma {:induction false} WalkFurther(s: Shrinkable, path: seq<nat>, i: nat)
    requires WalkPath(s, path).Some? && i < |WalkPath(s, path).value.shrinks|
    ensures WalkPath(s, path + [i]) == Some(WalkPath(s, path).value.shrinks[i])
    decreases |path|
  {
    if path == [] {
      assert [i][1..] == [];
    } else {
      WalkFurther(s.shrinks[path[0]], path[1..], i);
      assert (path + [i])[1..] == path[1..] + [i];
    }
  }

  /** The loop restarts at the shrinks of every case it accepts. */
  method ShrinkTestCase(shrinkable: Shrinkable) returns (best: Shrinkable, path: seq<nat>)
    ensures path == ShrinkPath(shrinkable)
    ensures WalkPath(shrinkable, path) == Some(best)
    ensures LocalMinimum(best) && (Fails(shrinkable) ==> Fails(best))
  {
    hide ShrinkPath, GreedyPath, WalkPath, Fails;
    path := [];
    best := shrinkable;
    var shrinks := shrinkable.shrinks;
    var i := 0;
    assert WalkPath(best, path) == Some(best) by {
      WalkNowhere(best);
    }
    assert [] + ShrinkPath(best) == ShrinkPath(best);
    while i < |shrinks|
      invariant shrinks == best.shrinks && i <= |shrinks|
      invariant forall j :: 0 <= j < i ==> !Fails(shrinks[j])
      invariant WalkPath(shrinkable, path) == Some(best)
      invariant Fails(shrinkable) ==> Fails(best)
      invariant ShrinkPath(shrinkable) == path + ShrinkPath(best)
      decreases best, |shrinks| - i
    {
      var shrink := shrinks[i];
      if Fails(shrink) {
        WalkFurther(shrinkable, path, i);
        AcceptedPath(best, i);
        assert path + ([i] + ShrinkPath(shrink)) == path + [i] + ShrinkPath(shrink);
        best := shrink;
        shrinks := best.shrinks;
        path := path + [i];
        i := 0;
      } else {
        i := i + 1;
      }
    }
    StopPath(best);
    assert path + [] == path;
  }

  lemma WalkNowhere(s: Shrinkable)
    ensures WalkPath(s, []) == Some(s)
  {
  }

  lemma StopPath(s: Shrinkable)
    requires LocalMinimum(s)
    ensures ShrinkPath(s) == []
  {
    GreedyPathUnique(s, [], ShrinkPath(s));
  }

  lemma AcceptedPath(s: Shrinkable, i: nat)
    requires FirstFailing(s, i)
    ensures ShrinkPath(s) == [i] + ShrinkPath(s.shrinks[i])
  {
    var path := [i] + ShrinkPath(s.shrinks[i]);
    assert path[1..] == ShrinkPath(s.shrinks[i]);
    GreedyPathUnique(s, path, ShrinkPath(s));
  }

  // ----------------------------------------------------------------------------------- search

  function MaxDiscard(params: TestParams): int {
    params.maxDiscardRatio * params.maxSuccess
  }

  function AtLeastZero(x: int): nat { if x < 0 then 0 else x }

  /** A case with what it was generated from. */
  datatype TestCase = TestCase(shrinkable: Shrinkable, size: int, random: RandomState)

  datatype SearchType = AllSucceeded | FoundFailure | GaveUp

  datatype SearchResult = SearchResult(kind: SearchType, numSuccess: int, numDiscarded: int,
                                       tags: seq<Tags>, failure: Option<TestCase>)

  /** Where the search stands: the generator, the counters and the tags seen. */
  datatype Progress = Progress(r: RandomState, numSuccess: nat, numDiscarded: nat, recentDiscards: nat, tags: seq<Tags>)

  predicate Searching(params: TestParams, p: Progress) {
    0 <= params.maxSize && 0 <= params.maxSuccess && p.r.counter == 0 && p.r.bitsi <= BITS
  }

  /** How many cases there can still be: each counts towards one of the two limits. */
  function Remaining(params: TestParams, p: Progress): nat {
    AtLeastZero(params.maxSuccess - p.numSuccess) + AtLeastZero(MaxDiscard(params) + 1 - p.numDiscarded)
  }

  function Start(params: TestParams): Progress {
    Progress(Seeded(params.seed), 0, 0, 0, [])
  }

  function NextCase(prop: Property, params: TestParams, p: Progress): TestCase
    requires Searching(params, p) && p.numSuccess < params.maxSuccess
  {
    var size := SizeFor(params, p.numSuccess) + p.recentDiscards / 10;
    var random := Append(p.r, true);
    TestCase(prop(random, size), size, random)
  }

  /** The standing after a case that does not end the search. */
  function Advance(p: Progress, c: TestCase): Progress
    requires p.r.bitsi <= BITS
  {
    var r := Append(p.r, false);
    var d := c.shrinkable.value;
    if d.result.kind == Succeeded then
      Progress(r, p.numSuccess + 1, p.numDiscarded, 0, if d.tags == [] then p.tags else p.tags + [d.tags])
    else
      Progress(r, p.numSuccess, p.numDiscarded + 1, p.recentDiscards + 1, p.tags)
  }

  function Search(prop: Property, params: TestParams, p: Progress): SearchResult
    requires Searching(params, p)
    decreases Remaining(params, p)
  {
    if p.numSuccess >= params.maxSuccess then
      SearchResult(AllSucceeded, p.numSuccess, p.numDiscarded, p.tags, None)
    else
      var c := NextCase(prop, params, p);
      match c.shrinkable.value.result.kind
      case Failed => SearchResult(FoundFailure, p.numSuccess, p.numDiscarded, p.tags, Some(c))
      case Discarded =>
        if p.numDiscarded + 1 > MaxDiscard(params) then
          SearchResult(GaveUp, p.numSuccess, p.numDiscarded + 1, p.tags, Some(c))
        else Search(prop, params, Advance(p, c))
      case Succeeded => Search(prop, params, Advance(p, c))
  }

  /** The counters are 32-bit integers in the original, whose overflow would be undefined: under
      this none of its sums and products overflows (see SearchSizes.SearchFits). */
  ghost predicate NoOverflow(params: TestParams) {
    && 0 <= params.maxSize < 0x7FFF_FFFF && 0 <= params.maxSuccess
    && -0x8000_0000 <= MaxDiscard(params) < 0x7FFF_FFFF
    && params.maxSize + AtLeastZero(MaxDiscard(params)) / 10 <= 0x7FFF_FFFF
    && (1 < Rest(params) ==> (Rest(params) - 1) * params.maxSize <= 0x7FFF_FFFF)
  }

  /** None stands for the std::length_error of reserving room for a negative number of tags. */
  method SearchProperty(prop: Property, params: TestParams) returns (result: Option<SearchResult>)
    requires 0 <= params.maxSuccess ==> 0 <= params.maxSize
    ensures result == if params.maxSuccess < 0 then None else Some(Search(prop, params, Start(params)))
  {
    hide SizeFor, Append;
    if params.maxSuccess < 0 {
      return None;
    }
    var numSuccess: nat, numDiscarded: nat, recentDiscards: nat := 0, 0, 0;
    var tags: seq<Tags> := [];
    var maxDiscard := params.maxDiscardRatio * params.maxSuccess;
    var r := new Random.FromSeed(params.seed);
    while numSuccess < params.maxSuccess
      invariant Searching(params, Progress(r.State(), numSuccess, numDiscarded, recentDiscards, tags))
      invariant Search(prop, params, Start(params))
             == Search(prop, params, Progress(r.State(), numSuccess, numDiscarded, recentDiscards, tags))
      decreases AtLeastZero(params.maxSuccess - numSuccess) + AtLeastZero(maxDiscard + 1 - numDiscarded)
    {
      ghost var p := Progress(r.State(), numSuccess, numDiscarded, recentDiscards, tags);
      AppendKeepsCounter(r.State(), false);
      var size := SizeFor(params, numSuccess) + recentDiscards / 10;
      var random := r.Split();
      var shrinkable := prop(random.State(), size);
      var c := TestCase(shrinkable, size, random.State());
      assert c == NextCase(prop, params, p);
      var description := shrinkable.value;
      match description.result.kind {
        case Failed =>
          return Some(SearchResult(FoundFailure, numSuccess, numDiscarded, tags, Some(c)));
        case Discarded =>
          numDiscarded := numDiscarded + 1;
          recentDiscards := recentDiscards + 1;
          if numDiscarded > maxDiscard {
            return Some(SearchResult(GaveUp, numSuccess, numDiscarded, tags, Some(c)));
          }
        case Succeeded =>
          numSuccess := numSuccess + 1;
          recentDiscards := 0;
          if description.tags != [] {
            tags := tags + [description.tags];
          }
      }
    }
    return Some(SearchResult(AllSucceeded, numSuccess, numDiscarded, tags, None));
  }

  lemma AppendKeepsCounter(s: RandomState, x: bool)
    requires s.bitsi <= BITS
    ensures Append(s, x).counter == s.counter && 0 < Append(s, x).bitsi <= BITS && Append(s, x).block == s.block
  {
  }
}
