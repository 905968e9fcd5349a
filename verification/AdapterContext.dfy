/** The context of one run of a property: it combines the results reported during the run. */
module AdapterContext {
  import opened Bits
  import opened Testing

  datatype TaggedResult = TaggedResult(result: CaseResult, tags: Tags)

  // ------------------------------------------------------------- what a list of reports amounts to

  predicate Has(reports: seq<CaseResult>, kind: CaseType) {
    exists i :: 0 <= i < |reports| && reports[i].kind == kind
  }

  function Rank(kind: CaseType): nat {
    match kind
    case Succeeded => 0
    case Failed => 1
    case Discarded => 2
  }

  /** The descriptions of all reports of a kind, in order. */
  function Descriptions(reports: seq<CaseResult>, kind: CaseType): seq<Text> {
    if reports == [] then []
    else
      var n := |reports| - 1;
      Descriptions(reports[..n], kind) + if reports[n].kind == kind then [reports[n].description] else []
  }

  /** A discard beats a failure, and a failure beats a success. */
  function FinalKind(reports: seq<CaseResult>): CaseType {
    if Has(reports, Discarded) then Discarded else if Has(reports, Failed) then Failed else Succeeded
  }

  /** Of discards the first description is kept, of failures all are, of successes the last. */
  function Kept(reports: seq<CaseResult>): seq<Text> {
    DescriptionsNonEmpty(reports, Discarded);
    if Has(reports, Discarded) then [Descriptions(reports, Discarded)[0]]
    else if Has(reports, Failed) then Descriptions(reports, Failed)
    else if reports == [] then []
    else [reports[|reports| - 1].description]
  }

  lemma {:induction false} DescriptionsNonEmpty(reports: seq<CaseResult>, kind: CaseType)
    ensures Descriptions(reports, kind) != [] <==> Has(reports, kind)
  {
    if reports != [] {
      var n := |reports| - 1;
      DescriptionsNonEmpty(reports[..n], kind);
      HasSnoc(reports[..n], reports[n], kind);
      assert reports[..n] + [reports[n]] == reports;
    }
  }

  lemma HasSnoc(reports: seq<CaseResult>, r: CaseResult, kind: CaseType)
    ensures Has(reports + [r], kind) <==> Has(reports, kind) || r.kind == kind
  {
    var all := reports + [r];
    if Has(reports, kind) {
      var i :| 0 <= i < |reports| && reports[i].kind == kind;
      assert all[i].kind == kind;
    } else if r.kind == kind {
      assert all[|reports|].kind == kind;
    }
  }

  lemma DescriptionsSnoc(reports: seq<CaseResult>, r: CaseResult, kind: CaseType)
    ensures Descriptions(reports + [r], kind) == Descriptions(reports, kind) + if r.kind == kind then [r.description] else []
  {
    assert (reports + [r])[..|reports|] == reports;
  }

  /** The final type is the greatest reported, whatever the order. */
  lemma FinalKindIsMaximum(reports: seq<CaseResult>)
    ensures forall i :: 0 <= i < |reports| ==> Rank(reports[i].kind) <= Rank(FinalKind(reports))
    ensures reports != [] ==> Has(reports, FinalKind(reports))
  {
    if reports != [] && !Has(reports, Discarded) && !Has(reports, Failed) {
      assert reports[0].kind == Succeeded;
    }
  }

  function Join(messages: seq<Text>): Text {
    if messages == [] then []
    else if |messages| == 1 then messages[0]
    else Join(messages[..|messages| - 1]) + ['\n', '\n'] + messages[|messages| - 1]
  }

  const LOG_HEADER: Text := "\n\nLog:\n"

  /** The result of a run: its reports combined, then the log, if anything was logged. */
  function Combined(reports: seq<CaseResult>, log: Text, tags: Tags): TaggedResult {
    TaggedResult(CaseResult(FinalKind(reports), Join(Kept(reports)) + if log == [] then [] else LOG_HEADER + log), tags)
  }

  /** Where message i starts in the description. */
  function StartOf(messages: seq<Text>, i: nat): nat
    requires i < |messages|
  {
    if i == 0 then 0 else StartOf(messages, i - 1) + |messages[i - 1]| + 2
  }

  lemma {:induction false} StartOfPrefix(messages: seq<Text>, init: seq<Text>, i: nat)
    requires i < |init| <= |messages| && init == messages[..|init|]
    ensures StartOf(init, i) == StartOf(messages, i)
  {
    if i > 0 {
      StartOfPrefix(messages, init, i - 1);
    }
  }

  /** Each message stands at its place, with an empty line before all but the first, and nothing
      comes after the last. */
  lemma {:induction false} JoinPlaces(messages: seq<Text>, i: nat)
    requires i < |messages|
    ensures var all, start := Join(messages), StartOf(messages, i);
            && start + |messages[i]| <= |all| && all[start..start + |messages[i]|] == messages[i]
            && (i > 0 ==> 2 <= start && all[start - 2..start] == "\n\n")
            && (i == |messages| - 1 ==> start + |messages[i]| == |all|)
    decreases |messages|
  {
    hide StartOf;
    var n := |messages| - 1;
    var init, last := messages[..n], messages[n];
    if n == 0 {
      StartOfFirst(messages);
    } else {
      var before := Join(init);
      assert Join(messages) == before + ['\n', '\n'] + last;
      JoinPlaces(init, n - 1);
      StartOfPrefix(messages, init, n - 1);
      StartOfNext(messages, n);
      if i < n {
        JoinPlaces(init, i);
        StartOfPrefix(messages, init, i);
      }
    }
  }

  lemma StartOfFirst(messages: seq<Text>)
    requires messages != []
    ensures StartOf(messages, 0) == 0
  {
  }

  lemma StartOfNext(messages: seq<Text>, i: nat)
    requires 0 < i < |messages|
    ensures StartOf(messages, i) == StartOf(messages, i - 1) + |messages[i - 1]| + 2
  {
  }

  /** The description is the joined messages, and behind them the log under its heading, if any. */
  lemma WhereThingsStand(reports: seq<CaseResult>, log: Text, tags: Tags)
    ensures var r := Combined(reports, log, tags);
            var joined := Join(Kept(reports));
            && r.tags == tags && r.result.kind == FinalKind(reports)
            && joined <= r.result.description
            && r.result.description[|joined|..] == (if log == [] then "" else "\n\nLog:\n" + log)
  {
  }

  /** Which messages are kept: the first discard's, or those of all failures in their order, or the
      last success's. */
  lemma KeptMessages(reports: seq<CaseResult>, i: nat)
    requires i < |reports|
    ensures var kept, r := Kept(reports), reports[i];
            && (r.kind == Discarded && !Has(reports[..i], Discarded) ==> kept == [r.description])
            && (r.kind == Failed && !Has(reports, Discarded) ==>
                  var n := |Descriptions(reports[..i], Failed)|;
                  n < |kept| && kept[n] == r.description)
            && ((forall k :: 0 <= k < |reports| ==> reports[k].kind == Succeeded) && i == |reports| - 1 ==>
                  kept == [r.description])
  {
    DescriptionsNonEmpty(reports[..i], Discarded);
    if reports[i].kind != Succeeded {
      CountOfKind(reports, reports[i].kind, i);
    }
  }

  lemma {:induction false} CountOfKind(reports: seq<CaseResult>, kind: CaseType, i: nat)
    requires i < |reports| && reports[i].kind == kind
    ensures |Descriptions(reports[..i], kind)| < |Descriptions(reports, kind)|
    ensures Descriptions(reports, kind)[|Descriptions(reports[..i], kind)|] == reports[i].description
    decreases |reports|
  {
    var n := |reports| - 1;
    if i < n {
      CountOfKind(reports[..n], kind, i);
      assert reports[..n][..i] == reports[..i];
    }
  }

  // ------------------------------------------------------------------------------- the class

  class AdapterContext {
    var resultType: CaseType
    var messages: seq<Text>
    var tags: Tags
    var log: Text
    ghost var reports: seq<CaseResult>

    ghost predicate Valid()
      reads this
    {
      resultType == FinalKind(reports) && messages == Kept(reports)
    }

    constructor ()
      ensures Valid() && reports == [] && tags == [] && log == []
    {
      resultType, messages, tags, log, reports := Succeeded, [], [], [], [];
    }

    method ReportResult(result: CaseResult) returns (ok: bool)
      requires Valid()
      modifies this`resultType, this`messages, this`reports
      ensures Valid() && ok && reports == old(reports) + [result]
    {
      hide FinalKind, Kept;
      ReportCases(reports, result);
      match result.kind {
        case Discarded =>
          if resultType != Discarded {
            messages := [];
            messages := messages + [result.description];
            resultType := Discarded;
          }
        case Failed =>
          if resultType != Discarded {
            if resultType == Succeeded {
              messages := [];
            }
            messages := messages + [result.description];
            resultType := Failed;
          }
        case Succeeded =>
          if resultType == Succeeded {
            messages := [];
            messages := messages + [result.description];
          }
      }
      reports := reports + [result];
      return true;
    }

    method AddTag(str: Text)
      modifies this`tags
      ensures tags == old(tags) + [str]
    {
      tags := tags + [str];
    }

    method Log(str: Text)
      modifies this`log
      ensures log == old(log) + str
    {
      log := log + str;
    }

    method Result() returns (r: TaggedResult)
      requires Valid()
      ensures r == Combined(reports, log, tags)
    {
      hide Kept, FinalKind;
      var description: Text := [];
      for i := 0 to |messages|
        invariant description == Join(messages[..i])
      {
        assert messages[..i + 1][..i] == messages[..i];
        if i != 0 {
          description := description + ['\n', '\n'];
        }
        description := description + messages[i];
      }
      assert messages[..|messages|] == messages;
      if log != [] {
        assert Join(messages) + (LOG_HEADER + log) == Join(messages) + LOG_HEADER + log;
        description := description + LOG_HEADER;
        description := description + log;
      } else {
        assert description + [] == description;
      }
      return TaggedResult(CaseResult(resultType, description), tags);
    }
  }

  /** What one more report makes of the final type and of the kept descriptions. */
  lemma ReportCases(reports: seq<CaseResult>, result: CaseResult)
    ensures var after := reports + [result];
            var before := FinalKind(reports);
            && FinalKind(after) == (if Rank(result.kind) > Rank(before) then result.kind else before)
            && (result.kind == Discarded && before != Discarded ==> Kept(after) == [result.description])
            && (result.kind == Failed && before == Succeeded ==> Kept(after) == [result.description])
            && (result.kind == Failed && before == Failed ==> Kept(after) == Kept(reports) + [result.description])
            && (result.kind == Succeeded && before == Succeeded ==> Kept(after) == [result.description])
            && (Rank(result.kind) < Rank(before) || before == Discarded ==> Kept(after) == Kept(reports))
  {
    HasSnoc(reports, result, Discarded);
    HasSnoc(reports, result, Failed);
    DescriptionsSnoc(reports, result, Discarded);
    DescriptionsSnoc(reports, result, Failed);
    DescriptionsNonEmpty(reports, Discarded);
    DescriptionsNonEmpty(reports, Failed);
  }
}
