/**
 * The run-results models: one `RunResult` per entry of the results
 * endpoint's response, and the collection of them for one run with its
 * filters by type, its lookups and its summary.
 */
module Results {
  import opened Wrappers
  import opened Text
  import opened Json

  /** A decoded API object: field name to JSON value. */
  type ApiRecord = map<string, Value>

  /** `int(data[field])` raised: the field held something that is not an integer. */
  datatype ConversionError = NotAnInteger(field: string)

  /** A result of a run. `name` and `resultType` hold whatever the response held. */
  datatype RunResult = RunResult(id: int, name: Value, resultType: Value, runId: int)
  {
    /** `self.type.upper() == tag`; `upper` exists only on strings. */
    predicate HasType(tag: string)
      requires resultType.Str?
    {
      Upper(resultType.s) == tag
    }

    predicate IsAnalyzed() requires resultType.Str? { HasType(AnalyzedLabel) }
    predicate IsRawResults() requires resultType.Str? { HasType(RawLabel) }
    predicate IsHtmlReport() requires resultType.Str? { HasType(HtmlLabel) }
    predicate IsRichReport() requires resultType.Str? { HasType(RichLabel) }
  }

  const AnalyzedLabel: string := "ANALYZED RESULT"
  const RawLabel: string := "RAW RESULTS"
  const HtmlLabel: string := "HTML REPORT"
  const RichLabel: string := "RICH REPORT"

  /** An integer field: `int(data[field])` when present, 0 when absent. */
  function IntField(data: ApiRecord, field: string): (r: Result<int, ConversionError>)
    ensures field !in data ==> r == Ok(0)
    ensures field in data ==> (r.Ok? <==> IntOf(data[field]).Some?)
    ensures field in data && r.Ok? ==> r.value == IntOf(data[field]).value
  {
    if field !in data then Ok(0)
    else match IntOf(data[field])
      case Some(n) => Ok(n)
      case None => Err(NotAnInteger(field))
  }

  /** `data.get(field, '')`. */
  function TextField(data: ApiRecord, field: string): Value
  {
    if field in data then data[field] else Str("")
  }

  /** `RunResult.from_api_response`: `ID` is converted first, then `RunID`. */
  function FromApiResponse(data: ApiRecord): (r: Result<RunResult, ConversionError>)
    ensures r.Ok? <==> IntField(data, "ID").Ok? && IntField(data, "RunID").Ok?
    ensures IntField(data, "ID").Err? ==> r == Err(NotAnInteger("ID"))
    ensures IntField(data, "ID").Ok? && IntField(data, "RunID").Err? ==> r == Err(NotAnInteger("RunID"))
  {
    var id := IntField(data, "ID");
    if id.Err? then Err(id.error)
    else
      var run := IntField(data, "RunID");
      if run.Err? then Err(run.error)
      else Ok(RunResult(id.value, TextField(data, "Name"), TextField(data, "Type"), run.value))
  }

  /** The shape the API sends a result in, with its identifiers as strings. */
  function ToApiRecord(r: RunResult): ApiRecord
  {
    map["ID" := Str(ShowInt(r.id)), "Name" := r.name, "Type" := r.resultType, "RunID" := Str(ShowInt(r.runId))]
  }

  /** Decoding what the API sends for a result gives that result back. */
  lemma FromApiRoundTrip(r: RunResult)
    ensures FromApiResponse(ToApiRecord(r)) == Ok(r)
  {
    IntOfShow(r.id);
    IntOfShow(r.runId);
  }

  /** Identifiers sent as JSON numbers decode the same way. */
  lemma FromApiNumericIds(id: int, runId: int, name: Value, resultType: Value)
    ensures FromApiResponse(map["ID" := Int(id), "Name" := name, "Type" := resultType, "RunID" := Int(runId)])
            == Ok(RunResult(id, name, resultType, runId))
  {
  }

  /**
   * Missing fields take their defaults: without ids the conversion succeeds
   * with ids 0, a missing name or type is empty, and a present one is kept.
   */
  lemma FromApiDefaults(data: ApiRecord)
    requires "ID" !in data && "RunID" !in data
    ensures var r := FromApiResponse(data);
            && r.Ok? && r.value.id == 0 && r.value.runId == 0
            && r.value.name == (if "Name" in data then data["Name"] else Str(""))
            && r.value.resultType == (if "Type" in data then data["Type"] else Str(""))
  {
  }

  /**
   * A text identifier that is not a numeral makes the conversion raise:
   * the empty string, or any text without surrounding whitespace whose
   * last character is not a digit ("abc", "12a", "-").
   */
  lemma FromApiBadId(data: ApiRecord, s: string)
    requires "ID" in data && data["ID"] == Str(s)
    requires s == [] || (!IsSpace(s[0]) && !IsSpace(s[|s| - 1]) && !IsDigit(s[|s| - 1]))
    ensures FromApiResponse(data) == Err(NotAnInteger("ID"))
  {
    StripUnchanged(s);
    if s != [] {
      assert !AllDigits(s) by { assert !IsDigit(s[|s| - 1]); }
      if |s| >= 2 {
        assert !AllDigits(s[1..]) by { assert s[1..][|s| - 2] == s[|s| - 1]; }
      }
    }
    assert IntOfString(s).None?;
  }

  /** The results of one run. */
  datatype RunResultsCollection = RunResultsCollection(runId: int, results: seq<RunResult>)

  /** The list comprehension over the records: the first record that fails to convert raises. */
  function ConvertAll(data: seq<ApiRecord>): (r: Result<seq<RunResult>, ConversionError>)
    ensures r.Ok? <==> forall i :: 0 <= i < |data| ==> FromApiResponse(data[i]).Ok?
    ensures r.Ok? ==> |r.value| == |data| &&
                      forall i :: 0 <= i < |data| ==> FromApiResponse(data[i]) == Ok(r.value[i])
    ensures r.Err? ==> exists i :: 0 <= i < |data| && FromApiResponse(data[i]) == Err(r.error) &&
                                   forall j :: 0 <= j < i ==> FromApiResponse(data[j]).Ok?
  {
    if data == [] then Ok([])
    else
      var head := FromApiResponse(data[0]);
      if head.Err? then Err(head.error)
      else
        var rest := ConvertAll(data[1..]);
        if rest.Err? then
          var i :| 0 <= i < |data[1..]| && FromApiResponse(data[1..][i]) == Err(rest.error) &&
                   forall j :: 0 <= j < i ==> FromApiResponse(data[1..][j]).Ok?;
          assert FromApiResponse(data[i + 1]) == Err(rest.error);
          Err(rest.error)
        else
          Ok([head.value] + rest.value)
  }

  /** `RunResultsCollection.from_api_response`. */
  function CollectionFromApiResponse(runId: int, data: seq<ApiRecord>): (r: Result<RunResultsCollection, ConversionError>)
    ensures r.Ok? <==> forall i :: 0 <= i < |data| ==> FromApiResponse(data[i]).Ok?
    ensures r.Ok? ==> r.value.runId == runId && |r.value.results| == |data| &&
                      forall i :: 0 <= i < |data| ==> FromApiResponse(data[i]) == Ok(r.value.results[i])
  {
    match ConvertAll(data)
    case Ok(rs) => Ok(RunResultsCollection(runId, rs))
    case Err(e) => Err(e)
  }

  /** Every result's type is a string, so the type predicates can be asked. */
  predicate Typed(results: seq<RunResult>)
  {
    forall i :: 0 <= i < |results| ==> results[i].resultType.Str?
  }

  /** The results whose upper-cased type equals `tag`, in order. */
  function Select(results: seq<RunResult>, tag: string): (r: seq<RunResult>)
    requires Typed(results)
    ensures |r| <= |results|
    ensures forall x :: x in r <==> x in results && Upper(x.resultType.s) == tag
  {
    if results == [] then []
    else (if results[0].HasType(tag) then [results[0]] else []) + Select(results[1..], tag)
  }

  /** Selection keeps order: it distributes over concatenation. */
  lemma {:induction false} SelectAppend(a: seq<RunResult>, b: seq<RunResult>, tag: string)
    requires Typed(a) && Typed(b)
    ensures Typed(a + b)
    ensures Select(a + b, tag) == Select(a, tag) + Select(b, tag)
  {
    if a == [] {
      assert a + b == b;
    } else {
      assert (a + b)[1..] == a[1..] + b;
      SelectAppend(a[1..], b, tag);
    }
  }

  /** The first selected result is the first result of that type. */
  lemma {:induction false} SelectFirst(results: seq<RunResult>, tag: string)
    requires Typed(results)
    requires Select(results, tag) != []
    ensures exists i :: 0 <= i < |results| && results[i] == Select(results, tag)[0] &&
                        results[i].HasType(tag) && forall j :: 0 <= j < i ==> !results[j].HasType(tag)
  {
    if !results[0].HasType(tag) {
      SelectFirst(results[1..], tag);
      var i :| 0 <= i < |results[1..]| && results[1..][i] == Select(results[1..], tag)[0] &&
               results[1..][i].HasType(tag) && forall j :: 0 <= j < i ==> !results[1..][j].HasType(tag);
      assert results[i + 1] == Select(results, tag)[0];
      assert forall j :: 0 <= j < i + 1 ==> !results[j].HasType(tag) by {
        forall j | 0 <= j < i + 1 ensures !results[j].HasType(tag) {
          if j > 0 {
            assert results[j] == results[1..][j - 1];
          }
        }
      }
    }
  }

  function AnalyzedResults(c: RunResultsCollection): seq<RunResult>
    requires Typed(c.results)
  {
    Select(c.results, AnalyzedLabel)
  }

  function RawResults(c: RunResultsCollection): seq<RunResult>
    requires Typed(c.results)
  {
    Select(c.results, RawLabel)
  }

  function HtmlReports(c: RunResultsCollection): seq<RunResult>
    requires Typed(c.results)
  {
    Select(c.results, HtmlLabel)
  }

  function RichReports(c: RunResultsCollection): seq<RunResult>
    requires Typed(c.results)
  {
    Select(c.results, RichLabel)
  }

  /**
   * `latest_analyzed_result`: the analyzed result that comes first in the
   * response, or none when there is no analyzed result.
   */
  function LatestAnalyzedResult(c: RunResultsCollection): (r: Option<RunResult>)
    requires Typed(c.results)
    ensures r.None? <==> forall i :: 0 <= i < |c.results| ==> !c.results[i].IsAnalyzed()
    ensures r.Some? ==> exists i :: 0 <= i < |c.results| && c.results[i] == r.value &&
                                    r.value.IsAnalyzed() && forall j :: 0 <= j < i ==> !c.results[j].IsAnalyzed()
  {
    var analyzed := AnalyzedResults(c);
    if analyzed == [] then
      assert forall i :: 0 <= i < |c.results| ==> !c.results[i].IsAnalyzed() by {
        forall i | 0 <= i < |c.results| ensures !c.results[i].IsAnalyzed() {
          assert c.results[i] in c.results;
        }
      }
      None
    else
      SelectFirst(c.results, AnalyzedLabel);
      Some(analyzed[0])
  }

  /** `get_analyzed_result_id`: the id of the first analyzed result. */
  function GetAnalyzedResultId(c: RunResultsCollection): (r: Option<int>)
    requires Typed(c.results)
    ensures r.None? <==> forall i :: 0 <= i < |c.results| ==> !c.results[i].IsAnalyzed()
    ensures r.Some? ==> exists i :: 0 <= i < |c.results| && c.results[i].id == r.value &&
                                    c.results[i].IsAnalyzed() && forall j :: 0 <= j < i ==> !c.results[j].IsAnalyzed()
  {
    match LatestAnalyzedResult(c)
    case Some(x) => Some(x.id)
    case None => None
  }

  /** `get_result_by_id`: the first result with that id, whatever its type. */
  function GetResultById(c: RunResultsCollection, id: int): (r: Option<RunResult>)
    ensures r.None? <==> forall i :: 0 <= i < |c.results| ==> c.results[i].id != id
    ensures r.Some? ==> exists i :: 0 <= i < |c.results| && c.results[i] == r.value &&
                                    r.value.id == id && forall j :: 0 <= j < i ==> c.results[j].id != id
  {
    FirstWithId(c.results, id)
  }

  function FirstWithId(results: seq<RunResult>, id: int): (r: Option<RunResult>)
    ensures r.None? <==> forall i :: 0 <= i < |results| ==> results[i].id != id
    ensures r.Some? ==> exists i :: 0 <= i < |results| && results[i] == r.value &&
                                    r.value.id == id && forall j :: 0 <= j < i ==> results[j].id != id
  {
    if results == [] then None
    else if results[0].id == id then Some(results[0])
    else
      var r := FirstWithId(results[1..], id);
      assert forall i :: 1 <= i < |results| ==> results[i] == results[1..][i - 1];
      r
  }

  /** `get_results_by_type`: both sides are upper-cased before comparing. */
  function GetResultsByType(c: RunResultsCollection, resultType: string): (r: seq<RunResult>)
    requires Typed(c.results)
    ensures forall x :: x in r <==> x in c.results && Upper(x.resultType.s) == Upper(resultType)
  {
    Select(c.results, Upper(resultType))
  }

  /**
   * Asking by type in any letter case agrees with the dedicated filters:
   * every spelling `t` that upper-cases to a label selects what that
   * label's filter selects.
   */
  lemma ByTypeMatchesFilters(c: RunResultsCollection, t: string)
    requires Typed(c.results)
    ensures Upper(t) == AnalyzedLabel ==> GetResultsByType(c, t) == AnalyzedResults(c)
    ensures Upper(t) == RawLabel ==> GetResultsByType(c, t) == RawResults(c)
    ensures Upper(t) == HtmlLabel ==> GetResultsByType(c, t) == HtmlReports(c)
    ensures Upper(t) == RichLabel ==> GetResultsByType(c, t) == RichReports(c)
  {
  }

  /** The four labels are distinct, so a result answers yes to at most one of the type predicates. */
  lemma AtMostOneType(r: RunResult)
    requires r.resultType.Str?
    ensures r.IsAnalyzed() ==> !r.IsRawResults() && !r.IsHtmlReport() && !r.IsRichReport()
    ensures r.IsRawResults() ==> !r.IsHtmlReport() && !r.IsRichReport()
    ensures r.IsHtmlReport() ==> !r.IsRichReport()
  {
    assert AnalyzedLabel[0] == 'A' && RawLabel[0] == 'R' && HtmlLabel[0] == 'H' && RichLabel[0] == 'R';
    assert RawLabel[1] == 'A' && RichLabel[1] == 'I';
  }

  /** The dictionary `summary()` returns; `available_types` as the set it is built from. */
  datatype Summary = Summary(runId: int, totalResults: nat, analyzedCount: nat, rawCount: nat,
                             htmlCount: nat, richCount: nat, analyzedResultId: Option<int>,
                             availableTypes: set<Value>)

  function GetSummary(c: RunResultsCollection): (s: Summary)
    requires Typed(c.results)
    ensures s.runId == c.runId && s.totalResults == |c.results|
    ensures s.analyzedResultId.Some? <==> s.analyzedCount > 0
    ensures forall t :: t in s.availableTypes <==> exists i :: 0 <= i < |c.results| && c.results[i].resultType == t
  {
    var s := Summary(c.runId, |c.results|, |AnalyzedResults(c)|, |RawResults(c)|, |HtmlReports(c)|,
                     |RichReports(c)|, GetAnalyzedResultId(c), set r | r in c.results :: r.resultType);
    assert s.analyzedCount > 0 ==> s.analyzedResultId.Some? by {
      if s.analyzedCount > 0 {
        assert AnalyzedResults(c)[0] in c.results;
      }
    }
    assert forall t :: t in s.availableTypes ==> exists i :: 0 <= i < |c.results| && c.results[i].resultType == t by {
      forall t | t in s.availableTypes ensures exists i :: 0 <= i < |c.results| && c.results[i].resultType == t {
        var r :| r in c.results && r.resultType == t;
        var i :| 0 <= i < |c.results| && c.results[i] == r;
      }
    }
    s
  }

  /** A result has at most one of the four types, so the four counts never exceed the total. */
  lemma {:induction false} CountsWithinTotal(results: seq<RunResult>)
    requires Typed(results)
    ensures |Select(results, AnalyzedLabel)| + |Select(results, RawLabel)| + |Select(results, HtmlLabel)|
            + |Select(results, RichLabel)| <= |results|
  {
    if results != [] {
      CountsWithinTotal(results[1..]);
    }
  }

  lemma SummaryCounts(c: RunResultsCollection)
    requires Typed(c.results)
    ensures var s := GetSummary(c);
            s.analyzedCount + s.rawCount + s.htmlCount + s.richCount <= s.totalResults
  {
    CountsWithinTotal(c.results);
  }
}
