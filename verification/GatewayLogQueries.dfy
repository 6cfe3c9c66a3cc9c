/** The two fixed gateway-log queries of src/apim_mcp/clients/logs.py. */
module GatewayLogQueries {
  import opened Options
  import opened KqlStrings
  import opened KqlDeclarations
  import opened TextLines

  const MAX_LIMIT := 200
  const MAX_TOP := 100
  const MAX_TIMESPAN := 7 * 24 * 3600 * 1000000  // in microseconds

  /** A parsed query window, in microseconds. */
  datatype Timespan = Duration(length: int) | Between(start: int, end: int)

  /** The caller's filters; a filter that is None is not applied. */
  datatype Filters = Filters(
    resourceId: string,
    apiId: Option<string>,
    operationId: Option<string>,
    responseCategory: Option<string>,
    minDurationMs: Option<int>,
    correlationId: Option<string>,
    includeUrls: bool,
    limit: int)

  datatype Query =
    | Query(text: string, timespan: Timespan, limit: nat, truncated: bool)
    | InvalidInput(parameter: string)

  function OrEmpty(s: Option<string>): string
  {
    match s case Some(v) => v case None => []
  }

  /** The bound parameters of the detail query, in the order the preamble lists them. */
  function DetailParams(f: Filters): seq<Param>
    requires f.minDurationMs.Some? ==> f.minDurationMs.value >= 0
    requires f.limit >= 1
  {
    [Param("resource_id", Text(f.resourceId)),
     Param("has_api_id", Flag(f.apiId.Some?)),
     Param("api_id", Text(OrEmpty(f.apiId))),
     Param("has_operation_id", Flag(f.operationId.Some?)),
     Param("operation_id", Text(OrEmpty(f.operationId))),
     Param("has_response_category", Flag(f.responseCategory.Some?)),
     Param("response_category", Text(OrEmpty(f.responseCategory))),
     Param("has_min_duration", Flag(f.minDurationMs.Some?)),
     Param("min_duration_ms", Long(if f.minDurationMs.Some? then f.minDurationMs.value else 0)),
     Param("has_correlation_id", Flag(f.correlationId.Some?)),
     Param("correlation_id", Text(OrEmpty(f.correlationId))),
     Param("include_urls", Flag(f.includeUrls)),
     Param("limit_value", Long(if f.limit < MAX_LIMIT then f.limit else MAX_LIMIT))]
  }

  function WindowLength(t: Timespan): int
  {
    match t case Duration(length) => length case Between(start, end) => end - start
  }

  /** `_bounded_timespan`; `parsed` is None when the text does not parse. */
  function BoundedTimespan(parsed: Option<Timespan>): Option<Timespan>
  {
    if parsed.Some? && WindowLength(parsed.value) > MAX_TIMESPAN then None else parsed
  }

  /** `build_gateway_log_query`; `body` is the fixed query text. */
  function DetailQuery(timespan: Option<Timespan>, f: Filters, body: string): Query
  {
    var window := BoundedTimespan(timespan);
    if window.None? then InvalidInput("timespan")
    else if f.limit < 1 then InvalidInput("limit")
    else if f.minDurationMs.Some? && f.minDurationMs.value < 0 then InvalidInput("min_duration_ms")
    else Query(Declaration(DetailParams(f)) + ['\n'] + body,
               window.value,
               if f.limit < MAX_LIMIT then f.limit else MAX_LIMIT,
               f.limit > MAX_LIMIT)
  }

  function SummaryParams(resourceId: string, top: nat): seq<Param>
  {
    [Param("resource_id", Text(resourceId)), Param("top_value", Long(if top < MAX_TOP then top else MAX_TOP))]
  }

  /** `build_error_summary_query` */
  function SummaryQuery(timespan: Option<Timespan>, resourceId: string, top: int, body: string): Query
  {
    var window := BoundedTimespan(timespan);
    if window.None? then InvalidInput("timespan")
    else if top < 1 then InvalidInput("top")
    else Query(Declaration(SummaryParams(resourceId, top)) + ['\n'] + body,
               window.value,
               if top < MAX_TOP then top else MAX_TOP,
               top > MAX_TOP)
  }

  // ----- what the service that runs the query can read off the preamble -----

  /** The name is bound, and to nothing but the value. */
  ghost predicate IsBound(params: seq<Param>, name: string, value: Value)
  {
    Param(name, value) in params && forall p :: p in params && p.name == name ==> p.value == value
  }

  /** A filter takes two parameters: a flag that says whether it applies, and its text. */
  ghost predicate BindsText(params: seq<Param>, flag: string, name: string, filter: Option<string>)
  {
    match filter
    case Some(text) => IsBound(params, flag, Flag(true)) && IsBound(params, name, Text(text))
    case None => IsBound(params, flag, Flag(false)) && IsBound(params, name, Text(""))
  }

  ghost predicate BindsNumber(params: seq<Param>, flag: string, name: string, filter: Option<int>)
  {
    match filter
    case Some(n) => n >= 0 && IsBound(params, flag, Flag(true)) && IsBound(params, name, Long(n))
    case None => IsBound(params, flag, Flag(false)) && IsBound(params, name, Long(0))
  }

  /** Every filter is bound under its own names; there are thirteen parameters in all. */
  ghost predicate BindsFilters(params: seq<Param>, f: Filters, limit: nat)
  {
    && |params| == 13
    && IsBound(params, "resource_id", Text(f.resourceId))
    && BindsText(params, "has_api_id", "api_id", f.apiId)
    && BindsText(params, "has_operation_id", "operation_id", f.operationId)
    && BindsText(params, "has_response_category", "response_category", f.responseCategory)
    && BindsNumber(params, "has_min_duration", "min_duration_ms", f.minDurationMs)
    && BindsText(params, "has_correlation_id", "correlation_id", f.correlationId)
    && IsBound(params, "include_urls", Flag(f.includeUrls))
    && IsBound(params, "limit_value", Long(limit))
  }

  lemma OneBinding(params: seq<Param>, name: string, a: Value, b: Value)
    requires IsBound(params, name, a) && IsBound(params, name, b)
    ensures a == b
  {
  }

  lemma SameText(params: seq<Param>, flag: string, name: string, a: Option<string>, b: Option<string>)
    requires BindsText(params, flag, name, a) && BindsText(params, flag, name, b)
    ensures a == b
  {
    hide IsBound;
    OneBinding(params, flag, Flag(a.Some?), Flag(b.Some?));
    if a.Some? && b.Some? {
      OneBinding(params, name, Text(a.value), Text(b.value));
    }
  }

  /** The parameters determine every filter, absent ones included. */
  lemma FiltersAreRecovered(params: seq<Param>, f: Filters, limit: nat, f': Filters, limit': nat)
    ensures BindsFilters(params, f, limit) && BindsFilters(params, f', limit') ==>
              f == f'.(limit := f.limit) && limit == limit'
  {
    hide IsBound, BindsText;
    if BindsFilters(params, f, limit) && BindsFilters(params, f', limit') {
      OneBinding(params, "resource_id", Text(f.resourceId), Text(f'.resourceId));
      SameText(params, "has_api_id", "api_id", f.apiId, f'.apiId);
      SameText(params, "has_operation_id", "operation_id", f.operationId, f'.operationId);
      SameText(params, "has_response_category", "response_category", f.responseCategory, f'.responseCategory);
      OneBinding(params, "has_min_duration", Flag(f.minDurationMs.Some?), Flag(f'.minDurationMs.Some?));
      if f.minDurationMs.Some? && f'.minDurationMs.Some? {
        OneBinding(params, "min_duration_ms", Long(f.minDurationMs.value), Long(f'.minDurationMs.value));
      }
      SameText(params, "has_correlation_id", "correlation_id", f.correlationId, f'.correlationId);
      OneBinding(params, "include_urls", Flag(f.includeUrls), Flag(f'.includeUrls));
      OneBinding(params, "limit_value", Long(limit), Long(limit'));
    }
  }

  lemma DetailParamsAreNamed(f: Filters)
    requires f.minDurationMs.Some? ==> f.minDurationMs.value >= 0
    requires f.limit >= 1
    ensures WellNamed(DetailParams(f))
  {
    hide IsName;
    FlagNamesAreClean();
    TextNamesAreClean();
    NumberNamesAreClean();
  }

  lemma BoundAt(params: seq<Param>, i: nat)
    requires i < |params| && forall k :: 0 <= k < |params| && params[k].name == params[i].name ==> k == i
    ensures IsBound(params, params[i].name, params[i].value)
  {
  }

  lemma DetailNamesDiffer(f: Filters)
    requires f.minDurationMs.Some? ==> f.minDurationMs.value >= 0
    requires f.limit >= 1
    ensures var params := DetailParams(f);
              |params| == 13 && forall i, j :: 0 <= i < j < 13 ==> params[i].name != params[j].name
  {
    hide OrEmpty;
    assert "operation_id"[0] == 'o' && "include_urls"[0] == 'i';
    assert "resource_id"[0] == 'r' && "limit_value"[0] == 'l';
    assert "has_operation_id"[4] == 'o' && "has_min_duration"[4] == 'm';
  }

  lemma AllAreBound(f: Filters)
    requires f.minDurationMs.Some? ==> f.minDurationMs.value >= 0
    requires f.limit >= 1
    ensures var params := DetailParams(f);
              forall i :: 0 <= i < |params| ==> IsBound(params, params[i].name, params[i].value)
  {
    DetailNamesDiffer(f);
    hide DetailParams, IsBound;
    var params := DetailParams(f);
    forall i | 0 <= i < |params|
      ensures IsBound(params, params[i].name, params[i].value)
    {
      BoundAt(params, i);
    }
  }

  lemma DetailParamsBind(f: Filters)
    requires f.minDurationMs.Some? ==> f.minDurationMs.value >= 0
    requires f.limit >= 1
    ensures BindsFilters(DetailParams(f), f, if f.limit < 200 then f.limit else 200)
  {
    hide IsBound;
    AllAreBound(f);
    var params := DetailParams(f);
    assert params[1].name == "has_api_id" && params[2].name == "api_id";
    assert IsBound(params, params[0].name, params[0].value);
    assert IsBound(params, params[1].name, params[1].value) && IsBound(params, params[2].name, params[2].value);
    assert IsBound(params, params[3].name, params[3].value) && IsBound(params, params[4].name, params[4].value);
    assert IsBound(params, params[5].name, params[5].value) && IsBound(params, params[6].name, params[6].value);
    assert IsBound(params, params[7].name, params[7].value) && IsBound(params, params[8].name, params[8].value);
    assert IsBound(params, params[9].name, params[9].value) && IsBound(params, params[10].name, params[10].value);
    assert IsBound(params, params[11].name, params[11].value) && IsBound(params, params[12].name, params[12].value);
  }

  lemma FlagNamesAreClean()
    ensures IsName("has_api_id")
    ensures IsName("has_operation_id")
    ensures IsName("has_response_category")
    ensures IsName("has_min_duration")
    ensures IsName("has_correlation_id")
    ensures IsName("include_urls")
  {
  }

  lemma TextNamesAreClean()
    ensures IsName("resource_id")
    ensures IsName("api_id")
    ensures IsName("operation_id")
    ensures IsName("response_category")
    ensures IsName("correlation_id")
  {
  }

  lemma NumberNamesAreClean()
    ensures IsName("min_duration_ms")
    ensures IsName("limit_value")
    ensures IsName("top_value")
  {
  }

  /** The window parses and is at most seven days long. */
  predicate IsBounded(timespan: Option<Timespan>)
  {
    && timespan.Some?
    && match timespan.value
       case Duration(length) => length <= 604800000000
       case Between(start, end) => end - start <= 604800000000
  }

  /**
   For every window and combination of filters the detail query is one clean declaration line and the
   fixed body: the line gives back every filter (with the limit capped at 200), and the
   splitter returns the body whenever the body declares nothing itself.
   */
  lemma DetailQueryIsFaithful(timespan: Option<Timespan>, f: Filters, body: string)
    ensures var q := DetailQuery(timespan, f, body);
              && (q.InvalidInput? <==>
                    || !IsBounded(timespan)
                    || f.limit < 1
                    || (f.minDurationMs.Some? && f.minDurationMs.value < 0))
              && (!IsBounded(timespan) ==> q == InvalidInput("timespan"))
              && (IsBounded(timespan) && f.limit < 1 ==> q == InvalidInput("limit"))
              && (IsBounded(timespan) && f.limit >= 1 && q.InvalidInput? ==> q == InvalidInput("min_duration_ms"))
              && (q.Query? ==>
                    && Some(q.timespan) == timespan
                    && var line := q.text[..LineLength(q.text)];
                    && q.text == line + ['\n'] + body
                    && ';' !in line[..|line| - 1]
                    && ReadDeclaration(line).Some?
                    && BindsFilters(ReadDeclaration(line).value, f, q.limit)
                    && q.limit == (if f.limit <= 200 then f.limit else 200)
                    && (q.truncated <==> f.limit > 200)
                    && (QueryBody(q.text) == body <==> !Contains(body, DECLARE)))
  {
    hide DetailParams, Declaration, ReadDeclaration, Contains, BindsFilters, QueryBody;
    if f.limit >= 1 && (f.minDurationMs.Some? ==> f.minDurationMs.value >= 0) {
      DetailParamsAreNamed(f);
      BuiltQuery(DetailParams(f), body);
      DetailParamsBind(f);
    }
  }

  lemma BuiltQuery(params: seq<Param>, body: string)
    requires WellNamed(params)
    ensures var text := Declaration(params) + ['\n'] + body;
            var line := text[..LineLength(text)];
            && text == line + ['\n'] + body
            && ';' !in line[..|line| - 1]
            && ReadDeclaration(line) == Some(params)
            && (QueryBody(text) == body <==> !Contains(body, DECLARE))
  {
    hide Declaration, ReadDeclaration, Contains, QueryBody;
    DeclarationIsOneStatement(params);
    DeclarationRoundTrip(params);
    QueryBodyIsTheBody(params, body);
    var d := Declaration(params);
    assert (d + ['\n'] + body)[..|d|] == d;
    LineLengthIs(d + ['\n'] + body, |d|);
  }

  /** The same for the error summary. */
  lemma SummaryQueryIsFaithful(timespan: Option<Timespan>, resourceId: string, top: int, body: string)
    ensures var q := SummaryQuery(timespan, resourceId, top, body);
              && (q.InvalidInput? <==> !IsBounded(timespan) || top < 1)
              && (!IsBounded(timespan) ==> q == InvalidInput("timespan"))
              && (IsBounded(timespan) && q.InvalidInput? ==> q == InvalidInput("top"))
              && (q.Query? ==>
                    && Some(q.timespan) == timespan
                    && var line := q.text[..LineLength(q.text)];
                    && q.text == line + ['\n'] + body
                    && ReadDeclaration(line)
                         == Some([Param("resource_id", Text(resourceId)), Param("top_value", Long(q.limit))])
                    && q.limit == (if top <= 100 then top else 100)
                    && (q.truncated <==> top > 100)
                    && (QueryBody(q.text) == body <==> !Contains(body, DECLARE)))
  {
    hide Declaration, ReadDeclaration, Contains, QueryBody, IsName;
    if top >= 1 {
      TextNamesAreClean();
      NumberNamesAreClean();
      BuiltQuery(SummaryParams(resourceId, top), body);
    }
  }
}
