/**
 * The request handler's core: read the filter, collect every submission
 * from upstream, filter them, and answer with the page the client asked for.
 */
module Service {

  import opened Wrappers
  import opened JsValues
  import opened Types
  import opened Filter
  import opened FilterProperties
  import opened Request
  import opened Upstream
  import opened Pagination

  /**
   * The body the service answers with. `pageCount == None` is the JSON
   * `null` that a zero limit produces.
   */
  datatype FilteredBody = FilteredBody(responses: seq<Submission>, totalResponses: nat, pageCount: Option<int>)

  /** `JSON.parse` of the filter text, as the list of clauses it denotes or the error it throws. */
  type ParseFilter = string -> Result<seq<FilterClause>, Error>

  /** The page of the filtered list at the client's offset and limit, with the totals. */
  function PageOf(filtered: seq<Submission>, limit: real, offset: real): FilteredBody
  {
    FilteredBody(Slice(filtered, offset, offset + limit), |filtered|, PageCount(|filtered|, limit))
  }

  /**
   * The filtered list the handler pages through: a missing filter, a filter
   * that does not parse, a failing upstream request and an unknown filter
   * condition are errors, met in that order. With `corrected` false the
   * submissions are filtered by the clause loop as written; with `corrected`
   * true by the loop that stops at the first clause that fails.
   */
  function FilteredList(formId: string, query: Query, parseFilter: ParseFilter, fetch: Fetch, bound: nat, corrected: bool)
    : Result<seq<Submission>, Error>
    requires PageCountsBounded(fetch, formId, UpstreamEntries(query), bound)
  {
    if query.filter.None? then Failure(FilterNotString)
    else match parseFilter(query.filter.value)
      case Failure(e) => Failure(e)
      case Success(clauses) =>
        match Collect(Pages(fetch, formId, UpstreamEntries(query), 0, bound))
        case Failure(e) => Failure(e)
        case Success(all) => FilterSpec(all, Callback(clauses, corrected))
  }

  /** What the handler answers: the error met, or the requested page of the filtered list. */
  function FilteredResponseBody(formId: string, query: Query, parseFilter: ParseFilter, fetch: Fetch, bound: nat, corrected: bool)
    : Result<FilteredBody, Error>
    requires PageCountsBounded(fetch, formId, UpstreamEntries(query), bound)
  {
    match FilteredList(formId, query, parseFilter, fetch, bound, corrected)
    case Failure(e) => Failure(e)
    case Success(filtered) => Success(PageOf(filtered, ClientLimit(query), ClientOffset(query)))
  }

  method GetFilteredResponseBody(formId: string, query: Query, parseFilter: ParseFilter, fetch: Fetch, ghost bound: nat, corrected: bool)
    returns (r: Result<FilteredBody, Error>)
    requires PageCountsBounded(fetch, formId, UpstreamEntries(query), bound)
    ensures r == FilteredResponseBody(formId, query, parseFilter, fetch, bound, corrected)
  {
    if query.filter.None? {
      return Failure(FilterNotString);
    }
    var filterClauses := parseFilter(query.filter.value);
    if filterClauses.Failure? {
      return Failure(filterClauses.error);
    }
    var queryParams, limit, offset := GetFilloutUrlSearchParamsFromRequest(query);
    ghost var upstream := Collect(Pages(fetch, formId, UpstreamEntries(query), 0, bound));
    var allResponses := GetAllResponses(formId, queryParams, fetch, bound);
    assert allResponses == upstream;
    if allResponses.Failure? {
      return Failure(allResponses.error);
    }
    var filteredResponses := FilterResponses(allResponses.value, filterClauses.value, corrected);
    if filteredResponses.Failure? {
      return Failure(filteredResponses.error);
    }
    r := Success(PageOf(filteredResponses.value, limit, offset));
  }

  // ---------------------------------------------------------------------
  // Properties

  /**
   * Every submission of the filtered list was sent by upstream and passed
   * the filter.
   */
  lemma FilteredSubmissionsPassedTheFilter(formId: string, query: Query, parseFilter: ParseFilter, fetch: Fetch, bound: nat, corrected: bool, s: Submission)
    requires PageCountsBounded(fetch, formId, UpstreamEntries(query), bound)
    requires FilteredList(formId, query, parseFilter, fetch, bound, corrected).Success?
    requires s in FilteredList(formId, query, parseFilter, fetch, bound, corrected).value
    ensures query.filter.Some? && parseFilter(query.filter.value).Success?
    ensures Answered(Pages(fetch, formId, UpstreamEntries(query), 0, bound), s)
    ensures Callback(parseFilter(query.filter.value).value, corrected)(s) == Success(true)
  {
    var clauses := parseFilter(query.filter.value).value;
    var pages := Pages(fetch, formId, UpstreamEntries(query), 0, bound);
    var all := Collect(pages).value;
    assert FilteredList(formId, query, parseFilter, fetch, bound, corrected) == FilterSpec(all, Callback(clauses, corrected));
    FilterMembership(all, Callback(clauses, corrected), s);
    CollectKeepsEverySubmission(pages, s);
  }

  /**
   * With the corrected clause loop, every submission of the filtered list
   * answers every clause's question and satisfies every clause.
   */
  lemma CorrectedListSatisfiesEveryClause(formId: string, query: Query, parseFilter: ParseFilter, fetch: Fetch, bound: nat, s: Submission)
    requires PageCountsBounded(fetch, formId, UpstreamEntries(query), bound)
    requires FilteredList(formId, query, parseFilter, fetch, bound, true).Success?
    requires s in FilteredList(formId, query, parseFilter, fetch, bound, true).value
    ensures query.filter.Some? && parseFilter(query.filter.value).Success?
    ensures var clauses := parseFilter(query.filter.value).value;
            forall k :: 0 <= k < |clauses| ==> Answers(s, clauses[k]) && EvaluateClause(s, clauses[k]) == Compared(true)
  {
    var clauses := parseFilter(query.filter.value).value;
    var all := Collect(Pages(fetch, formId, UpstreamEntries(query), 0, bound)).value;
    assert FilteredList(formId, query, parseFilter, fetch, bound, true) == FilterSpec(all, Callback(clauses, true));
    KeptSubmissionsSatisfyEveryClause(all, clauses, s);
  }

  /** Whatever the limit and offset, the page holds only filtered submissions. */
  lemma PageHoldsOnlyFiltered(filtered: seq<Submission>, limit: real, offset: real, s: Submission)
    requires s in PageOf(filtered, limit, offset).responses
    ensures s in filtered
  {
    SliceIsPart(filtered, offset, offset + limit, s);
  }

  /** Whatever the bounds, a slice holds only items of the list. */
  lemma SliceIsPart<T>(s: seq<T>, start: real, end: real, x: T)
    requires x in Slice(s, start, end)
    ensures x in s
  {
    var from := RelativeIndex(Truncate(start), |s|);
    var to := RelativeIndex(Truncate(end), |s|);
    var k :| 0 <= k < to - from && s[from..to][k] == x;
    assert s[from + k] == x;
  }

  /**
   * Every submission the service answers with was sent by upstream and
   * passed the filter.
   */
  lemma AnsweredSubmissionsPassedTheFilter(formId: string, query: Query, parseFilter: ParseFilter, fetch: Fetch, bound: nat, corrected: bool, s: Submission)
    requires PageCountsBounded(fetch, formId, UpstreamEntries(query), bound)
    requires FilteredResponseBody(formId, query, parseFilter, fetch, bound, corrected).Success?
    requires s in FilteredResponseBody(formId, query, parseFilter, fetch, bound, corrected).value.responses
    ensures query.filter.Some? && parseFilter(query.filter.value).Success?
    ensures Answered(Pages(fetch, formId, UpstreamEntries(query), 0, bound), s)
    ensures Callback(parseFilter(query.filter.value).value, corrected)(s) == Success(true)
  {
    var filtered := FilteredList(formId, query, parseFilter, fetch, bound, corrected).value;
    assert FilteredResponseBody(formId, query, parseFilter, fetch, bound, corrected) == Success(PageOf(filtered, ClientLimit(query), ClientOffset(query)));
    PageHoldsOnlyFiltered(filtered, ClientLimit(query), ClientOffset(query), s);
    FilteredSubmissionsPassedTheFilter(formId, query, parseFilter, fetch, bound, corrected, s);
  }

  /** `count` is the least number of pages of `limit` items that hold `total` items. */
  predicate IsCeilingPageCount(total: nat, count: Option<int>, limit: nat)
  {
    count.Some? && 0 <= count.value && total <= count.value * limit &&
    (count.value == 0 || (count.value - 1) * limit < total)
  }

  /**
   * The answer counts every filtered submission, and with a limit the
   * client wrote as a positive whole number the page count is the least
   * number of pages of that size that hold them.
   */
  lemma AnswerCountsTheFilteredList(formId: string, query: Query, parseFilter: ParseFilter, fetch: Fetch, bound: nat, corrected: bool, limit: nat)
    requires PageCountsBounded(fetch, formId, UpstreamEntries(query), bound)
    requires FilteredList(formId, query, parseFilter, fetch, bound, corrected).Success?
    requires query.limit == Some(NatToString(limit)) && limit > 0
    ensures var r := FilteredResponseBody(formId, query, parseFilter, fetch, bound, corrected);
            var total := |FilteredList(formId, query, parseFilter, fetch, bound, corrected).value|;
            r.Success? && r.value.totalResponses == total && IsCeilingPageCount(total, r.value.pageCount, limit)
  {
    var filtered := FilteredList(formId, query, parseFilter, fetch, bound, corrected).value;
    var body := PageOf(filtered, ClientLimit(query), ClientOffset(query));
    assert FilteredResponseBody(formId, query, parseFilter, fetch, bound, corrected) == Success(body);
    DecimalLimitIsRead(query, limit);
    PageOfWholeLimit(filtered, limit, ClientOffset(query));
  }

  /** With a positive whole-number limit, the page count of the answer is the ceiling of total / limit. */
  lemma PageOfWholeLimit(filtered: seq<Submission>, limit: nat, offset: real)
    requires limit > 0
    ensures var body := PageOf(filtered, limit as real, offset);
            body.totalResponses == |filtered| && IsCeilingPageCount(|filtered|, body.pageCount, limit)
  {
    PageCountIsCeiling(|filtered|, limit);
  }

  /**
   * With no clauses the filtered list is every submission upstream sent,
   * in the order received.
   */
  lemma NoClausesKeepsEveryUpstreamSubmission(formId: string, query: Query, parseFilter: ParseFilter, fetch: Fetch, bound: nat, corrected: bool)
    requires PageCountsBounded(fetch, formId, UpstreamEntries(query), bound)
    requires query.filter.Some? && parseFilter(query.filter.value) == Success([])
    requires Collect(Pages(fetch, formId, UpstreamEntries(query), 0, bound)).Success?
    ensures FilteredList(formId, query, parseFilter, fetch, bound, corrected) == Collect(Pages(fetch, formId, UpstreamEntries(query), 0, bound))
    ensures |FilteredList(formId, query, parseFilter, fetch, bound, corrected).value| == TotalSize(Pages(fetch, formId, UpstreamEntries(query), 0, bound))
  {
    var pages := Pages(fetch, formId, UpstreamEntries(query), 0, bound);
    NoClausesKeepsEverything(Collect(pages).value, corrected);
    CollectLength(pages);
  }

  /**
   * With whole-number limit and offset written in decimal, the page is
   * the stretch of the filtered list that starts at the offset, at most
   * `limit` long.
   */
  lemma PageIsTheRequestedStretch(formId: string, query: Query, parseFilter: ParseFilter, fetch: Fetch, bound: nat, corrected: bool, limit: nat, offset: nat)
    requires PageCountsBounded(fetch, formId, UpstreamEntries(query), bound)
    requires query.limit == Some(NatToString(limit)) && query.offset == Some(NatToString(offset))
    requires FilteredList(formId, query, parseFilter, fetch, bound, corrected).Success?
    ensures var filtered := FilteredList(formId, query, parseFilter, fetch, bound, corrected).value;
            var from := if offset < |filtered| then offset else |filtered|;
            var to := if offset + limit < |filtered| then offset + limit else |filtered|;
            FilteredResponseBody(formId, query, parseFilter, fetch, bound, corrected).value.responses == filtered[from..to]
  {
    var filtered := FilteredList(formId, query, parseFilter, fetch, bound, corrected).value;
    assert FilteredResponseBody(formId, query, parseFilter, fetch, bound, corrected) == Success(PageOf(filtered, ClientLimit(query), ClientOffset(query)));
    DecimalLimitIsRead(query, limit);
    DecimalOffsetIsRead(query, offset);
    PageOfWholeNumbers(filtered, limit, offset);
  }

  /** With whole-number limit and offset, the page is the clipped stretch from the offset. */
  lemma PageOfWholeNumbers(filtered: seq<Submission>, limit: nat, offset: nat)
    ensures var from := if offset < |filtered| then offset else |filtered|;
            var to := if offset + limit < |filtered| then offset + limit else |filtered|;
            PageOf(filtered, limit as real, offset as real).responses == filtered[from..to]
  {
    SliceOfWholeNumbers(filtered, offset, limit);
    assert (offset as real) + (limit as real) == (offset + limit) as real;
  }

  /**
   * The handler fails with an unknown condition only when the filter parsed
   * and some upstream submission makes the filter callback throw.
   */
  lemma UnknownConditionComesFromAVerdict(formId: string, query: Query, parseFilter: ParseFilter, fetch: Fetch, bound: nat, corrected: bool)
    requires PageCountsBounded(fetch, formId, UpstreamEntries(query), bound)
    requires query.filter.Some? && parseFilter(query.filter.value).Success?
    requires Collect(Pages(fetch, formId, UpstreamEntries(query), 0, bound)).Success?
    ensures var all := Collect(Pages(fetch, formId, UpstreamEntries(query), 0, bound)).value;
            FilteredList(formId, query, parseFilter, fetch, bound, corrected).Failure? <==>
            exists i :: 0 <= i < |all| && Callback(parseFilter(query.filter.value).value, corrected)(all[i]).Failure?
  {
    var all := Collect(Pages(fetch, formId, UpstreamEntries(query), 0, bound)).value;
    FilterThrowsIffSomeVerdictThrows(all, Callback(parseFilter(query.filter.value).value, corrected));
  }
}
