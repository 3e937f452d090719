/**
 * Collecting every submission of a form from the upstream API, one page of
 * `PAGE_SIZE` at a time, by moving the "offset" parameter forward until the
 * page count the API reports is reached.
 */
module Upstream {

  import opened Wrappers
  import opened JsValues
  import opened Types
  import opened UrlParams
  import opened Request

  /**
   * One request to the upstream API: the form id and the query parameters
   * go in, the decoded response body (or the error that the request, the
   * HTTP layer or the JSON decoding raised) comes out.
   */
  type Fetch = (string, seq<Entry>) -> Result<ResponseBody, Error>

  /** The parameters of the request for `page`: the base list with "offset" set to the page's first index. */
  function RequestParams(base: seq<Entry>, page: nat): seq<Entry>
  {
    SetEntry(base, "offset", NatToString(page * PAGE_SIZE))
  }

  /** The answer upstream gives to the request for `page`. */
  function Response(fetch: Fetch, formId: string, base: seq<Entry>, page: nat): Result<ResponseBody, Error>
  {
    fetch(formId, RequestParams(base, page))
  }

  /**
   * The page counts upstream reports never exceed `bound`. The number of
   * requests is decided by the upstream answers alone; this bound is what
   * makes the loop finite in the model.
   */
  ghost predicate PageCountsBounded(fetch: Fetch, formId: string, base: seq<Entry>, bound: nat)
  {
    1 <= bound &&
    forall page: nat :: Response(fetch, formId, base, page).Success? ==>
      Response(fetch, formId, base, page).value.pageCount <= bound
  }

  /**
   * The answers to the requests made from `page` on: a request is made for
   * `page`, and another for the next page when this one succeeded and the
   * page count it reports lies beyond it.
   */
  function Pages(fetch: Fetch, formId: string, base: seq<Entry>, page: nat, bound: nat): (pages: seq<Result<ResponseBody, Error>>)
    requires PageCountsBounded(fetch, formId, base, bound)
    ensures 1 <= |pages| && pages[0] == Response(fetch, formId, base, page)
    decreases bound - page
  {
    var answer := Response(fetch, formId, base, page);
    if answer.Success? && page + 1 < answer.value.pageCount then
      [answer] + Pages(fetch, formId, base, page + 1, bound)
    else
      [answer]
  }

  /** The submissions of the answers, in order, or the first error among them. */
  function Collect(pages: seq<Result<ResponseBody, Error>>): (r: Result<seq<Submission>, Error>)
  {
    if pages == [] then Success([])
    else match pages[0]
      case Failure(e) => Failure(e)
      case Success(body) => Prepend(body.responses, Collect(pages[1..]))
  }

  /**
   * Requests page 0, 1, 2, ... (each with "offset" set in `params`) until
   * the page count the last answer reports is reached, and returns all the
   * submissions in the order received; the first failing request ends the
   * loop with its error.
   */
  method GetAllResponses(formId: string, params: SearchParams, fetch: Fetch, ghost bound: nat)
    returns (r: Result<seq<Submission>, Error>)
    requires PageCountsBounded(fetch, formId, params.entries, bound)
    modifies params
    ensures r == Collect(Pages(fetch, formId, old(params.entries), 0, bound))
    ensures params.entries == RequestParams(old(params.entries), |Pages(fetch, formId, old(params.entries), 0, bound)| - 1)
  {
    ghost var base := params.entries;
    ghost var all := Pages(fetch, formId, base, 0, bound);
    var currentPage: nat := 0;
    var pageCount: int := 1;
    var allResponses: seq<Submission> := [];
    PrependNothing(Collect(all));
    while currentPage < pageCount
      invariant pageCount <= bound
      invariant currentPage == 0 ==> pageCount == 1 && params.entries == base
      invariant currentPage > 0 ==> params.entries == RequestParams(base, currentPage - 1)
      invariant currentPage < pageCount ==>
        Collect(all) == Prepend(allResponses, Collect(Pages(fetch, formId, base, currentPage, bound))) &&
        |all| == currentPage + |Pages(fetch, formId, base, currentPage, bound)|
      invariant pageCount <= currentPage ==> Collect(all) == Success(allResponses) && |all| == currentPage
      decreases bound - currentPage
    {
      var currentOffset := currentPage * PAGE_SIZE;
      if currentPage > 0 {
        SetTwice(base, "offset", NatToString((currentPage - 1) * PAGE_SIZE), NatToString(currentOffset));
      }
      params.Set("offset", NatToString(currentOffset));
      assert params.entries == RequestParams(base, currentPage);
      var rest := Pages(fetch, formId, base, currentPage, bound);
      var response := fetch(formId, params.entries);
      if response.Failure? {
        assert rest == [response];
        return Failure(response.error);
      }
      var responseBody := response.value;
      if currentPage + 1 < responseBody.pageCount {
        assert rest[1..] == Pages(fetch, formId, base, currentPage + 1, bound);
        PrependAssociative(allResponses, responseBody.responses, Collect(rest[1..]));
      } else {
        assert rest == [response] && rest[1..] == [];
        assert responseBody.responses + [] == responseBody.responses;
      }
      allResponses := allResponses + responseBody.responses;
      pageCount := responseBody.pageCount;
      currentPage := currentPage + 1;
    }
    r := Success(allResponses);
  }

  // ---------------------------------------------------------------------
  // Properties

  /**
   * The request for `page` carries exactly one "offset", whose text reads
   * back as `page * PAGE_SIZE`, and every other parameter as it was.
   */
  lemma RequestForPage(base: seq<Entry>, page: nat)
    ensures CountKey(RequestParams(base, page), "offset") == 1
    ensures Lookup(RequestParams(base, page), "offset") == Some(NatToString(page * PAGE_SIZE))
    ensures StringToNumber(NatToString(page * PAGE_SIZE)) == Num((page * PAGE_SIZE) as real)
    ensures RemoveKey(RequestParams(base, page), "offset") == RemoveKey(base, "offset")
  {
    SetLeavesOneEntry(base, "offset", NatToString(page * PAGE_SIZE));
    SetKeepsOtherEntries(base, "offset", NatToString(page * PAGE_SIZE));
    NumberOfNatToString(page * PAGE_SIZE);
  }

  /** The i-th request made from `page` on is the request for page `page + i`. */
  lemma {:induction false} PagesAreSuccessive(fetch: Fetch, formId: string, base: seq<Entry>, page: nat, bound: nat, i: nat)
    requires PageCountsBounded(fetch, formId, base, bound)
    requires i < |Pages(fetch, formId, base, page, bound)|
    ensures Pages(fetch, formId, base, page, bound)[i] == Response(fetch, formId, base, page + i)
    decreases i
  {
    if i > 0 {
      var pages := Pages(fetch, formId, base, page, bound);
      assert pages[1..] == Pages(fetch, formId, base, page + 1, bound);
      assert pages[i] == pages[1..][i - 1];
      PagesAreSuccessive(fetch, formId, base, page + 1, bound, i - 1);
    }
  }

  /**
   * Another request follows the i-th exactly when the i-th succeeded and the
   * page count it reports lies beyond the next page.
   */
  lemma {:induction false} PagesContinueExactlyWhenMoreArePromised(fetch: Fetch, formId: string, base: seq<Entry>, page: nat, bound: nat, i: nat)
    requires PageCountsBounded(fetch, formId, base, bound)
    requires i < |Pages(fetch, formId, base, page, bound)|
    ensures var pages := Pages(fetch, formId, base, page, bound);
            i + 1 < |pages| <==> pages[i].Success? && page + i + 1 < pages[i].value.pageCount
    decreases i
  {
    var pages := Pages(fetch, formId, base, page, bound);
    if i > 0 {
      assert pages[1..] == Pages(fetch, formId, base, page + 1, bound);
      assert pages[i] == pages[1..][i - 1];
      PagesContinueExactlyWhenMoreArePromised(fetch, formId, base, page + 1, bound, i - 1);
    }
  }

  /** Only the last request can have failed: a failure ends the loop. */
  lemma OnlyTheLastAnswerCanFail(fetch: Fetch, formId: string, base: seq<Entry>, page: nat, bound: nat, i: nat)
    requires PageCountsBounded(fetch, formId, base, bound)
    requires i + 1 < |Pages(fetch, formId, base, page, bound)|
    ensures Pages(fetch, formId, base, page, bound)[i].Success?
  {
    PagesContinueExactlyWhenMoreArePromised(fetch, formId, base, page, bound, i);
  }

  /** No more requests are made than the largest page count allows. */
  lemma {:induction false} PagesAtMostBound(fetch: Fetch, formId: string, base: seq<Entry>, page: nat, bound: nat)
    requires PageCountsBounded(fetch, formId, base, bound)
    ensures page + |Pages(fetch, formId, base, page, bound)| <= if page < bound then bound else page + 1
    decreases bound - page
  {
    var answer := Response(fetch, formId, base, page);
    if answer.Success? && page + 1 < answer.value.pageCount {
      PagesAtMostBound(fetch, formId, base, page + 1, bound);
    }
  }

  /**
   * Collecting succeeds exactly when every answer succeeded; otherwise it
   * fails with the error of the first failing answer.
   */
  lemma {:induction false} CollectFailsAtFirstFailure(pages: seq<Result<ResponseBody, Error>>)
    ensures Collect(pages).Success? <==> forall i :: 0 <= i < |pages| ==> pages[i].Success?
    ensures Collect(pages).Failure? ==>
      exists i :: 0 <= i < |pages| && pages[i] == Failure(Collect(pages).error) &&
        forall j :: 0 <= j < i ==> pages[j].Success?
    decreases |pages|
  {
    if pages != [] && pages[0].Success? {
      CollectFailsAtFirstFailure(pages[1..]);
      assert forall i :: 0 < i < |pages| ==> pages[i] == pages[1..][i - 1];
      if Collect(pages).Failure? {
        var k :| 0 <= k < |pages[1..]| && pages[1..][k] == Failure(Collect(pages[1..]).error) &&
          forall j :: 0 <= j < k ==> pages[1..][j].Success?;
        assert forall j :: 0 < j < k + 1 ==> pages[j] == pages[1..][j - 1];
        assert pages[k + 1] == Failure(Collect(pages).error);
      }
    }
  }

  /** Some successful answer holds `s`. */
  predicate Answered(pages: seq<Result<ResponseBody, Error>>, s: Submission)
  {
    exists i :: 0 <= i < |pages| && pages[i].Success? && s in pages[i].value.responses
  }

  /** A collected submission comes from some answer, and every answered submission is collected. */
  lemma {:induction false} CollectKeepsEverySubmission(pages: seq<Result<ResponseBody, Error>>, s: Submission)
    requires Collect(pages).Success?
    ensures s in Collect(pages).value <==> Answered(pages, s)
    decreases |pages|
  {
    if pages != [] {
      CollectKeepsEverySubmission(pages[1..], s);
      assert forall i :: 0 < i < |pages| ==> pages[i] == pages[1..][i - 1];
      if s in Collect(pages[1..]).value {
        var k :| 0 <= k < |pages[1..]| && pages[1..][k].Success? && s in pages[1..][k].value.responses;
        assert pages[k + 1] == pages[1..][k];
      }
    }
  }

  /**
   * The collected submissions are the submissions of every answer, in
   * order: as many as all the pages hold together.
   */
  lemma {:induction false} CollectLength(pages: seq<Result<ResponseBody, Error>>)
    requires Collect(pages).Success?
    ensures |Collect(pages).value| == TotalSize(pages)
    decreases |pages|
  {
    if pages != [] {
      CollectLength(pages[1..]);
    }
  }

  /** How many submissions the successful answers hold together. */
  function TotalSize(pages: seq<Result<ResponseBody, Error>>): nat
  {
    if pages == [] then 0
    else (if pages[0].Success? then |pages[0].value.responses| else 0) + TotalSize(pages[1..])
  }

  /**
   * An upstream that always reports three pages is asked three times, for
   * offsets 0, 150 and 300; the parameters are left at offset 300.
   */
  lemma ThreePagesThreeRequests(formId: string)
    ensures var fetch: Fetch := (f, ps) => Success(ResponseBody([], 0, 3));
            PageCountsBounded(fetch, formId, [], 3) &&
            |Pages(fetch, formId, [], 0, 3)| == 3 &&
            RequestParams([], 0) == [("offset", "0")] &&
            RequestParams([], 1) == [("offset", "150")] &&
            RequestParams([], 2) == [("offset", "300")]
  {
    var fetch: Fetch := (f, ps) => Success(ResponseBody([], 0, 3));
    assert PageCountsBounded(fetch, formId, [], 3);
    var p2 := Pages(fetch, formId, [], 2, 3);
    assert |p2| == 1;
    var p1 := Pages(fetch, formId, [], 1, 3);
    assert p1 == [p1[0]] + p2;
    assert NatToString(150) == "150" by {
      assert NatToString(15) == "15";
    }
    assert NatToString(300) == "300" by {
      assert NatToString(30) == "30";
    }
  }
}
