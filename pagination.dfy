/** The cursor-paginated fetch loop of `fetchDocumentListApi`. The reading
    service is an abstract function from a request to its response. */
module Pagination {
  import opened Wrappers
  import opened Documents

  /** One request to the list endpoint: the credential sent in the
      `Authorization` header and the query parameters that were set. */
  datatype Request = Request(
    token: string,
    pageCursor: Option<string>,
    updatedAfter: Option<string>,
    location: Option<string>)

  /** What awaiting one request yields: `Failed` when the fetch rejects or the
      body has no `results` (the loop then throws), otherwise the page's
      results and its `nextPageCursor` (`None` for null or absent). */
  datatype Response = Failed | Page(results: seq<Document>, nextPageCursor: Option<string>)

  /** The reading service, answering every request. */
  type Server = Request -> Response

  /** JavaScript truthiness of an optional string: null, undefined and the
      empty string are falsy. */
  predicate Truthy(s: Option<string>) {
    s.Some? && s.value != ""
  }

  /** A query parameter is appended only when its value is truthy. */
  function KeepTruthy(s: Option<string>): (r: Option<string>)
    ensures r.Some? <==> Truthy(s)
    ensures r.Some? ==> r == s
  {
    if Truthy(s) then s else None
  }

  /** The request one pass of the loop sends for the current cursor. */
  function BuildRequest(token: string, cursor: Option<string>,
                        updatedAfter: Option<string>, location: Option<string>): (r: Request)
    ensures r.token == token
    ensures r.pageCursor.Some? <==> Truthy(cursor)
    ensures r.updatedAfter.Some? <==> Truthy(updatedAfter)
    ensures r.location.Some? <==> Truthy(location)
    ensures r.pageCursor.Some? ==> r.pageCursor == cursor
    ensures r.updatedAfter.Some? ==> r.updatedAfter == updatedAfter
    ensures r.location.Some? ==> r.location == location
  {
    Request(token, KeepTruthy(cursor), KeepTruthy(updatedAfter), KeepTruthy(location))
  }

  /** The loop asks for another page after this response. */
  predicate Continues(r: Response) {
    r.Page? && Truthy(r.nextPageCursor)
  }

  /** The cursor a response hands back (none when it failed). */
  function NextCursor(r: Response): Option<string> {
    if r.Page? then r.nextPageCursor else None
  }

  /** The results a response contributes (none when it failed). */
  function ResultsOf(r: Response): seq<Document> {
    if r.Page? then r.results else []
  }

  /** The results of the responses, appended in order. */
  function Concat(responses: seq<Response>): (docs: seq<Document>)
    decreases |responses|
  {
    if responses == [] then []
    else Concat(responses[..|responses| - 1]) + ResultsOf(responses[|responses| - 1])
  }

  /** The server's answers to the given requests, in order. */
  function Responses(serve: Server, requests: seq<Request>): (rs: seq<Response>)
    ensures |rs| == |requests|
    ensures forall i :: 0 <= i < |requests| ==> rs[i] == serve(requests[i])
  {
    seq(|requests|, i requires 0 <= i < |requests| => serve(requests[i]))
  }

  /** Following cursors from `cursor`, the server ends the chain (a falsy
      cursor or a failure) within `n` requests. */
  ghost predicate EndsWithin(serve: Server, token: string, updatedAfter: Option<string>,
                             location: Option<string>, cursor: Option<string>, n: nat)
    decreases n
  {
    n > 0 &&
    var r := serve(BuildRequest(token, cursor, updatedAfter, location));
    !Continues(r) || EndsWithin(serve, token, updatedAfter, location, NextCursor(r), n - 1)
  }

  /** `requests` were sent by the first passes of the loop, each of which was
      answered with a page asking for more, and `cursor` is the cursor the
      loop holds now: the first request carries none, each later one carries
      the cursor of the previous answer, and all carry the same filters. */
  ghost predicate IsPartialRun(serve: Server, token: string, updatedAfter: Option<string>,
                               location: Option<string>, requests: seq<Request>,
                               cursor: Option<string>)
  {
    (requests == [] ==> cursor == None) &&
    (requests != [] ==>
       requests[0] == BuildRequest(token, None, updatedAfter, location) &&
       cursor == NextCursor(serve(requests[|requests| - 1]))) &&
    (forall i :: 0 <= i < |requests| ==> Continues(serve(requests[i]))) &&
    (forall i :: 0 < i < |requests| ==>
       requests[i] == BuildRequest(token, NextCursor(serve(requests[i - 1])), updatedAfter, location))
  }

  /** `requests` is the whole exchange of one call: the first request carries
      no cursor, each later one carries the cursor of the previous answer,
      every answer but the last asks for more and the last one stops the loop. */
  ghost predicate IsRun(serve: Server, token: string, updatedAfter: Option<string>,
                        location: Option<string>, requests: seq<Request>)
  {
    |requests| > 0 &&
    requests[0] == BuildRequest(token, None, updatedAfter, location) &&
    (forall i :: 0 < i < |requests| ==>
       requests[i] == BuildRequest(token, NextCursor(serve(requests[i - 1])), updatedAfter, location)) &&
    (forall i :: 0 <= i < |requests| - 1 ==> Continues(serve(requests[i]))) &&
    !Continues(serve(requests[|requests| - 1]))
  }

  /** What a call resolves to after the exchange `requests`: it throws when the
      last answer failed, and otherwise returns all results in page order. */
  function RunOutcome(serve: Server, requests: seq<Request>): Result<seq<Document>>
    requires |requests| > 0
  {
    if serve(requests[|requests| - 1]).Failed? then Err
    else Ok(Concat(Responses(serve, requests)))
  }

  /** Appending one response appends its results. */
  lemma ResponsesSnoc(serve: Server, requests: seq<Request>, r: Request)
    ensures Concat(Responses(serve, requests + [r]))
         == Concat(Responses(serve, requests)) + ResultsOf(serve(r))
  {
    var rs := Responses(serve, requests + [r]);
    assert rs[..|rs| - 1] == Responses(serve, requests);
  }

  /** A pass whose answer asks for more extends a partial run. */
  lemma ExtendPartialRun(serve: Server, token: string, updatedAfter: Option<string>,
                         location: Option<string>, requests: seq<Request>,
                         cursor: Option<string>, request: Request)
    requires IsPartialRun(serve, token, updatedAfter, location, requests, cursor)
    requires request == BuildRequest(token, cursor, updatedAfter, location)
    requires Continues(serve(request))
    ensures IsPartialRun(serve, token, updatedAfter, location, requests + [request],
                         NextCursor(serve(request)))
  {
  }

  /** A pass whose answer stops the loop completes a run. */
  lemma FinishRun(serve: Server, token: string, updatedAfter: Option<string>,
                  location: Option<string>, requests: seq<Request>,
                  cursor: Option<string>, request: Request)
    requires IsPartialRun(serve, token, updatedAfter, location, requests, cursor)
    requires request == BuildRequest(token, cursor, updatedAfter, location)
    requires !Continues(serve(request))
    ensures IsRun(serve, token, updatedAfter, location, requests + [request])
  {
  }

  /** `fetchDocumentListApi(token, updatedAfter, location)`: pages through the
      list endpoint until the cursor is falsy. `n` bounds the length of the
      server's cursor chain and only serves to prove termination. */
  method FetchDocumentList(serve: Server, token: string, updatedAfter: Option<string>,
                           location: Option<string>, ghost n: nat)
    returns (outcome: Result<seq<Document>>, ghost requests: seq<Request>)
    requires EndsWithin(serve, token, updatedAfter, location, None, n)
    ensures IsRun(serve, token, updatedAfter, location, requests)
    ensures outcome == RunOutcome(serve, requests)
  {
    var fullData: seq<Document> := [];
    var cursor: Option<string> := None;
    requests := [];
    ghost var fuel := n;
    while true
      invariant EndsWithin(serve, token, updatedAfter, location, cursor, fuel)
      invariant IsPartialRun(serve, token, updatedAfter, location, requests, cursor)
      invariant fullData == Concat(Responses(serve, requests))
      decreases fuel
    {
      ghost var sent := cursor;
      var request := BuildRequest(token, cursor, updatedAfter, location);
      var response := serve(request);
      ResponsesSnoc(serve, requests, request);
      if response.Failed? {
        FinishRun(serve, token, updatedAfter, location, requests, sent, request);
        requests := requests + [request];
        outcome := Err;
        return;
      }
      fullData := fullData + response.results;
      cursor := response.nextPageCursor;
      if !Truthy(cursor) {
        FinishRun(serve, token, updatedAfter, location, requests, sent, request);
        requests := requests + [request];
        break;
      }
      ExtendPartialRun(serve, token, updatedAfter, location, requests, sent, request);
      requests := requests + [request];
      fuel := fuel - 1;
    }
    outcome := Ok(fullData);
  }

  /** Two runs against the same server agree request by request. */
  lemma {:induction false} RunsAgree(serve: Server, token: string, updatedAfter: Option<string>,
                                     location: Option<string>, r1: seq<Request>,
                                     r2: seq<Request>, i: nat)
    requires IsRun(serve, token, updatedAfter, location, r1)
    requires IsRun(serve, token, updatedAfter, location, r2)
    requires i < |r1| && i < |r2|
    ensures r1[i] == r2[i]
  {
    if i > 0 {
      RunsAgree(serve, token, updatedAfter, location, r1, r2, i - 1);
    }
  }

  /** The exchange is determined by the server: there is exactly one run, so
      the number of requests the loop sends is fixed. */
  lemma RunUnique(serve: Server, token: string, updatedAfter: Option<string>,
                  location: Option<string>, r1: seq<Request>, r2: seq<Request>)
    requires IsRun(serve, token, updatedAfter, location, r1)
    requires IsRun(serve, token, updatedAfter, location, r2)
    ensures r1 == r2
  {
    if |r1| < |r2| {
      RunsAgree(serve, token, updatedAfter, location, r1, r2, |r1| - 1);
    } else if |r2| < |r1| {
      RunsAgree(serve, token, updatedAfter, location, r1, r2, |r2| - 1);
    } else {
      forall i | 0 <= i < |r1|
        ensures r1[i] == r2[i]
      {
        RunsAgree(serve, token, updatedAfter, location, r1, r2, i);
      }
    }
  }

  /** Every request of a run sends the same credential and the filters that
      are truthy, and no others; the first carries no cursor and each later
      one exactly the (truthy) cursor of the previous answer. */
  lemma RequestsOfARun(serve: Server, token: string, updatedAfter: Option<string>,
                       location: Option<string>, requests: seq<Request>)
    requires IsRun(serve, token, updatedAfter, location, requests)
    ensures forall i :: 0 <= i < |requests| ==>
      requests[i].token == token &&
      (requests[i].updatedAfter.Some? <==> Truthy(updatedAfter)) &&
      (requests[i].updatedAfter.Some? ==> requests[i].updatedAfter == updatedAfter) &&
      (requests[i].location.Some? <==> Truthy(location)) &&
      (requests[i].location.Some? ==> requests[i].location == location)
    ensures requests[0].pageCursor == None
    ensures forall i :: 0 < i < |requests| ==>
      Truthy(requests[i].pageCursor) &&
      requests[i].pageCursor == NextCursor(serve(requests[i - 1]))
  {
    forall i | 0 < i < |requests|
      ensures Truthy(requests[i].pageCursor)
      ensures requests[i].pageCursor == NextCursor(serve(requests[i - 1]))
    {
      assert Continues(serve(requests[i - 1]));
    }
    forall i | 0 <= i < |requests|
      ensures requests[i] == BuildRequest(token, requests[i].pageCursor, updatedAfter, location)
    {
      if i > 0 {
        assert requests[i] == BuildRequest(token, NextCursor(serve(requests[i - 1])), updatedAfter, location);
      }
    }
  }

  /** Pages P1..Pn that the server hands out one after the other, the first on
      a request without cursor and each next one on the cursor of the one
      before, every one but the last with a truthy cursor. */
  ghost predicate IsPageChain(serve: Server, token: string, updatedAfter: Option<string>,
                              location: Option<string>, pages: seq<Response>)
  {
    |pages| > 0 &&
    serve(BuildRequest(token, None, updatedAfter, location)) == pages[0] &&
    (forall i :: 0 <= i < |pages| - 1 ==>
       Continues(pages[i]) &&
       serve(BuildRequest(token, pages[i].nextPageCursor, updatedAfter, location)) == pages[i + 1]) &&
    pages[|pages| - 1].Page? && !Truthy(pages[|pages| - 1].nextPageCursor)
  }

  /** A run against a page chain receives the chain's pages one by one. */
  lemma {:induction false} RunFollowsChain(serve: Server, token: string, updatedAfter: Option<string>,
                                           location: Option<string>, pages: seq<Response>,
                                           requests: seq<Request>, i: nat)
    requires IsPageChain(serve, token, updatedAfter, location, pages)
    requires IsRun(serve, token, updatedAfter, location, requests)
    requires i < |requests| && i < |pages|
    ensures serve(requests[i]) == pages[i]
  {
    if i > 0 {
      RunFollowsChain(serve, token, updatedAfter, location, pages, requests, i - 1);
      assert Continues(pages[i - 1]);
    }
  }

  /** Given such a page chain, the loop sends exactly one request per page and
      returns the results of P1 through Pn in page order. */
  lemma PagesInOrder(serve: Server, token: string, updatedAfter: Option<string>,
                     location: Option<string>, pages: seq<Response>, requests: seq<Request>)
    requires IsPageChain(serve, token, updatedAfter, location, pages)
    requires IsRun(serve, token, updatedAfter, location, requests)
    ensures |requests| == |pages|
    ensures RunOutcome(serve, requests) == Ok(Concat(pages))
  {
    if |requests| < |pages| {
      RunFollowsChain(serve, token, updatedAfter, location, pages, requests, |requests| - 1);
    } else if |pages| < |requests| {
      RunFollowsChain(serve, token, updatedAfter, location, pages, requests, |pages| - 1);
    } else {
      forall i | 0 <= i < |requests|
        ensures serve(requests[i]) == pages[i]
      {
        RunFollowsChain(serve, token, updatedAfter, location, pages, requests, i);
      }
      assert Responses(serve, requests) == pages;
    }
  }

  /** A page chain ends within as many requests as it has pages left: from
      the cursor that leads to page k, at most `|pages| - k` more requests. */
  lemma {:induction false} ChainEndsWithin(serve: Server, token: string, updatedAfter: Option<string>,
                                           location: Option<string>, pages: seq<Response>, k: nat)
    requires IsPageChain(serve, token, updatedAfter, location, pages)
    requires k < |pages|
    ensures EndsWithin(serve, token, updatedAfter, location,
                       if k == 0 then None else pages[k - 1].nextPageCursor, |pages| - k)
    decreases |pages| - k
  {
    var cursor := if k == 0 then None else pages[k - 1].nextPageCursor;
    assert serve(BuildRequest(token, cursor, updatedAfter, location)) == pages[k];
    if k < |pages| - 1 {
      ChainEndsWithin(serve, token, updatedAfter, location, pages, k + 1);
      assert NextCursor(pages[k]) == pages[k].nextPageCursor;
    }
  }

  /** Fetching against a server that serves the chain P1..Pn sends exactly n
      requests and returns the pages' results in order. */
  method FetchAlongChain(serve: Server, token: string, updatedAfter: Option<string>,
                         location: Option<string>, ghost pages: seq<Response>)
    returns (outcome: Result<seq<Document>>, ghost requests: seq<Request>)
    requires IsPageChain(serve, token, updatedAfter, location, pages)
    ensures IsRun(serve, token, updatedAfter, location, requests)
    ensures |requests| == |pages|
    ensures outcome == Ok(Concat(pages))
  {
    ChainEndsWithin(serve, token, updatedAfter, location, pages, 0);
    outcome, requests := FetchDocumentList(serve, token, updatedAfter, location, |pages|);
    PagesInOrder(serve, token, updatedAfter, location, pages, requests);
  }

  /** A first answer with a null, absent or empty cursor ends the loop after
      one request, returning that page's results. */
  lemma StopsOnFalsyCursor(serve: Server, token: string, updatedAfter: Option<string>,
                           location: Option<string>, requests: seq<Request>,
                           docs: seq<Document>, cursor: Option<string>)
    requires !Truthy(cursor)
    requires serve(BuildRequest(token, None, updatedAfter, location)) == Page(docs, cursor)
    requires IsRun(serve, token, updatedAfter, location, requests)
    ensures requests == [BuildRequest(token, None, updatedAfter, location)]
    ensures RunOutcome(serve, requests) == Ok(docs)
  {
    assert |requests| == 1;
    var page := Page(docs, cursor);
    assert serve(requests[0]) == page;
    assert Responses(serve, requests) == [page];
    assert [page][..0] == [];
    assert Concat([page]) == Concat([]) + ResultsOf(page);
    assert [] + docs == docs;
    assert Concat(Responses(serve, requests)) == docs;
    assert !serve(requests[|requests| - 1]).Failed?;
  }

  /** The sum of the read counts of the individual pages. */
  function PageReadCounts(responses: seq<Response>, tag: string): nat
    decreases |responses|
  {
    if responses == [] then 0
    else PageReadCounts(responses[..|responses| - 1], tag) + ReadCount(ResultsOf(responses[|responses| - 1]), tag)
  }

  /** Counting the concatenated results counts each page and adds up. */
  lemma {:induction false} ReadCountOfPages(responses: seq<Response>, tag: string)
    ensures ReadCount(Concat(responses), tag) == PageReadCounts(responses, tag)
    decreases |responses|
  {
    if responses != [] {
      var n := |responses| - 1;
      ReadCountOfPages(responses[..n], tag);
      ReadCountAppend(Concat(responses[..n]), ResultsOf(responses[n]), tag);
    }
  }
}
