/**
 Paged, retried listing against an arbitrary server: `list_all` and the retry loop of
 `_send` in src/apim_mcp/clients/arm.py.
 */
module ArmListing {
  import opened Options

  const MAX_ATTEMPTS := 5
  const BASE_BACKOFF := 0.5
  const MAX_BACKOFF := 8.0

  /** The body of a page; an absent or empty nextLink is None. */
  datatype Page = Page(items: seq<string>, nextLink: Option<string>)

  datatype Attempt =
    | Response(status: int, retryAfter: Option<real>, page: Page)
    | TransportError

  /** The request for page `page` (from 0): the listing itself, or the link of the page before. */
  datatype Request = Request(page: nat, url: Option<string>)

  /** What the server does on the `n`-th attempt (from 1) of a request. */
  type Server = (Request, nat) -> Attempt

  datatype Sent = Received(page: Page) | SendFailed(last: Attempt)

  datatype ListResult = ListResult(items: seq<string>, truncated: bool, error: Option<Attempt>)

  // ----- one request with retries -----

  predicate Retryable(a: Attempt)
  {
    a.TransportError? || a.status == 429 || a.status >= 500
  }

  /** 0.5 * 2 ** (n - 1) */
  function Doubling(n: nat): real
  {
    if n <= 1 then BASE_BACKOFF else 2.0 * Doubling(n - 1)
  }

  /** The wait after the failed `n`-th attempt. */
  function Wait(a: Attempt, n: nat): real
  {
    if a.Response? && a.retryAfter.Some? then a.retryAfter.value
    else if Doubling(n) < MAX_BACKOFF then Doubling(n) else MAX_BACKOFF
  }

  /** The first attempt, from `n` on, that is not retried: it is not retryable, or it is the last allowed. */
  function LastAttempt(server: Server, request: Request, n: nat): (r: nat)
    requires 1 <= n <= MAX_ATTEMPTS
    ensures n <= r <= MAX_ATTEMPTS
    ensures forall i :: n <= i < r ==> Retryable(server(request, i))
    ensures r < MAX_ATTEMPTS ==> !Retryable(server(request, r))
    decreases MAX_ATTEMPTS - n
  {
    if n < MAX_ATTEMPTS && Retryable(server(request, n)) then LastAttempt(server, request, n + 1) else n
  }

  function Waits(server: Server, request: Request, n: nat): real
  {
    if n <= 1 then 0.0 else Waits(server, request, n - 1) + Wait(server(request, n - 1), n - 1)
  }

  function SendOutcome(server: Server, request: Request): Sent
  {
    var last := server(request, LastAttempt(server, request, 1));
    if Retryable(last) || last.status >= 400 then SendFailed(last) else Received(last.page)
  }

  /** `_send`, with its cost. */
  method Send(server: Server, request: Request) returns (sent: Sent, attempts: nat, waited: real)
    ensures sent == SendOutcome(server, request)
    ensures attempts == LastAttempt(server, request, 1) && waited == Waits(server, request, attempts)
  {
    attempts, waited := 1, 0.0;
    var response := server(request, 1);
    while Retryable(response) && attempts < MAX_ATTEMPTS
      invariant 1 <= attempts <= MAX_ATTEMPTS
      invariant response == server(request, attempts)
      invariant waited == Waits(server, request, attempts)
      invariant LastAttempt(server, request, attempts) == LastAttempt(server, request, 1)
      decreases MAX_ATTEMPTS - attempts
    {
      waited := waited + Wait(response, attempts);
      attempts := attempts + 1;
      response := server(request, attempts);
    }
    if Retryable(response) {
      return SendFailed(response), attempts, waited;
    }
    sent := if response.status >= 400 then SendFailed(response) else Received(response.page);
  }

  /** The failures worth another attempt: a connection that broke, throttling, an error of the server. */
  predicate IsTransient(a: Attempt)
  {
    match a
    case TransportError => true
    case Response(status, _, _) => status == 429 || 500 <= status
  }

  /** The `n`-th attempt is the first whose outcome is not transient. */
  ghost predicate SettledBy(server: Server, request: Request, n: nat)
  {
    && 1 <= n <= 5 && !IsTransient(server(request, n))
    && forall i :: 1 <= i < n ==> IsTransient(server(request, i))
  }

  lemma LastAttemptSettles(server: Server, request: Request)
    ensures var r := LastAttempt(server, request, 1);
            && (SettledBy(server, request, r)
                || (r == 5 && forall i :: 1 <= i <= 5 ==> IsTransient(server(request, i))))
            && forall n :: SettledBy(server, request, n) ==> n == r
  {
    var r := LastAttempt(server, request, 1);
    forall i
      ensures Retryable(server(request, i)) <==> IsTransient(server(request, i))
    {
    }
    if IsTransient(server(request, r)) {
      assert r == 5;
    } else {
      assert SettledBy(server, request, r);
    }
  }

  /** A request yields a page exactly when the first outcome that is not transient is no error, within five attempts. */
  lemma SendFailsExactlyWhen(server: Server, request: Request)
    ensures SendOutcome(server, request).SendFailed? <==>
         || (forall n :: 1 <= n <= 5 ==> IsTransient(server(request, n)))
         || (exists n :: SettledBy(server, request, n) && server(request, n).status >= 400)
    ensures forall n :: SettledBy(server, request, n) && server(request, n).status < 400 ==>
              SendOutcome(server, request) == Received(server(request, n).page)
  {
    hide SettledBy;
    LastAttemptSettles(server, request);
    var r := LastAttempt(server, request, 1);
    if SettledBy(server, request, r) {
      SettledIsNotTransient(server, request, r);
    }
  }

  lemma SettledIsNotTransient(server: Server, request: Request, n: nat)
    requires SettledBy(server, request, n)
    ensures 1 <= n <= 5 && !IsTransient(server(request, n))
  {
  }

  /** The wait after a failed attempt: what Retry-After says, or else 0.5, 1, 2 and 4 seconds in turn. */
  lemma WaitIs(a: Attempt, n: nat)
    requires 1 <= n <= 4
    ensures Wait(a, n)
         == match a
            case Response(_, Some(seconds), _) => seconds
            case _ => [0.5, 1.0, 2.0, 4.0][n - 1]
  {
    assert Doubling(1) == 0.5 && Doubling(2) == 1.0 && Doubling(3) == 2.0 && Doubling(4) == 4.0;
  }

  lemma WaitsAdd(server: Server, request: Request, n: nat)
    requires 1 <= n
    ensures Waits(server, request, 1) == 0.0
    ensures Waits(server, request, n + 1) == Waits(server, request, n) + Wait(server(request, n), n)
  {
  }

  /** Without Retry-After a request costs at most five attempts, and exactly this much waiting. */
  lemma SendIsBounded(server: Server, request: Request)
    requires forall n :: 1 <= n <= 5 && server(request, n).Response? ==> server(request, n).retryAfter.None?
    ensures var attempts := LastAttempt(server, request, 1);
            && 1 <= attempts <= 5
            && Waits(server, request, attempts) == [0.0, 0.5, 1.5, 3.5, 7.5][attempts - 1]
  {
    var attempts := LastAttempt(server, request, 1);
    forall n | 1 <= n <= 4
      ensures Wait(server(request, n), n) == [0.5, 1.0, 2.0, 4.0][n - 1]
    {
      WaitIs(server(request, n), n);
    }
    hide Wait, LastAttempt;
    WaitsAdd(server, request, 1);
    WaitsAdd(server, request, 2);
    WaitsAdd(server, request, 3);
    WaitsAdd(server, request, 4);
  }

  // ----- all pages -----

  /** The request for page `k`, which follows the link of the page before. */
  function RequestOf(server: Server, k: nat): Request
    decreases k, 0
  {
    if k == 0 then Request(0, None)
    else
      match Outcome(server, k - 1)
      case Received(page) => Request(k, page.nextLink)
      case SendFailed(_) => Request(k, None)
  }

  function Outcome(server: Server, k: nat): Sent
    decreases k, 1
  {
    SendOutcome(server, RequestOf(server, k))
  }

  /** The items of the first `n` pages. */
  function ItemsOf(server: Server, n: nat): seq<string>
  {
    if n == 0 then []
    else
      ItemsOf(server, n - 1)
      + match Outcome(server, n - 1) case Received(page) => page.items case SendFailed(_) => []
  }

  /** Page `k` arrives and points at another page. */
  predicate GoesOn(server: Server, k: nat)
  {
    Outcome(server, k).Received? && Outcome(server, k).page.nextLink.Some?
  }

  /** The page limit as the loop applies it: the first page is always asked for. */
  function PageLimit(maxPages: int): nat
  {
    if maxPages >= 1 then maxPages else 1
  }

  /** `r` is the outcome of listing after `pages` received pages: failed, cut off at the limit, or complete. */
  ghost predicate IsListing(server: Server, maxPages: int, r: ListResult, pages: nat)
  {
    && pages <= PageLimit(maxPages)
    && r.items == ItemsOf(server, pages)
    && (match r.error
        case Some(last) =>
          && !r.truncated && pages < PageLimit(maxPages)
          && (forall k :: 0 <= k < pages ==> GoesOn(server, k))
          && Outcome(server, pages) == SendFailed(last)
        case None =>
          && pages >= 1
          && (forall k :: 0 <= k < pages - 1 ==> GoesOn(server, k))
          && Outcome(server, pages - 1).Received?
          && (r.truncated <==> GoesOn(server, pages - 1))
          && (r.truncated ==> pages == PageLimit(maxPages)))
  }

  /** The server and the page limit leave exactly one outcome. */
  lemma ListingIsDetermined(server: Server, maxPages: int, r: ListResult, pages: nat, r': ListResult, pages': nat)
    requires IsListing(server, maxPages, r, pages) && IsListing(server, maxPages, r', pages')
    ensures r == r' && pages == pages'
  {
    hide Outcome;
    StopsEarlier(server, maxPages, r, pages, r', pages');
    StopsEarlier(server, maxPages, r', pages', r, pages);
  }

  lemma PagesBeforeTheLast(server: Server, maxPages: int, r: ListResult, pages: nat)
    requires IsListing(server, maxPages, r, pages)
    ensures forall k :: 0 <= k < pages ==> Outcome(server, k).Received?
    ensures forall k :: 0 <= k < pages - 1 ==> GoesOn(server, k)
  {
    forall k | 0 <= k < pages
      ensures Outcome(server, k).Received?
    {
      assert r.error.Some? || k < pages - 1 ==> GoesOn(server, k);
    }
  }

  lemma StopsEarlier(server: Server, maxPages: int, r: ListResult, pages: nat, r': ListResult, pages': nat)
    requires IsListing(server, maxPages, r, pages) && IsListing(server, maxPages, r', pages')
    ensures pages >= pages'
  {
    hide Outcome, ItemsOf;
    PagesBeforeTheLast(server, maxPages, r', pages');
  }

  /** The first request asks for the listing itself, every later one for the link of the page before. */
  lemma LinksAreFollowed(server: Server, k: nat)
    ensures RequestOf(server, 0) == Request(0, None)
    ensures GoesOn(server, k) ==>
              RequestOf(server, k + 1) == Request(k + 1, SendOutcome(server, RequestOf(server, k)).page.nextLink)
  {
    hide SendOutcome;
  }

  /** Page `k` stands in the listing right behind the pages before it. */
  lemma {:induction false} ItemsInOrder(server: Server, k: nat, n: nat)
    requires k < n && Outcome(server, k).Received?
    ensures ItemsOf(server, 0) == []
    ensures ItemsOf(server, k) + Outcome(server, k).page.items <= ItemsOf(server, n)
    ensures n == k + 1 ==> |ItemsOf(server, n)| == |ItemsOf(server, k)| + |Outcome(server, k).page.items|
    decreases n
  {
    hide Outcome;
    if n == k + 1 {
    } else {
      ItemsInOrder(server, k, n - 1);
    }
  }

  /** `list_all` */
  method ListAll(server: Server, maxPages: int) returns (r: ListResult)
    ensures exists pages: nat :: IsListing(server, maxPages, r, pages)
  {
    hide SendOutcome;
    var items: seq<string> := [];
    var nextUrl: Option<string> := None;
    var page := 0;
    while true
      invariant page < PageLimit(maxPages)
      invariant forall k :: 0 <= k < page ==> GoesOn(server, k)
      invariant items == ItemsOf(server, page)
      invariant Request(page, nextUrl) == RequestOf(server, page)
      decreases PageLimit(maxPages) - page
    {
      var sent, _, _ := Send(server, Request(page, nextUrl));
      assert sent == Outcome(server, page);
      if sent.SendFailed? {
        assert IsListing(server, maxPages, ListResult(items, false, Some(sent.last)), page);
        return ListResult(items, false, Some(sent.last));
      }
      items := items + sent.page.items;
      page := page + 1;
      nextUrl := sent.page.nextLink;
      ghost var stops := nextUrl.None? || page >= maxPages;
      assert stops ==> IsListing(server, maxPages, ListResult(items, nextUrl.Some?, None), page);
      if nextUrl.None? {
        return ListResult(items, false, None);
      }
      if page >= maxPages {
        return ListResult(items, true, None);
      }
    }
  }
}
