/**
 * `ReadwiseClient` of main.py: the rate limiter, the retrying request and
 * the two listings built on them (archived articles across pages, and one
 * article's highlights). Time is an abstract clock that only sleeping
 * advances; the server's answers are given as scripts of outcomes.
 */
module Readwise {
  import opened Wrappers
  import opened Articles
  import opened Sorting

  const RequestsPerMinute := 15
  const MinRequestInterval := 3
  const WindowLength := 60
  const MaxRetries := 3
  const RetryDelay := 5

  /** An abstract, non-decreasing clock. */
  class Clock {
    var now: nat

    constructor (start: nat)
      ensures now == start
    {
      now := start;
    }

    /** `time.sleep(d)`. */
    method Sleep(d: nat)
      modifies this
      ensures now == old(now) + d
    {
      now := now + d;
    }
  }

  /** The body of a listing response: `{}` or an object with `results` and an optional `nextPageCursor` ("" when absent). */
  datatype Listing = EmptyObject | Page(results: seq<Article>, nextPageCursor: string)

  /** The `Retry-After` header of a 429 response: absent, an integer, or text `int()` rejects. */
  datatype RetryAfter = Absent | Seconds(n: int) | Malformed

  /** What one physical GET produced. */
  datatype Attempt = Ok(body: Listing) | HttpError(status: int, retryAfter: RetryAfter) | TransportError

  /** The exception `_make_request` lets escape. */
  datatype Failure = HttpFailure(status: int) | TransportFailure | InvalidRetryAfter

  /** The outcome of `_make_request`: a JSON body, an exception, or the `{}` returned when every attempt was rate limited. */
  datatype RequestResult = Data(body: Listing) | Raised(failure: Failure) | Exhausted

  /** The outcome together with the number of attempts made and the retry sleeps, in order. */
  datatype RetryTrace = RetryTrace(result: RequestResult, used: nat, sleeps: seq<nat>)

  /** A 429 answer whose header leads to a sleep and a further attempt. */
  predicate SleepableRateLimit(a: Attempt) {
    a.HttpError? && a.status == 429 && (a.retryAfter.Absent? || (a.retryAfter.Seconds? && a.retryAfter.n >= 0))
  }

  /** The answer to attempt number i (from 0) leads to a further attempt. */
  predicate Retried(a: Attempt, i: nat) {
    SleepableRateLimit(a) || (a.TransportError? && i < MaxRetries - 1)
  }

  /** How long the retry loop sleeps after an answer it retries. */
  function RetrySleep(a: Attempt): nat {
    if a.HttpError? && a.retryAfter.Seconds? && a.retryAfter.n >= 0 then a.retryAfter.n else RetryDelay
  }

  /** The outcome of an answer that ends the retry loop at attempt i. */
  function Decisive(a: Attempt, i: nat): RequestResult
    requires !Retried(a, i)
  {
    match a
    case Ok(body) => Data(body)
    case HttpError(status, retryAfter) =>
      if status != 429 then Raised(HttpFailure(status)) else Raised(InvalidRetryAfter)
    case TransportError => Raised(TransportFailure)
  }

  function Sum(xs: seq<nat>): nat {
    if xs == [] then 0 else xs[0] + Sum(xs[1..])
  }

  /** The retry discipline of `_make_request` from attempt i on. */
  function RetryFrom(attempts: seq<Attempt>, i: nat): (t: RetryTrace)
    requires i <= MaxRetries <= |attempts|
    ensures i <= t.used <= MaxRetries
    ensures |t.sleeps| <= t.used - i
    decreases MaxRetries - i
  {
    if i == MaxRetries then RetryTrace(Exhausted, MaxRetries, [])
    else if Retried(attempts[i], i) then
      var rest := RetryFrom(attempts, i + 1);
      RetryTrace(rest.result, rest.used, [RetrySleep(attempts[i])] + rest.sleeps)
    else RetryTrace(Decisive(attempts[i], i), i + 1, [])
  }

  function Retry(attempts: seq<Attempt>): RetryTrace
    requires MaxRetries <= |attempts|
  {
    RetryFrom(attempts, 0)
  }

  /** The sleeps after attempts 0..j-1 when all of them are retried. */
  function SleepsBefore(attempts: seq<Attempt>, j: nat): (r: seq<nat>)
    requires j <= |attempts|
    ensures |r| == j
    ensures forall i :: 0 <= i < j ==> r[i] == RetrySleep(attempts[i])
  {
    if j == 0 then [] else SleepsBefore(attempts, j - 1) + [RetrySleep(attempts[j - 1])]
  }

  lemma {:induction false} RetryFromRetried(attempts: seq<Attempt>, i: nat, j: nat)
    requires i <= j <= MaxRetries <= |attempts|
    requires forall n :: i <= n < j ==> Retried(attempts[n], n)
    ensures RetryFrom(attempts, i).result == RetryFrom(attempts, j).result
    ensures RetryFrom(attempts, i).used == RetryFrom(attempts, j).used
    ensures RetryFrom(attempts, i).sleeps == SleepsBefore(attempts, j)[i..] + RetryFrom(attempts, j).sleeps
    decreases j - i
  {
    if i < j {
      RetryFromRetried(attempts, i + 1, j);
      ConsSlice(SleepsBefore(attempts, j), i, RetryFrom(attempts, j).sleeps);
    }
  }

  lemma ConsSlice(s: seq<nat>, i: nat, r: seq<nat>)
    requires i < |s|
    ensures s[i..] + r == [s[i]] + (s[i + 1..] + r)
  {
    assert s[i..] == [s[i]] + s[i + 1..];
  }

  /**
   * The retry loop ends at the first answer it does not retry: attempt j
   * is the last one made, the outcome is decided by that answer alone (an
   * HTTP error other than 429 is raised at once, a transport error only on
   * the last attempt), and before it the loop slept once per retried answer,
   * for `Retry-After` seconds or 5.
   */
  lemma RetryStopsAtFirstDecisive(attempts: seq<Attempt>, j: nat)
    requires j < MaxRetries <= |attempts|
    requires forall i :: 0 <= i < j ==> Retried(attempts[i], i)
    requires !Retried(attempts[j], j)
    ensures Retry(attempts).used == j + 1
    ensures Retry(attempts).result == Decisive(attempts[j], j)
    ensures Retry(attempts).sleeps == SleepsBefore(attempts, j)
  {
    RetryFromRetried(attempts, 0, j);
  }

  /** The index of the first answer the loop does not retry, or MaxRetries when it retries them all. */
  lemma FirstDecisive(attempts: seq<Attempt>) returns (j: nat)
    requires MaxRetries <= |attempts|
    ensures j <= MaxRetries
    ensures forall i :: 0 <= i < j ==> Retried(attempts[i], i)
    ensures j < MaxRetries ==> !Retried(attempts[j], j)
  {
    j := 0;
    while j < MaxRetries && Retried(attempts[j], j)
      invariant 0 <= j <= MaxRetries
      invariant forall i :: 0 <= i < j ==> Retried(attempts[i], i)
    {
      j := j + 1;
    }
  }

  /**
   * `{}` comes back exactly when the loop retried every answer: the first
   * two were 429s it could sleep on or transport errors, and the third a
   * 429. It then made three attempts and slept after each.
   */
  lemma RetryExhaustedIffAllRetried(attempts: seq<Attempt>)
    requires MaxRetries <= |attempts|
    ensures Retry(attempts).result == Exhausted <==> forall i :: 0 <= i < MaxRetries ==> Retried(attempts[i], i)
    ensures Retry(attempts).result == Exhausted ==>
              && Retry(attempts).used == MaxRetries
              && Retry(attempts).sleeps == SleepsBefore(attempts, MaxRetries)
              && SleepableRateLimit(attempts[MaxRetries - 1])
  {
    var j := FirstDecisive(attempts);
    if j < MaxRetries {
      RetryStopsAtFirstDecisive(attempts, j);
    } else {
      RetryFromRetried(attempts, 0, MaxRetries);
      assert SleepsBefore(attempts, MaxRetries)[0..] + [] == SleepsBefore(attempts, MaxRetries);
      assert Retried(attempts[MaxRetries - 1], MaxRetries - 1);
    }
  }

  /** A transport error escapes only from the third attempt. */
  lemma TransportRaisedOnlyOnLastAttempt(attempts: seq<Attempt>)
    requires MaxRetries <= |attempts|
    requires Retry(attempts).result == Raised(TransportFailure)
    ensures Retry(attempts).used == MaxRetries
    ensures attempts[MaxRetries - 1].TransportError?
  {
    RetryExhaustedIffAllRetried(attempts);
    var j := FirstDecisive(attempts);
    RetryStopsAtFirstDecisive(attempts, j);
  }

  /** Ids not yet processed, as the comprehension in `get_articles_with_highlights` keeps them. */
  function NewArticles(results: seq<Article>, processedIds: set<string>): seq<Article> {
    if results == [] then []
    else (if results[0].id !in processedIds then [results[0]] else []) + NewArticles(results[1..], processedIds)
  }

  /** An article is kept iff it is in the page and its id is not processed; the page never grows. */
  lemma {:induction false} NewArticlesSpec(results: seq<Article>, processedIds: set<string>)
    ensures |NewArticles(results, processedIds)| <= |results|
    ensures forall a :: a in NewArticles(results, processedIds) <==> a in results && a.id !in processedIds
  {
    if results != [] {
      var rest := results[1..];
      assert results == [results[0]] + rest;
      NewArticlesSpec(rest, processedIds);
    }
  }

  lemma {:induction false} NewArticlesAppend(a: seq<Article>, b: seq<Article>, processedIds: set<string>)
    ensures NewArticles(a + b, processedIds) == NewArticles(a, processedIds) + NewArticles(b, processedIds)
  {
    if a != [] {
      var rest := a[1..];
      assert (a + b)[1..] == rest + b;
      assert (a + b)[0] == a[0];
      NewArticlesAppend(rest, b, processedIds);
    } else {
      assert a + b == b;
    }
  }

  /** Every page script answers at least the three attempts `_make_request` may make. */
  predicate WellScripted(pages: seq<seq<Attempt>>) {
    forall k :: 0 <= k < |pages| ==> MaxRetries <= |pages[k]|
  }

  /** The outcome of `_make_request` for each page of the script. */
  function Outcomes(pages: seq<seq<Attempt>>): (r: seq<RequestResult>)
    requires WellScripted(pages)
    ensures |r| == |pages|
  {
    if pages == [] then [] else [Retry(pages[0]).result] + Outcomes(pages[1..])
  }

  /** Page k's outcome is what the retry loop makes of page k's answers. */
  lemma {:induction false} OutcomeAt(pages: seq<seq<Attempt>>, k: nat)
    requires WellScripted(pages)
    requires k < |pages|
    ensures Outcomes(pages)[k] == Retry(pages[k]).result
  {
    var rest := pages[1..];
    assert Outcomes(pages) == [Retry(pages[0]).result] + Outcomes(rest);
    if k > 0 {
      var j := k - 1;
      assert rest[j] == pages[k];
      OutcomeAt(rest, j);
    }
  }

  /** A request outcome that ends the page loop: no data, no object, or no further cursor. */
  predicate LastPage(r: RequestResult) {
    !(r.Data? && r.body.Page? && r.body.nextPageCursor != "")
  }

  /** The results of a request, if it returned a page. */
  function PageResults(r: RequestResult): seq<Article> {
    if r.Data? && r.body.Page? then r.body.results else []
  }

  /** What `get_articles_with_highlights` returns for a script of pages. */
  function Unprocessed(pages: seq<seq<Attempt>>, processedIds: set<string>): seq<Article>
    requires WellScripted(pages)
  {
    UnprocessedFrom(Outcomes(pages), 0, processedIds)
  }

  /** The articles the page loop still adds once it has reached page k, given each page's outcome. */
  function UnprocessedFrom(outcomes: seq<RequestResult>, k: nat, processedIds: set<string>): seq<Article>
    requires k <= |outcomes|
    decreases |outcomes| - k
  {
    if k == |outcomes| then []
    else
      var rest := if LastPage(outcomes[k]) then [] else UnprocessedFrom(outcomes, k + 1, processedIds);
      NewArticles(PageResults(outcomes[k]), processedIds) + rest
  }

  /** The results of the first k pages, concatenated. */
  function ResultsOf(outcomes: seq<RequestResult>, k: nat): seq<Article>
    requires k <= |outcomes|
  {
    if k == 0 then [] else ResultsOf(outcomes, k - 1) + PageResults(outcomes[k - 1])
  }

  /** The unprocessed articles of the first k pages, filtered page by page. */
  function Filtered(outcomes: seq<RequestResult>, processedIds: set<string>, k: nat): seq<Article>
    requires k <= |outcomes|
  {
    if k == 0 then [] else Filtered(outcomes, processedIds, k - 1) + NewArticles(PageResults(outcomes[k - 1]), processedIds)
  }

  /**
   * However paging stops, the articles found on the pages read so far are
   * kept: if the first k pages each carried a cursor and page k is the last
   * one, the listing is the unprocessed articles of pages 0..k in page order.
   */
  lemma ListingKeepsEarlierPages(pages: seq<seq<Attempt>>, processedIds: set<string>, k: nat)
    requires WellScripted(pages)
    requires k < |pages|
    requires forall j :: 0 <= j < k ==> !LastPage(Outcomes(pages)[j])
    requires LastPage(Outcomes(pages)[k])
    ensures Unprocessed(pages, processedIds) == NewArticles(ResultsOf(Outcomes(pages), k + 1), processedIds)
  {
    var outcomes := Outcomes(pages);
    assert Unprocessed(pages, processedIds) == UnprocessedFrom(outcomes, 0, processedIds);
    assert Filtered(outcomes, processedIds, 0) + UnprocessedFrom(outcomes, 0, processedIds)
           == UnprocessedFrom(outcomes, 0, processedIds);
    UnprocessedKeepsEarlierPages(outcomes, processedIds, 0, k);
    FilteredIsNewArticles(outcomes, processedIds, k + 1);
  }

  /** From page i on, the loop adds exactly the filtered pages i..k, where k is the first last page. */
  lemma {:induction false} UnprocessedKeepsEarlierPages(outcomes: seq<RequestResult>, processedIds: set<string>,
                                                        i: nat, k: nat)
    requires i <= k < |outcomes|
    requires forall j :: i <= j < k ==> !LastPage(outcomes[j])
    requires LastPage(outcomes[k])
    ensures Filtered(outcomes, processedIds, i) + UnprocessedFrom(outcomes, i, processedIds)
            == Filtered(outcomes, processedIds, k + 1)
    decreases k - i
  {
    if i == k {
      LastPageStep(outcomes, processedIds, k);
    } else {
      var here := NewArticles(PageResults(outcomes[i]), processedIds);
      var next := i + 1;
      assert Filtered(outcomes, processedIds, next) == Filtered(outcomes, processedIds, i) + here;
      assert UnprocessedFrom(outcomes, i, processedIds) == here + UnprocessedFrom(outcomes, next, processedIds);
      AppendShift(Filtered(outcomes, processedIds, i), here, UnprocessedFrom(outcomes, i, processedIds),
                  Filtered(outcomes, processedIds, next), UnprocessedFrom(outcomes, next, processedIds));
      UnprocessedKeepsEarlierPages(outcomes, processedIds, next, k);
    }
  }

  /** At the last page the loop adds that page's unprocessed articles and stops. */
  lemma LastPageStep(outcomes: seq<RequestResult>, processedIds: set<string>, k: nat)
    requires k < |outcomes|
    requires LastPage(outcomes[k])
    ensures Filtered(outcomes, processedIds, k) + UnprocessedFrom(outcomes, k, processedIds)
            == Filtered(outcomes, processedIds, k + 1)
  {
    var here := NewArticles(PageResults(outcomes[k]), processedIds);
    assert Filtered(outcomes, processedIds, k + 1) == Filtered(outcomes, processedIds, k) + here;
    assert UnprocessedFrom(outcomes, k, processedIds) == here + [];
  }

  /** Moving a middle piece from the right part of a concatenation to the left part. */
  lemma AppendShift<T>(left: seq<T>, middle: seq<T>, right: seq<T>, left': seq<T>, right': seq<T>)
    requires right == middle + right'
    requires left' == left + middle
    ensures left + right == left' + right'
  {
    SeqAssoc(left, middle, right');
  }

  /** Filtering page by page is filtering the concatenated pages. */
  lemma {:induction false} FilteredIsNewArticles(outcomes: seq<RequestResult>, processedIds: set<string>, k: nat)
    requires k <= |outcomes|
    ensures Filtered(outcomes, processedIds, k) == NewArticles(ResultsOf(outcomes, k), processedIds)
  {
    if k > 0 {
      var j := k - 1;
      var front := ResultsOf(outcomes, j);
      var page := PageResults(outcomes[j]);
      assert Filtered(outcomes, processedIds, k) == Filtered(outcomes, processedIds, j) + NewArticles(page, processedIds);
      assert ResultsOf(outcomes, k) == front + page;
      FilteredIsNewArticles(outcomes, processedIds, j);
      NewArticlesAppend(front, page, processedIds);
    }
  }

  /** What the rest of the listing is, given the outcome of the request for page k. */
  lemma PageStep(outcomes: seq<RequestResult>, k: nat, processedIds: set<string>)
    requires k < |outcomes|
    ensures var data := outcomes[k];
            data.Raised? || data.Exhausted? || data.body.EmptyObject? ==>
              UnprocessedFrom(outcomes, k, processedIds) == []
    ensures var data := outcomes[k];
            data.Data? && data.body.Page? && data.body.nextPageCursor == "" ==>
              UnprocessedFrom(outcomes, k, processedIds) == NewArticles(data.body.results, processedIds)
    ensures var data := outcomes[k];
            data.Data? && data.body.Page? && data.body.nextPageCursor != "" ==>
              && !LastPage(data)
              && UnprocessedFrom(outcomes, k, processedIds)
                 == NewArticles(data.body.results, processedIds) + UnprocessedFrom(outcomes, k + 1, processedIds)
  {
    var data := outcomes[k];
    if data.Raised? || data.Exhausted? || data.body.EmptyObject? {
      assert NewArticles([], processedIds) + [] == [];
    }
  }

  /** Nothing already processed is ever returned, from whichever page on. */
  lemma {:induction false} UnprocessedAvoidsProcessed(outcomes: seq<RequestResult>, processedIds: set<string>, k: nat)
    requires k <= |outcomes|
    ensures forall a :: a in UnprocessedFrom(outcomes, k, processedIds) ==> a.id !in processedIds
    decreases |outcomes| - k
  {
    if k < |outcomes| {
      var next := k + 1;
      var here := NewArticles(PageResults(outcomes[k]), processedIds);
      assert UnprocessedFrom(outcomes, k, processedIds)
             == here + (if LastPage(outcomes[k]) then [] else UnprocessedFrom(outcomes, next, processedIds));
      UnprocessedAvoidsProcessed(outcomes, processedIds, next);
      NewArticlesSpec(PageResults(outcomes[k]), processedIds);
    }
  }

  /**
   * The `try`/`except` of one attempt in `_make_request`: a decisive answer
   * ends the loop with its result; a retried one is slept out first.
   */
  method HandleAttempt(clock: Clock, outcome: Attempt, attempt: nat) returns (decided: Option<RequestResult>)
    requires attempt < MaxRetries
    modifies clock
    ensures decided.None? <==> Retried(outcome, attempt)
    ensures decided.Some? ==> decided.value == Decisive(outcome, attempt)
    ensures clock.now == old(clock.now) + (if Retried(outcome, attempt) then RetrySleep(outcome) else 0)
  {
    match outcome {
      case Ok(body) =>
        return Some(Data(body));
      case HttpError(status, retryAfter) =>
        if status != 429 {
          return Some(Raised(HttpFailure(status)));
        }
        match retryAfter {
          case Absent =>
            clock.Sleep(RetryDelay);
          case Seconds(n) =>
            if n < 0 {
              return Some(Raised(InvalidRetryAfter));
            }
            clock.Sleep(n);
          case Malformed =>
            return Some(Raised(InvalidRetryAfter));
        }
      case TransportError =>
        if attempt == MaxRetries - 1 {
          return Some(Raised(TransportFailure));
        }
        clock.Sleep(RetryDelay);
    }
    return None;
  }

  /** The answer to the highlight listing request of `get_highlights_for_article`. */
  datatype HighlightReply = HighlightListing(results: seq<Highlight>) | HighlightRequestFailed

  class ReadwiseClient {
    const token: string
    const clock: Clock
    var lastRequestTime: int
    var requestCount: nat
    var windowStart: int
    /** The clock readings at which requests were let through, oldest first. */
    ghost var dispatches: seq<int>

    ghost predicate Valid()
      reads this
    {
      && requestCount <= RequestsPerMinute
      && (|dispatches| > 0 ==> dispatches[|dispatches| - 1] == lastRequestTime)
      && (forall i :: 0 < i < |dispatches| ==> dispatches[i - 1] + MinRequestInterval <= dispatches[i])
    }

    constructor (token: string, clock: Clock)
      ensures Valid()
      ensures this.token == token && this.clock == clock
      ensures lastRequestTime == 0 && requestCount == 0 && windowStart == clock.now
      ensures dispatches == []
    {
      this.token := token;
      this.clock := clock;
      lastRequestTime := 0;
      requestCount := 0;
      windowStart := clock.now;
      dispatches := [];
    }

    /** How long the minimum-interval rule sleeps at time now. */
    static function IntervalWait(now: int, last: int): nat {
      if now - last < MinRequestInterval then MinRequestInterval - (now - last) else 0
    }

    /** How long the per-minute rule sleeps at time now. */
    static function WindowWait(now: int, start: int, count: nat): nat {
      if now - start < WindowLength && count >= RequestsPerMinute then WindowLength - (now - start) else 0
    }

    /**
     * `_wait_for_rate_limit`: keeps at least MinRequestInterval between
     * requests and at most RequestsPerMinute per window, sleeping out the
     * rest of the window when the cap is reached.
     */
    method WaitForRateLimit()
      requires Valid()
      modifies this, clock
      ensures Valid()
      ensures 1 <= requestCount <= RequestsPerMinute
      ensures lastRequestTime == clock.now
      ensures lastRequestTime >= old(lastRequestTime) + MinRequestInterval
      ensures dispatches == old(dispatches) + [lastRequestTime]
      ensures clock.now == old(clock.now) + IntervalWait(old(clock.now), old(lastRequestTime))
                           + WindowWait(old(clock.now), old(windowStart), old(requestCount))
      ensures old(clock.now) - old(windowStart) >= WindowLength ==>
                windowStart == old(clock.now) && requestCount == 1
      ensures old(clock.now) - old(windowStart) < WindowLength && old(requestCount) >= RequestsPerMinute ==>
                windowStart == clock.now && windowStart >= old(windowStart) + WindowLength && requestCount == 1
      ensures old(clock.now) - old(windowStart) < WindowLength && old(requestCount) < RequestsPerMinute ==>
                windowStart == old(windowStart) && requestCount == old(requestCount) + 1
    {
      var currentTime := clock.now;
      var timeSinceLastRequest := currentTime - lastRequestTime;
      if timeSinceLastRequest < MinRequestInterval {
        clock.Sleep(MinRequestInterval - timeSinceLastRequest);
      }
      var windowElapsed := currentTime - windowStart;
      if windowElapsed >= WindowLength {
        requestCount := 0;
        windowStart := currentTime;
      } else if requestCount >= RequestsPerMinute {
        clock.Sleep(WindowLength - windowElapsed);
        requestCount := 0;
        windowStart := clock.now;
      }
      requestCount := requestCount + 1;
      lastRequestTime := clock.now;
      dispatches := dispatches + [lastRequestTime];
    }

    /**
     * `_make_request`: up to three attempts, each after the rate limiter.
     * The outcome and the retry sleeps are those of `Retry`; the limiter let
     * one request through per attempt.
     */
    method MakeRequest(attempts: seq<Attempt>) returns (r: RequestResult)
      requires Valid()
      requires MaxRetries <= |attempts|
      modifies this, clock
      ensures Valid()
      ensures r == Retry(attempts).result
      ensures |dispatches| == |old(dispatches)| + Retry(attempts).used
      ensures clock.now >= old(clock.now) + Sum(Retry(attempts).sleeps)
    {
      ghost var slept: seq<nat> := [];
      for attempt := 0 to MaxRetries
        invariant Valid()
        invariant |dispatches| == |old(dispatches)| + attempt
        invariant clock.now >= old(clock.now) + Sum(slept)
        invariant forall i :: 0 <= i < attempt ==> Retried(attempts[i], i)
        invariant slept == SleepsBefore(attempts, attempt)
      {
        var outcome := attempts[attempt];
        var decided := TryOnce(outcome, attempt);
        if decided.Some? {
          RetryStopsAtFirstDecisive(attempts, attempt);
          return decided.value;
        }
        SumSnoc(slept, RetrySleep(outcome));
        slept := slept + [RetrySleep(outcome)];
      }
      RetryFromRetried(attempts, 0, MaxRetries);
      assert Retry(attempts).sleeps == slept by {
        assert SleepsBefore(attempts, MaxRetries)[0..] + [] == slept;
      }
      return Exhausted;
    }

    /** One attempt of `_make_request`: the rate limiter, one request, and the handling of its answer. */
    method TryOnce(outcome: Attempt, attempt: nat) returns (decided: Option<RequestResult>)
      requires Valid()
      requires attempt < MaxRetries
      modifies this, clock
      ensures Valid()
      ensures |dispatches| == |old(dispatches)| + 1
      ensures decided.None? <==> Retried(outcome, attempt)
      ensures decided.Some? ==> decided.value == Decisive(outcome, attempt)
      ensures clock.now >= old(clock.now) + (if Retried(outcome, attempt) then RetrySleep(outcome) else 0)
    {
      WaitForRateLimit();
      decided := HandleAttempt(clock, outcome, attempt);
    }

    /**
     * `get_articles_with_highlights`: follows the page cursor until a page
     * has none, the request returns nothing, or it raises, and keeps the
     * articles whose ids were not processed yet. Also returns the running
     * total the source logs.
     */
    method GetArticlesWithHighlights(processedIds: set<string>, pages: seq<seq<Attempt>>)
      returns (allArticles: seq<Article>, totalFetched: nat)
      requires Valid()
      requires WellScripted(pages)
      requires exists k :: 0 <= k < |pages| && LastPage(Outcomes(pages)[k])
      modifies this, clock
      ensures Valid()
      ensures allArticles == Unprocessed(pages, processedIds)
      ensures totalFetched == |allArticles|
    {
      allArticles := [];
      totalFetched := 0;
      var k := 0;
      ghost var stop :| 0 <= stop < |pages| && LastPage(Outcomes(pages)[stop]);
      while true
        invariant 0 <= k <= stop
        invariant Valid()
        invariant Unprocessed(pages, processedIds) == allArticles + UnprocessedFrom(Outcomes(pages), k, processedIds)
        invariant totalFetched == |allArticles|
        decreases stop - k
      {
        var more;
        allArticles, totalFetched, more := FetchPage(pages, k, processedIds, allArticles, totalFetched, stop);
        if !more {
          break;
        }
        k := k + 1;
      }
    }

    /**
     * One iteration of the page loop: requests page k, adds its unprocessed
     * articles to those gathered so far and the running total, and says
     * whether the loop goes on to the next page (the page was a listing with
     * a non-empty cursor).
     */
    method FetchPage(pages: seq<seq<Attempt>>, k: nat, processedIds: set<string>,
                     gathered: seq<Article>, fetched: nat, ghost stop: nat)
      returns (allArticles: seq<Article>, totalFetched: nat, more: bool)
      requires Valid()
      requires WellScripted(pages) && k <= stop < |pages| && LastPage(Outcomes(pages)[stop])
      requires fetched == |gathered|
      modifies this, clock
      ensures Valid()
      ensures totalFetched == |allArticles|
      ensures !more ==> gathered + UnprocessedFrom(Outcomes(pages), k, processedIds) == allArticles
      ensures more ==>
                && k < stop
                && gathered + UnprocessedFrom(Outcomes(pages), k, processedIds)
                   == allArticles + UnprocessedFrom(Outcomes(pages), k + 1, processedIds)
    {
      var data := MakeRequest(pages[k]);
      OutcomeAt(pages, k);
      PageStep(Outcomes(pages), k, processedIds);
      allArticles, totalFetched := gathered, fetched;
      if data.Raised? || data.Exhausted? || data.body.EmptyObject? {
        assert gathered + [] == gathered;
        return allArticles, totalFetched, false;
      }
      var newArticles := NewArticles(data.body.results, processedIds);
      if newArticles != [] {
        allArticles := allArticles + newArticles;
        totalFetched := totalFetched + |newArticles|;
      }
      assert allArticles == gathered + newArticles;
      more := data.body.nextPageCursor != "";
      if more {
        assert k != stop;
        SeqAssoc(gathered, newArticles, UnprocessedFrom(Outcomes(pages), k + 1, processedIds));
      }
    }

    /**
     * `get_highlights_for_article`: one rate-limited listing request, no
     * retry; the article's highlights by creation time, or none when the
     * request failed.
     */
    method GetHighlightsForArticle(articleId: string, reply: HighlightReply) returns (highlights: seq<Highlight>)
      requires Valid()
      modifies this, clock
      ensures Valid()
      ensures |dispatches| == |old(dispatches)| + 1
      ensures highlights == if reply.HighlightListing? then HighlightsOf(reply.results, articleId) else []
    {
      WaitForRateLimit();
      highlights := [];
      match reply {
        case HighlightListing(results) =>
          var articleHighlights := FilterByParent(results, articleId);
          if articleHighlights != [] {
            highlights := highlights + SortBy(articleHighlights, CreatedAtKey, StrLe);
          }
        case HighlightRequestFailed =>
      }
    }
  }

  lemma SumSnoc(xs: seq<nat>, x: nat)
    ensures Sum(xs + [x]) == Sum(xs) + x
  {
    if xs != [] {
      assert (xs + [x])[1..] == xs[1..] + [x];
      SumSnoc(xs[1..], x);
    }
  }
}
