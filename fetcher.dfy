/**
 * Page retrieval of the Python crawler: `fetch_html`, the static GET with a
 * bounded retry loop, and `fetch_dynamic`, the headless-browser fallback.
 *
 * The network and the browser are oracles: `get(a)` is what the a-th GET
 * attempt of the URL produced, and the browser's two navigations are given
 * by their outcomes. Sleeping (the request delay and the backoff) changes no
 * state and is not modelled.
 */
module Fetcher {
  import opened Strings

  /** What one GET attempt produced, as aiohttp reports it. */
  datatype HttpReply =
    | Reply(status: int, contentType: string, body: string)
    | TimedOut       // asyncio.TimeoutError
    | ClientFailure  // any other aiohttp.ClientError: refused or reset connection, bad payload, ...
    | OtherFailure   // any other exception; fetch_html does not catch it

  /** The result of a fetch: the page, no content (None), or an exception that escapes. */
  datatype FetchOutcome = Html(html: string) | NoContent | Raised

  /** The statuses fetch_html turns into a ClientResponseError, and so retries. */
  const RETRYABLE_STATUSES: set<int> := {403, 429, 500, 502, 503, 504}

  predicate IsHtmlType(contentType: string) {
    Contains(contentType, "text/html") || Contains(contentType, "application/xhtml+xml")
  }

  /** An attempt that ends in the `except (asyncio.TimeoutError, aiohttp.ClientError)` branch. */
  predicate Retryable(r: HttpReply) {
    r.TimedOut? || r.ClientFailure? || (r.Reply? && r.status in RETRYABLE_STATUSES)
  }

  /** The outcome of an attempt that does not fail retryably. */
  function Settle(r: HttpReply): FetchOutcome
    requires !Retryable(r)
  {
    if r.OtherFailure? then Raised
    else if !IsHtmlType(r.contentType) then NoContent
    else Html(r.body)
  }

  /**
   * The specification of fetch_html from attempt `attempt` on: its outcome and
   * the number of GET attempts it makes. Attempts run from 0 to `maxRetries`;
   * a retryable failure on the last one gives up with no content.
   */
  function Attempts(get: nat -> HttpReply, attempt: nat, maxRetries: int): (r: (FetchOutcome, nat))
    decreases maxRetries - attempt + 1
  {
    if attempt > maxRetries then (NoContent, 0)
    else if !Retryable(get(attempt)) then (Settle(get(attempt)), 1)
    else if attempt >= maxRetries then (NoContent, 1)
    else
      var rest := Attempts(get, attempt + 1, maxRetries);
      (rest.0, rest.1 + 1)
  }

  function FetchSpec(get: nat -> HttpReply, maxRetries: int): (FetchOutcome, nat) {
    Attempts(get, 0, maxRetries)
  }

  /** `fetch_html`: the loop over `range(max_retries + 1)` with its early returns. */
  method FetchHtml(get: nat -> HttpReply, maxRetries: int) returns (outcome: FetchOutcome, ghost attempts: nat)
    ensures (outcome, attempts) == FetchSpec(get, maxRetries)
  {
    var attempt: nat := 0;
    attempts := 0;
    while attempt < maxRetries + 1
      invariant attempt == attempts
      invariant attempt <= maxRetries + 1 || attempt == 0
      invariant forall a :: 0 <= a < attempt ==> Retryable(get(a))
      invariant FetchSpec(get, maxRetries) == (Attempts(get, attempt, maxRetries).0, Attempts(get, attempt, maxRetries).1 + attempt)
      decreases maxRetries + 1 - attempt
    {
      var reply := get(attempt);
      attempts := attempts + 1;
      if Retryable(reply) {
        if attempt >= maxRetries {
          return NoContent, attempts;
        }
        // the backoff sleep of backoff_base * 2^attempt plus jitter goes here
      } else if reply.OtherFailure? {
        return Raised, attempts;
      } else if !IsHtmlType(reply.contentType) {
        return NoContent, attempts;
      } else {
        return Html(reply.body), attempts;
      }
      attempt := attempt + 1;
    }
    return NoContent, attempts;
  }

  /** fetch_html makes at most max_retries + 1 attempts, and at least one when max_retries >= 0. */
  lemma {:induction false} AttemptsBound(get: nat -> HttpReply, attempt: nat, maxRetries: int)
    ensures attempt <= maxRetries ==> 1 <= Attempts(get, attempt, maxRetries).1 <= maxRetries + 1 - attempt
    ensures attempt > maxRetries ==> Attempts(get, attempt, maxRetries).1 == 0
    decreases maxRetries - attempt + 1
  {
    if attempt < maxRetries && Retryable(get(attempt)) {
      AttemptsBound(get, attempt + 1, maxRetries);
    }
  }

  /** A host that fails retryably on every attempt gets exactly max_retries + 1 attempts, then no content. */
  lemma {:induction false} AlwaysFailingExhausts(get: nat -> HttpReply, attempt: nat, maxRetries: int)
    requires attempt <= maxRetries
    requires forall a :: attempt <= a <= maxRetries ==> Retryable(get(a))
    ensures Attempts(get, attempt, maxRetries) == (NoContent, maxRetries + 1 - attempt)
    decreases maxRetries - attempt + 1
  {
    if attempt < maxRetries {
      AlwaysFailingExhausts(get, attempt + 1, maxRetries);
    }
  }

  /** Only an exception outside TimeoutError/ClientError escapes fetch_html. */
  lemma {:induction false} RaisesOnlyOnOtherFailure(get: nat -> HttpReply, attempt: nat, maxRetries: int)
    requires Attempts(get, attempt, maxRetries).0 == Raised
    ensures exists a :: attempt <= a <= maxRetries && get(a).OtherFailure?
    decreases maxRetries - attempt + 1
  {
    if Retryable(get(attempt)) {
      RaisesOnlyOnOtherFailure(get, attempt + 1, maxRetries);
    }
  }

  /** A page comes back only from an HTML reply with a non-retryable status, after retryable failures only. */
  lemma {:induction false} HtmlComesFromHtmlReply(get: nat -> HttpReply, attempt: nat, maxRetries: int)
    requires Attempts(get, attempt, maxRetries).0.Html?
    ensures var a := attempt + Attempts(get, attempt, maxRetries).1 - 1;
      && attempt <= a <= maxRetries
      && get(a).Reply? && get(a).status !in RETRYABLE_STATUSES && IsHtmlType(get(a).contentType)
      && Attempts(get, attempt, maxRetries).0.html == get(a).body
      && forall b :: attempt <= b < a ==> Retryable(get(b))
    decreases maxRetries - attempt + 1
  {
    if Retryable(get(attempt)) {
      HtmlComesFromHtmlReply(get, attempt + 1, maxRetries);
    }
  }

  /** A first reply with a non-retryable status and a non-HTML type ends the fetch at once, with no content. */
  lemma NonHtmlStopsAtOnce(get: nat -> HttpReply, maxRetries: int)
    requires maxRetries >= 0
    requires get(0).Reply? && get(0).status !in RETRYABLE_STATUSES && !IsHtmlType(get(0).contentType)
    ensures FetchSpec(get, maxRetries) == (NoContent, 1)
  {
  }

  // ------------------------------------------------------------- fetch_dynamic

  /** The outcome of one `page.goto`. */
  datatype Navigation = Loaded | NavTimeout | NavError

  /**
   * The browser as fetch_dynamic sees it: whether Playwright is installed, the
   * outcome of the goto that waits for "networkidle", of the retry that waits
   * for "domcontentloaded", and the page content after a successful load.
   */
  datatype Browser = Browser(available: bool, networkIdle: Navigation, domLoaded: Navigation, content: string)

  /**
   * `fetch_dynamic`: no content when Playwright is missing or both navigations
   * time out; a navigation error other than a timeout escapes.
   */
  function FetchDynamic(b: Browser): (r: FetchOutcome)
    ensures r == NoContent <==> !b.available || (b.networkIdle == NavTimeout && b.domLoaded == NavTimeout)
    ensures r.Html? ==> r.html == b.content
  {
    if !b.available then NoContent
    else match b.networkIdle
      case Loaded => Html(b.content)
      case NavError => Raised
      case NavTimeout =>
        match b.domLoaded
        case Loaded => Html(b.content)
        case NavError => Raised
        case NavTimeout => NoContent
  }
}
