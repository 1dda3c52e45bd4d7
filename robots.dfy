/**
 * The robots.txt cache of the Python crawler (`RobotsCache`): one parsed
 * ruleset per origin, fetched on first use and never replaced, under the
 * Robots Exclusion Protocol (RFC 9309).
 *
 * `urllib.robotparser` is not modelled: a parser is identified by the lines it
 * was given, and its `can_fetch` verdict is an oracle on those lines. The URL
 * parser and the HTTP request are oracles as well.
 */
module Robots {
  import opened Strings
  import UrlUtils

  /** A RobotFileParser after `parse(lines)`. */
  datatype Ruleset = Ruleset(lines: seq<string>)

  /** The parser fed `[]`: it allows everything that its `can_fetch` allows on no rules. */
  const EMPTY_RULESET := Ruleset([])

  /** What `session.get(robots_url)` gave: a status and the body text, or an exception. */
  datatype RobotsResponse = Response(status: int, body: string) | FetchFailed

  /** The foreign parts `allowed` relies on. */
  datatype RobotsEnv = RobotsEnv(
    split: string -> UrlUtils.UrlParts,            // urllib.parse.urlparse
    fetch: string -> RobotsResponse,               // GET of a robots.txt URL
    canFetch: (Ruleset, string, string) -> bool)  // RobotFileParser.can_fetch(user_agent, url)

  /** The cache key: `scheme://netloc` of the parsed URL. */
  function Origin(p: UrlUtils.UrlParts): (r: string)
    ensures StartsWith(r, p.scheme + "://") && EndsWith(r, p.netloc)
    ensures |r| == |p.scheme| + 3 + |p.netloc|
  {
    p.scheme + "://" + p.netloc
  }

  function RobotsUrl(base: string): (r: string)
    ensures StartsWith(r, base) && EndsWith(r, "/robots.txt")
  {
    base + "/robots.txt"
  }

  /**
   * The ruleset cached for an origin: the body's lines when the status is
   * below 400, and no rules on an error status or an exception.
   */
  function RulesetFor(resp: RobotsResponse): (r: Ruleset)
    ensures r != EMPTY_RULESET ==> resp.Response? && resp.status < 400 && resp.body != ""
    ensures resp.Response? && resp.status < 400 ==> r.lines == PySplitLines(resp.body)
  {
    match resp
    case Response(status, body) => if status < 400 then Ruleset(PySplitLines(body)) else EMPTY_RULESET
    case FetchFailed => EMPTY_RULESET
  }

  /**
   * The verdict for a URL when its origin's robots.txt is fetched from `env`:
   * what the origin's ruleset says about the URL for the user agent.
   */
  function Verdict(env: RobotsEnv, url: string, userAgent: string): bool {
    env.canFetch(RulesetFor(env.fetch(RobotsUrl(Origin(env.split(url))))), userAgent, url)
  }

  lemma ErrorsGiveNoRules(resp: RobotsResponse)
    requires resp.FetchFailed? || resp.status >= 400
    ensures RulesetFor(resp) == EMPTY_RULESET
  {
  }

  class RobotsCache {
    /** `_cache`: origin to parser. */
    var cache: map<string, Ruleset>
    /** The origins whose robots.txt was requested, in request order. */
    ghost var requested: seq<string>

    /** Exactly the cached origins were requested, each once. */
    ghost predicate Valid()
      reads this
    {
      NoDup(requested) && (forall o :: o in cache <==> o in requested)
    }

    /** Every cached ruleset is the one `env` serves for its origin. */
    ghost predicate Consistent(env: RobotsEnv)
      reads this
    {
      forall o :: o in cache ==> cache[o] == RulesetFor(env.fetch(RobotsUrl(o)))
    }

    constructor()
      ensures Valid() && cache == map[] && requested == []
      ensures forall env :: Consistent(env)
    {
      cache := map[];
      requested := [];
    }

    /**
     * `allowed(url, user_agent)`: fills the entry for the URL's origin when it
     * is missing, then asks that entry.
     */
    method Allowed(env: RobotsEnv, url: string, userAgent: string) returns (ok: bool)
      requires Valid()
      modifies this
      ensures Valid()
      ensures var base := Origin(env.split(url));
        && base in cache
        && ok == env.canFetch(cache[base], userAgent, url)
        && (base in old(cache) ==> cache == old(cache) && requested == old(requested))
        && (base !in old(cache) ==>
              cache == old(cache)[base := RulesetFor(env.fetch(RobotsUrl(base)))]
              && requested == old(requested) + [base])
      ensures old(Consistent(env)) ==> Consistent(env) && ok == Verdict(env, url, userAgent)
    {
      var parsed := env.split(url);
      var base := Origin(parsed);
      if base !in cache {
        var resp := env.fetch(RobotsUrl(base));
        var rules := RulesetFor(resp);
        cache := cache[base := rules];
        requested := requested + [base];
      }
      ok := env.canFetch(cache[base], userAgent, url);
    }
  }

  /**
   * Two lookups on a fresh cache for URLs of one origin: robots.txt is
   * requested once, and both verdicts come from that one ruleset.
   */
  method LookupTwice(env: RobotsEnv, url1: string, url2: string, userAgent: string)
    returns (ok1: bool, ok2: bool)
    requires Origin(env.split(url1)) == Origin(env.split(url2))
    ensures ok1 == env.canFetch(RulesetFor(env.fetch(RobotsUrl(Origin(env.split(url1))))), userAgent, url1)
    ensures ok2 == env.canFetch(RulesetFor(env.fetch(RobotsUrl(Origin(env.split(url1))))), userAgent, url2)
  {
    var c := new RobotsCache();
    ok1 := c.Allowed(env, url1, userAgent);
    ghost var afterFirst := c.cache;
    ok2 := c.Allowed(env, url2, userAgent);
    assert c.cache == afterFirst && |c.requested| == 1;
  }
}
