/**
 * The Python crawler (`crawler.py`): the allowed-domain set, the article
 * fetch with its browser fallback, and the breadth-first link discovery of
 * `crawl_homepage`.
 *
 * The network, the HTML parser, `urljoin`, `urlparse` and the regular
 * expression compiler are oracles gathered in `Web`. The crawl is sequential,
 * as the source's loop is.
 */
module Crawler {
  import opened Wrappers
  import opened Strings
  import opened Config
  import UrlUtils
  import Fetcher
  import Robots
  import Extractor
  import opened Frontier

  // --------------------------------------------------------- allowed domains

  /** One allowed-domain entry: an entry with "://" is reduced to its netloc, unless that is empty. */
  function DomainOf(entry: string, split: string -> UrlUtils.UrlParts): (r: string)
    ensures !Contains(entry, "://") ==> r == entry
    ensures Contains(entry, "://") && split(entry).netloc != "" ==> r == split(entry).netloc
  {
    if Contains(entry, "://") then
      (if split(entry).netloc != "" then split(entry).netloc else entry)
    else entry
  }

  /** The entries `_normalize_allowed_domains` reads: the configured ones, or the seed's host. */
  function RawDomains(allowed: seq<string>, defaultDomain: string): seq<string> {
    if allowed == [] then [defaultDomain] else allowed
  }

  /** The allowed-domain set, as a value. */
  function AllowedDomains(allowed: seq<string>, defaultDomain: string, split: string -> UrlUtils.UrlParts): set<string> {
    set e | e in RawDomains(allowed, defaultDomain) :: DomainOf(e, split)
  }

  /** `_normalize_allowed_domains`. */
  method NormalizeAllowedDomains(allowed: seq<string>, defaultDomain: string, split: string -> UrlUtils.UrlParts)
    returns (r: set<string>)
    ensures r == AllowedDomains(allowed, defaultDomain, split)
    ensures forall d :: d in r <==> exists e :: e in RawDomains(allowed, defaultDomain) && DomainOf(e, split) == d
    ensures allowed == [] && !Contains(defaultDomain, "://") ==> r == {defaultDomain}
    ensures forall e :: e in allowed && !Contains(e, "://") ==> e in r
  {
    var raw := RawDomains(allowed, defaultDomain);
    r := {};
    for i := 0 to |raw|
      invariant forall d :: d in r <==> exists j :: 0 <= j < i && DomainOf(raw[j], split) == d
    {
      if Contains(raw[i], "://") {
        var netloc := split(raw[i]).netloc;
        r := r + {if netloc != "" then netloc else raw[i]};
      } else {
        r := r + {raw[i]};
      }
    }
    assert forall e :: e in raw ==> exists j :: 0 <= j < |raw| && raw[j] == e;
    if allowed == [] && !Contains(defaultDomain, "://") {
      assert raw == [defaultDomain] && DomainOf(raw[0], split) == defaultDomain;
      assert forall d :: d in r <==> d == defaultDomain;
    }
  }

  /** The domain test of `crawl_homepage`: the host is allowed, or a subdomain of one when subdomains are allowed. */
  predicate InScope(host: string, domains: set<string>, allowSubdomains: bool)
    ensures host in domains ==> InScope(host, domains, allowSubdomains)
    ensures InScope(host, domains, allowSubdomains) ==> exists d :: d in domains && EndsWith(host, d)
  {
    assert host in domains ==> EndsWith(host, host);
    assert forall d :: EndsWith(host, "." + d) ==> EndsWith(host, d) by {
      forall d | EndsWith(host, "." + d) ensures EndsWith(host, d) {
        assert host[|host| - |d|..] == ("." + d)[1..];
      }
    }
    if allowSubdomains then exists d :: d in domains && (host == d || EndsWith(host, "." + d))
    else host in domains
  }

  /**
   * With subdomains allowed, a subdomain of a host in scope is in scope: a
   * subdomain of an allowed domain, and a subdomain of that, and so on.
   */
  lemma SubdomainInScope(host: string, sub: string, domains: set<string>)
    requires InScope(sub, domains, true) && EndsWith(host, "." + sub)
    ensures InScope(host, domains, true)
  {
  }

  // ----------------------------------------------------------- fetch_article

  /** A fetch result Python treats as true: a page that is not the empty string. */
  predicate Truthy(o: Fetcher.FetchOutcome) {
    o.Html? && o.html != ""
  }

  /** `ArticleData`. */
  datatype Article = Article(url: string, title: string, content: string, source: string)

  /** What `fetch_article` gives: an article, None, or an exception that escapes it. */
  datatype ArticleResult = Fetched(article: Article) | NoArticle | ArticleRaised

  /** Whether the static result sends `fetch_article` to the browser before extraction. */
  predicate NeedsBrowser(staticPage: Fetcher.FetchOutcome, cfg: CrawlerConfig) {
    !Truthy(staticPage) && !staticPage.Raised? && cfg.jsFallback
  }

  /** The page that is extracted first: the static one, or the browser's when the static fetch gave nothing. */
  function Primary(staticPage: Fetcher.FetchOutcome, cfg: CrawlerConfig, browser: nat -> Fetcher.Browser): Fetcher.FetchOutcome {
    if NeedsBrowser(staticPage, cfg) then Fetcher.FetchDynamic(browser(0)) else staticPage
  }

  /** Which browser run the short-text retry uses: the first, or the second when the first already happened. */
  function RetryRun(staticPage: Fetcher.FetchOutcome, cfg: CrawlerConfig): nat {
    if NeedsBrowser(staticPage, cfg) then 1 else 0
  }

  /**
   * `fetch_article`. `get` answers the GET attempts of the URL and `browser(k)`
   * is the k-th `fetch_dynamic` run. There is no article only when neither
   * the static nor the browser fetch produced HTML; a browser page replaces
   * the extracted text only when it is too short and the browser's text is
   * strictly longer.
   */
  method FetchArticle(url: string, cfg: CrawlerConfig, get: nat -> Fetcher.HttpReply,
                      browser: nat -> Fetcher.Browser, lib: Extractor.HtmlLib)
    returns (r: ArticleResult)
    ensures var staticPage := Fetcher.FetchSpec(get, cfg.maxRetries).0;
      var p := Primary(staticPage, cfg, browser);
      (r.NoArticle? <==> !staticPage.Raised? && !p.Raised? && !Truthy(p))
    ensures var staticPage := Fetcher.FetchSpec(get, cfg.maxRetries).0;
      var p := Primary(staticPage, cfg, browser);
      var d := Fetcher.FetchDynamic(browser(RetryRun(staticPage, cfg)));
      (r.ArticleRaised? <==>
        (staticPage.Raised? || p.Raised?
         || (Truthy(p) && cfg.jsFallback && |Extractor.ExtractTextAndTitle(p.html, lib).0| < cfg.minTextLength && d.Raised?)))
    ensures r.Fetched? ==>
      var staticPage := Fetcher.FetchSpec(get, cfg.maxRetries).0;
      var p := Primary(staticPage, cfg, browser);
      var first := Extractor.ExtractTextAndTitle(p.html, lib);
      var d := Fetcher.FetchDynamic(browser(RetryRun(staticPage, cfg)));
      var replaced := cfg.jsFallback && |first.0| < cfg.minTextLength && Truthy(d)
        && |Extractor.ExtractTextAndTitle(d.html, lib).0| > |first.0|;
      && Truthy(p)
      && r.article.url == url && r.article.source == url && r.article.title != ""
      && (replaced ==> r.article.content == Extractor.ExtractTextAndTitle(d.html, lib).0
                       && r.article.title == Extractor.ExtractTextAndTitle(d.html, lib).1)
      && (!replaced ==> r.article.content == first.0 && r.article.title == first.1)
      && |r.article.content| >= |first.0|
  {
    var html;
    ghost var attempts;
    html, attempts := Fetcher.FetchHtml(get, cfg.maxRetries);
    if html.Raised? {
      return ArticleRaised;
    }
    var runs: nat := 0;
    if !Truthy(html) && cfg.jsFallback {
      html := Fetcher.FetchDynamic(browser(0));
      runs := 1;
      if html.Raised? {
        return ArticleRaised;
      }
    }
    if !Truthy(html) {
      return NoArticle;
    }
    var extracted := Extractor.ExtractTextAndTitle(html.html, lib);
    var text, title := extracted.0, extracted.1;
    if cfg.jsFallback && |text| < cfg.minTextLength {
      var jsHtml := Fetcher.FetchDynamic(browser(runs));
      if jsHtml.Raised? {
        return ArticleRaised;
      }
      if Truthy(jsHtml) {
        var js := Extractor.ExtractTextAndTitle(jsHtml.html, lib);
        if |js.0| > |text| {
          text := js.0;
          title := if js.1 != "" then js.1 else title;
        }
      }
    }
    return Fetched(Article(url, title, text, url));
  }

  // ----------------------------------------------------------- crawl_homepage

  /** The foreign parts of a crawl. */
  datatype Web = Web(
    split: string -> UrlUtils.UrlParts,              // urlsplit / urlparse
    get: string -> nat -> Fetcher.HttpReply,         // the k-th GET attempt of a URL
    hrefs: string -> seq<string>,                    // the href values of a page's <a> tags, in document order
    urljoin: (string, string) -> string,             // urllib.parse.urljoin
    compile: string -> UrlUtils.Pattern,             // re.compile(p, re.IGNORECASE)
    robotsFetch: string -> Robots.RobotsResponse,    // GET of a robots.txt URL
    canFetch: (Robots.Ruleset, string, string) -> bool)

  /** `compile_patterns`. */
  function Compile(patterns: seq<string>, compile: string -> UrlUtils.Pattern): (r: seq<UrlUtils.Pattern>)
    ensures |r| == |patterns|
    ensures forall i :: 0 <= i < |r| ==> r[i] == compile(patterns[i])
  {
    seq(|patterns|, i requires 0 <= i < |patterns| => compile(patterns[i]))
  }

  /** What a crawl admits as a link: the seed, the allowed domains and the compiled patterns. */
  datatype Scope = Scope(home: string, domains: set<string>, allowSubdomains: bool,
                         includes: seq<UrlUtils.Pattern>, excludes: seq<UrlUtils.Pattern>)

  function ScopeFor(home: string, cfg: CrawlerConfig, web: Web): Scope {
    Scope(home, AllowedDomains(cfg.allowedDomains, web.split(home).netloc, web.split), cfg.allowSubdomains,
          Compile(cfg.includePatterns, web.compile), Compile(cfg.excludePatterns, web.compile))
  }

  /** A normalised link that passes the skip list, the domain test and the patterns. */
  predicate Admissible(href: string, sc: Scope, split: string -> UrlUtils.UrlParts) {
    && href != ""
    && !UrlUtils.ShouldSkipUrl(href, split)
    && InScope(split(href).netloc, sc.domains, sc.allowSubdomains)
    && UrlUtils.MatchesPatterns(href, sc.includes, sc.excludes)
  }

  /** Admissibility within a scope, as a test on links. */
  function Keep(sc: Scope, split: string -> UrlUtils.UrlParts): string -> bool {
    href => Admissible(href, sc, split)
  }

  /** A link resolved against its page, then normalised. */
  function Candidate(page: string, href: string, web: Web): string {
    UrlUtils.NormalizeUrl(web.urljoin(page, href), web.split)
  }

  /**
   * The links a page contributes, in document order: the admissible
   * candidates other than the seed. The loop of `FindLinks` computes it.
   */
  function FoundLinks(page: string, hrefs: seq<string>, sc: Scope, web: Web): (r: seq<string>)
    ensures |r| <= |hrefs|
  {
    if hrefs == [] then []
    else
      var c := Candidate(page, hrefs[|hrefs| - 1], web);
      FoundLinks(page, hrefs[..|hrefs| - 1], sc, web)
        + (if Admissible(c, sc, web.split) && c != sc.home then [c] else [])
  }

  lemma FoundLinksStep(page: string, hrefs: seq<string>, i: int, sc: Scope, web: Web)
    requires 0 <= i < |hrefs|
    ensures var c := Candidate(page, hrefs[i], web);
      FoundLinks(page, hrefs[..i + 1], sc, web)
      == FoundLinks(page, hrefs[..i], sc, web) + (if Admissible(c, sc, web.split) && c != sc.home then [c] else [])
  {
    assert hrefs[..i + 1][..i] == hrefs[..i];
  }

  /** Every found link is admissible and is not the seed. */
  lemma {:induction false} FoundLinksSound(page: string, hrefs: seq<string>, sc: Scope, web: Web)
    ensures forall x :: x in FoundLinks(page, hrefs, sc, web) ==> Admissible(x, sc, web.split) && x != sc.home
    decreases |hrefs|
  {
    if hrefs != [] {
      FoundLinksSound(page, hrefs[..|hrefs| - 1], sc, web);
    }
  }

  /** Every admissible candidate other than the seed is found. */
  lemma {:induction false} FoundLinksComplete(page: string, hrefs: seq<string>, sc: Scope, web: Web, j: int)
    requires 0 <= j < |hrefs|
    requires Admissible(Candidate(page, hrefs[j], web), sc, web.split) && Candidate(page, hrefs[j], web) != sc.home
    ensures Candidate(page, hrefs[j], web) in FoundLinks(page, hrefs, sc, web)
    decreases |hrefs|
  {
    var init := hrefs[..|hrefs| - 1];
    if j < |hrefs| - 1 {
      assert init[j] == hrefs[j];
      FoundLinksComplete(page, init, sc, web, j);
    }
  }

  /** One anchor of a page: its normalised candidate URL and whether it is kept. */
  method CheckLink(page: string, rawHref: string, sc: Scope, web: Web) returns (href: string, keep: bool)
    ensures href == Candidate(page, rawHref, web)
    ensures keep <==> Admissible(href, sc, web.split) && href != sc.home
  {
    href := Candidate(page, rawHref, web);
    if href == "" || UrlUtils.ShouldSkipUrl(href, web.split) {
      return href, false;
    }
    if !InScope(web.split(href).netloc, sc.domains, sc.allowSubdomains) {
      return href, false;
    }
    if !UrlUtils.MatchesPatterns(href, sc.includes, sc.excludes) {
      return href, false;
    }
    keep := href != sc.home;
  }

  /** The loop over a page's anchors, collecting the links it contributes. */
  method FindLinks(page: string, html: string, sc: Scope, web: Web) returns (found: seq<string>)
    ensures found == FoundLinks(page, web.hrefs(html), sc, web)
    ensures forall x :: x in found ==> Keep(sc, web.split)(x) && x != sc.home
  {
    var hrefs := web.hrefs(html);
    found := [];
    for i := 0 to |hrefs|
      invariant found == FoundLinks(page, hrefs[..i], sc, web)
    {
      var href, keep := CheckLink(page, hrefs[i], sc, web);
      FoundLinksStep(page, hrefs, i, sc, web);
      if keep {
        found := found + [href];
      }
    }
    assert hrefs[..|hrefs|] == hrefs;
    FoundLinksSound(page, hrefs, sc, web);
  }

  /**
   * The collected list after a page's found links: each link not yet
   * collected is appended while fewer than `maxLinks` are collected.
   */
  function Collect(collected: seq<string>, found: seq<string>, maxLinks: int): (r: seq<string>)
    ensures |collected| <= |r| && r[..|collected|] == collected
    ensures NoDup(collected) ==> NoDup(r)
    ensures |collected| <= maxLinks ==> |r| <= maxLinks
    ensures |collected| >= maxLinks ==> r == collected
    ensures forall i :: |collected| <= i < |r| ==> r[i] in found
    ensures |r| < maxLinks ==> forall x :: x in found ==> x in r
    decreases |found|
  {
    if found == [] then collected
    else
      var next := if found[0] !in collected && |collected| < maxLinks then collected + [found[0]] else collected;
      var r := Collect(next, found[1..], maxLinks);
      assert r[..|collected|] == next[..|collected|] == collected;
      assert forall x :: x in found[1..] ==> x in found;
      assert forall x :: x in next ==> x in r by {
        assert r[..|next|] == next;
      }
      r
  }

  method AddToCollected(collected: seq<string>, found: seq<string>, maxLinks: int) returns (r: seq<string>)
    ensures r == Collect(collected, found, maxLinks)
  {
    r := collected;
    for i := 0 to |found|
      invariant Collect(r, found[i..], maxLinks) == Collect(collected, found, maxLinks)
    {
      assert found[i..][1..] == found[i + 1..];
      if found[i] !in r && |r| < maxLinks {
        r := r + [found[i]];
      }
    }
  }

  /** The queue entries a page adds: its found links not yet visited, in order, at the given depth. */
  function NewEntries(found: seq<string>, visited: set<string>, depth: int): (r: seq<(string, int)>)
    ensures forall i :: 0 <= i < |r| ==> r[i].1 == depth && r[i].0 in found && r[i].0 !in visited
  {
    if found == [] then []
    else
      var rest := NewEntries(found[..|found| - 1], visited, depth);
      var last := found[|found| - 1];
      assert forall x :: x in found[..|found| - 1] ==> x in found;
      rest + (if last !in visited then [(last, depth)] else [])
  }

  method Enqueue(queue: seq<(string, int)>, found: seq<string>, visited: set<string>, depth: int)
    returns (q: seq<(string, int)>)
    ensures q == queue + NewEntries(found, visited, depth)
  {
    q := queue;
    for i := 0 to |found|
      invariant q == queue + NewEntries(found[..i], visited, depth)
    {
      assert found[..i + 1][..i] == found[..i];
      if found[i] !in visited {
        q := q + [(found[i], depth)];
      }
    }
    assert found[..|found|] == found;
  }

  /**
   * What the frontier holds: the seed at depth 0, and below it admissible
   * links other than the seed, queued only above the depth limit.
   */
  predicate QueueOk(queue: seq<(string, int)>, home: string, keep: string -> bool, maxDepth: int, levels: int) {
    && Layered(queue)
    && (forall i :: 0 <= i < |queue| ==> 0 <= queue[i].1 < levels)
    && (forall i :: 0 <= i < |queue| ==> queue[i].1 == 0 ==> queue[i].0 == home)
    && (forall i :: 0 <= i < |queue| ==> queue[i].1 > 0 ==>
          queue[i].1 < maxDepth && keep(queue[i].0) && queue[i].0 != home)
  }

  /** The collected list: within the budget, no duplicates, no seed, only admissible links. */
  predicate LinksOk(collected: seq<string>, home: string, keep: string -> bool, maxLinks: int) {
    && (|collected| == 0 || |collected| <= maxLinks)
    && NoDup(collected)
    && home !in collected
    && (forall i :: 0 <= i < |collected| ==> keep(collected[i]))
  }

  /** While the budget is not spent, every queued URL is the seed or already collected. */
  predicate Covered(queue: seq<(string, int)>, collected: seq<string>, home: string, maxLinks: int) {
    |collected| < maxLinks ==> forall i :: 0 <= i < |queue| ==> queue[i].0 == home || queue[i].0 in collected
  }

  lemma PopStep(queue: seq<(string, int)>, collected: seq<string>, home: string, keep: string -> bool, maxDepth: int, maxLinks: int, levels: int)
    requires queue != [] && QueueOk(queue, home, keep, maxDepth, levels)
    requires Covered(queue, collected, home, maxLinks)
    ensures QueueOk(queue[1..], home, keep, maxDepth, levels) && Progress(queue[1..], queue, levels)
    ensures Covered(queue[1..], collected, home, maxLinks)
  {
    QueueStep(queue, [], levels);
    assert queue[1..] + [] == queue[1..];
  }

  /** Collecting a page's links keeps the collected list within its invariant and only adds to it. */
  lemma CollectStep(before: seq<string>, found: seq<string>, home: string, keep: string -> bool, maxLinks: int)
    requires LinksOk(before, home, keep, maxLinks) && |before| < maxLinks
    requires forall x :: x in found ==> keep(x) && x != home
    ensures LinksOk(Collect(before, found, maxLinks), home, keep, maxLinks)
    ensures forall x :: x in before ==> x in Collect(before, found, maxLinks)
  {
    var collected := Collect(before, found, maxLinks);
    assert forall x :: x in before ==> x in collected by {
      assert collected[..|before|] == before;
    }
    forall i | 0 <= i < |collected| ensures keep(collected[i]) {
      if i >= |before| {
        assert collected[i] in found;
      } else {
        assert collected[i] == before[i];
      }
    }
  }

  /** Queueing a page's new links one level deeper keeps the frontier's invariant and makes progress. */
  lemma EnqueueStep(queue: seq<(string, int)>, found: seq<string>, visited: set<string>,
                    home: string, keep: string -> bool, maxDepth: int, levels: int)
    requires queue != [] && QueueOk(queue, home, keep, maxDepth, levels)
    requires levels == if maxDepth > 1 then maxDepth else 1
    requires queue[0].1 + 1 < maxDepth
    requires forall x :: x in found ==> keep(x) && x != home
    ensures var next := queue[1..] + NewEntries(found, visited, queue[0].1 + 1);
      QueueOk(next, home, keep, maxDepth, levels) && Progress(next, queue, levels)
  {
    var added := NewEntries(found, visited, queue[0].1 + 1);
    QueueStep(queue, added, levels);
    var next := queue[1..] + added;
    forall i | 0 <= i < |next|
      ensures next[i].1 == 0 ==> next[i].0 == home
      ensures next[i].1 > 0 ==> next[i].1 < maxDepth && keep(next[i].0) && next[i].0 != home
    {
      if i >= |queue| - 1 {
        assert next[i] == added[i - (|queue| - 1)];
        assert next[i].0 in found;
      } else {
        assert next[i] == queue[i + 1];
      }
    }
  }

  /** After a visit, every queued URL is still the seed or collected, unless the budget is spent. */
  lemma CoverStep(queue: seq<(string, int)>, before: seq<string>, found: seq<string>, added: seq<(string, int)>,
                  home: string, maxLinks: int)
    requires queue != [] && Covered(queue, before, home, maxLinks) && |before| < maxLinks
    requires forall i :: 0 <= i < |added| ==> added[i].0 in found
    ensures Covered(queue[1..] + added, Collect(before, found, maxLinks), home, maxLinks)
  {
    var collected := Collect(before, found, maxLinks);
    var next := queue[1..] + added;
    if |collected| < maxLinks {
      assert forall x :: x in before ==> x in collected by {
        assert collected[..|before|] == before;
      }
      forall i | 0 <= i < |next| ensures next[i].0 == home || next[i].0 in collected {
        if i >= |queue| - 1 {
          assert next[i] == added[i - (|queue| - 1)];
        } else {
          assert next[i] == queue[i + 1];
        }
      }
    }
  }

  /**
   * The end of a visit to the front entry of `popped`: the page's links are
   * collected and, above the depth limit, queued one level deeper after
   * `rest`. `ExpandStep` states the invariants this keeps.
   */
  method Expand(popped: seq<(string, int)>, rest: seq<(string, int)>, collected: seq<string>, found: seq<string>,
                visited: set<string>, cfg: CrawlerConfig)
    returns (queue: seq<(string, int)>, collected': seq<string>)
    requires popped != []
    ensures collected' == Collect(collected, found, cfg.maxLinks)
    ensures queue == if popped[0].1 + 1 < cfg.maxDepth then rest + NewEntries(found, visited, popped[0].1 + 1) else rest
  {
    var depth := popped[0].1;
    collected' := AddToCollected(collected, found, cfg.maxLinks);
    if depth + 1 < cfg.maxDepth {
      queue := Enqueue(rest, found, visited, depth + 1);
    } else {
      queue := rest;
    }
  }

  /**
   * What a visit's expansion keeps: the collected list stays admissible and
   * only grows, and the new frontier keeps its invariants, makes progress
   * and stays covered by the collected list.
   */
  ghost predicate Expanded(popped: seq<(string, int)>, queue: seq<(string, int)>, collected: seq<string>, collected': seq<string>,
                           home: string, keep: string -> bool, cfg: CrawlerConfig, levels: int) {
    && LinksOk(collected', home, keep, cfg.maxLinks)
    && (forall x :: x in collected ==> x in collected')
    && QueueOk(queue, home, keep, cfg.maxDepth, levels) && Progress(queue, popped, levels)
    && Covered(queue, collected', home, cfg.maxLinks)
  }

  /**
   * The invariants `Expand` keeps: after collecting a page's links and
   * queueing them one level deeper below the depth limit, the collected
   * list and the frontier satisfy `Expanded`.
   */
  lemma ExpandStep(popped: seq<(string, int)>, queue: seq<(string, int)>, collected: seq<string>, collected': seq<string>,
                   found: seq<string>, visited: set<string>, home: string, keep: string -> bool,
                   cfg: CrawlerConfig, levels: int)
    requires popped != [] && QueueOk(popped, home, keep, cfg.maxDepth, levels)
    requires levels == if cfg.maxDepth > 1 then cfg.maxDepth else 1
    requires LinksOk(collected, home, keep, cfg.maxLinks) && |collected| < cfg.maxLinks
    requires Covered(popped, collected, home, cfg.maxLinks)
    requires forall x :: x in found ==> keep(x) && x != home
    requires collected' == Collect(collected, found, cfg.maxLinks)
    requires queue == if popped[0].1 + 1 < cfg.maxDepth then popped[1..] + NewEntries(found, visited, popped[0].1 + 1) else popped[1..]
    ensures Expanded(popped, queue, collected, collected', home, keep, cfg, levels)
  {
    CollectStep(collected, found, home, keep, cfg.maxLinks);
    var added := if popped[0].1 + 1 < cfg.maxDepth then NewEntries(found, visited, popped[0].1 + 1) else [];
    if popped[0].1 + 1 < cfg.maxDepth {
      EnqueueStep(popped, found, visited, home, keep, cfg.maxDepth, levels);
    } else {
      PopStep(popped, collected, home, keep, cfg.maxDepth, cfg.maxLinks, levels);
      assert popped[1..] + added == popped[1..];
    }
    CoverStep(popped, collected, found, added, home, cfg.maxLinks);
  }

  /**
   * Collecting a page's links keeps every fetched page's links collected,
   * the new page's included, unless the budget fills up.
   */
  lemma CollectComplete(fetched: seq<string>, collected: seq<string>, url: string, sc: Scope, cfg: CrawlerConfig, web: Web)
    requires AllCollected(fetched, collected, sc, cfg, web)
    ensures var after := Collect(collected, PageLinks(url, sc, cfg, web), cfg.maxLinks);
      |after| >= cfg.maxLinks || AllCollected(fetched + [url], after, sc, cfg, web)
  {
  }

  function RobotsEnvOf(web: Web): Robots.RobotsEnv {
    Robots.RobotsEnv(web.split, web.robotsFetch, web.canFetch)
  }

  /** The robots gate: robots are not respected, or the origin's robots.txt lets the user agent fetch the URL. */
  predicate RobotsAllow(url: string, cfg: CrawlerConfig, web: Web) {
    !cfg.respectRobots || Robots.Verdict(RobotsEnvOf(web), url, cfg.userAgent)
  }

  /** What `fetch_html` gives for a page. */
  function PageFetch(url: string, cfg: CrawlerConfig, web: Web): Fetcher.FetchOutcome {
    Fetcher.FetchSpec(web.get(url), cfg.maxRetries).0
  }

  /** A visited page the crawl reads links from: robots let it through and its fetch gave HTML. */
  predicate Harvested(url: string, cfg: CrawlerConfig, web: Web) {
    RobotsAllow(url, cfg, web) && Truthy(PageFetch(url, cfg, web))
  }

  /** The links a page contributes when its fetch gives HTML; none otherwise. */
  function PageLinks(url: string, sc: Scope, cfg: CrawlerConfig, web: Web): seq<string> {
    var o := PageFetch(url, cfg, web);
    if Truthy(o) then FoundLinks(url, web.hrefs(o.html), sc, web) else []
  }

  /** Every link found on the pages of `fetched` is collected. */
  predicate AllCollected(fetched: seq<string>, collected: seq<string>, sc: Scope, cfg: CrawlerConfig, web: Web) {
    forall p :: p in fetched ==> forall l :: l in PageLinks(p, sc, cfg, web) ==> l in collected
  }

  /** Every collected link was found on one of the pages of `fetched`. */
  predicate FoundOnFetched(collected: seq<string>, fetched: seq<string>, sc: Scope, cfg: CrawlerConfig, web: Web) {
    forall l :: l in collected ==> exists p :: p in fetched && l in PageLinks(p, sc, cfg, web)
  }

  /**
   * Collecting a page's links keeps every collected link traceable to a
   * fetched page, the new page included.
   */
  lemma CollectSound(fetched: seq<string>, collected: seq<string>, url: string, sc: Scope, cfg: CrawlerConfig, web: Web)
    requires FoundOnFetched(collected, fetched, sc, cfg, web)
    ensures FoundOnFetched(Collect(collected, PageLinks(url, sc, cfg, web), cfg.maxLinks), fetched + [url], sc, cfg, web)
  {
    var found := PageLinks(url, sc, cfg, web);
    var after := Collect(collected, found, cfg.maxLinks);
    forall l | l in after ensures exists p :: p in fetched + [url] && l in PageLinks(p, sc, cfg, web) {
      CollectFrom(collected, found, cfg.maxLinks, l);
      if l in collected {
        var p :| p in fetched && l in PageLinks(p, sc, cfg, web);
        assert p in fetched + [url];
      } else {
        assert url in fetched + [url];
      }
    }
  }

  /** A collected link was collected before or is among the links being collected. */
  lemma CollectFrom(collected: seq<string>, found: seq<string>, maxLinks: int, l: string)
    requires l in Collect(collected, found, maxLinks)
    ensures l in collected || l in found
  {
    var after := Collect(collected, found, maxLinks);
    var i :| 0 <= i < |after| && after[i] == l;
    if i < |collected| {
      assert after[..|collected|][i] == l;
    }
  }

  /**
   * The robots check and the static fetch of a page: None exactly when
   * robots are respected and the origin's robots.txt disallows the URL,
   * otherwise what `fetch_html` gives.
   */
  method FetchPage(robots: Robots.RobotsCache, url: string, cfg: CrawlerConfig, web: Web)
    returns (html: Option<Fetcher.FetchOutcome>)
    requires robots.Valid() && robots.Consistent(RobotsEnvOf(web))
    modifies robots
    ensures robots.Valid() && robots.Consistent(RobotsEnvOf(web))
    ensures html.None? <==> !RobotsAllow(url, cfg, web)
    ensures html.Some? ==> html.value == PageFetch(url, cfg, web)
  {
    if cfg.respectRobots {
      var allowed := robots.Allowed(RobotsEnvOf(web), url, cfg.userAgent);
      if !allowed {
        return None;
      }
    }
    var page;
    ghost var attempts;
    page, attempts := Fetcher.FetchHtml(web.get(url), cfg.maxRetries);
    return Some(page);
  }

  /** What `crawl_homepage` gives: the collected links, or an exception from `fetch_html`. */
  datatype CrawlOutcome = Crawled(links: seq<string>) | CrawlRaised

  /**
   * `crawl_homepage`: breadth-first from the normalised seed, at most
   * `max_links` links, each admissible, none repeated and none the seed; an
   * invalid seed gives no links. `pages` lists the URLs the crawl marked
   * visited, in order: each at most once, the seed first, and each the seed
   * or a collected link. `fetched` lists the visited pages robots let
   * through whose fetch gave HTML; unless the budget is spent, every link
   * found on them is collected.
   */
  method CrawlHomepage(homepage: string, cfg: CrawlerConfig, web: Web)
    returns (r: CrawlOutcome, ghost pages: seq<string>, ghost fetched: seq<string>)
    ensures UrlUtils.NormalizeUrl(homepage, web.split) == "" ==> r == Crawled([]) && pages == [] && fetched == []
    ensures NoDup(pages)
    ensures forall p :: p in fetched <==> p in pages && Harvested(p, cfg, web)
    ensures cfg.maxDepth <= 1 ==> pages <= [UrlUtils.NormalizeUrl(homepage, web.split)]
    ensures r.Crawled? ==>
      var home := UrlUtils.NormalizeUrl(homepage, web.split);
      var sc := ScopeFor(home, cfg, web);
      && (|r.links| == 0 || |r.links| <= cfg.maxLinks)
      && NoDup(r.links)
      && home !in r.links
      && (forall i :: 0 <= i < |r.links| ==> Admissible(r.links[i], sc, web.split))
      && (forall p :: p in pages ==> p == home || p in r.links)
      && (home != "" && cfg.maxLinks > 0 ==> pages != [] && pages[0] == home)
      && (|r.links| >= cfg.maxLinks || AllCollected(fetched, r.links, sc, cfg, web))
      && FoundOnFetched(r.links, fetched, sc, cfg, web)
  {
    var home := UrlUtils.NormalizeUrl(homepage, web.split);
    if home == "" {
      return Crawled([]), [], [];
    }
    var domain := web.split(home).netloc;
    var domains := NormalizeAllowedDomains(cfg.allowedDomains, domain, web.split);
    var sc := Scope(home, domains, cfg.allowSubdomains,
                    Compile(cfg.includePatterns, web.compile), Compile(cfg.excludePatterns, web.compile));
    r, pages, fetched := Explore(sc, cfg, web);
  }

  /**
   * A visit to the front entry of `popped`, just marked visited: the robots
   * gate, the fetch and, when the page has HTML, its links collected and
   * queued. `raised` is the exception of `fetch_html`. A page robots refuse
   * or that has no HTML changes nothing but the frontier; a harvested page
   * joins `fetched`, and its links are collected unless the budget fills up.
   */
  method VisitPage(robots: Robots.RobotsCache, popped: seq<(string, int)>, rest: seq<(string, int)>,
                   collected: seq<string>, visited: set<string>, ghost fetched: seq<string>,
                   sc: Scope, cfg: CrawlerConfig, web: Web, levels: int)
    returns (raised: bool, queue: seq<(string, int)>, collected': seq<string>, ghost fetched': seq<string>)
    requires popped != [] && rest == popped[1..] && QueueOk(popped, sc.home, Keep(sc, web.split), cfg.maxDepth, levels)
    requires levels == if cfg.maxDepth > 1 then cfg.maxDepth else 1
    requires LinksOk(collected, sc.home, Keep(sc, web.split), cfg.maxLinks) && |collected| < cfg.maxLinks
    requires Covered(popped, collected, sc.home, cfg.maxLinks)
    requires AllCollected(fetched, collected, sc, cfg, web)
    requires FoundOnFetched(collected, fetched, sc, cfg, web)
    requires robots.Valid() && robots.Consistent(RobotsEnvOf(web))
    modifies robots
    ensures robots.Valid() && robots.Consistent(RobotsEnvOf(web))
    ensures raised <==> RobotsAllow(popped[0].0, cfg, web) && PageFetch(popped[0].0, cfg, web).Raised?
    ensures fetched' == (if Harvested(popped[0].0, cfg, web) then fetched + [popped[0].0] else fetched)
    ensures raised ==> queue == rest && collected' == collected && fetched' == fetched
    ensures !raised ==>
      && LinksOk(collected', sc.home, Keep(sc, web.split), cfg.maxLinks)
      && (forall x :: x in collected ==> x in collected')
      && QueueOk(queue, sc.home, Keep(sc, web.split), cfg.maxDepth, levels) && Progress(queue, popped, levels)
      && Covered(queue, collected', sc.home, cfg.maxLinks)
      && (|collected'| >= cfg.maxLinks || AllCollected(fetched', collected', sc, cfg, web))
      && FoundOnFetched(collected', fetched', sc, cfg, web)
  {
    var url := popped[0].0;
    ghost var keep := Keep(sc, web.split);
    fetched' := fetched;
    queue, collected' := rest, collected;
    var html := FetchPage(robots, url, cfg, web);
    if html.Some? && html.value.Raised? {
      return true, queue, collected', fetched';
    }
    raised := false;
    if html.None? || !Truthy(html.value) {
      PopStep(popped, collected, sc.home, keep, cfg.maxDepth, cfg.maxLinks, levels);
      return;
    }
    var found := FindLinks(url, html.value.html, sc, web);
    CollectComplete(fetched, collected, url, sc, cfg, web);
    CollectSound(fetched, collected, url, sc, cfg, web);
    fetched' := fetched + [url];
    queue, collected' := Expand(popped, rest, collected, found, visited, cfg);
    ExpandStep(popped, queue, collected, collected', found, visited, sc.home, keep, cfg, levels);
  }

  /**
   * The crawl's record of its visits: `pages` are the visited URLs in
   * order, each once, the seed first and the others collected links, and
   * only the seed without a depth beyond it; `fetched` are the harvested
   * ones. Every collected link was found on a fetched page, and unless the
   * budget is spent every link found on a fetched page is collected.
   */
  ghost predicate Trace(queue: seq<(string, int)>, collected: seq<string>, visited: set<string>,
                  pages: seq<string>, fetched: seq<string>, sc: Scope, cfg: CrawlerConfig, web: Web) {
    && NoDup(pages) && (forall p :: p in visited <==> p in pages)
    && (forall p :: p in pages ==> p == sc.home || p in collected)
    && (pages == [] ==> queue == [(sc.home, 0)] && collected == [])
    && (pages != [] ==> pages[0] == sc.home)
    && (cfg.maxDepth <= 1 ==> pages <= [sc.home])
    && (forall p :: p in fetched <==> p in pages && Harvested(p, cfg, web))
    && FoundOnFetched(collected, fetched, sc, cfg, web)
    && (|collected| >= cfg.maxLinks || AllCollected(fetched, collected, sc, cfg, web))
  }

  /** Visiting a new page adds it to the fetched list exactly when it is harvested. */
  lemma HarvestStep(pages: seq<string>, fetched: seq<string>, url: string, cfg: CrawlerConfig, web: Web)
    requires forall p :: p in fetched <==> p in pages && Harvested(p, cfg, web)
    ensures var fetched' := if Harvested(url, cfg, web) then fetched + [url] else fetched;
      forall p :: p in fetched' <==> p in pages + [url] && Harvested(p, cfg, web)
  {
  }

  /** Without a depth beyond the seed's, the frontier holds only the seed, so only the seed is ever visited. */
  lemma ShallowStep(queue: seq<(string, int)>, pages: seq<string>, home: string, keep: string -> bool, maxDepth: int, levels: int)
    requires queue != [] && QueueOk(queue, home, keep, maxDepth, levels)
    requires levels == if maxDepth > 1 then maxDepth else 1
    requires queue[0].0 !in pages && (maxDepth <= 1 ==> pages <= [home])
    ensures maxDepth <= 1 ==> pages + [queue[0].0] <= [home]
  {
    if maxDepth <= 1 {
      assert queue[0].0 == home;
      assert pages == [] || pages == [home];
    }
  }

  /**
   * A visit to the unvisited front entry of `queue`: it is marked visited
   * and recorded in `pages`, then `VisitPage` runs. The record stays a
   * trace of the crawl, raised or not; without an exception the frontier
   * and the collected list keep their invariants and the frontier makes
   * progress.
   */
  method Visit(robots: Robots.RobotsCache, queue: seq<(string, int)>, collected: seq<string>, visited: set<string>,
               ghost pages: seq<string>, ghost fetched: seq<string>, sc: Scope, cfg: CrawlerConfig, web: Web, levels: int)
    returns (raised: bool, queue': seq<(string, int)>, collected': seq<string>, visited': set<string>,
             ghost pages': seq<string>, ghost fetched': seq<string>)
    requires queue != [] && queue[0].0 !in visited && |collected| < cfg.maxLinks
    requires levels == if cfg.maxDepth > 1 then cfg.maxDepth else 1
    requires QueueOk(queue, sc.home, Keep(sc, web.split), cfg.maxDepth, levels)
    requires LinksOk(collected, sc.home, Keep(sc, web.split), cfg.maxLinks) && Covered(queue, collected, sc.home, cfg.maxLinks)
    requires Trace(queue, collected, visited, pages, fetched, sc, cfg, web)
    requires robots.Valid() && robots.Consistent(RobotsEnvOf(web))
    modifies robots
    ensures robots.Valid() && robots.Consistent(RobotsEnvOf(web))
    ensures visited' == visited + {queue[0].0} && pages' == pages + [queue[0].0]
    ensures Trace(queue', collected', visited', pages', fetched', sc, cfg, web)
    ensures !raised ==>
      && QueueOk(queue', sc.home, Keep(sc, web.split), cfg.maxDepth, levels) && Progress(queue', queue, levels)
      && LinksOk(collected', sc.home, Keep(sc, web.split), cfg.maxLinks) && Covered(queue', collected', sc.home, cfg.maxLinks)
  {
    var url := queue[0].0;
    visited' := visited + {url};
    NoDupSnoc(pages, url);
    assert cfg.maxDepth <= 1 ==> pages + [url] <= [sc.home] by {
      ShallowStep(queue, pages, sc.home, Keep(sc, web.split), cfg.maxDepth, levels);
    }
    pages' := pages + [url];
    assert url == sc.home || url in collected;
    raised, queue', collected', fetched' := VisitPage(robots, queue, queue[1..], collected, visited', fetched, sc, cfg, web, levels);
    assert forall x :: x in collected ==> x in collected';
    assert FoundOnFetched(collected', fetched', sc, cfg, web);
    assert |collected'| >= cfg.maxLinks || AllCollected(fetched', collected', sc, cfg, web);
    assert forall p :: p in fetched' <==> p in pages' && Harvested(p, cfg, web) by {
      HarvestStep(pages, fetched, url, cfg, web);
    }
  }

  /** The frontier loop of `crawl_homepage`, from the seed `sc.home` at depth 0. */
  method Explore(sc: Scope, cfg: CrawlerConfig, web: Web)
    returns (r: CrawlOutcome, ghost pages: seq<string>, ghost fetched: seq<string>)
    ensures NoDup(pages)
    ensures forall p :: p in fetched <==> p in pages && Harvested(p, cfg, web)
    ensures cfg.maxDepth <= 1 ==> pages <= [sc.home]
    ensures r.Crawled? ==>
      && LinksOk(r.links, sc.home, Keep(sc, web.split), cfg.maxLinks)
      && FoundOnFetched(r.links, fetched, sc, cfg, web)
      && (forall p :: p in pages ==> p == sc.home || p in r.links)
      && (cfg.maxLinks > 0 ==> pages != [] && pages[0] == sc.home)
      && (|r.links| >= cfg.maxLinks || AllCollected(fetched, r.links, sc, cfg, web))
  {
    var home := sc.home;
    ghost var keep := Keep(sc, web.split);
    pages := [];
    fetched := [];
    var levels := if cfg.maxDepth > 1 then cfg.maxDepth else 1;
    var queue: seq<(string, int)> := [(home, 0)];
    var visited: set<string> := {};
    var collected: seq<string> := [];
    var robots := new Robots.RobotsCache();

    while queue != [] && |collected| < cfg.maxLinks
      invariant robots.Valid() && robots.Consistent(RobotsEnvOf(web))
      invariant QueueOk(queue, home, keep, cfg.maxDepth, levels)
      invariant LinksOk(collected, home, keep, cfg.maxLinks)
      invariant Covered(queue, collected, home, cfg.maxLinks)
      invariant Trace(queue, collected, visited, pages, fetched, sc, cfg, web)
      decreases LevelsLeft(queue, levels), FrontCount(queue)
    {
      if queue[0].0 in visited {
        assert QueueOk(queue[1..], home, keep, cfg.maxDepth, levels) && Progress(queue[1..], queue, levels)
            && Covered(queue[1..], collected, home, cfg.maxLinks) by {
          PopStep(queue, collected, home, keep, cfg.maxDepth, cfg.maxLinks, levels);
        }
        queue := queue[1..];
        continue;
      }
      var raised;
      raised, queue, collected, visited, pages, fetched := Visit(robots, queue, collected, visited, pages, fetched, sc, cfg, web, levels);
      if raised {
        return CrawlRaised, pages, fetched;
      }
    }
    return Crawled(collected), pages, fetched;
  }
}
