/**
 * The TypeScript crawler service: the title fallback of an article, the
 * static fetch with its retries and its fall-back to a headless browser, and
 * the breadth-first discovery of article links from a list of homepages.
 * HTTP, the browser, the HTML parser and the URL parser are oracles passed in
 * as parameters; the crawl is modelled with a single worker.
 */
module CrawlerService {
  import opened Wrappers
  import opened Strings
  import opened Frontier

  // ------------------------------------------------------------ deriveTitle

  /** The characters JavaScript's `.` does not match. */
  predicate IsJsLineTerminator(c: char) {
    c == '\n' || c == '\r' || c == '\U{2028}' || c == '\U{2029}'
  }

  /** At most this many characters may precede the terminator of a title sentence. */
  const MAX_SENTENCE_PREFIX: nat := 120

  /** How many words the last fallback keeps. */
  const TITLE_WORDS: nat := 10

  /**
   * A title sentence can start at `p` with `k` characters (1 to 120, no line
   * terminator) before a `.`, `!` or `?` that whitespace follows; the
   * sentence is `s[p..p + k + 1]`.
   */
  predicate SentenceAt(s: string, p: nat, k: nat) {
    && 1 <= k <= MAX_SENTENCE_PREFIX
    && p + k + 1 < |s|
    && (forall i :: p <= i < p + k ==> !IsJsLineTerminator(s[i]))
    && IsSentenceEnd(s[p + k])
    && IsJsSpace(s[p + k + 1])
  }

  /** The lazy quantifier at `p`: the smallest `k`, at least `k0`, that matches. */
  function ShortestAt(s: string, p: nat, k0: nat): (r: Option<nat>)
    ensures r.Some? ==> k0 <= r.value && SentenceAt(s, p, r.value)
    ensures r.Some? ==> forall k :: k0 <= k < r.value ==> !SentenceAt(s, p, k)
    ensures r.None? ==> forall k :: k0 <= k ==> !SentenceAt(s, p, k)
    decreases MAX_SENTENCE_PREFIX + 1 - k0
  {
    if k0 > MAX_SENTENCE_PREFIX then None
    else if SentenceAt(s, p, k0) then Some(k0)
    else ShortestAt(s, p, k0 + 1)
  }

  /** The leftmost match start at or after `p0`, with its lazy length. */
  function FirstSentence(s: string, p0: nat): (r: Option<(nat, nat)>)
    ensures r.Some? ==> p0 <= r.value.0 && SentenceAt(s, r.value.0, r.value.1)
    ensures r.Some? ==> forall p, k :: p0 <= p < r.value.0 ==> !SentenceAt(s, p, k)
    ensures r.Some? ==> forall k: nat :: k < r.value.1 ==> !SentenceAt(s, r.value.0, k)
    ensures r.None? ==> forall p, k :: p0 <= p ==> !SentenceAt(s, p, k)
    decreases |s| - p0
  {
    if p0 >= |s| then None
    else match ShortestAt(s, p0, 1)
      case Some(k) => Some((p0, k))
      case None =>
        assert forall k :: !SentenceAt(s, p0, k);
        FirstSentence(s, p0 + 1)
  }

  /**
   * The first short sentence of the content, trimmed: it ends in its
   * terminator and has at most 121 characters.
   */
  function SentenceTitle(content: string): (r: Option<string>)
    ensures r.None? <==> forall p, k :: !SentenceAt(content, p, k)
    ensures r.Some? ==> r.value != "" && |r.value| <= MAX_SENTENCE_PREFIX + 1 && IsSentenceEnd(r.value[|r.value| - 1])
  {
    match FirstSentence(content, 0)
    case None => None
    case Some((p, k)) =>
      var group := content[p..p + k + 1];
      TrimKeepsEnd(group, IsJsSpace);
      Some(JsTrim(group))
  }

  /** The first ten whitespace-separated words, joined by single spaces and trimmed. */
  function FirstWords(content: string): string {
    JsTrim(Join(Take(SplitRuns(content, IsJsSpace), TITLE_WORDS), " "))
  }

  /**
   * `deriveTitle`: the trimmed raw title, else the first short sentence of
   * the content, else its first ten words, else "Untitled".
   */
  function DeriveTitle(rawTitle: string, content: string): (r: string)
    ensures r != ""
    ensures JsTrim(rawTitle) != "" ==> r == JsTrim(rawTitle)
  {
    var title := JsTrim(rawTitle);
    if title != "" then title
    else match SentenceTitle(content)
      case Some(t) => t
      case None =>
        var words := FirstWords(content);
        if words != "" then words else "Untitled"
  }

  /**
   * With a blank raw title, "Untitled" comes out exactly when the content has
   * no words; otherwise the title is the first sentence or the first words,
   * and those are not blank.
   */
  lemma UntitledOnlyWithoutWords(rawTitle: string, content: string)
    requires JsTrim(rawTitle) == ""
    ensures AllSpace(content, IsJsSpace) ==> DeriveTitle(rawTitle, content) == "Untitled"
    ensures !AllSpace(content, IsJsSpace) ==>
      && FirstWords(content) != ""
      && DeriveTitle(rawTitle, content) == match SentenceTitle(content)
         case Some(t) => t
         case None => FirstWords(content)
  {
    if AllSpace(content, IsJsSpace) {
      assert SentenceTitle(content).None? by {
        forall i | 0 <= i < |content| ensures !IsSentenceEnd(content[i]) {
          assert IsJsSpace(content[i]);
        }
      }
      NoWordsInSpace(content);
    } else {
      WordsOutsideSpace(content);
    }
  }

  /** Blank content has only empty words, so the word fallback is blank. */
  lemma NoWordsInSpace(content: string)
    requires AllSpace(content, IsJsSpace)
    ensures FirstWords(content) == ""
  {
    var pieces := SplitRuns(content, IsJsSpace);
    var t := Take(pieces, TITLE_WORDS);
    SplitRunsAllSpace(content, IsJsSpace);
    forall k | 0 <= k < |t| ensures AllSpace(t[k], IsJsSpace) {
      assert t[k] == pieces[k];
    }
    JoinAllSpace(t, " ", IsJsSpace);
    TrimEmptyIffAllSpace(Join(t, " "), IsJsSpace);
  }

  /** Content with a non-blank character has a non-blank word among its first two pieces. */
  lemma WordsOutsideSpace(content: string)
    requires !AllSpace(content, IsJsSpace)
    ensures FirstWords(content) != ""
  {
    var pieces := SplitRuns(content, IsJsSpace);
    var t := Take(pieces, TITLE_WORDS);
    var joined := Join(t, " ");
    var k := FirstWhere(content, IsJsSpace);
    if k > 0 {
      assert t[0] == content[..k];
      JoinHead(t, " ");
      assert joined[0] == content[0];
    } else {
      var j := RunEnd(content, 0, IsJsSpace);
      assert j < |content|;
      var rest := content[j..];
      assert pieces == [""] + SplitRuns(rest, IsJsSpace);
      var k' := FirstWhere(rest, IsJsSpace);
      assert k' > 0;
      assert t[1] == rest[..k'];
      assert joined == t[0] + " " + Join(t[1..], " ");
      JoinHead(t[1..], " ");
      assert joined[1] == rest[0];
    }
    TrimEmptyIffAllSpace(joined, IsJsSpace);
  }

  // ------------------------------------------------------------- fetching

  /** `ArticleData`. */
  datatype ArticleData = ArticleData(url: string, title: string, content: string, source: string)

  /** An article, or the error the fetch rethrows. */
  datatype FetchResult = Article(data: ArticleData) | Thrown

  /**
   * The HTML parser as the service uses it: the text of `<body>` once
   * script, style, iframe, noscript and JSON-LD elements are removed, and the
   * text of `<title>`.
   */
  datatype HtmlLib = HtmlLib(bodyText: string -> string, titleText: string -> string)

  /** The article built from a page: whitespace-collapsed body text and the derived title. */
  function Assemble(url: string, html: string, lib: HtmlLib): (a: ArticleData)
    ensures a.url == url && a.source == url && a.title != ""
    ensures a.content == JsCollapse(lib.bodyText(html))
  {
    var content := JsCollapse(lib.bodyText(html));
    ArticleData(url, DeriveTitle(lib.titleText(html), content), content, url)
  }

  /**
   * The headless browser: whether it starts, whether the navigation waiting
   * for "networkidle2" and the one waiting for "domcontentloaded" succeed,
   * and the page HTML after a navigation.
   */
  datatype Browser = Browser(launches: bool, networkIdle: bool, domLoaded: bool, html: string)

  /**
   * `fetchDynamicArticle`: a failed "networkidle2" navigation is retried
   * with "domcontentloaded"; a second failure is rethrown.
   */
  function FetchDynamicArticle(url: string, b: Browser, lib: HtmlLib): (r: FetchResult)
    ensures r.Article? <==> b.launches && (b.networkIdle || b.domLoaded)
    ensures r.Article? ==> r.data == Assemble(url, b.html, lib)
  {
    if b.launches && (b.networkIdle || b.domLoaded) then Article(Assemble(url, b.html, lib)) else Thrown
  }

  /** One `axios.get`: the body, or an error with its code, whether axios raised it, and the response status if any. */
  datatype AxiosReply = Data(body: string) | Failure(code: string, isAxios: bool, status: Option<int>)

  /** The network errors that are retried. */
  predicate Transient(r: AxiosReply) {
    r.Failure? && (r.code == "ECONNRESET" || r.code == "ECONNABORTED")
  }

  /** An HTTP 403 raised by axios, which falls back to the browser. */
  predicate Forbidden(r: AxiosReply) {
    r.Failure? && r.isAxios && r.status == Some(403)
  }

  /**
   * How a GET that is not retried ends the fetch: `page` turns a body into
   * the article, `dynamic` is what the browser fetch gives.
   */
  function Settle(reply: AxiosReply, page: string -> ArticleData, dynamic: FetchResult): (r: FetchResult)
    ensures reply.Data? ==> r == Article(page(reply.body))
    ensures Forbidden(reply) ==> r == dynamic
    ensures reply.Failure? && !Forbidden(reply) ==> r == Thrown
  {
    if reply.Data? then Article(page(reply.body))
    else if Forbidden(reply) then dynamic
    else Thrown
  }

  /**
   * The retrying body of `fetchStaticArticle(url, retries)`, with `get(i)`
   * the reply to the `i`-th GET: the result and the number of GETs made.
   */
  function StaticAttempts(retries: int, get: nat -> AxiosReply, page: string -> ArticleData, dynamic: FetchResult,
                          attempt: nat): (r: (FetchResult, nat))
    ensures attempt < r.1 <= attempt + Max0(retries) + 1
    decreases Max0(retries)
  {
    var reply := get(attempt);
    if retries > 0 && Transient(reply) then StaticAttempts(retries - 1, get, page, dynamic, attempt + 1)
    else (Settle(reply, page, dynamic), attempt + 1)
  }

  /** `fetchStaticArticle(url, retries)`: the article or the error, and the number of GETs, at most `retries + 1`. */
  function FetchStaticArticle(url: string, retries: int, get: nat -> AxiosReply, b: Browser, lib: HtmlLib): (r: (FetchResult, nat))
    ensures 1 <= r.1 <= Max0(retries) + 1
  {
    StaticAttempts(retries, get, html => Assemble(url, html, lib), FetchDynamicArticle(url, b, lib), 0)
  }

  /** Every GET but the last failed with ECONNRESET or ECONNABORTED. */
  lemma {:induction false} RetriesOnlyTransient(retries: int, get: nat -> AxiosReply, page: string -> ArticleData,
                                               dynamic: FetchResult, attempt: nat)
    ensures forall i :: attempt <= i < StaticAttempts(retries, get, page, dynamic, attempt).1 - 1 ==> Transient(get(i))
    decreases Max0(retries)
  {
    if retries > 0 && Transient(get(attempt)) {
      RetriesOnlyTransient(retries - 1, get, page, dynamic, attempt + 1);
    }
  }

  /**
   * The last GET decides the result: a body gives the static article, a 403
   * the browser's result, any other error is rethrown (see `Settle`).
   */
  lemma {:induction false} LastReplySettles(retries: int, get: nat -> AxiosReply, page: string -> ArticleData,
                                           dynamic: FetchResult, attempt: nat)
    ensures StaticAttempts(retries, get, page, dynamic, attempt).0
         == Settle(get(StaticAttempts(retries, get, page, dynamic, attempt).1 - 1), page, dynamic)
    decreases Max0(retries)
  {
    if retries > 0 && Transient(get(attempt)) {
      LastReplySettles(retries - 1, get, page, dynamic, attempt + 1);
    }
  }

  /** A transient error ends the fetch only once every retry is spent. */
  lemma {:induction false} TransientExhausts(retries: int, get: nat -> AxiosReply, page: string -> ArticleData,
                                            dynamic: FetchResult, attempt: nat)
    ensures Transient(get(StaticAttempts(retries, get, page, dynamic, attempt).1 - 1)) ==>
              StaticAttempts(retries, get, page, dynamic, attempt).1 == attempt + Max0(retries) + 1
    decreases Max0(retries)
  {
    if retries > 0 && Transient(get(attempt)) {
      TransientExhausts(retries - 1, get, page, dynamic, attempt + 1);
    }
  }

  // ---------------------------------------------------------------- crawl

  /**
   * The web as the crawl sees it: the page HTML (None when the GET throws),
   * the `href` attributes of a page's `<a href>` elements in document order,
   * an href resolved against its page (None when it does not parse) and
   * the hostname of a URL (None when it does not parse).
   */
  datatype TsWeb = TsWeb(get: string -> Option<string>, hrefs: string -> seq<string>,
                         resolve: (string, string) -> Option<string>, hostname: string -> Option<string>)

  /** A queue item without its depth: the URL and the hostname of the seed it descends from. */
  datatype Target = Target(url: string, domain: string)

  /** What one `href` adds to `linksOnPage`. */
  function LinkOf(web: TsWeb, page: string, domain: string, href: string): (r: seq<string>)
    ensures |r| <= 1
    ensures forall i :: 0 <= i < |r| ==> web.hostname(r[i]) == Some(domain)
  {
    if href == "" then []
    else match web.resolve(href, page)
      case None => []
      case Some(abs) => if web.hostname(abs) == Some(domain) then [abs] else []
  }

  /**
   * `linksOnPage`: the non-empty hrefs that resolve against the page to a URL
   * on the seed's hostname, resolved, in document order, repeats kept.
   */
  function PageLinks(web: TsWeb, page: string, domain: string, hrefs: seq<string>): (r: seq<string>)
    ensures |r| <= |hrefs|
    ensures forall i :: 0 <= i < |r| ==> web.hostname(r[i]) == Some(domain)
  {
    if hrefs == [] then []
    else PageLinks(web, page, domain, hrefs[..|hrefs| - 1]) + LinkOf(web, page, domain, hrefs[|hrefs| - 1])
  }

  /** Every href that resolves to the seed's hostname contributes its resolved URL. */
  lemma {:induction false} PageLinksComplete(web: TsWeb, page: string, domain: string, hrefs: seq<string>, j: int)
    requires 0 <= j < |hrefs| && hrefs[j] != ""
    requires web.resolve(hrefs[j], page).Some? && web.hostname(web.resolve(hrefs[j], page).value) == Some(domain)
    ensures web.resolve(hrefs[j], page).value in PageLinks(web, page, domain, hrefs)
    decreases |hrefs|
  {
    var init := hrefs[..|hrefs| - 1];
    if j < |hrefs| - 1 {
      assert init[j] == hrefs[j];
      PageLinksComplete(web, page, domain, init, j);
    }
  }

  /** The `$("a[href]").each` loop. */
  method LinksOnPage(web: TsWeb, page: string, domain: string, html: string) returns (links: seq<string>)
    ensures links == PageLinks(web, page, domain, web.hrefs(html))
  {
    var hrefs := web.hrefs(html);
    links := [];
    for i := 0 to |hrefs|
      invariant links == PageLinks(web, page, domain, hrefs[..i])
    {
      assert hrefs[..i + 1][..i] == hrefs[..i];
      var href := hrefs[i];
      if href != "" {
        var abs := web.resolve(href, page);
        if abs.Some? && web.hostname(abs.value) == Some(domain) {
          links := links + [abs.value];
        }
      }
    }
    assert hrefs[..|hrefs|] == hrefs;
  }

  /**
   * The collected set after `for (link of linksOnPage) { if (collected.size
   * >= maxLinks) break; if (!collected.has(link) && link !== url)
   * collected.add(link) }`, as a list in insertion order.
   */
  function Gathered(collected: seq<string>, links: seq<string>, page: string, maxLinks: int): seq<string>
    decreases |links|
  {
    if links == [] || |collected| >= maxLinks then collected
    else
      var next := if links[0] !in collected && links[0] != page then collected + [links[0]] else collected;
      Gathered(next, links[1..], page, maxLinks)
  }

  /**
   * Collecting only appends, never repeats, stays within the budget, adds
   * only the page's links other than the page itself, and adds all of them
   * unless the budget runs out.
   */
  lemma {:induction false} GatheredSpec(collected: seq<string>, links: seq<string>, page: string, maxLinks: int)
    ensures var r := Gathered(collected, links, page, maxLinks);
      && |collected| <= |r| && r[..|collected|] == collected
      && (NoDup(collected) ==> NoDup(r))
      && (|collected| <= maxLinks ==> |r| <= maxLinks)
      && (|collected| >= maxLinks ==> r == collected)
      && (forall i :: |collected| <= i < |r| ==> r[i] in links && r[i] != page)
      && (|r| < maxLinks ==> forall x :: x in links && x != page ==> x in r)
    decreases |links|
  {
    if links != [] && |collected| < maxLinks {
      var next := if links[0] !in collected && links[0] != page then collected + [links[0]] else collected;
      GatheredSpec(next, links[1..], page, maxLinks);
      var r := Gathered(next, links[1..], page, maxLinks);
      assert r[..|collected|] == next[..|collected|] == collected;
      assert forall x :: x in links[1..] ==> x in links;
      assert forall x :: x in next ==> x in r by {
        assert r[..|next|] == next;
      }
    }
  }

  method CollectLinks(collected: seq<string>, links: seq<string>, page: string, maxLinks: int) returns (r: seq<string>)
    ensures r == Gathered(collected, links, page, maxLinks)
  {
    r := collected;
    var i := 0;
    while i < |links| && |r| < maxLinks
      invariant 0 <= i <= |links|
      invariant Gathered(r, links[i..], page, maxLinks) == Gathered(collected, links, page, maxLinks)
    {
      assert links[i..][1..] == links[i + 1..];
      if links[i] !in r && links[i] != page {
        r := r + [links[i]];
      }
      i := i + 1;
    }
    assert links[i..] == [] || |r| >= maxLinks;
  }

  /** The queue items a page adds: its links not yet visited, in order, one level deeper. */
  function Queued(links: seq<string>, visited: set<string>, depth: int, domain: string): (r: seq<(Target, int)>)
    ensures forall i :: 0 <= i < |r| ==> r[i].1 == depth && r[i].0.domain == domain && r[i].0.url in links && r[i].0.url !in visited
    ensures forall x :: x in links && x !in visited ==> (Target(x, domain), depth) in r
  {
    if links == [] then []
    else
      var init := links[..|links| - 1];
      var last := links[|links| - 1];
      assert forall x :: x in links ==> x in init || x == last;
      Queued(init, visited, depth, domain) + (if last !in visited then [(Target(last, domain), depth)] else [])
  }

  method EnqueueLinks(queue: seq<(Target, int)>, links: seq<string>, visited: set<string>, depth: int, domain: string)
    returns (q: seq<(Target, int)>)
    ensures q == queue + Queued(links, visited, depth, domain)
  {
    q := queue;
    for i := 0 to |links|
      invariant q == queue + Queued(links[..i], visited, depth, domain)
    {
      assert links[..i + 1][..i] == links[..i];
      if links[i] !in visited {
        q := q + [(Target(links[i], domain), depth)];
      }
    }
    assert links[..|links|] == links;
  }

  /** The hostnames of the seeds that have one. */
  function SeedHosts(seeds: seq<string>, web: TsWeb): set<string> {
    set i | 0 <= i < |seeds| && web.hostname(seeds[i]).Some? :: web.hostname(seeds[i]).value
  }

  /** `url` parses and its hostname is the hostname of a seed. */
  predicate OnSeedHost(url: string, seeds: seq<string>, web: TsWeb) {
    web.hostname(url).Some? && web.hostname(url).value in SeedHosts(seeds, web)
  }

  /**
   * Every seed at depth 0 with its hostname as the crawl domain; None when
   * some seed does not parse, which makes the crawl throw.
   */
  function SeedQueue(seeds: seq<string>, web: TsWeb): (r: Option<seq<(Target, int)>>)
    ensures r.None? <==> exists i :: 0 <= i < |seeds| && web.hostname(seeds[i]).None?
    ensures r.Some? ==> |r.value| == |seeds|
    ensures r.Some? ==> forall i :: 0 <= i < |seeds| ==>
      web.hostname(seeds[i]).Some? && r.value[i] == (Target(seeds[i], web.hostname(seeds[i]).value), 0)
  {
    if seeds == [] then Some([])
    else match (web.hostname(seeds[0]), SeedQueue(seeds[1..], web))
      case (Some(host), Some(rest)) =>
        var r := [(Target(seeds[0], host), 0)] + rest;
        assert forall i :: 1 <= i < |seeds| ==> seeds[i] == seeds[1..][i - 1];
        Some(r)
      case (None, _) => None
      case (_, None) =>
        var i :| 0 <= i < |seeds| - 1 && web.hostname(seeds[1..][i]).None?;
        assert seeds[1..][i] == seeds[i + 1];
        None
  }

  /**
   * The frontier: layered by depth, every URL on the hostname of the seed it
   * descends from, that hostname a seed's, depth-0 items the seeds, deeper
   * items below `maxDepth`.
   */
  predicate QueueOk(queue: seq<(Target, int)>, seeds: seq<string>, web: TsWeb, maxDepth: int, levels: int) {
    && Layered(queue)
    && (forall i :: 0 <= i < |queue| ==> 0 <= queue[i].1 < levels)
    && (forall i :: 0 <= i < |queue| ==>
          web.hostname(queue[i].0.url) == Some(queue[i].0.domain) && queue[i].0.domain in SeedHosts(seeds, web))
    && (forall i :: 0 <= i < |queue| ==> queue[i].1 == 0 ==> queue[i].0.url in seeds)
    && (forall i :: 0 <= i < |queue| ==> queue[i].1 > 0 ==> queue[i].1 < maxDepth)
  }

  /** The collected links: within the budget, no repeats, all on a seed's hostname. */
  predicate CollectedOk(collected: seq<string>, seeds: seq<string>, web: TsWeb, maxLinks: int) {
    && |collected| <= Max0(maxLinks)
    && NoDup(collected)
    && (forall i :: 0 <= i < |collected| ==> OnSeedHost(collected[i], seeds, web))
  }

  /** The seed items make a frontier that satisfies `QueueOk`. */
  lemma SeedQueueOk(seeds: seq<string>, web: TsWeb, maxDepth: int, levels: int)
    requires SeedQueue(seeds, web).Some? && levels >= 1
    ensures QueueOk(SeedQueue(seeds, web).value, seeds, web, maxDepth, levels)
  {
    var q := SeedQueue(seeds, web).value;
    forall i | 0 <= i < |q|
      ensures web.hostname(q[i].0.url) == Some(q[i].0.domain) && q[i].0.domain in SeedHosts(seeds, web)
    {
      assert q[i] == (Target(seeds[i], web.hostname(seeds[i]).value), 0);
    }
  }

  /** Popping the front item keeps the frontier's invariant and makes progress. */
  lemma PopStep(queue: seq<(Target, int)>, seeds: seq<string>, web: TsWeb, maxDepth: int, levels: int)
    requires queue != [] && QueueOk(queue, seeds, web, maxDepth, levels)
    ensures QueueOk(queue[1..], seeds, web, maxDepth, levels) && Progress(queue[1..], queue, levels)
  {
    QueueStep(queue, [], levels);
    assert queue[1..] + [] == queue[1..];
  }

  /** Collecting a page's links keeps the collected list's invariant. */
  lemma CollectStep(collected: seq<string>, links: seq<string>, page: string, domain: string,
                    seeds: seq<string>, web: TsWeb, maxLinks: int)
    requires domain in SeedHosts(seeds, web)
    requires forall x :: x in links ==> web.hostname(x) == Some(domain)
    requires CollectedOk(collected, seeds, web, maxLinks) && |collected| < maxLinks
    ensures CollectedOk(Gathered(collected, links, page, maxLinks), seeds, web, maxLinks)
  {
    var r := Gathered(collected, links, page, maxLinks);
    GatheredSpec(collected, links, page, maxLinks);
    forall i | 0 <= i < |r| ensures OnSeedHost(r[i], seeds, web) {
      if i >= |collected| {
        assert r[i] in links;
      } else {
        assert r[i] == collected[i];
      }
    }
  }

  /** Queueing a page's unvisited links one level deeper keeps the frontier's invariant and makes progress. */
  lemma EnqueueStep(queue: seq<(Target, int)>, links: seq<string>, visited: set<string>,
                    seeds: seq<string>, web: TsWeb, maxDepth: int, levels: int)
    requires queue != [] && QueueOk(queue, seeds, web, maxDepth, levels)
    requires levels == if maxDepth > 1 then maxDepth else 1
    requires queue[0].1 + 1 < maxDepth
    requires forall x :: x in links ==> web.hostname(x) == Some(queue[0].0.domain)
    ensures var next := queue[1..] + Queued(links, visited, queue[0].1 + 1, queue[0].0.domain);
      QueueOk(next, seeds, web, maxDepth, levels) && Progress(next, queue, levels)
  {
    var added := Queued(links, visited, queue[0].1 + 1, queue[0].0.domain);
    QueueStep(queue, added, levels);
    var next := queue[1..] + added;
    forall i | 0 <= i < |next|
      ensures web.hostname(next[i].0.url) == Some(next[i].0.domain) && next[i].0.domain in SeedHosts(seeds, web)
      ensures next[i].1 == 0 ==> next[i].0.url in seeds
      ensures next[i].1 > 0 ==> next[i].1 < maxDepth
    {
      if i >= |queue| - 1 {
        assert next[i] == added[i - (|queue| - 1)];
        assert next[i].0.url in links;
      } else {
        assert next[i] == queue[i + 1];
      }
    }
  }

  /**
   * The end of a visit to the front item of `popped`, whose page links are
   * `links`: they are collected and, above the depth limit, queued one level
   * deeper after `rest`.
   */
  method Expand(popped: seq<(Target, int)>, rest: seq<(Target, int)>, links: seq<string>, collected: seq<string>,
                visited: set<string>, ghost seeds: seq<string>, web: TsWeb, maxLinks: int, maxDepth: int, levels: int)
    returns (queue: seq<(Target, int)>, collected': seq<string>)
    requires popped != [] && rest == popped[1..] && QueueOk(popped, seeds, web, maxDepth, levels)
    requires levels == if maxDepth > 1 then maxDepth else 1
    requires forall x :: x in links ==> web.hostname(x) == Some(popped[0].0.domain)
    requires CollectedOk(collected, seeds, web, maxLinks) && |collected| < maxLinks
    ensures collected' == Gathered(collected, links, popped[0].0.url, maxLinks)
    ensures queue == if popped[0].1 + 1 < maxDepth
                     then rest + Queued(links, visited, popped[0].1 + 1, popped[0].0.domain) else rest
    ensures CollectedOk(collected', seeds, web, maxLinks)
    ensures QueueOk(queue, seeds, web, maxDepth, levels) && Progress(queue, popped, levels)
  {
    var item := popped[0];
    collected' := CollectLinks(collected, links, item.0.url, maxLinks);
    CollectStep(collected, links, item.0.url, item.0.domain, seeds, web, maxLinks);
    queue := Requeue(popped, rest, links, visited, seeds, web, maxDepth, levels);
  }

  /** The queue after a visit: the page's unvisited links one level deeper, above the depth limit. */
  method Requeue(popped: seq<(Target, int)>, rest: seq<(Target, int)>, links: seq<string>, visited: set<string>,
                 ghost seeds: seq<string>, web: TsWeb, maxDepth: int, levels: int)
    returns (queue: seq<(Target, int)>)
    requires popped != [] && rest == popped[1..] && QueueOk(popped, seeds, web, maxDepth, levels)
    requires levels == if maxDepth > 1 then maxDepth else 1
    requires forall x :: x in links ==> web.hostname(x) == Some(popped[0].0.domain)
    ensures queue == if popped[0].1 + 1 < maxDepth
                     then rest + Queued(links, visited, popped[0].1 + 1, popped[0].0.domain) else rest
    ensures QueueOk(queue, seeds, web, maxDepth, levels) && Progress(queue, popped, levels)
  {
    var item := popped[0];
    if item.1 + 1 < maxDepth {
      queue := EnqueueLinks(rest, links, visited, item.1 + 1, item.0.domain);
      EnqueueStep(popped, links, visited, seeds, web, maxDepth, levels);
    } else {
      queue := rest;
      PopStep(popped, seeds, web, maxDepth, levels);
    }
  }

  /** The links a page contributes when its GET gives HTML and its URL has a hostname; none otherwise. */
  function LinksOf(url: string, web: TsWeb): seq<string> {
    if web.get(url).Some? && web.hostname(url).Some?
    then PageLinks(web, url, web.hostname(url).value, web.hrefs(web.get(url).value))
    else []
  }

  /** Every link found on the pages of `fetched`, other than the page itself, is collected. */
  predicate AllGathered(fetched: seq<string>, collected: seq<string>, web: TsWeb) {
    forall p :: p in fetched ==> forall l :: l in LinksOf(p, web) && l != p ==> l in collected
  }

  /** Every collected link was found on one of the pages of `fetched`, and is not that page. */
  predicate FoundOnFetched(collected: seq<string>, fetched: seq<string>, web: TsWeb) {
    forall l :: l in collected ==> exists p :: p in fetched && l in LinksOf(p, web) && l != p
  }

  /**
   * Gathering a page's links keeps every collected link traceable to a
   * fetched page, the new page included.
   */
  lemma GatherSound(fetched: seq<string>, collected: seq<string>, url: string, web: TsWeb, maxLinks: int)
    requires FoundOnFetched(collected, fetched, web)
    ensures FoundOnFetched(Gathered(collected, LinksOf(url, web), url, maxLinks), fetched + [url], web)
  {
    var links := LinksOf(url, web);
    var after := Gathered(collected, links, url, maxLinks);
    GatheredSpec(collected, links, url, maxLinks);
    forall l | l in after ensures exists p :: p in fetched + [url] && l in LinksOf(p, web) && l != p {
      GatheredFrom(collected, links, url, maxLinks, l);
      if l in collected {
        var p :| p in fetched && l in LinksOf(p, web) && l != p;
        assert p in fetched + [url];
      } else {
        assert url in fetched + [url];
      }
    }
  }

  /** A gathered link was collected before, or is one of the page's links other than the page. */
  lemma GatheredFrom(collected: seq<string>, links: seq<string>, page: string, maxLinks: int, l: string)
    requires l in Gathered(collected, links, page, maxLinks)
    ensures l in collected || (l in links && l != page)
  {
    var after := Gathered(collected, links, page, maxLinks);
    GatheredSpec(collected, links, page, maxLinks);
    var i :| 0 <= i < |after| && after[i] == l;
    if i < |collected| {
      assert after[..|collected|][i] == l;
    }
  }

  /**
   * Gathering a page's links keeps every fetched page's links collected,
   * the new page's included, unless the budget fills up.
   */
  lemma GatherComplete(fetched: seq<string>, collected: seq<string>, url: string, web: TsWeb, maxLinks: int)
    requires AllGathered(fetched, collected, web)
    ensures var after := Gathered(collected, LinksOf(url, web), url, maxLinks);
      |after| >= maxLinks || AllGathered(fetched + [url], after, web)
  {
    var links := LinksOf(url, web);
    var after := Gathered(collected, links, url, maxLinks);
    GatheredSpec(collected, links, url, maxLinks);
    if |after| < maxLinks {
      assert forall x :: x in collected ==> x in after by {
        assert after[..|collected|] == collected;
      }
      forall p | p in fetched + [url] ensures forall l :: l in LinksOf(p, web) && l != p ==> l in after {
        if p !in fetched {
          assert p == url;
        }
      }
    }
  }

  /**
   * A visit to the front item of `popped`, just marked visited: the GET and,
   * when it gives HTML, the page's links collected and queued. A page whose
   * GET throws changes nothing but the frontier; a page with HTML joins
   * `fetched`, and its links are collected unless the budget fills up.
   */
  method VisitItem(popped: seq<(Target, int)>, rest: seq<(Target, int)>, collected: seq<string>, visited: set<string>,
                   ghost fetched: seq<string>, ghost seeds: seq<string>, web: TsWeb, maxLinks: int, maxDepth: int, levels: int)
    returns (queue: seq<(Target, int)>, collected': seq<string>, ghost fetched': seq<string>)
    requires popped != [] && rest == popped[1..] && QueueOk(popped, seeds, web, maxDepth, levels)
    requires levels == if maxDepth > 1 then maxDepth else 1
    requires CollectedOk(collected, seeds, web, maxLinks) && |collected| < maxLinks
    requires AllGathered(fetched, collected, web)
    requires FoundOnFetched(collected, fetched, web)
    ensures fetched' == if web.get(popped[0].0.url).Some? then fetched + [popped[0].0.url] else fetched
    ensures CollectedOk(collected', seeds, web, maxLinks)
    ensures QueueOk(queue, seeds, web, maxDepth, levels) && Progress(queue, popped, levels)
    ensures |collected'| >= maxLinks || AllGathered(fetched', collected', web)
    ensures FoundOnFetched(collected', fetched', web)
  {
    var url, domain := popped[0].0.url, popped[0].0.domain;
    var html := web.get(url);
    if html.None? {
      PopStep(popped, seeds, web, maxDepth, levels);
      return rest, collected, fetched;
    }
    var links := LinksOnPage(web, url, domain, html.value);
    assert links == LinksOf(url, web);
    GatherComplete(fetched, collected, url, web, maxLinks);
    GatherSound(fetched, collected, url, web, maxLinks);
    fetched' := fetched + [url];
    queue, collected' := Expand(popped, rest, links, collected, visited, seeds, web, maxLinks, maxDepth, levels);
  }

  /**
   * The crawl's record of its visits: `pages` are the visited URLs in
   * order, each once, each on a seed's hostname, the first seed first, and
   * only seeds without a depth beyond theirs; `fetched` are those whose GET
   * gave HTML. Every collected link was found on a fetched page, and unless
   * the budget is spent every link found on a fetched page is collected.
   * `start` is the seeded queue.
   */
  ghost predicate Trace(queue: seq<(Target, int)>, collected: seq<string>, visited: set<string>, pages: seq<string>,
                        fetched: seq<string>, start: seq<(Target, int)>, seeds: seq<string>, web: TsWeb,
                        maxLinks: int, maxDepth: int) {
    && NoDup(pages) && (forall p :: p in visited <==> p in pages)
    && (forall p :: p in pages ==> OnSeedHost(p, seeds, web))
    && (maxDepth <= 1 ==> forall p :: p in pages ==> p in seeds)
    && (pages == [] ==> queue == start && collected == [])
    && (pages != [] ==> seeds != [] && pages[0] == seeds[0])
    && (forall p :: p in fetched <==> p in pages && web.get(p).Some?)
    && (|collected| >= maxLinks || AllGathered(fetched, collected, web))
    && FoundOnFetched(collected, fetched, web)
  }

  /** Visiting a new page adds it to the fetched list exactly when its GET gives HTML. */
  lemma FetchStep(pages: seq<string>, fetched: seq<string>, url: string, web: TsWeb)
    requires forall p :: p in fetched <==> p in pages && web.get(p).Some?
    ensures var fetched' := if web.get(url).Some? then fetched + [url] else fetched;
      forall p :: p in fetched' <==> p in pages + [url] && web.get(p).Some?
  {
  }

  /**
   * A visit to the unvisited front item of `queue`: it is marked visited
   * and recorded in `pages`, then `VisitItem` runs. The record stays a
   * trace of the crawl, and the frontier and the collected list keep their
   * invariants.
   */
  method Visit(queue: seq<(Target, int)>, collected: seq<string>, visited: set<string>, ghost pages: seq<string>,
               ghost fetched: seq<string>, ghost start: seq<(Target, int)>, ghost seeds: seq<string>, web: TsWeb,
               maxLinks: int, maxDepth: int, levels: int)
    returns (queue': seq<(Target, int)>, collected': seq<string>, visited': set<string>,
             ghost pages': seq<string>, ghost fetched': seq<string>)
    requires queue != [] && queue[0].0.url !in visited && |collected| < maxLinks
    requires levels == if maxDepth > 1 then maxDepth else 1
    requires SeedQueue(seeds, web) == Some(start)
    requires QueueOk(queue, seeds, web, maxDepth, levels) && CollectedOk(collected, seeds, web, maxLinks)
    requires Trace(queue, collected, visited, pages, fetched, start, seeds, web, maxLinks, maxDepth)
    ensures visited' == visited + {queue[0].0.url} && pages' == pages + [queue[0].0.url]
    ensures QueueOk(queue', seeds, web, maxDepth, levels) && Progress(queue', queue, levels)
    ensures CollectedOk(collected', seeds, web, maxLinks)
    ensures Trace(queue', collected', visited', pages', fetched', start, seeds, web, maxLinks, maxDepth)
  {
    var url := queue[0].0.url;
    visited' := visited + {url};
    NoDupSnoc(pages, url);
    pages' := pages + [url];
    assert OnSeedHost(url, seeds, web);
    assert maxDepth <= 1 ==> url in seeds;
    assert pages == [] ==> url == seeds[0];
    queue', collected', fetched' := VisitItem(queue, queue[1..], collected, visited', fetched, seeds, web, maxLinks, maxDepth, levels);
    assert forall p :: p in fetched' <==> p in pages' && web.get(p).Some? by {
      FetchStep(pages, fetched, url, web);
    }
  }

  /** The final `slice(0, maxLinks)` keeps every link: the budget already bounds the list. */
  lemma SliceWithinBudget(collected: seq<string>, maxLinks: int)
    requires |collected| <= Max0(maxLinks)
    ensures SliceTo(collected, maxLinks) == collected
  {
  }

  /**
   * `crawlArticlesFromHomepage(seeds, maxLinks, maxDepth)` with one worker:
   * None when a seed does not parse; otherwise at most `maxLinks` links, no
   * repeats, each on the hostname of a seed. `pages` lists the URLs visited,
   * in order: each once, the first seed first, each on a seed's hostname,
   * and only seeds when `maxDepth` is at most 1. `fetched` lists the visited
   * pages whose GET gave HTML; unless the budget is spent, every link found
   * on them other than the page itself is collected.
   */
  method CrawlArticlesFromHomepage(seeds: seq<string>, maxLinks: int, maxDepth: int, web: TsWeb)
    returns (r: Option<seq<string>>, ghost pages: seq<string>, ghost fetched: seq<string>)
    ensures r.None? <==> exists i :: 0 <= i < |seeds| && web.hostname(seeds[i]).None?
    ensures r.Some? ==> CollectedOk(r.value, seeds, web, maxLinks)
    ensures NoDup(pages)
    ensures forall p :: p in pages ==> OnSeedHost(p, seeds, web)
    ensures maxDepth <= 1 ==> forall p :: p in pages ==> p in seeds
    ensures forall p :: p in fetched <==> p in pages && web.get(p).Some?
    ensures r.Some? && seeds != [] && maxLinks > 0 ==> pages != [] && pages[0] == seeds[0]
    ensures r.Some? ==> |r.value| == Max0(maxLinks) || AllGathered(fetched, r.value, web)
    ensures r.Some? ==> FoundOnFetched(r.value, fetched, web)
  {
    pages := [];
    fetched := [];
    var initial := SeedQueue(seeds, web);
    if initial.None? {
      return None, pages, fetched;
    }
    var levels := if maxDepth > 1 then maxDepth else 1;
    var queue := initial.value;
    SeedQueueOk(seeds, web, maxDepth, levels);
    var visited: set<string> := {};
    var collected: seq<string> := [];
    while |collected| < maxLinks
      invariant QueueOk(queue, seeds, web, maxDepth, levels)
      invariant CollectedOk(collected, seeds, web, maxLinks)
      invariant Trace(queue, collected, visited, pages, fetched, initial.value, seeds, web, maxLinks, maxDepth)
      decreases LevelsLeft(queue, levels), FrontCount(queue)
    {
      if queue == [] {
        break;
      }
      if queue[0].0.url in visited {
        assert QueueOk(queue[1..], seeds, web, maxDepth, levels) && Progress(queue[1..], queue, levels) by {
          PopStep(queue, seeds, web, maxDepth, levels);
        }
        queue := queue[1..];
        continue;
      }
      queue, collected, visited, pages, fetched :=
        Visit(queue, collected, visited, pages, fetched, initial.value, seeds, web, maxLinks, maxDepth, levels);
    }
    SliceWithinBudget(collected, maxLinks);
    return Some(SliceTo(collected, maxLinks)), pages, fetched;
  }
}
