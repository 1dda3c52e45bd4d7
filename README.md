# AI-Gov-Content-Curator crawler core, modelled in Dafny

This project models the core of the AI-Gov-Content-Curator news pipeline:

- **Crawlers.** The two crawlers that discover article links:
  - the Python breadth-first crawler with its URL canonicaliser, fetch retry policy, robots.txt cache and text extractor;
  - the TypeScript single-domain crawler with its title derivation and static-fetch retry.
- **Summariser.** The chunking and retry control flow of the Python summariser.
- **De-duplication.** The n-grams, the 32-bit string hash, the MinHash signature and the LSH index.
- **Small backend rules**:
  - matching an article against a subscription and queueing notifications;
  - the article clean-up heuristics;
  - cleaning the topic extractor's list and its key/model rotation;
  - language detection;
  - the favourite toggle;
  - the rating schema.

Every library the code leans on becomes a function-typed parameter, an oracle. These are the URL parser, regular expressions, BeautifulSoup, readability, robotparser, the HTTP client, the headless browser, the generative-AI client and `franc`. Network calls that may answer differently each time are indexed by the attempt or call number.

Python and JavaScript strings are `seq<char>`. Python's and JavaScript's whitespace classes are modelled separately (`Strings.IsPySpace`, `Strings.IsJsSpace`), and so are `str.strip` and `String.prototype.trim`.

State that the source mutates is state in the model:

- The crawl frontiers are `seq` queues with a visited `set` and a collected `seq`, updated in `while` loops.
- `MinHash.hashes` and `LSHIndex.bands` are arrays updated in place.
- The robots cache is a class with a `map` field.
- A user's favourites are a field of a `User` object.
- The ratings collection is a class.

Most loop methods are proved equal to a recursive specification function, and the properties are proved as lemmas about that function. The two breadth-first crawl loops (`Crawler.Explore` and `CrawlerService.CrawlArticlesFromHomepage`) are not: they are proved against loop invariants and two statements about the fetched pages. Completeness: unless the link budget is spent, every link found on every page that was fetched is collected. Soundness: every returned link was found on a page that was fetched.

One module per source file: `UrlUtils`, `Config`, `Crawler`, `Frontier` (the layered-queue termination argument shared by both crawlers), `Fetcher`, `Robots`, `Extractor`, `Summarizer`, `CrawlerService`, `TextNormalization`, `Similarity`, `Notification`, `CleanData`, `TopicExtractor`, `LanguageDetection`, `UserController`, `RatingModel`. `Wrappers` holds Option/Result and `Strings` holds the string primitives.

Behaviours of the code worth noting:

- `toggleFavoriteArticle` toggled twice restores the list only when the id was absent, or was present exactly once and in last place. An id present once but not in last place moves to the end, so the list is not restored (`UserController.ToggleTwice`).
- `extractTopics` retries a key/model pair after any error, not only after a rate-limit or overload error. The classification only decides whether to sleep before the next attempt, and a pair is always given its two attempts (`TopicExtractor.TryPair`).
- In `summarize_content`, an empty answer from the model on the last attempt leaves that chunk without any summary. The extractive fallback is used only when the call raises (`Summarizer.ChunkAttemptsNone`).
- `MinHash.fromSignature(getSignature())` is the identity except for a signature of zero hashes. That one reads back as a single 0, because `"".split(",")` is `[""]` and `Number("")` is 0 (`Similarity.SignatureRoundTrip`).

## Model

| member | source | states |
|---|---|---|
| UrlUtils.Defrag | python_crawler/src/utils.py:17 | the result has no `#`, is a prefix of the input, and is the input itself when there was no fragment |
| UrlUtils.CollapseSlashes | python_crawler/src/utils.py:29 | the path has no `//` run, keeps its first character, never grows, and is unchanged when it already had no run |
| UrlUtils.CollapseSlashesIdempotent | python_crawler/src/utils.py:29 | collapsing slash runs twice is the same as once |
| UrlUtils.StripDefaultPort | python_crawler/src/utils.py:24-27 | `:80` is cut for http and `:443` for https; every other netloc is kept; the result is a prefix of the netloc |
| UrlUtils.NormalizeParts | python_crawler/src/utils.py:12-30 | rejected exactly when the stripped input is blank or carries a scheme other than http(s); otherwise the parts are canonical (http(s) scheme, lower-case host, non-empty path without `//`, no fragment); the scheme defaults to http; the default port is stripped; the query is kept |
| UrlUtils.NormalizeUrl | python_crawler/src/utils.py:12-30 | the result is "" exactly when the input is rejected, and otherwise starts with `http://` or `https://` |
| UrlUtils.NormalizeIdempotent | python_crawler/src/utils.py:12-30 | normalising an already normalised URL changes nothing, given a URL parser that reads back the parts it printed |
| UrlUtils.NormalizeCanonical | python_crawler/src/utils.py:12-30 | a canonical URL with no default port normalises to its own parts |
| UrlUtils.PreparedCanonical | python_crawler/src/utils.py:13-17 | stripping and defragmenting leave a printed canonical URL unchanged |
| UrlUtils.ShouldSkipNormalized | python_crawler/src/utils.py:33-38 | a normalised URL is skipped exactly when the lower-cased `urlparse` path, with the last segment's parameters cut, ends with a skip-list extension |
| UrlUtils.ShouldSkipUrl | python_crawler/src/utils.py:33-38 | a scheme other than http(s) is always skipped; for a path without `;` the URL is skipped exactly when the scheme is not http(s) or the lower-cased path ends with a skip-list extension |
| UrlUtils.ParamsCut | python_crawler/src/utils.py:34 | the `urlparse` path is a prefix of the `urlsplit` path that keeps the whole last segment up to its first `;`, and stops at that `;` |
| UrlUtils.SkippedWithParams | python_crawler/src/utils.py:33-38 | an http(s) URL whose path before its parameters ends with a skip extension is skipped, with or without `;` parameters |
| UrlUtils.ExtensionlessNotSkipped | python_crawler/src/utils.py:33-38 | an http(s) URL whose last path segment before its parameters has no `.` is never skipped |
| UrlUtils.ImageWithParamsSkipped | python_crawler/src/utils.py:33-38 | `/img.png;v=1` over http is skipped |
| UrlUtils.PlainPathNotSkipped | python_crawler/src/utils.py:33-38 | an http(s) path with neither `.` nor `;` is not skipped |
| UrlUtils.AnyMatchExists | python_crawler/src/utils.py:42-46 | `any(p.search(url) ...)` holds exactly when some pattern matches |
| UrlUtils.MatchesPatterns | python_crawler/src/utils.py:41-46 | accepted exactly when no exclude pattern matches and either there are no include patterns or one of them matches |
| Crawler.DomainOf | crawler/python_crawler/src/crawler.py:22-26 | an entry without `://` is kept as is; an entry with `://` becomes its netloc when that is non-empty |
| Crawler.NormalizeAllowedDomains | crawler/python_crawler/src/crawler.py:19-27 | the loop builds exactly the set of reduced entries; an empty list defaults to the seed host; plain host entries are members |
| Crawler.InScope | crawler/python_crawler/src/crawler.py:98-103 | an allowed host is always in scope; a host in scope ends with some allowed domain |
| Crawler.SubdomainInScope | crawler/python_crawler/src/crawler.py:98-103 | with subdomains allowed, a host ending in `.` followed by a host in scope is in scope |
| Crawler.FetchArticle | crawler/python_crawler/src/crawler.py:30-49 | None exactly when neither the static page nor the browser page produced HTML; the dynamic text replaces the static text only when it is strictly longer; the article's url and source are the URL and its title is non-empty |
| Crawler.Compile | crawler/python_crawler/src/crawler.py:62-63 | one compiled pattern per pattern, in order |
| Crawler.FoundLinksSound | crawler/python_crawler/src/crawler.py:92-109 | every found link passes the skip list, the domain scope and the patterns, and is not the homepage |
| Crawler.FoundLinksComplete | crawler/python_crawler/src/crawler.py:92-109 | every admissible candidate other than the homepage is found |
| Crawler.CheckLink | crawler/python_crawler/src/crawler.py:93-109 | the candidate is the normalised join of page and href, and it is kept exactly when it is admissible and not the homepage |
| Crawler.FindLinks | crawler/python_crawler/src/crawler.py:90-109 | the anchor loop returns exactly the found-links specification, and every link passes the filter |
| Crawler.Collect | crawler/python_crawler/src/crawler.py:111-113 | the collected list is extended, never reordered, stays duplicate-free, never passes `max_links`, only gains found links, and takes every found link while below the budget |
| Crawler.AddToCollected | crawler/python_crawler/src/crawler.py:111-113 | the collecting loop computes the collect specification |
| Crawler.NewEntries | crawler/python_crawler/src/crawler.py:116-118 | every new queue entry is a found link that is not visited, at the next depth |
| Crawler.Enqueue | crawler/python_crawler/src/crawler.py:115-118 | the enqueue loop appends exactly the new entries |
| Crawler.PopStep | crawler/python_crawler/src/crawler.py:75-79 | popping the front keeps the queue invariant and makes progress in the termination measure |
| Crawler.CollectStep | crawler/python_crawler/src/crawler.py:111-113 | collecting admissible links keeps the collected list bounded, duplicate-free, homepage-free and admissible |
| Crawler.EnqueueStep | crawler/python_crawler/src/crawler.py:115-118 | enqueueing next-depth links keeps the queue layered, in scope and within `max_depth`, and makes progress |
| Crawler.CoverStep | crawler/python_crawler/src/crawler.py:111-118 | while under the budget, every queued page is the homepage or already collected |
| Crawler.ExpandStep | crawler/python_crawler/src/crawler.py:111-118 | after `Expand`, the collected list stays admissible and only grows, and the queue keeps its invariants, makes progress and stays covered |
| Crawler.Expand | crawler/python_crawler/src/crawler.py:111-118 | the collected list gains the page's links as `Collect` adds them; the queue gains the unvisited ones one level deeper only when `depth + 1 < max_depth`, else it is the popped queue |
| Crawler.CollectComplete | crawler/python_crawler/src/crawler.py:111-113 | collecting a fetched page's links keeps every fetched page's links collected, unless the budget is spent |
| Crawler.CollectFrom | crawler/python_crawler/src/crawler.py:111-113 | every link in the collected list after collecting was already collected or is one of the page's links |
| Crawler.CollectSound | crawler/python_crawler/src/crawler.py:111-113 | after collecting a page's links, every collected link was found on a fetched page |
| Crawler.VisitPage | crawler/python_crawler/src/crawler.py:76-118 | one visit raises exactly when robots allow the page and its fetch raises, and then changes nothing else; the page joins the fetched list exactly when robots allow it and it gives HTML; every invariant, completeness and soundness are preserved |
| Crawler.ShallowStep | crawler/python_crawler/src/crawler.py:115-118 | with `max_depth` at most 1 nothing is queued beyond the homepage, so only the homepage is ever visited |
| Crawler.Visit | crawler/python_crawler/src/crawler.py:76-118 | a visit to an unvisited front page records it as visited and keeps the crawl's trace: each page visited once, the homepage first, only the homepage when `max_depth` ≤ 1, the fetched pages exactly the allowed ones with HTML, completeness and soundness |
| Crawler.FetchPage | crawler/python_crawler/src/crawler.py:81-86 | no page exactly when robots.txt is respected and the origin's robots.txt refuses the URL; otherwise the outcome is the fetch specification's; the robots cache stays consistent with the robots.txt answers |
| Crawler.Explore | crawler/python_crawler/src/crawler.py:65-120 | the BFS loop terminates; the result is bounded by `max_links`, duplicate-free, admissible and homepage-free; every page is visited at most once, the homepage first; with `max_depth` ≤ 1 only the homepage is visited; every visited page is the homepage or a collected link; a page is fetched exactly when it was visited, robots allow it and it gave HTML; every returned link was found on a fetched page; unless `max_links` links were collected, every link found on a fetched page is collected |
| Crawler.CrawlHomepage | crawler/python_crawler/src/crawler.py:52-120 | an invalid seed gives []; otherwise the links are bounded, distinct, admissible and never the seed; each page is visited at most once, the seed first; with `max_depth` ≤ 1 only the seed is visited; every returned link was found on a fetched page; unless `max_links` links were collected, every link found on a fetched page is collected |
| Frontier.CountAtAppend | crawler/python_crawler/src/crawler.py:118 | counting entries at a depth distributes over queue concatenation |
| Frontier.CountAtNone | crawler/python_crawler/src/crawler.py:118 | a queue without entries at a depth counts none there |
| Frontier.QueueStep | crawler/python_crawler/src/crawler.py:115-118 | popping the front and appending next-depth entries keeps the queue layered and decreases (levels left, front-level count) |
| Fetcher.FetchHtml | crawler/python_crawler/src/fetcher.py:40-69 | the attempt loop returns the outcome and attempt count of the retry specification |
| Fetcher.AttemptsBound | crawler/python_crawler/src/fetcher.py:47 | at least one and at most `max_retries`+1 GET attempts |
| Fetcher.AlwaysFailingExhausts | crawler/python_crawler/src/fetcher.py:52-69 | when every attempt times out, fails or answers 403/429/500/502/503/504, the result is None after exactly `max_retries`+1 attempts, without raising |
| Fetcher.RaisesOnlyOnOtherFailure | crawler/python_crawler/src/fetcher.py:62 | an exception escapes only when some attempt failed with an error other than a timeout or client error |
| Fetcher.HtmlComesFromHtmlReply | crawler/python_crawler/src/fetcher.py:52-61 | HTML is returned only from a non-retryable reply with an HTML content type, and every earlier attempt was retryable |
| Fetcher.NonHtmlStopsAtOnce | crawler/python_crawler/src/fetcher.py:58-60 | a non-HTML content type returns None after one attempt |
| Fetcher.FetchDynamic | crawler/python_crawler/src/fetcher.py:19-37 | None exactly when Playwright is missing or both navigations time out; an exception when a navigation fails with an error other than a timeout; otherwise the page content |
| Robots.Origin | python_crawler/src/robots.py:13-14 | the cache key is `scheme://netloc` |
| Robots.RobotsUrl | python_crawler/src/robots.py:17 | the robots URL is the origin followed by `/robots.txt` |
| Robots.RulesetFor | python_crawler/src/robots.py:18-26 | a non-empty ruleset comes only from a reply below 400 with a body, and is parsed from the body's lines |
| Robots.ErrorsGiveNoRules | python_crawler/src/robots.py:20-26 | a status of 400 or more, or a failed fetch, yields the empty ruleset |
| Robots.RobotsCache.constructor | python_crawler/src/robots.py:9-10 | the cache starts empty |
| Robots.RobotsCache.Allowed | python_crawler/src/robots.py:12-28 | the verdict is the cached ruleset's `can_fetch`; an origin already cached is neither re-fetched nor replaced; a new origin is fetched once and added; a cache consistent with the robots.txt answers stays so, and its verdict is then `can_fetch` on the origin's robots.txt |
| Robots.LookupTwice | python_crawler/src/robots.py:15-28 | two lookups on one origin judge both URLs by the ruleset of a single fetch |
| Extractor.CleanedHtml | backend/src/python_crawler/src/extractor.py:20-28 | the readability summary when readability succeeds, the raw HTML when it fails |
| Extractor.ReadabilityTitle | backend/src/python_crawler/src/extractor.py:19-25 | the title before the `<title>` tag is considered is never empty |
| Extractor.Title | backend/src/python_crawler/src/extractor.py:19-32 | a non-blank stripped `<title>` wins; without a `<title>` string the readability title stands; the title is never empty |
| Extractor.TitleSources | backend/src/python_crawler/src/extractor.py:19-32 | the title is "Untitled", the stripped `<title>`, or readability's short title; it is "Untitled" when neither supplies one |
| Extractor.NonBlankLines | backend/src/python_crawler/src/extractor.py:35 | every kept line is non-empty with no leading or trailing whitespace |
| Extractor.NonBlankLinesAppend | backend/src/python_crawler/src/extractor.py:35 | the filter keeps order: filtering a concatenation is the concatenation of the filtered parts |
| Extractor.NonBlankLinesMembers | backend/src/python_crawler/src/extractor.py:35 | a line is kept exactly when it is the non-empty stripped form of some input line |
| Extractor.NormalizeLinesShape | backend/src/python_crawler/src/extractor.py:34-36 | the text is "" exactly when no line is kept, and splitting it on newlines gives back the kept lines |
| Extractor.ExtractTextAndTitle | backend/src/python_crawler/src/extractor.py:18-36 | the text is "" exactly when the cleaned page's text has no non-blank line; otherwise its lines are exactly that text's non-blank lines, stripped, in order; the title is never empty |
| Summarizer.FixedChunksConcat | backend/src/python_crawler/src/summarizer.py:29-35 | the chunks concatenate back to the text |
| Summarizer.FixedChunksSizes | backend/src/python_crawler/src/summarizer.py:31-34 | every chunk is non-empty and at most `max_chars` long, and all but the last are exactly `max_chars` |
| Summarizer.ChunkSize | backend/src/python_crawler/src/summarizer.py:32 | the slice width is positive, and is `max_chars` when that is positive |
| Summarizer.ChunksShape | backend/src/python_crawler/src/summarizer.py:26-35 | for every `max_chars`, concatenation gives back the text; a positive `max_chars` bounds every chunk; a non-positive one gives one-character chunks; short text is one chunk |
| Summarizer.ChunkText | backend/src/python_crawler/src/summarizer.py:26-35 | the while loop computes the chunk specification for every `max_chars`, so the chunks concatenate to the text and each fits the slice width |
| Summarizer.ChunkLoopNeverEnds | backend/src/python_crawler/src/summarizer.py:31-34 | as written, with `max_chars` ≤ 0 and non-empty text, `start` never advances, so the loop never ends |
| Summarizer.FirstBoundary | backend/src/python_crawler/src/summarizer.py:39 | finds the first position after `.`, `!` or `?` that starts whitespace |
| Summarizer.GapsCount | backend/src/python_crawler/src/summarizer.py:39 | one more sentence than whitespace separators |
| Summarizer.SentencesRebuild | backend/src/python_crawler/src/summarizer.py:39 | interleaving the sentences with the removed whitespace gives back the text |
| Summarizer.GapsAreSpace | backend/src/python_crawler/src/summarizer.py:39 | every removed separator is a non-empty whitespace run |
| Summarizer.SentencesEndTerminal | backend/src/python_crawler/src/summarizer.py:39 | every sentence but the last ends in `.`, `!` or `?` |
| Summarizer.SentencesUnsplittable | backend/src/python_crawler/src/summarizer.py:39 | no sentence contains a split point |
| Summarizer.ExtractiveSummary | backend/src/python_crawler/src/summarizer.py:38-40 | the extractive summary is never longer than its text |
| Summarizer.ExtractiveSummaryOneSentence | backend/src/python_crawler/src/summarizer.py:38-40 | a text with no split point summarises to its stripped self |
| Summarizer.ChunkAttemptsCalls | backend/src/python_crawler/src/summarizer.py:84 | a chunk costs at most `MAX_RETRIES` model calls |
| Summarizer.ChunkAttemptsSome | backend/src/python_crawler/src/summarizer.py:84-93 | a chunk's summary is the stripped answer of its last call, or the extractive fallback after the last attempt raised |
| Summarizer.ChunkAttemptsNone | backend/src/python_crawler/src/summarizer.py:84-95 | a chunk gets no summary only after all `MAX_RETRIES` calls, none useful, the last one answering blank |
| Summarizer.SummarizeChunk | backend/src/python_crawler/src/summarizer.py:84-95 | the retry loop computes the chunk specification |
| Summarizer.ChunkSummariesBound | backend/src/python_crawler/src/summarizer.py:81-95 | at most one summary per chunk and at most `MAX_RETRIES` calls per chunk |
| Summarizer.RaisingChunk | backend/src/python_crawler/src/summarizer.py:90-93 | a model that always raises gives the fallback after exactly the remaining attempts |
| Summarizer.AlwaysRaisingFallsBack | backend/src/python_crawler/src/summarizer.py:84-93 | with an always-raising model every chunk is summarised by the fallback |
| Summarizer.SummarySpec | backend/src/python_crawler/src/summarizer.py:70-76 | empty content gives "" with no call; without a key or SDK the stripped content is summarised locally with no call |
| Summarizer.SummaryCallBound | backend/src/python_crawler/src/summarizer.py:70-106 | the model is called at most `MAX_RETRIES` times per chunk plus once to combine, and never without a key |
| Summarizer.SummarizeChunks | backend/src/python_crawler/src/summarizer.py:81-95 | the chunk loop computes the chunk-summaries specification |
| Summarizer.SummarizeNext | backend/src/python_crawler/src/summarizer.py:81-95 | summarising one chunk advances the loop without changing its final outcome |
| Summarizer.FailingModelMatchesNoModel | backend/src/python_crawler/src/summarizer.py:75-98 | for one-chunk content, a model that always raises gives the same summary as no model, after `MAX_RETRIES` calls |
| Summarizer.CombineSummaries | backend/src/python_crawler/src/summarizer.py:97-106 | a single summary is returned as is; several are combined by the model, or locally when it raises |
| Summarizer.SummarizeContent | backend/src/python_crawler/src/summarizer.py:70-106 | the whole procedure returns the summary specification's value |
| CrawlerService.ShortestAt | crawler/services/crawler.service.ts:34 | the shortest sentence match at a position, lazily from 1 to 120 characters |
| CrawlerService.FirstSentence | crawler/services/crawler.service.ts:34 | the leftmost match position with its shortest match; none when there is no match |
| CrawlerService.SentenceTitle | crawler/services/crawler.service.ts:34-35 | no title exactly when the content has no match; otherwise a non-empty piece of at most 121 characters ending in `.`, `!` or `?` |
| CrawlerService.DeriveTitle | crawler/services/crawler.service.ts:30-39 | never empty; the trimmed raw title when that is non-empty |
| CrawlerService.UntitledOnlyWithoutWords | crawler/services/crawler.service.ts:30-39 | "Untitled" when the content is all whitespace; otherwise the first sentence or the first ten words |
| CrawlerService.NoWordsInSpace | crawler/services/crawler.service.ts:37 | all-whitespace content has no first words |
| CrawlerService.WordsOutsideSpace | crawler/services/crawler.service.ts:37 | content with a non-space character has first words |
| CrawlerService.Assemble | crawler/services/crawler.service.ts:79-90 | url and source are the URL, the title is non-empty, and the content is the body text with whitespace collapsed and trimmed |
| CrawlerService.FetchDynamicArticle | crawler/services/crawler.service.ts:46-91 | an article exactly when the browser launches and one navigation succeeds; otherwise it throws |
| CrawlerService.Settle | crawler/services/crawler.service.ts:103-147 | data gives the article, a 403 gives the dynamic fetch, any other error is rethrown |
| CrawlerService.StaticAttempts | crawler/services/crawler.service.ts:99-138 | the recursion makes between 1 and `retries`+1 attempts |
| CrawlerService.FetchStaticArticle | crawler/services/crawler.service.ts:99-148 | at most `retries`+1 GET attempts |
| CrawlerService.RetriesOnlyTransient | crawler/services/crawler.service.ts:129-137 | every attempt before the last failed with ECONNRESET or ECONNABORTED |
| CrawlerService.LastReplySettles | crawler/services/crawler.service.ts:103-147 | the result is settled by the last reply |
| CrawlerService.TransientExhausts | crawler/services/crawler.service.ts:129-146 | a transient last failure means all `retries`+1 attempts were made |
| CrawlerService.LinkOf | crawler/services/crawler.service.ts:207-216 | an anchor yields at most one link, on the page's domain |
| CrawlerService.PageLinks | crawler/services/crawler.service.ts:205-217 | the page's links all have the item's hostname |
| CrawlerService.PageLinksComplete | crawler/services/crawler.service.ts:207-213 | every resolvable href with the item's hostname is among the page's links |
| CrawlerService.LinksOnPage | crawler/services/crawler.service.ts:204-217 | the anchor loop computes the page-links specification |
| CrawlerService.GatheredSpec | crawler/services/crawler.service.ts:220-225 | collecting extends the list, stays duplicate-free, never passes `maxLinks`, never adds the page's own URL, and takes every other link while under budget |
| CrawlerService.CollectLinks | crawler/services/crawler.service.ts:220-225 | the collecting loop computes the gathering specification |
| CrawlerService.Queued | crawler/services/crawler.service.ts:229-233 | exactly the unvisited links, at the next depth and on the item's domain |
| CrawlerService.EnqueueLinks | crawler/services/crawler.service.ts:228-234 | the loop appends exactly the queued entries |
| CrawlerService.SeedQueue | crawler/services/crawler.service.ts:164-171 | fails exactly when a seed has no hostname; otherwise one depth-0 item per seed with its hostname |
| CrawlerService.SeedQueueOk | crawler/services/crawler.service.ts:167-171 | the seeded queue satisfies the queue invariant |
| CrawlerService.PopStep | crawler/services/crawler.service.ts:178-183 | popping keeps the queue invariant and makes progress |
| CrawlerService.CollectStep | crawler/services/crawler.service.ts:220-225 | collecting keeps the result bounded, distinct and on a seed host |
| CrawlerService.EnqueueStep | crawler/services/crawler.service.ts:228-234 | enqueueing keeps the queue invariant and makes progress |
| CrawlerService.Expand | crawler/services/crawler.service.ts:219-234 | one visit's update of collected list and queue, keeping both invariants |
| CrawlerService.Requeue | crawler/services/crawler.service.ts:227-234 | next-depth links are queued only when depth+1 < `maxDepth`, keeping the queue invariant |
| CrawlerService.GatherComplete | crawler/services/crawler.service.ts:220-225 | gathering a fetched page's links keeps every fetched page's other links collected, unless the budget is spent |
| CrawlerService.GatheredFrom | crawler/services/crawler.service.ts:220-225 | a gathered link was already collected or is a link of the page other than the page itself |
| CrawlerService.GatherSound | crawler/services/crawler.service.ts:220-225 | after gathering a page's links, every collected link was found on a fetched page and is not that page |
| CrawlerService.VisitItem | crawler/services/crawler.service.ts:178-234 | one visit adds the page to the fetched list exactly when its GET succeeds, and keeps both invariants, completeness and soundness |
| CrawlerService.Visit | crawler/services/crawler.service.ts:178-234 | a visit to an unvisited front item records it as visited and keeps the crawl's trace: each URL visited once, the first seed first, on a seed's host, only seeds when `maxDepth` ≤ 1, the fetched pages exactly those whose GET succeeded, completeness and soundness |
| CrawlerService.SliceWithinBudget | crawler/services/crawler.service.ts:241 | the final slice to `maxLinks` drops nothing, since the budget already bounds the list |
| CrawlerService.CrawlArticlesFromHomepage | crawler/services/crawler.service.ts:158-242 | fails exactly on a seed without hostname; the result holds at most `maxLinks` distinct URLs on a seed's host; every URL is fetched at most once, the first seed first; with `maxDepth` ≤ 1 only the seeds are fetched; a page is fetched exactly when it was visited and its GET succeeded; every returned link was found on a fetched page and is not that page; unless `maxLinks` links were collected, every link found on a fetched page, other than the page itself, is collected |
| TextNormalization.Quotes | backend/src/utils/textNormalization.ts:19 | every apostrophe becomes a double quote and nothing else changes |
| TextNormalization.NormalizeText | backend/src/utils/textNormalization.ts:12-33 | "" gives ""; the output is lower-case, has no apostrophe, is trimmed, and its whitespace is single spaces |
| TextNormalization.NormalizeTextVisible | backend/src/utils/textNormalization.ts:15-32 | the non-space characters are those of the lower-cased, quote-normalised text, in order |
| TextNormalization.NormalizeTextIdempotent | backend/src/utils/textNormalization.ts:12-33 | normalising twice is normalising once |
| TextNormalization.LeadSentences | backend/src/utils/textNormalization.ts:42-44 | the split sentences are trimmed and non-empty |
| TextNormalization.NonEmptyTrimmed | backend/src/utils/textNormalization.ts:43-44 | the trim-and-filter step keeps only non-empty pieces |
| TextNormalization.ExtractLead | backend/src/utils/textNormalization.ts:38-53 | the sentence loop computes the lead specification |
| TextNormalization.LeadIsLeadingSentences | backend/src/utils/textNormalization.ts:46-50 | the lead is the first k sentences joined by ". " |
| TextNormalization.LeadFromBound | backend/src/utils/textNormalization.ts:47-50 | the lead is at most `maxLength`+2 characters long |
| TextNormalization.ExtractLeadBound | backend/src/utils/textNormalization.ts:38-53 | "" gives ""; the result is at most `maxLength`+2 characters long |
| TextNormalization.ExtractLeadOvershoots | backend/src/utils/textNormalization.ts:47-49 | `extractLead("aa. bb", 4)` is "aa. bb", 6 characters |
| TextNormalization.OvershootSentences | backend/src/utils/textNormalization.ts:42-44 | "aa. bb" splits into "aa" and "bb" |
| TextNormalization.LeadWithinBound | backend/src/utils/textNormalization.ts:47-50 | counting the separator, the lead never passes `maxLength` |
| TextNormalization.ExtractLeadWithinFits | backend/src/utils/textNormalization.ts:38-53 | the corrected lead is at most `maxLength` characters long |
| TextNormalization.WindowsOf | backend/src/utils/textNormalization.ts:79-81 | max(0, length−n+1) windows, the i-th being the n characters from i |
| TextNormalization.GenerateNGrams | backend/src/utils/textNormalization.ts:73-84 | [] when the text is empty or shorter than n; otherwise every window of length n of the normalised text, in order |
| TextNormalization.Windows | backend/src/utils/textNormalization.ts:76-83 | the window loop computes the windows specification |
| TextNormalization.ToInt32 | backend/src/utils/textNormalization.ts:93-94 | the signed 32-bit wrap: in range and congruent modulo 2^32 |
| TextNormalization.HashFoldSnoc | backend/src/utils/textNormalization.ts:91-95 | hashing one more character is one more step |
| TextNormalization.HashFoldInt32 | backend/src/utils/textNormalization.ts:91-95 | the running hash stays a signed 32-bit integer |
| TextNormalization.SimpleHashRange | backend/src/utils/textNormalization.ts:89-97 | the empty string hashes to the seed's magnitude; any other string to a value in 0..2^31 |
| TextNormalization.SimpleHash | backend/src/utils/textNormalization.ts:89-97 | the character loop computes the hash specification |
| Similarity.DigitChar | backend/src/services/similarity.service.ts:51 | a decimal digit with the given value |
| Similarity.ShowNat | backend/src/services/similarity.service.ts:51 | a non-empty string of digits |
| Similarity.DigitsValueShowNat | backend/src/services/similarity.service.ts:51-58 | reading back printed digits gives the number |
| Similarity.ShowSlot | backend/src/services/similarity.service.ts:51 | a printed slot is non-empty, without commas or whitespace |
| Similarity.NumberOfShowSlot | backend/src/services/similarity.service.ts:51-58 | `Number` of a printed slot is the slot |
| Similarity.Shown | backend/src/services/similarity.service.ts:51 | one printed slot per slot |
| Similarity.ParseSignature | backend/src/services/similarity.service.ts:58 | one slot per comma-separated piece, read with `Number` |
| Similarity.Signature | backend/src/services/similarity.service.ts:50-52 | the slots printed with `String` and joined by commas: splitting at the commas gives back each slot's text; no slots give "" |
| Similarity.MinHash.GetSignature | backend/src/services/similarity.service.ts:50-52 | `fromSignature` reads the signature back as the same slots, unless there are none, in which case it is "" |
| Similarity.SignatureRoundTrip | backend/src/services/similarity.service.ts:50-62 | reading a signature back gives the same slots, except that a zero-length signature reads back as [0] |
| Similarity.Step | backend/src/services/similarity.service.ts:20-25 | one item lowers each slot to the item's seeded hash when that is smaller |
| Similarity.AbsorbNeverIncreases | backend/src/services/similarity.service.ts:18-27 | the length is kept and no slot ever increases |
| Similarity.AbsorbBelowEvery | backend/src/services/similarity.service.ts:18-27 | each slot ends at most every item's hash for that slot |
| Similarity.AbsorbAttained | backend/src/services/similarity.service.ts:18-27 | each slot is its old value or some item's hash |
| Similarity.Matches | backend/src/services/similarity.service.ts:37-42 | the match count never passes the number of slots |
| Similarity.CompareRefusesMismatch | backend/src/services/similarity.service.ts:33-35 | an error exactly when the sizes differ |
| Similarity.CompareRange | backend/src/services/similarity.service.ts:37-44 | the estimate lies in [0, 1] |
| Similarity.MatchesSymmetric | backend/src/services/similarity.service.ts:38-42 | matching counts the same both ways |
| Similarity.CompareSymmetric | backend/src/services/similarity.service.ts:32-45 | similarity is symmetric |
| Similarity.MatchesSelf | backend/src/services/similarity.service.ts:38-42 | every slot of a finite signature matches itself |
| Similarity.CompareSelf | backend/src/services/similarity.service.ts:32-45 | a non-empty signature is fully similar to itself |
| Similarity.MinHash.constructor | backend/src/services/similarity.service.ts:10-13 | `numHashes` slots, all Infinity |
| Similarity.MinHash.Update | backend/src/services/similarity.service.ts:18-27 | the slots become the old slots with every item absorbed |
| Similarity.MinHash.Similarity | backend/src/services/similarity.service.ts:32-45 | the loop computes the comparison specification |
| Similarity.MinHash.FromSignature | backend/src/services/similarity.service.ts:57-62 | a fresh MinHash whose slots are the parsed signature |
| Similarity.MinHash.FromText | backend/src/services/similarity.service.ts:67-72 | a fresh MinHash of `numHashes` slots with the text's n-grams absorbed |
| Similarity.Slice | backend/src/services/similarity.service.ts:98 | JavaScript `slice` clamps to the sequence |
| Similarity.Keys | backend/src/services/similarity.service.ts:95-98 | one band key per band, from the band's slice of the signature |
| Similarity.Filed | backend/src/services/similarity.service.ts:100-103 | the key's bucket gains the id and every other bucket is kept |
| Similarity.AddSpec | backend/src/services/similarity.service.ts:92-105 | every band files the id under its key |
| Similarity.RemoveSpec | backend/src/services/similarity.service.ts:131-147 | every band drops the id from its key's bucket, deleting a bucket that becomes empty |
| Similarity.CandidatesMember | backend/src/services/similarity.service.ts:110-126 | an id is a candidate exactly when some band's bucket under its key holds it |
| Similarity.AddThenCandidate | backend/src/services/similarity.service.ts:92-126 | after `add(id, m)`, `getCandidates(m)` contains the id |
| Similarity.AddKeepsOthers | backend/src/services/similarity.service.ts:92-126 | adding one id changes no other id's candidacy |
| Similarity.RemoveThenGone | backend/src/services/similarity.service.ts:110-147 | after `remove(id, m)`, the id is not a candidate for `m` |
| Similarity.RemoveKeepsOthers | backend/src/services/similarity.service.ts:110-147 | removing one id changes no other id's candidacy |
| Similarity.AddKeepsBuckets | backend/src/services/similarity.service.ts:100-103 | after adding, buckets are non-empty and hold only added ids |
| Similarity.RemoveKeepsBuckets | backend/src/services/similarity.service.ts:139-145 | after removing, empty buckets are deleted and the others hold only added ids |
| Similarity.CandidatesWithin | backend/src/services/similarity.service.ts:110-126 | candidates are only ids that were added |
| Similarity.LSHIndex.constructor | backend/src/services/similarity.service.ts:83-87 | `numBands` empty bands, `floor(numHashes / numBands)` hashes per band |
| Similarity.LSHIndex.BandKeys | backend/src/services/similarity.service.ts:93-98 | the band keys read back from the MinHash's signature |
| Similarity.LSHIndex.Add | backend/src/services/similarity.service.ts:92-105 | the bands become the add specification and the id is recorded |
| Similarity.LSHIndex.GetCandidates | backend/src/services/similarity.service.ts:110-126 | the candidates are the candidate specification |
| Similarity.LSHIndex.Remove | backend/src/services/similarity.service.ts:131-147 | the bands become the remove specification |
| Similarity.FileUnder | backend/src/services/similarity.service.ts:95-104 | the band loop updates the array to the add specification |
| Similarity.Probe | backend/src/services/similarity.service.ts:114-123 | the band loop collects the candidate specification |
| Similarity.DropFrom | backend/src/services/similarity.service.ts:134-146 | the band loop updates the array to the remove specification |
| Notification.AnyNeedleExists | backend/src/services/notification.service.ts:25-29 | the nested `some` holds exactly when some needle is mentioned in some haystack |
| Notification.SomeMentionsExists | backend/src/services/notification.service.ts:26-28 | the inner `some` holds exactly when some haystack mentions the needle |
| Notification.MatchIff | backend/src/services/notification.service.ts:18-56 | a match exactly when a topic, a keyword in the joined text, or a source (for an article with a source) is a case-insensitive substring |
| Notification.DoesArticleMatchSubscription | backend/src/services/notification.service.ts:18-56 | a subscription with no topics, keywords or sources matches nothing |
| Notification.SearchTextFields | backend/src/services/notification.service.ts:35-39 | the search text is title, content and summary joined by spaces |
| Notification.KeywordInAnyField | backend/src/services/notification.service.ts:34-45 | a keyword in the title, the content or the summary is a match |
| Notification.LowerAll | backend/src/services/notification.service.ts:27-50 | every criterion lower-cased |
| Notification.MatchIgnoresCase | backend/src/services/notification.service.ts:27-50 | lower-casing a subscription's criteria does not change the verdict |
| Notification.BuildQueue | backend/src/services/notification.service.ts:72-97 | the loop computes the queue specification |
| Notification.QueueSound | backend/src/services/notification.service.ts:63-97 | every queued notice comes from a realtime, enabled, matching subscription and its channel is enabled |
| Notification.QueueComplete | backend/src/services/notification.service.ts:75-97 | a selected matching subscription gets an email notice when email is enabled and a push notice when push is enabled |
| Notification.QueueBound | backend/src/services/notification.service.ts:75-97 | at most two notices per subscription |
| CleanData.CountControlsExists | crawler/scripts/cleanData.ts:52 | some control character is counted exactly when one occurs |
| CleanData.LooksBinary | crawler/scripts/cleanData.ts:51-53 | binary exactly when one of the first 100 characters is in U+0000–U+001F |
| CleanData.GatherNext | crawler/scripts/cleanData.ts:78-101 | a cursor loop's output grows by each document's push |
| CleanData.GatherMember | crawler/scripts/cleanData.ts:78-101 | an entry is pushed exactly when some document pushed it |
| CleanData.Named | crawler/scripts/cleanData.ts:104-105 | the ids `$in` matches are exactly the defined entries |
| CleanData.Flagged | crawler/scripts/cleanData.ts:91-99 | a title "untitled" in any ASCII case is flagged; a blank title with trimmed content under the short-content length is flagged |
| CleanData.CollectDeletions | crawler/scripts/cleanData.ts:73-102 | the cursor loop builds the as-written deletion list |
| CleanData.AsWrittenNamesOnlyFrames | crawler/scripts/cleanData.ts:84-101 | as written, an id is named for deletion exactly when its content has an iframe |
| CleanData.EntryAsWrittenNames | crawler/scripts/cleanData.ts:84-101 | as written, a document names its id exactly when its content has an iframe |
| CleanData.UntitledNotNamed | crawler/scripts/cleanData.ts:91-100 | an "Untitled" document is flagged yet its id is not named for deletion |
| CleanData.EntriesNameFlagged | crawler/scripts/cleanData.ts:84-101 | corrected, an id is named exactly when its document has an iframe or is flagged |
| CleanData.CleanTitle | crawler/scripts/cleanData.ts:113-124 | the cleaned title is empty or starts alphanumeric and ends without whitespace |
| CleanData.CleanTitleInfix | crawler/scripts/cleanData.ts:124 | the cleaned title is a slice of the raw title |
| CleanData.CleanTitleIdempotent | crawler/scripts/cleanData.ts:124 | cleaning twice is cleaning once |
| CleanData.OddTitleChanges | crawler/scripts/cleanData.ts:113-125 | an odd title always changes when cleaned |
| CleanData.CollectTitleUpdates | crawler/scripts/cleanData.ts:114-133 | the cursor loop builds the update specification |
| CleanData.UpdatesExact | crawler/scripts/cleanData.ts:115-133 | an update is made exactly for each odd title whose cleaned form is non-empty, setting that cleaned form |
| TopicExtractor.KeptMember | crawler/services/topicExtractor.service.js:77-78 | a kept topic is exactly a non-empty trimmed, lower-cased piece |
| TopicExtractor.DedupSet | crawler/services/topicExtractor.service.js:73-74 | `Array.from(new Set(...))` has no duplicates and the same members |
| TopicExtractor.DedupMember | crawler/services/topicExtractor.service.js:73-74 | every de-duplicated member occurs in the input |
| TopicExtractor.FirstAt | crawler/services/topicExtractor.service.js:73-74 | the first position of a member |
| TopicExtractor.FirstAtPrefix | crawler/services/topicExtractor.service.js:73-74 | a member's first position is the same in a prefix that holds it |
| TopicExtractor.DedupFirstOrder | crawler/services/topicExtractor.service.js:73-74 | de-duplication keeps first occurrences in order |
| TopicExtractor.TidyShape | crawler/services/topicExtractor.service.js:77 | a tidied piece is lower-case, trimmed, and has no comma or newline |
| TopicExtractor.CleanSpec | crawler/services/topicExtractor.service.js:72-80 | a topic exactly when it is a non-empty tidied piece; every topic is lower-case, trimmed, without separators |
| TopicExtractor.Clean | crawler/services/topicExtractor.service.js:72-80 | the cleaned topics have no duplicates |
| TopicExtractor.Truncate | crawler/services/topicExtractor.service.js:103-106 | text up to 2000 characters is kept; longer text is its first 2000 characters plus "..."; never more than 2003 |
| TopicExtractor.ApiKeys | crawler/services/topicExtractor.service.js:13-18 | exactly the non-empty keys |
| TopicExtractor.PairCallsShape | crawler/services/topicExtractor.service.js:110-116 | two attempts per model, all on the given key and prompt |
| TopicExtractor.ScheduleLength | crawler/services/topicExtractor.service.js:109-116 | the schedule holds 2 × keys × models calls |
| TopicExtractor.ScheduleCalls | crawler/services/topicExtractor.service.js:109-120 | every call uses a listed key and model, attempt 1 or 2, and the prompt |
| TopicExtractor.PairCallsPrefix | crawler/services/topicExtractor.service.js:110 | the calls of a prefix of the models come first |
| TopicExtractor.SchedulePrefix | crawler/services/topicExtractor.service.js:109 | the calls of a prefix of the keys come first |
| TopicExtractor.FirstSuccessAfter | crawler/services/topicExtractor.service.js:109-140 | after a run of failures, the first success of the rest is the first success of the whole |
| TopicExtractor.FirstSuccessPrefix | crawler/services/topicExtractor.service.js:109-140 | a success within a prefix is the first success of the whole |
| TopicExtractor.TryPair | crawler/services/topicExtractor.service.js:116-137 | the attempt loop returns the first non-blank answer among the pair's two attempts |
| TopicExtractor.TryKey | crawler/services/topicExtractor.service.js:110-138 | the model loop returns the first success of the key's calls |
| TopicExtractor.Rotate | crawler/services/topicExtractor.service.js:109-139 | the key loop returns the first success of the whole schedule |
| TopicExtractor.ExtractTopics | crawler/services/topicExtractor.service.js:102-141 | the cleaned topics of the first non-blank answer, after only failed calls; "exhausted" only after all 2 × keys × models calls failed |
| LanguageDetection.GetLanguageName | crawler/services/languageDetection.service.ts:109-111 | the table's name for a known code, the code itself otherwise |
| LanguageDetection.IsEnglishCode | crawler/services/languageDetection.service.ts:119-121 | an English code is named "English" |
| LanguageDetection.DetectLanguage | crawler/services/languageDetection.service.ts:70-101 | missing text or text under 10 trimmed characters is Unknown; otherwise the code is the detector's |
| LanguageDetection.DetectionConsistent | crawler/services/languageDetection.service.ts:85-99 | the name is the table's name for the code, and the report is English exactly when the code is "eng" |
| LanguageDetection.ShortTextIgnoresDetector | crawler/services/languageDetection.service.ts:72-78 | short text is Unknown whatever the detector |
| LanguageDetection.EnglishIff | crawler/services/languageDetection.service.ts:72-94 | English exactly when the text is long enough and the detector says "eng" |
| LanguageDetection.UnknownIff | crawler/services/languageDetection.service.ts:72-91 | "und" exactly when the text is short or the detector says "und" |
| LanguageDetection.ForeignCodeNamedByItself | crawler/services/languageDetection.service.ts:93-94 | a code outside the table is reported as its own name and not English |
| UserController.User.constructor | backend/src/controllers/user.controller.ts:57 | the user holds the given favourites |
| UserController.ToggleFavoriteArticle | backend/src/controllers/user.controller.ts:50-75 | 400 without an article id, before any lookup; 404 for an unknown user; otherwise the favourites are toggled and returned, unfavourited when they held the id; nothing changes on an error |
| UserController.Toggle | backend/src/controllers/user.controller.ts:61-69 | the id is in the result exactly when it was not a favourite; every other id keeps its membership |
| UserController.WithoutKeepsOrder | backend/src/controllers/user.controller.ts:62 | removal keeps the other ids in their order |
| UserController.ToggleRemoves | backend/src/controllers/user.controller.ts:61-62 | a favourite is removed, every copy of it, and the other ids stay |
| UserController.WithoutShorter | backend/src/controllers/user.controller.ts:62 | removing a present id shortens the list |
| UserController.ToggleAppends | backend/src/controllers/user.controller.ts:68-69 | an absent id is appended at the end |
| UserController.ToggleTwice | backend/src/controllers/user.controller.ts:61-75 | toggling twice restores the list exactly when the id was absent, or present once and last |
| UserController.WithoutAppended | backend/src/controllers/user.controller.ts:62-69 | removing an id just appended to a list without it gives the list back |
| UserController.ToggleKeepsDistinct | backend/src/controllers/user.controller.ts:61-75 | toggling keeps a duplicate-free list duplicate-free |
| UserController.WithoutDistinct | backend/src/controllers/user.controller.ts:62 | filtering keeps a duplicate-free list duplicate-free |
| RatingModel.Errors | backend/src/models/rating.model.ts:69-116 | the failing paths: a missing article id, a missing or out-of-range value, a type outside the enumeration, a comment over 500 characters |
| RatingModel.Validate | backend/src/models/rating.model.ts:69-116 | accepted exactly when no path fails; the stored rating copies the fields with the type defaulted to "meter"; a rejection lists the failing paths |
| RatingModel.AcceptedValueRange | backend/src/models/rating.model.ts:85-92 | an accepted value lies in −100..100, in 1..5 for stars, and the type is meter or stars |
| RatingModel.DefaultIsMeter | backend/src/models/rating.model.ts:87-107 | a rating without a type is accepted exactly when −100 ≤ v ≤ 100 |
| RatingModel.AnonymousNeverClash | backend/src/models/rating.model.ts:124-138 | a rating with neither user nor session is outside both indexes |
| RatingModel.Ratings.constructor | backend/src/models/rating.model.ts:124-138 | the empty collection keeps both indexes |
| RatingModel.Ratings.Insert | backend/src/models/rating.model.ts:69-138 | an invalid draft is refused with its paths, a clashing rating with a duplicate-key error, both leaving the collection as it was; otherwise the rating is appended; both indexes hold after |
| RatingModel.ClashSymmetric | backend/src/models/rating.model.ts:124-138 | clashing is symmetric |
| RatingModel.OnePerUser | backend/src/models/rating.model.ts:124-130 | at most one rating per article and user |
| RatingModel.OnePerSession | backend/src/models/rating.model.ts:132-138 | at most one rating per article and session |

## Left out

- `urlsplit` is the one URL-parser oracle. `urlparse` is derived from it by cutting the last path segment's `;` parameters (`UrlUtils.ParamsCut`).
- Summarizer.Chunks: a non-positive `max_chars` is given one-character slices, where the source loops forever (see Findings). The as-written loop is modelled only by `Summarizer.ChunkLoopNeverEnds`.
- Network, browser and database I/O, and logging, are left out. HTTP replies, browser sessions, robots.txt answers and model answers are oracle parameters indexed by attempt. Saves and `deleteMany`/`bulkWrite` are represented by the lists they would receive.
- Sleeps, backoff and jitter are left out: timing does not change any result.
- Concurrency is left out. The TypeScript crawl is modelled with one worker. The Python crawler is sequential already.
- Foreign parsers are uninterpreted functions:
  - `urlsplit`/`urlparse`, `urljoin` and `new URL`;
  - the regular expressions;
  - BeautifulSoup and cheerio;
  - readability, robotparser's `can_fetch`, and `franc`.
  `urldefrag` is modelled concretely as a cut at the first `#`.
- Lower-casing is ASCII-only. Python's `str.lower` and JavaScript's `toLowerCase` are Unicode-aware.
- Characters are UTF-16 code units for the TypeScript code and code points for the Python code. No encoding is modelled.
- `normalizeText` boilerplate and URL removal are left out. Only the lower-casing, the quote replacement of the first `replace`, the whitespace collapse and the trim are modelled; the other regex replacements are left out.
- `extractLead` splitting is modelled on runs of `.`, `!` and `?`, as the regex does.
- Similarity.NumberOf: models JavaScript `Number` only on what the signature can hold, namely decimal integers, "Infinity" and blank strings; other text is NaN. A slot is never -Infinity, since hashes are non-negative.
- `jaccardSimilarity`, `cleanUrl` and `TFIDFVector` are floating point or URL-library code outside the modelled core.
- Phase 1 of `cleanupArticles`, the URL-regex `deleteMany`, is one database call with no logic of its own.
- CleanData.Named: the ids `$in` receives are modelled as the defined entries. What MongoDB does with `undefined` inside `$in` is not modelled.
- LanguageDetection.GetLanguageName: object-prototype keys such as "toString" are not modelled. Those would make `LANGUAGE_NAMES[code]` a function in JavaScript.
- RatingModel.Validate: the value is a real and NaN is not modelled. Mongo's `$exists` on an explicit null user or session is modelled as absent. The error message texts are left out.
- UserController.ToggleFavoriteArticle: `!articleId` is modelled as a missing or empty string. Other falsy JSON values are not modelled. The 500 handler for a failed save is left out.
- Summarizer: `_summarize_with_genai`'s two SDK branches are one oracle that answers or raises. The configuration read from the environment is a parameter.
- The TFIDF, clustering and other services named as context are not part of this model.

## Findings

| source | as written | input that shows it | evidently intended | confidence | as-written member | corrected member |
|---|---|---|---|---|---|---|
| backend/src/utils/textNormalization.ts:47-49 | the length check is `(lead + sentence).length > maxLength`, which leaves out the ". " separator, so the lead can reach `maxLength`+2 characters | `extractLead("aa. bb", 4)` returns "aa. bb", 6 characters | the lead, separators included, is at most `maxLength` characters | not executed | TextNormalization.ExtractLeadOvershoots | TextNormalization.ExtractLeadWithinFits |
| crawler/scripts/cleanData.ts:100 | heuristic hits push `doc._1`, which is `undefined` on a projection of `_id`, `title`, `content`, `summary`; only iframe hits push `_id` | an article titled "Untitled" with content "x" is flagged but its id never reaches `deleteMany` | push `doc._id`, so flagged articles are deleted | not executed | CleanData.UntitledNotNamed | CleanData.EntriesNameFlagged |
| backend/src/python_crawler/src/summarizer.py:31-34 | `end = min(start + max_chars, len(text))` and `start = end`: with `max_chars` ≤ 0 and text longer than `max_chars`, `start` never advances | `AI_MAX_INPUT_CHARS=0` with content "abc": `start` stays 0 and the loop never ends | every slice is at least one character, so the loop ends | not executed | Summarizer.ChunkLoopNeverEnds | Summarizer.ChunksShape |
