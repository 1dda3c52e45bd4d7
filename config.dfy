/**
 * Configuration of one crawl run: the skip-list of asset extensions and the
 * `CrawlerConfig` record with its default values.
 */
module Config {

  const DEFAULT_USER_AGENT: string :=
    "Mozilla/5.0 (Macintosh; Intel Mac OS X 10_15_7) "
    + "AppleWebKit/537.36 (KHTML, like Gecko) "
    + "Chrome/120.0.0.0 Safari/537.36"

  /** Path suffixes of binary, media, script and data assets that are never crawled. */
  const SKIP_EXTENSIONS: set<string> := {
    ".png", ".jpg", ".jpeg", ".gif", ".webp", ".svg", ".ico", ".pdf", ".zip", ".rar",
    ".7z", ".css", ".js", ".json", ".xml", ".mp4", ".mp3", ".wav", ".avi", ".mov"
  }

  /**
   * One crawl run's settings. Integers are unbounded here, as Python's are;
   * the two durations that are floats in the source are `real`.
   */
  datatype CrawlerConfig = CrawlerConfig(
    maxLinks: int,
    maxDepth: int,
    concurrency: int,
    requestTimeout: int,
    requestDelay: real,
    maxRetries: int,
    backoffBase: real,
    userAgent: string,
    allowSubdomains: bool,
    respectRobots: bool,
    jsFallback: bool,
    minTextLength: int,
    allowedDomains: seq<string>,
    includePatterns: seq<string>,
    excludePatterns: seq<string>)

  const DEFAULT_CONFIG: CrawlerConfig := CrawlerConfig(
    maxLinks := 20,
    maxDepth := 1,
    concurrency := 5,
    requestTimeout := 12,
    requestDelay := 0.0,
    maxRetries := 3,
    backoffBase := 0.8,
    userAgent := DEFAULT_USER_AGENT,
    allowSubdomains := true,
    respectRobots := true,
    jsFallback := true,
    minTextLength := 600,
    allowedDomains := [],
    includePatterns := [],
    excludePatterns := [])
}
