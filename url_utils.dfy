/**
 * URL canonicalisation and filtering of the Python crawler
 * (`normalize_url`, `should_skip_url`, `matches_patterns`).
 *
 * The URL parser `urlsplit` and the compiled regular expressions are foreign:
 * the parser is the `split` parameter and each compiled pattern is a predicate
 * on URLs. `urlparse` is `urlsplit` with the last path segment's parameters
 * cut off (`ParamsCut`); the two agree on the scheme and the authority. Case and default-port normalisation follow sections
 * 6.2.2.1 and 6.2.3 of RFC 3986.
 */
module UrlUtils {
  import opened Wrappers
  import opened Strings
  import Config

  /** The five components returned by `urlsplit`. */
  datatype UrlParts = UrlParts(scheme: string, netloc: string, path: string, query: string, fragment: string)

  /** A compiled, case-insensitive regular expression: does it find a match in the URL? */
  type Pattern = string -> bool

  /** `urldefrag`: the URL without its fragment, i.e. everything before the first '#'. */
  function Defrag(s: string): (r: string)
    ensures '#' !in r
    ensures StartsWith(s, r)
    ensures '#' !in s ==> r == s
  {
    s[..IndexOf(s, '#')]
  }

  predicate NoDoubleSlash(s: string) {
    forall i :: 0 <= i < |s| - 1 ==> !(s[i] == '/' && s[i + 1] == '/')
  }

  /** `re.sub(r"/+", "/", path)`: every run of slashes becomes one slash. */
  function CollapseSlashes(p: string): (r: string)
    ensures |r| <= |p|
    ensures p != [] ==> r != [] && r[0] == p[0]
    ensures NoDoubleSlash(r)
    ensures NoDoubleSlash(p) ==> r == p
  {
    if |p| <= 1 then p
    else if p[0] == '/' && p[1] == '/' then CollapseSlashes(p[1..])
    else [p[0]] + CollapseSlashes(p[1..])
  }

  lemma CollapseSlashesIdempotent(p: string)
    ensures CollapseSlashes(CollapseSlashes(p)) == CollapseSlashes(p)
  {
  }

  /** The port RFC 3986 section 6.2.3 says to omit for a scheme. */
  function DefaultPortSuffix(scheme: string): string {
    if scheme == "http" then ":80" else if scheme == "https" then ":443" else ""
  }

  /** Strips ":80" from an http authority and ":443" from an https one, once each. */
  function StripDefaultPort(scheme: string, netloc: string): (r: string)
    ensures scheme == "http" && EndsWith(netloc, ":80") ==> r == netloc[..|netloc| - 3]
    ensures scheme == "https" && EndsWith(netloc, ":443") ==> r == netloc[..|netloc| - 4]
    ensures !EndsWith(netloc, DefaultPortSuffix(scheme)) || DefaultPortSuffix(scheme) == "" ==> r == netloc
    ensures StartsWith(netloc, r)
  {
    var n1 := if EndsWith(netloc, ":80") && scheme == "http" then netloc[..|netloc| - 3] else netloc;
    if EndsWith(n1, ":443") && scheme == "https" then n1[..|n1| - 4] else n1
  }

  predicate IsHttpScheme(s: string) { s == "http" || s == "https" }

  /** The parts of a canonical URL: http(s), lower-case authority, a non-empty path without "//", no fragment. */
  predicate Canonical(p: UrlParts) {
    IsHttpScheme(p.scheme) && IsLower(p.netloc) && p.path != "" && NoDoubleSlash(p.path) && p.fragment == ""
  }

  /** What `normalize_url` hands to the parser: the stripped input without its fragment. */
  function Prepared(raw: string): string {
    Defrag(PyStrip(raw))
  }

  /**
   * The parts `normalize_url` reassembles, or None where it returns "".
   * Blank input and an explicit scheme other than http(s) give None;
   * otherwise the scheme is lower-cased (http when absent), the authority is
   * lower-cased and loses its default port, the path is never empty and has no
   * run of slashes, the query is kept and the fragment dropped.
   */
  function NormalizeParts(raw: string, split: string -> UrlParts): (r: Option<UrlParts>)
    ensures PyStrip(raw) == "" ==> r == None
    ensures r == None <==>
      (PyStrip(raw) == "" || (split(Prepared(raw)).scheme != "" && !IsHttpScheme(Lower(split(Prepared(raw)).scheme))))
    ensures r.Some? ==> Canonical(r.value)
    ensures r.Some? && split(Prepared(raw)).scheme == "" ==> r.value.scheme == "http"
    ensures r.Some? && split(Prepared(raw)).scheme != "" ==> r.value.scheme == Lower(split(Prepared(raw)).scheme)
    ensures r.Some? ==> r.value.netloc == StripDefaultPort(r.value.scheme, Lower(split(Prepared(raw)).netloc))
    ensures r.Some? ==> r.value.query == split(Prepared(raw)).query
  {
    var s := PyStrip(raw);
    if s == "" then None
    else
      var parts := split(Defrag(s));
      if parts.scheme != "" && !IsHttpScheme(Lower(parts.scheme)) then None
      else
        var scheme := if parts.scheme != "" then Lower(parts.scheme) else "http";
        var netloc := StripDefaultPort(scheme, Lower(parts.netloc));
        var path := CollapseSlashes(if parts.path == "" then "/" else parts.path);
        LowerPrefix(Lower(parts.netloc), netloc);
        Some(UrlParts(scheme, netloc, path, parts.query, ""))
  }

  lemma LowerPrefix(s: string, t: string)
    requires IsLower(s) && StartsWith(s, t)
    ensures IsLower(t)
  {
    forall i | 0 <= i < |t| ensures !IsUpperAscii(t[i]) {
      assert t[i] == s[i];
    }
  }

  /** `urlunsplit` for an http(s) URL with an authority and no fragment. */
  function Unsplit(p: UrlParts): (r: string)
    requires IsHttpScheme(p.scheme)
    ensures StartsWith(r, "http://") || StartsWith(r, "https://")
  {
    var path := if p.path != "" && p.path[0] == '/' then p.path else "/" + p.path;
    var query := if p.query != "" then "?" + p.query else "";
    var r := p.scheme + "://" + p.netloc + path + query;
    assert r[..|p.scheme| + 3] == p.scheme + "://";
    r
  }

  /** `normalize_url`: the canonical form of a URL, or "" for a URL to skip. */
  function NormalizeUrl(raw: string, split: string -> UrlParts): (r: string)
    ensures r == "" <==> NormalizeParts(raw, split).None?
    ensures r != "" ==> StartsWith(r, "http://") || StartsWith(r, "https://")
  {
    match NormalizeParts(raw, split)
    case None => ""
    case Some(p) => Unsplit(p)
  }

  /**
   * Normalisation is idempotent whenever the parser reads a canonical URL
   * back into the parts it was built from and the authority does not end in
   * a second default port (as in "host:80:80").
   */
  lemma NormalizeIdempotent(raw: string, split: string -> UrlParts)
    requires NormalizeParts(raw, split).Some?
    requires var p := NormalizeParts(raw, split).value; var s := Unsplit(p);
      split(s) == p && '#' !in s && !IsPySpace(s[|s| - 1])
      && !EndsWith(p.netloc, DefaultPortSuffix(p.scheme))
    ensures NormalizeUrl(NormalizeUrl(raw, split), split) == NormalizeUrl(raw, split)
  {
    var p := NormalizeParts(raw, split).value;
    var s := Unsplit(p);
    assert NormalizeUrl(raw, split) == s;
    NormalizeCanonical(s, p, split);
  }

  /** A canonical URL that the parser reads back into its parts normalises to itself. */
  lemma NormalizeCanonical(s: string, p: UrlParts, split: string -> UrlParts)
    requires Canonical(p) && s == Unsplit(p)
    requires split(s) == p && '#' !in s && !IsPySpace(s[|s| - 1])
    requires !EndsWith(p.netloc, DefaultPortSuffix(p.scheme))
    ensures NormalizeParts(s, split) == Some(p)
  {
    PreparedCanonical(s, p);
    assert Lower(p.scheme) == p.scheme by { LowerOfLower(p.scheme); }
    assert StripDefaultPort(p.scheme, Lower(p.netloc)) == p.netloc by { LowerOfLower(p.netloc); }
    assert CollapseSlashes(p.path) == p.path;
  }

  lemma PreparedCanonical(s: string, p: UrlParts)
    requires IsHttpScheme(p.scheme) && s == Unsplit(p)
    requires '#' !in s && !IsPySpace(s[|s| - 1])
    ensures PyStrip(s) == s && Prepared(s) == s
  {
    assert s[0] == 'h';
    assert TrimStart(s, IsPySpace) == s;
    assert TrimEnd(s, IsPySpace) == s;
  }

  // ------------------------------------------------------------- skip list

  predicate HasSkipExtension(path: string) {
    exists ext :: ext in Config.SKIP_EXTENSIONS && EndsWith(path, ext)
  }

  /** Where the last segment of a path starts: just after its last '/', or 0 when it has none. */
  function LastSegmentStart(path: string): (k: nat)
    ensures k <= |path|
    ensures 0 < k ==> path[k - 1] == '/'
    ensures forall i :: k <= i < |path| ==> path[i] != '/'
  {
    if path == [] then 0
    else if path[|path| - 1] == '/' then |path|
    else LastSegmentStart(path[..|path| - 1])
  }

  /**
   * The path `urlparse` reports for an http(s) URL: `urlsplit`'s path cut
   * at the first ';' of its last segment, where that segment's parameters
   * begin. A path with no ';' in its last segment is kept whole.
   */
  function ParamsCut(path: string): (r: string)
    ensures StartsWith(path, r)
    ensures LastSegmentStart(path) <= |r|
    ensures forall i :: LastSegmentStart(path) <= i < |r| ==> path[i] != ';'
    ensures |r| < |path| ==> path[|r|] == ';'
  {
    var k := LastSegmentStart(path);
    path[..k + IndexOf(path[k..], ';')]
  }

  /**
   * `should_skip_url`: the scheme is not http(s), or the lower-cased path of
   * `urlparse` ends with a skip extension. `split` is `urlsplit`; `urlparse`
   * agrees with it on the scheme and differs on the path by `ParamsCut`.
   */
  predicate ShouldSkipUrl(url: string, split: string -> UrlParts)
    ensures !IsHttpScheme(split(url).scheme) ==> ShouldSkipUrl(url, split)
    ensures ';' !in split(url).path ==>
      (ShouldSkipUrl(url, split) <==> !IsHttpScheme(split(url).scheme) || HasSkipExtension(Lower(split(url).path)))
  {
    var parsed := split(url);
    NoParamsKeepsPath(parsed.path);
    !IsHttpScheme(parsed.scheme) || HasSkipExtension(Lower(ParamsCut(parsed.path)))
  }

  /** Without a ';' the `urlparse` path is the `urlsplit` path. */
  lemma NoParamsKeepsPath(path: string)
    ensures ';' !in path ==> ParamsCut(path) == path
  {
  }

  /** On a canonical URL the scheme is http(s), so only the extension of the path before its parameters decides. */
  lemma ShouldSkipNormalized(raw: string, split: string -> UrlParts)
    requires NormalizeParts(raw, split).Some?
    requires var p := NormalizeParts(raw, split).value; split(Unsplit(p)) == p
    ensures ShouldSkipUrl(NormalizeUrl(raw, split), split)
      <==> HasSkipExtension(Lower(ParamsCut(NormalizeParts(raw, split).value.path)))
  {
  }

  /** Every skip extension is a '.' followed by at least one character, none of them '/'. */
  lemma SkipExtensionShape()
    ensures forall ext :: ext in Config.SKIP_EXTENSIONS ==> |ext| >= 2 && ext[0] == '.' && '/' !in ext
  {
    forall ext | ext in Config.SKIP_EXTENSIONS ensures |ext| >= 2 && ext[0] == '.' && '/' !in ext {
    }
  }

  /** Lower-casing keeps '.', '/' and ';' where they are. */
  lemma LowerKeepsPunctuation(s: string, i: int)
    requires 0 <= i < |s|
    ensures Lower(s)[i] == '.' <==> s[i] == '.'
    ensures Lower(s)[i] == '/' <==> s[i] == '/'
  {
  }

  /**
   * An http(s) URL whose path, before any parameters, ends with a skip
   * extension is skipped, parameters or not ("/a.png" and "/a.png;v=1").
   */
  lemma SkippedWithParams(url: string, split: string -> UrlParts, base: string, params: string, ext: string)
    requires IsHttpScheme(split(url).scheme)
    requires split(url).path == base + params
    requires ext in Config.SKIP_EXTENSIONS && EndsWith(Lower(base), ext)
    requires ';' !in base
    requires params == [] || (params[0] == ';' && '/' !in params)
    ensures ShouldSkipUrl(url, split)
  {
    var path := base + params;
    var k := LastSegmentStart(path);
    var cut := ParamsCut(path);
    assert forall i :: 0 <= i < |base| ==> path[i] == base[i];
    assert forall i :: |base| <= i < |path| ==> path[i] == params[i - |base|];
    assert forall i :: 0 <= i < |base| ==> path[i] != ';';
    assert params != [] ==> path[|base|] == ';' && k <= |base|;
    assert |cut| == |base|;
    assert cut == base;
  }

  /** An http(s) URL whose path before its parameters has no '.' in its last segment is never skipped. */
  lemma ExtensionlessNotSkipped(url: string, split: string -> UrlParts)
    requires IsHttpScheme(split(url).scheme)
    requires var cut := ParamsCut(split(url).path);
      forall i :: LastSegmentStart(cut) <= i < |cut| ==> cut[i] != '.'
    ensures !ShouldSkipUrl(url, split)
  {
    var cut := ParamsCut(split(url).path);
    var q := Lower(cut);
    var k := LastSegmentStart(cut);
    SkipExtensionShape();
    forall ext | ext in Config.SKIP_EXTENSIONS ensures !EndsWith(q, ext) {
      if |ext| <= |q| {
        var j := |q| - |ext|;
        if j >= k {
          LowerKeepsPunctuation(cut, j);
          assert q[j..][0] != ext[0];
        } else {
          LowerKeepsPunctuation(cut, k - 1);
          assert q[j..][k - 1 - j] == '/';
          assert q[j..][k - 1 - j] != ext[k - 1 - j];
        }
      }
    }
  }

  /** An image URL with parameters is skipped. */
  lemma ImageWithParamsSkipped(split: string -> UrlParts, image: string)
    requires split(image).scheme == "http" && split(image).path == "/img.png;v=1"
    ensures ShouldSkipUrl(image, split)
  {
    var png := "/img.png";
    assert split(image).path == png + ";v=1";
    assert Lower(png) == png;
    assert EndsWith(Lower(png), ".png");
    SkippedWithParams(image, split, png, ";v=1", ".png");
  }

  /** An http(s) URL whose path has neither '.' nor ';', such as an article path, is not skipped. */
  lemma PlainPathNotSkipped(split: string -> UrlParts, url: string)
    requires IsHttpScheme(split(url).scheme) && '.' !in split(url).path && ';' !in split(url).path
    ensures !ShouldSkipUrl(url, split)
  {
    NoParamsKeepsPath(split(url).path);
    assert forall i :: 0 <= i < |split(url).path| ==> split(url).path[i] != '.';
    ExtensionlessNotSkipped(url, split);
  }

  // -------------------------------------------------------------- patterns

  /** Some pattern of `patterns` matches somewhere in `url`. */
  function AnyMatch(patterns: seq<Pattern>, url: string): bool {
    if patterns == [] then false else patterns[0](url) || AnyMatch(patterns[1..], url)
  }

  lemma {:induction false} AnyMatchExists(patterns: seq<Pattern>, url: string)
    ensures AnyMatch(patterns, url) <==> exists i :: 0 <= i < |patterns| && patterns[i](url)
  {
    if patterns != [] {
      AnyMatchExists(patterns[1..], url);
      assert forall i :: 1 <= i < |patterns| ==> patterns[i] == patterns[1..][i - 1];
    }
  }

  /**
   * `matches_patterns`: an exclude match rejects; otherwise no include
   * patterns accepts everything; otherwise some include pattern must match.
   */
  function MatchesPatterns(url: string, includes: seq<Pattern>, excludes: seq<Pattern>): (r: bool)
    ensures (exists i :: 0 <= i < |excludes| && excludes[i](url)) ==> !r
    ensures r <==>
      (forall i :: 0 <= i < |excludes| ==> !excludes[i](url))
      && (|includes| == 0 || exists i :: 0 <= i < |includes| && includes[i](url))
  {
    AnyMatchExists(excludes, url);
    AnyMatchExists(includes, url);
    if |excludes| > 0 && AnyMatch(excludes, url) then false
    else if |includes| == 0 then true
    else AnyMatch(includes, url)
  }
}
