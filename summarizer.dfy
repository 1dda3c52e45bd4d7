/**
 * The article summariser of the Python crawler: `_chunk_text` cuts the text
 * into pieces the model accepts, `_extractive_summary` keeps the leading
 * sentences, and `summarize_content` asks the generative model for a summary
 * of every chunk (with a bounded number of attempts and an extractive
 * fallback) and combines the chunk summaries.
 *
 * The generative model is an oracle: `genai(n)(prompt)` is what the n-th call
 * made by one `summarize_content` run returns. The environment variables are
 * fields of `SummarizerEnv`; the retry delay changes no state and is not
 * modelled.
 */
module Summarizer {
  import opened Wrappers
  import opened Strings

  const DEFAULT_MAX_RETRIES := 3
  const DEFAULT_MAX_INPUT_CHARS := 12000
  /** The default `max_sentences` of `_extractive_summary`; every caller uses it. */
  const MAX_SENTENCES := 6

  // ------------------------------------------------------------- chunking

  /** Consecutive slices of `m` characters, the last one possibly shorter. */
  function FixedChunks(t: string, m: nat): seq<string>
    requires m > 0
    decreases |t|
  {
    if t == "" then []
    else
      var end := if m < |t| then m else |t|;
      [t[..end]] + FixedChunks(t[end..], m)
  }

  /**
   * The slice width of the chunk loop: `max_chars`, or one character when
   * `max_chars` is not positive. As written, the loop never ends for a
   * non-positive `max_chars` (see `ChunkLoopNeverEnds`); one character per
   * chunk is the smallest width that makes progress.
   */
  function ChunkSize(maxChars: int): (m: nat)
    ensures m > 0
    ensures maxChars > 0 ==> m == maxChars
  {
    if maxChars > 0 then maxChars else 1
  }

  /**
   * The chunks `_chunk_text(text, max_chars)` returns, with the width
   * corrected by `ChunkSize`. The loop of `ChunkText` computes it.
   */
  function Chunks(text: string, maxChars: int): seq<string> {
    if |text| <= maxChars then [text] else FixedChunks(text, ChunkSize(maxChars))
  }

  lemma {:induction false} FixedChunksConcat(t: string, m: nat)
    requires m > 0
    ensures Concat(FixedChunks(t, m)) == t
    decreases |t|
  {
    if t != "" {
      var end := if m < |t| then m else |t|;
      FixedChunksConcat(t[end..], m);
      assert t == t[..end] + t[end..];
    }
  }

  lemma {:induction false} FixedChunksSizes(t: string, m: nat)
    requires m > 0
    ensures forall k :: 0 <= k < |FixedChunks(t, m)| ==> 0 < |FixedChunks(t, m)[k]| <= m
    ensures forall k :: 0 <= k < |FixedChunks(t, m)| - 1 ==> |FixedChunks(t, m)[k]| == m
    decreases |t|
  {
    if t != "" {
      var end := if m < |t| then m else |t|;
      FixedChunksSizes(t[end..], m);
      var r := FixedChunks(t, m);
      assert r[1..] == FixedChunks(t[end..], m);
      assert |r[0]| == end;
      if m >= |t| {
        assert t[end..] == "";
      }
    }
  }

  /**
   * `_chunk_text` gives the text back when concatenated, and every chunk fits
   * in `maxChars`; a text that fits already is one chunk.
   */
  lemma ChunksShape(text: string, maxChars: int)
    ensures Concat(Chunks(text, maxChars)) == text
    ensures maxChars > 0 ==> forall k :: 0 <= k < |Chunks(text, maxChars)| ==> |Chunks(text, maxChars)[k]| <= maxChars
    ensures maxChars <= 0 && text != "" ==> forall k :: 0 <= k < |Chunks(text, maxChars)| ==> |Chunks(text, maxChars)[k]| == 1
    ensures |text| <= maxChars ==> Chunks(text, maxChars) == [text]
    ensures |text| > maxChars ==> forall k :: 0 <= k < |Chunks(text, maxChars)| ==> Chunks(text, maxChars)[k] != ""
  {
    if |text| > maxChars {
      FixedChunksConcat(text, ChunkSize(maxChars));
      FixedChunksSizes(text, ChunkSize(maxChars));
    }
  }

  /** Where the chunk loop's `start` is after `k` passes, as written: `start = min(start + max_chars, len(text))`. */
  function StartAfter(k: nat, start: int, maxChars: int, len: int): int {
    if k == 0 then start
    else
      var end := if start + maxChars < len then start + maxChars else len;
      StartAfter(k - 1, end, maxChars, len)
  }

  /**
   * As written, a non-positive `max_chars` and a non-empty text (which does
   * not fit, so the loop is entered) keep `start` at or below 0 for ever: the
   * condition `start < len(text)` holds after any number of passes, and the
   * loop never ends.
   */
  lemma {:induction false} ChunkLoopNeverEnds(text: string, maxChars: int, k: nat, start: int)
    requires maxChars <= 0 && text != "" && start <= 0
    ensures StartAfter(k, start, maxChars, |text|) <= start < |text|
    decreases k
  {
    if k > 0 {
      var end := if start + maxChars < |text| then start + maxChars else |text|;
      ChunkLoopNeverEnds(text, maxChars, k - 1, end);
    }
  }

  /** The chunk loop's step: the chunks from `start` are the slice up to `end`, then the chunks from `end`. */
  lemma FixedChunksAt(text: string, m: nat, start: nat, end: nat)
    requires m > 0 && start < |text|
    requires end == if start + m < |text| then start + m else |text|
    ensures FixedChunks(text[start..], m) == [text[start..end]] + FixedChunks(text[end..], m)
  {
    assert text[start..][end - start..] == text[end..];
    assert text[start..][..end - start] == text[start..end];
  }

  /** `_chunk_text`: the while loop that appends slices of `maxChars` characters. */
  method ChunkText(text: string, maxChars: int) returns (chunks: seq<string>)
    ensures chunks == Chunks(text, maxChars)
    ensures Concat(chunks) == text
    ensures forall k :: 0 <= k < |chunks| ==> |chunks[k]| <= ChunkSize(maxChars)
  {
    if |text| <= maxChars {
      return [text];
    }
    var size := ChunkSize(maxChars);
    chunks := [];
    var start := 0;
    while start < |text|
      invariant 0 <= start <= |text|
      invariant chunks + FixedChunks(text[start..], size) == FixedChunks(text, size)
    {
      var end := if start + size < |text| then start + size else |text|;
      FixedChunksAt(text, size, start, end);
      chunks := chunks + [text[start..end]];
      start := end;
    }
    assert text[start..] == "";
    FixedChunksConcat(text, size);
    FixedChunksSizes(text, size);
  }

  // ------------------------------------------------------------ sentences

  /** The pattern `(?<=[.!?])\s+` can start a match at `i`. */
  predicate BoundaryAt(s: string, i: int) {
    0 < i < |s| && IsSentenceEnd(s[i - 1]) && IsPySpace(s[i])
  }

  /** The leftmost match start at or after `k`. */
  function FirstBoundary(s: string, k: nat): (r: Option<nat>)
    ensures r.Some? ==> k <= r.value < |s| && BoundaryAt(s, r.value)
    ensures r.Some? ==> forall i :: k <= i < r.value ==> !BoundaryAt(s, i)
    ensures r.None? ==> forall i :: k <= i < |s| ==> !BoundaryAt(s, i)
    decreases |s| - k
  {
    if k >= |s| then None
    else if BoundaryAt(s, k) then Some(k)
    else FirstBoundary(s, k + 1)
  }

  /** The sentences: the text split at whitespace runs that follow a `.`, `!` or `?`. */
  function Sentences(s: string): (r: seq<string>)
    ensures |r| >= 1
    decreases |s|
  {
    match FirstBoundary(s, 0)
    case None => [s]
    case Some(i) => [s[..i]] + Sentences(s[RunEnd(s, i, IsPySpace)..])
  }

  /** The whitespace runs `re.split` removed between the sentences. */
  function Gaps(s: string): seq<string>
    decreases |s|
  {
    match FirstBoundary(s, 0)
    case None => []
    case Some(i) => [s[i..RunEnd(s, i, IsPySpace)]] + Gaps(s[RunEnd(s, i, IsPySpace)..])
  }

  /** `parts[0] + gaps[0] + parts[1] + ... + parts[n]`. */
  function Interleave(parts: seq<string>, gaps: seq<string>): string
    requires |gaps| + 1 == |parts|
  {
    if gaps == [] then parts[0] else parts[0] + gaps[0] + Interleave(parts[1..], gaps[1..])
  }

  lemma {:induction false} GapsCount(s: string)
    ensures |Gaps(s)| + 1 == |Sentences(s)|
    decreases |s|
  {
    match FirstBoundary(s, 0)
    case None =>
    case Some(i) => GapsCount(s[RunEnd(s, i, IsPySpace)..]);
  }

  /** Putting the removed whitespace runs back between the sentences gives the text. */
  lemma {:induction false} SentencesRebuild(s: string)
    ensures |Gaps(s)| + 1 == |Sentences(s)|
    ensures Interleave(Sentences(s), Gaps(s)) == s
    decreases |s|
  {
    GapsCount(s);
    match FirstBoundary(s, 0)
    case None =>
    case Some(i) =>
      var j := RunEnd(s, i, IsPySpace);
      SentencesRebuild(s[j..]);
      assert Sentences(s)[1..] == Sentences(s[j..]);
      assert Gaps(s)[1..] == Gaps(s[j..]);
      assert s == s[..i] + s[i..j] + s[j..];
  }

  /** The removed separators are non-empty whitespace runs. */
  lemma {:induction false} GapsAreSpace(s: string)
    ensures forall k :: 0 <= k < |Gaps(s)| ==> Gaps(s)[k] != "" && AllSpace(Gaps(s)[k], IsPySpace)
    decreases |s|
  {
    match FirstBoundary(s, 0)
    case None =>
    case Some(i) =>
      var j := RunEnd(s, i, IsPySpace);
      GapsAreSpace(s[j..]);
      assert Gaps(s)[1..] == Gaps(s[j..]);
      assert AllSpace(s[i..j], IsPySpace);
  }

  /** Every sentence but the last ends with '.', '!' or '?'. */
  lemma {:induction false} SentencesEndTerminal(s: string)
    ensures forall k :: 0 <= k < |Sentences(s)| - 1 ==>
      Sentences(s)[k] != "" && IsSentenceEnd(Sentences(s)[k][|Sentences(s)[k]| - 1])
    decreases |s|
  {
    match FirstBoundary(s, 0)
    case None =>
    case Some(i) =>
      var j := RunEnd(s, i, IsPySpace);
      SentencesEndTerminal(s[j..]);
      assert Sentences(s)[1..] == Sentences(s[j..]);
  }

  /** No sentence holds another split point: the split is complete. */
  lemma {:induction false} SentencesUnsplittable(s: string)
    ensures forall k, x :: 0 <= k < |Sentences(s)| && 0 <= x < |Sentences(s)[k]| ==> !BoundaryAt(Sentences(s)[k], x)
    decreases |s|
  {
    match FirstBoundary(s, 0)
    case None =>
    case Some(i) =>
      var j := RunEnd(s, i, IsPySpace);
      SentencesUnsplittable(s[j..]);
      assert Sentences(s)[1..] == Sentences(s[j..]);
      forall x | 0 <= x < i ensures !BoundaryAt(s[..i], x) {
        assert !BoundaryAt(s, x);
      }
  }

  /** `_extractive_summary(text, max_sentences)`. */
  function ExtractiveSummary(text: string, maxSentences: nat): (r: string)
    ensures |r| <= |text|
  {
    var s := PyStrip(text);
    SentencesRebuild(s);
    GapsAreSpace(s);
    JoinPrefixShorter(Sentences(s), Gaps(s), maxSentences);
    PyStrip(Join(Take(Sentences(s), maxSentences), " "))
  }

  lemma {:induction false} JoinPrefixShorter(parts: seq<string>, gaps: seq<string>, n: nat)
    requires |gaps| + 1 == |parts|
    requires forall k :: 0 <= k < |gaps| ==> gaps[k] != ""
    ensures |Join(Take(parts, n), " ")| <= |Interleave(parts, gaps)|
    decreases |gaps|
  {
    if n == 0 || gaps == [] {
    } else {
      JoinPrefixShorter(parts[1..], gaps[1..], n - 1);
      var t := Take(parts, n);
      assert t[0] == parts[0];
      assert t[1..] == Take(parts[1..], n - 1);
      if |t| > 1 {
        assert Join(t, " ") == t[0] + " " + Join(t[1..], " ");
      }
    }
  }

  /** The extractive summary is never longer than the text it summarises. */
  /** A stripped text with no sentence boundary is its own summary. */
  lemma ExtractiveSummaryOneSentence(text: string, maxSentences: nat)
    requires maxSentences >= 1
    requires forall i :: 0 <= i < |PyStrip(text)| ==> !BoundaryAt(PyStrip(text), i)
    ensures ExtractiveSummary(text, maxSentences) == PyStrip(text)
  {
    var s := PyStrip(text);
    assert FirstBoundary(s, 0).None?;
    assert Sentences(s) == [s];
    TrimIdempotent(text, IsPySpace);
  }

  // ------------------------------------------------------ summarize_content

  /** What one `_summarize_with_genai` call did: the model's raw text, or an exception. */
  datatype GenReply = Answer(text: string) | Raises

  datatype SummarizerEnv = SummarizerEnv(
    apiKey: string,          // GOOGLE_AI_API_KEY
    sdkLoaded: bool,         // the `google.generativeai` import succeeded
    instruction: string,     // AI_INSTRUCTIONS
    maxRetries: int,         // AI_MAX_RETRIES
    maxInputChars: int,      // AI_MAX_INPUT_CHARS
    genai: nat -> string -> GenReply)

  const CHUNK_REQUEST := "Summarize the following article for a professional audience:\n\n"
  const COMBINE_REQUEST := "Combine the following summaries into a concise final summary:\n\n"

  function ChunkPrompt(env: SummarizerEnv, chunk: string): string {
    (if env.instruction != "" then env.instruction + "\n\n" else "") + CHUNK_REQUEST + chunk
  }

  /** The model gave a usable summary: text that is not blank once stripped. */
  predicate Useful(r: GenReply) { r.Answer? && PyStrip(r.text) != "" }

  /**
   * The attempt loop for one chunk from attempt `attempt` on, with `call` the
   * index of the next model call and `fallback` the chunk's extractive
   * summary: the summary it appends (if any) and the index of the next call
   * after it.
   */
  function ChunkAttempts(genai: nat -> string -> GenReply, maxRetries: int, prompt: string, fallback: string,
                         call: nat, attempt: nat): (Option<string>, nat)
    requires attempt >= 1
    decreases if attempt <= maxRetries then maxRetries - attempt + 1 else 0
  {
    if attempt > maxRetries then (None, call)
    else
      var reply := genai(call)(prompt);
      if Useful(reply) then (Some(PyStrip(reply.text)), call + 1)
      else if reply.Raises? && attempt >= maxRetries then (Some(fallback), call + 1)
      else ChunkAttempts(genai, maxRetries, prompt, fallback, call + 1, attempt + 1)
  }

  /** The extractive summary `summarize_content` falls back to, with the default sentence count. */
  function LocalSummary(text: string): string { ExtractiveSummary(text, MAX_SENTENCES) }

  /**
   * The attempt loop for one chunk, from the first attempt. `local` is the
   * fallback summariser; `summarize_content` uses `LocalSummary`.
   */
  function ChunkOutcome(env: SummarizerEnv, local: string -> string, chunk: string, call: nat): (Option<string>, nat) {
    ChunkAttempts(env.genai, env.maxRetries, ChunkPrompt(env, chunk), local(chunk), call, 1)
  }

  /** The attempt loop makes at most one model call per remaining attempt. */
  lemma {:induction false} ChunkAttemptsCalls(genai: nat -> string -> GenReply, maxRetries: int, prompt: string,
                                              fallback: string, call: nat, attempt: nat)
    requires attempt >= 1
    ensures call <= ChunkAttempts(genai, maxRetries, prompt, fallback, call, attempt).1
                 <= call + Max0(maxRetries - attempt + 1)
    decreases if attempt <= maxRetries then maxRetries - attempt + 1 else 0
  {
    if attempt <= maxRetries {
      ChunkAttemptsCalls(genai, maxRetries, prompt, fallback, call + 1, attempt + 1);
    }
  }

  /**
   * A summary is appended either as the model's non-empty answer to the last
   * call made, or as the fallback once the last allowed attempt raised.
   */
  lemma {:induction false} ChunkAttemptsSome(genai: nat -> string -> GenReply, maxRetries: int, prompt: string,
                                             fallback: string, call: nat, attempt: nat)
    requires attempt >= 1
    requires ChunkAttempts(genai, maxRetries, prompt, fallback, call, attempt).0.Some?
    ensures ChunkAttempts(genai, maxRetries, prompt, fallback, call, attempt).1 > call
    ensures var (piece, next) := ChunkAttempts(genai, maxRetries, prompt, fallback, call, attempt);
      var last := genai(next - 1)(prompt);
      (Useful(last) && piece.value == PyStrip(last.text))
      || (last.Raises? && next == call + maxRetries - attempt + 1 && piece.value == fallback)
    decreases if attempt <= maxRetries then maxRetries - attempt + 1 else 0
  {
    assert attempt <= maxRetries;
    var r := ChunkAttempts(genai, maxRetries, prompt, fallback, call, attempt);
    var reply := genai(call)(prompt);
    if Useful(reply) {
      assert r == (Some(PyStrip(reply.text)), call + 1);
    } else if reply.Raises? && attempt >= maxRetries {
      assert r == (Some(fallback), call + 1) && attempt == maxRetries;
    } else {
      assert r == ChunkAttempts(genai, maxRetries, prompt, fallback, call + 1, attempt + 1);
      ChunkAttemptsSome(genai, maxRetries, prompt, fallback, call + 1, attempt + 1);
    }
  }

  /**
   * Nothing is appended only when no attempt brought a usable answer and the
   * last attempt came back with blank text (or no attempt was allowed).
   */
  lemma {:induction false} ChunkAttemptsNone(genai: nat -> string -> GenReply, maxRetries: int, prompt: string,
                                             fallback: string, call: nat, attempt: nat)
    requires attempt >= 1
    requires ChunkAttempts(genai, maxRetries, prompt, fallback, call, attempt).0.None?
    ensures var next := ChunkAttempts(genai, maxRetries, prompt, fallback, call, attempt).1;
      next == call + Max0(maxRetries - attempt + 1)
      && (forall n :: call <= n < next ==> !Useful(genai(n)(prompt)))
      && (next > call ==> genai(next - 1)(prompt).Answer?)
    decreases if attempt <= maxRetries then maxRetries - attempt + 1 else 0
  {
    if attempt <= maxRetries {
      var reply := genai(call)(prompt);
      assert !Useful(reply) && !(reply.Raises? && attempt >= maxRetries);
      assert ChunkAttempts(genai, maxRetries, prompt, fallback, call, attempt)
          == ChunkAttempts(genai, maxRetries, prompt, fallback, call + 1, attempt + 1);
      ChunkAttemptsNone(genai, maxRetries, prompt, fallback, call + 1, attempt + 1);
    }
  }

  /** The attempt loop for one chunk: attempts 1 to `MAX_RETRIES`. */
  method SummarizeChunk(env: SummarizerEnv, local: string -> string, chunk: string, call: nat)
    returns (piece: Option<string>, next: nat)
    ensures (piece, next) == ChunkOutcome(env, local, chunk, call)
  {
    var prompt := ChunkPrompt(env, chunk);
    ghost var fallback := local(chunk);
    var attempt := 1;
    next := call;
    while attempt <= env.maxRetries
      invariant attempt >= 1
      invariant ChunkOutcome(env, local, chunk, call) == ChunkAttempts(env.genai, env.maxRetries, prompt, fallback, next, attempt)
      decreases env.maxRetries - attempt + 1
    {
      var reply := env.genai(next)(prompt);
      next := next + 1;
      if reply.Answer? {
        var summary := PyStrip(reply.text);
        if summary != "" {
          return Some(summary), next;
        }
      } else if attempt >= env.maxRetries {
        return Some(local(chunk)), next;
      }
      attempt := attempt + 1;
    }
    piece := None;
  }

  /** The outer loop over the chunks: the summaries appended and the next call index. */
  function ChunkSummaries(env: SummarizerEnv, local: string -> string, chunks: seq<string>, call: nat): (seq<string>, nat)
    decreases |chunks|
  {
    if chunks == [] then ([], call)
    else
      var (piece, next) := ChunkOutcome(env, local, chunks[0], call);
      var (rest, last) := ChunkSummaries(env, local, chunks[1..], next);
      ((if piece.Some? then [piece.value] else []) + rest, last)
  }

  /** At most one summary per chunk, and at most `MAX_RETRIES` calls per chunk. */
  lemma {:induction false} ChunkSummariesBound(env: SummarizerEnv, local: string -> string, chunks: seq<string>, call: nat)
    ensures |ChunkSummaries(env, local, chunks, call).0| <= |chunks|
    ensures call <= ChunkSummaries(env, local, chunks, call).1 <= call + |chunks| * Max0(env.maxRetries)
    decreases |chunks|
  {
    if chunks != [] {
      var next := ChunkOutcome(env, local, chunks[0], call).1;
      ChunkAttemptsCalls(env.genai, env.maxRetries, ChunkPrompt(env, chunks[0]), local(chunks[0]), call, 1);
      ChunkSummariesBound(env, local, chunks[1..], next);
      assert |chunks| * Max0(env.maxRetries) == (|chunks| - 1) * Max0(env.maxRetries) + Max0(env.maxRetries);
    }
  }

  lemma {:induction false} RaisingChunk(genai: nat -> string -> GenReply, maxRetries: int, prompt: string,
                                        fallback: string, call: nat, attempt: nat)
    requires 1 <= attempt <= maxRetries
    requires forall n, p :: genai(n)(p) == Raises
    ensures ChunkAttempts(genai, maxRetries, prompt, fallback, call, attempt)
      == (Some(fallback), call + maxRetries - attempt + 1)
    decreases maxRetries - attempt
  {
    assert genai(call)(prompt) == Raises;
    if attempt < maxRetries {
      RaisingChunk(genai, maxRetries, prompt, fallback, call + 1, attempt + 1);
    }
  }

  /**
   * When every model call raises (and at least one attempt is allowed), each
   * chunk contributes exactly its extractive summary, after `MAX_RETRIES` calls.
   */
  lemma {:induction false} AlwaysRaisingFallsBack(env: SummarizerEnv, local: string -> string, chunks: seq<string>, call: nat)
    requires env.maxRetries >= 1
    requires forall n, p :: env.genai(n)(p) == Raises
    ensures var (sums, last) := ChunkSummaries(env, local, chunks, call);
      |sums| == |chunks| && last == call + |chunks| * env.maxRetries
      && forall k :: 0 <= k < |chunks| ==> sums[k] == local(chunks[k])
    decreases |chunks|
  {
    if chunks != [] {
      var (piece, next) := ChunkOutcome(env, local, chunks[0], call);
      RaisingChunk(env.genai, env.maxRetries, ChunkPrompt(env, chunks[0]), local(chunks[0]), call, 1);
      AlwaysRaisingFallsBack(env, local, chunks[1..], next);
      assert |chunks| * env.maxRetries == (|chunks| - 1) * env.maxRetries + env.maxRetries;
    }
  }

  /** The model is used only when the key is set and the SDK was imported. */
  predicate ModelAvailable(env: SummarizerEnv) { env.apiKey != "" && env.sdkLoaded }

  /** The final step: a single summary as is, otherwise one combining call with an extractive fallback. */
  function Combine(env: SummarizerEnv, summaries: seq<string>, call: nat): (string, nat) {
    if |summaries| == 1 then (summaries[0], call)
    else
      var combined := Join(summaries, "\n");
      match env.genai(call)(COMBINE_REQUEST + combined)
      case Answer(t) => (PyStrip(t), call + 1)
      case Raises => (LocalSummary(combined), call + 1)
  }

  /** `summarize_content(content)`: the summary and the number of model calls. */
  function SummarySpec(content: string, env: SummarizerEnv): (r: (string, nat))
    ensures content == "" ==> r == ("", 0)
    ensures content != "" && !ModelAvailable(env) ==> r == (LocalSummary(PyStrip(content)), 0)
  {
    if content == "" then ("", 0)
    else if !ModelAvailable(env) then (LocalSummary(PyStrip(content)), 0)
    else
      var (summaries, next) := ChunkSummaries(env, LocalSummary, Chunks(PyStrip(content), env.maxInputChars), 0);
      Combine(env, summaries, next)
  }

  /**
   * A run makes at most `MAX_RETRIES` calls per chunk plus one combining call,
   * and a text that fits in one chunk and is answered at once costs one call.
   */
  lemma SummaryCallBound(content: string, env: SummarizerEnv)
    ensures content != "" && ModelAvailable(env) ==>
      SummarySpec(content, env).1 <= |Chunks(PyStrip(content), env.maxInputChars)| * Max0(env.maxRetries) + 1
    ensures content == "" || !ModelAvailable(env) ==> SummarySpec(content, env).1 == 0
  {
    if content != "" && ModelAvailable(env) {
      ChunkSummariesBound(env, LocalSummary, Chunks(PyStrip(content), env.maxInputChars), 0);
    }
  }

  /** The `for chunk in chunks` loop of `summarize_content`. */
  method SummarizeChunks(env: SummarizerEnv, local: string -> string, chunks: seq<string>)
    returns (summaries: seq<string>, next: nat)
    ensures (summaries, next) == ChunkSummaries(env, local, chunks, 0)
  {
    summaries := [];
    next := 0;
    ghost var whole := ChunkSummaries(env, local, chunks, 0);
    assert chunks[0..] == chunks && [] + whole.0 == whole.0;
    for i := 0 to |chunks|
      invariant whole == Resume(env, local, chunks[i..], summaries, next)
    {
      summaries, next := SummarizeNext(env, local, chunks[i..], summaries, next);
      assert chunks[i..][1..] == chunks[i + 1..];
    }
    assert chunks[|chunks|..] == [];
    assert ChunkSummaries(env, local, [], next) == ([], next);
    assert summaries + [] == summaries;
  }

  /** The outcome of the chunk loop resumed at `chunks` with `done` appended so far. */
  function Resume(env: SummarizerEnv, local: string -> string, chunks: seq<string>, done: seq<string>, call: nat): (seq<string>, nat) {
    (done + ChunkSummaries(env, local, chunks, call).0, ChunkSummaries(env, local, chunks, call).1)
  }

  /** One turn of the chunk loop: the first chunk is summarised and its summary, if any, appended. */
  method SummarizeNext(env: SummarizerEnv, local: string -> string, chunks: seq<string>, done: seq<string>, call: nat)
    returns (summaries: seq<string>, next: nat)
    requires chunks != []
    ensures Resume(env, local, chunks[1..], summaries, next) == Resume(env, local, chunks, done, call)
  {
    var piece;
    piece, next := SummarizeChunk(env, local, chunks[0], call);
    summaries := if piece.Some? then done + [piece.value] else done;
    var rest := ChunkSummaries(env, local, chunks[1..], next);
    assert ChunkSummaries(env, local, chunks, call) == ((if piece.Some? then [piece.value] else []) + rest.0, rest.1);
    assert summaries + rest.0 == done + ((if piece.Some? then [piece.value] else []) + rest.0);
  }

  /**
   * A model that always raises gives a short article the same summary as no
   * model at all, after `MAX_RETRIES` calls.
   */
  lemma FailingModelMatchesNoModel(content: string, env: SummarizerEnv)
    requires content != "" && ModelAvailable(env)
    requires |PyStrip(content)| <= env.maxInputChars
    requires env.maxRetries >= 1
    requires forall n, p :: env.genai(n)(p) == Raises
    ensures SummarySpec(content, env).0 == SummarySpec(content, env.(apiKey := "")).0
    ensures SummarySpec(content, env).1 == env.maxRetries
  {
    var chunks := Chunks(PyStrip(content), env.maxInputChars);
    assert chunks == [PyStrip(content)];
    AlwaysRaisingFallsBack(env, LocalSummary, chunks, 0);
  }

  /** The combining step after the chunk loop. */
  method CombineSummaries(env: SummarizerEnv, summaries: seq<string>, call: nat) returns (summary: string, next: nat)
    ensures summary == Combine(env, summaries, call).0
    ensures next == Combine(env, summaries, call).1
  {
    if |summaries| == 1 {
      return summaries[0], call;
    }
    var combined := Join(summaries, "\n");
    var reply := env.genai(call)(COMBINE_REQUEST + combined);
    if reply.Answer? {
      summary := PyStrip(reply.text);
    } else {
      summary := LocalSummary(combined);
    }
    next := call + 1;
  }

  /** `summarize_content`: chunking, the loop over the chunks and the combining step. */
  method SummarizeContent(content: string, env: SummarizerEnv) returns (summary: string, ghost calls: nat)
    ensures summary == SummarySpec(content, env).0
    ensures calls == SummarySpec(content, env).1
  {
    if content == "" {
      return "", 0;
    }
    var trimmed := PyStrip(content);
    if !ModelAvailable(env) {
      return LocalSummary(trimmed), 0;
    }
    var chunks := ChunkText(trimmed, env.maxInputChars);
    var summaries, next := SummarizeChunks(env, LocalSummary, chunks);
    summary, calls := CombineSummaries(env, summaries, next);
  }
}
