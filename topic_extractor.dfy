/**
 * Topic extraction: the cleaning of the model's comma-separated answer into
 * a list of distinct topics, the truncation of the input text, and the
 * rotation over API keys and models with a bounded number of attempts per
 * key/model pair. The generative model itself is an oracle.
 */
module TopicExtractor {
  import opened Wrappers
  import opened Strings

  const MAX_RETRIES_PER_PAIR := 2
  const MAX_CONTENT_CHARS := 2000
  const EXHAUSTED := "All keys/models exhausted while extracting topics"
  const PROMPT_HEAD := "Extract 5-10 concise topics from the following text. Return as a comma-separated list (no quotes/brackets):\n\n"

  // ------------------------------------------------------------------ clean

  /** A character that separates topics in the answer: a comma or a line feed. */
  predicate IsTopicBreak(c: char) { c == '\n' || c == ',' }

  /** One piece trimmed and lower-cased. */
  function Tidy(piece: string): string {
    Lower(JsTrim(piece))
  }

  /** Every piece tidied, with the pieces that end up empty dropped. */
  function Kept(pieces: seq<string>): seq<string> {
    if pieces == [] then []
    else
      var init := Kept(pieces[..|pieces| - 1]);
      var t := Tidy(pieces[|pieces| - 1]);
      if t == "" then init else init + [t]
  }

  /** Some piece of `pieces` tidies to `t`. */
  predicate TidiedFrom(t: string, pieces: seq<string>) {
    exists k :: 0 <= k < |pieces| && t == Tidy(pieces[k])
  }

  /** `t` is kept exactly when it is non-empty and some piece tidies to it. */
  lemma {:induction false} KeptAt(pieces: seq<string>, t: string)
    ensures t in Kept(pieces) <==> t != "" && TidiedFrom(t, pieces)
  {
    if pieces != [] {
      var init := pieces[..|pieces| - 1];
      KeptAt(init, t);
      if TidiedFrom(t, init) {
        var k :| 0 <= k < |init| && t == Tidy(init[k]);
        assert pieces[k] == init[k];
      }
      if TidiedFrom(t, pieces) && t != Tidy(pieces[|pieces| - 1]) {
        var k :| 0 <= k < |pieces| && t == Tidy(pieces[k]);
        assert init[k] == pieces[k];
      }
    }
  }

  /** `Kept` holds exactly the non-empty tidied pieces. */
  lemma KeptMember(pieces: seq<string>)
    ensures forall t :: t in Kept(pieces) <==> t != "" && exists k :: 0 <= k < |pieces| && t == Tidy(pieces[k])
  {
    forall t ensures t in Kept(pieces) <==> t != "" && exists k :: 0 <= k < |pieces| && t == Tidy(pieces[k]) {
      KeptAt(pieces, t);
    }
  }

  /** Each value once, in the order of its first appearance. */
  function Dedup<T(==)>(xs: seq<T>): seq<T> {
    if xs == [] then []
    else
      var init := Dedup(xs[..|xs| - 1]);
      if xs[|xs| - 1] in init then init else init + [xs[|xs| - 1]]
  }

  /** `Dedup` keeps every value once and no other. */
  lemma {:induction false} DedupSet<T>(xs: seq<T>)
    ensures NoDup(Dedup(xs))
    ensures forall x :: x in Dedup(xs) <==> x in xs
  {
    if xs != [] {
      var init := xs[..|xs| - 1];
      DedupSet(init);
      assert xs == init + [xs[|xs| - 1]];
      if xs[|xs| - 1] !in Dedup(init) {
        NoDupSnoc(Dedup(init), xs[|xs| - 1]);
      }
    }
  }

  lemma DedupMember<T>(xs: seq<T>, x: T)
    requires x in Dedup(xs)
    ensures x in xs
  {
    DedupSet(xs);
  }

  /** Position of the first occurrence of `x` in `xs`. */
  function FirstAt<T(==)>(xs: seq<T>, x: T): (k: nat)
    requires x in xs
    ensures k < |xs| && xs[k] == x && forall i :: 0 <= i < k ==> xs[i] != x
  {
    if xs[0] == x then 0 else 1 + FirstAt(xs[1..], x)
  }

  lemma FirstAtPrefix<T>(xs: seq<T>, n: nat, x: T)
    requires n <= |xs| && x in xs[..n]
    ensures x in xs && FirstAt(xs, x) == FirstAt(xs[..n], x)
  {
    var k := FirstAt(xs[..n], x);
    assert xs[k] == x;
    var j := FirstAt(xs, x);
    assert j <= k;
    assert xs[..n][j] == x;
  }

  /** `Dedup` lists values in the order of their first occurrences. */
  lemma {:induction false} DedupFirstOrder<T>(xs: seq<T>, i: nat, j: nat)
    requires i < j < |Dedup(xs)|
    ensures Dedup(xs)[i] in xs && Dedup(xs)[j] in xs
    ensures FirstAt(xs, Dedup(xs)[i]) < FirstAt(xs, Dedup(xs)[j])
  {
    var n := |xs| - 1;
    var init := xs[..n];
    var d := Dedup(init);
    DedupSet(init);
    DedupSet(xs);
    if j < |d| {
      DedupFirstOrder(init, i, j);
      FirstAtPrefix(xs, n, d[i]);
      FirstAtPrefix(xs, n, d[j]);
    } else {
      assert Dedup(xs)[j] == xs[n] && xs[n] !in init;
      assert FirstAt(xs, xs[n]) == n;
      assert Dedup(xs) == d + [xs[n]] && Dedup(xs)[i] == d[i];
      assert d[i] in d;
      DedupMember(init, d[i]);
      assert d[i] in xs[..n];
      FirstAtPrefix(xs, n, d[i]);
    }
  }

  /** The answer split at separators, tidied, emptied pieces dropped, duplicates removed. */
  function Clean(s: string): (r: seq<string>)
    ensures NoDup(r)
  {
    DedupSet(Kept(SplitRuns(s, IsTopicBreak)));
    Dedup(Kept(SplitRuns(s, IsTopicBreak)))
  }

  /** A tidied piece is lower-case, has no separator and no surrounding whitespace. */
  lemma TidyShape(piece: string)
    requires forall i :: 0 <= i < |piece| ==> !IsTopicBreak(piece[i])
    ensures var t := Tidy(piece);
      && IsLower(t) && (t == [] || (!IsJsSpace(t[0]) && !IsJsSpace(t[|t| - 1])))
      && forall i :: 0 <= i < |t| ==> !IsTopicBreak(t[i])
  {
    var trimmed := JsTrim(piece);
    LowerIdempotent(trimmed);
    TrimIsSlice(piece, IsJsSpace);
    forall i | 0 <= i < |trimmed| ensures !IsTopicBreak(trimmed[i]) {
      assert trimmed[i] == piece[LeadingCount(piece, IsJsSpace) + i];
    }
  }

  /**
   * `clean` yields distinct topics: exactly the non-empty tidied pieces of
   * the answer, each lower-case, without a comma or a line break and
   * without surrounding whitespace.
   */
  lemma CleanSpec(s: string)
    ensures forall t :: t in Clean(s) <==>
      t != "" && exists k :: 0 <= k < |SplitRuns(s, IsTopicBreak)| && t == Tidy(SplitRuns(s, IsTopicBreak)[k])
    ensures forall t :: t in Clean(s) ==>
      && IsLower(t) && !IsJsSpace(t[0]) && !IsJsSpace(t[|t| - 1])
      && forall i :: 0 <= i < |t| ==> !IsTopicBreak(t[i])
  {
    var pieces := SplitRuns(s, IsTopicBreak);
    DedupSet(Kept(pieces));
    KeptMember(pieces);
    forall k | 0 <= k < |pieces| ensures
      var t := Tidy(pieces[k]);
      && IsLower(t) && (t == [] || (!IsJsSpace(t[0]) && !IsJsSpace(t[|t| - 1])))
      && forall i :: 0 <= i < |t| ==> !IsTopicBreak(t[i])
    {
      TidyShape(pieces[k]);
    }
  }

  // ------------------------------------------------------------- the prompt

  /** The input cut to 2000 characters, with "..." when it was longer. */
  function Truncate(raw: string): (r: string)
    ensures |raw| <= MAX_CONTENT_CHARS ==> r == raw
    ensures |raw| > MAX_CONTENT_CHARS ==> r == raw[..MAX_CONTENT_CHARS] + "..."
    ensures |r| <= MAX_CONTENT_CHARS + 3
  {
    if |raw| > MAX_CONTENT_CHARS then raw[..MAX_CONTENT_CHARS] + "..." else raw
  }

  function Prompt(text: string): string {
    PROMPT_HEAD + text
  }

  // --------------------------------------------------------------- attempts

  /** One call to the model: which key, which model, which attempt, which prompt. */
  datatype Call = Call(key: string, model: string, attempt: nat, prompt: string)

  /** The configured keys with the unset ones dropped. */
  function ApiKeys(env: seq<string>): (r: seq<string>)
    ensures forall k :: k in r <==> k in env && k != ""
  {
    if env == [] then []
    else
      var init := ApiKeys(env[..|env| - 1]);
      assert forall x :: x in env <==> x in env[..|env| - 1] || x == env[|env| - 1];
      if env[|env| - 1] == "" then init else init + [env[|env| - 1]]
  }

  /** The calls for one key over the models, two attempts each. */
  function PairCalls(key: string, models: seq<string>, prompt: string): seq<Call> {
    if models == [] then []
    else
      var m := models[|models| - 1];
      PairCalls(key, models[..|models| - 1], prompt) + [Call(key, m, 1, prompt), Call(key, m, 2, prompt)]
  }

  /** Every call the rotation can make, in order: keys outermost, then models, then attempts. */
  function Schedule(keys: seq<string>, models: seq<string>, prompt: string): seq<Call> {
    if keys == [] then []
    else Schedule(keys[..|keys| - 1], models, prompt) + PairCalls(keys[|keys| - 1], models, prompt)
  }

  lemma {:induction false} PairCallsShape(key: string, models: seq<string>, prompt: string)
    ensures |PairCalls(key, models, prompt)| == MAX_RETRIES_PER_PAIR * |models|
    ensures forall c :: c in PairCalls(key, models, prompt) ==>
      c.key == key && c.model in models && 1 <= c.attempt <= MAX_RETRIES_PER_PAIR && c.prompt == prompt
    ensures NoDup(models) ==> NoDup(PairCalls(key, models, prompt))
  {
    if models != [] {
      var init := models[..|models| - 1];
      PairCallsShape(key, init, prompt);
      assert forall x :: x in init ==> x in models;
      if NoDup(models) {
        assert models[|models| - 1] !in init;
        var p := PairCalls(key, init, prompt);
        var m := models[|models| - 1];
        NoDupSnoc(p, Call(key, m, 1, prompt));
        NoDupSnoc(p + [Call(key, m, 1, prompt)], Call(key, m, 2, prompt));
        assert p + [Call(key, m, 1, prompt)] + [Call(key, m, 2, prompt)] == PairCalls(key, models, prompt);
      }
    }
  }

  lemma NoDupAppend<T>(a: seq<T>, b: seq<T>)
    requires NoDup(a) && NoDup(b)
    requires forall x :: x in a ==> x !in b
    ensures NoDup(a + b)
  {
    var ab := a + b;
    forall i, j | 0 <= i < j < |ab| ensures ab[i] != ab[j] {
      if j >= |a| && i < |a| {
        assert ab[i] == a[i] && a[i] in a;
        assert ab[j] == b[j - |a|] && b[j - |a|] in b;
      } else if i >= |a| {
        assert ab[i] == b[i - |a|] && ab[j] == b[j - |a|];
      }
    }
  }

  lemma {:induction false} ScheduleLength(keys: seq<string>, models: seq<string>, prompt: string)
    ensures |Schedule(keys, models, prompt)| == MAX_RETRIES_PER_PAIR * (|keys| * |models|)
  {
    if keys != [] {
      ScheduleLength(keys[..|keys| - 1], models, prompt);
      PairCallsShape(keys[|keys| - 1], models, prompt);
      assert (|keys| - 1) * |models| + |models| == |keys| * |models|;
    }
  }

  /**
   * Every call of the schedule uses a configured key and model, the prompt,
   * and attempt 1 or 2; with distinct keys and models no call repeats, so
   * no key/model pair is tried more than twice.
   */
  lemma {:induction false} ScheduleCalls(keys: seq<string>, models: seq<string>, prompt: string)
    ensures forall c :: c in Schedule(keys, models, prompt) ==>
      c.key in keys && c.model in models && 1 <= c.attempt <= MAX_RETRIES_PER_PAIR && c.prompt == prompt
    ensures NoDup(keys) && NoDup(models) ==> NoDup(Schedule(keys, models, prompt))
  {
    if keys != [] {
      var init := keys[..|keys| - 1];
      var k := keys[|keys| - 1];
      ScheduleCalls(init, models, prompt);
      PairCallsShape(k, models, prompt);
      assert forall x :: x in init ==> x in keys;
      if NoDup(keys) && NoDup(models) {
        assert k !in init;
        NoDupAppend(Schedule(init, models, prompt), PairCalls(k, models, prompt));
      }
    }
  }

  lemma {:induction false} PairCallsPrefix(key: string, models: seq<string>, prompt: string, i: nat)
    requires i <= |models|
    ensures PairCalls(key, models[..i], prompt) <= PairCalls(key, models, prompt)
    decreases |models|
  {
    if i < |models| {
      var init := models[..|models| - 1];
      PairCallsPrefix(key, init, prompt, i);
      assert init[..i] == models[..i];
    } else {
      assert models[..i] == models;
    }
  }

  lemma {:induction false} SchedulePrefix(keys: seq<string>, models: seq<string>, prompt: string, i: nat)
    requires i <= |keys|
    ensures Schedule(keys[..i], models, prompt) <= Schedule(keys, models, prompt)
    decreases |keys|
  {
    if i < |keys| {
      var init := keys[..|keys| - 1];
      SchedulePrefix(init, models, prompt, i);
      assert init[..i] == keys[..i];
    } else {
      assert keys[..i] == keys;
    }
  }

  /** A call succeeds when the model answers with some non-blank text. */
  predicate Succeeds(c: Call, generate: Call -> Option<string>) {
    generate(c).Some? && JsTrim(generate(c).value) != ""
  }

  /** No call of `calls` succeeds. */
  predicate AllFail(calls: seq<Call>, generate: Call -> Option<string>) {
    forall i :: 0 <= i < |calls| ==> !Succeeds(calls[i], generate)
  }

  /**
   * Making `calls` in order and stopping at the first success makes `made`
   * calls and yields `answer`: the trimmed text of the one call that
   * succeeded, after failures only, or nothing once every call failed.
   */
  predicate FirstSuccess(calls: seq<Call>, generate: Call -> Option<string>, made: nat, answer: Option<string>) {
    && made <= |calls|
    && (forall i :: 0 <= i < made - 1 ==> !Succeeds(calls[i], generate))
    && (answer.Some? ==>
          made >= 1 && Succeeds(calls[made - 1], generate)
          && answer.value == JsTrim(generate(calls[made - 1]).value))
    && (answer.None? ==> made == |calls| && AllFail(calls, generate))
  }

  /** Failures before a run of calls shift where its first success is found. */
  lemma FirstSuccessAfter(a: seq<Call>, b: seq<Call>, generate: Call -> Option<string>, made: nat, answer: Option<string>)
    requires AllFail(a, generate) && FirstSuccess(b, generate, made, answer)
    ensures FirstSuccess(a + b, generate, |a| + made, answer)
  {
    var ab := a + b;
    forall i | 0 <= i < |a| + made - 1 ensures !Succeeds(ab[i], generate) {
      if i >= |a| {
        assert ab[i] == b[i - |a|];
      } else {
        assert ab[i] == a[i];
      }
    }
    if answer.Some? {
      assert ab[|a| + made - 1] == b[made - 1];
    } else {
      forall i | 0 <= i < |ab| ensures !Succeeds(ab[i], generate) {
        if i >= |a| {
          assert ab[i] == b[i - |a|];
        } else {
          assert ab[i] == a[i];
        }
      }
    }
  }

  /** A success found in a prefix is the first success of the whole run. */
  lemma FirstSuccessPrefix(a: seq<Call>, c: seq<Call>, generate: Call -> Option<string>, made: nat, answer: Option<string>)
    requires a <= c && answer.Some? && FirstSuccess(a, generate, made, answer)
    ensures FirstSuccess(c, generate, made, answer)
  {
    assert forall i :: 0 <= i < |a| ==> a[i] == c[i];
  }

  /** The attempt loop for one key/model pair: up to two calls, stopping at the first success. */
  method TryPair(key: string, model: string, prompt: string, generate: Call -> Option<string>)
    returns (answer: Option<string>, tries: nat)
    ensures FirstSuccess([Call(key, model, 1, prompt), Call(key, model, 2, prompt)], generate, tries, answer)
  {
    for attempt := 1 to MAX_RETRIES_PER_PAIR + 1
      invariant forall a :: 1 <= a < attempt ==> !Succeeds(Call(key, model, a, prompt), generate)
    {
      var out := generate(Call(key, model, attempt, prompt));
      if out.Some? && JsTrim(out.value) != "" {
        return Some(JsTrim(out.value)), attempt;
      }
    }
    return None, MAX_RETRIES_PER_PAIR;
  }

  /** The model loop for one key: each model in turn, two attempts each. */
  method TryKey(key: string, models: seq<string>, prompt: string, generate: Call -> Option<string>)
    returns (answer: Option<string>, made: nat)
    ensures FirstSuccess(PairCalls(key, models, prompt), generate, made, answer)
  {
    made := 0;
    for mi := 0 to |models|
      invariant made == |PairCalls(key, models[..mi], prompt)|
      invariant AllFail(PairCalls(key, models[..mi], prompt), generate)
    {
      var done := PairCalls(key, models[..mi], prompt);
      var pair := [Call(key, models[mi], 1, prompt), Call(key, models[mi], 2, prompt)];
      assert models[..mi + 1][..mi] == models[..mi];
      assert PairCalls(key, models[..mi + 1], prompt) == done + pair;
      var tries;
      answer, tries := TryPair(key, models[mi], prompt, generate);
      FirstSuccessAfter(done, pair, generate, tries, answer);
      if answer.Some? {
        PairCallsPrefix(key, models, prompt, mi + 1);
        FirstSuccessPrefix(done + pair, PairCalls(key, models, prompt), generate, made + tries, answer);
        return answer, made + tries;
      }
      made := made + MAX_RETRIES_PER_PAIR;
    }
    assert models[..|models|] == models;
    return None, made;
  }

  /** The key loop: each key in turn, every model under it. */
  method Rotate(keys: seq<string>, models: seq<string>, prompt: string, generate: Call -> Option<string>)
    returns (answer: Option<string>, made: nat)
    ensures FirstSuccess(Schedule(keys, models, prompt), generate, made, answer)
  {
    made := 0;
    for ki := 0 to |keys|
      invariant made == |Schedule(keys[..ki], models, prompt)|
      invariant AllFail(Schedule(keys[..ki], models, prompt), generate)
    {
      var done := Schedule(keys[..ki], models, prompt);
      var calls := PairCalls(keys[ki], models, prompt);
      assert keys[..ki + 1][..ki] == keys[..ki];
      assert Schedule(keys[..ki + 1], models, prompt) == done + calls;
      var tries;
      answer, tries := TryKey(keys[ki], models, prompt, generate);
      FirstSuccessAfter(done, calls, generate, tries, answer);
      if answer.Some? {
        SchedulePrefix(keys, models, prompt, ki + 1);
        FirstSuccessPrefix(done + calls, Schedule(keys, models, prompt), generate, made + tries, answer);
        return answer, made + tries;
      }
      made := made + tries;
    }
    assert keys[..|keys|] == keys;
    return None, made;
  }

  /**
   * `extractTopics(raw)`: the calls of the schedule are made in order until
   * one succeeds, whose cleaned answer is the result; when none does, the
   * rotation is exhausted. `made` counts the calls made.
   */
  method ExtractTopics(raw: string, env: seq<string>, models: seq<string>, generate: Call -> Option<string>)
    returns (r: Result<seq<string>, string>, made: nat)
    ensures var sched := Schedule(ApiKeys(env), models, Prompt(Truncate(raw)));
      && made <= |sched|
      && (forall i :: 0 <= i < made - 1 ==> !Succeeds(sched[i], generate))
      && (r.Ok? ==> made >= 1 && Succeeds(sched[made - 1], generate)
                    && r.value == Clean(JsTrim(generate(sched[made - 1]).value)))
      && (r.Err? ==> made == |sched| && r.error == EXHAUSTED && AllFail(sched, generate))
  {
    var answer;
    answer, made := Rotate(ApiKeys(env), models, Prompt(Truncate(raw)), generate);
    if answer.Some? {
      return Ok(Clean(answer.value)), made;
    }
    return Err(EXHAUSTED), made;
  }
}
