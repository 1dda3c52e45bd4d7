/**
 * The text utilities behind near-duplicate detection: the normalisation of
 * article text, the lead of an article, character n-grams and the 32-bit
 * string hash that MinHash builds on. Characters stand for UTF-16 code
 * units, as JavaScript's `length`, `slice` and `charCodeAt` count them.
 */
module TextNormalization {
  import opened Strings

  // ---------------------------------------------------------- normalizeText

  /**
   * The quote normalisation as written: its character class holds only the
   * ASCII double quote and the apostrophe, so apostrophes become double
   * quotes; the following replacement of apostrophes then finds none.
   */
  function Quotes(s: string): (r: string)
    ensures |r| == |s|
    ensures forall i :: 0 <= i < |s| ==> r[i] == if s[i] == '\'' then '"' else s[i]
  {
    seq(|s|, i requires 0 <= i < |s| => if s[i] == '\'' then '"' else s[i])
  }

  predicate NoApostrophe(s: string) {
    forall i :: 0 <= i < |s| ==> s[i] != '\''
  }

  /** Text in normal form: lower case, no apostrophe, single spaces inside and none at the ends. */
  predicate Normalized(s: string) {
    && IsLower(s)
    && NoApostrophe(s)
    && (s == [] || (!IsJsSpace(s[0]) && !IsJsSpace(s[|s| - 1])))
    && (forall i :: 0 <= i < |s| && IsJsSpace(s[i]) ==> s[i] == ' ')
    && (forall i :: 0 <= i < |s| - 1 && IsJsSpace(s[i]) ==> !IsJsSpace(s[i + 1]))
  }

  /**
   * `normalizeText`: lower-cased, quotes normalised, whitespace runs
   * collapsed to one space and trimmed. The URL and boilerplate removals
   * between the quote and whitespace steps are not part of this model.
   */
  function NormalizeText(text: string): (r: string)
    ensures text == "" ==> r == ""
    ensures Normalized(r)
  {
    if text == "" then ""
    else
      var q := Quotes(Lower(text));
      assert IsLower(q) && NoApostrophe(q);
      JsCollapse(q)
  }

  /** Normalising keeps every character but whitespace, in order, lower-cased and with quotes normalised. */
  lemma NormalizeTextVisible(text: string)
    ensures Visible(NormalizeText(text), IsJsSpace) == Visible(Quotes(Lower(text)), IsJsSpace)
  {
    if text != "" {
      JsCollapseVisible(Quotes(Lower(text)));
    }
  }

  /** Normalising normalised text changes nothing. */
  lemma NormalizeTextIdempotent(text: string)
    ensures NormalizeText(NormalizeText(text)) == NormalizeText(text)
  {
    var r := NormalizeText(text);
    if r != "" {
      LowerOfLower(r);
      assert Quotes(r) == r;
      JsCollapseFixed(r);
    }
  }

  // ------------------------------------------------------------ extractLead

  /** The content split at runs of `.`, `!` and `?`, each piece trimmed, the empty pieces dropped. */
  function LeadSentences(content: string): (r: seq<string>)
    ensures forall i :: 0 <= i < |r| ==> r[i] != ""
  {
    NonEmptyTrimmed(SplitRuns(content, IsSentenceEnd))
  }

  function NonEmptyTrimmed(pieces: seq<string>): (r: seq<string>)
    ensures forall i :: 0 <= i < |r| ==> r[i] != ""
  {
    if pieces == [] then []
    else
      var t := JsTrim(pieces[0]);
      (if t != "" then [t] else []) + NonEmptyTrimmed(pieces[1..])
  }

  /** `lead ? '. ' : ''`. */
  function Separator(lead: string): string {
    if lead != "" then ". " else ""
  }

  /**
   * The loop of `extractLead` from the current `lead` on: stop at the first
   * sentence with which `lead + sentence` would exceed `maxLength`, otherwise
   * append it after the separator.
   */
  function LeadFrom(sentences: seq<string>, maxLength: int, lead: string): string
    decreases |sentences|
  {
    if sentences == [] || |lead| + |sentences[0]| > maxLength then lead
    else LeadFrom(sentences[1..], maxLength, lead + Separator(lead) + sentences[0])
  }

  /** `extractLead(content, maxLength)`; the loop of `ExtractLead` computes it. */
  function ExtractLeadSpec(content: string, maxLength: int): string {
    if content == "" then ""
    else
      var lead := LeadFrom(LeadSentences(content), maxLength, "");
      if lead != "" then lead else SliceTo(content, maxLength)
  }

  method ExtractLead(content: string, maxLength: int) returns (lead: string)
    ensures lead == ExtractLeadSpec(content, maxLength)
  {
    if content == "" {
      return "";
    }
    var sentences := LeadSentences(content);
    lead := "";
    var i := 0;
    while i < |sentences| && |lead| + |sentences[i]| <= maxLength
      invariant 0 <= i <= |sentences|
      invariant LeadFrom(sentences[i..], maxLength, lead) == LeadFrom(sentences, maxLength, "")
    {
      assert sentences[i..][1..] == sentences[i + 1..];
      lead := lead + Separator(lead) + sentences[i];
      i := i + 1;
    }
    if lead == "" {
      lead := SliceTo(content, maxLength);
    }
  }

  /**
   * The lead is whole leading sentences joined by ". ": started from the
   * first `|done|` sentences, the loop ends with the first `k` of them for
   * some `k`.
   */
  lemma {:induction false} LeadIsLeadingSentences(sentences: seq<string>, maxLength: int, done: nat)
    requires done <= |sentences|
    requires forall i :: 0 <= i < |sentences| ==> sentences[i] != ""
    ensures exists k :: done <= k <= |sentences| && LeadFrom(sentences[done..], maxLength, Join(sentences[..done], ". ")) == Join(sentences[..k], ". ")
    decreases |sentences| - done
  {
    var lead := Join(sentences[..done], ". ");
    var rest := sentences[done..];
    if rest == [] || |lead| + |rest[0]| > maxLength {
      assert LeadFrom(rest, maxLength, lead) == Join(sentences[..done], ". ");
    } else {
      var s := sentences[done];
      assert rest[0] == s && rest[1..] == sentences[done + 1..];
      assert sentences[..done + 1] == sentences[..done] + [s];
      if done == 0 {
        assert lead == "" && Separator(lead) == "";
        assert Join(sentences[..1], ". ") == s;
      } else {
        JoinHead(sentences[..done], ". ");
        assert sentences[..done][0] == sentences[0];
        assert lead != "";
        JoinSnoc(sentences[..done], s, ". ");
      }
      assert lead + Separator(lead) + s == Join(sentences[..done + 1], ". ");
      LeadIsLeadingSentences(sentences, maxLength, done + 1);
    }
  }

  /** Each appended sentence passed a check that ignores the separator, so the loop may overshoot by two. */
  lemma {:induction false} LeadFromBound(sentences: seq<string>, maxLength: int, lead: string)
    requires |lead| <= maxLength + 2
    ensures |LeadFrom(sentences, maxLength, lead)| <= maxLength + 2
    decreases |sentences|
  {
    if sentences != [] && |lead| + |sentences[0]| <= maxLength {
      LeadFromBound(sentences[1..], maxLength, lead + Separator(lead) + sentences[0]);
    }
  }

  /** `extractLead("")` is "", and a lead has at most `maxLength + 2` characters. */
  lemma ExtractLeadBound(content: string, maxLength: int)
    requires maxLength >= 0
    ensures content == "" ==> ExtractLeadSpec(content, maxLength) == ""
    ensures |ExtractLeadSpec(content, maxLength)| <= maxLength + 2
  {
    LeadFromBound(LeadSentences(content), maxLength, "");
  }

  /** Two two-letter sentences with a limit of 4 give a lead of 6 characters. */
  lemma ExtractLeadOvershoots()
    ensures ExtractLeadSpec("aa. bb", 4) == "aa. bb"
    ensures |ExtractLeadSpec("aa. bb", 4)| == 4 + 2
  {
    var lead := LeadFrom(["aa", "bb"], 4, "");
    assert lead == "aa. bb" by {
      assert ["aa", "bb"][1..] == ["bb"];
      assert LeadFrom(["aa", "bb"], 4, "") == LeadFrom(["bb"], 4, "aa");
      assert "aa" + Separator("aa") + "bb" == "aa. bb";
    }
    OvershootSentences();
    assert ExtractLeadSpec("aa. bb", 4) == lead;
  }

  lemma OvershootSentences()
    ensures LeadSentences("aa. bb") == ["aa", "bb"]
  {
    var content := "aa. bb";
    assert FirstWhere(content, IsSentenceEnd) == 2;
    assert RunEnd(content, 2, IsSentenceEnd) == 3;
    assert content[3..] == " bb";
    assert FirstWhere(" bb", IsSentenceEnd) == 3;
    assert SplitRuns(" bb", IsSentenceEnd) == [" bb"];
    assert content[..2] == "aa";
    assert SplitRuns(content, IsSentenceEnd) == ["aa", " bb"];
    OvershootTrims();
    assert ["aa", " bb"][1..] == [" bb"];
  }

  lemma OvershootTrims()
    ensures JsTrim("aa") == "aa" && JsTrim(" bb") == "bb"
  {
    assert TrimStart("aa", IsJsSpace) == "aa";
    assert LeadingCount(" bb", IsJsSpace) == 1;
    assert TrimStart(" bb", IsJsSpace) == "bb";
  }

  /** The lead loop with the separator counted in the length check. */
  function LeadWithin(sentences: seq<string>, maxLength: int, lead: string): string
    decreases |sentences|
  {
    if sentences == [] || |lead| + |Separator(lead)| + |sentences[0]| > maxLength then lead
    else LeadWithin(sentences[1..], maxLength, lead + Separator(lead) + sentences[0])
  }

  /** `extractLead` with the separator counted, as its `maxLength` promises. */
  function ExtractLeadWithin(content: string, maxLength: int): string {
    if content == "" then ""
    else
      var lead := LeadWithin(LeadSentences(content), maxLength, "");
      if lead != "" then lead else SliceTo(content, maxLength)
  }

  lemma {:induction false} LeadWithinBound(sentences: seq<string>, maxLength: int, lead: string)
    requires |lead| <= maxLength
    ensures |LeadWithin(sentences, maxLength, lead)| <= maxLength
    decreases |sentences|
  {
    if sentences != [] && |lead| + |Separator(lead)| + |sentences[0]| <= maxLength {
      LeadWithinBound(sentences[1..], maxLength, lead + Separator(lead) + sentences[0]);
    }
  }

  /** With the separator counted, the lead never exceeds `maxLength`. */
  lemma ExtractLeadWithinFits(content: string, maxLength: int)
    requires maxLength >= 0
    ensures |ExtractLeadWithin(content, maxLength)| <= maxLength
  {
    LeadWithinBound(LeadSentences(content), maxLength, "");
  }

  // --------------------------------------------------------- generateNGrams

  /** Every window of `n` characters of `s`, left to right. */
  function WindowsOf(s: string, n: nat): (r: seq<string>)
    ensures |r| == Max0(|s| - n + 1)
    ensures forall i :: 0 <= i < |r| ==> r[i] == s[i..i + n]
  {
    seq(Max0(|s| - n + 1), i requires 0 <= i < Max0(|s| - n + 1) => s[i..i + n])
  }

  /**
   * The n-grams of `text`, as `generateNGrams` builds them: nothing for an
   * empty text or one shorter than `n` (the original length is compared, not
   * the normalised one); otherwise every window of the normalised text.
   */
  function NGrams(text: string, n: nat): seq<string> {
    if text == "" || |text| < n then [] else WindowsOf(NormalizeText(text), n)
  }

  /** `generateNGrams(text, n)`. */
  method GenerateNGrams(text: string, n: nat) returns (grams: seq<string>)
    ensures grams == NGrams(text, n)
    ensures text == "" || |text| < n ==> grams == []
    ensures text != "" && |text| >= n ==>
      var normalized := NormalizeText(text);
      && |grams| == Max0(|normalized| - n + 1)
      && forall i :: 0 <= i < |grams| ==> grams[i] == normalized[i..i + n]
  {
    if text == "" || |text| < n {
      return [];
    }
    grams := Windows(NormalizeText(text), n);
  }

  /** The loop of `generateNGrams`. */
  method Windows(s: string, n: nat) returns (grams: seq<string>)
    ensures grams == WindowsOf(s, n)
  {
    grams := [];
    var i := 0;
    while i <= |s| - n
      invariant 0 <= i <= Max0(|s| - n + 1)
      invariant |grams| == i
      invariant forall k :: 0 <= k < i ==> grams[k] == s[k..k + n]
    {
      grams := grams + [s[i..i + n]];
      i := i + 1;
    }
  }

  // ------------------------------------------------------------- simpleHash

  const TWO_32: int := 0x1_0000_0000
  const TWO_31: int := 0x8000_0000

  /** JavaScript's ToInt32: the signed 32-bit integer congruent to `x` modulo 2^32. */
  function ToInt32(x: int): (r: int)
    ensures -TWO_31 <= r < TWO_31
    ensures (x - r) % TWO_32 == 0
  {
    var m := x % TWO_32;
    if m >= TWO_31 then m - TWO_32 else m
  }

  /** `hash = ((hash << 5) - hash) + char; hash = hash & hash`. */
  function HashStep(hash: int, c: char): int {
    ToInt32(ToInt32(ToInt32(hash) * 32) - hash + c as int)
  }

  /** The loop of `simpleHash` over the remaining characters `s`, from `hash`. */
  function HashFold(s: string, hash: int): int
    decreases |s|
  {
    if s == [] then hash else HashFold(s[1..], HashStep(hash, s[0]))
  }

  /** The hash takes the characters in order: one more character is one more step. */
  lemma {:induction false} HashFoldSnoc(s: string, c: char, hash: int)
    ensures HashFold(s + [c], hash) == HashStep(HashFold(s, hash), c)
    decreases |s|
  {
    if s == [] {
      assert [c][1..] == [];
    } else {
      assert (s + [c])[1..] == s[1..] + [c];
      HashFoldSnoc(s[1..], c, HashStep(hash, s[0]));
    }
  }

  /** After at least one character the hash is a signed 32-bit integer. */
  lemma {:induction false} HashFoldInt32(s: string, hash: int)
    requires s != []
    ensures -TWO_31 <= HashFold(s, hash) < TWO_31
    decreases |s|
  {
    if |s| > 1 {
      HashFoldInt32(s[1..], HashStep(hash, s[0]));
    }
  }

  function Abs(x: int): nat { if x < 0 then -x else x }

  /** `simpleHash(str, seed)`; the loop of `SimpleHash` computes it. */
  function SimpleHashSpec(str: string, seed: int): nat {
    Abs(HashFold(str, seed))
  }

  /**
   * The 32-bit hash is non-negative and, for a non-empty string, at most
   * 2^31 (`Math.abs` of the least 32-bit integer is 2^31); an empty string
   * hashes to the magnitude of the seed.
   */
  lemma SimpleHashRange(str: string, seed: int)
    ensures str == "" ==> SimpleHashSpec(str, seed) == Abs(seed)
    ensures str != "" ==> SimpleHashSpec(str, seed) <= TWO_31
  {
    if str != "" {
      HashFoldInt32(str, seed);
    }
  }

  method SimpleHash(str: string, seed: int) returns (h: nat)
    ensures h == SimpleHashSpec(str, seed)
  {
    var hash := seed;
    for i := 0 to |str|
      invariant HashFold(str[i..], hash) == HashFold(str, seed)
    {
      assert str[i..][1..] == str[i + 1..];
      hash := ToInt32(ToInt32(ToInt32(hash) * 32) - hash + str[i] as int);
    }
    h := Abs(hash);
  }
}
