/**
 * The article clean-up script: the per-document deletion heuristics of its
 * second phase and the list of ids it collects, and the odd-title rewrite of
 * its third phase with the list of title updates it collects.
 */
module CleanData {
  import opened Wrappers
  import opened Strings

  /** The fields the script reads from a stored article; a missing field is "". */
  datatype Doc = Doc(id: string, title: string, content: string, summary: string)

  /** The error and boilerplate regular expressions, as opaque tests. */
  datatype Patterns = Patterns(errorTitle: string -> bool, errorContent: string -> bool, boilerplate: string -> bool)

  const SHORT_CONTENT_LEN := 200
  const BINARY_WINDOW := 100

  // ------------------------------------------------------------ heuristics

  /** A control character, U+0000 to U+001F. */
  predicate IsControl(c: char) { c <= '\U{1F}' }

  function CountControls(s: string): nat {
    if s == [] then 0 else (if IsControl(s[0]) then 1 else 0) + CountControls(s[1..])
  }

  /** `looksBinary(txt)`: some control character among the first 100. */
  predicate LooksBinary(txt: string)
    ensures LooksBinary(txt) <==> exists i :: 0 <= i < |txt| && i < BINARY_WINDOW && IsControl(txt[i])
  {
    var head := Take(txt, BINARY_WINDOW);
    CountControlsExists(head);
    assert forall i :: 0 <= i < |txt| && i < BINARY_WINDOW ==> head[i] == txt[i];
    CountControls(head) > 0
  }

  lemma {:induction false} CountControlsExists(s: string)
    ensures CountControls(s) > 0 <==> exists i :: 0 <= i < |s| && IsControl(s[i])
  {
    if s != [] {
      CountControlsExists(s[1..]);
      if exists i :: 0 <= i < |s| && IsControl(s[i]) {
        var i :| 0 <= i < |s| && IsControl(s[i]);
        if i > 0 {
          assert IsControl(s[1..][i - 1]);
        }
      }
      if CountControls(s[1..]) > 0 {
        var i :| 0 <= i < |s[1..]| && IsControl(s[1..][i]);
        assert IsControl(s[i + 1]);
      }
    }
  }

  /** A character `\w` matches. */
  predicate IsWordChar(c: char) { IsAsciiAlnum(c) || c == '_' }

  /**
   * `/<iframe\b[^>]*>/i` matches at `i`: the tag name in any ASCII case, a
   * word boundary after it, and a `>` somewhere after that.
   */
  predicate IframeAt(s: string, i: nat) {
    && i + 7 < |s|
    && Lower(s[i..i + 7]) == "<iframe"
    && !IsWordChar(s[i + 7])
    && '>' in s[i + 7..]
  }

  predicate HasIframe(content: string) {
    exists i :: 0 <= i < |content| && IframeAt(content, i)
  }

  /** The trimmed fields the heuristics read. */
  function Trimmed(d: Doc): Doc {
    Doc(d.id, JsTrim(d.title), JsTrim(d.content), JsTrim(d.summary))
  }

  /** A title reading "untitled" in any letter case has no whitespace to trim. */
  lemma UntitledTrimmed(title: string)
    ensures Lower(title) == "untitled" ==> JsTrim(title) == title
  {
    if Lower(title) == "untitled" {
      forall i | 0 <= i < |title| ensures !IsJsSpace(title[i]) {
        assert Lower(title)[i] == LowerChar(title[i]);
      }
      TrimNoSpace(title, IsJsSpace);
    }
  }

  /** The heuristic flags of phase 2, on trimmed fields. */
  predicate Flagged(d: Doc, p: Patterns)
    ensures Lower(d.title) == "untitled" ==> Flagged(d, p)
    ensures AllSpace(d.title, IsJsSpace) && |JsTrim(d.content)| < SHORT_CONTENT_LEN ==> Flagged(d, p)
  {
    var t := Trimmed(d);
    TrimEmptyIffAllSpace(d.title, IsJsSpace);
    UntitledTrimmed(d.title);
    || Lower(t.title) == "untitled"
    || (t.title == "" && |t.content| < SHORT_CONTENT_LEN)
    || LooksBinary(t.content)
    || p.errorTitle(t.title) || p.errorContent(t.content)
    || p.boilerplate(t.content) || p.boilerplate(t.summary)
  }

  // -------------------------------------------------------------- phase 2

  /** What a cursor loop pushes, document by document, in order. */
  function Gather<T>(docs: seq<Doc>, push: Doc -> seq<T>): seq<T> {
    if docs == [] then [] else Gather(docs[..|docs| - 1], push) + push(docs[|docs| - 1])
  }

  /** A cursor loop's step: the next document's pushes follow the earlier ones. */
  lemma GatherNext<T>(docs: seq<Doc>, push: Doc -> seq<T>, k: nat)
    requires k < |docs|
    ensures Gather(docs[..k + 1], push) == Gather(docs[..k], push) + push(docs[k])
  {
    assert docs[..k + 1][..k] == docs[..k];
  }

  lemma {:induction false} GatherMember<T>(docs: seq<Doc>, push: Doc -> seq<T>, x: T)
    ensures x in Gather(docs, push) <==> exists k :: 0 <= k < |docs| && x in push(docs[k])
  {
    if docs != [] {
      var init := docs[..|docs| - 1];
      GatherMember(init, push, x);
      assert forall k :: 0 <= k < |init| ==> init[k] == docs[k];
    }
  }

  /**
   * What one document adds to the deletion list as written: its id for an
   * embedded frame, and the undefined `_1` field (`None`) for a heuristic hit.
   */
  function EntryAsWritten(d: Doc, p: Patterns): seq<Option<string>> {
    if HasIframe(Trimmed(d).content) then [Some(d.id)]
    else if Flagged(d, p) then [None]
    else []
  }

  /** The ids a deletion list names; an undefined entry names no document. */
  function Named(entries: seq<Option<string>>): (r: set<string>)
    ensures forall id :: id in r <==> Some(id) in entries
  {
    set e | e in entries && e.Some? :: e.value
  }

  /** The phase-2 loop over the remaining documents, as written. */
  method CollectDeletions(docs: seq<Doc>, p: Patterns) returns (toDelete: seq<Option<string>>)
    ensures toDelete == Gather(docs, d => EntryAsWritten(d, p))
  {
    toDelete := [];
    for k := 0 to |docs|
      invariant toDelete == Gather(docs[..k], d => EntryAsWritten(d, p))
    {
      GatherNext(docs, d => EntryAsWritten(d, p), k);
      var d := Trimmed(docs[k]);
      if HasIframe(d.content) {
        toDelete := toDelete + [Some(docs[k].id)];
        continue;
      }
      var isUntitled := Lower(d.title) == "untitled";
      var tooShort := d.title == "" && |d.content| < SHORT_CONTENT_LEN;
      var isBinary := LooksBinary(d.content);
      var isErrorish := p.errorTitle(d.title) || p.errorContent(d.content);
      var isBoiler := p.boilerplate(d.content) || p.boilerplate(d.summary);
      if isUntitled || tooShort || isBinary || isErrorish || isBoiler {
        toDelete := toDelete + [None];
      }
    }
    assert docs[..|docs|] == docs;
  }

  /** As written, the list names exactly the documents with an embedded frame. */
  lemma AsWrittenNamesOnlyFrames(docs: seq<Doc>, p: Patterns, id: string)
    ensures id in Named(Gather(docs, d => EntryAsWritten(d, p))) <==>
      exists k :: 0 <= k < |docs| && docs[k].id == id && HasIframe(Trimmed(docs[k]).content)
  {
    GatherMember(docs, d => EntryAsWritten(d, p), Some(id));
    forall k | 0 <= k < |docs|
      ensures Some(id) in EntryAsWritten(docs[k], p) <==> docs[k].id == id && HasIframe(Trimmed(docs[k]).content)
    {
      EntryAsWrittenNames(docs[k], p, id);
    }
  }

  lemma EntryAsWrittenNames(d: Doc, p: Patterns, id: string)
    ensures Some(id) in EntryAsWritten(d, p) <==> d.id == id && HasIframe(Trimmed(d).content)
  {
    if HasIframe(Trimmed(d).content) {
      assert EntryAsWritten(d, p) == [Some(d.id)];
    } else {
      assert EntryAsWritten(d, p) == [None] || EntryAsWritten(d, p) == [];
    }
  }

  /** An untitled, frameless document is flagged, yet the list as written does not name it. */
  lemma UntitledNotNamed(p: Patterns)
    ensures Flagged(Doc("a1", "Untitled", "x", ""), p)
    ensures "a1" !in Named(Gather([Doc("a1", "Untitled", "x", "")], d => EntryAsWritten(d, p)))
  {
    var d := Doc("a1", "Untitled", "x", "");
    assert forall i :: 0 <= i < |d.title| ==> 'A' <= d.title[i] <= 'z';
    TrimNoSpace(d.title, IsJsSpace);
    assert !IsJsSpace(d.content[0]);
    TrimNoSpace(d.content, IsJsSpace);
    assert Lower(d.title) == "untitled";
    AsWrittenNamesOnlyFrames([d], p, "a1");
  }

  /** What one document adds to the deletion list with the id pushed for every hit. */
  function Entry(d: Doc, p: Patterns): seq<Option<string>> {
    if HasIframe(Trimmed(d).content) || Flagged(d, p) then [Some(d.id)] else []
  }

  /** With the id pushed, the list names exactly the documents with a frame or a heuristic hit. */
  lemma EntriesNameFlagged(docs: seq<Doc>, p: Patterns, id: string)
    ensures id in Named(Gather(docs, d => Entry(d, p))) <==>
      exists k :: 0 <= k < |docs| && docs[k].id == id && (HasIframe(Trimmed(docs[k]).content) || Flagged(docs[k], p))
  {
    GatherMember(docs, d => Entry(d, p), Some(id));
    forall k | 0 <= k < |docs|
      ensures Some(id) in Entry(docs[k], p) <==> docs[k].id == id && (HasIframe(Trimmed(docs[k]).content) || Flagged(docs[k], p))
    {
    }
  }

  // -------------------------------------------------------------- phase 3

  predicate NotAlnum(c: char) { !IsAsciiAlnum(c) }

  /** A title `^[^A-Za-z0-9]+` matches: it starts with a character that is not an ASCII letter or digit. */
  predicate IsOddTitle(title: string) {
    title != [] && NotAlnum(title[0])
  }

  /** The title with its leading run of non-alphanumeric characters removed, then trimmed. */
  function CleanTitle(raw: string): (r: string)
    ensures r == [] || (IsAsciiAlnum(r[0]) && !IsJsSpace(r[|r| - 1]))
  {
    var stripped := raw[LeadingCount(raw, NotAlnum)..];
    assert stripped == [] || IsAsciiAlnum(stripped[0]);
    TrimStartKeeps(stripped, IsJsSpace);
    JsTrim(stripped)
  }

  lemma TrimStartKeeps(s: string, sp: char -> bool)
    requires s == [] || !sp(s[0])
    ensures Trim(s, sp) == [] || Trim(s, sp)[0] == s[0]
  {
    TrimIsSlice(s, sp);
  }

  /** The cleaned title is a piece of the raw title. */
  lemma CleanTitleInfix(raw: string)
    ensures exists i, j :: 0 <= i <= j <= |raw| && CleanTitle(raw) == raw[i..j]
  {
    var k := LeadingCount(raw, NotAlnum);
    var stripped := raw[k..];
    TrimIsSlice(stripped, IsJsSpace);
    var m := LeadingCount(stripped, IsJsSpace);
    assert CleanTitle(raw) == raw[k + m..k + m + |CleanTitle(raw)|];
  }

  /** Cleaning an already cleaned title changes nothing. */
  lemma CleanTitleIdempotent(raw: string)
    ensures CleanTitle(CleanTitle(raw)) == CleanTitle(raw)
  {
    var c := CleanTitle(raw);
    if c != [] {
      assert LeadingCount(c, NotAlnum) == 0;
      assert c[0..] == c;
      TrimKeepsEnd(c, IsJsSpace);
      assert LeadingCount(c, IsJsSpace) == 0;
    }
  }

  /** A title the phase-3 query selects always changes, so only an empty result is skipped. */
  lemma OddTitleChanges(raw: string)
    requires IsOddTitle(raw)
    ensures CleanTitle(raw) != raw
  {
  }

  datatype TitleUpdate = TitleUpdate(id: string, title: string)

  /** The update one document contributes: its cleaned title when non-empty and different. */
  function UpdateFor(d: Doc): seq<TitleUpdate> {
    var cleaned := CleanTitle(d.title);
    if IsOddTitle(d.title) && cleaned != "" && cleaned != d.title then [TitleUpdate(d.id, cleaned)] else []
  }

  /** The phase-3 loop over the documents whose title the query selects. */
  method CollectTitleUpdates(docs: seq<Doc>) returns (bulkOps: seq<TitleUpdate>)
    ensures bulkOps == Gather(docs, UpdateFor)
  {
    bulkOps := [];
    for k := 0 to |docs|
      invariant bulkOps == Gather(docs[..k], UpdateFor)
    {
      GatherNext(docs, UpdateFor, k);
      if IsOddTitle(docs[k].title) {
        var rawTitle := docs[k].title;
        var cleaned := CleanTitle(rawTitle);
        if cleaned != "" && cleaned != rawTitle {
          bulkOps := bulkOps + [TitleUpdate(docs[k].id, cleaned)];
        }
      }
    }
    assert docs[..|docs|] == docs;
  }

  /**
   * Every update renames a selected document to a non-empty title starting
   * with a letter or digit; and every selected document whose cleaned title
   * is non-empty gets one.
   */
  lemma UpdatesExact(docs: seq<Doc>, u: TitleUpdate)
    ensures u in Gather(docs, UpdateFor) <==>
      exists k :: 0 <= k < |docs| && IsOddTitle(docs[k].title) && CleanTitle(docs[k].title) != ""
        && u == TitleUpdate(docs[k].id, CleanTitle(docs[k].title))
  {
    GatherMember(docs, UpdateFor, u);
    forall d: Doc | IsOddTitle(d.title) ensures CleanTitle(d.title) != d.title {
      OddTitleChanges(d.title);
    }
  }
}
