/**
 * Article text and title extraction (`extract_text_and_title`): readability
 * picks the main content and a short title when it is installed and does not
 * fail, BeautifulSoup drops boilerplate tags and yields the text, and the text
 * is reduced to its non-blank lines, each stripped.
 *
 * readability and BeautifulSoup are foreign and appear as the fields of
 * `HtmlLib`; the line normalisation is modelled exactly.
 */
module Extractor {
  import opened Wrappers
  import opened Strings

  /** What readability does with a page. */
  datatype Readability =
    | Unavailable                             // the import failed: Document is None
    | FailsEarly                              // Document(html) or short_title() raises
    | FailsAtSummary(shortTitle: string)      // short_title() succeeds, summary() raises
    | Readable(shortTitle: string, summary: string)

  datatype HtmlLib = HtmlLib(
    readability: string -> Readability,  // Document(html)
    clean: string -> string,             // _clean_html: parse, decompose boilerplate tags, serialise
    titleString: string -> Option<string>, // soup.title.string, None when absent
    getText: string -> string)           // soup.get_text(separator="\n")

  const UNTITLED := "Untitled"

  /** The HTML handed to BeautifulSoup: readability's summary, or the raw page when readability is missing or fails. */
  function CleanedHtml(html: string, lib: HtmlLib): (r: string)
    ensures !lib.readability(html).Readable? ==> r == html
    ensures lib.readability(html).Readable? ==> r == lib.readability(html).summary
  {
    match lib.readability(html)
    case Readable(_, summary) => summary
    case _ => html
  }

  /** The title after the readability step: a non-empty short title, else "Untitled". */
  function ReadabilityTitle(html: string, lib: HtmlLib): (r: string)
    ensures r != ""
  {
    match lib.readability(html)
    case Readable(t, _) => if t != "" then t else UNTITLED
    case FailsAtSummary(t) => if t != "" then t else UNTITLED
    case _ => UNTITLED
  }

  /** The final title: a `<title>` that is not blank wins over readability's title. */
  function Title(html: string, lib: HtmlLib): (r: string)
    ensures r != ""
    ensures match lib.titleString(lib.clean(CleanedHtml(html, lib)))
      case Some(t) => PyStrip(t) != "" ==> r == PyStrip(t)
      case None => r == ReadabilityTitle(html, lib)
  {
    match lib.titleString(lib.clean(CleanedHtml(html, lib)))
    case Some(t) => if PyStrip(t) != "" then PyStrip(t) else ReadabilityTitle(html, lib)
    case None => ReadabilityTitle(html, lib)
  }

  /**
   * The title comes from one of three sources: the stripped `<title>`, a
   * non-empty readability short title, or the "Untitled" default, which is
   * the result whenever neither of the others supplies a title.
   */
  lemma TitleSources(html: string, lib: HtmlLib)
    ensures var r := Title(html, lib);
      var tag := lib.titleString(lib.clean(CleanedHtml(html, lib)));
      var rd := lib.readability(html);
      || r == UNTITLED
      || (tag.Some? && r == PyStrip(tag.value))
      || ((rd.Readable? || rd.FailsAtSummary?) && r == rd.shortTitle)
    ensures var tag := lib.titleString(lib.clean(CleanedHtml(html, lib)));
      var rd := lib.readability(html);
      (tag.None? || PyStrip(tag.value) == "")
      && !((rd.Readable? || rd.FailsAtSummary?) && rd.shortTitle != "")
      ==> Title(html, lib) == UNTITLED
  {
  }

  /** Every line stripped, the lines that are then empty dropped. */
  function NonBlankLines(lines: seq<string>): (r: seq<string>)
    ensures |r| <= |lines|
    ensures forall k :: 0 <= k < |r| ==> r[k] != "" && !IsPySpace(r[k][0]) && !IsPySpace(r[k][|r[k]| - 1])
  {
    if lines == [] then []
    else (if PyStrip(lines[0]) != "" then [PyStrip(lines[0])] else []) + NonBlankLines(lines[1..])
  }

  /** Filtering is applied line by line, so the kept lines stay in their original order. */
  lemma {:induction false} NonBlankLinesAppend(a: seq<string>, b: seq<string>)
    ensures NonBlankLines(a + b) == NonBlankLines(a) + NonBlankLines(b)
    decreases |a|
  {
    if a != [] {
      var head := if PyStrip(a[0]) != "" then [PyStrip(a[0])] else [];
      assert (a + b)[0] == a[0] && (a + b)[1..] == a[1..] + b;
      calc {
        NonBlankLines(a + b);
        head + NonBlankLines(a[1..] + b);
        { NonBlankLinesAppend(a[1..], b); }
        head + (NonBlankLines(a[1..]) + NonBlankLines(b));
        (head + NonBlankLines(a[1..])) + NonBlankLines(b);
        NonBlankLines(a) + NonBlankLines(b);
      }
    } else {
      assert a + b == b;
    }
  }

  /** The kept lines are exactly the non-blank stripped input lines. */
  lemma {:induction false} NonBlankLinesMembers(lines: seq<string>, x: string)
    ensures x in NonBlankLines(lines) <==> x != "" && exists i :: 0 <= i < |lines| && PyStrip(lines[i]) == x
    decreases |lines|
  {
    if lines != [] {
      NonBlankLinesMembers(lines[1..], x);
      assert forall i :: 1 <= i < |lines| ==> lines[i] == lines[1..][i - 1];
      if x != "" && PyStrip(lines[0]) != x {
        if exists i :: 0 <= i < |lines| && PyStrip(lines[i]) == x {
          var i :| 0 <= i < |lines| && PyStrip(lines[i]) == x;
          assert i > 0 && PyStrip(lines[1..][i - 1]) == x;
        }
      }
    }
  }

  /** `NonBlankLinesMembers` for every string at once. */
  lemma NonBlankLinesMembersAll(lines: seq<string>)
    ensures forall x :: x in NonBlankLines(lines) <==> x != "" && exists i :: 0 <= i < |lines| && PyStrip(lines[i]) == x
  {
    forall x ensures x in NonBlankLines(lines) <==> x != "" && exists i :: 0 <= i < |lines| && PyStrip(lines[i]) == x {
      NonBlankLinesMembers(lines, x);
    }
  }

  /** Stripping a line of the split text leaves no line break in it. */
  lemma {:induction false} NonBlankLinesNoBreak(lines: seq<string>)
    requires forall k, i :: 0 <= k < |lines| && 0 <= i < |lines[k]| ==> !IsPyLineBreak(lines[k][i])
    ensures forall k :: 0 <= k < |NonBlankLines(lines)| ==> '\n' !in NonBlankLines(lines)[k]
    decreases |lines|
  {
    if lines != [] {
      NonBlankLinesNoBreak(lines[1..]);
      StripNoBreak(lines[0]);
      var head := if PyStrip(lines[0]) != "" then [PyStrip(lines[0])] else [];
      assert NonBlankLines(lines) == head + NonBlankLines(lines[1..]);
    }
  }

  lemma StripNoBreak(line: string)
    requires forall i :: 0 <= i < |line| ==> !IsPyLineBreak(line[i])
    ensures '\n' !in PyStrip(line)
  {
    TrimKeepsChars(line, IsPySpace);
  }

  /** The line normalisation of the page text. */
  function NormalizeLines(text: string): string {
    Join(NonBlankLines(PySplitLines(text)), "\n")
  }

  /**
   * Splitting the normalised text at "\n" gives back the non-blank stripped
   * lines: the output has no blank line and no line with surrounding
   * whitespace, and is "" only when the text has no non-blank line.
   */
  lemma NormalizeLinesShape(text: string)
    ensures var kept := NonBlankLines(PySplitLines(text));
      && (NormalizeLines(text) == "" <==> kept == [])
      && (kept != [] ==> Split(NormalizeLines(text), '\n') == kept)
  {
    var kept := NonBlankLines(PySplitLines(text));
    NonBlankLinesNoBreak(PySplitLines(text));
    if kept != [] {
      SplitJoin(kept, '\n');
      assert |kept[0]| > 0;
      JoinNonEmpty(kept, "\n");
    }
  }

  lemma {:induction false} JoinNonEmpty(parts: seq<string>, sep: string)
    requires |parts| >= 1 && parts[0] != ""
    ensures Join(parts, sep) != ""
  {
    if |parts| > 1 {
      assert Join(parts, sep) == parts[0] + sep + Join(parts[1..], sep);
    }
  }

  /**
   * `extract_text_and_title`: the normalised text and the title. The text
   * is "" exactly when the cleaned page's text has no non-blank line, and
   * otherwise its lines are that text's non-blank lines, stripped, in order.
   */
  function ExtractTextAndTitle(html: string, lib: HtmlLib): (r: (string, string))
    ensures r.1 != ""
    ensures r.0 == NormalizeLines(lib.getText(lib.clean(CleanedHtml(html, lib))))
    ensures var lines := PySplitLines(lib.getText(lib.clean(CleanedHtml(html, lib))));
      && (r.0 == "" <==> NonBlankLines(lines) == [])
      && (r.0 != "" ==> Split(r.0, '\n') == NonBlankLines(lines))
      && (forall x :: x in NonBlankLines(lines) <==> x != "" && exists i :: 0 <= i < |lines| && PyStrip(lines[i]) == x)
  {
    var cleaned := lib.clean(CleanedHtml(html, lib));
    NormalizeLinesShape(lib.getText(cleaned));
    NonBlankLinesMembersAll(PySplitLines(lib.getText(cleaned)));
    (NormalizeLines(lib.getText(cleaned)), Title(html, lib))
  }
}
