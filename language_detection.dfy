/**
 * Language detection of article text: texts too short to judge and texts
 * the detector cannot place are "und" (Unknown); otherwise the detector's
 * ISO 639-3 code is reported with its English name, when the table knows
 * one, and whether it is English. The detector itself is an oracle.
 */
module LanguageDetection {
  import opened Wrappers
  import opened Strings

  /** Below this many characters of trimmed text the detector is not consulted. */
  const MIN_TEXT_LENGTH := 10
  const UNDETERMINED := "und"
  const ENGLISH := "eng"

  /** The ISO 639-3 codes the service can name. */
  const LANGUAGE_NAMES: map<string, string> := map[
    "eng" := "English", "spa" := "Spanish", "fra" := "French", "deu" := "German",
    "ita" := "Italian", "por" := "Portuguese", "nld" := "Dutch", "rus" := "Russian",
    "zho" := "Chinese", "jpn" := "Japanese", "kor" := "Korean", "ara" := "Arabic",
    "hin" := "Hindi", "tur" := "Turkish", "pol" := "Polish", "ukr" := "Ukrainian",
    "vie" := "Vietnamese", "tha" := "Thai", "ind" := "Indonesian", "msa" := "Malay",
    "swe" := "Swedish", "nor" := "Norwegian", "dan" := "Danish", "fin" := "Finnish",
    "ces" := "Czech", "ell" := "Greek", "heb" := "Hebrew", "ron" := "Romanian",
    "hun" := "Hungarian", "bul" := "Bulgarian", "hrv" := "Croatian", "slk" := "Slovak",
    "slv" := "Slovenian", "srp" := "Serbian", "lit" := "Lithuanian", "lav" := "Latvian",
    "est" := "Estonian", "cat" := "Catalan", "eus" := "Basque", "glg" := "Galician",
    "afr" := "Afrikaans", "fil" := "Filipino", "und" := "Unknown"]

  /** What `detectLanguage` reports. */
  datatype Detection = Detection(code: string, name: string, isEnglish: bool)

  /** The report for text whose language cannot be told. */
  const UNKNOWN := Detection(UNDETERMINED, "Unknown", false)

  /** The table's name for `code`, or the code itself when the table has none. */
  function GetLanguageName(code: string): (r: string)
    ensures code !in LANGUAGE_NAMES ==> r == code
    ensures code in LANGUAGE_NAMES ==> r == LANGUAGE_NAMES[code]
  {
    if code in LANGUAGE_NAMES then LANGUAGE_NAMES[code] else code
  }

  /** English is exactly the code "eng". */
  predicate IsEnglishCode(code: string)
    ensures IsEnglishCode(code) ==> GetLanguageName(code) == "English"
  {
    code == ENGLISH
  }

  /** Whether the text is missing or shorter than 10 characters once trimmed. */
  predicate TooShort(text: Option<string>) {
    text.None? || |JsTrim(text.value)| < MIN_TEXT_LENGTH
  }

  /**
   * `detectLanguage(text)`: missing or short text (fewer than 10 characters
   * once trimmed) is Unknown without asking the detector; a detector verdict
   * of "und" is Unknown; any other code is reported with its name.
   */
  function DetectLanguage(text: Option<string>, franc: string -> string): (r: Detection)
    ensures TooShort(text) ==> r == UNKNOWN
    ensures !TooShort(text) ==> r.code == franc(text.value)
  {
    if TooShort(text) then UNKNOWN
    else
      var detected := franc(text.value);
      if detected == UNDETERMINED then UNKNOWN
      else Detection(detected, GetLanguageName(detected), IsEnglishCode(detected))
  }

  /**
   * Every report is self-consistent: its name is the table's name for its
   * code and it is English exactly when its code is "eng".
   */
  lemma DetectionConsistent(text: Option<string>, franc: string -> string)
    ensures var r := DetectLanguage(text, franc);
      r.name == GetLanguageName(r.code) && (r.isEnglish <==> IsEnglishCode(r.code))
  {
  }

  /** Short or missing text is judged without the detector: any two detectors agree on it. */
  lemma ShortTextIgnoresDetector(text: Option<string>, f: string -> string, g: string -> string)
    requires TooShort(text)
    ensures DetectLanguage(text, f) == DetectLanguage(text, g) == UNKNOWN
  {
  }

  /** A report is English exactly when the text is long enough and the detector says "eng". */
  lemma EnglishIff(text: Option<string>, franc: string -> string)
    ensures DetectLanguage(text, franc).isEnglish <==> !TooShort(text) && franc(text.value) == ENGLISH
  {
  }

  /** A report is Unknown exactly when the text is short or the detector says "und". */
  lemma UnknownIff(text: Option<string>, franc: string -> string)
    ensures DetectLanguage(text, franc).code == UNDETERMINED <==>
      TooShort(text) || franc(text.value) == UNDETERMINED
  {
  }

  /** A code the table does not know is reported as its own name, and not as English. */
  lemma ForeignCodeNamedByItself(text: Option<string>, franc: string -> string)
    requires !TooShort(text) && franc(text.value) !in LANGUAGE_NAMES
    ensures DetectLanguage(text, franc) == Detection(franc(text.value), franc(text.value), false)
  {
    assert UNDETERMINED in LANGUAGE_NAMES && ENGLISH in LANGUAGE_NAMES;
  }
}
