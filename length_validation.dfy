/**
 * The server-side length rules: `validateFieldFormElement` of the widget
 * trait (code points, line-break collapsing, optional markup stripping) and
 * `validateElement` of the string textarea widget (raw byte length).
 * `PHP_EOL` is the parameter `eol`; PHP's `strip_tags` is the parameter
 * `stripTags`, a function whose internals are not part of this model.
 */
module LengthValidation {
  import opened PhpText

  /** A submitted form value: a plain string, or an array of named entries. */
  datatype SubmittedValue = Scalar(text: string) | Keyed(entries: map<string, string>)

  /** What `setError` would report, or acceptance. */
  datatype Verdict = Accepted | TooLong(length: int, max: int)

  /**
   * The value the validator measures: an array is read through its `value`
   * entry; a missing entry is PHP's NULL, which the string functions treat as "".
   */
  function Unwrap(v: SubmittedValue): string
  {
    match v
    case Scalar(text) => text
    case Keyed(entries) => if "value" in entries then entries["value"] else ""
  }

  /** `count(explode(PHP_EOL, value)) - 1`. */
  function NewlineCount(value: string, eol: string): (n: int)
    requires eol != []
    ensures n == Occurrences(value, eol)
  {
    ExplodeCountsOccurrences(value, eol);
    |Explode(value, eol)| - 1
  }

  /**
   * The length `validateFieldFormElement` compares with the maximum: the code
   * points of the value (or of its tag-stripped text) minus one per `PHP_EOL`
   * found in the value BEFORE stripping.
   */
  function ValidatedLength(value: string, countHtml: bool, eol: string, stripTags: string -> string): (n: int)
    requires eol != []
    ensures n == |if countHtml then value else stripTags(value)| - Occurrences(value, eol)
    ensures countHtml ==> 0 <= n <= |value|
  {
    var measured := if countHtml then value else stripTags(value);
    |measured| - NewlineCount(value, eol)
  }

  /** `validateFieldFormElement`: the error is raised only above the maximum. */
  function ValidateFieldFormElement(value: SubmittedValue, countHtml: bool, maxlength: int,
                                    eol: string, stripTags: string -> string): (v: Verdict)
    requires eol != []
    ensures v.TooLong? <==> ValidatedLength(Unwrap(value), countHtml, eol, stripTags) > maxlength
    ensures v.TooLong? ==> v.max == maxlength && v.length == ValidatedLength(Unwrap(value), countHtml, eol, stripTags)
  {
    var length := ValidatedLength(Unwrap(value), countHtml, eol, stripTags);
    if length > maxlength then TooLong(length, maxlength) else Accepted
  }

  /** `validateElement` of the string textarea widget: byte `strlen` against the maximum. */
  function ValidateElement(value: string, maxlength: int): (v: Verdict)
    ensures v.TooLong? <==> Utf8Length(value) > maxlength
    ensures v.TooLong? ==> v == TooLong(Utf8Length(value), maxlength)
  {
    if Utf8Length(value) > maxlength then TooLong(Utf8Length(value), maxlength) else Accepted
  }

  /** An array value is judged exactly as its `value` entry would be. */
  lemma KeyedValueValidatedThroughValueEntry(entries: map<string, string>, countHtml: bool, maxlength: int,
                                             eol: string, stripTags: string -> string)
    requires eol != []
    requires "value" in entries
    ensures ValidateFieldFormElement(Keyed(entries), countHtml, maxlength, eol, stripTags)
         == ValidateFieldFormElement(Scalar(entries["value"]), countHtml, maxlength, eol, stripTags)
  {
  }

  /** A value exactly at the maximum is accepted; one more is refused. */
  lemma BoundaryIsInclusive(value: string, countHtml: bool, eol: string, stripTags: string -> string)
    requires eol != []
    ensures ValidateFieldFormElement(Scalar(value), countHtml, ValidatedLength(value, countHtml, eol, stripTags), eol, stripTags) == Accepted
    ensures ValidateFieldFormElement(Scalar(value), countHtml, ValidatedLength(value, countHtml, eol, stripTags) - 1, eol, stripTags).TooLong?
  {
  }

  /** With `PHP_EOL` = "\n" the counted length is the number of code points other than line feeds. */
  lemma {:induction false} LineFeedLength(value: string, stripTags: string -> string)
    ensures ValidatedLength(value, true, "\n", stripTags) == |value| - CharCount('\n', value)
  {
    OccurrencesOfChar(value, '\n');
  }

  /** With `PHP_EOL` = "\n", a lone line feed adds nothing to the counted length. */
  lemma {:induction false} LoneLineFeedCountsZero(a: string, b: string, stripTags: string -> string)
    ensures ValidatedLength(a + "\n" + b, true, "\n", stripTags)
         == ValidatedLength(a, true, "\n", stripTags) + ValidatedLength(b, true, "\n", stripTags)
  {
    LineFeedLength(a + "\n" + b, stripTags);
    LineFeedLength(a, stripTags);
    LineFeedLength(b, stripTags);
    CharCountAppend('\n', a + "\n", b);
    CharCountAppend('\n', a, "\n");
  }

  /** With `PHP_EOL` = "\n", a CR LF pair adds exactly one to the counted length. */
  lemma {:induction false} CrLfCountsOne(a: string, b: string, stripTags: string -> string)
    ensures ValidatedLength(a + "\r\n" + b, true, "\n", stripTags)
         == ValidatedLength(a, true, "\n", stripTags) + 1 + ValidatedLength(b, true, "\n", stripTags)
  {
    LineFeedLength(a + "\r\n" + b, stripTags);
    LineFeedLength(a, stripTags);
    LineFeedLength(b, stripTags);
    CharCountAppend('\n', a + "\r\n", b);
    CharCountAppend('\n', a, "\r\n");
    assert CharCount('\n', "\r\n") == 1 by {
      assert "\r\n"[1..] == "\n";
      assert "\n"[1..] == [];
    }
  }

  /** "a\r\nb" counts as three characters whichever line ending PHP uses. */
  lemma CrLfExample(stripTags: string -> string)
    ensures ValidatedLength("a\r\nb", true, "\n", stripTags) == 3
    ensures ValidatedLength("a\r\nb", true, "\r\n", stripTags) == 3
  {
  }

  /** When stripping leaves the value alone, both counting modes agree. */
  lemma StrippingNoMarkupChangesNothing(value: string, eol: string, stripTags: string -> string)
    requires eol != []
    requires stripTags(value) == value
    ensures ValidatedLength(value, false, eol, stripTags) == ValidatedLength(value, true, eol, stripTags)
  {
  }

  /**
   * Line endings are counted in the unstripped value, so a line ending inside
   * a tag that stripping removes still lowers the count, which can then go
   * below zero: here for any stripper that, like `strip_tags`, maps "<br\n>" to "".
   */
  lemma StrippedLengthCanBeNegative(stripTags: string -> string)
    requires stripTags("<br\n>") == ""
    ensures ValidatedLength("<br\n>", false, "\n", stripTags) == -1
  {
  }

  /**
   * The byte rule is never more lenient than the code-point rule in the
   * count-HTML mode: whatever the trait refuses, the textarea widget refuses.
   */
  lemma ByteRuleRefusesWhatCodePointRuleRefuses(value: string, maxlength: int, eol: string, stripTags: string -> string)
    requires eol != []
    requires ValidateFieldFormElement(Scalar(value), true, maxlength, eol, stripTags).TooLong?
    ensures ValidateElement(value, maxlength).TooLong?
  {
  }

  /** On ASCII text without line endings the two rules measure the same length. */
  lemma {:induction false} RulesAgreeOnPlainAscii(value: string, eol: string, stripTags: string -> string)
    requires eol != []
    requires forall i :: 0 <= i < |value| ==> (value[i] as int) < 0x80
    requires Occurrences(value, eol) == 0
    ensures ValidatedLength(value, true, eol, stripTags) == Utf8Length(value)
  {
  }

  /** A multibyte character counts twice under the byte rule: "é" passes maximum 1 in the trait only. */
  lemma MultibyteCountsMoreThanOnce(stripTags: string -> string)
    ensures ValidateFieldFormElement(Scalar("é"), true, 1, "\n", stripTags) == Accepted
    ensures ValidateElement("é", 1) == TooLong(2, 1)
  {
  }

  /** A line feed is collapsed by the trait but counted by the byte rule. */
  lemma LineFeedCountedOnlyByByteRule(stripTags: string -> string)
    ensures ValidateFieldFormElement(Scalar("a\nb"), true, 2, "\n", stripTags) == Accepted
    ensures ValidateElement("a\nb", 2) == TooLong(3, 2)
  {
  }
}
