// formatString and the submit handler of the format form: the raw text is
// trimmed and upper-cased, and an empty outcome is shown as a placeholder.

module FormatForm {
  import opened Strings

  /** formatString: trim, then upper-case. The result is never longer than the
      input, has no whitespace at either end and no lower-case letter, and is
      empty exactly when the input is all whitespace. */
  function FormatString(s: string): (r: string)
    ensures |r| <= |s|
    ensures Trimmed(r)
    ensures NoLowercase(r)
    ensures r == [] <==> AllWhitespace(s)
  {
    ToUpperKeepsTrimmed(Trim(s));
    ToUpper(Trim(s))
  }

  /** The result is the input's trimmed text, up to ASCII letter case. */
  lemma FormatStringKeepsText(s: string)
    ensures SameIgnoringCase(FormatString(s), Trim(s))
    ensures IsTrimOf(Trim(s), s)
  {
    TrimIsTrimOf(s);
  }

  /** Formatting a formatted string changes nothing. */
  lemma {:induction false} FormatStringIdempotent(s: string)
    ensures FormatString(FormatString(s)) == FormatString(s)
  {
    var f := FormatString(s);
    TrimOfTrimmed(f);
    ToUpperOfUpper(f);
  }

  const EmptyPlaceholder: string := "(empty)"

  /** Formatted text never reads like the placeholder, which has lower-case
      letters. */
  lemma PlaceholderHasLowercase(f: string)
    requires NoLowercase(f)
    ensures f != EmptyPlaceholder
  {
    assert IsLower(EmptyPlaceholder[1]);
  }

  /** The text written into the result element: `formatted || '(empty)'`. */
  function FormatResultText(raw: string): (text: string)
    ensures text == EmptyPlaceholder <==> AllWhitespace(raw)
    ensures text != EmptyPlaceholder ==> text == FormatString(raw) && text != []
  {
    var formatted := FormatString(raw);
    PlaceholderHasLowercase(formatted);
    if formatted == [] then EmptyPlaceholder else formatted
  }

  /** Submitting what the form shows (unless it is the placeholder) shows it
      again unchanged. */
  lemma FormatResultStable(raw: string)
    ensures FormatResultText(raw) != EmptyPlaceholder ==>
              FormatResultText(FormatResultText(raw)) == FormatResultText(raw)
  {
    FormatStringIdempotent(raw);
  }
}
