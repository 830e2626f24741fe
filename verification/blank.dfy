/** The blank-text test: Swift's `String.isBlank()` and Ruby's `Object#blank?`.
    Both search the text for a character outside the whitespace class and
    report "blank" when the search finds nothing. */
module Blank {
  import opened Wrappers

  /** The whitespace class: the characters carrying the Unicode White_Space
      property (tab to carriage return, space, NEL, no-break space, the
      Ogham space mark, the en quad to hair space range, line and paragraph
      separators, narrow no-break space, medium mathematical space and the
      ideographic space). */
  predicate IsWhitespace(c: char) {
    || ('\t' <= c <= '\r')
    || c == ' '
    || c == '\U{85}'
    || c == '\U{A0}'
    || c == '\U{1680}'
    || ('\U{2000}' <= c <= '\U{200A}')
    || c == '\U{2028}'
    || c == '\U{2029}'
    || c == '\U{202F}'
    || c == '\U{205F}'
    || c == '\U{3000}'
  }

  /** Position of the first non-whitespace character, if there is one: what
      `rangeOfCharacter(from: .nonWhitespace)` and `=~ /[^[:space:]]/` report. */
  function FirstNonWhitespace(s: string): (r: Option<nat>)
    ensures r.None? <==> forall i :: 0 <= i < |s| ==> IsWhitespace(s[i])
    ensures r.Some? ==> r.value < |s| && !IsWhitespace(s[r.value])
    ensures r.Some? ==> forall i :: 0 <= i < r.value ==> IsWhitespace(s[i])
  {
    if |s| == 0 then None
    else if !IsWhitespace(s[0]) then Some(0)
    else
      match FirstNonWhitespace(s[1..])
      case None => None
      case Some(k) => Some(k + 1)
  }

  /** Swift's `String.isBlank()`: no character outside the whitespace class. */
  function IsBlank(s: string): (b: bool)
    ensures b <==> forall i :: 0 <= i < |s| ==> IsWhitespace(s[i])
  {
    FirstNonWhitespace(s) == None
  }

  /** Ruby's `Object#blank?` on a text field that may be `nil`: `nil !~ re`
      is true, and a string is blank when the regex search finds nothing. */
  function IsBlankObject(v: Option<string>): (b: bool)
    ensures v.None? ==> b
    ensures v.Some? ==> (b <==> forall i :: 0 <= i < |v.value| ==> IsWhitespace(v.value[i]))
  {
    match v
    case None => true
    case Some(s) => FirstNonWhitespace(s) == None
  }

  /** Both predicates agree on every string. */
  lemma BlankObjectAgreesOnStrings(s: string)
    ensures IsBlankObject(Some(s)) == IsBlank(s)
  {
  }

  /** The empty string and a run of spaces are blank in both languages. */
  lemma EmptyAndSpacesAreBlank()
    ensures IsBlank("") && IsBlankObject(Some(""))
    ensures IsBlank("     ") && IsBlankObject(Some("     "))
    ensures IsBlankObject(None)
  {
  }

  /** A single character outside the whitespace class makes a string non-blank. */
  lemma NonWhitespaceIsNotBlank(s: string, i: nat)
    requires i < |s| && !IsWhitespace(s[i])
    ensures !IsBlank(s) && !IsBlankObject(Some(s))
    ensures FirstNonWhitespace(s).Some? && FirstNonWhitespace(s).value <= i
  {
  }
}
