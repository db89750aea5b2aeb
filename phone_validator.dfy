/**
 * The JSF validator `svPhoneValidator`: a Salvadoran phone number is one
 * of the digits 2, 3, 6 or 7, three more digits, a hyphen and four digits
 * (for example 7123-4567). A null or blank value is not checked at all.
 */
module PhoneValidator {
  import opened Wrappers
  import opened Faces

  // ---------------------------------------------------------------------
  // String.trim()
  // ---------------------------------------------------------------------

  /** String.trim() strips every character whose code is at most U+0020. */
  predicate IsTrimmable(c: char) {
    c <= ' '
  }

  /** How many characters trim() strips from the front of `s`. */
  function LeadingTrimmable(s: string): (n: nat)
    ensures n <= |s|
    ensures forall k :: 0 <= k < n ==> IsTrimmable(s[k])
    ensures n < |s| ==> !IsTrimmable(s[n])
  {
    if s == [] || !IsTrimmable(s[0]) then 0 else 1 + LeadingTrimmable(s[1..])
  }

  /** How many characters trim() strips from the back of `s`. */
  function TrailingTrimmable(s: string): (n: nat)
    ensures n <= |s|
    ensures forall k :: |s| - n <= k < |s| ==> IsTrimmable(s[k])
    ensures n < |s| ==> !IsTrimmable(s[|s| - 1 - n])
  {
    if s == [] || !IsTrimmable(s[|s| - 1]) then 0 else 1 + TrailingTrimmable(s[..|s| - 1])
  }

  /** String.trim(): `s` without its leading and trailing trimmable characters. */
  function Trim(s: string): (r: string)
    ensures |r| <= |s|
    ensures r == [] <==> forall k :: 0 <= k < |s| ==> IsTrimmable(s[k])
    ensures r != [] ==> !IsTrimmable(r[0]) && !IsTrimmable(r[|r| - 1])
  {
    var front := LeadingTrimmable(s);
    if front == |s| then []
    else
      var back := TrailingTrimmable(s);
      s[front..|s| - back]
  }

  /** `phone.trim().isEmpty()`: every character is one that trim() strips. */
  predicate IsBlank(s: string)
    ensures IsBlank(s) <==> forall k :: 0 <= k < |s| ==> IsTrimmable(s[k])
  {
    Trim(s) == []
  }

  // ---------------------------------------------------------------------
  // PHONE_PATTERN = ^[2367]\d{3}-\d{4}$
  // ---------------------------------------------------------------------

  const PHONE_LENGTH: nat := 9
  const HYPHEN_INDEX: nat := 4

  /** `\d` without UNICODE_CHARACTER_CLASS: the ASCII digits only. */
  predicate IsDigit(c: char) {
    '0' <= c <= '9'
  }

  /** `[2367]` */
  predicate IsLeadingDigit(c: char) {
    c == '2' || c == '3' || c == '6' || c == '7'
  }

  /**
   * Matcher.matches() of PHONE_PATTERN, position by position: nine
   * characters, ASCII digits on both sides of a hyphen at index 4.
   */
  predicate MatchesPhonePattern(s: string)
    ensures MatchesPhonePattern(s) ==>
      && |s| == PHONE_LENGTH && s[HYPHEN_INDEX] == '-'
      && forall k :: 0 <= k < |s| && k != HYPHEN_INDEX ==> IsDigit(s[k])
  {
    && |s| == PHONE_LENGTH
    && IsLeadingDigit(s[0])
    && (forall k :: 1 <= k < HYPHEN_INDEX ==> IsDigit(s[k]))
    && s[HYPHEN_INDEX] == '-'
    && (forall k :: HYPHEN_INDEX < k < PHONE_LENGTH ==> IsDigit(s[k]))
  }

  // ---------------------------------------------------------------------
  // The pattern as the regular expression writes it, for comparison
  // ---------------------------------------------------------------------

  /** A character class of the regular expression. */
  datatype CharClass = AnyOf(members: set<char>) | Digit | Literal(c: char)

  /** `cls{count}`: `count` consecutive characters of class `cls`. */
  datatype Piece = Piece(cls: CharClass, count: nat)

  predicate InClass(c: char, cls: CharClass) {
    match cls
    case AnyOf(members) => c in members
    case Digit => IsDigit(c)
    case Literal(l) => c == l
  }

  /** `[2367]\d{3}-\d{4}` as a sequence of pieces. */
  const PHONE_REGEX: seq<Piece> :=
    [Piece(AnyOf({'2', '3', '6', '7'}), 1), Piece(Digit, 3), Piece(Literal('-'), 1), Piece(Digit, 4)]

  /** Anchored match (`^...$`) of a sequence of fixed-count pieces. */
  predicate FullMatch(pattern: seq<Piece>, s: string)
    decreases |pattern|
  {
    if pattern == [] then s == []
    else
      var n := pattern[0].count;
      && n <= |s|
      && (forall k :: 0 <= k < n ==> InClass(s[k], pattern[0].cls))
      && FullMatch(pattern[1..], s[n..])
  }

  /** The position-by-position predicate is the regular expression. */
  lemma RegexAgreesWithPattern(s: string)
    ensures FullMatch(PHONE_REGEX, s) <==> MatchesPhonePattern(s)
  {
  }


  // ---------------------------------------------------------------------
  // validate()
  // ---------------------------------------------------------------------

  /** The ValidatorException message: same title, detail and severity every time. */
  const PHONE_FORMAT_ERROR: FacesMessage :=
    FacesMessage(
      Error,
      "Error de formato de teléfono.",
      "El teléfono debe tener el formato 7XXX-XXXX o 6XXX-XXXX.")

  /** `validate` returns normally (Accepted) or throws ValidatorException(msg). */
  datatype Verdict = Accepted | Rejected(message: FacesMessage)

  /**
   * validate(context, component, value). The format is matched against the
   * value as given: trim() decides only whether the value is blank.
   */
  function Validate(value: Option<string>): (v: Verdict)
    ensures v.Rejected? ==> value.Some? && v.message == PHONE_FORMAT_ERROR
  {
    match value
    case None => Accepted
    case Some(phone) =>
      if IsBlank(phone) then Accepted
      else if MatchesPhonePattern(phone) then Accepted
      else Rejected(PHONE_FORMAT_ERROR)
  }

  // ---------------------------------------------------------------------
  // Properties
  // ---------------------------------------------------------------------

  /** A null value is never rejected. */
  lemma NullAccepted()
    ensures Validate(None) == Accepted
  {
  }

  /** A value made only of whitespace and control characters is accepted unchecked. */
  lemma BlankAccepted(s: string)
    requires forall k :: 0 <= k < |s| ==> IsTrimmable(s[k])
    ensures Validate(Some(s)) == Accepted
  {
  }

  /**
   * A value is accepted exactly when it is blank or is matched by the
   * regular expression `^[2367]\d{3}-\d{4}$`.
   */
  lemma AcceptedIff(s: string)
    ensures Validate(Some(s)).Accepted? <==>
      (forall k :: 0 <= k < |s| ==> IsTrimmable(s[k])) || FullMatch(PHONE_REGEX, s)
  {
    RegexAgreesWithPattern(s);
  }

  /** A non-blank value is accepted iff it has the phone shape, position by position. */
  lemma NonBlankAcceptedIff(s: string)
    requires exists k :: 0 <= k < |s| && !IsTrimmable(s[k])
    ensures Validate(Some(s)).Accepted? <==>
      && |s| == 9
      && s[0] in {'2', '3', '6', '7'}
      && (forall k :: 1 <= k < 4 ==> '0' <= s[k] <= '9')
      && s[4] == '-'
      && (forall k :: 5 <= k < 9 ==> '0' <= s[k] <= '9')
  {
  }

  /** A leading digit outside {2, 3, 6, 7} is rejected. */
  lemma WrongLeadingDigitRejected(s: string)
    requires |s| > 0 && IsDigit(s[0]) && !IsLeadingDigit(s[0])
    ensures Validate(Some(s)) == Rejected(PHONE_FORMAT_ERROR)
  {
    assert !IsTrimmable(s[0]);
  }

  /** A hyphen anywhere but at index 4 is rejected. */
  lemma MisplacedHyphenRejected(s: string, k: nat)
    requires k < |s| && k != HYPHEN_INDEX && s[k] == '-'
    ensures Validate(Some(s)) == Rejected(PHONE_FORMAT_ERROR)
  {
    assert !IsTrimmable(s[k]);
  }

  /**
   * The match runs on the untrimmed value: a well-formed number with any
   * leading or trailing whitespace is rejected.
   */
  lemma PaddedNumberRejected(s: string, pre: string, post: string)
    requires MatchesPhonePattern(s)
    requires pre + post != []
    requires forall k :: 0 <= k < |pre| ==> IsTrimmable(pre[k])
    requires forall k :: 0 <= k < |post| ==> IsTrimmable(post[k])
    ensures Validate(Some(pre + s + post)) == Rejected(PHONE_FORMAT_ERROR)
  {
    var t := pre + s + post;
    assert t[|pre|] == s[0];
    assert !IsTrimmable(t[|pre|]);
    assert |t| > PHONE_LENGTH;
  }

  /** The documented well-formed example is accepted. */
  lemma ExampleAccepted()
    ensures Validate(Some("7123-4567")) == Accepted
  {
    assert MatchesPhonePattern("7123-4567");
  }

  /** "1123-4567" has a wrong leading digit. */
  lemma ExampleWrongLeadingDigit()
    ensures Validate(Some("1123-4567")) == Rejected(PHONE_FORMAT_ERROR)
  {
    WrongLeadingDigitRejected("1123-4567");
  }

  /** "712-34567" has its hyphen one place early. */
  lemma ExampleMisplacedHyphen()
    ensures Validate(Some("712-34567")) == Rejected(PHONE_FORMAT_ERROR)
  {
    MisplacedHyphenRejected("712-34567", 3);
  }

  /** " 7123-4567" is the accepted example with one leading space. */
  lemma ExamplePadded()
    ensures Validate(Some(" 7123-4567")) == Rejected(PHONE_FORMAT_ERROR)
  {
    ExampleAccepted();
    assert " 7123-4567" == " " + "7123-4567" + "";
    PaddedNumberRejected("7123-4567", " ", "");
  }
}
