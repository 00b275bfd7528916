/**
 * The JSON request bodies the controllers accept, and the bean-validation
 * constraints declared on them (`@NotBlank`, `@NotNull`, `@Size`, `@Email`,
 * `@Pattern`, `@Valid`) as validity predicates.  A JSON `null` or a missing
 * field is `None`; a missing list is the empty list the class initialises it
 * with.  `@Email`'s grammar is not part of the model: it is the parameter
 * `isEmail`.
 */
module Requests {
  import opened Wrappers
  import opened Strings
  import opened Store

  datatype OptionRequest = OptionRequest(text: Option<string>, displayOrder: Option<int>)

  datatype QuestionRequest = QuestionRequest(
    text: Option<string>,
    qtype: Option<QuestionType>,
    displayOrder: Option<int>,
    required: bool,
    options: seq<OptionRequest>)

  datatype FormRequest = FormRequest(
    title: Option<string>,
    description: Option<string>,
    questions: seq<QuestionRequest>)

  /**
   * One submitted answer.  `selectedOptionIds` and `dateValue` are the two
   * fields the submission code reads beyond the four the class declares.
   */
  datatype AnswerRequest = AnswerRequest(
    questionId: Option<Id>,
    textAnswer: Option<string>,
    selectedOptionId: Option<Id>,
    selectedOptionIds: Option<seq<Id>>,
    ratingValue: Option<int>,
    dateValue: Option<string>)

  datatype ResponseRequest = ResponseRequest(
    respondentName: Option<string>,
    respondentEmail: Option<string>,
    answers: seq<AnswerRequest>)

  /** `roles` is the requested role names in the set's iteration order. */
  datatype SignupRequest = SignupRequest(
    username: Option<string>,
    email: Option<string>,
    fullName: Option<string>,
    phoneNo: Option<string>,
    roles: Option<seq<string>>,
    password: Option<string>)

  // ---------------------------------------------------------------------------
  // The constraint annotations
  // ---------------------------------------------------------------------------

  /** `@NotBlank`: present, and not empty once trimmed. */
  predicate NotBlankField(s: Option<string>)
  {
    s.Some? && NotBlank(s.value)
  }

  /** `@Size(max = n)`: a null value passes. */
  predicate SizeAtMost(s: Option<string>, n: nat)
  {
    s.None? || |s.value| <= n
  }

  /** `@Size(min = lo, max = hi)`: a null value passes. */
  predicate SizeBetween(s: Option<string>, lo: nat, hi: nat)
  {
    s.None? || lo <= |s.value| <= hi
  }

  /** `@Email`: a null value passes; otherwise the value must be an address. */
  predicate EmailField(s: Option<string>, isEmail: string -> bool)
  {
    s.None? || isEmail(s.value)
  }

  predicate ValidOption(o: OptionRequest)
  {
    NotBlankField(o.text) && SizeAtMost(o.text, 255)
  }

  /** `@Valid` on `options` validates each option request. */
  predicate ValidQuestion(q: QuestionRequest)
  {
    NotBlankField(q.text) && SizeAtMost(q.text, 500) && q.qtype.Some? &&
    forall o :: o in q.options ==> ValidOption(o)
  }

  predicate ValidForm(f: FormRequest)
  {
    NotBlankField(f.title) && SizeAtMost(f.title, 100) && SizeAtMost(f.description, 500) &&
    forall q :: q in f.questions ==> ValidQuestion(q)
  }

  /** The answer drafts carry no constraints, so only the two respondent fields are checked. */
  predicate ValidResponse(r: ResponseRequest, isEmail: string -> bool)
  {
    SizeAtMost(r.respondentName, 100) && SizeAtMost(r.respondentEmail, 100) &&
    EmailField(r.respondentEmail, isEmail)
  }

  // ---------------------------------------------------------------------------
  // The password policy
  // ---------------------------------------------------------------------------

  /** The characters the password policy counts as special. */
  const SpecialChars: string := "!@#$%^&*(),.?\":{}|<>"

  predicate IsUpper(c: char)
  {
    'A' <= c <= 'Z'
  }

  predicate IsSpecial(c: char)
  {
    c in SpecialChars
  }

  /** The characters the regular-expression `.` does not match. */
  predicate IsLineTerminator(c: char)
  {
    c == '\n' || c == '\r' || c == '\U{0085}' || c == '\U{2028}' || c == '\U{2029}'
  }

  predicate HasUpper(s: string)
  {
    exists i :: 0 <= i < |s| && IsUpper(s[i])
  }

  predicate HasSpecial(s: string)
  {
    exists i :: 0 <= i < |s| && IsSpecial(s[i])
  }

  /**
   * The `@Pattern` on the password: two look-aheads, an upper-case letter and
   * a special character somewhere, and then `.*` over the whole input, which
   * no line terminator can be part of.
   */
  predicate PasswordPattern(s: string)
  {
    HasUpper(s) && HasSpecial(s) && forall i :: 0 <= i < |s| ==> !IsLineTerminator(s[i])
  }

  predicate ValidSignup(r: SignupRequest, isEmail: string -> bool)
  {
    NotBlankField(r.username) && SizeBetween(r.username, 3, 50) &&
    NotBlankField(r.email) && SizeAtMost(r.email, 100) && EmailField(r.email, isEmail) &&
    NotBlankField(r.fullName) && SizeAtMost(r.fullName, 100) &&
    SizeAtMost(r.phoneNo, 20) &&
    NotBlankField(r.password) && SizeBetween(r.password, 8, 120) &&
    (r.password.None? || PasswordPattern(r.password.value))
  }

  // ---------------------------------------------------------------------------
  // Properties of the validators
  // ---------------------------------------------------------------------------

  /**
   * An option request with no text, or with only whitespace, is rejected; an
   * accepted one has text that `trim()` leaves non-empty, of at most 255
   * characters.
   */
  lemma BlankOptionInvalid(o: OptionRequest)
    ensures o.text.None? ==> !ValidOption(o)
    ensures o.text.Some? && All(o.text.value, IsTrimSpace) ==> !ValidOption(o)
    ensures ValidOption(o) ==> JavaTrim(o.text.value) != [] && |o.text.value| <= 255
  {
    if o.text.Some? {
      NotBlankIff(o.text.value);
      TrimEmptyIff(o.text.value, IsTrimSpace);
    }
  }

  /** A valid form request contains only valid question requests, each with only valid options. */
  lemma ValidFormNested(f: FormRequest, i: nat, j: nat)
    requires ValidForm(f) && i < |f.questions| && j < |f.questions[i].options|
    ensures f.questions[i].text.Some? && 0 < |f.questions[i].text.value| <= 500
    ensures f.questions[i].qtype.Some?
    ensures f.questions[i].options[j].text.Some? && 0 < |f.questions[i].options[j].text.value| <= 255
  {
    assert f.questions[i] in f.questions;
    assert f.questions[i].options[j] in f.questions[i].options;
  }

  /** A valid signup carries a password of 8 to 120 characters with an upper-case letter and a special character. */
  lemma ValidSignupPassword(r: SignupRequest, isEmail: string -> bool)
    requires ValidSignup(r, isEmail)
    ensures r.password.Some? && 8 <= |r.password.value| <= 120
    ensures exists i :: 0 <= i < |r.password.value| && 'A' <= r.password.value[i] <= 'Z'
    ensures exists i :: 0 <= i < |r.password.value| && r.password.value[i] in SpecialChars
  {
    var i :| 0 <= i < |r.password.value| && IsUpper(r.password.value[i]);
    var j :| 0 <= j < |r.password.value| && IsSpecial(r.password.value[j]);
  }

  // ---------------------------------------------------------------------------
  // The password-free rendering
  // ---------------------------------------------------------------------------

  /** A string as string concatenation renders it: a null reference is `null`. */
  function Show(s: Option<string>): string
  {
    if s.None? then "null" else s.value
  }

  /** A set as `AbstractCollection.toString` renders it: its elements in brackets. */
  function ShowRoles(roles: Option<seq<string>>): string
  {
    if roles.None? then "null" else "[" + Join(roles.value, ", ") + "]"
  }

  /** `SignupRequest.toString`: every field but the password, which is replaced by a marker. */
  function SignupToString(r: SignupRequest): (s: string)
    ensures |s| >= 23 && s[|s| - 23..] == ", password=[PROTECTED])"
    ensures s[..23] == "SignupRequest(username="
  {
    "SignupRequest(username=" + Show(r.username) +
    ", email=" + Show(r.email) +
    ", fullName=" + Show(r.fullName) +
    ", phoneNo=" + Show(r.phoneNo) +
    ", roles=" + ShowRoles(r.roles) +
    ", password=[PROTECTED])"
  }

  /** The rendering does not depend on the password at all. */
  lemma SignupToStringHidesPassword(r: SignupRequest, p: Option<string>)
    ensures SignupToString(r) == SignupToString(r.(password := p))
  {
  }
}
