/**
 * `CreateForm`: the form-builder page.  It edits a draft form (title,
 * description and a list of draft questions); changing a question's type
 * rewrites its type-specific settings, and submitting first checks the draft
 * and reports the first problem it finds.
 *
 * A draft question's optional settings are `None` when the page's object
 * lacks the property (never set, or removed with `delete`).  JavaScript's
 * whitespace class (`trim()`) is the parameter `ws`, and the comparison of
 * two dates through `new Date(...)` is the parameter `later`.
 */
module CreateForm {
  import opened Wrappers
  import opened Strings
  import opened Store
  import opened Client
  import QuestionReorder

  /** An option of a draft question. */
  datatype DraftOption = DraftOption(text: string)

  /** A question of the draft, with the optional settings of every type. */
  datatype DraftQuestion = DraftQuestion(
    text: string,
    qtype: QuestionType,
    required: bool,
    options: Option<seq<DraftOption>>,
    wordLimit: Option<int>,
    minRating: Option<int>,
    maxRating: Option<int>,
    defaultRating: Option<int>,
    dateFormat: Option<string>,
    minDate: Option<string>,
    maxDate: Option<string>)

  /** The draft form the page edits. */
  datatype DraftForm = DraftForm(title: string, description: string, questions: seq<DraftQuestion>)

  /** The question the page starts with and adds: empty text, TEXT, optional, an empty option list. */
  const BlankQuestion := DraftQuestion([], Text, false, Some([]), None, None, None, None, None, None, None)

  /** The draft the page starts with: no title, no description, one blank question. */
  const InitialForm := DraftForm([], [], [BlankQuestion])

  const DefaultWordLimit := 100
  const DefaultMinRating := 1
  const DefaultMaxRating := 5
  const DefaultRating := 3
  const DefaultDateFormat := "YYYY-MM-DD"

  predicate IsChoice(t: QuestionType)
  {
    t == SingleSelect || t == MultipleChoice || t == MultiSelect
  }

  /** `n` blank options. */
  function BlankOptions(n: nat): (r: seq<DraftOption>)
    ensures |r| == n && forall i :: 0 <= i < n ==> r[i].text == []
  {
    seq(n, i => DraftOption([]))
  }

  /** `options?.length ? options : fallback`. */
  function OptionsOr(options: Option<seq<DraftOption>>, n: nat): seq<DraftOption>
  {
    if options.Some? && |options.value| > 0 then options.value else BlankOptions(n)
  }

  /** `s || d` for a string setting that may be missing. */
  function OrText(s: Option<string>, d: string): string
  {
    if Filled(s) then s.value else d
  }

  /**
   * `handleQuestionTypeChange` on one question: the type is replaced, and
   * only the settings of the new type survive, each defaulted when falsy.
   */
  function ChangeType(q: DraftQuestion, t: QuestionType): (r: DraftQuestion)
    ensures r.qtype == t && r.text == q.text && r.required == q.required
    ensures t == Text ==> r == DraftQuestion(q.text, t, q.required, None, None, None, None, None, None, None, None)
    ensures t == TextWithLimit ==>
      r.options.None? && r.minRating.None? && r.maxRating.None? && r.defaultRating.None? &&
      r.dateFormat.None? && r.minDate.None? && r.maxDate.None? &&
      r.wordLimit == (if Truthy(q.wordLimit) then q.wordLimit else Some(DefaultWordLimit))
    ensures IsChoice(t) ==>
      r.wordLimit.None? && r.minRating.None? && r.maxRating.None? && r.defaultRating.None? &&
      r.dateFormat.None? && r.minDate.None? && r.maxDate.None? &&
      r.options.Some? && |r.options.value| > 0 &&
      (q.options.Some? && |q.options.value| > 0 ==> r.options == q.options) &&
      (q.options.None? || |q.options.value| == 0 ==>
         r.options == Some(BlankOptions(if t == MultiSelect then 3 else 2)))
    ensures t == RatingScale ==>
      r.options.None? && r.wordLimit.None? && r.dateFormat.None? && r.minDate.None? && r.maxDate.None? &&
      r.minRating == (if Truthy(q.minRating) then q.minRating else Some(DefaultMinRating)) &&
      r.maxRating == (if Truthy(q.maxRating) then q.maxRating else Some(DefaultMaxRating)) &&
      r.defaultRating == (if Truthy(q.defaultRating) then q.defaultRating else Some(DefaultRating))
    ensures t == Date ==>
      r.options.None? && r.wordLimit.None? && r.minRating.None? && r.maxRating.None? && r.defaultRating.None? &&
      r.minDate == q.minDate && r.maxDate == q.maxDate &&
      r.dateFormat == (if Filled(q.dateFormat) then q.dateFormat else Some(DefaultDateFormat))
  {
    var u := q.(qtype := t);
    match t
    case Text =>
      u.(wordLimit := None, options := None, minRating := None, maxRating := None, defaultRating := None,
         dateFormat := None, minDate := None, maxDate := None)
    case TextWithLimit =>
      u.(wordLimit := Some(OrNumber(u.wordLimit, DefaultWordLimit)), options := None, minRating := None,
         maxRating := None, defaultRating := None, dateFormat := None, minDate := None, maxDate := None)
    case SingleSelect =>
      u.(options := Some(OptionsOr(u.options, 2)), wordLimit := None, minRating := None, maxRating := None,
         defaultRating := None, dateFormat := None, minDate := None, maxDate := None)
    case MultipleChoice =>
      u.(options := Some(OptionsOr(u.options, 2)), wordLimit := None, minRating := None, maxRating := None,
         defaultRating := None, dateFormat := None, minDate := None, maxDate := None)
    case MultiSelect =>
      u.(options := Some(OptionsOr(u.options, 3)), wordLimit := None, minRating := None, maxRating := None,
         defaultRating := None, dateFormat := None, minDate := None, maxDate := None)
    case RatingScale =>
      u.(minRating := Some(OrNumber(u.minRating, DefaultMinRating)),
         maxRating := Some(OrNumber(u.maxRating, DefaultMaxRating)),
         defaultRating := Some(OrNumber(u.defaultRating, DefaultRating)),
         options := None, wordLimit := None, dateFormat := None, minDate := None, maxDate := None)
    case Date =>
      u.(dateFormat := Some(OrText(u.dateFormat, DefaultDateFormat)), options := None, wordLimit := None,
         minRating := None, maxRating := None, defaultRating := None)
  }

  /** `handleQuestionTypeChange`: only the question at `index` changes. */
  function HandleQuestionTypeChange(qs: seq<DraftQuestion>, index: nat, t: QuestionType): (r: seq<DraftQuestion>)
    requires index < |qs|
    ensures |r| == |qs| && r[index] == ChangeType(qs[index], t)
    ensures forall j :: 0 <= j < |qs| && j != index ==> r[j] == qs[j]
  {
    qs[index := ChangeType(qs[index], t)]
  }

  /** Choosing the same type twice is the same as choosing it once. */
  lemma ChangeTypeIdempotent(q: DraftQuestion, t: QuestionType)
    ensures ChangeType(ChangeType(q, t), t) == ChangeType(q, t)
  {
  }

  /**
   * A setting of 0 counts as missing: a rating question whose bounds or
   * default were 0 gets the default 1, 5 or 3 instead.
   */
  lemma ZeroRatingReplaced(q: DraftQuestion)
    requires q.minRating == Some(0) && q.maxRating == Some(0) && q.defaultRating == Some(0)
    ensures ChangeType(q, RatingScale).minRating == Some(1)
    ensures ChangeType(q, RatingScale).maxRating == Some(5)
    ensures ChangeType(q, RatingScale).defaultRating == Some(3)
  {
  }

  /** `handleRequiredToggle`: flips the required flag of the question at `index`; nothing else changes. */
  function HandleRequiredToggle(qs: seq<DraftQuestion>, index: nat): (r: seq<DraftQuestion>)
    requires index < |qs|
    ensures |r| == |qs| && r[index].required == !qs[index].required
    ensures r[index].(required := qs[index].required) == qs[index]
    ensures forall j :: 0 <= j < |qs| && j != index ==> r[j] == qs[j]
  {
    qs[index := qs[index].(required := !qs[index].required)]
  }

  /** Toggling twice restores the list. */
  lemma ToggleTwice(qs: seq<DraftQuestion>, index: nat)
    requires index < |qs|
    ensures HandleRequiredToggle(HandleRequiredToggle(qs, index), index) == qs
  {
  }

  /** `addOption`: a blank option at the end of the question's option list, when it has one. */
  function AddOption(qs: seq<DraftQuestion>, index: nat): (r: seq<DraftQuestion>)
    requires index < |qs|
    ensures |r| == |qs| && forall j :: 0 <= j < |qs| && j != index ==> r[j] == qs[j]
    ensures qs[index].options.None? ==> r == qs
    ensures qs[index].options.Some? ==>
      r[index] == qs[index].(options := Some(qs[index].options.value + [DraftOption([])]))
  {
    var q := qs[index];
    if q.options.Some? then qs[index := q.(options := Some(q.options.value + [DraftOption([])]))] else qs
  }

  /**
   * `removeOption`: removes the option at `optionIndex` only when the list
   * has more than two options (and the index is inside it; `splice` beyond
   * the end removes nothing).
   */
  function RemoveOption(qs: seq<DraftQuestion>, index: nat, optionIndex: nat): (r: seq<DraftQuestion>)
    requires index < |qs|
    ensures |r| == |qs| && forall j :: 0 <= j < |qs| && j != index ==> r[j] == qs[j]
    ensures var o := qs[index].options;
      if o.Some? && |o.value| > 2 && optionIndex < |o.value| then
        r[index] == qs[index].(options := Some(QuestionReorder.Removed(o.value, optionIndex)))
      else r == qs
  {
    var q := qs[index];
    if q.options.Some? && |q.options.value| > 2 && optionIndex < |q.options.value| then
      qs[index := q.(options := Some(QuestionReorder.Removed(q.options.value, optionIndex)))]
    else qs
  }

  /** Removing never takes a question below two options. */
  lemma RemoveOptionKeepsTwo(qs: seq<DraftQuestion>, index: nat, optionIndex: nat)
    requires index < |qs| && qs[index].options.Some? && |qs[index].options.value| >= 2
    ensures var r := RemoveOption(qs, index, optionIndex);
      r[index].options.Some? && |r[index].options.value| >= 2
  {
  }

  /** Removing the option just added restores the list, once there are at least two. */
  lemma AddThenRemoveOption(qs: seq<DraftQuestion>, index: nat)
    requires index < |qs| && qs[index].options.Some? && |qs[index].options.value| >= 2
    ensures RemoveOption(AddOption(qs, index), index, |qs[index].options.value|) == qs
  {
    var o := qs[index].options.value;
    assert QuestionReorder.Removed(o + [DraftOption([])], |o|) == o;
  }

  /** `addQuestion`: a blank question at the end. */
  function AddQuestion(qs: seq<DraftQuestion>): (r: seq<DraftQuestion>)
    ensures |r| == |qs| + 1 && r[..|qs|] == qs && r[|qs|] == BlankQuestion
  {
    qs + [BlankQuestion]
  }

  /** `removeQuestion`: removes the question at `index` only when there is more than one. */
  function RemoveQuestion(qs: seq<DraftQuestion>, index: nat): (r: seq<DraftQuestion>)
    ensures |qs| > 1 && index < |qs| ==> r == QuestionReorder.Removed(qs, index)
    ensures !(|qs| > 1 && index < |qs|) ==> r == qs
  {
    if |qs| > 1 && index < |qs| then QuestionReorder.Removed(qs, index) else qs
  }

  /** The draft always keeps at least one question: every editing operation preserves it. */
  lemma QuestionsNeverEmpty(qs: seq<DraftQuestion>, index: nat, optionIndex: nat, t: QuestionType)
    requires |qs| >= 1
    ensures |AddQuestion(qs)| >= 1 && |RemoveQuestion(qs, index)| >= 1
    ensures index < |qs| ==>
      |HandleQuestionTypeChange(qs, index, t)| >= 1 && |HandleRequiredToggle(qs, index)| >= 1 &&
      |AddOption(qs, index)| >= 1 && |RemoveOption(qs, index, optionIndex)| >= 1
  {
  }

  /** Removing the question just added restores the list. */
  lemma AddThenRemoveQuestion(qs: seq<DraftQuestion>)
    requires |qs| >= 1
    ensures RemoveQuestion(AddQuestion(qs), |qs|) == qs
  {
    assert QuestionReorder.Removed(qs + [BlankQuestion], |qs|) == qs;
  }

  // ---------------------------------------------------------------------------
  // Submit checks
  // ---------------------------------------------------------------------------

  const TitleRequired := "Form title is required"

  /** `Question <n>` as the messages write it. */
  function QuestionLabel(n: nat): string
  {
    "Question " + NatToString(n)
  }

  /** The index of the first option whose text is blank, or the length when there is none. */
  function FirstBlankOption(opts: seq<DraftOption>, ws: char -> bool): (i: nat)
    ensures i <= |opts|
    ensures i < |opts| ==> Blank(opts[i].text, ws)
    ensures forall j :: 0 <= j < i ==> !Blank(opts[j].text, ws)
  {
    if opts == [] then 0
    else if Blank(opts[0].text, ws) then 0
    else 1 + FirstBlankOption(opts[1..], ws)
  }

  /** The word-limit check: `!wordLimit || wordLimit <= 0 || wordLimit > 1000`. */
  predicate BadWordLimit(q: DraftQuestion)
  {
    !Truthy(q.wordLimit) || q.wordLimit.value <= 0 || q.wordLimit.value > 1000
  }

  /** The rating checks, in order; the first that fails is reported. */
  function RatingProblem(q: DraftQuestion, heading: string): Option<string>
  {
    if q.minRating.None? || q.minRating.value < 0 || q.minRating.value > 9 then
      Some(heading + ": Minimum rating must be between 0 and 9")
    else if q.maxRating.None? || q.maxRating.value <= q.minRating.value || q.maxRating.value > 10 then
      Some(heading + ": Maximum rating must be greater than minimum rating and at most 10")
    else if q.defaultRating.None? || q.defaultRating.value < q.minRating.value ||
            q.defaultRating.value > q.maxRating.value then
      Some(heading + ": Default rating must be between minimum and maximum rating")
    else None
  }

  /** The option checks: at least two options, then the first blank one is reported. */
  function OptionsProblem(q: DraftQuestion, heading: string, ws: char -> bool): Option<string>
  {
    if q.options.None? || |q.options.value| < 2 then Some(heading + ": At least 2 options are required")
    else
      var j := FirstBlankOption(q.options.value, ws);
      if j < |q.options.value| then Some(heading + ", Option " + NatToString(j + 1) + ": Option text is required")
      else None
  }

  /** The date checks: a date format, and when both bounds are set, the minimum not later than the maximum. */
  function DateProblem(q: DraftQuestion, heading: string, later: (string, string) -> bool): Option<string>
  {
    if !Filled(q.dateFormat) then Some(heading + ": Date format is required")
    else if Filled(q.minDate) && Filled(q.maxDate) && later(q.minDate.value, q.maxDate.value) then
      Some(heading + ": Minimum date cannot be after maximum date")
    else None
  }

  /** The checks of the question's type, if any. */
  function TypeProblem(q: DraftQuestion, heading: string, ws: char -> bool, later: (string, string) -> bool)
    : Option<string>
  {
    match q.qtype
    case TextWithLimit =>
      if BadWordLimit(q) then Some(heading + ": Word limit must be between 1 and 1000") else None
    case SingleSelect => OptionsProblem(q, heading, ws)
    case MultipleChoice => OptionsProblem(q, heading, ws)
    case MultiSelect => OptionsProblem(q, heading, ws)
    case RatingScale => RatingProblem(q, heading)
    case Date => DateProblem(q, heading, later)
    case Text => None
  }

  /** The problem reported for the question numbered `n` (1-based), if any: its text first, then its type's checks. */
  function QuestionProblem(q: DraftQuestion, n: nat, ws: char -> bool, later: (string, string) -> bool): Option<string>
  {
    if Blank(q.text, ws) then Some(QuestionLabel(n) + " text is required")
    else TypeProblem(q, QuestionLabel(n), ws, later)
  }

  /** The first problem among the questions from index `k` on. */
  function FirstQuestionProblem(qs: seq<DraftQuestion>, k: nat, ws: char -> bool, later: (string, string) -> bool)
    : Option<string>
    decreases |qs| - k
  {
    if k >= |qs| then None
    else
      var p := QuestionProblem(qs[k], k + 1, ws, later);
      if p.Some? then p else FirstQuestionProblem(qs, k + 1, ws, later)
  }

  /** The problem the submit handler reports, or `None` when it goes on to create the form. */
  function SubmitProblem(form: DraftForm, ws: char -> bool, later: (string, string) -> bool): Option<string>
  {
    if Blank(form.title, ws) then Some(TitleRequired) else FirstQuestionProblem(form.questions, 0, ws, later)
  }

  /** From index `k`, no problem is found exactly when no question fails. */
  lemma {:induction false} NoQuestionProblemIff(qs: seq<DraftQuestion>, k: nat, ws: char -> bool,
                                                later: (string, string) -> bool)
    ensures FirstQuestionProblem(qs, k, ws, later).None? <==>
      forall i :: k <= i < |qs| ==> QuestionProblem(qs[i], i + 1, ws, later).None?
    decreases |qs| - k
  {
    if k < |qs| && QuestionProblem(qs[k], k + 1, ws, later).None? {
      NoQuestionProblemIff(qs, k + 1, ws, later);
    }
  }

  /** A problem found from index `k` is that of a failing question with no failing question before it. */
  lemma {:induction false} FirstFailingQuestion(qs: seq<DraftQuestion>, k: nat, ws: char -> bool,
                                                later: (string, string) -> bool)
    requires FirstQuestionProblem(qs, k, ws, later).Some?
    ensures exists i :: k <= i < |qs| &&
              QuestionProblem(qs[i], i + 1, ws, later) == FirstQuestionProblem(qs, k, ws, later) &&
              forall j :: k <= j < i ==> QuestionProblem(qs[j], j + 1, ws, later).None?
    decreases |qs| - k
  {
    var p := QuestionProblem(qs[k], k + 1, ws, later);
    if p.None? {
      FirstFailingQuestion(qs, k + 1, ws, later);
      var i :| k + 1 <= i < |qs| && QuestionProblem(qs[i], i + 1, ws, later) == FirstQuestionProblem(qs, k + 1, ws, later) &&
        forall j :: k + 1 <= j < i ==> QuestionProblem(qs[j], j + 1, ws, later).None?;
      assert k <= i;
    } else {
      assert QuestionProblem(qs[k], k + 1, ws, later) == FirstQuestionProblem(qs, k, ws, later);
    }
  }

  /**
   * From index `k`, the problem found is that of the lowest-numbered
   * failing question, and there is none exactly when no question fails.
   */
  lemma FirstQuestionProblemSpec(qs: seq<DraftQuestion>, k: nat, ws: char -> bool, later: (string, string) -> bool)
    ensures FirstQuestionProblem(qs, k, ws, later).None? <==>
      forall i :: k <= i < |qs| ==> QuestionProblem(qs[i], i + 1, ws, later).None?
    ensures FirstQuestionProblem(qs, k, ws, later).Some? ==>
      exists i :: k <= i < |qs| && QuestionProblem(qs[i], i + 1, ws, later) == FirstQuestionProblem(qs, k, ws, later) &&
        forall j :: k <= j < i ==> QuestionProblem(qs[j], j + 1, ws, later).None?
  {
    NoQuestionProblemIff(qs, k, ws, later);
    if FirstQuestionProblem(qs, k, ws, later).Some? {
      FirstFailingQuestion(qs, k, ws, later);
    }
  }

  /** The form is submitted exactly when the title is not blank and no question has a problem. */
  lemma SubmitProblemIff(form: DraftForm, ws: char -> bool, later: (string, string) -> bool)
    ensures SubmitProblem(form, ws, later).None? <==>
      !Blank(form.title, ws) &&
      forall i :: 0 <= i < |form.questions| ==> QuestionProblem(form.questions[i], i + 1, ws, later).None?
  {
    FirstQuestionProblemSpec(form.questions, 0, ws, later);
  }

  /** A TEXT_WITH_LIMIT question with text passes exactly when its word limit is between 1 and 1000. */
  lemma WordLimitCheck(q: DraftQuestion, n: nat, ws: char -> bool, later: (string, string) -> bool)
    requires q.qtype == TextWithLimit && !Blank(q.text, ws)
    ensures QuestionProblem(q, n, ws, later).None? <==> q.wordLimit.Some? && 1 <= q.wordLimit.value <= 1000
  {
  }

  /** A choice question with text passes exactly when it has at least two options, none of them blank. */
  lemma OptionsCheck(q: DraftQuestion, n: nat, ws: char -> bool, later: (string, string) -> bool)
    requires IsChoice(q.qtype) && !Blank(q.text, ws)
    ensures QuestionProblem(q, n, ws, later).None? <==>
      q.options.Some? && |q.options.value| >= 2 &&
      forall j :: 0 <= j < |q.options.value| ==> !Blank(q.options.value[j].text, ws)
  {
    if q.options.Some? && |q.options.value| >= 2 {
      var k := FirstBlankOption(q.options.value, ws);
      if k < |q.options.value| {
        assert !(forall j :: 0 <= j < |q.options.value| ==> !Blank(q.options.value[j].text, ws));
      }
    }
  }

  /**
   * A rating question with text passes exactly when its minimum is in 0..9,
   * its maximum above the minimum and at most 10, and its default between
   * the two.
   */
  lemma RatingCheck(q: DraftQuestion, n: nat, ws: char -> bool, later: (string, string) -> bool)
    requires q.qtype == RatingScale && !Blank(q.text, ws)
    ensures QuestionProblem(q, n, ws, later).None? <==>
      q.minRating.Some? && q.maxRating.Some? && q.defaultRating.Some? &&
      0 <= q.minRating.value <= 9 && q.minRating.value < q.maxRating.value <= 10 &&
      q.minRating.value <= q.defaultRating.value <= q.maxRating.value
  {
    assert QuestionProblem(q, n, ws, later) == RatingProblem(q, QuestionLabel(n));
    RatingProblemNone(q, QuestionLabel(n));
  }

  /** The rating checks pass exactly when all three ratings are present and ordered within range. */
  lemma RatingProblemNone(q: DraftQuestion, heading: string)
    ensures RatingProblem(q, heading).None? <==>
      q.minRating.Some? && q.maxRating.Some? && q.defaultRating.Some? &&
      0 <= q.minRating.value <= 9 && q.minRating.value < q.maxRating.value <= 10 &&
      q.minRating.value <= q.defaultRating.value <= q.maxRating.value
  {
    var r := RatingProblem(q, heading);
    if q.minRating.None? || q.minRating.value < 0 || q.minRating.value > 9 {
      assert r.Some?;
    } else if q.maxRating.None? || q.maxRating.value <= q.minRating.value || q.maxRating.value > 10 {
      assert r.Some?;
    } else if q.defaultRating.None? || q.defaultRating.value < q.minRating.value ||
              q.defaultRating.value > q.maxRating.value {
      assert r.Some?;
    } else {
      assert r.None?;
    }
  }

  /**
   * The defaults of a type change pass the submit checks: a question with
   * text, switched to TEXT_WITH_LIMIT, RATING_SCALE or DATE from TEXT,
   * has no problem.
   */
  lemma DefaultsPass(q: DraftQuestion, t: QuestionType, n: nat, ws: char -> bool, later: (string, string) -> bool)
    requires !Blank(q.text, ws) && (t == TextWithLimit || t == RatingScale || t == Date)
    ensures QuestionProblem(ChangeType(ChangeType(q, Text), t), n, ws, later).None?
  {
  }

  /** A question switched to a choice type from TEXT still fails: its fresh options are blank. */
  lemma FreshOptionsFail(q: DraftQuestion, t: QuestionType, n: nat, ws: char -> bool, later: (string, string) -> bool)
    requires !Blank(q.text, ws) && IsChoice(t)
    ensures QuestionProblem(ChangeType(ChangeType(q, Text), t), n, ws, later) ==
      Some(QuestionLabel(n) + ", Option 1: Option text is required")
  {
    var r := ChangeType(ChangeType(q, Text), t);
    var opts := r.options.value;
    assert opts[0].text == [];
    assert FirstBlankOption(opts, ws) == 0;
    assert TypeProblem(r, QuestionLabel(n), ws, later) == OptionsProblem(r, QuestionLabel(n), ws);
    FirstOptionMessage(QuestionLabel(n));
  }

  /** The message for a blank first option, with its number written out. */
  lemma FirstOptionMessage(heading: string)
    ensures heading + ", Option " + NatToString(0 + 1) + ": Option text is required" ==
            heading + ", Option 1: Option text is required"
  {
    assert NatToString(0 + 1) == "1";
  }

  /** The page's starting draft cannot be submitted: its title is empty. */
  lemma InitialFormRejected(ws: char -> bool, later: (string, string) -> bool)
    ensures SubmitProblem(InitialForm, ws, later) == Some(TitleRequired)
  {
    BlankIff([], ws);
  }

  /**
   * `handleSubmit`'s checks: the title, then each question in order (its
   * text, then its type's checks, the options one by one), stopping at the
   * first problem.  `None` means the form goes on to be created.
   */
  method HandleSubmit(form: DraftForm, ws: char -> bool, later: (string, string) -> bool) returns (error: Option<string>)
    ensures error == SubmitProblem(form, ws, later)
  {
    var blankTitle := IsBlank(form.title, ws);
    if blankTitle {
      return Some(TitleRequired);
    }
    var qs := form.questions;
    for i := 0 to |qs|
      invariant FirstQuestionProblem(qs, 0, ws, later) == FirstQuestionProblem(qs, i, ws, later)
    {
      var question := qs[i];
      var heading := QuestionLabel(i + 1);
      var blankText := IsBlank(question.text, ws);
      if blankText {
        return Some(heading + " text is required");
      }
      error := CheckType(question, heading, ws, later);
      if error.Some? {
        return;
      }
    }
    return None;
  }

  /** The `switch` on the question's type inside `handleSubmit`. */
  method CheckType(question: DraftQuestion, heading: string, ws: char -> bool, later: (string, string) -> bool)
    returns (error: Option<string>)
    ensures error == TypeProblem(question, heading, ws, later)
  {
    match question.qtype {
      case TextWithLimit =>
        if !Truthy(question.wordLimit) || question.wordLimit.value <= 0 || question.wordLimit.value > 1000 {
          return Some(heading + ": Word limit must be between 1 and 1000");
        }
        return None;
      case SingleSelect =>
        error := CheckOptions(question, heading, ws);
      case MultipleChoice =>
        error := CheckOptions(question, heading, ws);
      case MultiSelect =>
        error := CheckOptions(question, heading, ws);
      case RatingScale =>
        error := RatingProblem(question, heading);
      case Date =>
        error := DateProblem(question, heading, later);
      case Text =>
        return None;
    }
  }

  /** The option checks of `handleSubmit`: the count, then each option's text in order. */
  method CheckOptions(question: DraftQuestion, heading: string, ws: char -> bool) returns (error: Option<string>)
    ensures error == OptionsProblem(question, heading, ws)
  {
    if question.options.None? || |question.options.value| < 2 {
      return Some(heading + ": At least 2 options are required");
    }
    var opts := question.options.value;
    for j := 0 to |opts|
      invariant forall k :: 0 <= k < j ==> !Blank(opts[k].text, ws)
    {
      var blank := IsBlank(opts[j].text, ws);
      if blank {
        assert FirstBlankOption(opts, ws) == j;
        return Some(heading + ", Option " + NatToString(j + 1) + ": Option text is required");
      }
    }
    assert FirstBlankOption(opts, ws) == |opts|;
    return None;
  }
}
