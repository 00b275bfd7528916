/**
 * `PublicForm`: the page a respondent fills in.  It keeps one answer entry
 * per question, edits the entry of the question being answered, validates
 * the entries against the questions before submitting, submits only the
 * entries with text, and after submission offers the answers as a
 * two-column CSV file.
 *
 * JavaScript's whitespace class is the parameter `ws`; the comparison of
 * two dates through `new Date(...)` is the parameter `before`.
 */
module PublicForm {
  import opened Wrappers
  import opened Strings
  import opened Store
  import opened Client

  /** One answer entry.  `text` is always set; the other fields depend on the question's type. */
  datatype FormAnswer = FormAnswer(
    questionId: int,
    text: string,
    textValue: Option<string>,
    selectedOptionId: Option<int>,
    selectedOptionIds: Option<seq<int>>,
    rating: Option<int>,
    dateValue: Option<string>)

  // ---------------------------------------------------------------------------
  // Initial answers
  // ---------------------------------------------------------------------------

  /** The empty entry for a question: an empty text plus the type's own empty field. */
  function InitialAnswer(q: ClientQuestion): FormAnswer
  {
    var base := FormAnswer(q.id, [], None, None, None, None, None);
    match q.qtype
    case Text | TextWithLimit => base.(textValue := Some([]))
    case SingleSelect | MultipleChoice => base
    case MultiSelect => base.(selectedOptionIds := Some([]))
    case RatingScale => base.(rating := if Truthy(q.defaultRating) then q.defaultRating else None)
    case Date => base.(dateValue := Some([]))
  }

  /** One entry per question, in question order. */
  function InitialAnswers(qs: seq<ClientQuestion>): (r: seq<FormAnswer>)
    ensures |r| == |qs|
    ensures forall i :: 0 <= i < |qs| ==> r[i] == InitialAnswer(qs[i])
  {
    seq(|qs|, i requires 0 <= i < |qs| => InitialAnswer(qs[i]))
  }

  /**
   * Every initial entry carries its question's id and an empty text; a
   * rating starts at the question's default rating unless that is
   * undefined or 0; nothing is selected.
   */
  lemma InitialAnswersShape(qs: seq<ClientQuestion>, i: nat)
    requires i < |qs|
    ensures var a := InitialAnswers(qs)[i];
      a.questionId == qs[i].id && a.text == [] &&
      a.selectedOptionId == None &&
      (a.selectedOptionIds.Some? ==> a.selectedOptionIds.value == []) &&
      (a.textValue.Some? ==> a.textValue.value == []) &&
      (a.dateValue.Some? ==> a.dateValue.value == []) &&
      (qs[i].qtype == RatingScale && Truthy(qs[i].defaultRating) ==> a.rating == qs[i].defaultRating) &&
      (qs[i].qtype == RatingScale && !Truthy(qs[i].defaultRating) ==> a.rating == None)
  {
  }

  // ---------------------------------------------------------------------------
  // Editing an answer
  // ---------------------------------------------------------------------------

  /**
   * The value a question's input control hands over.  `NoOptionIn` is the
   * `undefined` that the MULTIPLE_CHOICE list hands over when its "Select
   * an option" entry is chosen.
   */
  datatype Input = TextIn(s: string) | OptionIn(id: int) | NoOptionIn | OptionsIn(ids: seq<int>) | RatingIn(n: int) | DateIn(d: string)

  /** The control of each question type hands over its own kind of value. */
  predicate Fits(t: QuestionType, v: Input)
  {
    match t
    case Text | TextWithLimit => v.TextIn?
    case SingleSelect => v.OptionIn?
    case MultipleChoice => v.OptionIn? || v.NoOptionIn?
    case MultiSelect => v.OptionsIn?
    case RatingScale => v.RatingIn?
    case Date => v.DateIn?
  }

  /** `ids.join(',')` for an array of numbers. */
  function JoinIds(ids: seq<int>): string
  {
    Join(seq(|ids|, i requires 0 <= i < |ids| => IntToString(ids[i])), ",")
  }

  /** The entry after its question received `v`: the type's field and the backward-compatible text. */
  function Changed(a: FormAnswer, t: QuestionType, v: Input): FormAnswer
    requires Fits(t, v) && !v.NoOptionIn?
  {
    match t
    case Text | TextWithLimit => a.(text := v.s, textValue := Some(v.s))
    case SingleSelect | MultipleChoice => a.(text := IntToString(v.id), selectedOptionId := Some(v.id))
    case MultiSelect => a.(text := JoinIds(v.ids), selectedOptionIds := Some(v.ids))
    case RatingScale => a.(text := IntToString(v.n), rating := Some(v.n))
    case Date => a.(text := v.d, dateValue := Some(v.d))
  }

  /** The `map` over the entries: those of question `qid` take the value, the others are kept. */
  function ChangeEntries(answers: seq<FormAnswer>, qid: int, t: QuestionType, v: Input): (r: seq<FormAnswer>)
    requires Fits(t, v) && !v.NoOptionIn?
    ensures |r| == |answers|
    ensures forall i :: 0 <= i < |answers| ==> r[i].questionId == answers[i].questionId
  {
    seq(|answers|, i requires 0 <= i < |answers| =>
      if answers[i].questionId == qid then Changed(answers[i], t, v) else answers[i])
  }

  /** Some entry belongs to question `qid`. */
  predicate HasEntry(answers: seq<FormAnswer>, qid: int)
  {
    exists i :: 0 <= i < |answers| && answers[i].questionId == qid
  }

  /** What a change leaves on the page: the entries and the errors on show, or a TypeError thrown. */
  datatype AnswerChange = Updated(answers: seq<FormAnswer>, errors: map<int, string>) | ThrowsTypeError

  /**
   * `handleAnswerChange`: every entry whose question id matches takes the
   * new value and every other entry is left exactly as it was; the
   * question's error, when one is on show (a non-empty message), is
   * deleted.  When the choice list hands over `undefined` and the question
   * has an entry, `value.toString()` throws a TypeError in the state
   * update, and neither update takes place.
   */
  function HandleAnswerChange(answers: seq<FormAnswer>, errors: map<int, string>, qid: int, t: QuestionType,
                              v: Input): (r: AnswerChange)
    requires Fits(t, v)
    ensures r.ThrowsTypeError? <==> v.NoOptionIn? && HasEntry(answers, qid)
    ensures r.Updated? ==> |r.answers| == |answers|
    ensures r.Updated? ==> forall i :: 0 <= i < |answers| && answers[i].questionId != qid ==> r.answers[i] == answers[i]
    ensures !v.NoOptionIn? ==> r.Updated?
    ensures !v.NoOptionIn? && r.Updated? ==>
      forall i :: 0 <= i < |answers| && answers[i].questionId == qid ==> r.answers[i] == Changed(answers[i], t, v)
    ensures r.Updated? && qid in errors && errors[qid] != [] ==> qid !in r.errors
    ensures r.Updated? ==> forall k :: k != qid ==> (k in r.errors <==> k in errors)
    ensures r.Updated? ==> forall k :: k in r.errors ==> k in errors && r.errors[k] == errors[k]
  {
    var shown := if qid in errors && errors[qid] != [] then errors - {qid} else errors;
    if !v.NoOptionIn? then Updated(ChangeEntries(answers, qid, t, v), shown)
    else if HasEntry(answers, qid) then ThrowsTypeError
    else Updated(answers, shown)
  }

  /** Handing over the same value twice is the same as handing it over once. */
  lemma HandleAnswerChangeIdempotent(answers: seq<FormAnswer>, errors: map<int, string>, qid: int, t: QuestionType,
                                     v: Input)
    requires Fits(t, v)
    ensures var r := HandleAnswerChange(answers, errors, qid, t, v);
      r.Updated? ==> HandleAnswerChange(r.answers, r.errors, qid, t, v) == r
  {
    var r := HandleAnswerChange(answers, errors, qid, t, v);
    if r.Updated? {
      var r2 := HandleAnswerChange(r.answers, r.errors, qid, t, v);
      if v.NoOptionIn? {
        assert r.answers == answers;
      } else {
        assert r2.answers == r.answers;
      }
    }
  }

  // ---------------------------------------------------------------------------
  // Validation
  // ---------------------------------------------------------------------------

  /** The index of the first entry for question `qid`, or the length when there is none. */
  function AnswerIndex(answers: seq<FormAnswer>, qid: int): (i: nat)
    ensures i <= |answers|
    ensures i < |answers| ==> answers[i].questionId == qid
    ensures forall j :: 0 <= j < i ==> answers[j].questionId != qid
  {
    if answers == [] || answers[0].questionId == qid then 0 else 1 + AnswerIndex(answers[1..], qid)
  }

  /** The first entry for a question is found at the same place in any entries with the same ids in the same order. */
  lemma {:induction false} AnswerIndexKept(answers: seq<FormAnswer>, r: seq<FormAnswer>, qid: int)
    requires |r| == |answers| && forall i :: 0 <= i < |r| ==> r[i].questionId == answers[i].questionId
    ensures AnswerIndex(r, qid) == AnswerIndex(answers, qid)
    decreases |r|
  {
    if r != [] && r[0].questionId != qid {
      AnswerIndexKept(answers[1..], r[1..], qid);
    }
  }

  /** `answers.find(a => a.questionId === qid)`. */
  function FindAnswer(answers: seq<FormAnswer>, qid: int): (r: Option<FormAnswer>)
    ensures r.None? <==> forall a :: a in answers ==> a.questionId != qid
    ensures r.Some? ==> r.value == answers[AnswerIndex(answers, qid)]
  {
    var i := AnswerIndex(answers, qid);
    if i < |answers| then Some(answers[i]) else None
  }

  const RequiresAnswer := "This question requires an answer"
  const SelectOption := "Please select an option"
  const SelectAtLeastOne := "Please select at least one option"
  const SelectRating := "Please select a rating"
  const SelectDate := "Please select a date"

  function ExceedsLimit(limit: int): string
  {
    "Response exceeds the " + IntToString(limit) + " word limit"
  }

  function RatingAtLeast(min: int): string
  {
    "Rating must be at least " + IntToString(min)
  }

  function RatingAtMost(max: int): string
  {
    "Rating must be at most " + IntToString(max)
  }

  /** `!s || !s.trim()`: undefined, empty or whitespace only. */
  predicate Missing(s: Option<string>, ws: char -> bool)
  {
    !Filled(s) || Blank(s.value, ws)
  }

  /**
   * The error of one question, if any, given its entry (`None` when the
   * entry is missing).  The date bounds are compared with `before`, which
   * stands for `new Date(a) < new Date(b)`.
   */
  function QuestionError(q: ClientQuestion, a: Option<FormAnswer>, ws: char -> bool,
                         before: (string, string) -> bool): Option<string>
  {
    if a.None? then (if q.required then Some(RequiresAnswer) else None)
    else
      var x := a.value;
      match q.qtype
      case Text =>
        if q.required && Missing(x.textValue, ws) then Some(RequiresAnswer) else None
      case TextWithLimit =>
        if q.required && Missing(x.textValue, ws) then Some(RequiresAnswer)
        else if Filled(x.textValue) && Truthy(q.wordLimit) && JsWordCount(x.textValue.value, ws) > q.wordLimit.value
        then Some(ExceedsLimit(q.wordLimit.value))
        else None
      case SingleSelect | MultipleChoice =>
        if q.required && x.selectedOptionId.None? then Some(SelectOption) else None
      case MultiSelect =>
        if q.required && (x.selectedOptionIds.None? || |x.selectedOptionIds.value| == 0) then Some(SelectAtLeastOne)
        else None
      case RatingScale =>
        if q.required && x.rating.None? then Some(SelectRating)
        else if x.rating.Some? && q.minRating.Some? && x.rating.value < q.minRating.value
        then Some(RatingAtLeast(q.minRating.value))
        else if x.rating.Some? && q.maxRating.Some? && x.rating.value > q.maxRating.value
        then Some(RatingAtMost(q.maxRating.value))
        else None
      case Date =>
        if q.required && Missing(x.dateValue, ws) then Some(SelectDate)
        else if Filled(x.dateValue) && Filled(q.minDate) && before(x.dateValue.value, q.minDate.value)
        then Some("Date must be on or after " + q.minDate.value)
        else if Filled(x.dateValue) && Filled(q.maxDate) && before(q.maxDate.value, x.dateValue.value)
        then Some("Date must be on or before " + q.maxDate.value)
        else None
  }

  /** The error of question `q` against the entries. */
  function ErrorOf(q: ClientQuestion, answers: seq<FormAnswer>, ws: char -> bool,
                   before: (string, string) -> bool): Option<string>
  {
    QuestionError(q, FindAnswer(answers, q.id), ws, before)
  }

  /** The errors record after visiting `qs` in order: each error is stored under its question's id. */
  function ErrorsOf(qs: seq<ClientQuestion>, answers: seq<FormAnswer>, ws: char -> bool,
                    before: (string, string) -> bool): map<int, string>
    decreases |qs|
  {
    if qs == [] then map[]
    else
      var m := ErrorsOf(qs[..|qs| - 1], answers, ws, before);
      var q := qs[|qs| - 1];
      match ErrorOf(q, answers, ws, before)
      case Some(e) => m[q.id := e]
      case None => m
  }

  /** No question has an error. */
  predicate AllAnswered(qs: seq<ClientQuestion>, answers: seq<FormAnswer>, ws: char -> bool,
                        before: (string, string) -> bool)
  {
    forall i :: 0 <= i < |qs| ==> ErrorOf(qs[i], answers, ws, before).None?
  }

  /**
   * `validateForm`: visits every question, records each error under the
   * question's id, and clears the valid flag on every error.
   */
  method ValidateForm(qs: seq<ClientQuestion>, answers: seq<FormAnswer>, ws: char -> bool,
                      before: (string, string) -> bool)
    returns (errors: map<int, string>, isValid: bool)
    ensures errors == ErrorsOf(qs, answers, ws, before)
    ensures isValid <==> AllAnswered(qs, answers, ws, before)
  {
    errors := map[];
    isValid := true;
    var i := 0;
    while i < |qs|
      invariant 0 <= i <= |qs|
      invariant errors == ErrorsOf(qs[..i], answers, ws, before)
      invariant isValid <==> AllAnswered(qs[..i], answers, ws, before)
    {
      var q := qs[i];
      var answer := FindAnswer(answers, q.id);
      var error := QuestionError(q, answer, ws, before);
      if error.Some? {
        errors := errors[q.id := error.value];
        isValid := false;
      }
      assert qs[..i + 1][..i] == qs[..i];
      i := i + 1;
    }
    assert qs[..i] == qs;
  }

  /**
   * The errors record names exactly the ids of the questions that have an
   * error, so it is empty exactly when the form is valid.
   */
  lemma {:induction false} ErrorsOfKeys(qs: seq<ClientQuestion>, answers: seq<FormAnswer>, ws: char -> bool,
                                        before: (string, string) -> bool)
    ensures forall id :: id in ErrorsOf(qs, answers, ws, before) <==>
      exists i :: 0 <= i < |qs| && qs[i].id == id && ErrorOf(qs[i], answers, ws, before).Some?
    ensures ErrorsOf(qs, answers, ws, before) == map[] <==> AllAnswered(qs, answers, ws, before)
    decreases |qs|
  {
    if qs != [] {
      var init := qs[..|qs| - 1];
      ErrorsOfKeys(init, answers, ws, before);
      forall id | exists i :: 0 <= i < |qs| && qs[i].id == id && ErrorOf(qs[i], answers, ws, before).Some?
        ensures id in ErrorsOf(qs, answers, ws, before)
      {
        var i :| 0 <= i < |qs| && qs[i].id == id && ErrorOf(qs[i], answers, ws, before).Some?;
        if i < |qs| - 1 {
          assert init[i] == qs[i];
        }
      }
      forall id | id in ErrorsOf(qs, answers, ws, before)
        ensures exists i :: 0 <= i < |qs| && qs[i].id == id && ErrorOf(qs[i], answers, ws, before).Some?
      {
        if id in ErrorsOf(init, answers, ws, before) {
          var i :| 0 <= i < |init| && init[i].id == id && ErrorOf(init[i], answers, ws, before).Some?;
          assert qs[i] == init[i];
        }
      }
      if !AllAnswered(qs, answers, ws, before) {
        var i :| 0 <= i < |qs| && ErrorOf(qs[i], answers, ws, before).Some?;
        assert qs[i].id in ErrorsOf(qs, answers, ws, before);
      }
      if ErrorsOf(qs, answers, ws, before) != map[] {
        var id :| id in ErrorsOf(qs, answers, ws, before);
      }
    }
  }

  /** With distinct question ids, each question's own error is what the record holds under its id. */
  lemma {:induction false} ErrorsOfDistinct(qs: seq<ClientQuestion>, answers: seq<FormAnswer>, ws: char -> bool,
                                            before: (string, string) -> bool, k: nat)
    requires forall i, j :: 0 <= i < j < |qs| ==> qs[i].id != qs[j].id
    requires k < |qs| && ErrorOf(qs[k], answers, ws, before).Some?
    ensures qs[k].id in ErrorsOf(qs, answers, ws, before)
    ensures ErrorsOf(qs, answers, ws, before)[qs[k].id] == ErrorOf(qs[k], answers, ws, before).value
    decreases |qs|
  {
    var init := qs[..|qs| - 1];
    if k < |qs| - 1 {
      assert init[k] == qs[k];
      ErrorsOfDistinct(init, answers, ws, before, k);
    }
  }

  /** Every error message is non-empty, so every recorded error is truthy and shown. */
  lemma QuestionErrorNonEmpty(q: ClientQuestion, a: Option<FormAnswer>, ws: char -> bool,
                              before: (string, string) -> bool)
    ensures QuestionError(q, a, ws, before).Some? ==> QuestionError(q, a, ws, before).value != []
  {
  }

  /** The errors record holds only non-empty messages. */
  lemma {:induction false} ErrorsOfNonEmpty(qs: seq<ClientQuestion>, answers: seq<FormAnswer>, ws: char -> bool,
                                            before: (string, string) -> bool)
    ensures forall id :: id in ErrorsOf(qs, answers, ws, before) ==> ErrorsOf(qs, answers, ws, before)[id] != []
    decreases |qs|
  {
    if qs != [] {
      var q := qs[|qs| - 1];
      ErrorsOfNonEmpty(qs[..|qs| - 1], answers, ws, before);
      QuestionErrorNonEmpty(q, FindAnswer(answers, q.id), ws, before);
    }
  }

  /**
   * After a submit attempt has put the validation errors on show, changing
   * a question's answer takes that question's error off the page at once,
   * and leaves every other question's error as it was.
   */
  lemma ChangeHidesShownError(qs: seq<ClientQuestion>, validated: seq<FormAnswer>, answers: seq<FormAnswer>,
                              qid: int, t: QuestionType, v: Input, ws: char -> bool, before: (string, string) -> bool)
    requires Fits(t, v)
    ensures var errors := ErrorsOf(qs, validated, ws, before);
      var r := HandleAnswerChange(answers, errors, qid, t, v);
      r.Updated? ==> qid !in r.errors && forall k :: k != qid && k in errors ==> k in r.errors && r.errors[k] == errors[k]
  {
    ErrorsOfNonEmpty(qs, validated, ws, before);
  }

  // ---------------------------------------------------------------------------
  // Answering clears the required-answer errors
  // ---------------------------------------------------------------------------

  /** A value that counts as an answer for its type: non-blank text or date, a non-empty selection. */
  predicate Answers(t: QuestionType, v: Input, ws: char -> bool)
  {
    match v
    case TextIn(s) => !Blank(s, ws)
    case OptionIn(_) => true
    case NoOptionIn => false
    case OptionsIn(ids) => |ids| > 0
    case RatingIn(_) => true
    case DateIn(d) => !Blank(d, ws)
  }

  /**
   * Once a TEXT, choice, multi-select or rating question has received a
   * value that counts as an answer, it has no error unless the rating is
   * out of bounds; so the "requires an answer" kind of error is gone.
   */
  lemma AnsweringClearsError(answers: seq<FormAnswer>, errors: map<int, string>, q: ClientQuestion, v: Input,
                             ws: char -> bool, before: (string, string) -> bool)
    requires Fits(q.qtype, v) && Answers(q.qtype, v, ws)
    requires FindAnswer(answers, q.id).Some?
    requires q.qtype != TextWithLimit && q.qtype != Date
    requires q.qtype == RatingScale ==>
      (q.minRating.None? || v.n >= q.minRating.value) && (q.maxRating.None? || v.n <= q.maxRating.value)
    ensures var r := HandleAnswerChange(answers, errors, q.id, q.qtype, v);
      r.Updated? && ErrorOf(q, r.answers, ws, before) == None
  {
    var r := HandleAnswerChange(answers, errors, q.id, q.qtype, v);
    AnswerIndexKept(answers, r.answers, q.id);
    BlankIff([], ws);
  }

  // ---------------------------------------------------------------------------
  // Submission
  // ---------------------------------------------------------------------------

  /** The submit filter's test: the entry's text is not blank. */
  function KeepFilled(ws: char -> bool): FormAnswer -> bool
  {
    (a: FormAnswer) => !Blank(a.text, ws)
  }

  /** `answers.filter(a => a.text.trim() !== '')`: the entries with text, in order. */
  function FilledAnswers(answers: seq<FormAnswer>, ws: char -> bool): (r: seq<FormAnswer>)
    ensures forall a :: a in r <==> a in answers && !Blank(a.text, ws)
    ensures |r| <= |answers|
  {
    FilterMembers(answers, KeepFilled(ws));
    Filter(answers, KeepFilled(ws))
  }

  /** `respondentName.trim() || 'Anonymous'`. */
  function RespondentName(name: string, ws: char -> bool): (r: string)
    ensures r != []
    ensures Blank(name, ws) ==> r == "Anonymous"
    ensures !Blank(name, ws) ==> r == Trim(name, ws)
  {
    if Trim(name, ws) != [] then Trim(name, ws) else "Anonymous"
  }

  /** What is sent to the server. */
  datatype Submission = Submission(formId: int, respondentName: string, answers: seq<FormAnswer>)

  /**
   * `handleSubmit`: validates, and only when every question passes sends
   * the entries with text under the trimmed name or "Anonymous".
   */
  method HandleSubmit(formId: int, qs: seq<ClientQuestion>, answers: seq<FormAnswer>, name: string,
                      ws: char -> bool, before: (string, string) -> bool)
    returns (sent: Option<Submission>, errors: map<int, string>)
    ensures sent.Some? <==> AllAnswered(qs, answers, ws, before)
    ensures sent.Some? ==> sent.value == Submission(formId, RespondentName(name, ws), FilledAnswers(answers, ws))
    ensures errors == ErrorsOf(qs, answers, ws, before)
  {
    var isValid;
    errors, isValid := ValidateForm(qs, answers, ws, before);
    if !isValid {
      return None, errors;
    }
    var filled := FilledAnswers(answers, ws);
    sent := Some(Submission(formId, RespondentName(name, ws), filled));
  }

  /** Straight after loading nothing has text, so a submission would send no answers at all. */
  lemma InitialAnswersUnfilled(qs: seq<ClientQuestion>, ws: char -> bool)
    ensures FilledAnswers(InitialAnswers(qs), ws) == []
  {
    BlankIff([], ws);
    var init := InitialAnswers(qs);
    forall t | 0 <= t < |init| ensures !KeepFilled(ws)(init[t]) {
      InitialAnswersShape(qs, t);
    }
    FilterNone(init, KeepFilled(ws));
  }

  // ---------------------------------------------------------------------------
  // CSV download
  // ---------------------------------------------------------------------------

  /** The text of the answer column for question `q`, given its entry. */
  function AnswerText(q: ClientQuestion, a: Option<FormAnswer>): string
  {
    match q.qtype
    case Text | TextWithLimit => if a.Some? then OrEmpty(a.value.textValue) else []
    case SingleSelect | MultipleChoice =>
      if a.Some? && a.value.selectedOptionId.Some? then OptionText(q.options, a.value.selectedOptionId.value)
      else []
    case MultiSelect =>
      if a.Some? && a.value.selectedOptionIds.Some? && |a.value.selectedOptionIds.value| > 0 then
        var ids := a.value.selectedOptionIds.value;
        var texts := seq(|ids|, i requires 0 <= i < |ids| => OptionText(q.options, ids[i]));
        Join(Filter(texts, (t: string) => t != []), ", ")
      else []
    case RatingScale => if a.Some? && a.value.rating.Some? then IntToString(a.value.rating.value) else []
    case Date => if a.Some? then OrEmpty(a.value.dateValue) else []
  }

  const CsvHeader := "Question,Answer"

  /** A row: the question's text and the answer text, each quoted with embedded quotes doubled. */
  function CsvRow(q: ClientQuestion, answers: seq<FormAnswer>): string
  {
    Quote(q.text) + "," + Quote(AnswerText(q, FindAnswer(answers, q.id)))
  }

  /** The lines of the download: the header, then one row per question in order. */
  function CsvLines(qs: seq<ClientQuestion>, answers: seq<FormAnswer>): (ls: seq<string>)
    ensures |ls| == |qs| + 1 && ls[0] == CsvHeader
    ensures forall i :: 0 <= i < |qs| ==> ls[i + 1] == CsvRow(qs[i], answers)
  {
    [CsvHeader] + seq(|qs|, i requires 0 <= i < |qs| => CsvRow(qs[i], answers))
  }

  /** `downloadCSV`: the lines joined by line breaks, the last one unterminated. */
  function DownloadCsv(qs: seq<ClientQuestion>, answers: seq<FormAnswer>): string
  {
    Join(CsvLines(qs, answers), "\n")
  }

  /** The values a reader should find: the two column names, then each question's text and answer text. */
  function CsvValues(qs: seq<ClientQuestion>, answers: seq<FormAnswer>): (vs: seq<seq<string>>)
    ensures |vs| == |qs| + 1 && vs[0] == ["Question", "Answer"]
    ensures forall i :: 0 <= i < |qs| ==> vs[i + 1] == [qs[i].text, AnswerText(qs[i], FindAnswer(answers, qs[i].id))]
  {
    [["Question", "Answer"]] +
    seq(|qs|, i requires 0 <= i < |qs| => [qs[i].text, AnswerText(qs[i], FindAnswer(answers, qs[i].id))])
  }

  /** The cells of each line, as written. */
  function CsvCells(qs: seq<ClientQuestion>, answers: seq<FormAnswer>): (cs: seq<seq<string>>)
    ensures |cs| == |qs| + 1 && cs[0] == ["Question", "Answer"]
    ensures forall i :: 0 <= i < |qs| ==>
      cs[i + 1] == [Quote(qs[i].text), Quote(AnswerText(qs[i], FindAnswer(answers, qs[i].id)))]
  {
    [["Question", "Answer"]] +
    seq(|qs|, i requires 0 <= i < |qs| => [Quote(qs[i].text), Quote(AnswerText(qs[i], FindAnswer(answers, qs[i].id)))])
  }

  lemma CsvCellsRender(qs: seq<ClientQuestion>, answers: seq<FormAnswer>)
    ensures var cs, vs := CsvCells(qs, answers), CsvValues(qs, answers);
      forall i, j :: 0 <= i < |cs| && 0 <= j < |cs[i]| ==> |cs[i]| == |vs[i]| && Renders(cs[i][j], vs[i][j])
  {
    var cs, vs := CsvCells(qs, answers), CsvValues(qs, answers);
    assert All("Question", IsBare) && All("Answer", IsBare);
    forall i, j | 0 <= i < |cs| && 0 <= j < |cs[i]| ensures |cs[i]| == |vs[i]| && Renders(cs[i][j], vs[i][j]) {
      if i > 0 {
        assert cs[i] == [Quote(qs[i - 1].text), Quote(AnswerText(qs[i - 1], FindAnswer(answers, qs[i - 1].id)))];
      }
    }
  }

  /** A two-cell line is the first cell, a comma and the second cell. */
  lemma PairLine(a: string, b: string)
    ensures RecordLine([a, b]) == a + "," + b
  {
    assert [a, b][1..] == [b];
    assert Fields([b]) == Fields([]) + "," + b;
  }

  lemma CsvCellsLines(qs: seq<ClientQuestion>, answers: seq<FormAnswer>)
    ensures var cs := CsvCells(qs, answers);
      seq(|cs|, i requires 0 <= i < |cs| => RecordLine(cs[i])) == CsvLines(qs, answers)
  {
    var cs, ls := CsvCells(qs, answers), CsvLines(qs, answers);
    forall i | 0 <= i < |cs| ensures RecordLine(cs[i]) == ls[i] {
      if i > 0 {
        PairLine(Quote(qs[i - 1].text), Quote(AnswerText(qs[i - 1], FindAnswer(answers, qs[i - 1].id))));
      } else {
        PairLine("Question", "Answer");
      }
    }
  }

  /**
   * Read as CSV (with the last line terminated), the download gives back
   * the header and, for every question in order, its text and its answer
   * text, whatever quotes, commas or line breaks they contain.
   */
  lemma DownloadCsvReadsBack(qs: seq<ClientQuestion>, answers: seq<FormAnswer>)
    ensures ReadRecords(DownloadCsv(qs, answers) + "\n") == Some(CsvValues(qs, answers))
  {
    CsvCellsRender(qs, answers);
    RecordsRoundTrip(CsvCells(qs, answers), CsvValues(qs, answers));
    CsvCellsLines(qs, answers);
    JoinTerminated(CsvLines(qs, answers));
  }

  /** After a choice question received option `o`, the download shows that option's text as its answer. */
  lemma CsvShowsChosenOption(answers: seq<FormAnswer>, errors: map<int, string>, q: ClientQuestion, k: nat)
    requires q.qtype == SingleSelect || q.qtype == MultipleChoice
    requires k < |q.options| && forall j :: 0 <= j < k ==> q.options[j].id != q.options[k].id
    requires FindAnswer(answers, q.id).Some?
    ensures var r := HandleAnswerChange(answers, errors, q.id, q.qtype, OptionIn(q.options[k].id));
      r.Updated? && AnswerText(q, FindAnswer(r.answers, q.id)) == q.options[k].text
  {
    var r := HandleAnswerChange(answers, errors, q.id, q.qtype, OptionIn(q.options[k].id));
    AnswerIndexKept(answers, r.answers, q.id);
    OptionTextOfFirst(q.options, k);
  }
}
