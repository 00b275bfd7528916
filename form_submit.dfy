/**
 * `FormSubmit`: the older respondent page.  It keeps one answer entry per
 * question (a text, a selected option and a rating value) and, before
 * submitting, counts the required questions it considers unanswered.
 *
 * The question's type arrives as the server's type name (`TypeName`).
 * The page tests it against `'RATING'`, which is not the name of any
 * question type; `Unanswered` takes the tested name as a parameter so that
 * both that test and the evidently intended `'RATING_SCALE'` can be stated.
 */
module FormSubmit {
  import opened Wrappers
  import opened Strings
  import opened Store
  import opened Client

  /** One answer entry of the page. */
  datatype SubmitAnswer = SubmitAnswer(
    questionId: int,
    textAnswer: string,
    selectedOption: Option<int>,
    ratingValue: Option<int>)

  /** One empty entry per question, in question order: empty text, no option, no rating. */
  function InitialAnswers(qs: seq<ClientQuestion>): (r: seq<SubmitAnswer>)
    ensures |r| == |qs|
    ensures forall i :: 0 <= i < |qs| ==>
      r[i].questionId == qs[i].id && r[i].textAnswer == [] && r[i].selectedOption.None? && r[i].ratingValue.None?
  {
    seq(|qs|, i requires 0 <= i < |qs| => SubmitAnswer(qs[i].id, [], None, None))
  }

  /** `handleTextAnswerChange`: only the entries of question `qid` take the new text. */
  function HandleTextAnswerChange(answers: seq<SubmitAnswer>, qid: int, value: string): (r: seq<SubmitAnswer>)
    ensures |r| == |answers|
    ensures forall i :: 0 <= i < |answers| ==>
      r[i] == if answers[i].questionId == qid then answers[i].(textAnswer := value) else answers[i]
  {
    seq(|answers|, i requires 0 <= i < |answers| =>
      if answers[i].questionId == qid then answers[i].(textAnswer := value) else answers[i])
  }

  /** `handleOptionSelect`: only the entries of question `qid` take the selected option. */
  function HandleOptionSelect(answers: seq<SubmitAnswer>, qid: int, optionId: int): (r: seq<SubmitAnswer>)
    ensures |r| == |answers|
    ensures forall i :: 0 <= i < |answers| ==>
      r[i] == if answers[i].questionId == qid then answers[i].(selectedOption := Some(optionId)) else answers[i]
  {
    seq(|answers|, i requires 0 <= i < |answers| =>
      if answers[i].questionId == qid then answers[i].(selectedOption := Some(optionId)) else answers[i])
  }

  /** `handleRatingChange`: only the entries of question `qid` take the rating. */
  function HandleRatingChange(answers: seq<SubmitAnswer>, qid: int, value: int): (r: seq<SubmitAnswer>)
    ensures |r| == |answers|
    ensures forall i :: 0 <= i < |answers| ==>
      r[i] == if answers[i].questionId == qid then answers[i].(ratingValue := Some(value)) else answers[i]
  {
    seq(|answers|, i requires 0 <= i < |answers| =>
      if answers[i].questionId == qid then answers[i].(ratingValue := Some(value)) else answers[i])
  }

  /** The index of the first entry for question `qid`, or the length when there is none. */
  function EntryIndex(answers: seq<SubmitAnswer>, qid: int): (i: nat)
    ensures i <= |answers|
    ensures i < |answers| ==> answers[i].questionId == qid
    ensures forall j :: 0 <= j < i ==> answers[j].questionId != qid
  {
    if answers == [] || answers[0].questionId == qid then 0 else 1 + EntryIndex(answers[1..], qid)
  }

  /** The first entry for a question sits at the same index after any handler, which keeps every id. */
  lemma {:induction false} EntryIndexKept(answers: seq<SubmitAnswer>, r: seq<SubmitAnswer>, qid: int)
    requires |r| == |answers| && forall i :: 0 <= i < |r| ==> r[i].questionId == answers[i].questionId
    ensures EntryIndex(r, qid) == EntryIndex(answers, qid)
    decreases |r|
  {
    if r != [] && r[0].questionId != qid {
      EntryIndexKept(answers[1..], r[1..], qid);
    }
  }

  /** `answers.find(a => a.questionId === qid)`. */
  function FindEntry(answers: seq<SubmitAnswer>, qid: int): (r: Option<SubmitAnswer>)
    ensures r.None? <==> forall a :: a in answers ==> a.questionId != qid
    ensures r.Some? ==> r.value == answers[EntryIndex(answers, qid)]
  {
    var i := EntryIndex(answers, qid);
    if i < |answers| then Some(answers[i]) else None
  }

  /**
   * The filter test of `validateForm`: a required question is unanswered
   * when it has no entry; a TEXT question when its text is empty or
   * whitespace; a MULTIPLE_CHOICE question when no option is selected; a
   * question whose type name is `ratingName` when it has no rating; and a
   * question of any other type always.
   */
  predicate Unanswered(q: ClientQuestion, answers: seq<SubmitAnswer>, ws: char -> bool, ratingName: string)
  {
    if !q.required then false
    else
      match FindEntry(answers, q.id)
      case None => true
      case Some(a) =>
        if TypeName(q.qtype) == "TEXT" then a.textAnswer == [] || Blank(a.textAnswer, ws)
        else if TypeName(q.qtype) == "MULTIPLE_CHOICE" then a.selectedOption.None?
        else if TypeName(q.qtype) == ratingName then a.ratingValue.None?
        else true
  }

  /** The name the page tests for rating questions. */
  const RatingNameAsWritten := "RATING"

  /** The required questions the page counts as unanswered, in form order. */
  function UnansweredQuestions(qs: seq<ClientQuestion>, answers: seq<SubmitAnswer>, ws: char -> bool,
                               ratingName: string): (r: seq<ClientQuestion>)
    ensures forall q :: q in r <==> q in qs && Unanswered(q, answers, ws, ratingName)
    ensures forall q :: q in r ==> q.required
    ensures |r| <= |qs|
  {
    var keep := (q: ClientQuestion) => Unanswered(q, answers, ws, ratingName);
    FilterMembers(qs, keep);
    Filter(qs, keep)
  }

  /** The evidently intended name: the rating question type's own name, `'RATING_SCALE'`. */
  const RatingName := TypeName(RatingScale)

  /**
   * `validateForm` with the rating test against `ratingName`: valid, or
   * invalid with the message that reports how many questions are
   * unanswered.  The page as written passes `RatingNameAsWritten`.
   */
  function ValidateForm(qs: seq<ClientQuestion>, answers: seq<SubmitAnswer>, ws: char -> bool, ratingName: string)
    : (r: Result<(), string>)
    ensures r.Ok? <==> forall q :: q in qs ==> !Unanswered(q, answers, ws, ratingName)
    ensures r.Err? ==> (r.error ==
      "Please answer all required questions (" +
      NatToString(|UnansweredQuestions(qs, answers, ws, ratingName)|) + " unanswered).")
  {
    var n := |UnansweredQuestions(qs, answers, ws, ratingName)|;
    if n > 0 then
      assert UnansweredQuestions(qs, answers, ws, ratingName)[0] in UnansweredQuestions(qs, answers, ws, ratingName);
      Err("Please answer all required questions (" + NatToString(n) + " unanswered).")
    else Ok(())
  }

  /** Only required questions are ever counted. */
  lemma OptionalNeverCounted(q: ClientQuestion, answers: seq<SubmitAnswer>, ws: char -> bool, ratingName: string)
    requires !q.required
    ensures !Unanswered(q, answers, ws, ratingName)
  {
  }

  /**
   * As written, a required question that is neither TEXT nor
   * MULTIPLE_CHOICE is counted as unanswered whatever its entry holds,
   * because no type is named `'RATING'`; so a form with such a question can
   * never pass the check.
   */
  lemma RequiredOtherTypesAlwaysUnanswered(q: ClientQuestion, answers: seq<SubmitAnswer>, ws: char -> bool)
    requires q.required && q.qtype != Text && q.qtype != MultipleChoice
    ensures Unanswered(q, answers, ws, RatingNameAsWritten)
    ensures ValidateForm([q], answers, ws, RatingNameAsWritten).Err?
  {
    assert TypeName(q.qtype) != "TEXT" && TypeName(q.qtype) != "MULTIPLE_CHOICE";
    assert q in [q];
  }

  /**
   * The example: a form whose one question is a required RATING_SCALE
   * question is reported as having 1 unanswered question, whatever its
   * entry holds.  The page renders rating buttons only for `'RATING'`, so
   * the entry is never rated anyway.
   */
  lemma RatedQuestionReportedUnanswered(q: ClientQuestion, answers: seq<SubmitAnswer>, ws: char -> bool)
    requires q.required && q.qtype == RatingScale
    ensures ValidateForm([q], answers, ws, RatingNameAsWritten) ==
            Err("Please answer all required questions (1 unanswered).")
  {
    RequiredOtherTypesAlwaysUnanswered(q, answers, ws);
    var u := UnansweredQuestions([q], answers, ws, RatingNameAsWritten);
    assert q in u;
    assert |u| == 1;
    assert NatToString(1) == "1";
    var r := ValidateForm([q], answers, ws, RatingNameAsWritten);
    assert r.error == "Please answer all required questions (" + NatToString(|u|) + " unanswered).";
    assert r.error == "Please answer all required questions (" + "1" + " unanswered).";
    assert "Please answer all required questions (" + "1" + " unanswered)." ==
           "Please answer all required questions (1 unanswered).";
  }

  /**
   * With the intended name `'RATING_SCALE'`, a required rating question
   * counts as answered exactly when its entry holds a rating; after
   * `handleRatingChange` it does.
   */
  lemma IntendedRatingTest(q: ClientQuestion, answers: seq<SubmitAnswer>, ws: char -> bool, value: int)
    requires q.required && q.qtype == RatingScale
    requires FindEntry(answers, q.id).Some?
    ensures Unanswered(q, answers, ws, RatingName) <==> FindEntry(answers, q.id).value.ratingValue.None?
    ensures !Unanswered(q, HandleRatingChange(answers, q.id, value), ws, RatingName)
  {
    EntryIndexKept(answers, HandleRatingChange(answers, q.id, value), q.id);
  }

  /**
   * With the intended name, the same example passes: a form whose one
   * required question is a rating question is valid once it is rated.
   * Rating it also needs the render test to name `'RATING_SCALE'`, so that
   * the page shows the rating buttons that call `handleRatingChange`.
   */
  lemma RatedQuestionAccepted(q: ClientQuestion, ws: char -> bool, value: int)
    requires q.required && q.qtype == RatingScale
    ensures ValidateForm([q], HandleRatingChange(InitialAnswers([q]), q.id, value), ws, RatingName).Ok?
  {
    var answers := InitialAnswers([q]);
    assert FindEntry(answers, q.id).Some? by {
      assert answers[0] in answers;
    }
    IntendedRatingTest(q, answers, ws, value);
  }

  /** A required TEXT question with an entry counts as answered once it has been given non-blank text. */
  lemma TextAnswerCounts(q: ClientQuestion, answers: seq<SubmitAnswer>, ws: char -> bool, value: string)
    requires q.required && q.qtype == Text && !Blank(value, ws)
    requires FindEntry(answers, q.id).Some?
    ensures !Unanswered(q, HandleTextAnswerChange(answers, q.id, value), ws, RatingNameAsWritten)
  {
    EntryIndexKept(answers, HandleTextAnswerChange(answers, q.id, value), q.id);
    BlankIff([], ws);
  }

  /** A required MULTIPLE_CHOICE question with an entry counts as answered once an option is selected. */
  lemma OptionAnswerCounts(q: ClientQuestion, answers: seq<SubmitAnswer>, ws: char -> bool, optionId: int)
    requires q.required && q.qtype == MultipleChoice
    requires FindEntry(answers, q.id).Some?
    ensures !Unanswered(q, HandleOptionSelect(answers, q.id, optionId), ws, RatingNameAsWritten)
  {
    EntryIndexKept(answers, HandleOptionSelect(answers, q.id, optionId), q.id);
  }

  /** Straight after loading every required question is unanswered: texts are empty and nothing is selected. */
  lemma InitiallyRequiredUnanswered(qs: seq<ClientQuestion>, ws: char -> bool, ratingName: string, k: nat)
    requires k < |qs| && qs[k].required
    ensures Unanswered(qs[k], InitialAnswers(qs), ws, ratingName)
  {
    var answers := InitialAnswers(qs);
    var i := EntryIndex(answers, qs[k].id);
    assert i <= k;
  }
}
