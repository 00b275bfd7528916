/**
 * The JSON views the services return (`FormResponse`, `QuestionResponse`,
 * `OptionResponse`, `ResponseResponse`, `AnswerResponse`) and their
 * `fromEntity` mappers.  A mapper reads the entity's columns from the store
 * and receives the entity's child list as it is in memory: the list JPA
 * loads for a stored entity, or the list a freshly saved entity holds.
 */
module Views {
  import opened Wrappers
  import opened Store

  datatype OptionView = OptionView(id: Id, text: string, displayOrder: int)

  datatype QuestionView = QuestionView(
    id: Id,
    text: string,
    qtype: QuestionType,
    displayOrder: int,
    required: bool,
    options: seq<OptionView>)

  datatype FormView = FormView(
    id: Id,
    title: string,
    description: Option<string>,
    publicUrl: string,
    createdBy: string,
    createdAt: Instant,
    updatedAt: Option<Instant>,
    questions: seq<QuestionView>,
    responseCount: nat)

  datatype AnswerView = AnswerView(
    id: Id,
    questionId: Id,
    textAnswer: Option<string>,
    ratingValue: Option<int>,
    selectedOptionId: Option<Id>)

  datatype ResponseView = ResponseView(
    id: Id,
    respondentName: Option<string>,
    respondentEmail: Option<string>,
    submittedAt: Instant,
    formId: Id,
    formTitle: string,
    answers: Option<seq<AnswerView>>)

  /** `OptionResponse.fromEntity`. */
  function OptionFromEntity(db: Db, o: Id): (v: OptionView)
    requires o in db.options
    ensures v.id == o && v.text == db.options[o].text && v.displayOrder == db.options[o].displayOrder
  {
    OptionView(o, db.options[o].text, db.options[o].displayOrder)
  }

  /** The options mapped one by one, in order. */
  function OptionViews(db: Db, os: seq<Id>): (vs: seq<OptionView>)
    requires forall o :: o in os ==> o in db.options
    ensures |vs| == |os|
    ensures forall i :: 0 <= i < |os| ==> vs[i] == OptionFromEntity(db, os[i])
  {
    if os == [] then [] else [OptionFromEntity(db, os[0])] + OptionViews(db, os[1..])
  }

  /**
   * `QuestionResponse.fromEntity`: the question's columns, and its options
   * in order only for a multiple-choice question; any other kind keeps the
   * empty default list.  Word limit and rating or date bounds are not part
   * of the view.
   */
  function QuestionFromEntity(db: Db, q: Id): (v: QuestionView)
    requires q in db.questions
    ensures v.id == q && v.text == db.questions[q].text && v.qtype == db.questions[q].qtype
    ensures v.displayOrder == db.questions[q].displayOrder && v.required == db.questions[q].required
    ensures v.qtype == MultipleChoice ==>
      |v.options| == |OptionsOf(db, q)| &&
      forall i :: 0 <= i < |v.options| ==> v.options[i].id == OptionsOf(db, q)[i]
    ensures v.qtype != MultipleChoice ==> v.options == []
  {
    var row := db.questions[q];
    var options := if row.qtype == MultipleChoice then OptionViews(db, OptionsOf(db, q)) else [];
    QuestionView(q, row.text, row.qtype, row.displayOrder, row.required, options)
  }

  function QuestionViews(db: Db, qs: seq<Id>): (vs: seq<QuestionView>)
    requires forall q :: q in qs ==> q in db.questions
    ensures |vs| == |qs|
    ensures forall i :: 0 <= i < |qs| ==> vs[i] == QuestionFromEntity(db, qs[i])
  {
    if qs == [] then [] else [QuestionFromEntity(db, qs[0])] + QuestionViews(db, qs[1..])
  }

  /**
   * `FormResponse.fromEntity(form, responseCount)` for a form whose
   * `questions` list holds `questions`.
   */
  function FormFromEntity(db: Db, f: Id, questions: seq<Id>, responseCount: nat): (v: FormView)
    requires f in db.forms && db.forms[f].owner in db.users
    requires forall q :: q in questions ==> q in db.questions
    ensures v.id == f && v.title == db.forms[f].title && v.description == db.forms[f].description
    ensures v.publicUrl == db.forms[f].publicUrl
    ensures v.createdAt == db.forms[f].createdAt && v.updatedAt == db.forms[f].updatedAt
    ensures v.createdBy == db.users[db.forms[f].owner].username
    ensures |v.questions| == |questions| && forall i :: 0 <= i < |questions| ==> v.questions[i].id == questions[i]
    ensures v.responseCount == responseCount
  {
    var row := db.forms[f];
    FormView(f, row.title, row.description, row.publicUrl, db.users[row.owner].username,
             row.createdAt, row.updatedAt, QuestionViews(db, questions), responseCount)
  }

  /** A stored form as the services return it: its loaded questions and its response count. */
  function StoredFormView(db: Db, f: Id): (v: FormView)
    requires f in db.forms && db.forms[f].owner in db.users
  {
    FormFromEntity(db, f, QuestionsOf(db, f), CountByForm(db, f))
  }

  /**
   * `AnswerResponse.fromEntity`: id, question id, text and rating; the
   * selected option's id when there is one.  Multi-select choices and dates
   * are not part of the view.
   */
  function AnswerFromEntity(db: Db, a: Id): (v: AnswerView)
    requires a in db.answers
    ensures v.id == a && v.questionId == db.answers[a].question
    ensures v.textAnswer == TextOf(db.answers[a].payload) && v.ratingValue == RatingOf(db.answers[a].payload)
    ensures v.selectedOptionId == ChoiceOf(db.answers[a].payload)
  {
    var row := db.answers[a];
    AnswerView(a, row.question, TextOf(row.payload), RatingOf(row.payload), ChoiceOf(row.payload))
  }

  function AnswerViews(db: Db, as_: seq<Id>): (vs: seq<AnswerView>)
    requires forall a :: a in as_ ==> a in db.answers
    ensures |vs| == |as_|
    ensures forall i :: 0 <= i < |as_| ==> vs[i] == AnswerFromEntity(db, as_[i])
  {
    if as_ == [] then [] else [AnswerFromEntity(db, as_[0])] + AnswerViews(db, as_[1..])
  }

  /**
   * `ResponseResponse.fromEntity` for a response whose `answers` list is
   * `answers` (`None` for a null list, which leaves the view's list null).
   */
  function ResponseFromEntity(db: Db, r: Id, answers: Option<seq<Id>>): (v: ResponseView)
    requires r in db.responses && db.responses[r].form in db.forms
    requires answers.Some? ==> forall a :: a in answers.value ==> a in db.answers
    ensures v.id == r && v.respondentName == db.responses[r].respondentName
    ensures v.respondentEmail == db.responses[r].respondentEmail && v.submittedAt == db.responses[r].submittedAt
    ensures v.formId == db.responses[r].form && v.formTitle == db.forms[db.responses[r].form].title
    ensures v.answers.None? <==> answers.None?
    ensures answers.Some? ==>
      |v.answers.value| == |answers.value| &&
      forall i :: 0 <= i < |answers.value| ==> v.answers.value[i].id == answers.value[i]
  {
    var row := db.responses[r];
    var views := match answers
      case None => None
      case Some(as_) => Some(AnswerViews(db, as_));
    ResponseView(r, row.respondentName, row.respondentEmail, row.submittedAt, row.form, db.forms[row.form].title, views)
  }

  /** A stored response with its loaded answers. */
  function StoredResponseView(db: Db, r: Id): (v: ResponseView)
    requires r in db.responses && db.responses[r].form in db.forms
  {
    ResponseFromEntity(db, r, Some(AnswersOf(db, r)))
  }

  /** Stored responses mapped one by one, in order. */
  function ResponseViews(db: Db, rs: seq<Id>): (vs: seq<ResponseView>)
    requires forall r :: r in rs ==> r in db.responses && db.responses[r].form in db.forms
    ensures |vs| == |rs|
    ensures forall i :: 0 <= i < |rs| ==> vs[i] == StoredResponseView(db, rs[i])
  {
    if rs == [] then [] else [StoredResponseView(db, rs[0])] + ResponseViews(db, rs[1..])
  }
}
