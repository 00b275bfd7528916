/**
 * `FormCreate`: the older form-builder component.  Its state is the form
 * being built (title, description, questions), the question being composed
 * or edited, the option being typed, the index of the question under edit
 * and an error message; each handler replaces some of these.  Question
 * types are the component's own names (`'TEXT'`, `'MULTIPLE_CHOICE'`,
 * `'RATING'`, `'DATE'`, `'EMAIL'`, `'NUMBER'`, `'CHECKBOX'`).
 *
 * JavaScript's whitespace class (`trim()`) is the parameter `ws`, and
 * today's date (`new Date().toISOString().split('T')[0]`) is the parameter
 * `today`.
 */
module FormCreate {
  import opened Wrappers
  import opened Strings
  import opened Client
  import QuestionReorder

  /** An option of a composed question, with the position it was given when added. */
  datatype EntryOption = EntryOption(text: string, displayOrder: int)

  /** A question as the component holds it; `displayOrder` and `placeholder` may be missing. */
  datatype Entry = Entry(
    text: string,
    qtype: string,
    required: bool,
    options: seq<EntryOption>,
    wordLimit: Option<int>,
    placeholder: Option<string>,
    displayOrder: Option<int>)

  const MultipleChoiceType := "MULTIPLE_CHOICE"
  const NeedsOptionMessage := "Multiple choice questions must have at least one option."
  const TitleRequiredMessage := "Form title is required."
  const NoQuestionsMessage := "Form must have at least one question."

  /** The empty composer the component starts with, and resets to after an edit or a cancel. */
  const EmptyEntry := Entry([], "TEXT", false, [], None, Some([]), None)

  /** The empty composer `addQuestion` resets to: the same, but without a placeholder. */
  const ResetEntry := Entry([], "TEXT", false, [], None, None, None)

  /** The component's guard on multiple-choice questions: they need an option. */
  predicate LacksOptions(e: Entry)
  {
    e.qtype == MultipleChoiceType && |e.options| == 0
  }

  /** The list with every question's `displayOrder` set to its index (`items.map((item, index) => ...)`). */
  function Renumbered(qs: seq<Entry>): (r: seq<Entry>)
    ensures |r| == |qs|
    ensures forall i :: 0 <= i < |qs| ==> r[i] == qs[i].(displayOrder := Some(i))
  {
    seq(|qs|, i requires 0 <= i < |qs| => qs[i].(displayOrder := Some(i)))
  }

  /** After a drag, every question sits where `Moved` puts it and is numbered by its new index. */
  lemma DraggedOrder(qs: seq<Entry>, src: nat, dst: nat)
    requires src < |qs| && dst < |qs|
    ensures |Renumbered(QuestionReorder.Moved(qs, src, dst))| == |qs|
    ensures forall k :: 0 <= k < |qs| ==>
      Renumbered(QuestionReorder.Moved(qs, src, dst))[k] ==
        qs[QuestionReorder.MovedIndex(src, dst, k)].(displayOrder := Some(k))
    ensures Renumbered(QuestionReorder.Moved(qs, src, dst))[dst] == qs[src].(displayOrder := Some(dst))
  {
    QuestionReorder.MovedAt(qs, src, dst);
  }

  /** The component's state. */
  class FormCreatePage {
    var title: string
    var description: string
    var questions: seq<Entry>
    var newQuestion: Entry
    var newOption: string
    var activeQuestionIndex: Option<nat>
    var error: string

    /** No multiple-choice question of the form is without options. */
    predicate Valid()
      reads this
    {
      forall i :: 0 <= i < |questions| ==> !LacksOptions(questions[i])
    }

    /** The initial state: an empty form, an empty composer, nothing under edit, no error. */
    constructor ()
      ensures title == [] && description == [] && questions == []
      ensures newQuestion == EmptyEntry && newOption == [] && activeQuestionIndex.None? && error == []
      ensures Valid()
    {
      title := [];
      description := [];
      questions := [];
      newQuestion := EmptyEntry;
      newOption := [];
      activeQuestionIndex := None;
      error := [];
    }

    /**
     * `addOption`: a blank option text changes nothing; otherwise the option
     * is appended to the composed question, numbered by the previous option
     * count, and the option input is cleared.
     */
    method AddOption(ws: char -> bool)
      modifies this
      ensures Blank(old(newOption), ws) ==>
        newQuestion == old(newQuestion) && newOption == old(newOption)
      ensures !Blank(old(newOption), ws) ==>
        newQuestion == old(newQuestion).(options := old(newQuestion.options) +
                                         [EntryOption(old(newOption), |old(newQuestion.options)|)]) &&
        newOption == []
      ensures title == old(title) && description == old(description) && questions == old(questions)
      ensures activeQuestionIndex == old(activeQuestionIndex) && error == old(error)
    {
      if Blank(newOption, ws) {
        return;
      }
      newQuestion := newQuestion.(options := newQuestion.options +
                                  [EntryOption(newOption, |newQuestion.options|)]);
      newOption := [];
    }

    /**
     * `removeOption`: the composed question loses exactly the option at
     * `index` (none when the index is past the end); the others keep their
     * order and their original `displayOrder`.
     */
    method RemoveOption(index: nat)
      modifies this
      ensures index < |old(newQuestion.options)| ==>
        newQuestion == old(newQuestion).(options := QuestionReorder.Removed(old(newQuestion.options), index))
      ensures index >= |old(newQuestion.options)| ==> newQuestion == old(newQuestion)
      ensures title == old(title) && description == old(description) && questions == old(questions)
      ensures newOption == old(newOption) && activeQuestionIndex == old(activeQuestionIndex) && error == old(error)
    {
      if index < |newQuestion.options| {
        newQuestion := newQuestion.(options := QuestionReorder.Removed(newQuestion.options, index));
      }
    }

    /**
     * `addQuestion`: a blank question text changes nothing; a
     * multiple-choice question without options only sets the error;
     * otherwise the question is appended, numbered by the previous question
     * count, the composer is reset and the error cleared.
     */
    method AddQuestion(ws: char -> bool)
      requires Valid()
      modifies this
      ensures Valid()
      ensures Blank(old(newQuestion.text), ws) ==>
        questions == old(questions) && newQuestion == old(newQuestion) && error == old(error)
      ensures !Blank(old(newQuestion.text), ws) && LacksOptions(old(newQuestion)) ==>
        questions == old(questions) && newQuestion == old(newQuestion) && error == NeedsOptionMessage
      ensures !Blank(old(newQuestion.text), ws) && !LacksOptions(old(newQuestion)) ==>
        questions == old(questions) + [old(newQuestion).(displayOrder := Some(|old(questions)|))] &&
        newQuestion == ResetEntry && error == []
      ensures title == old(title) && description == old(description)
      ensures newOption == old(newOption) && activeQuestionIndex == old(activeQuestionIndex)
    {
      if Blank(newQuestion.text, ws) {
        return;
      }
      if newQuestion.qtype == MultipleChoiceType && |newQuestion.options| == 0 {
        error := NeedsOptionMessage;
        return;
      }
      questions := questions + [newQuestion.(displayOrder := Some(|questions|))];
      newQuestion := ResetEntry;
      error := [];
    }

    /** `removeQuestion`: exactly the question at `index` goes; the others keep their order and numbers. */
    method RemoveQuestion(index: nat)
      requires Valid()
      modifies this
      ensures Valid()
      ensures index < |old(questions)| ==> questions == QuestionReorder.Removed(old(questions), index)
      ensures index >= |old(questions)| ==> questions == old(questions)
      ensures title == old(title) && description == old(description) && newQuestion == old(newQuestion)
      ensures newOption == old(newOption) && activeQuestionIndex == old(activeQuestionIndex) && error == old(error)
    {
      if index < |questions| {
        questions := QuestionReorder.Removed(questions, index);
      }
    }

    /**
     * `handleDragEnd`: without a destination nothing changes; otherwise the
     * dragged question moves to the destination and every question is
     * renumbered by its new index.
     */
    method HandleDragEnd(source: nat, destination: Option<nat>)
      requires Valid()
      requires source < |questions| && (destination.Some? ==> destination.value < |questions|)
      modifies this
      ensures Valid()
      ensures destination.None? ==> questions == old(questions)
      ensures destination.Some? ==> questions == Renumbered(QuestionReorder.Moved(old(questions), source, destination.value))
      ensures title == old(title) && description == old(description) && newQuestion == old(newQuestion)
      ensures newOption == old(newOption) && activeQuestionIndex == old(activeQuestionIndex) && error == old(error)
    {
      if destination.None? {
        return;
      }
      var items := new Entry[|questions|](i requires 0 <= i < |questions| reads this => questions[i]);
      assert items[..] == questions;
      QuestionReorder.Move(items, source, destination.value);
      QuestionReorder.MovedAt(questions, source, destination.value);
      questions := Renumbered(items[..]);
    }

    /** `editQuestion`: the question at `index` goes into the composer and comes under edit. */
    method EditQuestion(index: nat)
      requires index < |questions|
      modifies this
      ensures title == old(title) && description == old(description) && questions == old(questions)
      ensures activeQuestionIndex == Some(index) && newQuestion == questions[index]
      ensures newOption == old(newOption) && error == old(error)
    {
      activeQuestionIndex := Some(index);
      newQuestion := questions[index];
    }

    /**
     * `updateQuestion`: nothing happens without a question under edit; a
     * multiple-choice question without options only sets the error;
     * otherwise the composed question replaces exactly the one under edit,
     * the composer is reset, the edit ends and the error is cleared.
     */
    method UpdateQuestion()
      requires Valid()
      requires activeQuestionIndex.Some? ==> activeQuestionIndex.value < |questions|
      modifies this
      ensures Valid()
      ensures old(activeQuestionIndex).None? ==>
        questions == old(questions) && newQuestion == old(newQuestion) &&
        activeQuestionIndex == old(activeQuestionIndex) && error == old(error)
      ensures old(activeQuestionIndex).Some? && LacksOptions(old(newQuestion)) ==>
        questions == old(questions) && newQuestion == old(newQuestion) &&
        activeQuestionIndex == old(activeQuestionIndex) && error == NeedsOptionMessage
      ensures old(activeQuestionIndex).Some? && !LacksOptions(old(newQuestion)) ==>
        questions == old(questions)[old(activeQuestionIndex).value := old(newQuestion)] &&
        newQuestion == EmptyEntry && activeQuestionIndex.None? && error == []
      ensures title == old(title) && description == old(description) && newOption == old(newOption)
    {
      if activeQuestionIndex.None? {
        return;
      }
      if newQuestion.qtype == MultipleChoiceType && |newQuestion.options| == 0 {
        error := NeedsOptionMessage;
        return;
      }
      questions := questions[activeQuestionIndex.value := newQuestion];
      newQuestion := EmptyEntry;
      activeQuestionIndex := None;
      error := [];
    }

    /** `cancelEdit`: the edit ends and the composer is reset; the form is untouched. */
    method CancelEdit()
      modifies this
      ensures activeQuestionIndex.None? && newQuestion == EmptyEntry
      ensures title == old(title) && description == old(description) && questions == old(questions)
      ensures newOption == old(newOption) && error == old(error)
    {
      activeQuestionIndex := None;
      newQuestion := EmptyEntry;
    }

    /**
     * `handleSubmit`'s guards: a blank title, then an empty question list,
     * set the error and stop; otherwise the error is cleared and the form
     * is sent (`createCalled`).
     */
    method HandleSubmit(ws: char -> bool) returns (createCalled: bool)
      modifies this
      ensures createCalled <==> !Blank(old(title), ws) && |old(questions)| > 0
      ensures error ==
        if Blank(old(title), ws) then TitleRequiredMessage
        else if |old(questions)| == 0 then NoQuestionsMessage
        else []
      ensures title == old(title) && description == old(description) && questions == old(questions)
      ensures newQuestion == old(newQuestion) && newOption == old(newOption)
      ensures activeQuestionIndex == old(activeQuestionIndex)
    {
      if Blank(title, ws) {
        error := TitleRequiredMessage;
        return false;
      }
      if |questions| == 0 {
        error := NoQuestionsMessage;
        return false;
      }
      error := [];
      return true;
    }
  }

  /** An entry of the preview's sample response. */
  datatype SampleAnswer = SampleAnswer(questionId: Option<int>, answer: string)

  /** The sample answer for one question, by the component's type name. */
  function SampleFor(q: Entry, today: string): string
  {
    if q.qtype == "TEXT" then "Sample text response"
    else if q.qtype == MultipleChoiceType then
      (if |q.options| > 0 then q.options[0].text else "No option selected")
    else if q.qtype == "RATING" then "4"
    else if q.qtype == "DATE" then today
    else if q.qtype == "EMAIL" then "user@example.com"
    else if q.qtype == "NUMBER" then "42"
    else if q.qtype == "CHECKBOX" then Join(OptionTexts(q.options[..if |q.options| < 2 then |q.options| else 2]), ", ")
    else []
  }

  /** The texts of some options, in order. */
  function OptionTexts(opts: seq<EntryOption>): (r: seq<string>)
    ensures |r| == |opts| && forall i :: 0 <= i < |opts| ==> r[i] == opts[i].text
  {
    seq(|opts|, i requires 0 <= i < |opts| => opts[i].text)
  }

  /** `generateSampleResponse`: one sample answer per question, in order, identified by the question's `displayOrder`. */
  function GenerateSampleResponse(qs: seq<Entry>, today: string): (r: seq<SampleAnswer>)
    ensures |r| == |qs|
    ensures forall i :: 0 <= i < |qs| ==> r[i].questionId == qs[i].displayOrder && r[i].answer == SampleFor(qs[i], today)
  {
    seq(|qs|, i requires 0 <= i < |qs| => SampleAnswer(qs[i].displayOrder, SampleFor(qs[i], today)))
  }

  /**
   * In a valid state no multiple-choice sample falls back to "No option
   * selected": it is always the text of the question's first option.
   */
  lemma SampleUsesFirstOption(page: FormCreatePage, today: string, i: nat)
    requires page.Valid() && i < |page.questions| && page.questions[i].qtype == MultipleChoiceType
    ensures GenerateSampleResponse(page.questions, today)[i].answer == page.questions[i].options[0].text
  {
    assert !LacksOptions(page.questions[i]);
  }

  /** A checkbox sample lists at most the first two option texts, separated by ", ". */
  lemma CheckboxSample(q: Entry, today: string)
    requires q.qtype == "CHECKBOX" && |q.options| >= 2
    ensures SampleFor(q, today) == q.options[0].text + ", " + q.options[1].text
  {
    var two := OptionTexts(q.options[..2]);
    assert two == [q.options[0].text, q.options[1].text];
    assert Join(two, ", ") == q.options[0].text + ", " + Join([q.options[1].text], ", ");
  }
}
