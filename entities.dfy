/**
 * The JPA entities as objects in memory: `Form`, `Question`, `Option`,
 * `Response` and `Answer`, with their column constraints, their lifecycle
 * callbacks (`@PrePersist`, `@PreUpdate`) and the helper methods that keep
 * both sides of a parent/child association in step.  A child's reference to
 * its parent is a nullable field; a parent's children are a list of
 * references, updated in place.
 */
module Entities {
  import opened Wrappers
  import opened Strings
  import opened Store
  import opened Requests

  // ---------------------------------------------------------------------------
  // `List.remove(Object)`
  // ---------------------------------------------------------------------------

  /**
   * `s` without the first occurrence of `x`, the others in their order; `s`
   * itself when `x` does not occur.
   */
  function RemoveFirst<T(==)>(s: seq<T>, x: T): (r: seq<T>)
    ensures x !in s ==> r == s
    ensures x in s ==> |r| == |s| - 1
  {
    if s == [] then []
    else if s[0] == x then s[1..]
    else [s[0]] + RemoveFirst(s[1..], x)
  }

  /** Removal takes away exactly one copy of `x`, if there is one, and nothing else. */
  lemma {:induction false} RemoveFirstMultiset<T>(s: seq<T>, x: T)
    ensures multiset(RemoveFirst(s, x)) == multiset(s) - multiset{x}
  {
    if s != [] {
      assert s == [s[0]] + s[1..];
      if s[0] != x {
        RemoveFirstMultiset(s[1..], x);
      }
    }
  }

  /** The position of the first occurrence of `x` (`List.indexOf`). */
  function IndexOf<T(==)>(s: seq<T>, x: T): (i: nat)
    requires x in s
    ensures i < |s| && s[i] == x
    ensures forall k :: 0 <= k < i ==> s[k] != x
  {
    if s[0] == x then 0
    else
      assert x in s[1..];
      IndexOf(s[1..], x) + 1
  }

  /**
   * When `x` occurs, `RemoveFirst` cuts out exactly its first occurrence:
   * what precedes it and what follows it are kept, in order.
   */
  lemma RemoveFirstCutsFirst<T>(s: seq<T>, x: T)
    requires x in s
    ensures RemoveFirst(s, x) == s[..IndexOf(s, x)] + s[IndexOf(s, x) + 1..]
  {
    var i := IndexOf(s, x);
    assert s == s[..i] + [x] + s[i + 1..];
    assert x !in s[..i];
    RemoveFirstSkips(s[..i], x, s[i + 1..]);
  }

  /** Removal skips a prefix that does not contain `x` and stops at the first `x`. */
  lemma {:induction false} RemoveFirstSkips<T>(a: seq<T>, x: T, b: seq<T>)
    requires x !in a
    ensures RemoveFirst(a + [x] + b, x) == a + b
  {
    if a == [] {
      assert a + [x] + b == [x] + b;
    } else {
      var s := a + [x] + b;
      assert s[0] == a[0] && a[0] in a;
      assert s[1..] == a[1..] + [x] + b;
      assert x !in a[1..] by {
        assert forall j :: 0 <= j < |a[1..]| ==> a[1..][j] == a[j + 1];
      }
      RemoveFirstSkips(a[1..], x, b);
      calc {
        RemoveFirst(s, x);
        [a[0]] + RemoveFirst(a[1..] + [x] + b, x);
        [a[0]] + (a[1..] + b);
        ([a[0]] + a[1..]) + b;
      }
      assert [a[0]] + a[1..] == a;
    }
  }

  /** Removing what was just appended, when it was not there before, gives back the list. */
  lemma {:induction false} RemoveFirstAfterAppend<T>(s: seq<T>, x: T)
    requires x !in s
    ensures RemoveFirst(s + [x], x) == s
  {
    if s != [] {
      assert (s + [x])[1..] == s[1..] + [x];
      RemoveFirstAfterAppend(s[1..], x);
    }
  }

  /** After removing an element that occurred at most once, it no longer occurs. */
  lemma RemoveFirstGone<T>(s: seq<T>, x: T)
    requires multiset(s)[x] <= 1
    ensures x !in RemoveFirst(s, x)
    ensures forall y :: y in RemoveFirst(s, x) ==> y in s
  {
    var r := RemoveFirst(s, x);
    RemoveFirstMultiset(s, x);
    assert multiset(r)[x] == 0;
    forall y | y in r ensures y in s {
      assert y in multiset(r);
    }
  }

  // ---------------------------------------------------------------------------
  // Column constraints, checked when an entity is persisted
  // ---------------------------------------------------------------------------

  /** `Form.title` (`@NotBlank @Size(max = 100)`) and `Form.description` (`@Size(max = 500)`). */
  predicate FormColumnsValid(title: Option<string>, description: Option<string>)
  {
    NotBlankField(title) && SizeAtMost(title, 100) && SizeAtMost(description, 500)
  }

  /** `Question.text` (`@NotBlank @Size(max = 500)`) and `Question.type` (`@NotNull`). */
  predicate QuestionColumnsValid(text: Option<string>, qtype: Option<QuestionType>)
  {
    NotBlankField(text) && SizeAtMost(text, 500) && qtype.Some?
  }

  /** `Option.text` (`@NotBlank @Size(max = 255)`). */
  predicate OptionColumnsValid(text: Option<string>)
  {
    NotBlankField(text) && SizeAtMost(text, 255)
  }

  // ---------------------------------------------------------------------------
  // The entities
  // ---------------------------------------------------------------------------

  class OptionEntity {
    var text: Option<string>
    var displayOrder: Option<int>
    var question: QuestionEntity?

    constructor ()
      ensures text.None? && displayOrder.None? && question == null
    {
      text := None;
      displayOrder := None;
      question := null;
    }
  }

  class AnswerEntity {
    var textAnswer: Option<string>
    var ratingValue: Option<int>
    var selectedOption: OptionEntity?
    var question: QuestionEntity?
    var response: ResponseEntity?

    constructor ()
      ensures textAnswer.None? && ratingValue.None? && selectedOption == null
      ensures question == null && response == null
    {
      textAnswer := None;
      ratingValue := None;
      selectedOption := null;
      question := null;
      response := null;
    }
  }

  class QuestionEntity {
    var text: Option<string>
    var qtype: Option<QuestionType>
    var displayOrder: Option<int>
    var required: bool
    var wordLimit: Option<int>
    var form: FormEntity?
    var options: seq<OptionEntity>
    var answers: seq<AnswerEntity>

    /** A new question is not required and has no options or answers. */
    constructor ()
      ensures text.None? && qtype.None? && displayOrder.None? && !required && wordLimit.None?
      ensures form == null && options == [] && answers == []
    {
      text := None;
      qtype := None;
      displayOrder := None;
      required := false;
      wordLimit := None;
      form := null;
      options := [];
      answers := [];
    }

    /** The question's columns satisfy their constraints and it belongs to a form. */
    predicate Persistable()
      reads this
    {
      QuestionColumnsValid(text, qtype) && form != null
    }

    /** Every option in the list refers back to this question. */
    predicate OptionsLinked()
      reads this, options
    {
      forall o :: o in options ==> o.question == this
    }

    /** Every answer in the list refers back to this question. */
    predicate AnswersLinked()
      reads this, answers
    {
      forall a :: a in answers ==> a.question == this
    }

    /** `addOption`: appended at the end, and pointed back at this question. */
    method AddOption(o: OptionEntity)
      modifies this`options, o`question
      ensures options == old(options) + [o]
      ensures o.question == this
      ensures old(OptionsLinked()) ==> OptionsLinked()
    {
      options := options + [o];
      o.question := this;
    }

    /** `removeOption`: the first occurrence leaves the list, and the option no longer points anywhere. */
    method RemoveOption(o: OptionEntity)
      modifies this`options, o`question
      ensures options == RemoveFirst(old(options), o)
      ensures o.question == null
      ensures old(OptionsLinked()) && multiset(old(options))[o] <= 1 ==> OptionsLinked()
    {
      if multiset(options)[o] <= 1 {
        RemoveFirstGone(options, o);
      }
      options := RemoveFirst(options, o);
      o.question := null;
    }

    /** `addAnswer`. */
    method AddAnswer(a: AnswerEntity)
      modifies this`answers, a`question
      ensures answers == old(answers) + [a]
      ensures a.question == this
      ensures old(AnswersLinked()) ==> AnswersLinked()
    {
      answers := answers + [a];
      a.question := this;
    }

    /** `removeAnswer`. */
    method RemoveAnswer(a: AnswerEntity)
      modifies this`answers, a`question
      ensures answers == RemoveFirst(old(answers), a)
      ensures a.question == null
      ensures old(AnswersLinked()) && multiset(old(answers))[a] <= 1 ==> AnswersLinked()
    {
      if multiset(answers)[a] <= 1 {
        RemoveFirstGone(answers, a);
      }
      answers := RemoveFirst(answers, a);
      a.question := null;
    }
  }

  class ResponseEntity {
    var respondentName: Option<string>
    var respondentEmail: Option<string>
    var submittedAt: Option<Instant>
    var form: FormEntity?
    var answers: seq<AnswerEntity>

    constructor ()
      ensures respondentName.None? && respondentEmail.None? && submittedAt.None?
      ensures form == null && answers == []
    {
      respondentName := None;
      respondentEmail := None;
      submittedAt := None;
      form := null;
      answers := [];
    }

    /** `submittedAt` and `form` are the two non-null columns. */
    predicate Persistable()
      reads this
    {
      submittedAt.Some? && form != null
    }

    predicate AnswersLinked()
      reads this, answers
    {
      forall a :: a in answers ==> a.response == this
    }

    /** `@PrePersist onCreate`: the submission time is the current time, whatever it was. */
    method OnCreate(now: Instant)
      modifies this`submittedAt
      ensures submittedAt == Some(now)
      ensures form != null ==> Persistable()
    {
      submittedAt := Some(now);
    }

    method AddAnswer(a: AnswerEntity)
      modifies this`answers, a`response
      ensures answers == old(answers) + [a]
      ensures a.response == this
      ensures old(AnswersLinked()) ==> AnswersLinked()
    {
      answers := answers + [a];
      a.response := this;
    }

    method RemoveAnswer(a: AnswerEntity)
      modifies this`answers, a`response
      ensures answers == RemoveFirst(old(answers), a)
      ensures a.response == null
      ensures old(AnswersLinked()) && multiset(old(answers))[a] <= 1 ==> AnswersLinked()
    {
      if multiset(answers)[a] <= 1 {
        RemoveFirstGone(answers, a);
      }
      answers := RemoveFirst(answers, a);
      a.response := null;
    }
  }

  class FormEntity {
    var title: Option<string>
    var description: Option<string>
    var publicUrl: Option<string>
    /** The author, by the key of the user row (`@JoinColumn(nullable = false)`). */
    var createdBy: Option<Id>
    var createdAt: Option<Instant>
    var updatedAt: Option<Instant>
    var questions: seq<QuestionEntity>
    var responses: seq<ResponseEntity>

    constructor ()
      ensures title.None? && description.None? && publicUrl.None? && createdBy.None?
      ensures createdAt.None? && updatedAt.None?
      ensures questions == [] && responses == []
    {
      title := None;
      description := None;
      publicUrl := None;
      createdBy := None;
      createdAt := None;
      updatedAt := None;
      questions := [];
      responses := [];
    }

    /** The columns satisfy their constraints: title, description, and the non-null url, author and creation time. */
    predicate Persistable()
      reads this
    {
      FormColumnsValid(title, description) && publicUrl.Some? && createdBy.Some? && createdAt.Some?
    }

    predicate QuestionsLinked()
      reads this, questions
    {
      forall q :: q in questions ==> q.form == this
    }

    predicate ResponsesLinked()
      reads this, responses
    {
      forall r :: r in responses ==> r.form == this
    }

    /**
     * `@PrePersist onCreate`: the creation time and a fresh public url
     * (`uuid`, supplied by the caller); afterwards the form is persistable iff
     * its title and description are valid and its author is set.
     */
    method OnCreate(now: Instant, uuid: string)
      modifies this`createdAt, this`publicUrl
      ensures createdAt == Some(now) && publicUrl == Some(uuid)
      ensures Persistable() <==> FormColumnsValid(title, description) && createdBy.Some?
    {
      createdAt := Some(now);
      publicUrl := Some(uuid);
    }

    /** `@PreUpdate onUpdate`: only the update time changes. */
    method OnUpdate(now: Instant)
      modifies this`updatedAt
      ensures updatedAt == Some(now)
    {
      updatedAt := Some(now);
    }

    method AddQuestion(q: QuestionEntity)
      modifies this`questions, q`form
      ensures questions == old(questions) + [q]
      ensures q.form == this
      ensures old(QuestionsLinked()) ==> QuestionsLinked()
    {
      questions := questions + [q];
      q.form := this;
    }

    method RemoveQuestion(q: QuestionEntity)
      modifies this`questions, q`form
      ensures questions == RemoveFirst(old(questions), q)
      ensures q.form == null
      ensures old(QuestionsLinked()) && multiset(old(questions))[q] <= 1 ==> QuestionsLinked()
    {
      if multiset(questions)[q] <= 1 {
        RemoveFirstGone(questions, q);
      }
      questions := RemoveFirst(questions, q);
      q.form := null;
    }

    method AddResponse(r: ResponseEntity)
      modifies this`responses, r`form
      ensures responses == old(responses) + [r]
      ensures r.form == this
      ensures old(ResponsesLinked()) ==> ResponsesLinked()
    {
      responses := responses + [r];
      r.form := this;
    }

    method RemoveResponse(r: ResponseEntity)
      modifies this`responses, r`form
      ensures responses == RemoveFirst(old(responses), r)
      ensures r.form == null
      ensures old(ResponsesLinked()) && multiset(old(responses))[r] <= 1 ==> ResponsesLinked()
    {
      if multiset(responses)[r] <= 1 {
        RemoveFirstGone(responses, r);
      }
      responses := RemoveFirst(responses, r);
      r.form := null;
    }
  }
}
