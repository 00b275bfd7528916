/**
 * `FormService`: creating a form with its questions and options, listing a
 * user's forms, the owner-checked and the public lookups, and deleting a
 * form with everything that cascades from it.  Each public method is one
 * transaction: the mutating ones work on a copy of the store and commit it
 * only when nothing failed.
 */
module FormService {
  import opened Wrappers
  import opened Strings
  import opened Store
  import opened Views
  import opened Requests
  import opened Entities

  // ---------------------------------------------------------------------------
  // Creating a form: the rows the nested save loops produce
  // ---------------------------------------------------------------------------

  /**
   * The option row saved for option request `o` at position `j` of question
   * `q`.  A request without text is rejected before any row is saved, so the
   * empty text standing in for it never reaches the store.
   */
  function OptionRowFor(q: Id, o: OptionRequest, j: nat): OptionRow
  {
    OptionRow(q, o.text.GetOr([]), o.displayOrder.GetOr(j))
  }

  /**
   * The question row saved for request `q` at position `i` of form `f`: the
   * word limit and the rating and date bounds are never set.  As for
   * options, the stand-ins for a missing text or type never reach the store.
   */
  function QuestionRowFor(f: Id, q: QuestionRequest, i: nat): QuestionRow
  {
    QuestionRow(f, q.text.GetOr([]), q.qtype.GetOr(Text), q.displayOrder.GetOr(i), q.required, None, None, None, None, None)
  }

  /** Options are saved only for a multiple-choice question. */
  function SavedOptions(q: QuestionRequest): seq<OptionRequest>
  {
    if q.qtype == Some(MultipleChoice) then q.options else []
  }

  /** Saving the question and then each of its saved options passes the column constraints. */
  predicate QuestionSavable(q: QuestionRequest)
  {
    QuestionColumnsValid(q.text, q.qtype) &&
    forall o :: o in SavedOptions(q) ==> OptionColumnsValid(o.text)
  }

  /** The option rows of `os[..j]` for question `q`, in request order. */
  function OptionRows(q: Id, os: seq<OptionRequest>, j: nat): (rows: seq<OptionRow>)
    requires j <= |os|
    ensures |rows| == j
  {
    if j == 0 then [] else OptionRows(q, os, j - 1) + [OptionRowFor(q, os[j - 1], j - 1)]
  }

  /** Row `t` is the row of option request `t`. */
  lemma {:induction false} OptionRowsAt(q: Id, os: seq<OptionRequest>, j: nat)
    requires j <= |os|
    ensures forall t :: 0 <= t < j ==> OptionRows(q, os, j)[t] == OptionRowFor(q, os[t], t)
  {
    if j > 0 {
      OptionRowsAt(q, os, j - 1);
    }
  }

  /** The question rows of `qs[..i]` for form `f`, in request order. */
  function QuestionRows(f: Id, qs: seq<QuestionRequest>, i: nat): (rows: seq<QuestionRow>)
    requires i <= |qs|
    ensures |rows| == i
  {
    if i == 0 then [] else QuestionRows(f, qs, i - 1) + [QuestionRowFor(f, qs[i - 1], i - 1)]
  }

  /** Row `k` is the row of question request `k`. */
  lemma {:induction false} QuestionRowsAt(f: Id, qs: seq<QuestionRequest>, i: nat)
    requires i <= |qs|
    ensures forall k :: 0 <= k < i ==> QuestionRows(f, qs, i)[k] == QuestionRowFor(f, qs[k], k)
  {
    if i > 0 {
      QuestionRowsAt(f, qs, i - 1);
    }
  }

  /** The rows of the saved options of `q`, which is saved under key `qid`. */
  function SavedOptionRows(qid: Id, q: QuestionRequest): seq<OptionRow>
  {
    OptionRows(qid, SavedOptions(q), |SavedOptions(q)|)
  }

  /** The blocks of `bs`, one after another. */
  function Flatten(bs: seq<seq<OptionRow>>): seq<OptionRow>
  {
    if bs == [] then [] else Flatten(bs[..|bs| - 1]) + bs[|bs| - 1]
  }

  /** The rows of `rows` that belong to question `q`, in order. */
  function RowsOf(rows: seq<OptionRow>, q: Id): seq<OptionRow>
  {
    Filter(rows, OfQuestion(q))
  }

  /** Block `b` of `bs` holds rows of question `q0 + b` only. */
  predicate BlocksAscend(bs: seq<seq<OptionRow>>, q0: Id)
  {
    forall b, t :: 0 <= b < |bs| && 0 <= t < |bs[b]| ==> bs[b][t].question == q0 + b
  }

  lemma {:induction false} FlattenBelow(bs: seq<seq<OptionRow>>, q0: Id, q: Id)
    requires BlocksAscend(bs, q0) && q0 + |bs| <= q
    ensures RowsOf(Flatten(bs), q) == []
  {
    if bs != [] {
      var init := bs[..|bs| - 1];
      assert BlocksAscend(init, q0);
      FlattenBelow(init, q0, q);
      FilterNone(bs[|bs| - 1], OfQuestion(q));
      FilterAppend(Flatten(init), bs[|bs| - 1], OfQuestion(q));
    }
  }

  /** Once the blocks are flattened, the rows of question `q0 + k` are still exactly block `k`. */
  lemma {:induction false} FlattenRowsOf(bs: seq<seq<OptionRow>>, q0: Id, k: nat)
    requires BlocksAscend(bs, q0) && k < |bs|
    ensures RowsOf(Flatten(bs), q0 + k) == bs[k]
  {
    var init := bs[..|bs| - 1];
    var last := bs[|bs| - 1];
    assert BlocksAscend(init, q0);
    FilterAppend(Flatten(init), last, OfQuestion(q0 + k));
    if k == |bs| - 1 {
      FlattenBelow(init, q0, q0 + k);
      FilterAll(last, OfQuestion(q0 + k));
      assert [] + last == last;
    } else {
      FlattenRowsOf(init, q0, k);
      FilterNone(last, OfQuestion(q0 + k));
      assert init[k] + [] == bs[k];
    }
  }

  /** The blocks of option rows for `qs[..i]`, the question of `qs[k]` being saved under key `q0 + k`. */
  function OptionBlocks(q0: Id, qs: seq<QuestionRequest>, i: nat): (bs: seq<seq<OptionRow>>)
    requires i <= |qs|
    ensures |bs| == i && BlocksAscend(bs, q0)
    ensures forall k :: 0 <= k < i ==> bs[k] == SavedOptionRows(q0 + k, qs[k])
  {
    var bs := seq(i, k requires 0 <= k < i => SavedOptionRows(q0 + k, qs[k]));
    assert BlocksAscend(bs, q0) by {
      forall b, t | 0 <= b < i && 0 <= t < |bs[b]|
        ensures bs[b][t].question == q0 + b
      {
        assert bs[b] == SavedOptionRows(q0 + b, qs[b]);
        OptionRowsAt(q0 + b, SavedOptions(qs[b]), |SavedOptions(qs[b])|);
      }
    }
    bs
  }

  /** The option rows the loops save for `qs[..i]`: each question's block, in request order. */
  function AllOptionRows(q0: Id, qs: seq<QuestionRequest>, i: nat): seq<OptionRow>
    requires i <= |qs|
  {
    if i == 0 then [] else AllOptionRows(q0, qs, i - 1) + SavedOptionRows(q0 + i - 1, qs[i - 1])
  }

  /** The saved option rows are the per-question blocks, flattened. */
  lemma {:induction false} AllOptionRowsFlatten(q0: Id, qs: seq<QuestionRequest>, i: nat)
    requires i <= |qs|
    ensures AllOptionRows(q0, qs, i) == Flatten(OptionBlocks(q0, qs, i))
  {
    if i > 0 {
      AllOptionRowsFlatten(q0, qs, i - 1);
      var bs := OptionBlocks(q0, qs, i);
      var init := OptionBlocks(q0, qs, i - 1);
      assert bs[..i - 1] == init by {
        forall k | 0 <= k < i - 1 ensures bs[..i - 1][k] == init[k] {
        }
      }
      calc {
        Flatten(bs);
        Flatten(bs[..i - 1]) + bs[i - 1];
        Flatten(init) + SavedOptionRows(q0 + i - 1, qs[i - 1]);
      }
    }
  }

  /**
   * Among all the option rows saved, those of the question saved under
   * `q0 + k` are exactly the rows of its own saved options, in order: every
   * option of a multiple-choice request, and none for any other kind.
   */
  lemma AllOptionRowsOf(q0: Id, qs: seq<QuestionRequest>, i: nat, k: nat)
    requires i <= |qs|
    requires k < i
    ensures RowsOf(AllOptionRows(q0, qs, i), q0 + k) == SavedOptionRows(q0 + k, qs[k])
  {
    AllOptionRowsFlatten(q0, qs, i);
    FlattenRowsOf(OptionBlocks(q0, qs, i), q0, k);
  }

  /** A question of any kind but multiple choice has no option rows saved. */
  lemma OnlyMultipleChoiceOptions(q0: Id, qs: seq<QuestionRequest>, i: nat, k: nat)
    requires i <= |qs|
    requires k < i && qs[k].qtype != Some(MultipleChoice)
    ensures RowsOf(AllOptionRows(q0, qs, i), q0 + k) == []
  {
    AllOptionRowsOf(q0, qs, i, k);
  }

  // ---------------------------------------------------------------------------
  // Creating a form: the whole transaction
  // ---------------------------------------------------------------------------

  /** The form row `createForm` inserts, with `onCreate`'s creation time and url. */
  function NewFormRow(req: FormRequest, owner: Id, now: Instant, uuid: string): FormRow
    requires req.title.Some?
  {
    FormRow(req.title.value, req.description, uuid, owner, now, None)
  }

  /**
   * `d` with question rows `questions` and option rows `options` inserted
   * under the next keys of their tables, in order.
   */
  function WithRows(d: Db, questions: seq<QuestionRow>, options: seq<OptionRow>): Db
  {
    d.(questions := AppendRows(d.questions, d.nextQuestion, questions),
       nextQuestion := d.nextQuestion + |questions|,
       options := AppendRows(d.options, d.nextOption, options),
       nextOption := d.nextOption + |options|)
  }

  /** `d` with the rows for `qs[..i]` and their options added, the questions of form `f`. */
  function SavedUpTo(d: Db, f: Id, qs: seq<QuestionRequest>, i: nat): Db
    requires i <= |qs|
  {
    WithRows(d, QuestionRows(f, qs, i), AllOptionRows(d.nextQuestion, qs, i))
  }

  /** `db` with form row `row` inserted under the next form key: the state the save loops start from. */
  function WithForm(db: Db, row: FormRow): Db
  {
    db.(forms := db.forms[db.nextForm := row], nextForm := db.nextForm + 1)
  }

  /** The state a committed `createForm` leaves: the form row, then the rows of the save loops. */
  function CreatedState(db: Db, req: FormRequest, username: string, now: Instant, uuid: string): Db
    requires KeysIssued(db) && req.title.Some? && FindByUsername(db, username).Some?
  {
    SavedUpTo(WithForm(db, NewFormRow(req, FindByUsername(db, username).value, now, uuid)), db.nextForm, req.questions, |req.questions|)
  }

  /**
   * `createForm`: the author must exist; the form row is inserted first (its
   * columns validated, its url unique), then every question and, for a
   * multiple-choice question, every option, each validated as it is
   * inserted.  Any failure rolls the whole transaction back.  The returned
   * view is built from the saved form entity, whose question list the loop
   * never fills, with a response count of 0.
   */
  function CreateFormSpec(db: Db, req: FormRequest, username: string, now: Instant, uuid: string)
    : Result<(Db, FormView), Failure>
    requires KeysIssued(db)
  {
    var user := FindByUsername(db, username);
    if user.None? then Err(NotFound("User not found"))
    else if !FormColumnsValid(req.title, req.description) then Err(ConstraintViolation)
    else if FindByPublicUrl(db, uuid).Some? then Err(DuplicateKey)
    else if exists k :: 0 <= k < |req.questions| && !QuestionSavable(req.questions[k]) then Err(ConstraintViolation)
    else
      var d := CreatedState(db, req, username, now, uuid);
      assert d.forms == WithForm(db, NewFormRow(req, FindByUsername(db, username).value, now, uuid)).forms && d.users == db.users;
      Ok((d, FormFromEntity(d, db.nextForm, [], 0)))
  }


  /** A question of any kind but multiple choice is savable once its own columns are valid, and saves no options. */
  lemma NonChoiceSavable(qid: Id, q: QuestionRequest)
    requires QuestionColumnsValid(q.text, q.qtype) && q.qtype != Some(MultipleChoice)
    ensures QuestionSavable(q) && SavedOptionRows(qid, q) == []
  {
    assert SavedOptions(q) == [];
  }

  /** A multiple-choice question with an option that breaks the option column constraints is not savable. */
  lemma BadOptionUnsavable(q: QuestionRequest, t: nat)
    requires q.qtype == Some(MultipleChoice) && t < |q.options| && !OptionColumnsValid(q.options[t].text)
    ensures !QuestionSavable(q)
  {
    assert q.options[t] in SavedOptions(q);
  }

  /** A question whose saved options all pass the option column constraints is savable. */
  lemma AllOptionsValid(q: QuestionRequest)
    requires QuestionColumnsValid(q.text, q.qtype)
    requires forall t :: 0 <= t < |SavedOptions(q)| ==> OptionColumnsValid(SavedOptions(q)[t].text)
    ensures QuestionSavable(q)
  {
    forall o | o in SavedOptions(q) ensures OptionColumnsValid(o.text) {
      var t :| 0 <= t < |SavedOptions(q)| && SavedOptions(q)[t] == o;
    }
  }

  /**
   * The inner loop of `createForm`: the options `os` of question `qid`
   * saved one by one, in order, after the option rows `log` saved so far
   * (the option table receives them under consecutive keys).  Saving an
   * option that breaks its column constraints abandons the loop.
   */
  method SaveOptions(log: seq<OptionRow>, qid: Id, os: seq<OptionRequest>) returns (r: Result<seq<OptionRow>, Failure>)
    ensures r.Ok? <==> forall t :: 0 <= t < |os| ==> OptionColumnsValid(os[t].text)
    ensures r.Ok? ==> r.value == log + OptionRows(qid, os, |os|)
    ensures r.Err? ==> r.error == ConstraintViolation
  {
    var saved := log;
    var j := 0;
    while j < |os|
      invariant 0 <= j <= |os|
      invariant forall t :: 0 <= t < j ==> OptionColumnsValid(os[t].text)
      invariant saved == log + OptionRows(qid, os, j)
    {
      var o := os[j];
      if !OptionColumnsValid(o.text) {
        return Err(ConstraintViolation);
      }
      saved := saved + [OptionRowFor(qid, o, j)];
      j := j + 1;
    }
    return Ok(saved);
  }

  /**
   * One pass of the outer loop of `createForm`: question request `q`, at
   * position `i` of form `f`, saved under key `qid`, then, for a
   * multiple-choice question, its options after the option rows `log` saved
   * so far.
   */
  method SaveQuestion(f: Id, qid: Id, i: nat, q: QuestionRequest, log: seq<OptionRow>)
    returns (r: Result<(QuestionRow, seq<OptionRow>), Failure>)
    ensures r.Ok? <==> QuestionSavable(q)
    ensures r.Ok? ==> r.value.0 == QuestionRowFor(f, q, i)
    ensures r.Ok? ==> r.value.1 == log + SavedOptionRows(qid, q)
    ensures r.Err? ==> r.error == ConstraintViolation
  {
    if !QuestionColumnsValid(q.text, q.qtype) {
      return Err(ConstraintViolation);
    }
    var row := QuestionRowFor(f, q, i);
    if q.qtype == Some(MultipleChoice) {
      var saved := SaveOptions(log, qid, q.options);
      if saved.Err? {
        var t :| 0 <= t < |q.options| && !OptionColumnsValid(q.options[t].text);
        BadOptionUnsavable(q, t);
        return Err(saved.error);
      }
      AllOptionsValid(q);
      return Ok((row, saved.value));
    }
    NonChoiceSavable(qid, q);
    assert log + [] == log;
    return Ok((row, log));
  }

  /** One more question saved keeps the outer loop's invariants. */
  lemma SaveQuestionsStep(f: Id, q0: Id, qs: seq<QuestionRequest>, i: nat,
                          questions: seq<QuestionRow>, options: seq<OptionRow>, row: QuestionRow, saved: seq<OptionRow>)
    requires i < |qs| && forall k :: 0 <= k < i ==> QuestionSavable(qs[k])
    requires questions == QuestionRows(f, qs, i) && options == AllOptionRows(q0, qs, i)
    requires QuestionSavable(qs[i]) && row == QuestionRowFor(f, qs[i], i) && saved == options + SavedOptionRows(q0 + i, qs[i])
    ensures forall k :: 0 <= k < i + 1 ==> QuestionSavable(qs[k])
    ensures questions + [row] == QuestionRows(f, qs, i + 1) && saved == AllOptionRows(q0, qs, i + 1)
  {
  }

  /**
   * The outer loop of `createForm` for form `f`: each question saved, then,
   * for a multiple-choice question, its options.  The question saved at
   * position `i` receives key `q0 + i`.  Saving a row that breaks its column
   * constraints abandons the loops.
   */
  method SaveQuestions(f: Id, q0: Id, qs: seq<QuestionRequest>) returns (r: Result<(seq<QuestionRow>, seq<OptionRow>), Failure>)
    ensures r.Ok? <==> forall k :: 0 <= k < |qs| ==> QuestionSavable(qs[k])
    ensures r.Ok? ==> r.value.0 == QuestionRows(f, qs, |qs|) && r.value.1 == AllOptionRows(q0, qs, |qs|)
    ensures r.Err? ==> r.error == ConstraintViolation
  {
    var questions: seq<QuestionRow> := [];
    var options: seq<OptionRow> := [];
    var i := 0;
    while i < |qs|
      invariant 0 <= i <= |qs|
      invariant forall k :: 0 <= k < i ==> QuestionSavable(qs[k])
      invariant questions == QuestionRows(f, qs, i)
      invariant options == AllOptionRows(q0, qs, i)
    {
      var saved := SaveQuestion(f, q0 + i, i, qs[i], options);
      if saved.Err? {
        return Err(saved.error);
      }
      SaveQuestionsStep(f, q0, qs, i, questions, options, saved.value.0, saved.value.1);
      questions, options := questions + [saved.value.0], saved.value.1;
      i := i + 1;
    }
    return Ok((questions, options));
  }

  /**
   * `createForm` as the service runs it: the user lookup, the form insert,
   * then the nested save loops.  The store is updated only when every insert
   * succeeded.
   */
  method CreateForm(repo: Repository, req: FormRequest, username: string, now: Instant, uuid: string)
    returns (r: Result<FormView, Failure>)
    requires KeysIssued(repo.db)
    modifies repo
    ensures match CreateFormSpec(old(repo.db), req, username, now, uuid)
      case Ok((d, v)) => r == Ok(v) && repo.db == d
      case Err(e) => r == Err(e) && repo.db == old(repo.db)
  {
    var db := repo.db;
    var user := FindByUsername(db, username);
    if user.None? {
      return Err(NotFound("User not found"));
    }
    if !FormColumnsValid(req.title, req.description) {
      return Err(ConstraintViolation);
    }
    if FindByPublicUrl(db, uuid).Some? {
      return Err(DuplicateKey);
    }
    var f := db.nextForm;
    var d0 := WithForm(db, NewFormRow(req, user.value, now, uuid));
    var saved := SaveQuestions(f, d0.nextQuestion, req.questions);
    if saved.Err? {
      return Err(saved.error);
    }
    var (questions, options) := saved.value;
    var d := WithRows(d0, questions, options);
    repo.db := d;
    return Ok(FormFromEntity(d, f, [], 0));
  }

  // ---------------------------------------------------------------------------
  // Creating a form: what the transaction promises
  // ---------------------------------------------------------------------------

  /** A request the controller's validation accepts never trips a column constraint. */
  lemma ValidQuestionSavable(q: QuestionRequest)
    requires ValidQuestion(q)
    ensures QuestionSavable(q)
  {
    forall o | o in SavedOptions(q) ensures OptionColumnsValid(o.text) {
      assert ValidOption(o);
    }
  }

  /**
   * The ways `createForm` ends: an unknown author is reported as such; a
   * request that passed validation, from a stored author, with a fresh url,
   * is always saved; and the only failures are the missing author, a column
   * constraint and a repeated url.
   */
  lemma CreateFormOutcomes(db: Db, req: FormRequest, username: string, now: Instant, uuid: string)
    requires KeysIssued(db)
    ensures FindByUsername(db, username).None? ==>
      CreateFormSpec(db, req, username, now, uuid) == Err(NotFound("User not found"))
    ensures ValidForm(req) && FindByUsername(db, username).Some? && FindByPublicUrl(db, uuid).None? ==>
      CreateFormSpec(db, req, username, now, uuid).Ok?
    ensures CreateFormSpec(db, req, username, now, uuid).Err? ==>
      CreateFormSpec(db, req, username, now, uuid).error in {NotFound("User not found"), ConstraintViolation, DuplicateKey}
  {
    if ValidForm(req) {
      forall k | 0 <= k < |req.questions| ensures QuestionSavable(req.questions[k]) {
        assert req.questions[k] in req.questions;
        ValidQuestionSavable(req.questions[k]);
      }
    }
  }

  /**
   * The view `createForm` returns describes the new form: the next form key,
   * the request's title and description, the generated url and creation
   * time, the author's username, no update time, no responses, and, because
   * the saved entity's question list is never filled in, no questions.
   */
  lemma CreateFormView(db: Db, req: FormRequest, username: string, now: Instant, uuid: string)
    requires KeysIssued(db) && CreateFormSpec(db, req, username, now, uuid).Ok?
    ensures var v := CreateFormSpec(db, req, username, now, uuid).value.1;
      v.id == db.nextForm && Some(v.title) == req.title && v.description == req.description &&
      v.publicUrl == uuid && v.createdBy == username && v.createdAt == now && v.updatedAt.None? &&
      v.questions == [] && v.responseCount == 0
  {
  }

  /**
   * The new state holds one more form, owned by the author and stored under
   * a key no row had; users, responses and answers are untouched, and every
   * question and option that was stored before is stored unchanged.
   */
  lemma CreateFormTables(db: Db, req: FormRequest, username: string, now: Instant, uuid: string)
    requires KeysIssued(db) && CreateFormSpec(db, req, username, now, uuid).Ok?
    ensures var d := CreateFormSpec(db, req, username, now, uuid).value.0;
      var f := db.nextForm;
      f !in db.forms && d.nextForm == f + 1 &&
      d.forms == db.forms[f := FormRow(req.title.value, req.description, uuid, FindByUsername(db, username).value, now, None)] &&
      d.users == db.users && d.responses == db.responses && d.answers == db.answers &&
      d.nextUser == db.nextUser && d.nextResponse == db.nextResponse && d.nextAnswer == db.nextAnswer &&
      (forall q :: q in db.questions ==> q in d.questions && d.questions[q] == db.questions[q]) &&
      (forall o :: o in db.options ==> o in d.options && d.options[o] == db.options[o])
  {
    var d := CreateFormSpec(db, req, username, now, uuid).value.0;
    var qs := req.questions;
    var f := db.nextForm;
    AppendRowsContents(db.questions, db.nextQuestion, QuestionRows(f, qs, |qs|));
    AppendRowsContents(db.options, db.nextOption, AllOptionRows(db.nextQuestion, qs, |qs|));
  }

  /** A committed `createForm` leaves the form row inserted and then the saved rows. */
  lemma CreateFormState(db: Db, req: FormRequest, username: string, now: Instant, uuid: string)
    requires KeysIssued(db) && CreateFormSpec(db, req, username, now, uuid).Ok?
    ensures req.title.Some? && FindByUsername(db, username).Some?
    ensures CreateFormSpec(db, req, username, now, uuid).value.0 == CreatedState(db, req, username, now, uuid)
  {
  }

  /**
   * Appending the question rows of `qs` for form `f` to a state where no
   * question of `f` is stored makes those rows all the questions of `f`, in
   * request order, under consecutive keys from the question table's next key.
   */
  lemma SavedQuestionsOf(d0: Db, f: Id, qs: seq<QuestionRequest>)
    requires forall q :: q in d0.questions ==> q < d0.nextQuestion && d0.questions[q].form != f
    ensures var d := SavedUpTo(d0, f, qs, |qs|);
      QuestionsOf(d, f) == KeyRange(d0.nextQuestion, |qs|) &&
      RowsAt(d.questions, QuestionsOf(d, f)) == QuestionRows(f, qs, |qs|)
  {
    var rows := QuestionRows(f, qs, |qs|);
    var d := SavedUpTo(d0, f, qs, |qs|);
    assert d.questions == AppendRows(d0.questions, d0.nextQuestion, rows) && d.nextQuestion == d0.nextQuestion + |rows|;
    QuestionRowsAt(f, qs, |qs|);
    AppendedQuestionsOf(d0, d, f, rows);
  }

  /**
   * After appending question rows that all belong to form `f`, a form no
   * stored question belonged to, the questions of `f` are the appended keys
   * and rows.
   */
  lemma AppendedQuestionsOf(d0: Db, d: Db, f: Id, rows: seq<QuestionRow>)
    requires forall q :: q in d0.questions ==> q < d0.nextQuestion && d0.questions[q].form != f
    requires forall t :: 0 <= t < |rows| ==> rows[t].form == f
    requires d.questions == AppendRows(d0.questions, d0.nextQuestion, rows) && d.nextQuestion == d0.nextQuestion + |rows|
    ensures QuestionsOf(d, f) == KeyRange(d0.nextQuestion, |rows|)
    ensures RowsAt(d.questions, QuestionsOf(d, f)) == rows
  {
    AppendedQuestionKeys(d0, d, f, rows);
    AppendedQuestionRows(d0, d, f, rows);
  }

  /** The keys half of `AppendedQuestionsOf`. */
  lemma AppendedQuestionKeys(d0: Db, d: Db, f: Id, rows: seq<QuestionRow>)
    requires forall q :: q in d0.questions ==> q < d0.nextQuestion && d0.questions[q].form != f
    requires forall t :: 0 <= t < |rows| ==> rows[t].form == f
    requires d.questions == AppendRows(d0.questions, d0.nextQuestion, rows) && d.nextQuestion == d0.nextQuestion + |rows|
    ensures QuestionsOf(d, f) == KeyRange(d0.nextQuestion, |rows|)
  {
    var keep := OfForm(f);
    assert QuestionsOf(d, f) == Scan(AppendRows(d0.questions, d0.nextQuestion, rows), keep, 0, d0.nextQuestion + |rows|);
    forall t | 0 <= t < |rows| ensures keep(rows[t]) {}
    forall q | q in d0.questions ensures q < d0.nextQuestion && !keep(d0.questions[q]) {}
    AppendedScanAll(d0.questions, d0.nextQuestion, rows, keep);
  }

  /** The rows half of `AppendedQuestionsOf`. */
  lemma AppendedQuestionRows(d0: Db, d: Db, f: Id, rows: seq<QuestionRow>)
    requires forall q :: q in d0.questions ==> q < d0.nextQuestion && d0.questions[q].form != f
    requires forall t :: 0 <= t < |rows| ==> rows[t].form == f
    requires d.questions == AppendRows(d0.questions, d0.nextQuestion, rows) && d.nextQuestion == d0.nextQuestion + |rows|
    ensures RowsAt(d.questions, QuestionsOf(d, f)) == rows
  {
    var keep := OfForm(f);
    assert QuestionsOf(d, f) == Scan(AppendRows(d0.questions, d0.nextQuestion, rows), keep, 0, d0.nextQuestion + |rows|);
    forall t | 0 <= t < |rows| ensures keep(rows[t]) {}
    forall q | q in d0.questions ensures q < d0.nextQuestion && !keep(d0.questions[q]) {}
    AppendedScanAllRows(d0.questions, d0.nextQuestion, rows, keep);
  }

  /**
   * The questions of the new form are exactly the rows saved for the
   * request's questions, in request order, under consecutive keys from the
   * question table's next key.
   */
  lemma CreateFormQuestions(db: Db, req: FormRequest, username: string, now: Instant, uuid: string, d: Db, v: FormView)
    requires KeysIssued(db) && ReferencesResolve(db) && CreateFormSpec(db, req, username, now, uuid) == Ok((d, v))
    ensures QuestionsOf(d, db.nextForm) == KeyRange(db.nextQuestion, |req.questions|)
    ensures RowsAt(d.questions, QuestionsOf(d, db.nextForm)) == QuestionRows(db.nextForm, req.questions, |req.questions|)
  {
    var f := db.nextForm;
    CreateFormState(db, req, username, now, uuid);
    var d0 := WithForm(db, NewFormRow(req, FindByUsername(db, username).value, now, uuid));
    forall q | q in d0.questions ensures q < d0.nextQuestion && d0.questions[q].form != f {
      assert db.questions[q].form in db.forms;
    }
    assert d == SavedUpTo(d0, f, req.questions, |req.questions|);
    assert d0.nextQuestion == db.nextQuestion;
    SavedQuestionsOf(d0, f, req.questions);
  }

  /** After appending option rows, the options of a question newer than every stored one are its appended rows. */
  lemma AppendedOptionsOf(d0: Db, d: Db, rows: seq<OptionRow>, q: Id)
    requires forall o :: o in d0.options ==> o < d0.nextOption && d0.options[o].question < q
    requires d.options == AppendRows(d0.options, d0.nextOption, rows) && d.nextOption == d0.nextOption + |rows|
    ensures RowsAt(d.options, OptionsOf(d, q)) == RowsOf(rows, q)
  {
    var keep := OfQuestion(q);
    forall o | o in d0.options
      ensures o < d0.nextOption && !keep(d0.options[o])
    {
    }
    AppendedScanRows(d0.options, d0.nextOption, rows, keep);
    assert OptionsOf(d, q) == Scan(AppendRows(d0.options, d0.nextOption, rows), keep, 0, d0.nextOption + |rows|);
  }

  /**
   * Appending the option rows of `qs` to a state whose stored options all
   * belong to questions below the question table's next key gives each new
   * question exactly the rows of its own saved options, in order.
   */
  lemma SavedOptionsOf(d0: Db, f: Id, qs: seq<QuestionRequest>, k: nat)
    requires forall o :: o in d0.options ==> o < d0.nextOption && d0.options[o].question < d0.nextQuestion
    requires k < |qs|
    ensures var d := SavedUpTo(d0, f, qs, |qs|);
      RowsAt(d.options, OptionsOf(d, d0.nextQuestion + k)) == SavedOptionRows(d0.nextQuestion + k, qs[k])
  {
    var q := d0.nextQuestion + k;
    var rows := AllOptionRows(d0.nextQuestion, qs, |qs|);
    var d := SavedUpTo(d0, f, qs, |qs|);
    assert d.options == AppendRows(d0.options, d0.nextOption, rows) && d.nextOption == d0.nextOption + |rows|;
    assert forall o :: o in d0.options ==> o < d0.nextOption && d0.options[o].question < q by {
      forall o | o in d0.options
        ensures o < d0.nextOption && d0.options[o].question < q
      {
      }
    }
    calc {
      RowsAt(d.options, OptionsOf(d, q));
      { AppendedOptionsOf(d0, d, rows, q); }
      RowsOf(rows, q);
      { AllOptionRowsOf(d0.nextQuestion, qs, |qs|, k); }
      SavedOptionRows(q, qs[k]);
    }
  }

  /**
   * The options of each question the new form saved are exactly the rows of
   * its request's options, in request order, when it is a multiple-choice
   * question, and none otherwise.
   */
  lemma CreateFormOptions(db: Db, req: FormRequest, username: string, now: Instant, uuid: string, d: Db, v: FormView, k: nat)
    requires KeysIssued(db) && ReferencesResolve(db) && CreateFormSpec(db, req, username, now, uuid) == Ok((d, v))
    requires k < |req.questions|
    ensures RowsAt(d.options, OptionsOf(d, db.nextQuestion + k)) == SavedOptionRows(db.nextQuestion + k, req.questions[k])
  {
    CreateFormState(db, req, username, now, uuid);
    var d0 := WithForm(db, NewFormRow(req, FindByUsername(db, username).value, now, uuid));
    forall o | o in d0.options ensures o < d0.nextOption && d0.options[o].question < d0.nextQuestion {
      assert db.options[o].question in db.questions;
    }
    assert d == CreatedState(db, req, username, now, uuid);
    var d1 := SavedUpTo(d0, db.nextForm, req.questions, |req.questions|);
    assert d == d1;
    assert d0.nextQuestion == db.nextQuestion;
    SavedOptionsOf(d0, db.nextForm, req.questions, k);
    assert RowsAt(d1.options, OptionsOf(d1, db.nextQuestion + k)) == SavedOptionRows(db.nextQuestion + k, req.questions[k]);
  }

  // ---------------------------------------------------------------------------
  // Creating a form keeps the store valid
  // ---------------------------------------------------------------------------

  /** Every option row saved for `qs[..i]` belongs to one of the questions saved under `q0 .. q0 + i - 1`. */
  lemma {:induction false} AllOptionRowsQuestions(q0: Id, qs: seq<QuestionRequest>, i: nat)
    requires i <= |qs|
    ensures forall t :: 0 <= t < |AllOptionRows(q0, qs, i)| ==>
      q0 <= AllOptionRows(q0, qs, i)[t].question < q0 + i
  {
    if i > 0 {
      AllOptionRowsQuestions(q0, qs, i - 1);
      var init: seq<OptionRow> := AllOptionRows(q0, qs, i - 1);
      var block: seq<OptionRow> := SavedOptionRows(q0 + i - 1, qs[i - 1]);
      OptionRowsAt(q0 + i - 1, SavedOptions(qs[i - 1]), |SavedOptions(qs[i - 1])|);
      forall t | 0 <= t < |init + block| ensures q0 <= (init + block)[t].question < q0 + i {
        if t >= |init| {
          assert (init + block)[t] == block[t - |init|];
        }
      }
    }
  }

  /** Inserting a form row keeps the store valid when its author is stored and its url is new. */
  lemma WithFormValid(db: Db, row: FormRow)
    requires Valid(db) && row.owner in db.users
    requires forall g :: g in db.forms ==> db.forms[g].publicUrl != row.publicUrl
    ensures Valid(WithForm(db, row))
  {
    WithFormResolves(db, row);
    AnswersCoherentSame(db, WithForm(db, row));
    WithFormUnique(db, row);
  }

  /** Keys stay issued and references keep resolving when the inserted form's author is stored. */
  lemma WithFormResolves(db: Db, row: FormRow)
    requires KeysIssued(db) && ReferencesResolve(db) && row.owner in db.users
    ensures KeysIssued(WithForm(db, row)) && ReferencesResolve(WithForm(db, row))
  {
    assert db.nextForm !in db.forms;
  }

  /** The unique columns stay unique when the inserted form's public url is new. */
  lemma WithFormUnique(db: Db, row: FormRow)
    requires UniqueKeys(db) && forall k :: k in db.forms ==> k < db.nextForm
    requires forall g :: g in db.forms ==> db.forms[g].publicUrl != row.publicUrl
    ensures UniqueKeys(WithForm(db, row))
  {
    var forms := db.forms[db.nextForm := row];
    forall f, g | f in forms && g in forms && forms[f].publicUrl == forms[g].publicUrl ensures f == g {
      assert f in db.forms && g in db.forms ==> db.forms[f].publicUrl == db.forms[g].publicUrl;
    }
  }

  lemma WithRowsKeys(d: Db, questions: seq<QuestionRow>, options: seq<OptionRow>)
    requires KeysIssued(d)
    ensures KeysIssued(WithRows(d, questions, options))
    ensures forall q :: q in d.questions ==>
      q in WithRows(d, questions, options).questions && WithRows(d, questions, options).questions[q] == d.questions[q]
    ensures forall o :: o in d.options ==>
      o in WithRows(d, questions, options).options && WithRows(d, questions, options).options[o] == d.options[o]
  {
    AppendRowsOld(d.questions, d.nextQuestion, questions);
    AppendRowsOld(d.options, d.nextOption, options);
  }

  lemma WithRowsResolve(d: Db, questions: seq<QuestionRow>, options: seq<OptionRow>)
    requires KeysIssued(d) && ReferencesResolve(d)
    requires forall t :: 0 <= t < |questions| ==> questions[t].form in d.forms
    requires forall t :: 0 <= t < |options| ==>
      d.nextQuestion <= options[t].question < d.nextQuestion + |questions|
    ensures ReferencesResolve(WithRows(d, questions, options))
  {
    var d' := WithRows(d, questions, options);
    var n := d.nextQuestion;
    AppendRowsContents(d.questions, n, questions);
    AppendRowsContents(d.options, d.nextOption, options);
    forall q | q in d'.questions ensures d'.questions[q].form in d'.forms {
      if n <= q {
        assert d'.questions[q] == questions[q - n];
      }
    }
    forall o | o in d'.options ensures d'.options[o].question in d'.questions {
      if d.nextOption <= o {
        assert d'.options[o] == options[o - d.nextOption];
      }
    }
  }

  /**
   * Inserting question rows of stored forms, and option rows of those new
   * questions only, keeps the store valid.
   */
  lemma WithRowsValid(d: Db, questions: seq<QuestionRow>, options: seq<OptionRow>)
    requires Valid(d)
    requires forall t :: 0 <= t < |questions| ==> questions[t].form in d.forms
    requires forall t :: 0 <= t < |options| ==>
      d.nextQuestion <= options[t].question < d.nextQuestion + |questions|
    ensures Valid(WithRows(d, questions, options))
  {
    var d' := WithRows(d, questions, options);
    WithRowsKeys(d, questions, options);
    WithRowsResolve(d, questions, options);
    AnswersCoherentKept(d, d');
    assert d'.forms == d.forms && d'.users == d.users;
  }

  /** The save loops' rows for the questions of a stored form keep the store valid. */
  lemma SavedUpToValid(d0: Db, f: Id, qs: seq<QuestionRequest>)
    requires Valid(d0) && f in d0.forms
    ensures Valid(SavedUpTo(d0, f, qs, |qs|))
  {
    var questions := QuestionRows(f, qs, |qs|);
    var options := AllOptionRows(d0.nextQuestion, qs, |qs|);
    assert forall t :: 0 <= t < |questions| ==> questions[t].form in d0.forms by {
      QuestionRowsAt(f, qs, |qs|);
    }
    assert forall t :: 0 <= t < |options| ==> d0.nextQuestion <= options[t].question < d0.nextQuestion + |questions| by {
      AllOptionRowsQuestions(d0.nextQuestion, qs, |qs|);
    }
    WithRowsValid(d0, questions, options);
  }

  /** A committed `createForm` leaves a valid store valid. */
  lemma CreateFormValid(db: Db, req: FormRequest, username: string, now: Instant, uuid: string, d: Db, v: FormView)
    requires Valid(db) && CreateFormSpec(db, req, username, now, uuid) == Ok((d, v))
    ensures Valid(d)
  {
    CreateFormState(db, req, username, now, uuid);
    var row := NewFormRow(req, FindByUsername(db, username).value, now, uuid);
    WithFormValid(db, row);
    SavedUpToValid(WithForm(db, row), db.nextForm, req.questions);
  }

  // ---------------------------------------------------------------------------
  // Reading forms
  // ---------------------------------------------------------------------------

  /** Stored forms mapped one by one, each with its loaded questions and its response count. */
  function FormViews(db: Db, fs: seq<Id>): (vs: seq<FormView>)
    requires forall f :: f in fs ==> f in db.forms && db.forms[f].owner in db.users
    ensures |vs| == |fs|
    ensures forall i :: 0 <= i < |fs| ==>
      vs[i].id == fs[i] && vs[i].createdBy == db.users[db.forms[fs[i]].owner].username &&
      vs[i].responseCount == CountByForm(db, fs[i])
  {
    if fs == [] then [] else [StoredFormView(db, fs[0])] + FormViews(db, fs[1..])
  }

  /** `getAllFormsByUser`: the author's forms in creation order, each with its response count. */
  function GetAllFormsByUserSpec(db: Db, username: string): Result<seq<FormView>, Failure>
    requires KeysIssued(db) && ReferencesResolve(db)
  {
    var user := FindByUsername(db, username);
    if user.None? then Err(NotFound("User not found"))
    else Ok(FormViews(db, FormsOwnedBy(db, user.value)))
  }

  /**
   * Listing fails only for an unknown user.  Otherwise it returns exactly
   * the forms that user owns, oldest first, each carrying the user's name
   * and the number of responses stored for it.
   */
  lemma GetAllFormsByUserExact(db: Db, username: string)
    requires KeysIssued(db) && ReferencesResolve(db)
    ensures GetAllFormsByUserSpec(db, username).Err? <==> FindByUsername(db, username).None?
    ensures GetAllFormsByUserSpec(db, username).Err? ==> GetAllFormsByUserSpec(db, username).error == NotFound("User not found")
    ensures GetAllFormsByUserSpec(db, username).Ok? ==>
      var vs := GetAllFormsByUserSpec(db, username).value;
      var u := FindByUsername(db, username).value;
      (forall f :: f in FormIds(vs) <==> f in db.forms && db.forms[f].owner == u) &&
      Increasing(FormIds(vs)) &&
      (forall i :: 0 <= i < |vs| ==> vs[i].createdBy == username && vs[i].responseCount == CountByForm(db, vs[i].id))
  {
    var user := FindByUsername(db, username);
    if user.Some? {
      var fs := FormsOwnedBy(db, user.value);
      var vs := FormViews(db, fs);
      assert FormIds(vs) == fs;
    }
  }

  /** The keys of a list of form views, in order. */
  function FormIds(vs: seq<FormView>): (ids: seq<Id>)
    ensures |ids| == |vs| && forall i :: 0 <= i < |vs| ==> ids[i] == vs[i].id
  {
    seq(|vs|, i requires 0 <= i < |vs| => vs[i].id)
  }

  /**
   * The owner check `getFormById` and `deleteForm` share: the caller must be
   * a stored user, the form must be stored, and its owner must be that user;
   * `denied` is the message of the last check.
   */
  function CheckOwner(db: Db, id: Id, username: string, denied: string): (r: Result<Id, Failure>)
    requires KeysIssued(db)
    ensures r.Ok? ==> r.value == id && id in db.forms
  {
    var user := FindByUsername(db, username);
    if user.None? then Err(NotFound("User not found"))
    else if id !in db.forms then Err(NotFound("Form not found"))
    else if db.forms[id].owner != user.value then Err(NotAuthorized(denied))
    else Ok(id)
  }

  /**
   * With unique usernames, the owner check passes exactly when the form is
   * stored and its owner's username is the caller's, and otherwise reports
   * the first check that fails, each with its own failure.
   */
  lemma CheckOwnerOutcomes(db: Db, id: Id, username: string, denied: string)
    requires Valid(db)
    ensures CheckOwner(db, id, username, denied).Ok? <==> OwnerName(db, id) == Some(username)
    ensures FindByUsername(db, username).None? ==> CheckOwner(db, id, username, denied) == Err(NotFound("User not found"))
    ensures FindByUsername(db, username).Some? && id !in db.forms ==>
      CheckOwner(db, id, username, denied) == Err(NotFound("Form not found"))
    ensures FindByUsername(db, username).Some? && id in db.forms && OwnerName(db, id) != Some(username) ==>
      CheckOwner(db, id, username, denied) == Err(NotAuthorized(denied))
  {
    var user := FindByUsername(db, username);
    if id in db.forms && OwnerName(db, id) == Some(username) {
      var o := db.forms[id].owner;
      assert user.Some?;
      assert db.users[user.value].username == db.users[o].username;
    }
  }

  /** `getFormById`: the owner's view of one stored form. */
  function GetFormByIdSpec(db: Db, id: Id, username: string): (r: Result<FormView, Failure>)
    requires KeysIssued(db) && ReferencesResolve(db)
  {
    match CheckOwner(db, id, username, "Not authorized to access this form")
    case Err(e) => Err(e)
    case Ok(f) => Ok(StoredFormView(db, f))
  }

  /**
   * `getFormById` returns a view exactly when the caller owns the form; the
   * view is that form's, carries the caller's name and the form's response
   * count.  Otherwise the failure is the owner check's.
   */
  lemma GetFormByIdOutcomes(db: Db, id: Id, username: string)
    requires Valid(db)
    ensures GetFormByIdSpec(db, id, username).Ok? <==> OwnerName(db, id) == Some(username)
    ensures GetFormByIdSpec(db, id, username).Ok? ==>
      var v := GetFormByIdSpec(db, id, username).value;
      v.id == id && v.createdBy == username && v.publicUrl == db.forms[id].publicUrl &&
      v.responseCount == CountByForm(db, id) && |v.questions| == |QuestionsOf(db, id)|
    ensures GetFormByIdSpec(db, id, username).Err? ==>
      Err(GetFormByIdSpec(db, id, username).error) == CheckOwner(db, id, username, "Not authorized to access this form")
  {
    CheckOwnerOutcomes(db, id, username, "Not authorized to access this form");
  }

  /** `getFormByPublicUrl`: no caller and no owner check, only the lookup by url. */
  function GetFormByPublicUrlSpec(db: Db, url: string): (r: Result<FormView, Failure>)
    requires KeysIssued(db) && ReferencesResolve(db)
  {
    match FindByPublicUrl(db, url)
    case None => Err(NotFound("Form not found"))
    case Some(f) => Ok(StoredFormView(db, f))
  }

  /**
   * The public lookup fails, with "Form not found", exactly when no form has
   * the url; with unique urls it otherwise returns the view of the one form
   * that has it.
   */
  lemma GetFormByPublicUrlOutcomes(db: Db, url: string, f: Id)
    requires Valid(db)
    ensures GetFormByPublicUrlSpec(db, url).Err? <==> forall g :: g in db.forms ==> db.forms[g].publicUrl != url
    ensures GetFormByPublicUrlSpec(db, url).Err? ==> GetFormByPublicUrlSpec(db, url).error == NotFound("Form not found")
    ensures f in db.forms && db.forms[f].publicUrl == url ==>
      GetFormByPublicUrlSpec(db, url) == Ok(StoredFormView(db, f))
  {
    var r := FindByPublicUrl(db, url);
    if f in db.forms && db.forms[f].publicUrl == url {
      assert r.Some? && db.forms[r.value].publicUrl == db.forms[f].publicUrl;
    }
  }

  // ---------------------------------------------------------------------------
  // Deleting a form
  // ---------------------------------------------------------------------------

  /** The rows of `m` that `drop` does not select. */
  function Without<T>(m: map<Id, T>, drop: T -> bool): (r: map<Id, T>)
    ensures forall k :: k in r <==> k in m && !drop(m[k])
    ensures forall k :: k in r ==> r[k] == m[k]
  {
    map k | k in m && !drop(m[k]) :: m[k]
  }

  /**
   * `formRepository.delete(form)` with the cascades of the mapping: the
   * form, its questions, their options, its responses, and the answers both
   * of its responses and of its questions.  Key generators are not reset.
   */
  function CascadeDelete(db: Db, f: Id): Db
  {
    var ofForm := (q: Id) => q in db.questions && db.questions[q].form == f;
    var toForm := (r: Id) => r in db.responses && db.responses[r].form == f;
    db.(forms := db.forms - {f},
        questions := Without(db.questions, OfForm(f)),
        options := Without(db.options, (o: OptionRow) => ofForm(o.question)),
        responses := Without(db.responses, ToForm(f)),
        answers := Without(db.answers, (a: AnswerRow) => ofForm(a.question) || toForm(a.response)))
  }

  /** `deleteForm`: the owner check, then the cascading delete. */
  function DeleteFormSpec(db: Db, id: Id, username: string): (r: Result<Db, Failure>)
    requires KeysIssued(db)
  {
    match CheckOwner(db, id, username, "Not authorized to delete this form")
    case Err(e) => Err(e)
    case Ok(f) => Ok(CascadeDelete(db, f))
  }

  /** `deleteForm` as the service runs it; a failed check leaves the store as it was. */
  method DeleteForm(repo: Repository, id: Id, username: string) returns (r: Result<(), Failure>)
    requires KeysIssued(repo.db)
    modifies repo
    ensures match DeleteFormSpec(old(repo.db), id, username)
      case Ok(d) => r == Ok(()) && repo.db == d
      case Err(e) => r == Err(e) && repo.db == old(repo.db)
  {
    var db := repo.db;
    var user := FindByUsername(db, username);
    if user.None? {
      return Err(NotFound("User not found"));
    }
    if id !in db.forms {
      return Err(NotFound("Form not found"));
    }
    if db.forms[id].owner != user.value {
      return Err(NotAuthorized("Not authorized to delete this form"));
    }
    repo.db := CascadeDelete(db, id);
    return Ok(());
  }

  /**
   * Deleting a form removes it and everything that hangs from it: no
   * remaining question, option, response or answer leads back to the form.
   */
  lemma CascadeDeleteRemoves(db: Db, f: Id)
    requires ReferencesResolve(db)
    ensures var d := CascadeDelete(db, f);
      f !in d.forms &&
      (forall q :: q in d.questions ==> d.questions[q].form != f) &&
      (forall o :: o in d.options ==> d.questions[d.options[o].question].form != f) &&
      (forall r :: r in d.responses ==> d.responses[r].form != f) &&
      (forall a :: a in d.answers ==> d.responses[d.answers[a].response].form != f && d.questions[d.answers[a].question].form != f)
  {
    CascadeDeleteResolves(db, f);
  }

  /**
   * Deleting a form removes nothing else: every other form, every question
   * of another form, every option of such a question, every response to
   * another form and every answer belonging to neither is kept unchanged,
   * and the users and key generators are untouched.
   */
  lemma CascadeDeleteKeeps(db: Db, f: Id)
    ensures var d := CascadeDelete(db, f);
      d.users == db.users &&
      d.nextUser == db.nextUser && d.nextForm == db.nextForm && d.nextQuestion == db.nextQuestion &&
      d.nextOption == db.nextOption && d.nextResponse == db.nextResponse && d.nextAnswer == db.nextAnswer &&
      (forall g :: g in db.forms && g != f ==> g in d.forms && d.forms[g] == db.forms[g]) &&
      (forall q :: q in db.questions && db.questions[q].form != f ==> q in d.questions && d.questions[q] == db.questions[q]) &&
      (forall o :: o in db.options && db.options[o].question in d.questions ==> o in d.options && d.options[o] == db.options[o]) &&
      (forall r :: r in db.responses && db.responses[r].form != f ==> r in d.responses && d.responses[r] == db.responses[r]) &&
      (forall a :: a in db.answers && db.answers[a].question in d.questions && db.answers[a].response in d.responses ==>
        a in d.answers && d.answers[a] == db.answers[a])
  {
  }

  /** Every reference left after the delete still resolves. */
  lemma CascadeDeleteResolves(db: Db, f: Id)
    requires ReferencesResolve(db)
    ensures ReferencesResolve(CascadeDelete(db, f))
  {
    CascadeDeleteQuestionsResolve(db, f);
    CascadeDeleteResponsesResolve(db, f);
  }

  /** After the cascade, kept questions name kept forms and kept options name kept questions. */
  lemma CascadeDeleteQuestionsResolve(db: Db, f: Id)
    requires ReferencesResolve(db)
    ensures var d := CascadeDelete(db, f);
      (forall q :: q in d.questions ==> d.questions[q].form in d.forms) &&
      (forall o :: o in d.options ==> d.options[o].question in d.questions)
  {
    var d := CascadeDelete(db, f);
    forall q | q in d.questions ensures d.questions[q].form in d.forms {
      assert db.questions[q].form in db.forms;
    }
    forall o | o in d.options ensures d.options[o].question in d.questions {
      assert db.options[o].question in db.questions;
    }
  }

  /** After the cascade, kept responses name kept forms and kept answers name kept responses and questions. */
  lemma CascadeDeleteResponsesResolve(db: Db, f: Id)
    requires ReferencesResolve(db)
    ensures var d := CascadeDelete(db, f);
      (forall r :: r in d.responses ==> d.responses[r].form in d.forms) &&
      (forall a :: a in d.answers ==> d.answers[a].response in d.responses && d.answers[a].question in d.questions)
  {
    var d := CascadeDelete(db, f);
    forall r | r in d.responses ensures d.responses[r].form in d.forms {
      assert db.responses[r].form in db.forms;
    }
    forall a | a in d.answers ensures d.answers[a].response in d.responses && d.answers[a].question in d.questions {
      assert db.answers[a].response in db.responses && db.answers[a].question in db.questions;
    }
  }


  /** Deleting a form keeps a valid store valid. */
  lemma CascadeDeleteValid(db: Db, f: Id)
    requires Valid(db)
    ensures Valid(CascadeDelete(db, f))
  {
    CascadeDeleteResolves(db, f);
    CascadeDeleteCoherent(db, f);
    assert KeysIssued(CascadeDelete(db, f));
    assert UniqueKeys(CascadeDelete(db, f));
  }

  /** Every answer the cascade keeps is still coherent. */
  lemma CascadeDeleteCoherent(db: Db, f: Id)
    requires Valid(db) && ReferencesResolve(CascadeDelete(db, f))
    ensures AnswersCoherent(CascadeDelete(db, f))
  {
    var d := CascadeDelete(db, f);
    forall a | a in d.answers ensures AnswerCoherent(d, d.answers[a]) {
      assert AnswerCoherent(db, db.answers[a]);
      forall o | o in OptionRefs(d.answers[a].payload) ensures o in d.options {
        assert db.options[o].question == d.answers[a].question;
      }
    }
  }


  /**
   * The outcomes of `deleteForm` on a valid store: it succeeds exactly when
   * the caller owns the form, every failure is the owner check's, and a
   * successful delete leaves a valid store in which the form is gone.
   */
  lemma DeleteFormOutcomes(db: Db, id: Id, username: string)
    requires Valid(db)
    ensures DeleteFormSpec(db, id, username).Ok? <==> OwnerName(db, id) == Some(username)
    ensures DeleteFormSpec(db, id, username).Err? ==>
      Err(DeleteFormSpec(db, id, username).error) == CheckOwner(db, id, username, "Not authorized to delete this form")
    ensures DeleteFormSpec(db, id, username).Ok? ==>
      var d := DeleteFormSpec(db, id, username).value;
      Valid(d) && id !in d.forms && GetFormByIdSpec(d, id, username) == Err(NotFound("Form not found"))
  {
    CheckOwnerOutcomes(db, id, username, "Not authorized to delete this form");
    if OwnerName(db, id) == Some(username) {
      var d := CascadeDelete(db, id);
      CascadeDeleteValid(db, id);
      assert FindByUsername(d, username) == FindByUsername(db, username) by {
        assert d.users == db.users && d.nextUser == db.nextUser;
      }
    }
  }
}
