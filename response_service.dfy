/**
 * `ResponseService`: submitting a response to a published form, the owner's
 * and the respondent's reads, and the CSV exports.  Submission is one
 * transaction: it works on a copy of the store and commits only when every
 * answer draft passed its checks.
 */
module ResponseService {
  import opened Wrappers
  import opened Strings
  import opened Store
  import opened Views
  import opened Requests

  // ---------------------------------------------------------------------------
  // Submission: the checks one answer draft goes through
  // ---------------------------------------------------------------------------

  /**
   * The word-limit rule: a positive limit, a text, and more pieces than the
   * limit once the text is trimmed and split on runs of whitespace.
   */
  predicate WordLimitExceeded(limit: Option<int>, text: Option<string>)
  {
    limit.Some? && limit.value > 0 && text.Some? && JavaWordCount(text.value) > limit.value
  }

  /** Looking up selected option `o` for question `qid`: `None` when it is one of that question's options. */
  function CheckOption(db: Db, qid: Id, o: Id): Option<Failure>
  {
    if o !in db.options then Some(NotFound("Option not found"))
    else if db.options[o].question != qid then Some(Rejected("Option does not belong to this question"))
    else None
  }

  /** The first failure among the selected options `os`, looked up in order. */
  function CheckOptions(db: Db, qid: Id, os: seq<Id>): Option<Failure>
  {
    if os == [] then None
    else if CheckOption(db, qid, os[0]).Some? then CheckOption(db, qid, os[0])
    else CheckOptions(db, qid, os[1..])
  }

  /** The rating rule: not below a set minimum, then not above a set maximum. */
  function CheckRating(q: QuestionRow, v: int): Option<Failure>
  {
    if q.minRating.Some? && v < q.minRating.value then
      Some(Rejected("Rating value must be at least " + IntToString(q.minRating.value)))
    else if q.maxRating.Some? && v > q.maxRating.value then
      Some(Rejected("Rating value must be at most " + IntToString(q.maxRating.value)))
    else None
  }

  /** The date rule, on the strings' lexicographic order: not before a set minimum, then not after a set maximum. */
  function CheckDate(q: QuestionRow, v: string): Option<Failure>
  {
    if q.minDate.Some? && LexLess(v, q.minDate.value) then
      Some(Rejected("Date must be on or after " + q.minDate.value))
    else if q.maxDate.Some? && LexLess(q.maxDate.value, v) then
      Some(Rejected("Date must be on or before " + q.maxDate.value))
    else None
  }

  /** What the answer to question `qid` records from draft `a`, by the question's kind, or why it is refused. */
  function PayloadFor(db: Db, qid: Id, a: AnswerRequest): Result<Payload, Failure>
    requires qid in db.questions
  {
    var q := db.questions[qid];
    match q.qtype
    case Text | TextWithLimit =>
      if WordLimitExceeded(q.wordLimit, a.textAnswer) then
        Err(Rejected("Answer exceeds word limit of " + IntToString(q.wordLimit.value) + " words"))
      else Ok(TextPayload(a.textAnswer))
    case MultipleChoice | SingleSelect =>
      if a.selectedOptionId.Some? && CheckOption(db, qid, a.selectedOptionId.value).Some? then
        Err(CheckOption(db, qid, a.selectedOptionId.value).value)
      else Ok(ChoicePayload(a.selectedOptionId))
    case MultiSelect =>
      var os := a.selectedOptionIds.GetOr([]);
      if CheckOptions(db, qid, os).Some? then Err(CheckOptions(db, qid, os).value)
      else Ok(MultiPayload(os))
    case RatingScale =>
      if a.ratingValue.Some? && CheckRating(q, a.ratingValue.value).Some? then
        Err(CheckRating(q, a.ratingValue.value).value)
      else Ok(RatingPayload(a.ratingValue))
    case Date =>
      if a.dateValue.Some? && CheckDate(q, a.dateValue.value).Some? then
        Err(CheckDate(q, a.dateValue.value).value)
      else Ok(DatePayload(a.dateValue))
  }

  /** The answer row draft `a` becomes in response `r` to form `f`, or why the submission stops there. */
  function AnswerRowFor(db: Db, f: Id, r: Id, a: AnswerRequest): Result<AnswerRow, Failure>
  {
    if a.questionId.None? then Err(NullId)
    else if a.questionId.value !in db.questions then Err(NotFound("Question not found"))
    else if db.questions[a.questionId.value].form != f then Err(Rejected("Question does not belong to this form"))
    else
      match PayloadFor(db, a.questionId.value, a)
      case Err(e) => Err(e)
      case Ok(p) => Ok(AnswerRow(r, a.questionId.value, p))
  }

  /** The answer rows of the drafts `ds`, one per draft in order, or the failure of the first draft refused. */
  function AnswerRows(db: Db, f: Id, r: Id, ds: seq<AnswerRequest>): Result<seq<AnswerRow>, Failure>
    decreases |ds|
  {
    if ds == [] then Ok([])
    else
      match AnswerRows(db, f, r, ds[..|ds| - 1])
      case Err(e) => Err(e)
      case Ok(rows) =>
        match AnswerRowFor(db, f, r, ds[|ds| - 1])
        case Err(e) => Err(e)
        case Ok(row) => Ok(rows + [row])
  }

  // ---------------------------------------------------------------------------
  // Submission: the rules stated independently
  // ---------------------------------------------------------------------------

  /** `o` is a stored option of question `qid`. */
  predicate OptionOf(db: Db, o: Id, qid: Id)
  {
    o in db.options && db.options[o].question == qid
  }

  /** The per-kind rule a draft for stored question `qid` must meet. */
  predicate DraftAccepted(db: Db, qid: Id, a: AnswerRequest)
    requires qid in db.questions
  {
    var q := db.questions[qid];
    match q.qtype
    case Text | TextWithLimit => !WordLimitExceeded(q.wordLimit, a.textAnswer)
    case MultipleChoice | SingleSelect => a.selectedOptionId.Some? ==> OptionOf(db, a.selectedOptionId.value, qid)
    case MultiSelect => a.selectedOptionIds.Some? ==> forall o :: o in a.selectedOptionIds.value ==> OptionOf(db, o, qid)
    case RatingScale =>
      a.ratingValue.Some? ==>
        (q.minRating.Some? ==> q.minRating.value <= a.ratingValue.value) &&
        (q.maxRating.Some? ==> a.ratingValue.value <= q.maxRating.value)
    case Date =>
      a.dateValue.Some? ==>
        (q.minDate.Some? ==> !LexLess(a.dateValue.value, q.minDate.value)) &&
        (q.maxDate.Some? ==> !LexLess(q.maxDate.value, a.dateValue.value))
  }

  /** The payload records the draft's field for the question's kind, unchanged. */
  predicate RecordsDraft(t: QuestionType, a: AnswerRequest, p: Payload)
  {
    match t
    case Text | TextWithLimit => p == TextPayload(a.textAnswer)
    case MultipleChoice | SingleSelect => p == ChoicePayload(a.selectedOptionId)
    case MultiSelect => p == MultiPayload(a.selectedOptionIds.GetOr([]))
    case RatingScale => p == RatingPayload(a.ratingValue)
    case Date => p == DatePayload(a.dateValue)
  }

  lemma {:induction false} CheckOptionsNone(db: Db, qid: Id, os: seq<Id>)
    ensures CheckOptions(db, qid, os).None? <==> forall o :: o in os ==> OptionOf(db, o, qid)
  {
    if os != [] {
      CheckOptionsNone(db, qid, os[1..]);
      assert CheckOption(db, qid, os[0]).None? <==> OptionOf(db, os[0], qid);
      assert forall o :: o in os <==> o == os[0] || o in os[1..];
    }
  }

  /**
   * A draft is accepted exactly when its question id is present, names a
   * stored question of the form, and the draft meets that question's rule;
   * the accepted draft becomes an answer of the response to that question
   * recording the draft's value unchanged.
   */
  lemma AnswerRowForIff(db: Db, f: Id, r: Id, a: AnswerRequest)
    ensures AnswerRowFor(db, f, r, a).Ok? <==>
      a.questionId.Some? && a.questionId.value in db.questions &&
      db.questions[a.questionId.value].form == f && DraftAccepted(db, a.questionId.value, a)
    ensures AnswerRowFor(db, f, r, a).Ok? ==>
      var row := AnswerRowFor(db, f, r, a).value;
      row.response == r && Some(row.question) == a.questionId &&
      RecordsDraft(db.questions[row.question].qtype, a, row.payload)
  {
    if a.questionId.Some? && a.questionId.value in db.questions {
      var qid := a.questionId.value;
      if db.questions[qid].qtype == MultiSelect {
        CheckOptionsNone(db, qid, a.selectedOptionIds.GetOr([]));
      }
    }
  }

  /** Java's split keeps one (empty) piece for an empty or all-whitespace text, so a positive limit never refuses it. */
  lemma BlankTextWithinLimit(limit: Option<int>, t: string)
    requires forall i :: 0 <= i < |t| ==> IsTrimSpace(t[i])
    ensures JavaWordCount(t) == 1
    ensures !WordLimitExceeded(limit, Some(t))
  {
    TrimEmptyIff(t, IsTrimSpace);
    assert JavaTrim(t) == [];
    assert NoSeparator([], IsRegexSpace);
  }

  /**
   * The drafts are processed in order: the rows exist exactly when every
   * draft is accepted, one row per draft in draft order; otherwise the
   * failure is that of the first refused draft.
   */
  lemma {:induction false} AnswerRowsIff(db: Db, f: Id, r: Id, ds: seq<AnswerRequest>)
    ensures AnswerRows(db, f, r, ds).Ok? <==> forall k :: 0 <= k < |ds| ==> AnswerRowFor(db, f, r, ds[k]).Ok?
    ensures AnswerRows(db, f, r, ds).Ok? ==>
      |AnswerRows(db, f, r, ds).value| == |ds| &&
      forall k :: 0 <= k < |ds| ==> AnswerRows(db, f, r, ds).value[k] == AnswerRowFor(db, f, r, ds[k]).value
    ensures AnswerRows(db, f, r, ds).Err? ==>
      exists k :: 0 <= k < |ds| && AnswerRowFor(db, f, r, ds[k]) == Err(AnswerRows(db, f, r, ds).error) &&
        forall j :: 0 <= j < k ==> AnswerRowFor(db, f, r, ds[j]).Ok?
    decreases |ds|
  {
    if ds != [] {
      var init := ds[..|ds| - 1];
      AnswerRowsIff(db, f, r, init);
      assert forall k :: 0 <= k < |init| ==> init[k] == ds[k];
    }
  }

  /** Once a prefix of the drafts is refused, the whole submission fails the same way. */
  lemma {:induction false} AnswerRowsErrPrefix(db: Db, f: Id, r: Id, ds: seq<AnswerRequest>, i: nat)
    requires i <= |ds| && AnswerRows(db, f, r, ds[..i]).Err?
    ensures AnswerRows(db, f, r, ds) == AnswerRows(db, f, r, ds[..i])
    decreases |ds| - i
  {
    if i < |ds| {
      assert ds[..i + 1][..i] == ds[..i];
      AnswerRowsErrPrefix(db, f, r, ds, i + 1);
    } else {
      assert ds[..i] == ds;
    }
  }

  /** Nothing stops the same question from being answered twice: a repeated accepted draft yields two rows. */
  lemma DuplicateDraftsAccepted(db: Db, f: Id, r: Id, a: AnswerRequest)
    requires AnswerRowFor(db, f, r, a).Ok?
    ensures AnswerRows(db, f, r, [a, a]) == Ok([AnswerRowFor(db, f, r, a).value, AnswerRowFor(db, f, r, a).value])
  {
    var row := AnswerRowFor(db, f, r, a).value;
    assert AnswerRows(db, f, r, []) == Ok([]);
    assert [a][..0] == [] && [a][0] == a;
    assert AnswerRows(db, f, r, [a]) == Ok([] + [row]);
    assert [] + [row] == [row];
    var ds := [a, a];
    assert ds[..|ds| - 1] == [a] && ds[|ds| - 1] == a;
    assert AnswerRows(db, f, r, ds) == Ok([row] + [row]);
    assert [row] + [row] == [row, row];
  }

  // ---------------------------------------------------------------------------
  // Submission: the transaction
  // ---------------------------------------------------------------------------

  /** `db` with the new response row saved under the next response key. */
  function SavedResponse(db: Db, f: Id, req: ResponseRequest, now: Instant): Db
  {
    db.(responses := db.responses[db.nextResponse := ResponseRow(f, req.respondentName, req.respondentEmail, now)],
        nextResponse := db.nextResponse + 1)
  }

  /** `d` with answer rows `rows` saved under the next answer keys, in order. */
  function WithAnswers(d: Db, rows: seq<AnswerRow>): Db
  {
    d.(answers := AppendRows(d.answers, d.nextAnswer, rows), nextAnswer := d.nextAnswer + |rows|)
  }

  /**
   * `submitResponse`: the form is looked up by its public url; the response
   * row gets the request's name and email and the current time; then each
   * draft is checked and saved in turn.  The returned view is built from
   * the saved response entity, whose answer list the loop never fills.
   */
  function SubmitSpec(db: Db, url: string, req: ResponseRequest, now: Instant): Result<(Db, ResponseView), Failure>
    requires KeysIssued(db)
  {
    match FindByPublicUrl(db, url)
    case None => Err(NotFound("Form not found"))
    case Some(f) =>
      var d0 := SavedResponse(db, f, req, now);
      match AnswerRows(db, f, db.nextResponse, req.answers)
      case Err(e) => Err(e)
      case Ok(rows) =>
        var d := WithAnswers(d0, rows);
        assert db.nextResponse in d.responses && d.responses[db.nextResponse].form in d.forms;
        Ok((d, ResponseFromEntity(d, db.nextResponse, Some([]))))
  }

  /** The selected options of a multi-select draft, collected one by one as `addSelectedOption` does. */
  method CollectOptions(db: Db, qid: Id, os: seq<Id>) returns (r: Result<seq<Id>, Failure>)
    ensures r == if CheckOptions(db, qid, os).Some? then Err(CheckOptions(db, qid, os).value) else Ok(os)
  {
    var selected: seq<Id> := [];
    var i := 0;
    while i < |os|
      invariant 0 <= i <= |os|
      invariant selected == os[..i]
      invariant CheckOptions(db, qid, os) == CheckOptions(db, qid, os[i..])
    {
      assert os[i..][1..] == os[i + 1..];
      var o := os[i];
      if o !in db.options {
        return Err(NotFound("Option not found"));
      }
      if db.options[o].question != qid {
        return Err(Rejected("Option does not belong to this question"));
      }
      selected := selected + [o];
      i := i + 1;
    }
    assert selected == os;
    return Ok(selected);
  }

  /** One iteration of the submission loop: the question lookup and the checks for its kind. */
  method BuildAnswer(db: Db, f: Id, r: Id, a: AnswerRequest) returns (res: Result<AnswerRow, Failure>)
    ensures res == AnswerRowFor(db, f, r, a)
  {
    if a.questionId.None? {
      return Err(NullId);
    }
    var qid := a.questionId.value;
    if qid !in db.questions {
      return Err(NotFound("Question not found"));
    }
    var q := db.questions[qid];
    if q.form != f {
      return Err(Rejected("Question does not belong to this form"));
    }
    var payload: Payload;
    match q.qtype {
      case Text =>
        if WordLimitExceeded(q.wordLimit, a.textAnswer) {
          return Err(Rejected("Answer exceeds word limit of " + IntToString(q.wordLimit.value) + " words"));
        }
        payload := TextPayload(a.textAnswer);
      case TextWithLimit =>
        if WordLimitExceeded(q.wordLimit, a.textAnswer) {
          return Err(Rejected("Answer exceeds word limit of " + IntToString(q.wordLimit.value) + " words"));
        }
        payload := TextPayload(a.textAnswer);
      case MultipleChoice =>
        if a.selectedOptionId.Some? {
          var e := CheckOption(db, qid, a.selectedOptionId.value);
          if e.Some? {
            return Err(e.value);
          }
        }
        payload := ChoicePayload(a.selectedOptionId);
      case SingleSelect =>
        if a.selectedOptionId.Some? {
          var e := CheckOption(db, qid, a.selectedOptionId.value);
          if e.Some? {
            return Err(e.value);
          }
        }
        payload := ChoicePayload(a.selectedOptionId);
      case MultiSelect =>
        var selected := CollectOptions(db, qid, a.selectedOptionIds.GetOr([]));
        if selected.Err? {
          return Err(selected.error);
        }
        payload := MultiPayload(selected.value);
      case RatingScale =>
        if a.ratingValue.Some? {
          var e := CheckRating(q, a.ratingValue.value);
          if e.Some? {
            return Err(e.value);
          }
        }
        payload := RatingPayload(a.ratingValue);
      case Date =>
        if a.dateValue.Some? {
          var e := CheckDate(q, a.dateValue.value);
          if e.Some? {
            return Err(e.value);
          }
        }
        payload := DatePayload(a.dateValue);
    }
    return Ok(AnswerRow(r, qid, payload));
  }

  /**
   * `submitResponse` as the service runs it: the form lookup, the response
   * insert, then the loop over the drafts.  The store is updated only when
   * every draft was accepted.
   */
  method SubmitResponse(repo: Repository, url: string, req: ResponseRequest, now: Instant)
    returns (res: Result<ResponseView, Failure>)
    requires KeysIssued(repo.db)
    modifies repo
    ensures match SubmitSpec(old(repo.db), url, req, now)
      case Ok((d, v)) => res == Ok(v) && repo.db == d
      case Err(e) => res == Err(e) && repo.db == old(repo.db)
  {
    var db := repo.db;
    var form := FindByPublicUrl(db, url);
    if form.None? {
      return Err(NotFound("Form not found"));
    }
    var f := form.value;
    var r := db.nextResponse;
    var d0 := SavedResponse(db, f, req, now);
    var rows: seq<AnswerRow> := [];
    var i := 0;
    while i < |req.answers|
      invariant 0 <= i <= |req.answers|
      invariant AnswerRows(db, f, r, req.answers[..i]) == Ok(rows)
      invariant repo.db == db
    {
      var row := BuildAnswer(db, f, r, req.answers[i]);
      assert req.answers[..i + 1][..i] == req.answers[..i];
      if row.Err? {
        assert AnswerRows(db, f, r, req.answers[..i + 1]) == Err(row.error);
        AnswerRowsErrPrefix(db, f, r, req.answers, i + 1);
        return Err(row.error);
      }
      rows := rows + [row.value];
      i := i + 1;
    }
    assert req.answers[..i] == req.answers;
    var d := WithAnswers(d0, rows);
    repo.db := d;
    return Ok(ResponseFromEntity(d, r, Some([])));
  }

  // ---------------------------------------------------------------------------
  // Submission: what the transaction promises
  // ---------------------------------------------------------------------------

  /** A committed submission leaves the response row saved and then the answer rows of the drafts. */
  lemma SubmitState(db: Db, url: string, req: ResponseRequest, now: Instant)
    requires KeysIssued(db) && SubmitSpec(db, url, req, now).Ok?
    ensures FindByPublicUrl(db, url).Some?
    ensures AnswerRows(db, FindByPublicUrl(db, url).value, db.nextResponse, req.answers).Ok?
    ensures SubmitSpec(db, url, req, now).value.0 ==
      WithAnswers(SavedResponse(db, FindByPublicUrl(db, url).value, req, now),
                  AnswerRows(db, FindByPublicUrl(db, url).value, db.nextResponse, req.answers).value)
  {
  }

  /**
   * The ways a submission ends: an unknown url is reported as such,
   * otherwise the submission fails exactly when some draft is refused, with
   * the failure of the first one.
   */
  lemma SubmitOutcomes(db: Db, url: string, req: ResponseRequest, now: Instant)
    requires KeysIssued(db)
    ensures FindByPublicUrl(db, url).None? ==> SubmitSpec(db, url, req, now) == Err(NotFound("Form not found"))
    ensures FindByPublicUrl(db, url).Some? ==>
      var f := FindByPublicUrl(db, url).value;
      (SubmitSpec(db, url, req, now).Ok? <==>
        forall k :: 0 <= k < |req.answers| ==> AnswerRowFor(db, f, db.nextResponse, req.answers[k]).Ok?) &&
      (SubmitSpec(db, url, req, now).Err? ==>
        exists k :: 0 <= k < |req.answers| &&
          AnswerRowFor(db, f, db.nextResponse, req.answers[k]) == Err(SubmitSpec(db, url, req, now).error) &&
          forall j :: 0 <= j < k ==> AnswerRowFor(db, f, db.nextResponse, req.answers[j]).Ok?)
  {
    if FindByPublicUrl(db, url).Some? {
      var f := FindByPublicUrl(db, url).value;
      AnswerRowsIff(db, f, db.nextResponse, req.answers);
    }
  }

  /**
   * The view a submission returns describes the new response: the next
   * response key, the request's name and email, the submission time and
   * the form; its answer list is present and empty, because the saved
   * entity's list is never filled in.
   */
  lemma SubmitView(db: Db, url: string, req: ResponseRequest, now: Instant)
    requires KeysIssued(db) && SubmitSpec(db, url, req, now).Ok?
    ensures var v := SubmitSpec(db, url, req, now).value.1;
      v.id == db.nextResponse && v.respondentName == req.respondentName &&
      v.respondentEmail == req.respondentEmail && v.submittedAt == now &&
      Some(v.formId) == FindByPublicUrl(db, url) && v.formTitle == db.forms[v.formId].title &&
      v.answers == Some([])
  {
  }

  /** Saving answer rows for response `r`, when no stored answer belongs to it, makes its answers exactly those rows. */
  lemma SavedAnswersOf(d0: Db, r: Id, rows: seq<AnswerRow>)
    requires forall a :: a in d0.answers ==> a < d0.nextAnswer && d0.answers[a].response != r
    requires forall t :: 0 <= t < |rows| ==> rows[t].response == r
    ensures AnswersOf(WithAnswers(d0, rows), r) == KeyRange(d0.nextAnswer, |rows|)
    ensures RowsAt(WithAnswers(d0, rows).answers, AnswersOf(WithAnswers(d0, rows), r)) == rows
  {
    var keep := OfResponse(r);
    var m, n := d0.answers, d0.nextAnswer;
    assert forall a :: a in m ==> a < n && !keep(m[a]);
    assert forall t :: 0 <= t < |rows| ==> keep(rows[t]);
    var d := WithAnswers(d0, rows);
    assert d.answers == AppendRows(m, n, rows) && d.nextAnswer == n + |rows|;
    assert AnswersOf(d, r) == Scan(AppendRows(m, n, rows), keep, 0, n + |rows|);
    AppendedScanAll(m, n, rows, keep);
    AppendedScanRows(m, n, rows, keep);
    FilterAll(rows, keep);
  }

  /**
   * A committed submission stores one answer per draft for the new
   * response, under fresh keys and in draft order: each answers the
   * draft's question, records the draft's value for that question's kind,
   * and met that question's rule.  Repeated questions are kept as they are.
   */
  lemma SubmitAnswers(db: Db, url: string, req: ResponseRequest, now: Instant, d: Db, v: ResponseView)
    requires KeysIssued(db) && ReferencesResolve(db) && SubmitSpec(db, url, req, now) == Ok((d, v))
    ensures var r := db.nextResponse;
      var rows := RowsAt(d.answers, AnswersOf(d, r));
      AnswersOf(d, r) == KeyRange(db.nextAnswer, |req.answers|) && |rows| == |req.answers| &&
      forall k :: 0 <= k < |req.answers| ==>
        rows[k].response == r && Some(rows[k].question) == req.answers[k].questionId &&
        rows[k].question in db.questions &&
        RecordsDraft(db.questions[rows[k].question].qtype, req.answers[k], rows[k].payload) &&
        DraftAccepted(db, rows[k].question, req.answers[k])
  {
    SubmitState(db, url, req, now);
    var f := FindByPublicUrl(db, url).value;
    var r := db.nextResponse;
    var rows := AnswerRows(db, f, r, req.answers).value;
    AnswerRowsIff(db, f, r, req.answers);
    var d0 := SavedResponse(db, f, req, now);
    forall k | 0 <= k < |req.answers|
      ensures rows[k].response == r && Some(rows[k].question) == req.answers[k].questionId &&
        rows[k].question in db.questions &&
        RecordsDraft(db.questions[rows[k].question].qtype, req.answers[k], rows[k].payload) &&
        DraftAccepted(db, rows[k].question, req.answers[k])
    {
      AnswerRowForIff(db, f, r, req.answers[k]);
    }
    forall a | a in d0.answers ensures a < d0.nextAnswer && d0.answers[a].response != r {
      assert db.answers[a].response in db.responses;
    }
    SavedAnswersOf(d0, r, rows);
  }

  /** The response row a submission saves is new, and the only change to the response table. */
  lemma SubmitResponses(db: Db, url: string, req: ResponseRequest, now: Instant, d: Db, v: ResponseView)
    requires KeysIssued(db) && SubmitSpec(db, url, req, now) == Ok((d, v))
    ensures var r := db.nextResponse;
      r !in db.responses && d.nextResponse == r + 1 &&
      d.responses == db.responses[r := ResponseRow(FindByPublicUrl(db, url).value, req.respondentName, req.respondentEmail, now)] &&
      d.users == db.users && d.forms == db.forms && d.questions == db.questions && d.options == db.options &&
      (forall a :: a in db.answers ==> a in d.answers && d.answers[a] == db.answers[a])
  {
    SubmitState(db, url, req, now);
    var f := FindByPublicUrl(db, url).value;
    AppendRowsOld(db.answers, db.nextAnswer, AnswerRows(db, f, db.nextResponse, req.answers).value);
  }

  /** An accepted draft's row answers a question of the form and selects only options of that question. */
  lemma AnswerRowForCoherent(db: Db, f: Id, r: Id, a: AnswerRequest)
    requires AnswerRowFor(db, f, r, a).Ok?
    ensures var row := AnswerRowFor(db, f, r, a).value;
      row.question in db.questions && db.questions[row.question].form == f && row.response == r &&
      forall o :: o in OptionRefs(row.payload) ==> OptionOf(db, o, row.question)
  {
    AnswerRowForIff(db, f, r, a);
  }

  lemma SavedResponseKeys(db: Db, f: Id, req: ResponseRequest, now: Instant)
    requires KeysIssued(db)
    ensures db.nextResponse !in db.responses && KeysIssued(SavedResponse(db, f, req, now))
  {
  }

  lemma SavedResponseCoherent(db: Db, f: Id, req: ResponseRequest, now: Instant)
    requires KeysIssued(db) && ReferencesResolve(db) && AnswersCoherent(db) && f in db.forms
    ensures ReferencesResolve(SavedResponse(db, f, req, now)) && AnswersCoherent(SavedResponse(db, f, req, now))
  {
    var d0 := SavedResponse(db, f, req, now);
    assert db.nextResponse !in db.responses;
    assert ReferencesResolve(d0);
    forall a | a in d0.answers ensures AnswerCoherent(d0, d0.answers[a]) {
      AnswerCoherentKept(db, d0, db.answers[a]);
    }
  }

  /** Saving the response row for a stored form keeps the store valid. */
  lemma SavedResponseValid(db: Db, f: Id, req: ResponseRequest, now: Instant)
    requires Valid(db) && f in db.forms
    ensures Valid(SavedResponse(db, f, req, now))
  {
    SavedResponseKeys(db, f, req, now);
    SavedResponseCoherent(db, f, req, now);
    UniqueKeysSame(db, SavedResponse(db, f, req, now));
  }

  lemma WithAnswersKeys(d0: Db, rows: seq<AnswerRow>)
    requires KeysIssued(d0)
    ensures KeysIssued(WithAnswers(d0, rows))
  {
    AppendRowsOld(d0.answers, d0.nextAnswer, rows);
  }

  lemma WithAnswersCoherent(d0: Db, rows: seq<AnswerRow>)
    requires KeysIssued(d0) && ReferencesResolve(d0) && AnswersCoherent(d0)
    requires forall t :: 0 <= t < |rows| ==>
      rows[t].response in d0.responses && rows[t].question in d0.questions && AnswerCoherent(d0, rows[t])
    ensures ReferencesResolve(WithAnswers(d0, rows)) && AnswersCoherent(WithAnswers(d0, rows))
  {
    var d := WithAnswers(d0, rows);
    var n := d0.nextAnswer;
    AppendRowsContents(d0.answers, n, rows);
    forall a | a in d.answers
      ensures d.answers[a].response in d.responses && d.answers[a].question in d.questions
    {
      if n <= a {
        assert d.answers[a] == rows[a - n];
      }
    }
    assert ReferencesResolve(d);
    forall a | a in d.answers ensures AnswerCoherent(d, d.answers[a]) {
      var row := if n <= a then rows[a - n] else d0.answers[a];
      assert d.answers[a] == row;
      AnswerCoherentKept(d0, d, row);
    }
  }

  /** Saving coherent answer rows of stored responses and questions keeps the store valid. */
  lemma WithAnswersValid(d0: Db, rows: seq<AnswerRow>)
    requires Valid(d0)
    requires forall t :: 0 <= t < |rows| ==>
      rows[t].response in d0.responses && rows[t].question in d0.questions && AnswerCoherent(d0, rows[t])
    ensures Valid(WithAnswers(d0, rows))
  {
    WithAnswersKeys(d0, rows);
    WithAnswersCoherent(d0, rows);
    UniqueKeysSame(d0, WithAnswers(d0, rows));
  }

  /** A committed submission leaves a valid store valid. */
  lemma SubmitValid(db: Db, url: string, req: ResponseRequest, now: Instant, d: Db, v: ResponseView)
    requires Valid(db) && SubmitSpec(db, url, req, now) == Ok((d, v))
    ensures Valid(d)
  {
    SubmitState(db, url, req, now);
    var f := FindByPublicUrl(db, url).value;
    SubmittedValid(db, f, req, now, AnswerRows(db, f, db.nextResponse, req.answers).value);
  }

  /** The response row and the rows of accepted drafts, for a stored form, keep the store valid. */
  lemma SubmittedValid(db: Db, f: Id, req: ResponseRequest, now: Instant, rows: seq<AnswerRow>)
    requires Valid(db) && f in db.forms && AnswerRows(db, f, db.nextResponse, req.answers) == Ok(rows)
    ensures Valid(WithAnswers(SavedResponse(db, f, req, now), rows))
  {
    SavedResponseValid(db, f, req, now);
    AcceptedRowsCoherent(db, f, req, now, rows);
    WithAnswersValid(SavedResponse(db, f, req, now), rows);
  }

  /** The rows of accepted drafts are coherent answers of the saved response. */
  lemma AcceptedRowsCoherent(db: Db, f: Id, req: ResponseRequest, now: Instant, rows: seq<AnswerRow>)
    requires AnswerRows(db, f, db.nextResponse, req.answers) == Ok(rows)
    ensures var d0 := SavedResponse(db, f, req, now);
      forall t :: 0 <= t < |rows| ==>
        rows[t].response in d0.responses && rows[t].question in d0.questions && AnswerCoherent(d0, rows[t])
  {
    var r := db.nextResponse;
    AnswerRowsIff(db, f, r, req.answers);
    var d0 := SavedResponse(db, f, req, now);
    forall t | 0 <= t < |rows|
      ensures rows[t].response in d0.responses && rows[t].question in d0.questions && AnswerCoherent(d0, rows[t])
    {
      AnswerRowForCoherent(db, f, r, req.answers[t]);
    }
  }

  // ---------------------------------------------------------------------------
  // Reading responses
  // ---------------------------------------------------------------------------

  /** The owner check of the form-level reads: the form must be stored and its owner must have the caller's username. */
  function CheckFormOwnerName(db: Db, formId: Id, username: string): (r: Result<Id, Failure>)
    ensures r.Ok? ==> r.value == formId && formId in db.forms
  {
    if formId !in db.forms then Err(NotFound("Form not found"))
    else if OwnerName(db, formId) != Some(username) then Err(NotAuthorized("Not authorized to access this form's responses"))
    else Ok(formId)
  }

  /** The owner check of the response-level reads: the response must be stored and its form's owner must have the caller's username. */
  function CheckResponseOwnerName(db: Db, rid: Id, username: string): (r: Result<Id, Failure>)
    ensures r.Ok? ==> r.value == rid && rid in db.responses
  {
    if rid !in db.responses then Err(NotFound("Response not found"))
    else if OwnerName(db, db.responses[rid].form) != Some(username) then Err(NotAuthorized("Not authorized to access this response"))
    else Ok(rid)
  }

  /**
   * The respondent check: the response must be stored and carry the
   * caller's email; a response saved without an email makes the comparison
   * dereference null.
   */
  function CheckRespondent(db: Db, rid: Id, email: string): (r: Result<Id, Failure>)
    ensures r.Ok? ==> r.value == rid && rid in db.responses
  {
    if rid !in db.responses then Err(NotFound("Response not found"))
    else if db.responses[rid].respondentEmail.None? then Err(NullPointer)
    else if db.responses[rid].respondentEmail.value != email then Err(NotAuthorized("Not authorized to access this response"))
    else Ok(rid)
  }

  /** `getResponsesByForm`: the form's responses, newest first, for its owner only. */
  function GetResponsesByFormSpec(db: Db, formId: Id, username: string): Result<seq<ResponseView>, Failure>
    requires ReferencesResolve(db)
  {
    match CheckFormOwnerName(db, formId, username)
    case Err(e) => Err(e)
    case Ok(f) => Ok(ResponseViews(db, ResponsesByFormNewestFirst(db, f)))
  }

  /** `getResponseById`: one response, for the owner of its form only. */
  function GetResponseByIdSpec(db: Db, rid: Id, username: string): Result<ResponseView, Failure>
    requires ReferencesResolve(db)
  {
    match CheckResponseOwnerName(db, rid, username)
    case Err(e) => Err(e)
    case Ok(r) => Ok(StoredResponseView(db, r))
  }

  /** `getResponseByIdForRespondent`: one response, for the respondent whose email it carries only. */
  function GetResponseByIdForRespondentSpec(db: Db, rid: Id, email: string): Result<ResponseView, Failure>
    requires ReferencesResolve(db)
  {
    match CheckRespondent(db, rid, email)
    case Err(e) => Err(e)
    case Ok(r) => Ok(StoredResponseView(db, r))
  }

  /** `getResponsesByEmail`: every response carrying the email, newest first; no check and no failure. */
  function GetResponsesByEmailSpec(db: Db, email: string): seq<ResponseView>
    requires ReferencesResolve(db)
  {
    ResponseViews(db, ResponsesByEmailNewestFirst(db, email))
  }

  /** The keys of a list of response views, in order. */
  function ResponseIds(vs: seq<ResponseView>): (ids: seq<Id>)
    ensures |ids| == |vs| && forall i :: 0 <= i < |vs| ==> ids[i] == vs[i].id
  {
    seq(|vs|, i requires 0 <= i < |vs| => vs[i].id)
  }

  /** Response views of stored responses carry their rows' columns and their loaded answers, in the order given. */
  lemma ResponseViewsColumns(db: Db, rs: seq<Id>)
    requires ReferencesResolve(db) && AllIn(rs, db.responses)
    ensures var vs := ResponseViews(db, rs);
      ResponseIds(vs) == rs &&
      forall i :: 0 <= i < |rs| ==>
        vs[i].formId == db.responses[rs[i]].form && vs[i].submittedAt == db.responses[rs[i]].submittedAt &&
        vs[i].respondentEmail == db.responses[rs[i]].respondentEmail &&
        vs[i].answers.Some? && |vs[i].answers.value| == |AnswersOf(db, rs[i])|
  {
    var vs := ResponseViews(db, rs);
    assert ResponseIds(vs) == rs;
  }

  /**
   * The owner's list fails for a missing form and for another user's form,
   * each with its own failure; otherwise it holds exactly the form's
   * responses, newest first.
   */
  lemma GetResponsesByFormOutcomes(db: Db, formId: Id, username: string)
    requires KeysIssued(db) && ReferencesResolve(db)
    ensures formId !in db.forms ==> GetResponsesByFormSpec(db, formId, username) == Err(NotFound("Form not found"))
    ensures formId in db.forms && OwnerName(db, formId) != Some(username) ==>
      GetResponsesByFormSpec(db, formId, username) == Err(NotAuthorized("Not authorized to access this form's responses"))
    ensures GetResponsesByFormSpec(db, formId, username).Ok? <==> formId in db.forms && OwnerName(db, formId) == Some(username)
    ensures GetResponsesByFormSpec(db, formId, username).Ok? ==>
      var vs := GetResponsesByFormSpec(db, formId, username).value;
      (forall r :: r in ResponseIds(vs) <==> r in db.responses && db.responses[r].form == formId) &&
      (forall i :: 0 <= i < |vs| ==> vs[i].formId == formId) &&
      (forall i :: 0 <= i < |vs| - 1 ==> vs[i].submittedAt >= vs[i + 1].submittedAt)
  {
    if formId in db.forms && OwnerName(db, formId) == Some(username) {
      var rs := ResponsesByFormNewestFirst(db, formId);
      ResponseViewsColumns(db, rs);
    }
  }

  /**
   * The respondent's list holds exactly the responses carrying the email,
   * newest first.
   */
  lemma GetResponsesByEmailExact(db: Db, email: string)
    requires KeysIssued(db) && ReferencesResolve(db)
    ensures var vs := GetResponsesByEmailSpec(db, email);
      (forall r :: r in ResponseIds(vs) <==> r in db.responses && db.responses[r].respondentEmail == Some(email)) &&
      (forall i :: 0 <= i < |vs| ==> vs[i].respondentEmail == Some(email)) &&
      (forall i :: 0 <= i < |vs| - 1 ==> vs[i].submittedAt >= vs[i + 1].submittedAt)
  {
    ResponseViewsColumns(db, ResponsesByEmailNewestFirst(db, email));
  }

  /**
   * A single response is returned to the owner of its form, and to the
   * respondent whose email it carries, and to no one else; each refusal
   * has its own failure.
   */
  lemma GetResponseOutcomes(db: Db, rid: Id, username: string, email: string)
    requires ReferencesResolve(db)
    ensures rid !in db.responses ==>
      GetResponseByIdSpec(db, rid, username) == Err(NotFound("Response not found")) &&
      GetResponseByIdForRespondentSpec(db, rid, email) == Err(NotFound("Response not found"))
    ensures GetResponseByIdSpec(db, rid, username).Ok? <==>
      rid in db.responses && OwnerName(db, db.responses[rid].form) == Some(username)
    ensures GetResponseByIdForRespondentSpec(db, rid, email).Ok? <==>
      rid in db.responses && db.responses[rid].respondentEmail == Some(email)
    ensures rid in db.responses && db.responses[rid].respondentEmail.None? ==>
      GetResponseByIdForRespondentSpec(db, rid, email) == Err(NullPointer)
    ensures GetResponseByIdSpec(db, rid, username).Ok? ==>
      GetResponseByIdSpec(db, rid, username).value.id == rid &&
      GetResponseByIdSpec(db, rid, username).value.answers == Some(AnswerViews(db, AnswersOf(db, rid)))
    ensures GetResponseByIdForRespondentSpec(db, rid, email).Ok? ==>
      GetResponseByIdForRespondentSpec(db, rid, email).value == StoredResponseView(db, rid)
  {
  }
}
