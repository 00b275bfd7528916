/**
 * The CSV downloads of `ResponseService`: one for every response to a form,
 * one for a single response (for the form's owner) and one for a single
 * response (for its respondent). Each is built in a `StringBuilder`; here
 * the text each produces is a function of the stored state, and the methods
 * build it with the source's loops.
 *
 * The submission time is printed by `LocalDateTime.toString`, which is a
 * parameter `render` here.
 */
module ResponseCsv {
  import opened Wrappers
  import opened Strings
  import opened Store
  import ResponseService

  // ---------------------------------------------------------------------------
  // The text
  // ---------------------------------------------------------------------------

  /** `Response ID,Respondent Name,Respondent Email,Submission Date`, spelled out column by column. */
  const HeaderPrefix: string := "Response ID" + "," + "Respondent Name" + "," + "Respondent Email" + "," + "Submission Date"

  /** The quoted text of each question, in the given order. */
  function QuestionHeaders(db: Db, qs: seq<Id>): (hs: seq<string>)
    requires forall q :: q in qs ==> q in db.questions
    ensures |hs| == |qs| && forall i :: 0 <= i < |qs| ==> hs[i] == Quote(db.questions[qs[i]].text)
  {
    seq(|qs|, i requires 0 <= i < |qs| => Quote(db.questions[qs[i]].text))
  }

  /** The header line of a form's export: the fixed names, then `,"text"` per question of the form. */
  function HeaderLine(db: Db, f: Id): string
  {
    HeaderPrefix + Fields(QuestionHeaders(db, QuestionsOf(db, f))) + "\n"
  }

  /** The first of `as_` that answers question `q` (the filtered stream's `findFirst`). */
  function FirstAnswer(db: Db, as_: seq<Id>, q: Id): (r: Option<Id>)
    requires forall a :: a in as_ ==> a in db.answers
    ensures r.Some? ==> r.value in as_ && db.answers[r.value].question == q
  {
    if as_ == [] then None
    else if db.answers[as_[0]].question == q then Some(as_[0])
    else FirstAnswer(db, as_[1..], q)
  }

  /** Every option a payload selects is stored. */
  predicate OptionsStored(db: Db, p: Payload)
  {
    forall o :: o in OptionRefs(p) ==> o in db.options
  }

  /**
   * Every option a stored answer selects is stored (it follows from the
   * store's invariant, `ValidSelectionsStored`); the export reads each
   * selected option's text.
   */
  predicate SelectionsStored(db: Db)
  {
    forall a :: a in db.answers ==> OptionsStored(db, db.answers[a].payload)
  }

  lemma ValidSelectionsStored(db: Db)
    requires Valid(db)
    ensures SelectionsStored(db)
  {
    forall a | a in db.answers
      ensures OptionsStored(db, db.answers[a].payload)
    {
      assert AnswerCoherent(db, db.answers[a]);
    }
  }

  /** The texts of the given options, in order. */
  function OptionTexts(db: Db, os: seq<Id>): (ts: seq<string>)
    requires forall o :: o in os ==> o in db.options
    ensures |ts| == |os| && forall i :: 0 <= i < |os| ==> ts[i] == db.options[os[i]].text
  {
    seq(|os|, i requires 0 <= i < |os| => db.options[os[i]].text)
  }

  /**
   * The cell of an answer, by the kind of its question: text kinds quote
   * the text (an absent text gives `""`), choices quote the option's text,
   * a multi-select quotes its option texts joined by ", ", a rating is a bare
   * integer, a date is quoted; an absent value gives an empty cell.
   */
  function Cell(db: Db, t: QuestionType, p: Payload): string
    requires OptionsStored(db, p)
  {
    match t
    case Text | TextWithLimit => Quote(TextOf(p).GetOr(""))
    case MultipleChoice | SingleSelect =>
      if ChoiceOf(p).Some? then Quote(db.options[ChoiceOf(p).value].text) else ""
    case MultiSelect =>
      if MultiOf(p) != [] then Quote(Join(OptionTexts(db, MultiOf(p)), ", ")) else ""
    case RatingScale => if RatingOf(p).Some? then IntToString(RatingOf(p).value) else ""
    case Date => if DateOf(p).Some? then Quote(DateOf(p).value) else ""
  }

  /** The cell of response `r` under question `q`: empty when `r` has no answer for `q`. */
  function CellFor(db: Db, r: Id, q: Id): string
    requires SelectionsStored(db) && r in db.responses && q in db.questions
  {
    match FirstAnswer(db, AnswersOf(db, r), q)
    case None => ""
    case Some(a) => Cell(db, db.questions[q].qtype, db.answers[a].payload)
  }

  /** The cell of response `r` under each question, in the given order. */
  function AnswerCells(db: Db, r: Id, qs: seq<Id>): (cs: seq<string>)
    requires SelectionsStored(db) && r in db.responses && forall q :: q in qs ==> q in db.questions
    ensures |cs| == |qs| && forall i :: 0 <= i < |qs| ==> cs[i] == CellFor(db, r, qs[i])
  {
    seq(|qs|, i requires 0 <= i < |qs| => CellFor(db, r, qs[i]))
  }

  /** The four fixed columns of a response: key, quoted name, quoted email, quoted time. */
  function ResponseColumns(db: Db, r: Id, render: Instant -> string): string
    requires r in db.responses
  {
    var row := db.responses[r];
    NatToString(r) + "," + Quote(row.respondentName.GetOr("")) + "," +
    Quote(row.respondentEmail.GetOr("")) + "," + "\"" + render(row.submittedAt) + "\""
  }

  /** The line of response `r` under the questions `qs`. */
  function ResponseLine(db: Db, r: Id, qs: seq<Id>, render: Instant -> string): string
    requires SelectionsStored(db) && r in db.responses && forall q :: q in qs ==> q in db.questions
  {
    ResponseColumns(db, r, render) + Fields(AnswerCells(db, r, qs)) + "\n"
  }

  /** The lines of the responses `rs`, in order. */
  function ResponseLines(db: Db, rs: seq<Id>, qs: seq<Id>, render: Instant -> string): string
    requires SelectionsStored(db) && AllIn(rs, db.responses) && forall q :: q in qs ==> q in db.questions
  {
    if rs == [] then []
    else ResponseLines(db, rs[..|rs| - 1], qs, render) + ResponseLine(db, rs[|rs| - 1], qs, render)
  }

  /** The export of a single response: its form's header line, then its own line. */
  function SingleResponseCsv(db: Db, r: Id, render: Instant -> string): string
    requires SelectionsStored(db) && r in db.responses
  {
    var f := db.responses[r].form;
    HeaderLine(db, f) + ResponseLine(db, r, QuestionsOf(db, f), render)
  }

  /** `generateCsvForForm`: for the form's owner, the header and every response, newest first. */
  function CsvForFormSpec(db: Db, formId: Id, username: string, render: Instant -> string): Result<string, Failure>
    requires SelectionsStored(db)
  {
    match ResponseService.CheckFormOwnerName(db, formId, username)
    case Err(e) => Err(e)
    case Ok(f) => Ok(HeaderLine(db, f) + ResponseLines(db, ResponsesByFormNewestFirst(db, f), QuestionsOf(db, f), render))
  }

  /** `generateCsvForResponse`: for the owner of the response's form, that response alone. */
  function CsvForResponseSpec(db: Db, rid: Id, username: string, render: Instant -> string): Result<string, Failure>
    requires SelectionsStored(db)
  {
    match ResponseService.CheckResponseOwnerName(db, rid, username)
    case Err(e) => Err(e)
    case Ok(r) => Ok(SingleResponseCsv(db, r, render))
  }

  /** `generateCsvForRespondent`: for the respondent whose email the response carries, that response alone. */
  function CsvForRespondentSpec(db: Db, rid: Id, email: string, render: Instant -> string): Result<string, Failure>
    requires SelectionsStored(db)
  {
    match ResponseService.CheckRespondent(db, rid, email)
    case Err(e) => Err(e)
    case Ok(r) => Ok(SingleResponseCsv(db, r, render))
  }

  // ---------------------------------------------------------------------------
  // Building the text
  // ---------------------------------------------------------------------------

  /** Appends `,"text"` for each question of `qs` to `csv`, one question at a time. */
  method AppendQuestionHeaders(db: Db, qs: seq<Id>, csv: string) returns (out: string)
    requires forall q :: q in qs ==> q in db.questions
    ensures out == csv + Fields(QuestionHeaders(db, qs))
  {
    ghost var headers := QuestionHeaders(db, qs);
    out := csv;
    var i := 0;
    while i < |qs|
      invariant 0 <= i <= |qs|
      invariant out == csv + Fields(headers[..i])
    {
      var header := Quote(db.questions[qs[i]].text);
      AppendField(csv, headers[..i], header);
      assert headers[..i] + [header] == headers[..i + 1];
      out := out + "," + header;
      i := i + 1;
    }
    assert headers[..|qs|] == headers;
  }

  /** Appends the header line of form `f` to `csv`. */
  method AppendHeader(db: Db, f: Id, csv: string) returns (out: string)
    ensures out == csv + HeaderLine(db, f)
  {
    out := csv + HeaderPrefix;
    out := AppendQuestionHeaders(db, QuestionsOf(db, f), out);
    out := out + "\n";
  }

  /** Appends the line of response `r` under the questions `qs` to `csv`, one question at a time. */
  method AppendResponse(db: Db, r: Id, qs: seq<Id>, render: Instant -> string, csv: string) returns (out: string)
    requires SelectionsStored(db) && r in db.responses && forall q :: q in qs ==> q in db.questions
    ensures out == csv + ResponseLine(db, r, qs, render)
  {
    var start := csv + ResponseColumns(db, r, render);
    ghost var cells := AnswerCells(db, r, qs);
    out := start;
    var i := 0;
    while i < |qs|
      invariant 0 <= i <= |qs|
      invariant out == start + Fields(cells[..i])
    {
      var cell := CellFor(db, r, qs[i]);
      AppendField(start, cells[..i], cell);
      PrefixSnoc(cells, i);
      out := out + "," + cell;
      i := i + 1;
    }
    assert cells[..|qs|] == cells;
    out := out + "\n";
    SeqRegroup3(csv, ResponseColumns(db, r, render), Fields(cells));
    SeqRegroup3(csv, ResponseColumns(db, r, render) + Fields(cells), "\n");
  }

  /** Appends the line of each response of `rs` to `csv`, in order. */
  method AppendResponses(db: Db, rs: seq<Id>, qs: seq<Id>, render: Instant -> string, csv: string) returns (out: string)
    requires SelectionsStored(db) && AllIn(rs, db.responses) && forall q :: q in qs ==> q in db.questions
    ensures out == csv + ResponseLines(db, rs, qs, render)
  {
    out := csv;
    var i := 0;
    while i < |rs|
      invariant 0 <= i <= |rs|
      invariant AllIn(rs[..i], db.responses)
      invariant out == csv + ResponseLines(db, rs[..i], qs, render)
    {
      ghost var before := ResponseLines(db, rs[..i], qs, render);
      out := AppendResponse(db, rs[i], qs, render, out);
      ResponseLinesStep(db, rs, i, qs, render);
      SeqRegroup3(csv, before, ResponseLine(db, rs[i], qs, render));
      i := i + 1;
    }
    assert rs[..|rs|] == rs;
  }

  /** One more response row adds its line to the lines of the rows before it. */
  lemma ResponseLinesStep(db: Db, rs: seq<Id>, i: nat, qs: seq<Id>, render: Instant -> string)
    requires SelectionsStored(db) && AllIn(rs, db.responses) && forall q :: q in qs ==> q in db.questions
    requires i < |rs|
    ensures AllIn(rs[..i], db.responses) && AllIn(rs[..i + 1], db.responses)
    ensures ResponseLines(db, rs[..i + 1], qs, render) ==
            ResponseLines(db, rs[..i], qs, render) + ResponseLine(db, rs[i], qs, render)
  {
    assert rs[..i + 1][..i] == rs[..i];
  }

  /** `generateCsvForForm`, building the text line by line. */
  method GenerateCsvForForm(db: Db, formId: Id, username: string, render: Instant -> string)
    returns (res: Result<string, Failure>)
    requires SelectionsStored(db)
    ensures res == CsvForFormSpec(db, formId, username, render)
  {
    var check := ResponseService.CheckFormOwnerName(db, formId, username);
    if check.Err? {
      return Err(check.error);
    }
    var rs := ResponsesByFormNewestFirst(db, formId);
    var csv := AppendHeader(db, formId, "");
    assert csv == HeaderLine(db, formId);
    csv := AppendResponses(db, rs, QuestionsOf(db, formId), render, csv);
    return Ok(csv);
  }

  /** `generateCsvForResponse`, building the header and the one line. */
  method GenerateCsvForResponse(db: Db, rid: Id, username: string, render: Instant -> string)
    returns (res: Result<string, Failure>)
    requires SelectionsStored(db)
    ensures res == CsvForResponseSpec(db, rid, username, render)
  {
    var check := ResponseService.CheckResponseOwnerName(db, rid, username);
    if check.Err? {
      return Err(check.error);
    }
    var f := db.responses[rid].form;
    var csv := AppendHeader(db, f, "");
    assert csv == HeaderLine(db, f);
    csv := AppendResponse(db, rid, QuestionsOf(db, f), render, csv);
    return Ok(csv);
  }

  /** `generateCsvForRespondent`, building the header and the one line. */
  method GenerateCsvForRespondent(db: Db, rid: Id, email: string, render: Instant -> string)
    returns (res: Result<string, Failure>)
    requires SelectionsStored(db)
    ensures res == CsvForRespondentSpec(db, rid, email, render)
  {
    var check := ResponseService.CheckRespondent(db, rid, email);
    if check.Err? {
      return Err(check.error);
    }
    var f := db.responses[rid].form;
    var csv := AppendHeader(db, f, "");
    assert csv == HeaderLine(db, f);
    csv := AppendResponse(db, rid, QuestionsOf(db, f), render, csv);
    return Ok(csv);
  }

  // ---------------------------------------------------------------------------
  // What the text says
  // ---------------------------------------------------------------------------

  /**
   * What a cell of an answer holds once read back as a CSV field: the text,
   * the option's text, the option texts joined by ", ", the rating in
   * decimal or the date; an absent value holds nothing.
   */
  function CellValue(db: Db, t: QuestionType, p: Payload): string
    requires OptionsStored(db, p)
  {
    match t
    case Text | TextWithLimit => TextOf(p).GetOr("")
    case MultipleChoice | SingleSelect => if ChoiceOf(p).Some? then db.options[ChoiceOf(p).value].text else ""
    case MultiSelect => Join(OptionTexts(db, MultiOf(p)), ", ")
    case RatingScale => if RatingOf(p).Some? then IntToString(RatingOf(p).value) else ""
    case Date => DateOf(p).GetOr("")
  }

  /** What response `r`'s cell under question `q` holds once read back. */
  function AnswerValue(db: Db, r: Id, q: Id): string
    requires SelectionsStored(db) && r in db.responses && q in db.questions
  {
    match FirstAnswer(db, AnswersOf(db, r), q)
    case None => ""
    case Some(a) => CellValue(db, db.questions[q].qtype, db.answers[a].payload)
  }

  function AnswerValues(db: Db, r: Id, qs: seq<Id>): (vs: seq<string>)
    requires SelectionsStored(db) && r in db.responses && forall q :: q in qs ==> q in db.questions
    ensures |vs| == |qs| && forall i :: 0 <= i < |qs| ==> vs[i] == AnswerValue(db, r, qs[i])
  {
    seq(|qs|, i requires 0 <= i < |qs| => AnswerValue(db, r, qs[i]))
  }

  /** The texts of the given questions, in order. */
  function QuestionTexts(db: Db, qs: seq<Id>): (ts: seq<string>)
    requires forall q :: q in qs ==> q in db.questions
    ensures |ts| == |qs| && forall i :: 0 <= i < |qs| ==> ts[i] == db.questions[qs[i]].text
  {
    seq(|qs|, i requires 0 <= i < |qs| => db.questions[qs[i]].text)
  }

  /**
   * Every cell is a well-formed CSV field whose value is what the answer
   * records: text, option texts and dates are quoted with embedded quotes
   * doubled, and a rating is a bare decimal that parses back to the rating.
   */
  lemma CellRenders(db: Db, t: QuestionType, p: Payload)
    requires OptionsStored(db, p)
    ensures Renders(Cell(db, t, p), CellValue(db, t, p))
    ensures t == RatingScale && RatingOf(p).Some? ==>
      '"' !in Cell(db, t, p) && Cell(db, t, p) != [] &&
      (if Cell(db, t, p)[0] == '-' then All(Cell(db, t, p)[1..], IsDigit) else All(Cell(db, t, p), IsDigit)) &&
      ParseInt(Cell(db, t, p)) == RatingOf(p).value
    ensures t != RatingScale && CellValue(db, t, p) != [] ==> Cell(db, t, p) == Quote(CellValue(db, t, p))
  {
    if t == RatingScale && RatingOf(p).Some? {
      RatingCell(RatingOf(p).value);
    }
  }

  lemma RatingCell(v: int)
    ensures All(IntToString(v), IsBare) && '"' !in IntToString(v)
    ensures var c := IntToString(v);
      c != [] && (if c[0] == '-' then All(c[1..], IsDigit) else All(c, IsDigit)) && ParseInt(c) == v
  {
    IntToStringCsvSafe(v);
    IntToStringRoundTrip(v);
    var c := IntToString(v);
    assert forall i :: 0 <= i < |c| ==> c[i] in c;
  }

  /** AnswerValue is what CellFor renders. */
  lemma CellForRenders(db: Db, r: Id, q: Id)
    requires SelectionsStored(db) && r in db.responses && q in db.questions
    ensures Renders(CellFor(db, r, q), AnswerValue(db, r, q))
  {
    match FirstAnswer(db, AnswersOf(db, r), q)
    case None =>
    case Some(a) => CellRenders(db, db.questions[q].qtype, db.answers[a].payload);
  }

  /**
   * The cell under a question comes from the first of the response's answers
   * for that question: whatever answer is for it at position `i`, the one
   * found is at or before `i`.
   */
  lemma {:induction false} FirstAnswerFound(db: Db, as_: seq<Id>, q: Id, i: nat)
    requires forall a :: a in as_ ==> a in db.answers
    requires i < |as_| && db.answers[as_[i]].question == q
    ensures FirstAnswer(db, as_, q).Some? && FirstAnswer(db, as_, q).value in as_[..i + 1]
    decreases i
  {
    if db.answers[as_[0]].question != q {
      assert as_[1..][i - 1] == as_[i];
      FirstAnswerFound(db, as_[1..], q, i - 1);
      assert as_[..i + 1] == [as_[0]] + as_[1..][..i];
    }
  }

  /** A response with no answer for a question has an empty cell under it. */
  lemma {:induction false} FirstAnswerMissing(db: Db, as_: seq<Id>, q: Id)
    requires forall a :: a in as_ ==> a in db.answers && db.answers[a].question != q
    ensures FirstAnswer(db, as_, q).None?
    decreases |as_|
  {
    if as_ != [] {
      assert as_[0] in as_;
      assert forall a :: a in as_[1..] ==> a in as_;
      FirstAnswerMissing(db, as_[1..], q);
    }
  }

  /** The cells of a response line: the key, the name, the email, the time, then one per question. */
  function LineCells(db: Db, r: Id, qs: seq<Id>, render: Instant -> string): seq<string>
    requires SelectionsStored(db) && r in db.responses && forall q :: q in qs ==> q in db.questions
  {
    var row := db.responses[r];
    [NatToString(r), Quote(row.respondentName.GetOr("")), Quote(row.respondentEmail.GetOr("")),
     "\"" + render(row.submittedAt) + "\""] + AnswerCells(db, r, qs)
  }

  /** Four columns written with separators, then the cells, are the record of all those fields. */
  lemma ColumnsLine(id: string, a: string, b: string, d: string, cells: seq<string>)
    ensures var cs := [id, a, b, "\"" + d + "\""] + cells;
      id + "," + a + "," + b + "," + "\"" + d + "\"" + Fields(cells) + "\n" == cs[0] + Fields(cs[1..]) + "\n"
  {
    var c := "\"" + d + "\"";
    ThreeFields(a, b, c);
    assert id + "," + a + "," + b + "," + "\"" + d + "\"" == id + Fields([a, b, c]);
    RecordOfParts(id, [a, b, c], cells);
    assert [id] + [a, b, c] + cells == [id, a, b, c] + cells;
  }

  lemma ThreeFields(a: string, b: string, c: string)
    ensures Fields([a, b, c]) == "," + a + "," + b + "," + c
  {
    assert [a, b, c][..2] == [a, b] && [a, b][..1] == [a] && [a][..0] == [];
    assert Fields([a]) == "," + a;
    assert Fields([a, b]) == "," + a + "," + b;
  }

  lemma ResponseLineCells(db: Db, r: Id, qs: seq<Id>, render: Instant -> string)
    requires SelectionsStored(db) && r in db.responses && forall q :: q in qs ==> q in db.questions
    ensures var cs := LineCells(db, r, qs, render);
      ResponseLine(db, r, qs, render) == cs[0] + Fields(cs[1..]) + "\n"
  {
    var row := db.responses[r];
    ColumnsLine(NatToString(r), Quote(row.respondentName.GetOr("")), Quote(row.respondentEmail.GetOr("")),
      render(row.submittedAt), AnswerCells(db, r, qs));
  }

  /** The values a response line holds: the key, the name, the email, the time, then one per question. */
  function LineValues(db: Db, r: Id, qs: seq<Id>, render: Instant -> string): seq<string>
    requires SelectionsStored(db) && r in db.responses && forall q :: q in qs ==> q in db.questions
  {
    var row := db.responses[r];
    [NatToString(r), row.respondentName.GetOr(""), row.respondentEmail.GetOr(""), render(row.submittedAt)]
    + AnswerValues(db, r, qs)
  }

  lemma LineCellsRender(db: Db, r: Id, qs: seq<Id>, render: Instant -> string)
    requires SelectionsStored(db) && r in db.responses && forall q :: q in qs ==> q in db.questions
    requires '"' !in render(db.responses[r].submittedAt)
    ensures var cs, vs := LineCells(db, r, qs, render), LineValues(db, r, qs, render);
      |cs| == |vs| && |cs| > 0 && forall i :: 0 <= i < |cs| ==> Renders(cs[i], vs[i])
  {
    var row := db.responses[r];
    var fixedCells := [NatToString(r), Quote(row.respondentName.GetOr("")), Quote(row.respondentEmail.GetOr("")),
     "\"" + render(row.submittedAt) + "\""];
    var fixedValues := [NatToString(r), row.respondentName.GetOr(""), row.respondentEmail.GetOr(""), render(row.submittedAt)];
    NatToStringBare(r);
    EscapeNoQuote(render(row.submittedAt));
    assert forall i :: 0 <= i < 4 ==> Renders(fixedCells[i], fixedValues[i]);
    AnswerCellsRender(db, r, qs);
    RendersAppend(fixedCells, fixedValues, AnswerCells(db, r, qs), AnswerValues(db, r, qs));
  }

  lemma AnswerCellsRender(db: Db, r: Id, qs: seq<Id>)
    requires SelectionsStored(db) && r in db.responses && forall q :: q in qs ==> q in db.questions
    ensures forall i :: 0 <= i < |qs| ==> Renders(AnswerCells(db, r, qs)[i], AnswerValues(db, r, qs)[i])
  {
    forall i | 0 <= i < |qs|
      ensures Renders(AnswerCells(db, r, qs)[i], AnswerValues(db, r, qs)[i])
    {
      CellForRenders(db, r, qs[i]);
    }
  }

  /**
   * A response's line reads back, field by field, as its key in decimal,
   * its name and its email (an absent one as empty), its submission time,
   * and then exactly one value per question, each what the first answer
   * for that question records. The time is written without escaping, so
   * this holds when its rendering holds no quote, as ISO-8601 text never does.
   */
  lemma ResponseLineReadsBack(db: Db, r: Id, qs: seq<Id>, render: Instant -> string, rest: string)
    requires SelectionsStored(db) && r in db.responses && forall q :: q in qs ==> q in db.questions
    requires '"' !in render(db.responses[r].submittedAt)
    ensures var row := db.responses[r];
      ReadRecord(ResponseLine(db, r, qs, render) + rest) ==
      Some(([NatToString(r), row.respondentName.GetOr(""), row.respondentEmail.GetOr(""), render(row.submittedAt)]
            + AnswerValues(db, r, qs), rest))
  {
    ResponseLineCells(db, r, qs, render);
    LineCellsRender(db, r, qs, render);
    RecordRoundTrip(LineCells(db, r, qs, render), LineValues(db, r, qs, render), rest);
  }

  lemma HeaderPrefixFields()
    ensures HeaderPrefix == FixedNames[0] + Fields(FixedNames[1..])
  {
    assert FixedNames[1..] == ["Respondent Name", "Respondent Email", "Submission Date"];
    ThreeFields("Respondent Name", "Respondent Email", "Submission Date");
    SeqRegroup3("Response ID", "," + "Respondent Name" + "," + "Respondent Email", "," + "Submission Date");
  }

  lemma FixedNamesBare()
    ensures All("Response ID", IsBare) && All("Respondent Name", IsBare)
    ensures All("Respondent Email", IsBare) && All("Submission Date", IsBare)
  {
  }

  /** The fixed column names of the header. */
  const FixedNames: seq<string> := ["Response ID", "Respondent Name", "Respondent Email", "Submission Date"]

  lemma HeaderLineCells(db: Db, f: Id)
    ensures var cs := FixedNames + QuestionHeaders(db, QuestionsOf(db, f));
      HeaderLine(db, f) == cs[0] + Fields(cs[1..]) + "\n"
  {
    var hs := QuestionHeaders(db, QuestionsOf(db, f));
    HeaderPrefixFields();
    RecordOfParts(FixedNames[0], FixedNames[1..], hs);
    assert [FixedNames[0]] + FixedNames[1..] == FixedNames;
  }

  /** A first field, then some `,field`s, then more is the record of all those fields. */
  lemma RecordOfParts(first: string, pre: seq<string>, hs: seq<string>)
    ensures var cs := [first] + pre + hs; first + Fields(pre) + Fields(hs) + "\n" == cs[0] + Fields(cs[1..]) + "\n"
  {
    var cs := [first] + pre + hs;
    assert cs[1..] == pre + hs;
    FieldsAppend(pre, hs);
  }

  /** The lines of a non-empty list of responses end with the line of the last one. */
  lemma ResponseLinesSnoc(db: Db, rs: seq<Id>, qs: seq<Id>, render: Instant -> string)
    requires SelectionsStored(db) && AllIn(rs, db.responses) && forall q :: q in qs ==> q in db.questions
    requires rs != []
    ensures AllIn(rs[..|rs| - 1], db.responses) && rs[|rs| - 1] in db.responses
    ensures ResponseLines(db, rs, qs, render) ==
            ResponseLines(db, rs[..|rs| - 1], qs, render) + ResponseLine(db, rs[|rs| - 1], qs, render)
  {
    assert rs[|rs| - 1] in rs;
  }

  /**
   * The header line reads back as the four fixed column names followed by
   * the text of each question of the form, in order.
   */
  lemma HeaderLineReadsBack(db: Db, f: Id, rest: string)
    ensures ReadRecord(HeaderLine(db, f) + rest) ==
      Some((["Response ID", "Respondent Name", "Respondent Email", "Submission Date"]
            + QuestionTexts(db, QuestionsOf(db, f)), rest))
  {
    var qs := QuestionsOf(db, f);
    var cs := FixedNames + QuestionHeaders(db, qs);
    var vs := FixedNames + QuestionTexts(db, qs);
    HeaderLineCells(db, f);
    FixedNamesBare();
    RecordRoundTrip(cs, vs, rest);
  }

  // ---------------------------------------------------------------------------
  // The three downloads agree
  // ---------------------------------------------------------------------------

  lemma {:induction false} ResponseLinesAppend(db: Db, a: seq<Id>, b: seq<Id>, qs: seq<Id>, render: Instant -> string)
    requires SelectionsStored(db) && AllIn(a, db.responses) && AllIn(b, db.responses)
    requires forall q :: q in qs ==> q in db.questions
    ensures AllIn(a + b, db.responses)
    ensures ResponseLines(db, a + b, qs, render) == ResponseLines(db, a, qs, render) + ResponseLines(db, b, qs, render)
    decreases |b|
  {
    if b == [] {
      assert a + b == a;
    } else {
      var b' := b[..|b| - 1];
      var last := b[|b| - 1];
      assert last in b;
      assert AllIn(b', db.responses) by { forall k | k in b' ensures k in db.responses { assert k in b; } }
      ResponseLinesAppend(db, a, b', qs, render);
      ConcatInit(a, b);
      var la, lb, l := ResponseLines(db, a, qs, render), ResponseLines(db, b', qs, render), ResponseLine(db, last, qs, render);
      ResponseLinesSnoc(db, a + b, qs, render);
      ResponseLinesSnoc(db, b, qs, render);
      SeqRegroup3(la, lb, l);
    }
  }

  /**
   * The owner's download of one response is granted exactly when the
   * download of its form is, and it is the form's header followed by that
   * response's line exactly as the form's download renders it.
   */
  lemma SingleResponseAsInFormCsv(db: Db, rid: Id, username: string, render: Instant -> string)
    requires Valid(db)
    ensures SelectionsStored(db)
    ensures CsvForResponseSpec(db, rid, username, render).Ok? <==>
      rid in db.responses && CsvForFormSpec(db, db.responses[rid].form, username, render).Ok?
    ensures CsvForResponseSpec(db, rid, username, render).Ok? ==>
      var f := db.responses[rid].form;
      var rs := ResponsesByFormNewestFirst(db, f);
      var qs := QuestionsOf(db, f);
      rid in rs &&
      CsvForResponseSpec(db, rid, username, render).value == HeaderLine(db, f) + ResponseLine(db, rid, qs, render) &&
      forall i :: 0 <= i < |rs| && rs[i] == rid ==>
        CsvForFormSpec(db, f, username, render).value ==
        HeaderLine(db, f) + ResponseLines(db, rs[..i], qs, render) + ResponseLine(db, rid, qs, render) + ResponseLines(db, rs[i + 1..], qs, render)
  {
    ValidSelectionsStored(db);
    ResponseCsvOkIff(db, rid, username, render);
    if CsvForResponseSpec(db, rid, username, render).Ok? {
      ResponseCsvInFormCsv(db, rid, username, render);
    }
  }

  /** The export of one response succeeds exactly when the response exists and its form's export succeeds. */
  lemma ResponseCsvOkIff(db: Db, rid: Id, username: string, render: Instant -> string)
    requires Valid(db) && SelectionsStored(db)
    ensures CsvForResponseSpec(db, rid, username, render).Ok? <==>
      rid in db.responses && CsvForFormSpec(db, db.responses[rid].form, username, render).Ok?
  {
  }

  /** A successful export of one response is the header and its line, which sits among the form export's lines. */
  lemma ResponseCsvInFormCsv(db: Db, rid: Id, username: string, render: Instant -> string)
    requires Valid(db) && SelectionsStored(db)
    requires CsvForResponseSpec(db, rid, username, render).Ok?
    ensures rid in db.responses
    ensures var f := db.responses[rid].form;
      var rs := ResponsesByFormNewestFirst(db, f);
      var qs := QuestionsOf(db, f);
      rid in rs &&
      CsvForResponseSpec(db, rid, username, render).value == HeaderLine(db, f) + ResponseLine(db, rid, qs, render) &&
      forall i :: 0 <= i < |rs| && rs[i] == rid ==>
        CsvForFormSpec(db, f, username, render).value ==
        HeaderLine(db, f) + ResponseLines(db, rs[..i], qs, render) + ResponseLine(db, rid, qs, render) + ResponseLines(db, rs[i + 1..], qs, render)
  {
    var f := db.responses[rid].form;
    var rs := ResponsesByFormNewestFirst(db, f);
    var qs := QuestionsOf(db, f);
    assert CsvForFormSpec(db, f, username, render) == Ok(HeaderLine(db, f) + ResponseLines(db, rs, qs, render));
    forall i | 0 <= i < |rs| && rs[i] == rid
      ensures CsvForFormSpec(db, f, username, render).value ==
        HeaderLine(db, f) + ResponseLines(db, rs[..i], qs, render) + ResponseLine(db, rid, qs, render) + ResponseLines(db, rs[i + 1..], qs, render)
    {
      LineInsideLines(db, rs, i, qs, render);
      SeqRegroup4(HeaderLine(db, f), ResponseLines(db, rs[..i], qs, render), ResponseLine(db, rid, qs, render), ResponseLines(db, rs[i + 1..], qs, render));
    }
  }


  lemma SeqRegroup4(h: string, a: string, l: string, b: string)
    ensures h + (a + l + b) == h + a + l + b
  {
  }

  lemma LineInsideLines(db: Db, rs: seq<Id>, i: nat, qs: seq<Id>, render: Instant -> string)
    requires SelectionsStored(db) && AllIn(rs, db.responses) && i < |rs|
    requires forall q :: q in qs ==> q in db.questions
    ensures AllIn(rs[..i], db.responses) && AllIn(rs[i + 1..], db.responses)
    ensures ResponseLines(db, rs, qs, render) ==
      ResponseLines(db, rs[..i], qs, render) + ResponseLine(db, rs[i], qs, render) + ResponseLines(db, rs[i + 1..], qs, render)
  {
    assert rs[..i + 1] + rs[i + 1..] == rs;
    assert rs[..i + 1][..i] == rs[..i];
    ResponseLinesAppend(db, rs[..i + 1], rs[i + 1..], qs, render);
  }

  /**
   * The respondent's download of a response, when granted, is the same
   * text the owner of its form would download.
   */
  lemma RespondentGetsOwnersCsv(db: Db, rid: Id, email: string, render: Instant -> string)
    requires Valid(db)
    ensures SelectionsStored(db)
    ensures CsvForRespondentSpec(db, rid, email, render).Ok? ==>
      OwnerName(db, db.responses[rid].form).Some? &&
      CsvForRespondentSpec(db, rid, email, render) ==
      CsvForResponseSpec(db, rid, OwnerName(db, db.responses[rid].form).value, render)
  {
    ValidSelectionsStored(db);
  }

  /**
   * The downloads are refused exactly when the matching reads are, and with
   * the same failure.
   */
  lemma CsvFailuresAsReads(db: Db, id: Id, username: string, email: string, render: Instant -> string)
    requires Valid(db)
    ensures SelectionsStored(db)
    ensures CsvForFormSpec(db, id, username, render).Err? <==> ResponseService.GetResponsesByFormSpec(db, id, username).Err?
    ensures CsvForFormSpec(db, id, username, render).Err? ==>
      CsvForFormSpec(db, id, username, render).error == ResponseService.GetResponsesByFormSpec(db, id, username).error
    ensures CsvForResponseSpec(db, id, username, render).Err? <==> ResponseService.GetResponseByIdSpec(db, id, username).Err?
    ensures CsvForResponseSpec(db, id, username, render).Err? ==>
      CsvForResponseSpec(db, id, username, render).error == ResponseService.GetResponseByIdSpec(db, id, username).error
    ensures CsvForRespondentSpec(db, id, email, render).Err? <==> ResponseService.GetResponseByIdForRespondentSpec(db, id, email).Err?
    ensures CsvForRespondentSpec(db, id, email, render).Err? ==>
      CsvForRespondentSpec(db, id, email, render).error == ResponseService.GetResponseByIdForRespondentSpec(db, id, email).error
  {
    ValidSelectionsStored(db);
    FormCsvFailsAsRead(db, id, username, render);
    ResponseCsvFailsAsRead(db, id, username, render);
    RespondentCsvFailsAsRead(db, id, email, render);
  }

  /** The export of a form's responses fails exactly as reading them does. */
  lemma FormCsvFailsAsRead(db: Db, id: Id, username: string, render: Instant -> string)
    requires Valid(db) && SelectionsStored(db)
    ensures CsvForFormSpec(db, id, username, render).Err? <==> ResponseService.GetResponsesByFormSpec(db, id, username).Err?
    ensures CsvForFormSpec(db, id, username, render).Err? ==>
      CsvForFormSpec(db, id, username, render).error == ResponseService.GetResponsesByFormSpec(db, id, username).error
  {
  }

  /** The export of one response fails exactly as reading it does. */
  lemma ResponseCsvFailsAsRead(db: Db, id: Id, username: string, render: Instant -> string)
    requires Valid(db) && SelectionsStored(db)
    ensures CsvForResponseSpec(db, id, username, render).Err? <==> ResponseService.GetResponseByIdSpec(db, id, username).Err?
    ensures CsvForResponseSpec(db, id, username, render).Err? ==>
      CsvForResponseSpec(db, id, username, render).error == ResponseService.GetResponseByIdSpec(db, id, username).error
  {
  }

  /** The respondent's export of a response fails exactly as the respondent's read does. */
  lemma RespondentCsvFailsAsRead(db: Db, id: Id, email: string, render: Instant -> string)
    requires Valid(db) && SelectionsStored(db)
    ensures CsvForRespondentSpec(db, id, email, render).Err? <==> ResponseService.GetResponseByIdForRespondentSpec(db, id, email).Err?
    ensures CsvForRespondentSpec(db, id, email, render).Err? ==>
      CsvForRespondentSpec(db, id, email, render).error == ResponseService.GetResponseByIdForRespondentSpec(db, id, email).error
  {
  }
}
