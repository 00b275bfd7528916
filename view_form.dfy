/**
 * `ViewForm`: the owner's page for one form and its responses.  It builds
 * a summary per question (how many answers it got, and per type a sample
 * of texts or a count per option or per rating) and exports the responses
 * as comma-separated text.
 *
 * An answer's fields are those the page reads; an optional field is `None`
 * when it is undefined.  Counts are kept in a map from key text to number,
 * as the page keeps them in a plain object.  JavaScript's whitespace class
 * (`trim()`) is the parameter `ws`, and the rendering of a response's time
 * (`new Date(createdAt).toLocaleString()`) is the parameter `stamp`.
 */
module ViewForm {
  import opened Wrappers
  import opened Strings
  import opened Store
  import opened Client

  /** An answer as the page reads it. */
  datatype ViewAnswer = ViewAnswer(
    questionId: int,
    text: string,
    textValue: Option<string>,
    selectedOptionId: Option<int>,
    selectedOptionIds: Option<seq<int>>,
    rating: Option<int>)

  /** A response as the page reads it. */
  datatype ViewResponse = ViewResponse(respondentName: Option<string>, createdAt: Option<string>, answers: seq<ViewAnswer>)

  // ---------------------------------------------------------------------------
  // Answers of a question
  // ---------------------------------------------------------------------------

  /** Every answer of every response, in order (`responses.flatMap(r => r.answers)`). */
  function AllAnswers(responses: seq<ViewResponse>): (r: seq<ViewAnswer>)
    ensures forall a :: a in r <==> exists i :: 0 <= i < |responses| && a in responses[i].answers
  {
    if responses == [] then []
    else
      var rest := AllAnswers(responses[..|responses| - 1]);
      assert forall i :: 0 <= i < |responses| - 1 ==> responses[..|responses| - 1][i] == responses[i];
      rest + responses[|responses| - 1].answers
  }

  function IsFor(qid: int): ViewAnswer -> bool
  {
    (a: ViewAnswer) => a.questionId == qid
  }

  /** The answers to question `qid` across all responses, in order. */
  function AnswersFor(responses: seq<ViewResponse>, qid: int): (r: seq<ViewAnswer>)
    ensures forall a :: a in r <==> a.questionId == qid && exists i :: 0 <= i < |responses| && a in responses[i].answers
    ensures |r| <= |AllAnswers(responses)|
  {
    FilterMembers(AllAnswers(responses), IsFor(qid));
    Filter(AllAnswers(responses), IsFor(qid))
  }

  // ---------------------------------------------------------------------------
  // Counting
  // ---------------------------------------------------------------------------

  /** `counts[k] = (counts[k] || 0) + 1`. */
  function Bump(counts: map<string, int>, k: string): (r: map<string, int>)
    ensures r.Keys == counts.Keys + {k}
  {
    counts[k := (if k in counts then counts[k] else 0) + 1]
  }

  /** Every key set to 0, in order (`keys.forEach(k => counts[k] = 0)`). */
  function Zeros(keys: seq<string>): (r: map<string, int>)
    ensures forall k :: k in r <==> k in keys
    ensures forall k :: k in r ==> r[k] == 0
  {
    if keys == [] then map[]
    else
      var rest := Zeros(keys[..|keys| - 1]);
      assert forall k :: k in keys <==> k in keys[..|keys| - 1] || k == keys[|keys| - 1] by {
        assert keys == keys[..|keys| - 1] + [keys[|keys| - 1]];
      }
      rest[keys[|keys| - 1] := 0]
  }

  /** The counts after bumping each label in turn, starting from `init`. */
  function Tally(init: map<string, int>, labels: seq<string>): map<string, int>
  {
    if labels == [] then init else Bump(Tally(init, labels[..|labels| - 1]), labels[|labels| - 1])
  }

  /** How often `k` occurs in `labels`. */
  function Occurrences(labels: seq<string>, k: string): (n: nat)
    ensures n <= |labels|
  {
    if labels == [] then 0
    else Occurrences(labels[..|labels| - 1], k) + (if labels[|labels| - 1] == k then 1 else 0)
  }

  /** A key that does not occur has no occurrences. */
  lemma {:induction false} OccurrencesAbsent(labels: seq<string>, k: string)
    requires k !in labels
    ensures Occurrences(labels, k) == 0
    decreases |labels|
  {
    if labels != [] {
      assert labels == labels[..|labels| - 1] + [labels[|labels| - 1]];
      OccurrencesAbsent(labels[..|labels| - 1], k);
    }
  }

  lemma TallySnoc(init: map<string, int>, labels: seq<string>, x: string)
    ensures Tally(init, labels + [x]) == Bump(Tally(init, labels), x)
  {
    assert (labels + [x])[..|labels|] == labels;
  }

  /** Counting two lists of labels in turn is counting their concatenation. */
  lemma {:induction false} TallyAppend(init: map<string, int>, a: seq<string>, b: seq<string>)
    ensures Tally(init, a + b) == Tally(Tally(init, a), b)
    decreases |b|
  {
    if b == [] {
      assert a + b == a;
    } else {
      var b' := b[..|b| - 1];
      assert a + b == (a + b') + [b[|b| - 1]];
      TallySnoc(init, a + b', b[|b| - 1]);
      TallyAppend(init, a, b');
      TallySnoc(Tally(init, a), b', b[|b| - 1]);
      assert b == b' + [b[|b| - 1]];
    }
  }

  /**
   * What the counts mean: a key is present when it started present or
   * occurs among the labels, and its count is its starting count (0 when
   * absent) plus the number of times it occurs.
   */
  lemma {:induction false} TallyCounts(init: map<string, int>, labels: seq<string>)
    ensures forall k :: k in Tally(init, labels) <==> k in init || k in labels
    ensures forall k :: k in Tally(init, labels) ==>
      Tally(init, labels)[k] == (if k in init then init[k] else 0) + Occurrences(labels, k)
    decreases |labels|
  {
    if labels != [] {
      var rest := labels[..|labels| - 1];
      var x := labels[|labels| - 1];
      TallyCounts(init, rest);
      assert labels == rest + [x];
      var t := Tally(init, rest);
      assert Tally(init, labels) == t[x := (if x in t then t[x] else 0) + 1];
      forall k
        ensures (k in Tally(init, labels) <==> k in init || k in labels) &&
                (k in Tally(init, labels) ==>
                 Tally(init, labels)[k] == (if k in init then init[k] else 0) + Occurrences(labels, k))
      {
        assert k in labels <==> k in rest || k == x;
        if k !in rest {
          OccurrencesAbsent(rest, k);
        }
        assert Occurrences(labels, k) == Occurrences(rest, k) + (if x == k then 1 else 0);
      }
    }
  }

  /** Counts that start at 0 for every key: each key's count is its number of occurrences. */
  lemma ZeroTallyCounts(keys: seq<string>, labels: seq<string>)
    ensures forall k :: k in Tally(Zeros(keys), labels) <==> k in keys || k in labels
    ensures forall k :: k in Tally(Zeros(keys), labels) ==> Tally(Zeros(keys), labels)[k] == Occurrences(labels, k)
  {
    TallyCounts(Zeros(keys), labels);
  }

  /** `keys.forEach(k => counts[k] = 0)`. */
  method InitCounts(keys: seq<string>) returns (counts: map<string, int>)
    ensures counts == Zeros(keys)
  {
    counts := map[];
    for i := 0 to |keys|
      invariant counts == Zeros(keys[..i])
    {
      assert keys[..i + 1][..i] == keys[..i];
      counts := counts[keys[i] := 0];
    }
    assert keys[..|keys|] == keys;
  }

  // ---------------------------------------------------------------------------
  // Labels counted per type
  // ---------------------------------------------------------------------------

  /** The option texts, in order. */
  function OptionTexts(opts: seq<ClientOption>): (r: seq<string>)
    ensures |r| == |opts| && forall i :: 0 <= i < |opts| ==> r[i] == opts[i].text
  {
    seq(|opts|, i requires 0 <= i < |opts| => opts[i].text)
  }

  /**
   * The key a single-choice answer counts under: the text of its selected
   * option when that option exists (nothing when it does not), otherwise its
   * non-empty text.
   */
  function SelectLabel(opts: seq<ClientOption>, a: ViewAnswer): (r: seq<string>)
    ensures |r| <= 1
  {
    if a.selectedOptionId.Some? then
      match FindOption(opts, a.selectedOptionId.value)
      case Some(o) => [o.text]
      case None => []
    else if a.text != [] then [a.text]
    else []
  }

  function SelectLabels(opts: seq<ClientOption>, answers: seq<ViewAnswer>): (r: seq<string>)
    ensures |r| <= |answers|
  {
    if answers == [] then []
    else SelectLabels(opts, answers[..|answers| - 1]) + SelectLabel(opts, answers[|answers| - 1])
  }

  /** The texts of the options found for some ids, in order; an id with no option counts nothing. */
  function FoundTexts(opts: seq<ClientOption>, ids: seq<int>): seq<string>
  {
    if ids == [] then []
    else
      FoundTexts(opts, ids[..|ids| - 1]) +
      match FindOption(opts, ids[|ids| - 1])
      case Some(o) => [o.text]
      case None => []
  }

  /** The trimmed, non-empty pieces. */
  function TrimmedPieces(pieces: seq<string>, ws: char -> bool): (r: seq<string>)
    ensures |r| <= |pieces|
  {
    if pieces == [] then []
    else
      var p := pieces[|pieces| - 1];
      TrimmedPieces(pieces[..|pieces| - 1], ws) + (if Blank(p, ws) then [] else [Trim(p, ws)])
  }

  /** Every counted piece is non-empty once trimmed. */
  lemma {:induction false} TrimmedPiecesNonEmpty(pieces: seq<string>, ws: char -> bool)
    ensures forall k :: k in TrimmedPieces(pieces, ws) ==> k != []
    decreases |pieces|
  {
    if pieces != [] {
      var p := pieces[|pieces| - 1];
      TrimmedPiecesNonEmpty(pieces[..|pieces| - 1], ws);
      BlankIff(p, ws);
    }
  }

  /**
   * The keys a multi-select answer counts under: the texts of its selected
   * options when it has a non-empty id list, otherwise the trimmed
   * non-empty pieces of its text split on commas.
   */
  function MultiLabel(opts: seq<ClientOption>, a: ViewAnswer, ws: char -> bool): seq<string>
  {
    if a.selectedOptionIds.Some? && |a.selectedOptionIds.value| > 0 then FoundTexts(opts, a.selectedOptionIds.value)
    else if a.text != [] then TrimmedPieces(SplitOn(a.text, ','), ws)
    else []
  }

  function MultiLabels(opts: seq<ClientOption>, answers: seq<ViewAnswer>, ws: char -> bool): seq<string>
  {
    if answers == [] then []
    else MultiLabels(opts, answers[..|answers| - 1], ws) + MultiLabel(opts, answers[|answers| - 1], ws)
  }

  /** The key a rating answer counts under: its rating in decimal, otherwise its non-empty text. */
  function RatingLabel(a: ViewAnswer): (r: seq<string>)
    ensures |r| <= 1
  {
    if a.rating.Some? then [IntToString(a.rating.value)]
    else if a.text != [] then [a.text]
    else []
  }

  function RatingLabels(answers: seq<ViewAnswer>): (r: seq<string>)
    ensures |r| <= |answers|
  {
    if answers == [] then []
    else RatingLabels(answers[..|answers| - 1]) + RatingLabel(answers[|answers| - 1])
  }

  /** The rating keys `lo`, `lo + 1`, ..., `hi` in decimal; none when `hi < lo`. */
  function RatingKeys(lo: int, hi: int): (r: seq<string>)
    ensures |r| == if hi >= lo then hi - lo + 1 else 0
    ensures forall k :: 0 <= k < |r| ==> r[k] == IntToString(lo + k)
  {
    seq(if hi >= lo then hi - lo + 1 else 0, k => IntToString(lo + k))
  }

  // ---------------------------------------------------------------------------
  // The counting loops
  // ---------------------------------------------------------------------------

  /** The single-select and multiple-choice counts: every option text at 0, then one per answer's key. */
  method CountSelected(opts: seq<ClientOption>, answers: seq<ViewAnswer>) returns (counts: map<string, int>)
    ensures counts == Tally(Zeros(OptionTexts(opts)), SelectLabels(opts, answers))
  {
    counts := InitCounts(OptionTexts(opts));
    ghost var init := counts;
    for i := 0 to |answers|
      invariant counts == Tally(init, SelectLabels(opts, answers[..i]))
    {
      assert answers[..i + 1][..i] == answers[..i];
      var answer := answers[i];
      if answer.selectedOptionId.Some? {
        var option := FindOption(opts, answer.selectedOptionId.value);
        if option.Some? {
          TallySnoc(init, SelectLabels(opts, answers[..i]), option.value.text);
          counts := Bump(counts, option.value.text);
        } else {
          assert SelectLabels(opts, answers[..i]) + [] == SelectLabels(opts, answers[..i]);
        }
      } else if answer.text != [] {
        TallySnoc(init, SelectLabels(opts, answers[..i]), answer.text);
        counts := Bump(counts, answer.text);
      } else {
        assert SelectLabels(opts, answers[..i]) + [] == SelectLabels(opts, answers[..i]);
      }
    }
    assert answers[..|answers|] == answers;
  }

  /** The inner loop over a multi-select answer's ids. */
  method CountFound(opts: seq<ClientOption>, ids: seq<int>, start: map<string, int>) returns (counts: map<string, int>)
    ensures counts == Tally(start, FoundTexts(opts, ids))
  {
    counts := start;
    for j := 0 to |ids|
      invariant counts == Tally(start, FoundTexts(opts, ids[..j]))
    {
      assert ids[..j + 1][..j] == ids[..j];
      var option := FindOption(opts, ids[j]);
      if option.Some? {
        TallySnoc(start, FoundTexts(opts, ids[..j]), option.value.text);
        counts := Bump(counts, option.value.text);
      } else {
        assert FoundTexts(opts, ids[..j]) + [] == FoundTexts(opts, ids[..j]);
      }
    }
    assert ids[..|ids|] == ids;
  }

  /** One more piece adds its trimmed text, unless it is blank. */
  lemma TrimmedPiecesStep(pieces: seq<string>, j: nat, ws: char -> bool)
    requires j < |pieces|
    ensures !Blank(pieces[j], ws) ==>
      TrimmedPieces(pieces[..j + 1], ws) == TrimmedPieces(pieces[..j], ws) + [Trim(pieces[j], ws)]
    ensures Blank(pieces[j], ws) ==> TrimmedPieces(pieces[..j + 1], ws) == TrimmedPieces(pieces[..j], ws)
  {
    assert pieces[..j + 1][..j] == pieces[..j];
  }

  /** The inner loop over the comma-separated pieces of a multi-select answer's text. */
  method CountPieces(pieces: seq<string>, ws: char -> bool, start: map<string, int>) returns (counts: map<string, int>)
    ensures counts == Tally(start, TrimmedPieces(pieces, ws))
  {
    counts := start;
    for j := 0 to |pieces|
      invariant counts == Tally(start, TrimmedPieces(pieces[..j], ws))
    {
      TrimmedPiecesStep(pieces, j, ws);
      if !Blank(pieces[j], ws) {
        var trimmedText := Trim(pieces[j], ws);
        TallySnoc(start, TrimmedPieces(pieces[..j], ws), trimmedText);
        counts := Bump(counts, trimmedText);
      }
    }
    assert pieces[..|pieces|] == pieces;
  }

  /** The multi-select counts: every option text at 0, then each answer's keys. */
  method CountMultiSelect(opts: seq<ClientOption>, answers: seq<ViewAnswer>, ws: char -> bool)
    returns (counts: map<string, int>)
    ensures counts == Tally(Zeros(OptionTexts(opts)), MultiLabels(opts, answers, ws))
  {
    counts := InitCounts(OptionTexts(opts));
    ghost var init := counts;
    for i := 0 to |answers|
      invariant counts == Tally(init, MultiLabels(opts, answers[..i], ws))
    {
      assert answers[..i + 1][..i] == answers[..i];
      var answer := answers[i];
      ghost var before := MultiLabels(opts, answers[..i], ws);
      if answer.selectedOptionIds.Some? && |answer.selectedOptionIds.value| > 0 {
        counts := CountFound(opts, answer.selectedOptionIds.value, counts);
      } else if answer.text != [] {
        counts := CountPieces(SplitOn(answer.text, ','), ws, counts);
      } else {
        counts := Tally(counts, []);
      }
      TallyAppend(init, before, MultiLabel(opts, answer, ws));
    }
    assert answers[..|answers|] == answers;
  }

  /** `for (let i = minRating; i <= maxRating; i++) ratingCounts[i.toString()] = 0`. */
  method InitRatingCounts(lo: int, hi: int) returns (counts: map<string, int>)
    ensures counts == Zeros(RatingKeys(lo, hi))
  {
    ghost var keys := RatingKeys(lo, hi);
    counts := map[];
    var i := lo;
    while i <= hi
      invariant lo <= i && i - lo <= |keys|
      invariant counts == Zeros(keys[..i - lo])
      decreases hi - i
    {
      assert keys[..i - lo + 1][..i - lo] == keys[..i - lo];
      assert keys[i - lo] == IntToString(i);
      counts := counts[IntToString(i) := 0];
      i := i + 1;
    }
    assert keys[..i - lo] == keys;
  }

  /** The rating counts: every key of the range at 0, then one per answer's key. */
  method CountRatings(lo: int, hi: int, answers: seq<ViewAnswer>) returns (counts: map<string, int>)
    ensures counts == Tally(Zeros(RatingKeys(lo, hi)), RatingLabels(answers))
  {
    counts := InitRatingCounts(lo, hi);
    ghost var init := counts;
    for i := 0 to |answers|
      invariant counts == Tally(init, RatingLabels(answers[..i]))
    {
      assert answers[..i + 1][..i] == answers[..i];
      var answer := answers[i];
      if answer.rating.Some? {
        TallySnoc(init, RatingLabels(answers[..i]), IntToString(answer.rating.value));
        counts := Bump(counts, IntToString(answer.rating.value));
      } else if answer.text != [] {
        TallySnoc(init, RatingLabels(answers[..i]), answer.text);
        counts := Bump(counts, answer.text);
      } else {
        assert RatingLabels(answers[..i]) + [] == RatingLabels(answers[..i]);
      }
    }
    assert answers[..|answers|] == answers;
  }

  // ---------------------------------------------------------------------------
  // The summary
  // ---------------------------------------------------------------------------

  /** `a.textValue || a.text || ''`. */
  function ShownText(a: ViewAnswer): string
  {
    if a.textValue.Some? && a.textValue.value != [] then a.textValue.value else a.text
  }

  function NotBlankText(ws: char -> bool): string -> bool
  {
    (s: string) => !Blank(s, ws)
  }

  /** The sample of a text question: the shown texts of the first five answers, blank ones dropped. */
  function SampleResponses(answers: seq<ViewAnswer>, ws: char -> bool): (r: seq<string>)
    ensures |r| <= 5
    ensures forall s :: s in r ==> !Blank(s, ws)
    ensures forall s :: s in r ==> exists i :: 0 <= i < |answers| && i < 5 && ShownText(answers[i]) == s
  {
    var shown := seq(if |answers| < 5 then |answers| else 5, i requires 0 <= i < |answers| && i < 5 => ShownText(answers[i]));
    FilterMembers(shown, NotBlankText(ws));
    Filter(shown, NotBlankText(ws))
  }

  /** What a question's summary holds besides its count. */
  datatype Detail =
    | Samples(sampleResponses: seq<string>)
    | OptionCounts(optionCounts: map<string, int>)
    | RatingCounts(ratingCounts: map<string, int>, minRating: int, maxRating: int)
    | NoDetail

  /** A question's summary. */
  datatype Stat = Stat(question: string, qtype: QuestionType, responseCount: nat, detail: Detail)

  /** The summary of question `q` given its answers. */
  function StatOf(q: ClientQuestion, answers: seq<ViewAnswer>, ws: char -> bool): Stat
  {
    var detail :=
      match q.qtype
      case Text => Samples(SampleResponses(answers, ws))
      case TextWithLimit => Samples(SampleResponses(answers, ws))
      case SingleSelect => OptionCounts(Tally(Zeros(OptionTexts(q.options)), SelectLabels(q.options, answers)))
      case MultipleChoice => OptionCounts(Tally(Zeros(OptionTexts(q.options)), SelectLabels(q.options, answers)))
      case MultiSelect => OptionCounts(Tally(Zeros(OptionTexts(q.options)), MultiLabels(q.options, answers, ws)))
      case RatingScale =>
        var lo := OrNumber(q.minRating, 1);
        var hi := OrNumber(q.maxRating, 5);
        RatingCounts(Tally(Zeros(RatingKeys(lo, hi)), RatingLabels(answers)), lo, hi)
      case Date => NoDetail;
    Stat(q.text, q.qtype, |answers|, detail)
  }

  /** One question's summary, by its type. */
  method QuestionStat(q: ClientQuestion, answers: seq<ViewAnswer>, ws: char -> bool) returns (s: Stat)
    ensures s == StatOf(q, answers, ws)
  {
    var detail: Detail;
    match q.qtype {
      case Text =>
        detail := Samples(SampleResponses(answers, ws));
      case TextWithLimit =>
        detail := Samples(SampleResponses(answers, ws));
      case SingleSelect =>
        var counts := CountSelected(q.options, answers);
        detail := OptionCounts(counts);
      case MultipleChoice =>
        var counts := CountSelected(q.options, answers);
        detail := OptionCounts(counts);
      case MultiSelect =>
        var counts := CountMultiSelect(q.options, answers, ws);
        detail := OptionCounts(counts);
      case RatingScale =>
        var lo := OrNumber(q.minRating, 1);
        var hi := OrNumber(q.maxRating, 5);
        var counts := CountRatings(lo, hi, answers);
        detail := RatingCounts(counts, lo, hi);
      case Date =>
        detail := NoDetail;
    }
    return Stat(q.text, q.qtype, |answers|, detail);
  }

  /**
   * `getSummaryStats`: nothing without a form or without responses;
   * otherwise one summary per question, in form order, over that question's
   * answers.
   */
  method GetSummaryStats(form: Option<seq<ClientQuestion>>, responses: seq<ViewResponse>, ws: char -> bool)
    returns (stats: seq<Stat>)
    ensures form.None? || |responses| == 0 ==> stats == []
    ensures form.Some? && |responses| > 0 ==>
      |stats| == |form.value| &&
      forall i :: 0 <= i < |stats| ==> stats[i] == StatOf(form.value[i], AnswersFor(responses, form.value[i].id), ws)
  {
    if form.None? || |responses| == 0 {
      return [];
    }
    var qs := form.value;
    stats := [];
    for i := 0 to |qs|
      invariant |stats| == i
      invariant forall j :: 0 <= j < i ==> stats[j] == StatOf(qs[j], AnswersFor(responses, qs[j].id), ws)
    {
      var s := QuestionStat(qs[i], AnswersFor(responses, qs[i].id), ws);
      stats := stats + [s];
    }
  }

  /**
   * A summary's count is the number of answers to that question, and for a
   * choice question every option text has an entry whose value is how
   * often it was chosen, never more than the number of answers.
   */
  lemma SelectedCountsMeaning(q: ClientQuestion, answers: seq<ViewAnswer>, ws: char -> bool)
    requires q.qtype == SingleSelect || q.qtype == MultipleChoice
    ensures StatOf(q, answers, ws).responseCount == |answers|
    ensures var counts := StatOf(q, answers, ws).detail.optionCounts;
      (forall o :: o in q.options ==> o.text in counts) &&
      (forall k :: k in counts ==> counts[k] == Occurrences(SelectLabels(q.options, answers), k) && counts[k] <= |answers|)
  {
    var keys := OptionTexts(q.options);
    ZeroTallyCounts(keys, SelectLabels(q.options, answers));
    forall o | o in q.options ensures o.text in keys {
      var i :| 0 <= i < |q.options| && q.options[i] == o;
      assert keys[i] == o.text;
    }
  }

  /**
   * The rating summary has a key for every rating of the range, 1 to 5 when
   * the question sets no bounds, and each key's value is how often it was
   * given.
   */
  lemma RatingCountsMeaning(q: ClientQuestion, answers: seq<ViewAnswer>, ws: char -> bool, r: int)
    requires q.qtype == RatingScale
    ensures var d := StatOf(q, answers, ws).detail;
      (q.minRating.None? && q.maxRating.None? ==> d.minRating == 1 && d.maxRating == 5) &&
      (d.minRating <= r <= d.maxRating ==> IntToString(r) in d.ratingCounts) &&
      (forall k :: k in d.ratingCounts ==> d.ratingCounts[k] == Occurrences(RatingLabels(answers), k))
  {
    var lo := OrNumber(q.minRating, 1);
    var hi := OrNumber(q.maxRating, 5);
    var keys := RatingKeys(lo, hi);
    ZeroTallyCounts(keys, RatingLabels(answers));
    if lo <= r <= hi {
      assert keys[r - lo] == IntToString(r);
    }
  }

  /** A multi-select answer given by ids whose options all exist counts once under each of their texts, in order. */
  lemma {:induction false} FoundAllTexts(opts: seq<ClientOption>, ids: seq<int>)
    requires forall j :: 0 <= j < |ids| ==> FindOption(opts, ids[j]).Some?
    ensures |FoundTexts(opts, ids)| == |ids|
    ensures forall j :: 0 <= j < |ids| ==> FoundTexts(opts, ids)[j] == FindOption(opts, ids[j]).value.text
    decreases |ids|
  {
    if ids != [] {
      var init := ids[..|ids| - 1];
      assert forall j :: 0 <= j < |init| ==> init[j] == ids[j];
      FoundAllTexts(opts, init);
      var o := FindOption(opts, ids[|ids| - 1]).value;
      assert FoundTexts(opts, ids) == FoundTexts(opts, init) + [o.text];
      forall j | 0 <= j < |ids| ensures FoundTexts(opts, ids)[j] == FindOption(opts, ids[j]).value.text {
        if j < |init| {
          assert ids[j] == init[j];
        }
      }
    }
  }

  // ---------------------------------------------------------------------------
  // Export
  // ---------------------------------------------------------------------------

  /** The line break the export joins its lines with: a backslash followed by `n`. */
  const LineBreakAsWritten := "\\n"

  /** The evidently intended line break. */
  const LineBreak := "\n"

  /** The first answer to question `qid`, if any (`answers.find(a => a.questionId === qid)`). */
  function FindAnswer(answers: seq<ViewAnswer>, qid: int): (r: Option<ViewAnswer>)
    ensures r.None? <==> forall a :: a in answers ==> a.questionId != qid
    ensures r.Some? ==> r.value in answers && r.value.questionId == qid
  {
    if answers == [] then None
    else if answers[0].questionId == qid then Some(answers[0])
    else FindAnswer(answers[1..], qid)
  }

  /** A response's row: the name or "Anonymous", the time, then the answer text per question or empty. */
  function ExportRow(qs: seq<ClientQuestion>, r: ViewResponse, stamp: Option<string> -> string): (row: seq<string>)
    ensures |row| == 2 + |qs|
  {
    [if Filled(r.respondentName) then r.respondentName.value else "Anonymous", stamp(r.createdAt)] +
    seq(|qs|, j requires 0 <= j < |qs| =>
      match FindAnswer(r.answers, qs[j].id)
      case Some(a) => a.text
      case None => [])
  }

  /** The header cells: "Respondent", "Timestamp", then the question texts. */
  function ExportHeader(qs: seq<ClientQuestion>): (h: seq<string>)
    ensures |h| == 2 + |qs|
  {
    ["Respondent", "Timestamp"] + seq(|qs|, j requires 0 <= j < |qs| => qs[j].text)
  }

  /** The lines of the export: the header, then one row per response, cells joined by commas unquoted. */
  function ExportLines(qs: seq<ClientQuestion>, responses: seq<ViewResponse>, stamp: Option<string> -> string)
    : (lines: seq<string>)
    ensures |lines| == 1 + |responses|
  {
    [Join(ExportHeader(qs), ",")] + seq(|responses|, i requires 0 <= i < |responses| => Join(ExportRow(qs, responses[i], stamp), ","))
  }

  /** The export with a given line break; nothing is exported without a form or without responses. */
  function ExportWith(form: Option<seq<ClientQuestion>>, responses: seq<ViewResponse>, stamp: Option<string> -> string,
                      lineBreak: string): Option<string>
  {
    if form.None? || |responses| == 0 then None
    else Some(Join(ExportLines(form.value, responses, stamp), lineBreak))
  }

  /** `exportToCSV` as written: the lines joined by a backslash and an `n`. */
  function ExportToCsvAsWritten(form: Option<seq<ClientQuestion>>, responses: seq<ViewResponse>,
                                stamp: Option<string> -> string): (r: Option<string>)
    ensures r.None? <==> form.None? || |responses| == 0
  {
    ExportWith(form, responses, stamp, LineBreakAsWritten)
  }

  /** `exportToCSV` with the evidently intended line feed between lines. */
  function ExportToCsv(form: Option<seq<ClientQuestion>>, responses: seq<ViewResponse>,
                       stamp: Option<string> -> string): (r: Option<string>)
    ensures r.None? <==> form.None? || |responses| == 0
  {
    ExportWith(form, responses, stamp, LineBreak)
  }

  /** No character `c` in the parts or the separator means none in the join. */
  lemma {:induction false} JoinAvoids(parts: seq<string>, sep: string, c: char)
    requires c !in sep && forall i :: 0 <= i < |parts| ==> c !in parts[i]
    ensures c !in Join(parts, sep)
  {
    if |parts| > 1 {
      JoinAvoids(parts[1..], sep, c);
    }
  }

  /** The line feed appears nowhere in the export's cells: no answer text, name, time or question text holds one. */
  predicate NoLineFeeds(qs: seq<ClientQuestion>, responses: seq<ViewResponse>, stamp: Option<string> -> string)
  {
    (forall j :: 0 <= j < |qs| ==> '\n' !in qs[j].text) &&
    (forall i :: 0 <= i < |responses| ==> forall c :: 0 <= c < 2 + |qs| ==> '\n' !in ExportRow(qs, responses[i], stamp)[c])
  }

  lemma LinesAvoid(qs: seq<ClientQuestion>, responses: seq<ViewResponse>, stamp: Option<string> -> string)
    requires NoLineFeeds(qs, responses, stamp)
    ensures forall i :: 0 <= i < 1 + |responses| ==> '\n' !in ExportLines(qs, responses, stamp)[i]
  {
    var lines := ExportLines(qs, responses, stamp);
    var h := ExportHeader(qs);
    forall k | 0 <= k < |h| ensures '\n' !in h[k] {
      if k >= 2 {
        assert h[k] == qs[k - 2].text;
      } else if k == 0 {
        assert h[k] == "Respondent";
      } else {
        assert h[k] == "Timestamp";
      }
    }
    JoinAvoids(h, ",", '\n');
    forall i | 1 <= i < |lines| ensures '\n' !in lines[i] {
      JoinAvoids(ExportRow(qs, responses[i - 1], stamp), ",", '\n');
    }
  }

  /**
   * As written, the export is a single line however many responses there
   * are: it holds no line feed, and the would-be line breaks appear as a
   * literal backslash followed by `n`.
   */
  lemma ExportAsWrittenIsOneLine(qs: seq<ClientQuestion>, responses: seq<ViewResponse>, stamp: Option<string> -> string)
    requires |responses| > 0 && NoLineFeeds(qs, responses, stamp)
    ensures var out := ExportToCsvAsWritten(Some(qs), responses, stamp).value;
      '\n' !in out && Contains(out, "\\n")
  {
    var lines := ExportLines(qs, responses, stamp);
    LinesAvoid(qs, responses, stamp);
    JoinAvoids(lines, LineBreakAsWritten, '\n');
    var out := Join(lines, LineBreakAsWritten);
    assert out == lines[0] + LineBreakAsWritten + Join(lines[1..], LineBreakAsWritten);
    ContainsInside(lines[0], LineBreakAsWritten, Join(lines[1..], LineBreakAsWritten));
  }

  /**
   * With the line feed, splitting the export into lines gives back the
   * header and one line per response, in order.
   */
  lemma ExportReadsBack(qs: seq<ClientQuestion>, responses: seq<ViewResponse>, stamp: Option<string> -> string)
    requires |responses| > 0 && NoLineFeeds(qs, responses, stamp)
    ensures SplitOn(ExportToCsv(Some(qs), responses, stamp).value, '\n') == ExportLines(qs, responses, stamp)
    ensures |SplitOn(ExportToCsv(Some(qs), responses, stamp).value, '\n')| == 1 + |responses|
  {
    LinesAvoid(qs, responses, stamp);
    SplitJoinRoundTrip(ExportLines(qs, responses, stamp), '\n');
  }

  /** A row whose cells hold no comma splits back into its cells: the name, the time and one cell per question. */
  lemma RowReadsBack(qs: seq<ClientQuestion>, r: ViewResponse, stamp: Option<string> -> string)
    requires forall k :: 0 <= k < 2 + |qs| ==> ',' !in ExportRow(qs, r, stamp)[k]
    ensures SplitOn(Join(ExportRow(qs, r, stamp), ","), ',') == ExportRow(qs, r, stamp)
  {
    SplitJoinRoundTrip(ExportRow(qs, r, stamp), ',');
  }
}
