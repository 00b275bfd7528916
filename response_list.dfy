/**
 * `ResponseList`: the response page's chart view.  For every
 * MULTIPLE_CHOICE question of the form it counts, per option, the responses
 * whose first answer to that question selects that option.
 */
module ResponseList {
  import opened Wrappers
  import opened Store
  import opened Client
  import ViewForm

  /** An answer as the chart reads it: the question it answers and the option it selects, if any. */
  datatype ListAnswer = ListAnswer(questionId: int, selectedOptionId: Option<int>)

  datatype ListResponse = ListResponse(answers: seq<ListAnswer>)

  /** One chart: the question, the option texts as labels and the count per option. */
  datatype ChartSet = ChartSet(questionId: int, questionText: string, labels: seq<string>, data: seq<nat>)

  /** The first answer to question `qid` (`response.answers.find(...)`). */
  function FirstAnswer(answers: seq<ListAnswer>, qid: int): (r: Option<ListAnswer>)
    ensures r.None? <==> forall a :: a in answers ==> a.questionId != qid
    ensures r.Some? ==> r.value in answers && r.value.questionId == qid
  {
    if answers == [] then None
    else if answers[0].questionId == qid then Some(answers[0])
    else FirstAnswer(answers[1..], qid)
  }

  /** Whether a response's first answer to `qid` selects option `optionId`. */
  predicate Selects(r: ListResponse, qid: int, optionId: int)
  {
    match FirstAnswer(r.answers, qid)
    case Some(a) => a.selectedOptionId == Some(optionId)
    case None => false
  }

  /** How many responses select option `optionId` for question `qid`. */
  function OptionCount(responses: seq<ListResponse>, qid: int, optionId: int): (n: nat)
    ensures n <= |responses|
  {
    if responses == [] then 0
    else
      OptionCount(responses[..|responses| - 1], qid, optionId) +
      (if Selects(responses[|responses| - 1], qid, optionId) then 1 else 0)
  }

  /** The `reduce` over the responses for one option. */
  method CountOption(responses: seq<ListResponse>, qid: int, optionId: int) returns (count: nat)
    ensures count == OptionCount(responses, qid, optionId)
  {
    count := 0;
    for i := 0 to |responses|
      invariant count == OptionCount(responses[..i], qid, optionId)
    {
      assert responses[..i + 1][..i] == responses[..i];
      var answer := FirstAnswer(responses[i].answers, qid);
      if answer.Some? && answer.value.selectedOptionId == Some(optionId) {
        count := count + 1;
      }
    }
    assert responses[..|responses|] == responses;
  }

  /** The chart of one question. */
  function ChartOf(q: ClientQuestion, responses: seq<ListResponse>): (c: ChartSet)
    ensures |c.labels| == |c.data| == |q.options|
    ensures forall k :: 0 <= k < |q.options| ==>
      c.labels[k] == q.options[k].text && c.data[k] == OptionCount(responses, q.id, q.options[k].id)
  {
    ChartSet(q.id, q.text, ViewForm.OptionTexts(q.options),
             seq(|q.options|, k requires 0 <= k < |q.options| => OptionCount(responses, q.id, q.options[k].id)))
  }

  function IsMultipleChoice(q: ClientQuestion): bool
  {
    q.qtype == MultipleChoice
  }

  /**
   * `prepareChartData`: no chart data when the form has no
   * MULTIPLE_CHOICE question; otherwise one chart per such question, in
   * form order.
   */
  function PrepareChartData(qs: seq<ClientQuestion>, responses: seq<ListResponse>): (r: Option<seq<ChartSet>>)
    ensures r.None? <==> forall q :: q in qs ==> q.qtype != MultipleChoice
    ensures r.Some? ==> forall c :: c in r.value ==>
      exists q :: q in qs && q.qtype == MultipleChoice && c == ChartOf(q, responses)
    ensures r.Some? ==> forall q :: q in qs && q.qtype == MultipleChoice ==> ChartOf(q, responses) in r.value
    ensures r.Some? ==> |r.value| == |Filter(qs, IsMultipleChoice)|
    ensures r.Some? ==> forall i :: 0 <= i < |r.value| ==> r.value[i] == ChartOf(Filter(qs, IsMultipleChoice)[i], responses)
  {
    var chosen := Filter(qs, IsMultipleChoice);
    FilterMembers(qs, IsMultipleChoice);
    if chosen == [] then
      None
    else
      assert chosen[0] in chosen;
      var charts := seq(|chosen|, i requires 0 <= i < |chosen| => ChartOf(chosen[i], responses));
      forall c | c in charts ensures exists q :: q in qs && q.qtype == MultipleChoice && c == ChartOf(q, responses) {
        var i :| 0 <= i < |chosen| && charts[i] == c;
        assert chosen[i] in chosen;
      }
      forall q | q in qs && q.qtype == MultipleChoice ensures ChartOf(q, responses) in charts {
        assert q in chosen;
        var i :| 0 <= i < |chosen| && chosen[i] == q;
        assert charts[i] == ChartOf(q, responses);
      }
      Some(charts)
  }

  /** The chart data is prepared only after loading a non-empty list of responses; before that it stays empty. */
  function ChartDataAfterLoad(qs: seq<ClientQuestion>, responses: seq<ListResponse>): (r: Option<seq<ChartSet>>)
    ensures |responses| == 0 ==> r.None?
    ensures |responses| > 0 ==> r == PrepareChartData(qs, responses)
  {
    if |responses| > 0 then PrepareChartData(qs, responses) else None
  }

  /** The counts of a chart, added up. */
  function Sum(data: seq<nat>): nat
  {
    if data == [] then 0 else Sum(data[..|data| - 1]) + data[|data| - 1]
  }

  /** How many of the options a single response selects for `qid`. */
  function Hits(opts: seq<ClientOption>, r: ListResponse, qid: int): nat
  {
    if opts == [] then 0
    else Hits(opts[..|opts| - 1], r, qid) + (if Selects(r, qid, opts[|opts| - 1].id) then 1 else 0)
  }

  /** The per-option counts of some responses, added up over the options. */
  function CountsOver(opts: seq<ClientOption>, responses: seq<ListResponse>, qid: int): nat
  {
    if opts == [] then 0
    else CountsOver(opts[..|opts| - 1], responses, qid) + OptionCount(responses, qid, opts[|opts| - 1].id)
  }

  predicate DistinctIds(opts: seq<ClientOption>)
  {
    forall i, j :: 0 <= i < j < |opts| ==> opts[i].id != opts[j].id
  }

  /** With distinct option ids a response selects at most one option. */
  lemma {:induction false} HitsAtMostOne(opts: seq<ClientOption>, r: ListResponse, qid: int)
    requires DistinctIds(opts)
    ensures Hits(opts, r, qid) <= 1
    ensures Hits(opts, r, qid) == 0 <==> forall k :: 0 <= k < |opts| ==> !Selects(r, qid, opts[k].id)
    decreases |opts|
  {
    if opts != [] {
      var init := opts[..|opts| - 1];
      HitsAtMostOne(init, r, qid);
      if Selects(r, qid, opts[|opts| - 1].id) {
        forall k | 0 <= k < |init| ensures !Selects(r, qid, init[k].id) {
          assert init[k].id != opts[|opts| - 1].id;
        }
      }
    }
  }

  /** Adding one response adds its hits to the counts. */
  lemma {:induction false} CountsOverSnoc(opts: seq<ClientOption>, responses: seq<ListResponse>, r: ListResponse, qid: int)
    ensures CountsOver(opts, responses + [r], qid) == CountsOver(opts, responses, qid) + Hits(opts, r, qid)
    decreases |opts|
  {
    assert (responses + [r])[..|responses|] == responses;
    if opts != [] {
      CountsOverSnoc(opts[..|opts| - 1], responses, r, qid);
    }
  }

  /** With distinct option ids, the counts of one question add up to at most the number of responses. */
  lemma {:induction false} CountsOverBounded(opts: seq<ClientOption>, responses: seq<ListResponse>, qid: int)
    requires DistinctIds(opts)
    ensures CountsOver(opts, responses, qid) <= |responses|
    decreases |responses|
  {
    if responses == [] {
      CountsOverEmpty(opts, qid);
    } else {
      var init := responses[..|responses| - 1];
      assert responses == init + [responses[|responses| - 1]];
      CountsOverBounded(opts, init, qid);
      CountsOverSnoc(opts, init, responses[|responses| - 1], qid);
      HitsAtMostOne(opts, responses[|responses| - 1], qid);
    }
  }

  lemma {:induction false} CountsOverEmpty(opts: seq<ClientOption>, qid: int)
    ensures CountsOver(opts, [], qid) == 0
    decreases |opts|
  {
    if opts != [] {
      CountsOverEmpty(opts[..|opts| - 1], qid);
    }
  }

  /** Counts, one per option in order, added up are the counts added up over the options. */
  lemma {:induction false} SumOfChart(opts: seq<ClientOption>, data: seq<nat>, responses: seq<ListResponse>, qid: int)
    requires |data| == |opts|
    requires forall k :: 0 <= k < |opts| ==> data[k] == OptionCount(responses, qid, opts[k].id)
    ensures Sum(data) == CountsOver(opts, responses, qid)
    decreases |opts|
  {
    if opts != [] {
      SumOfChart(opts[..|opts| - 1], data[..|data| - 1], responses, qid);
    }
  }

  /**
   * Each response counts at most once per chart: when a question's option
   * ids are distinct, the bars of its chart add up to at most the number of
   * responses.
   */
  lemma ChartTotalBounded(q: ClientQuestion, responses: seq<ListResponse>)
    requires DistinctIds(q.options)
    ensures Sum(ChartOf(q, responses).data) <= |responses|
  {
    SumOfChart(q.options, ChartOf(q, responses).data, responses, q.id);
    CountsOverBounded(q.options, responses, q.id);
  }
}
