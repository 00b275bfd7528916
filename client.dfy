/**
 * `Client`: the form shapes the React pages receive from the server, and
 * the JavaScript value rules the pages rely on: truthiness, `x || d`
 * defaults, blank tests through `trim()`, and `Array.find`.
 *
 * JavaScript's whitespace class (used by `trim()` and `/\s/`) is the
 * parameter `ws` wherever it matters.
 */
module Client {
  import opened Wrappers
  import opened Strings
  import opened Store

  /** An option as loaded from the server. */
  datatype ClientOption = ClientOption(id: int, text: string)

  /** A question as the client's `Question` interface describes it; the optional fields may be undefined. */
  datatype ClientQuestion = ClientQuestion(
    id: int,
    text: string,
    qtype: QuestionType,
    required: bool,
    options: seq<ClientOption>,
    wordLimit: Option<int>,
    minRating: Option<int>,
    maxRating: Option<int>,
    defaultRating: Option<int>,
    minDate: Option<string>,
    maxDate: Option<string>)

  /** A number is truthy unless it is undefined or 0. */
  predicate Truthy(n: Option<int>)
  {
    n.Some? && n.value != 0
  }

  /** `n || d` for a number that may be undefined. */
  function OrNumber(n: Option<int>, d: int): int
  {
    if Truthy(n) then n.value else d
  }

  /** A string is truthy unless it is undefined or empty. */
  predicate Filled(s: Option<string>)
  {
    s.Some? && s.value != []
  }

  /** `s || ''` for a string that may be undefined. */
  function OrEmpty(s: Option<string>): string
  {
    if s.Some? then s.value else []
  }

  /** A blank string: nothing but whitespace, so that `s.trim() === ''` (see `BlankIff`). */
  predicate Blank(s: string, ws: char -> bool)
  {
    All(s, ws)
  }

  /** A string is blank exactly when trimming leaves nothing; the empty string is blank. */
  lemma BlankIff(s: string, ws: char -> bool)
    ensures Blank(s, ws) <==> Trim(s, ws) == []
    ensures s == [] ==> Blank(s, ws)
  {
    TrimEmptyIff(s, ws);
  }

  /** The test `!s.trim()`: trimming leaves the empty string, that is, `s` is blank. */
  method IsBlank(s: string, ws: char -> bool) returns (blank: bool)
    ensures blank <==> Blank(s, ws)
  {
    BlankIff(s, ws);
    blank := Trim(s, ws) == [];
  }

  /** The index of the first option with that id, or the length when there is none. */
  function FindIndex(opts: seq<ClientOption>, id: int): (i: nat)
    ensures i <= |opts|
    ensures i < |opts| ==> opts[i].id == id
    ensures forall j :: 0 <= j < i ==> opts[j].id != id
  {
    if opts == [] || opts[0].id == id then 0 else 1 + FindIndex(opts[1..], id)
  }

  /** `options.find(o => o.id === id)`: the first option with that id. */
  function FindOption(opts: seq<ClientOption>, id: int): (r: Option<ClientOption>)
    ensures r.None? <==> forall o :: o in opts ==> o.id != id
    ensures r.Some? ==> r.value == opts[FindIndex(opts, id)] && r.value.id == id
  {
    var i := FindIndex(opts, id);
    if i < |opts| then Some(opts[i]) else None
  }

  /** `option ? option.text : ''` after a lookup by id. */
  function OptionText(opts: seq<ClientOption>, id: int): string
  {
    match FindOption(opts, id)
    case Some(o) => o.text
    case None => []
  }

  /** The text shown for a selected option id is the text of the first option carrying that id. */
  lemma OptionTextOfFirst(opts: seq<ClientOption>, i: nat)
    requires i < |opts| && forall j :: 0 <= j < i ==> opts[j].id != opts[i].id
    ensures OptionText(opts, opts[i].id) == opts[i].text
  {
    var k := FindIndex(opts, opts[i].id);
    assert k >= i;
  }
}
