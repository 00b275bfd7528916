/**
 * The persisted state of the feedback system: users, forms, questions,
 * options, responses and answers, each table keyed by its generated id,
 * children pointing at their parent by id (the JPA `@ManyToOne` columns).
 * The repository queries the services use (`findByPublicUrl`,
 * `findByCreatedBy`, `findByFormOrderBySubmittedAtDesc`,
 * `findByRespondentEmailOrderBySubmittedAtDesc`, `countByForm`, and the
 * child collections JPA loads) are functions over this state.
 */
module Store {
  import opened Wrappers

  /** A generated primary key. */
  type Id = nat

  /** A clock reading (`LocalDateTime.now()`); only its order matters to the model. */
  type Instant = nat

  /** The seven question kinds of the system. */
  datatype QuestionType = Text | TextWithLimit | SingleSelect | MultipleChoice | MultiSelect | RatingScale | Date

  /** The enum constant's name, as stored and as sent in JSON. */
  function TypeName(t: QuestionType): string
  {
    match t
    case Text => "TEXT"
    case TextWithLimit => "TEXT_WITH_LIMIT"
    case SingleSelect => "SINGLE_SELECT"
    case MultipleChoice => "MULTIPLE_CHOICE"
    case MultiSelect => "MULTI_SELECT"
    case RatingScale => "RATING_SCALE"
    case Date => "DATE"
  }

  /** Distinct kinds have distinct names, so the stored name determines the kind. */
  lemma TypeNameInjective(t: QuestionType, u: QuestionType)
    requires TypeName(t) == TypeName(u)
    ensures t == u
  {
  }

  datatype Role = RoleUser | RoleAdmin

  datatype User = User(
    username: string,
    email: string,
    fullName: string,
    phoneNo: Option<string>,
    password: string,        // the encoded password
    roles: set<Role>,
    profilePicture: Option<string>,
    bio: Option<string>,
    location: Option<string>,
    organization: Option<string>)

  datatype FormRow = FormRow(
    title: string,
    description: Option<string>,
    publicUrl: string,
    owner: Id,
    createdAt: Instant,
    updatedAt: Option<Instant>)

  datatype QuestionRow = QuestionRow(
    form: Id,
    text: string,
    qtype: QuestionType,
    displayOrder: int,
    required: bool,
    wordLimit: Option<int>,
    minRating: Option<int>,
    maxRating: Option<int>,
    minDate: Option<string>,
    maxDate: Option<string>)

  datatype OptionRow = OptionRow(question: Id, text: string, displayOrder: int)

  datatype ResponseRow = ResponseRow(
    form: Id,
    respondentName: Option<string>,
    respondentEmail: Option<string>,
    submittedAt: Instant)

  /**
   * What an answer records, by question kind: the text, the selected
   * option, the selected options in selection order, the rating or the date.
   */
  datatype Payload =
    | TextPayload(text: Option<string>)
    | ChoicePayload(option: Option<Id>)
    | MultiPayload(options: seq<Id>)
    | RatingPayload(rating: Option<int>)
    | DatePayload(date: Option<string>)

  datatype AnswerRow = AnswerRow(response: Id, question: Id, payload: Payload)

  /** The answer's `textAnswer` column. */
  function TextOf(p: Payload): Option<string>
  {
    if p.TextPayload? then p.text else None
  }

  /** The answer's `selectedOption` column. */
  function ChoiceOf(p: Payload): Option<Id>
  {
    if p.ChoicePayload? then p.option else None
  }

  /** The answer's `selectedOptions` collection. */
  function MultiOf(p: Payload): seq<Id>
  {
    if p.MultiPayload? then p.options else []
  }

  /** The answer's `ratingValue` column. */
  function RatingOf(p: Payload): Option<int>
  {
    if p.RatingPayload? then p.rating else None
  }

  /** The answer's `dateValue` column. */
  function DateOf(p: Payload): Option<string>
  {
    if p.DatePayload? then p.date else None
  }

  /** Every option an answer refers to. */
  function OptionRefs(p: Payload): seq<Id>
  {
    match p
    case ChoicePayload(Some(o)) => [o]
    case MultiPayload(os) => os
    case _ => []
  }

  /**
   * All tables, each with the next key its identity column hands out
   * (keys are generated per table, in insertion order).
   */
  datatype Db = Db(
    users: map<Id, User>,
    forms: map<Id, FormRow>,
    questions: map<Id, QuestionRow>,
    options: map<Id, OptionRow>,
    responses: map<Id, ResponseRow>,
    answers: map<Id, AnswerRow>,
    nextUser: Id,
    nextForm: Id,
    nextQuestion: Id,
    nextOption: Id,
    nextResponse: Id,
    nextAnswer: Id)

  function EmptyDb(): (db: Db)
    ensures Valid(db)
  {
    Db(map[], map[], map[], map[], map[], map[], 0, 0, 0, 0, 0, 0)
  }

  // ---------------------------------------------------------------------------
  // Integrity of the stored state
  // ---------------------------------------------------------------------------

  /** Every stored key was handed out by the generator. */
  predicate KeysIssued(db: Db)
  {
    (forall k :: k in db.users ==> k < db.nextUser) &&
    (forall k :: k in db.forms ==> k < db.nextForm) &&
    (forall k :: k in db.questions ==> k < db.nextQuestion) &&
    (forall k :: k in db.options ==> k < db.nextOption) &&
    (forall k :: k in db.responses ==> k < db.nextResponse) &&
    (forall k :: k in db.answers ==> k < db.nextAnswer)
  }

  /** Every non-null foreign key names a stored row. */
  predicate ReferencesResolve(db: Db)
  {
    (forall f :: f in db.forms ==> db.forms[f].owner in db.users) &&
    (forall q :: q in db.questions ==> db.questions[q].form in db.forms) &&
    (forall o :: o in db.options ==> db.options[o].question in db.questions) &&
    (forall r :: r in db.responses ==> db.responses[r].form in db.forms) &&
    (forall a :: a in db.answers ==> db.answers[a].response in db.responses && db.answers[a].question in db.questions)
  }

  /**
   * An answer is for a question of its response's form, and every option it
   * selects belongs to that question.
   */
  predicate AnswerCoherent(db: Db, a: AnswerRow)
    requires a.response in db.responses && a.question in db.questions
  {
    db.questions[a.question].form == db.responses[a.response].form &&
    forall o :: o in OptionRefs(a.payload) ==> o in db.options && db.options[o].question == a.question
  }

  predicate AnswersCoherent(db: Db)
    requires ReferencesResolve(db)
  {
    forall a :: a in db.answers ==> AnswerCoherent(db, db.answers[a])
  }

  /** The `unique` columns: public urls, usernames and emails. */
  predicate UniqueKeys(db: Db)
  {
    (forall f, g :: f in db.forms && g in db.forms && db.forms[f].publicUrl == db.forms[g].publicUrl ==> f == g) &&
    (forall u, v :: u in db.users && v in db.users && db.users[u].username == db.users[v].username ==> u == v) &&
    (forall u, v :: u in db.users && v in db.users && db.users[u].email == db.users[v].email ==> u == v)
  }

  /** The invariant every committed state satisfies. */
  predicate Valid(db: Db)
  {
    KeysIssued(db) && ReferencesResolve(db) && AnswersCoherent(db) && UniqueKeys(db)
  }

  /**
   * Answers stay coherent when no answer or response changes and every
   * stored question and option is kept unchanged.
   */
  lemma AnswersCoherentKept(d: Db, d': Db)
    requires ReferencesResolve(d) && AnswersCoherent(d) && ReferencesResolve(d')
    requires d'.answers == d.answers && d'.responses == d.responses
    requires forall q :: q in d.questions ==> q in d'.questions && d'.questions[q] == d.questions[q]
    requires forall o :: o in d.options ==> o in d'.options && d'.options[o] == d.options[o]
    ensures AnswersCoherent(d')
  {
    forall a | a in d'.answers ensures AnswerCoherent(d', d'.answers[a]) {
      assert AnswerCoherent(d, d.answers[a]);
    }
  }

  /** Answers stay coherent when only users and forms change. */
  lemma AnswersCoherentSame(d: Db, d': Db)
    requires ReferencesResolve(d) && AnswersCoherent(d) && ReferencesResolve(d')
    requires d'.answers == d.answers && d'.responses == d.responses
    requires d'.questions == d.questions && d'.options == d.options
    ensures AnswersCoherent(d')
  {
    forall a | a in d'.answers ensures AnswerCoherent(d', d'.answers[a]) {
      assert AnswerCoherent(d, d.answers[a]);
    }
  }

  /** One answer stays coherent when its response, its question and every stored option are kept. */
  lemma AnswerCoherentKept(d: Db, d': Db, a: AnswerRow)
    requires a.response in d.responses && a.question in d.questions && AnswerCoherent(d, a)
    requires a.response in d'.responses && d'.responses[a.response] == d.responses[a.response]
    requires a.question in d'.questions && d'.questions[a.question] == d.questions[a.question]
    requires forall o :: o in d.options ==> o in d'.options && d'.options[o] == d.options[o]
    ensures AnswerCoherent(d', a)
  {
  }

  /** Inserting a user under the next key keeps the store valid when its username and email are new. */
  lemma WithUserValid(db: Db, row: User)
    requires Valid(db)
    requires forall u :: u in db.users ==> db.users[u].username != row.username && db.users[u].email != row.email
    ensures Valid(db.(users := db.users[db.nextUser := row], nextUser := db.nextUser + 1))
  {
    var d := db.(users := db.users[db.nextUser := row], nextUser := db.nextUser + 1);
    WithUserResolves(db, row);
    AnswersCoherentSame(db, d);
    WithUserUnique(db, row);
  }

  /** Keys stay issued and references keep resolving when a user is inserted under the next key. */
  lemma WithUserResolves(db: Db, row: User)
    requires KeysIssued(db) && ReferencesResolve(db)
    ensures var d := db.(users := db.users[db.nextUser := row], nextUser := db.nextUser + 1);
      KeysIssued(d) && ReferencesResolve(d)
  {
  }

  /** Replacing a stored user by a row with the same username and email keeps the store valid. */
  lemma UserReplacedValid(db: Db, u: Id, row: User)
    requires Valid(db) && u in db.users
    requires row.username == db.users[u].username && row.email == db.users[u].email
    ensures Valid(db.(users := db.users[u := row]))
  {
    var d := db.(users := db.users[u := row]);
    assert KeysIssued(d);
    assert ReferencesResolve(d);
    AnswersCoherentSame(db, d);
    UserReplacedUnique(db, u, row);
  }

  /** The unique columns stay unique when a user is replaced by a row with the same username and email. */
  lemma UserReplacedUnique(db: Db, u: Id, row: User)
    requires UniqueKeys(db) && u in db.users
    requires row.username == db.users[u].username && row.email == db.users[u].email
    ensures UniqueKeys(db.(users := db.users[u := row]))
  {
    var users := db.users[u := row];
    forall x, y | x in users && y in users && users[x].username == users[y].username ensures x == y {
      assert db.users[x].username == db.users[y].username;
    }
    forall x, y | x in users && y in users && users[x].email == users[y].email ensures x == y {
      assert db.users[x].email == db.users[y].email;
    }
  }

  /** The unique columns stay unique when the inserted user's username and email are new. */
  lemma WithUserUnique(db: Db, row: User)
    requires UniqueKeys(db) && forall k :: k in db.users ==> k < db.nextUser
    requires forall u :: u in db.users ==> db.users[u].username != row.username && db.users[u].email != row.email
    ensures UniqueKeys(db.(users := db.users[db.nextUser := row], nextUser := db.nextUser + 1))
  {
    var users := db.users[db.nextUser := row];
    forall u, v | u in users && v in users && users[u].username == users[v].username ensures u == v {
      assert u in db.users && v in db.users ==> db.users[u].username == db.users[v].username;
    }
    forall u, v | u in users && v in users && users[u].email == users[v].email ensures u == v {
      assert u in db.users && v in db.users ==> db.users[u].email == db.users[v].email;
    }
  }

  /** The unique columns stay unique when users and forms are unchanged. */
  lemma UniqueKeysSame(d: Db, d': Db)
    requires UniqueKeys(d) && d'.users == d.users && d'.forms == d.forms
    ensures UniqueKeys(d')
  {
  }

  // ---------------------------------------------------------------------------
  // Queries
  // ---------------------------------------------------------------------------

  /** The elements of `s` ascend strictly. */
  predicate Increasing(s: seq<Id>)
  {
    forall i, j :: 0 <= i < j < |s| ==> s[i] < s[j]
  }

  /** The keys in `[lo, hi)` whose rows satisfy `keep`, in ascending key order. */
  function Scan<T>(m: map<Id, T>, keep: T -> bool, lo: nat, hi: nat): (r: seq<Id>)
    ensures forall x {:trigger x in r} :: x in r <==> lo <= x < hi && x in m && keep(m[x])
    ensures Increasing(r)
    decreases hi - lo
  {
    if lo >= hi then []
    else
      var rest := Scan(m, keep, lo + 1, hi);
      if lo in m && keep(m[lo]) then
        assert forall x :: x in rest ==> lo < x;
        assert forall i :: 0 <= i < |rest| ==> rest[i] in rest;
        [lo] + rest
      else
        rest
  }

  /** Two ascending sequences with the same elements are equal. */
  lemma {:induction false} IncreasingUnique(a: seq<Id>, b: seq<Id>)
    requires Increasing(a) && Increasing(b)
    requires forall x :: x in a <==> x in b
    ensures a == b
  {
    if a != [] && b != [] {
      assert a[0] == b[0] by {
        assert a[0] in b && b[0] in a;
      }
      forall x ensures x in a[1..] <==> x in b[1..] {
        if x in a[1..] {
          var i :| 1 <= i < |a| && a[i] == x;
          assert x != a[0];
        }
        if x in b[1..] {
          var i :| 1 <= i < |b| && b[i] == x;
          assert x != b[0];
        }
        assert x in a[1..] <==> x in a && x != a[0];
        assert x in b[1..] <==> x in b && x != b[0];
      }
      IncreasingUnique(a[1..], b[1..]);
    } else if a != [] {
      HeadIn(a);
      assert false;
    } else if b != [] {
      HeadIn(b);
      assert false;
    }
  }

  lemma HeadIn(s: seq<Id>)
    ensures s != [] ==> s[0] in s
  {
  }

  /** The keys `lo, lo + 1, ..., lo + n - 1`. */
  function KeyRange(lo: Id, n: nat): (r: seq<Id>)
    ensures |r| == n
  {
    seq(n, k => lo + k)
  }

  lemma KeyRangeContents(lo: Id, n: nat)
    ensures Increasing(KeyRange(lo, n))
    ensures forall k :: 0 <= k < n ==> KeyRange(lo, n)[k] == lo + k
    ensures forall x :: x in KeyRange(lo, n) <==> lo <= x < lo + n
  {
    var r := KeyRange(lo, n);
    forall x | lo <= x < lo + n ensures x in r {
      assert r[x - lo] == x;
    }
  }

  /** A scan of `[lo, hi)` is the scan of `[lo, mid)` followed by the scan of `[mid, hi)`. */
  lemma {:induction false} ScanSplit<T>(m: map<Id, T>, keep: T -> bool, lo: nat, mid: nat, hi: nat)
    requires lo <= mid <= hi
    ensures Scan(m, keep, lo, hi) == Scan(m, keep, lo, mid) + Scan(m, keep, mid, hi)
    decreases mid - lo
  {
    if lo < mid {
      ScanSplit(m, keep, lo + 1, mid, hi);
      var head: seq<Id> := if lo in m && keep(m[lo]) then [lo] else [];
      calc {
        Scan(m, keep, lo, hi);
        head + Scan(m, keep, lo + 1, hi);
        head + (Scan(m, keep, lo + 1, mid) + Scan(m, keep, mid, hi));
        (head + Scan(m, keep, lo + 1, mid)) + Scan(m, keep, mid, hi);
      }
    }
  }

  /** A scan over keys none of whose rows is kept finds nothing. */
  lemma ScanNone<T>(m: map<Id, T>, keep: T -> bool, lo: nat, hi: nat)
    requires forall k :: lo <= k < hi && k in m ==> !keep(m[k])
    ensures Scan(m, keep, lo, hi) == []
  {
    var r := Scan(m, keep, lo, hi);
    if r != [] {
      HeadIn(r);
      assert false;
    }
  }

  /** A scan over keys that are all stored and all kept finds every one of them. */
  lemma ScanAll<T>(m: map<Id, T>, keep: T -> bool, lo: nat, n: nat)
    requires forall k :: lo <= k < lo + n ==> k in m && keep(m[k])
    ensures Scan(m, keep, lo, lo + n) == KeyRange(lo, n)
  {
    KeyRangeContents(lo, n);
    IncreasingUnique(Scan(m, keep, lo, lo + n), KeyRange(lo, n));
  }

  // ---------------------------------------------------------------------------
  // Inserting rows
  // ---------------------------------------------------------------------------

  /**
   * `m` with `rows` inserted one after another under the keys the identity
   * column hands out from `n` on: row `k` under key `n + k`.
   */
  function AppendRows<T>(m: map<Id, T>, n: Id, rows: seq<T>): map<Id, T>
    decreases |rows|
  {
    if rows == [] then m
    else AppendRows(m, n, rows[..|rows| - 1])[n + |rows| - 1 := rows[|rows| - 1]]
  }

  /** The appended table holds the old rows, and row `k` of `rows` under key `n + k`. */
  lemma {:induction false} AppendRowsContents<T>(m: map<Id, T>, n: Id, rows: seq<T>)
    ensures forall k :: k in AppendRows(m, n, rows) <==> k in m || n <= k < n + |rows|
    ensures forall k :: n <= k < n + |rows| ==> AppendRows(m, n, rows)[k] == rows[k - n]
    ensures forall k :: k in m && !(n <= k < n + |rows|) ==> AppendRows(m, n, rows)[k] == m[k]
    decreases |rows|
  {
    if rows != [] {
      var init := rows[..|rows| - 1];
      AppendRowsContents(m, n, init);
    }
  }

  /** Inserting one more row is one more map update. */
  lemma AppendRowsSnoc<T>(m: map<Id, T>, n: Id, rows: seq<T>, x: T)
    ensures AppendRows(m, n, rows + [x]) == AppendRows(m, n, rows)[n + |rows| := x]
  {
    assert (rows + [x])[..|rows|] == rows;
  }

  /** Inserting `a` and then `b` is inserting `a + b`. */
  lemma {:induction false} AppendRowsConcat<T>(m: map<Id, T>, n: Id, a: seq<T>, b: seq<T>)
    ensures AppendRows(AppendRows(m, n, a), n + |a|, b) == AppendRows(m, n, a + b)
    decreases |b|
  {
    if b == [] {
      assert a + b == a;
    } else {
      var init := b[..|b| - 1];
      AppendRowsConcat(m, n, a, init);
      assert (a + b)[..|a + b| - 1] == a + init;
    }
  }

  /** Below the first inserted key, the grown table holds only the stored rows. */
  lemma AppendedScanOld<T>(m: map<Id, T>, n: Id, rows: seq<T>, keep: T -> bool)
    requires forall k :: k in m ==> k < n && !keep(m[k])
    ensures Scan(AppendRows(m, n, rows), keep, 0, n) == []
  {
    var m' := AppendRows(m, n, rows);
    AppendRowsContents(m, n, rows);
    forall k | 0 <= k < n && k in m' ensures !keep(m'[k]) {
      assert k in m && m'[k] == m[k];
    }
    ScanNone(m', keep, 0, n);
  }

  /** Inserting rows under the keys from `n` on keeps every stored row, and adds keys below `n + |rows|` only. */
  lemma {:induction false} AppendRowsOld<T>(m: map<Id, T>, n: Id, rows: seq<T>)
    requires forall k :: k in m ==> k < n
    ensures forall k :: k in m ==> k in AppendRows(m, n, rows) && AppendRows(m, n, rows)[k] == m[k]
    ensures forall k :: k in AppendRows(m, n, rows) ==> k < n + |rows|
    decreases |rows|
  {
    if rows != [] {
      AppendRowsOld(m, n, rows[..|rows| - 1]);
    }
  }

  /** Row `k - n` of `rows` is stored under key `k`. */
  lemma {:induction false} AppendRowsNew<T>(m: map<Id, T>, n: Id, rows: seq<T>)
    ensures forall k :: n <= k < n + |rows| ==> k in AppendRows(m, n, rows) && AppendRows(m, n, rows)[k] == rows[k - n]
    decreases |rows|
  {
    if rows != [] {
      AppendRowsNew(m, n, rows[..|rows| - 1]);
    }
  }

  /** A run of keys that hold kept rows is found by a scan over exactly that run. */
  lemma ScanStoredRun<T>(m: map<Id, T>, n: Id, rows: seq<T>, keep: T -> bool)
    requires forall k :: n <= k < n + |rows| ==> k in m && m[k] == rows[k - n]
    requires forall t :: 0 <= t < |rows| ==> keep(rows[t])
    ensures Scan(m, keep, n, n + |rows|) == KeyRange(n, |rows|)
  {
    forall k | n <= k < n + |rows| ensures k in m && keep(m[k]) {
      assert keep(rows[k - n]);
    }
    ScanAll(m, keep, n, |rows|);
  }

  /** From the first inserted key on, the grown table holds the inserted rows. */
  lemma AppendedScanNew<T>(m: map<Id, T>, n: Id, rows: seq<T>, keep: T -> bool)
    requires forall t :: 0 <= t < |rows| ==> keep(rows[t])
    ensures Scan(AppendRows(m, n, rows), keep, n, n + |rows|) == KeyRange(n, |rows|)
  {
    AppendRowsNew(m, n, rows);
    ScanStoredRun(AppendRows(m, n, rows), n, rows, keep);
  }

  /**
   * When no stored row is kept and every inserted row is, a scan of the
   * grown table finds exactly the inserted keys.
   */
  lemma AppendedScanAll<T>(m: map<Id, T>, n: Id, rows: seq<T>, keep: T -> bool)
    requires forall k :: k in m ==> k < n && !keep(m[k])
    requires forall t :: 0 <= t < |rows| ==> keep(rows[t])
    ensures Scan(AppendRows(m, n, rows), keep, 0, n + |rows|) == KeyRange(n, |rows|)
  {
    AppendedScanOld(m, n, rows, keep);
    AppendedScanNew(m, n, rows, keep);
    ScanSplit(AppendRows(m, n, rows), keep, 0, n, n + |rows|);
    assert [] + KeyRange(n, |rows|) == KeyRange(n, |rows|);
  }

  /** The prefix of length `i + 1` is the prefix of length `i` and element `i`. */
  lemma PrefixSnoc<T>(s: seq<T>, i: nat)
    requires i < |s|
    ensures s[..i] + [s[i]] == s[..i + 1]
  {
  }

  /** Dropping the last element of `a + b`, for a non-empty `b`, drops the last element of `b`. */
  lemma ConcatInit<T>(a: seq<T>, b: seq<T>)
    requires b != []
    ensures (a + b)[..|a + b| - 1] == a + b[..|b| - 1]
    ensures (a + b)[|a + b| - 1] == b[|b| - 1]
  {
  }

  /** The rows of `rows` that satisfy `keep`, in order. */
  function Filter<T>(rows: seq<T>, keep: T -> bool): seq<T>
  {
    if rows == [] then []
    else (if keep(rows[0]) then [rows[0]] else []) + Filter(rows[1..], keep)
  }

  lemma {:induction false} FilterAppend<T>(a: seq<T>, b: seq<T>, keep: T -> bool)
    ensures Filter(a + b, keep) == Filter(a, keep) + Filter(b, keep)
  {
    if a == [] {
      assert a + b == b;
    } else {
      var h := if keep(a[0]) then [a[0]] else [];
      var s := a + b;
      assert s[0] == a[0] && s[1..] == a[1..] + b;
      FilterAppend(a[1..], b, keep);
      calc {
        Filter(s, keep);
        h + Filter(a[1..] + b, keep);
        h + (Filter(a[1..], keep) + Filter(b, keep));
        (h + Filter(a[1..], keep)) + Filter(b, keep);
      }
    }
  }

  /** The kept rows are exactly the rows that pass the test. */
  lemma {:induction false} FilterMembers<T>(rows: seq<T>, keep: T -> bool)
    ensures forall x :: x in Filter(rows, keep) <==> x in rows && keep(x)
    ensures |Filter(rows, keep)| <= |rows|
  {
    if rows != [] {
      FilterMembers(rows[1..], keep);
      assert rows == [rows[0]] + rows[1..];
    }
  }

  lemma {:induction false} FilterAll<T>(rows: seq<T>, keep: T -> bool)
    requires forall t :: 0 <= t < |rows| ==> keep(rows[t])
    ensures Filter(rows, keep) == rows
  {
    if rows != [] {
      FilterAll(rows[1..], keep);
    }
  }

  lemma {:induction false} FilterNone<T>(rows: seq<T>, keep: T -> bool)
    requires forall t :: 0 <= t < |rows| ==> !keep(rows[t])
    ensures Filter(rows, keep) == []
  {
    if rows != [] {
      FilterNone(rows[1..], keep);
    }
  }

  /** The rows stored under the keys `ids`, in order; a key with no row contributes nothing. */
  function RowsAt<T>(m: map<Id, T>, ids: seq<Id>): seq<T>
  {
    if ids == [] then []
    else (if ids[0] in m then [m[ids[0]]] else []) + RowsAt(m, ids[1..])
  }

  /**
   * In a table whose keys below `n` hold no kept row and whose keys from `n`
   * on hold `rows`, scanning from key `lo` on reads back the kept rows from
   * position `lo - n` on (all of them when `lo` is below `n`), in order.
   */
  lemma {:induction false} ScanRunRows<T>(m: map<Id, T>, n: Id, rows: seq<T>, keep: T -> bool, lo: nat)
    requires forall k :: 0 <= k < n && k in m ==> !keep(m[k])
    requires forall k :: n <= k < n + |rows| ==> k in m && m[k] == rows[k - n]
    requires lo <= n + |rows|
    ensures RowsAt(m, Scan(m, keep, lo, n + |rows|)) == Filter(rows[if lo < n then 0 else lo - n..], keep)
    decreases n + |rows| - lo
  {
    if lo < n {
      ScanRunRows(m, n, rows, keep, lo + 1);
      assert !(lo in m && keep(m[lo]));
    } else {
      var tail := rows[lo - n..];
      if lo == n + |rows| {
        assert tail == [];
      } else {
        ScanRunRows(m, n, rows, keep, lo + 1);
        assert tail[0] == rows[lo - n] == m[lo];
        assert tail[1..] == rows[lo + 1 - n..];
        var rest := Scan(m, keep, lo + 1, n + |rows|);
        if keep(m[lo]) {
          var s := [lo] + rest;
          assert s[0] == lo && s[1..] == rest;
        }
      }
    }
  }

  /**
   * When no stored row is kept, reading back the keys a scan of the grown
   * table finds gives exactly the kept inserted rows, in insertion order.
   */
  lemma AppendedScanRows<T>(m: map<Id, T>, n: Id, rows: seq<T>, keep: T -> bool)
    requires forall k :: k in m ==> k < n && !keep(m[k])
    ensures RowsAt(AppendRows(m, n, rows), Scan(AppendRows(m, n, rows), keep, 0, n + |rows|)) == Filter(rows, keep)
  {
    var m' := AppendRows(m, n, rows);
    assert forall k :: 0 <= k < n && k in m' ==> !keep(m'[k]) by {
      AppendRowsContents(m, n, rows);
      forall k | 0 <= k < n && k in m' ensures !keep(m'[k]) {
        assert k in m && m'[k] == m[k];
      }
    }
    AppendRowsNew(m, n, rows);
    ScanRunRows(m', n, rows, keep, 0);
    assert rows[0..] == rows;
  }
  /** When every appended row is kept and no old one is, scanning reads back exactly the appended rows. */
  lemma AppendedScanAllRows<T>(m: map<Id, T>, n: Id, rows: seq<T>, keep: T -> bool)
    requires forall k :: k in m ==> k < n && !keep(m[k])
    requires forall t :: 0 <= t < |rows| ==> keep(rows[t])
    ensures RowsAt(AppendRows(m, n, rows), Scan(AppendRows(m, n, rows), keep, 0, n + |rows|)) == rows
  {
    AppendedScanRows(m, n, rows, keep);
    FilterAll(rows, keep);
  }


  // The foreign-key tests the child collections are selected by.
  function OfForm(f: Id): QuestionRow -> bool { (q: QuestionRow) => q.form == f }
  function OfQuestion(q: Id): OptionRow -> bool { (o: OptionRow) => o.question == q }
  function OfResponse(r: Id): AnswerRow -> bool { (a: AnswerRow) => a.response == r }
  function ToForm(f: Id): ResponseRow -> bool { (r: ResponseRow) => r.form == f }
  function OwnedBy(u: Id): FormRow -> bool { (f: FormRow) => f.owner == u }

  /** The questions of form `f`, in creation order (the `Form.questions` collection). */
  function QuestionsOf(db: Db, f: Id): seq<Id>
  {
    Scan(db.questions, OfForm(f), 0, db.nextQuestion)
  }

  /** The options of question `q`, in creation order (`Question.options`). */
  function OptionsOf(db: Db, q: Id): seq<Id>
  {
    Scan(db.options, OfQuestion(q), 0, db.nextOption)
  }

  /** The answers of response `r`, in creation order (`Response.answers`). */
  function AnswersOf(db: Db, r: Id): seq<Id>
  {
    Scan(db.answers, OfResponse(r), 0, db.nextAnswer)
  }

  /** The responses to form `f`, in creation order. */
  function ResponsesOf(db: Db, f: Id): seq<Id>
  {
    Scan(db.responses, ToForm(f), 0, db.nextResponse)
  }

  /** `findByCreatedBy`: the forms owned by user `u`, in creation order. */
  function FormsOwnedBy(db: Db, u: Id): seq<Id>
  {
    Scan(db.forms, OwnedBy(u), 0, db.nextForm)
  }

  /** `countByForm`. */
  function CountByForm(db: Db, f: Id): nat
  {
    |ResponsesOf(db, f)|
  }

  /** The first key among `ids`, if any. */
  function First(ids: seq<Id>): Option<Id>
  {
    if ids == [] then None else Some(ids[0])
  }

  /** `findByPublicUrl`. */
  function FindByPublicUrl(db: Db, url: string): (r: Option<Id>)
    requires KeysIssued(db)
    ensures r.None? <==> forall f :: f in db.forms ==> db.forms[f].publicUrl != url
    ensures r.Some? ==> r.value in db.forms && db.forms[r.value].publicUrl == url
  {
    var s := Scan(db.forms, (f: FormRow) => f.publicUrl == url, 0, db.nextForm);
    assert s != [] ==> s[0] in s;
    assert forall f :: f in db.forms && db.forms[f].publicUrl == url ==> f in s;
    First(s)
  }

  /** `findByUsername`. */
  function FindByUsername(db: Db, name: string): (r: Option<Id>)
    requires KeysIssued(db)
    ensures r.None? <==> forall u :: u in db.users ==> db.users[u].username != name
    ensures r.Some? ==> r.value in db.users && db.users[r.value].username == name
  {
    var s := Scan(db.users, (u: User) => u.username == name, 0, db.nextUser);
    assert s != [] ==> s[0] in s;
    assert forall u :: u in db.users && db.users[u].username == name ==> u in s;
    First(s)
  }

  /** `existsByEmail`. */
  predicate EmailTaken(db: Db, email: string)
  {
    exists u :: u in db.users && db.users[u].email == email
  }

  /** The username of the owner of form `f`, when both are stored. */
  function OwnerName(db: Db, f: Id): Option<string>
  {
    if f in db.forms && db.forms[f].owner in db.users then Some(db.users[db.forms[f].owner].username) else None
  }

  // ---------------------------------------------------------------------------
  // Ordering by submission time, newest first
  // ---------------------------------------------------------------------------

  predicate AllIn(ids: seq<Id>, rows: map<Id, ResponseRow>)
  {
    forall k :: k in ids ==> k in rows
  }

  /** Newest first: submission times never increase from one entry to the next. */
  predicate NewestFirst(ids: seq<Id>, rows: map<Id, ResponseRow>)
    requires AllIn(ids, rows)
  {
    forall i :: 0 <= i < |ids| - 1 ==> rows[ids[i]].submittedAt >= rows[ids[i + 1]].submittedAt
  }

  /** In a newest-first sequence every entry is at least as new as every later one. */
  lemma {:induction false} NewestFirstPairwise(ids: seq<Id>, rows: map<Id, ResponseRow>, i: nat, j: nat)
    requires AllIn(ids, rows) && NewestFirst(ids, rows)
    requires i <= j < |ids|
    ensures rows[ids[i]].submittedAt >= rows[ids[j]].submittedAt
    decreases j - i
  {
    if i < j {
      NewestFirstPairwise(ids, rows, i + 1, j);
    }
  }

  /** `sorted` with `x` placed before the first entry no newer than it. */
  function InsertByTime(x: Id, sorted: seq<Id>, rows: map<Id, ResponseRow>): (r: seq<Id>)
    requires x in rows && AllIn(sorted, rows)
    ensures multiset(r) == multiset(sorted) + multiset{x}
    ensures AllIn(r, rows)
    ensures r[0] == x || (sorted != [] && r[0] == sorted[0])
  {
    if sorted == [] then [x]
    else if rows[x].submittedAt >= rows[sorted[0]].submittedAt then [x] + sorted
    else
      assert sorted == [sorted[0]] + sorted[1..];
      var rest := InsertByTime(x, sorted[1..], rows);
      assert forall k :: k in rest ==> k in multiset(rest);
      [sorted[0]] + rest
  }

  lemma {:induction false} InsertByTimeNewestFirst(x: Id, sorted: seq<Id>, rows: map<Id, ResponseRow>)
    requires x in rows && AllIn(sorted, rows) && NewestFirst(sorted, rows)
    ensures NewestFirst(InsertByTime(x, sorted, rows), rows)
  {
    if sorted != [] && rows[x].submittedAt < rows[sorted[0]].submittedAt {
      var tail := sorted[1..];
      InsertByTimeNewestFirst(x, tail, rows);
      var rest := InsertByTime(x, tail, rows);
      var r := [sorted[0]] + rest;
      assert rows[r[0]].submittedAt >= rows[r[1]].submittedAt;
      assert forall i :: 1 <= i < |r| - 1 ==> r[i] == rest[i - 1] && r[i + 1] == rest[i];
    }
  }

  /** `ids` ordered newest first (the `OrderBySubmittedAtDesc` queries). */
  function SortNewestFirst(ids: seq<Id>, rows: map<Id, ResponseRow>): (r: seq<Id>)
    requires AllIn(ids, rows)
    ensures AllIn(r, rows)
    ensures multiset(r) == multiset(ids)
  {
    if ids == [] then []
    else
      assert ids == [ids[0]] + ids[1..];
      InsertByTime(ids[0], SortNewestFirst(ids[1..], rows), rows)
  }

  lemma {:induction false} SortNewestFirstSorted(ids: seq<Id>, rows: map<Id, ResponseRow>)
    requires AllIn(ids, rows)
    ensures NewestFirst(SortNewestFirst(ids, rows), rows)
  {
    if ids != [] {
      SortNewestFirstSorted(ids[1..], rows);
      InsertByTimeNewestFirst(ids[0], SortNewestFirst(ids[1..], rows), rows);
    }
  }

  /** `findByFormOrderBySubmittedAtDesc`. */
  function ResponsesByFormNewestFirst(db: Db, f: Id): (r: seq<Id>)
    ensures AllIn(r, db.responses) && NewestFirst(r, db.responses)
    ensures forall x :: x in r <==> x < db.nextResponse && x in db.responses && db.responses[x].form == f
  {
    var s := ResponsesOf(db, f);
    var r := SortNewestFirst(s, db.responses);
    SortNewestFirstSorted(s, db.responses);
    assert forall x :: x in r <==> x in multiset(r);
    assert forall x :: x in s <==> x in multiset(s);
    r
  }

  /** `findByRespondentEmailOrderBySubmittedAtDesc`. */
  function ResponsesByEmailNewestFirst(db: Db, email: string): (r: seq<Id>)
    ensures AllIn(r, db.responses) && NewestFirst(r, db.responses)
    ensures forall x :: x in r <==> x < db.nextResponse && x in db.responses && db.responses[x].respondentEmail == Some(email)
  {
    var s := Scan(db.responses, (row: ResponseRow) => row.respondentEmail == Some(email), 0, db.nextResponse);
    var r := SortNewestFirst(s, db.responses);
    SortNewestFirstSorted(s, db.responses);
    assert forall x :: x in r <==> x in multiset(r);
    assert forall x :: x in s <==> x in multiset(s);
    r
  }

  // ---------------------------------------------------------------------------
  // Failures
  // ---------------------------------------------------------------------------

  /** Why a service call was abandoned (each is a `RuntimeException` in the system). */
  datatype Failure =
    | NotFound(message: string)        // a lookup by id, url or username found nothing
    | NotAuthorized(message: string)   // the caller does not own (or did not submit) the data
    | Rejected(message: string)        // a submitted answer broke a question's rule
    | NullId                           // a repository lookup was given a null id
    | NullPointer                      // a null reference was dereferenced
    | ConstraintViolation              // an entity broke a bean-validation constraint when persisted
    | DuplicateKey                     // a `unique` column would have repeated a value

  /** The repositories' shared state, updated in place by the services. */
  class Repository {
    var db: Db

    constructor ()
      ensures db == EmptyDb()
    {
      db := EmptyDb();
    }
  }
}
