/**
 * `ExceptionHandler`: the application-wide exception handlers.  Each one
 * builds a JSON map by successive `put`s: a timestamp, a status field, an
 * error title, a message and the request path, plus `originalError` in
 * some branches.  Apart from a missing role, every failure is answered
 * with HTTP 200, and messages that look like database trouble are
 * replaced by a fixed text.
 *
 * The clock (`new Date()`) and the request description are parameters.
 */
module ExceptionHandler {
  import opened Wrappers
  import opened Strings
  import opened Store

  /** A value of the reply map. */
  datatype Json = JStr(s: string) | JInt(i: int) | JDate(t: Instant) | JNull

  /** A reply: the HTTP status and the body map. */
  datatype Reply = Reply(httpStatus: int, body: map<string, Json>)

  /** A Java string that may be null, as a map value (`put` keeps a null value under its key). */
  function Nullable(s: Option<string>): (v: Json)
    ensures v.JNull? <==> s.None?
    ensures s.Some? ==> v == JStr(s.value)
  {
    if s.Some? then JStr(s.value) else JNull
  }

  const HttpInternalServerError := 500
  const HttpOk := 200

  const DbIssueMessage := "Database connection issue. Please try again later."
  const UnexpectedMessage := "An unexpected error occurred. Please try again later."

  /** The words that mark a message as a database problem (case-sensitive). */
  const DbKeywords := ["database", "Database", "connection", "Connection", "SQL", "jdbc", "JDBC", "H2"]

  /** The keys every reply carries. */
  const CommonKeys := {"timestamp", "status", "error", "message", "path"}

  /** The database-issue test both handlers use: a non-null message containing one of the keywords. */
  predicate IsDbIssue(message: Option<string>)
  {
    message.Some? && (
      Contains(message.value, "database") ||
      Contains(message.value, "Database") ||
      Contains(message.value, "connection") ||
      Contains(message.value, "Connection") ||
      Contains(message.value, "SQL") ||
      Contains(message.value, "jdbc") ||
      Contains(message.value, "JDBC") ||
      Contains(message.value, "H2"))
  }

  /** The test holds exactly for a non-null message that contains one of the keywords; null never qualifies. */
  lemma IsDbIssueIff(message: Option<string>)
    ensures IsDbIssue(message) <==> message.Some? && exists k :: k in DbKeywords && Contains(message.value, k)
    ensures message.None? ==> !IsDbIssue(message)
  {
    if message.Some? && exists k :: k in DbKeywords && Contains(message.value, k) {
      var k :| k in DbKeywords && Contains(message.value, k);
      assert k == DbKeywords[0] || k == DbKeywords[1] || k == DbKeywords[2] || k == DbKeywords[3] ||
             k == DbKeywords[4] || k == DbKeywords[5] || k == DbKeywords[6] || k == DbKeywords[7];
    }
  }

  /** A message that wraps a database-issue message (a cause quoted inside) is itself one. */
  lemma DbIssueWrapped(p: string, m: string, q: string)
    requires IsDbIssue(Some(m))
    ensures IsDbIssue(Some(p + m + q))
  {
    IsDbIssueIff(Some(m));
    var k :| k in DbKeywords && Contains(m, k);
    ContainsWithin(p, m, q, k);
    IsDbIssueIff(Some(p + m + q));
  }

  /** `handleRoleNotFoundException`: HTTP 500 with the exception's own message. */
  method HandleRoleNotFound(message: Option<string>, now: Instant, path: string) returns (r: Reply)
    ensures r.httpStatus == HttpInternalServerError
    ensures r.body.Keys == CommonKeys
    ensures r.body["timestamp"] == JDate(now) && r.body["path"] == JStr(path)
    ensures r.body["status"] == JInt(HttpInternalServerError)
    ensures r.body["error"] == JStr("Role Not Found")
    ensures r.body["message"] == Nullable(message)
  {
    var response: map<string, Json> := map[];
    response := response["timestamp" := JDate(now)];
    response := response["status" := JInt(HttpInternalServerError)];
    response := response["error" := JStr("Role Not Found")];
    response := response["message" := Nullable(message)];
    response := response["path" := JStr(path)];
    return Reply(HttpInternalServerError, response);
  }

  /**
   * `handleRuntimeException`: HTTP 200.  A database issue gets the fixed
   * text and keeps the original under `originalError`; any other message,
   * null included, is passed through and there is no `originalError` key.
   */
  method HandleRuntime(message: Option<string>, now: Instant, path: string) returns (r: Reply)
    ensures r.body.Keys == if IsDbIssue(message) then CommonKeys + {"originalError"} else CommonKeys
    ensures r.httpStatus == HttpOk && r.body["status"] == JInt(HttpOk)
    ensures r.body["timestamp"] == JDate(now) && r.body["path"] == JStr(path)
    ensures r.body["error"] == JStr("Internal Server Error")
    ensures IsDbIssue(message) ==>
      r.body["message"] == JStr(DbIssueMessage) && r.body["originalError"] == JStr(message.value)
    ensures !IsDbIssue(message) ==> r.body["message"] == Nullable(message)
  {
    var response: map<string, Json> := map[];
    response := response["timestamp" := JDate(now)];
    response := response["status" := JInt(HttpOk)];
    response := response["error" := JStr("Internal Server Error")];
    if IsDbIssue(message) {
      response := response["message" := JStr(DbIssueMessage)];
      response := response["originalError" := JStr(message.value)];
    } else {
      response := response["message" := Nullable(message)];
    }
    response := response["path" := JStr(path)];
    return Reply(HttpOk, response);
  }

  /**
   * `handleAllExceptions`: HTTP 200, always with an `originalError` key.  A
   * database issue gets the fixed database text; any other message gets the
   * fixed "unexpected" text, and `originalError` holds the message, null
   * included.
   */
  method HandleAll(message: Option<string>, now: Instant, path: string) returns (r: Reply)
    ensures r.body.Keys == CommonKeys + {"originalError"}
    ensures r.httpStatus == HttpOk && r.body["status"] == JInt(HttpOk)
    ensures r.body["timestamp"] == JDate(now) && r.body["path"] == JStr(path)
    ensures r.body["error"] == JStr("Error")
    ensures r.body["message"] == JStr(if IsDbIssue(message) then DbIssueMessage else UnexpectedMessage)
    ensures r.body["originalError"] == Nullable(message)
  {
    var response: map<string, Json> := map[];
    response := response["timestamp" := JDate(now)];
    response := response["status" := JInt(HttpOk)];
    response := response["error" := JStr("Error")];
    if IsDbIssue(message) {
      response := response["message" := JStr(DbIssueMessage)];
      response := response["originalError" := JStr(message.value)];
    } else {
      response := response["message" := JStr(UnexpectedMessage)];
      response := response["originalError" := Nullable(message)];
    }
    response := response["path" := JStr(path)];
    return Reply(HttpOk, response);
  }
}
