/**
 * `TokenFilter`: the per-request bearer-token filter.  Requests to the
 * permitted paths pass untouched; for any other path the token is taken
 * from the configured header after the configured prefix (the scheme of
 * section 2.1 of RFC 6750), and when it is valid and names a stored user
 * that user becomes the request's authentication.  Whatever happens, the
 * request continues down the filter chain.
 *
 * Token validation and reading the username out of a token are
 * parameters (JWT handling is not part of this model), as is the
 * whitespace test of Spring's `StringUtils.hasText` (`Character.isWhitespace`).
 */
module TokenFilter {
  import opened Wrappers
  import opened Strings
  import opened Store

  /** The path prefixes that need no token. */
  const PermittedPrefixes := ["/api/auth/", "/api/test/", "/h2-console/", "/css/", "/js/", "/images/", "/assets/"]

  /** The exact paths that need no token. */
  const PermittedExact := ["/api/health", "/api", "/", "/index.html"]

  /** The filter's skip test, in the order it is written. */
  predicate IsPermittedPath(path: string)
  {
    StartsWith(path, "/api/auth/") ||
    path == "/api/health" ||
    StartsWith(path, "/api/test/") ||
    path == "/api" ||
    StartsWith(path, "/h2-console/") ||
    path == "/" ||
    path == "/index.html" ||
    StartsWith(path, "/css/") ||
    StartsWith(path, "/js/") ||
    StartsWith(path, "/images/") ||
    StartsWith(path, "/assets/")
  }

  /** A path is permitted exactly when it starts with a permitted prefix or is a permitted exact path. */
  lemma PermittedPathIff(path: string)
    ensures IsPermittedPath(path) <==>
      (exists p :: p in PermittedPrefixes && StartsWith(path, p)) || path in PermittedExact
  {
    if exists p :: p in PermittedPrefixes && StartsWith(path, p) {
      var p :| p in PermittedPrefixes && StartsWith(path, p);
      assert p == PermittedPrefixes[0] || p == PermittedPrefixes[1] || p == PermittedPrefixes[2] ||
             p == PermittedPrefixes[3] || p == PermittedPrefixes[4] || p == PermittedPrefixes[5] ||
             p == PermittedPrefixes[6];
    }
    if IsPermittedPath(path) && path !in PermittedExact {
      if StartsWith(path, "/api/auth/") {
        assert PermittedPrefixes[0] in PermittedPrefixes;
      } else if StartsWith(path, "/api/test/") {
        assert PermittedPrefixes[1] in PermittedPrefixes;
      } else if StartsWith(path, "/h2-console/") {
        assert PermittedPrefixes[2] in PermittedPrefixes;
      } else if StartsWith(path, "/css/") {
        assert PermittedPrefixes[3] in PermittedPrefixes;
      } else if StartsWith(path, "/js/") {
        assert PermittedPrefixes[4] in PermittedPrefixes;
      } else if StartsWith(path, "/images/") {
        assert PermittedPrefixes[5] in PermittedPrefixes;
      } else {
        assert PermittedPrefixes[6] in PermittedPrefixes;
      }
    }
  }

  /** Spring's `StringUtils.hasText`: some character is not whitespace. */
  predicate HasText(s: string, ws: char -> bool)
  {
    exists i :: 0 <= i < |s| && !ws(s[i])
  }

  /**
   * `parseJwt`: the header value after the prefix, or null when the header
   * is absent, holds no text, or does not start with the prefix.
   */
  function ParseJwt(header: Option<string>, prefix: string, ws: char -> bool): (r: Option<string>)
    ensures r.Some? <==> header.Some? && HasText(header.value, ws) && StartsWith(header.value, prefix)
    ensures r.Some? ==> prefix + r.value == header.value
  {
    if header.Some? && HasText(header.value, ws) && StartsWith(header.value, prefix) then
      assert header.value == header.value[..|prefix|] + header.value[|prefix|..];
      Some(header.value[|prefix|..])
    else None
  }

  /** Prefixing a token to make the header and parsing it back gives the token, as long as the header holds text. */
  lemma ParseJwtRoundTrip(prefix: string, token: string, ws: char -> bool)
    requires HasText(prefix + token, ws)
    ensures ParseJwt(Some(prefix + token), prefix, ws) == Some(token)
  {
    assert (prefix + token)[..|prefix|] == prefix;
    assert (prefix + token)[|prefix|..] == token;
  }

  /** The authentication put into the security context: the user's details, no credentials, the user's roles. */
  datatype Authentication = Authentication(userId: Id, username: string, authorities: set<Role>)

  /** The request's security context; the filter may set its authentication. */
  class SecurityContext {
    var authentication: Option<Authentication>

    constructor ()
      ensures authentication == None
    {
      authentication := None;
    }
  }

  /**
   * The authentication the filter establishes, or `None` when it leaves the
   * context alone: the path is permitted, there is no token, the token is
   * invalid, or the token's user cannot be loaded (an exception the filter
   * catches).
   */
  function Authenticates(db: Db, path: string, header: Option<string>, prefix: string, ws: char -> bool,
                         valid: string -> bool, subject: string -> string): (r: Option<Authentication>)
    requires KeysIssued(db)
    ensures r.Some? ==> !IsPermittedPath(path)
    ensures r.Some? ==> ParseJwt(header, prefix, ws).Some? && valid(ParseJwt(header, prefix, ws).value)
    ensures r.Some? ==>
      var u := r.value.userId;
      u in db.users && db.users[u].username == subject(ParseJwt(header, prefix, ws).value) &&
      r.value.username == db.users[u].username && r.value.authorities == db.users[u].roles
  {
    if IsPermittedPath(path) then None
    else match ParseJwt(header, prefix, ws)
      case None => None
      case Some(jwt) =>
        if !valid(jwt) then None
        else match FindByUsername(db, subject(jwt))
          case None => None
          case Some(u) => Some(Authentication(u, db.users[u].username, db.users[u].roles))
  }

  /**
   * `doFilterInternal`: the context gains the authentication computed by
   * `Authenticates` when there is one and is otherwise unchanged, and the
   * chain is always continued.
   */
  method DoFilterInternal(ctx: SecurityContext, db: Db, path: string, header: Option<string>, prefix: string,
                          ws: char -> bool, valid: string -> bool, subject: string -> string)
    returns (chainContinued: bool)
    requires KeysIssued(db)
    modifies ctx
    ensures chainContinued
    ensures ctx.authentication ==
      var a := Authenticates(db, path, header, prefix, ws, valid, subject);
      if a.Some? then a else old(ctx.authentication)
  {
    if !IsPermittedPath(path) {
      var jwt := ParseJwt(header, prefix, ws);
      if jwt.Some? {
        var isValid := valid(jwt.value);
        if isValid {
          var username := subject(jwt.value);
          var found := FindByUsername(db, username);
          if found.Some? {
            var u := found.value;
            ctx.authentication := Some(Authentication(u, db.users[u].username, db.users[u].roles));
          }
          // else: loadUserByUsername throws, the exception is caught and logged
        }
      }
    }
    chainContinued := true;
  }

  /** A permitted path never looks at the header: every header gives the same outcome, no authentication. */
  lemma PermittedPathsSkipToken(db: Db, path: string, h1: Option<string>, h2: Option<string>, prefix: string,
                                ws: char -> bool, valid: string -> bool, subject: string -> string)
    requires KeysIssued(db) && IsPermittedPath(path)
    ensures Authenticates(db, path, h1, prefix, ws, valid, subject) == None
    ensures Authenticates(db, path, h1, prefix, ws, valid, subject) ==
            Authenticates(db, path, h2, prefix, ws, valid, subject)
  {
  }

  /**
   * On a protected path, a header holding the prefix followed by a valid
   * token for a stored username authenticates exactly that user.
   */
  lemma ValidTokenAuthenticates(db: Db, path: string, prefix: string, token: string, ws: char -> bool,
                                valid: string -> bool, subject: string -> string, u: Id)
    requires Valid(db) && !IsPermittedPath(path)
    requires HasText(prefix + token, ws) && valid(token)
    requires u in db.users && db.users[u].username == subject(token)
    ensures Authenticates(db, path, Some(prefix + token), prefix, ws, valid, subject) ==
            Some(Authentication(u, subject(token), db.users[u].roles))
  {
    ParseJwtRoundTrip(prefix, token, ws);
    assert UniqueKeys(db);
  }
}
