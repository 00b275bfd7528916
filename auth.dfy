/**
 * `Auth`: registering an account (uniqueness checks and role selection) and
 * the forgotten-password reset (a generated password, stored encoded, then
 * mailed or returned).  Every reply of these endpoints is an HTTP 200 whose
 * body is a message; the message tells success from failure.
 *
 * The password encoder, the locale-dependent `toLowerCase`, the random
 * draws and the outcome of sending the mail are parameters.
 */
module Auth {
  import opened Wrappers
  import opened Strings
  import opened Store
  import opened Requests

  // ---------------------------------------------------------------------------
  // Role selection
  // ---------------------------------------------------------------------------

  /** A requested role name that grants ADMIN: exactly `ROLE_ADMIN`, or `admin` once lower-cased and trimmed. */
  predicate NamesAdmin(role: string, lower: string -> string)
  {
    role == "ROLE_ADMIN" || JavaTrim(lower(role)) == "admin"
  }

  /** Some requested role name grants ADMIN. */
  predicate RequestsAdmin(strRoles: Option<seq<string>>, lower: string -> string)
  {
    strRoles.Some? && exists r :: r in strRoles.value && NamesAdmin(r, lower)
  }

  /** The roles a new account receives: USER always, ADMIN when asked for. */
  function GrantedRoles(strRoles: Option<seq<string>>, lower: string -> string): set<Role>
  {
    if RequestsAdmin(strRoles, lower) then {RoleUser, RoleAdmin} else {RoleUser}
  }

  /** Every account gets USER; it gets ADMIN exactly when some requested name grants it, and nothing else. */
  lemma GrantedRolesIff(strRoles: Option<seq<string>>, lower: string -> string)
    ensures RoleUser in GrantedRoles(strRoles, lower)
    ensures RoleAdmin in GrantedRoles(strRoles, lower) <==> RequestsAdmin(strRoles, lower)
    ensures GrantedRoles(strRoles, lower) <= {RoleUser, RoleAdmin}
  {
  }

  /**
   * The requested roles arrive as a set, so their iteration order is
   * arbitrary: any two orders of the same names grant the same roles.
   */
  lemma GrantedRolesOrderFree(s: seq<string>, t: seq<string>, lower: string -> string)
    requires forall x :: x in s <==> x in t
    ensures GrantedRoles(Some(s), lower) == GrantedRoles(Some(t), lower)
  {
    if RequestsAdmin(Some(s), lower) {
      var r :| r in s && NamesAdmin(r, lower);
      assert r in t;
    }
    if RequestsAdmin(Some(t), lower) {
      var r :| r in t && NamesAdmin(r, lower);
      assert r in s;
    }
  }

  /** A name granting ADMIN at position `i` makes the grant USER and ADMIN. */
  lemma AdminAt(names: seq<string>, i: nat, lower: string -> string)
    requires i < |names| && NamesAdmin(names[i], lower)
    ensures GrantedRoles(Some(names), lower) == {RoleUser, RoleAdmin}
  {
    assert names[i] in names;
  }

  /** No name granting ADMIN makes the grant USER alone. */
  lemma NoAdminNamed(names: seq<string>, lower: string -> string)
    requires forall j :: 0 <= j < |names| ==> !NamesAdmin(names[j], lower)
    ensures GrantedRoles(Some(names), lower) == {RoleUser}
  {
  }

  /**
   * The scan over the requested names: it stops at the first name passing
   * `grantsAdmin` and returns its position, or the length when there is none.
   */
  method FirstAdminName(names: seq<string>, grantsAdmin: string -> bool) returns (i: nat)
    ensures i <= |names|
    ensures i < |names| ==> grantsAdmin(names[i])
    ensures forall j :: 0 <= j < i ==> !grantsAdmin(names[j])
  {
    i := 0;
    while i < |names| && !grantsAdmin(names[i])
      invariant i <= |names|
      invariant forall j :: 0 <= j < i ==> !grantsAdmin(names[j])
    {
      i := i + 1;
    }
  }

  /**
   * The role assignment: USER first, then ADMIN added when the scan of the
   * requested names finds one granting it.
   */
  method SelectRoles(strRoles: Option<seq<string>>, lower: string -> string) returns (roles: set<Role>)
    ensures roles == GrantedRoles(strRoles, lower)
  {
    roles := {RoleUser};
    if strRoles.Some? {
      var i := FirstAdminName(strRoles.value, role => NamesAdmin(role, lower));
      if i < |strRoles.value| {
        AdminAt(strRoles.value, i, lower);
        roles := {RoleUser, RoleAdmin};
      } else {
        NoAdminNamed(strRoles.value, lower);
      }
    }
  }

  // ---------------------------------------------------------------------------
  // Registration
  // ---------------------------------------------------------------------------

  const UsernameTakenMessage: string := "Error: Username is already taken!"
  const EmailTakenMessage: string := "Error: Email is already in use!"
  const RegisteredMessage: string := "User registered successfully!"

  /** The fields bean validation guarantees present before the handler runs. */
  predicate SignupComplete(req: SignupRequest)
  {
    req.username.Some? && req.email.Some? && req.fullName.Some? && req.password.Some?
  }

  /** The account built from a sign-up request: encoded password, the given roles, no profile details yet. */
  function NewUser(req: SignupRequest, roles: set<Role>, encode: string -> string): User
    requires SignupComplete(req)
  {
    User(req.username.value, req.email.value, req.fullName.value, req.phoneNo,
         encode(req.password.value), roles, None, None, None, None)
  }

  /** `registerUser`: the username check, then the email check, then the new account. */
  function RegisterSpec(db: Db, req: SignupRequest, lower: string -> string, encode: string -> string): (Db, string)
    requires KeysIssued(db) && SignupComplete(req)
  {
    if FindByUsername(db, req.username.value).Some? then (db, UsernameTakenMessage)
    else if EmailTaken(db, req.email.value) then (db, EmailTakenMessage)
    else
      (db.(users := db.users[db.nextUser := NewUser(req, GrantedRoles(req.roles, lower), encode)],
           nextUser := db.nextUser + 1),
       RegisteredMessage)
  }

  method RegisterUser(repo: Repository, req: SignupRequest, lower: string -> string, encode: string -> string)
    returns (message: string)
    requires KeysIssued(repo.db) && SignupComplete(req)
    modifies repo
    ensures (repo.db, message) == RegisterSpec(old(repo.db), req, lower, encode)
  {
    var db := repo.db;
    if FindByUsername(db, req.username.value).Some? {
      return UsernameTakenMessage;
    }
    if EmailTaken(db, req.email.value) {
      return EmailTakenMessage;
    }
    var user := User(req.username.value, req.email.value, req.fullName.value, req.phoneNo,
                     encode(req.password.value), {}, None, None, None, None);
    var roles := SelectRoles(req.roles, lower);
    user := user.(roles := roles);
    repo.db := db.(users := db.users[db.nextUser := user], nextUser := db.nextUser + 1);
    message := RegisteredMessage;
  }

  /**
   * The three outcomes of a registration: a taken username wins over a
   * taken email; a rejected request changes nothing; an accepted one adds
   * exactly one account, under a fresh id, carrying the request's details,
   * the encoded password and the granted roles.
   */
  lemma RegisterOutcomes(db: Db, req: SignupRequest, lower: string -> string, encode: string -> string)
    requires KeysIssued(db) && SignupComplete(req)
    ensures var (d, m) := RegisterSpec(db, req, lower, encode);
      var nameTaken := exists u :: u in db.users && db.users[u].username == req.username.value;
      (m == UsernameTakenMessage <==> nameTaken) &&
      (m == EmailTakenMessage <==> !nameTaken && EmailTaken(db, req.email.value)) &&
      (m == RegisteredMessage <==> !nameTaken && !EmailTaken(db, req.email.value)) &&
      (m != RegisteredMessage ==> d == db)
    ensures var (d, m) := RegisterSpec(db, req, lower, encode);
      m == RegisteredMessage ==>
        var id := db.nextUser;
        id !in db.users && d.users.Keys == db.users.Keys + {id} &&
        (forall u :: u in db.users ==> d.users[u] == db.users[u]) &&
        d.users[id].username == req.username.value && d.users[id].email == req.email.value &&
        d.users[id].fullName == req.fullName.value && d.users[id].phoneNo == req.phoneNo &&
        d.users[id].password == encode(req.password.value) &&
        RoleUser in d.users[id].roles &&
        (RoleAdmin in d.users[id].roles <==> RequestsAdmin(req.roles, lower)) &&
        d.forms == db.forms && d.questions == db.questions && d.options == db.options &&
        d.responses == db.responses && d.answers == db.answers
  {
    assert UsernameTakenMessage != EmailTakenMessage && UsernameTakenMessage != RegisteredMessage && EmailTakenMessage != RegisteredMessage by {
      assert UsernameTakenMessage[7] == 'U' && EmailTakenMessage[7] == 'E';
      assert |RegisteredMessage| < |EmailTakenMessage| < |UsernameTakenMessage|;
    }
    GrantedRolesIff(req.roles, lower);
  }

  /** A successful registration keeps the store invariant: the two checks are what keep usernames and emails unique. */
  lemma RegisterKeepsValid(db: Db, req: SignupRequest, lower: string -> string, encode: string -> string)
    requires Valid(db) && SignupComplete(req)
    ensures Valid(RegisterSpec(db, req, lower, encode).0)
  {
    if FindByUsername(db, req.username.value).None? && !EmailTaken(db, req.email.value) {
      WithUserValid(db, NewUser(req, GrantedRoles(req.roles, lower), encode));
    }
  }

  /** Sending the same sign-up again after it succeeded is refused as a taken username. */
  lemma RegisterTwiceRefused(db: Db, req: SignupRequest, lower: string -> string, encode: string -> string)
    requires KeysIssued(db) && SignupComplete(req)
    requires RegisterSpec(db, req, lower, encode).1 == RegisteredMessage
    ensures KeysIssued(RegisterSpec(db, req, lower, encode).0)
    ensures var d := RegisterSpec(db, req, lower, encode).0;
      RegisterSpec(d, req, lower, encode) == (d, UsernameTakenMessage)
  {
    var d := RegisterSpec(db, req, lower, encode).0;
    RegisterOutcomes(db, req, lower, encode);
    assert d.users[db.nextUser].username == req.username.value;
  }

  // ---------------------------------------------------------------------------
  // Generated passwords
  // ---------------------------------------------------------------------------

  /** The characters a generated password is drawn from: 26 upper-case, 26 lower-case, 10 digits, 10 symbols. */
  const Alphabet: string := "ABCDEFGHIJKLMNOPQRSTUVWXYZabcdefghijklmnopqrstuvwxyz0123456789!@#$%^&*()"
  const PasswordLength: nat := 10

  /** Ten indices as `SecureRandom.nextInt(72)` returns them, one per character. */
  predicate Draws(draws: seq<nat>)
  {
    |Alphabet| == 72 &&
    |draws| == PasswordLength && forall i :: 0 <= i < |draws| ==> draws[i] < |Alphabet|
  }

  /** The password the draws select. */
  function PasswordFrom(draws: seq<nat>): string
    requires Draws(draws)
  {
    seq(PasswordLength, i requires 0 <= i < PasswordLength => Alphabet[draws[i]])
  }

  /** Every generated password has ten characters, each from the alphabet. */
  lemma PasswordShape(draws: seq<nat>)
    requires Draws(draws)
    ensures |PasswordFrom(draws)| == PasswordLength
    ensures forall i :: 0 <= i < PasswordLength ==> PasswordFrom(draws)[i] in Alphabet
  {
  }

  /** The position of a character of the alphabet. */
  function AlphabetIndex(c: char): (k: nat)
    requires c in Alphabet
    ensures k < |Alphabet| && Alphabet[k] == c
  {
    IndexOf(Alphabet, c)
  }

  function IndexOf(s: string, c: char): (k: nat)
    requires c in s
    ensures k < |s| && s[k] == c
  {
    if s[0] == c then 0 else 1 + IndexOf(s[1..], c)
  }

  /** Conversely, every ten-character string over the alphabet is the password of some draws. */
  lemma EveryPasswordDrawable(pw: string)
    requires |pw| == PasswordLength && forall i :: 0 <= i < |pw| ==> pw[i] in Alphabet
    ensures exists draws :: Draws(draws) && PasswordFrom(draws) == pw
  {
    var draws := seq(PasswordLength, i requires 0 <= i < PasswordLength => AlphabetIndex(pw[i]));
    assert Draws(draws);
    assert PasswordFrom(draws) == pw;
  }

  /** `generateRandomPassword`: ten appends of the drawn characters. */
  method GenerateRandomPassword(draws: seq<nat>) returns (pw: string)
    requires Draws(draws)
    ensures pw == PasswordFrom(draws)
  {
    pw := "";
    var i := 0;
    while i < PasswordLength
      invariant 0 <= i <= PasswordLength
      invariant pw == PasswordFrom(draws)[..i]
    {
      pw := pw + [Alphabet[draws[i]]];
      i := i + 1;
    }
  }

  // ---------------------------------------------------------------------------
  // Forgotten password
  // ---------------------------------------------------------------------------

  /** A mail handed to the mail sender. */
  datatype Mail = Mail(to: string, subject: string, text: string)

  const SentMessage: string := "A new password has been sent to your email."
  const SendFailedPrefix: string :=
    "Password has been reset, but there was an error sending the email. " +
    "Please contact support to get your new password. Error: "

  function UserNotFoundMessage(username: string): string
  {
    "Error: User not found with username: " + username
  }

  function ResetMailText(pw: string): string
  {
    "Your new password is: " + pw + "\n\nPlease change your password after logging in."
  }

  function ResetShownMessage(pw: string): string
  {
    "Password has been reset. Your new password is: " + pw + "\nPlease change your password after logging in."
  }

  /**
   * `forgotPassword`: an unknown username changes nothing; otherwise the
   * user's password becomes the encoded new one, and the new password is
   * either mailed (`mailEnabled`; `sendFailure` is the message of the
   * exception the sender threw, if any) or put into the reply.  The result
   * is the new store, the reply and the mail handed to the sender.
   */
  function ResetSpec(db: Db, username: string, draws: seq<nat>, encode: string -> string,
                     mailEnabled: bool, sendFailure: Option<string>): (Db, string, Option<Mail>)
    requires KeysIssued(db) && Draws(draws)
  {
    match FindByUsername(db, username)
    case None => (db, UserNotFoundMessage(username), None)
    case Some(u) =>
      var pw := PasswordFrom(draws);
      var d := WithPassword(db, u, encode(pw));
      if mailEnabled then
        var mail := Mail(db.users[u].email, "Password Reset", ResetMailText(pw));
        (d, if sendFailure.None? then SentMessage else SendFailedPrefix + sendFailure.value, Some(mail))
      else
        (d, ResetShownMessage(pw), None)
  }

  method ForgotPassword(repo: Repository, username: string, draws: seq<nat>, encode: string -> string,
                        mailEnabled: bool, sendFailure: Option<string>)
    returns (message: string, mail: Option<Mail>)
    requires KeysIssued(repo.db) && Draws(draws)
    modifies repo
    ensures (repo.db, message, mail) == ResetSpec(old(repo.db), username, draws, encode, mailEnabled, sendFailure)
  {
    var db := repo.db;
    var found := FindByUsername(db, username);
    if found.None? {
      return UserNotFoundMessage(username), None;
    }
    var u := found.value;
    var newPassword := GenerateRandomPassword(draws);
    var user := db.users[u].(password := encode(newPassword));
    repo.db := WithPassword(db, u, user.password);
    if mailEnabled {
      mail := Some(Mail(user.email, "Password Reset", ResetMailText(newPassword)));
      if sendFailure.None? {
        message := SentMessage;
      } else {
        message := SendFailedPrefix + sendFailure.value;
      }
    } else {
      message := ResetShownMessage(newPassword);
      mail := None;
    }
  }

  /** An unknown username: the store is untouched, nothing is mailed, the reply names the username. */
  lemma ResetUnknownUser(db: Db, username: string, draws: seq<nat>, encode: string -> string,
                         mailEnabled: bool, sendFailure: Option<string>)
    requires KeysIssued(db) && Draws(draws)
    requires forall u :: u in db.users ==> db.users[u].username != username
    ensures ResetSpec(db, username, draws, encode, mailEnabled, sendFailure) == (db, UserNotFoundMessage(username), None)
    ensures Contains(UserNotFoundMessage(username), username)
  {
    ContainsInside("Error: User not found with username: ", username, "");
    assert "Error: User not found with username: " + username + "" == UserNotFoundMessage(username);
  }

  /** In a valid store the lookup by username finds the one user with that name. */
  lemma FindsTheUser(db: Db, username: string, u: Id)
    requires Valid(db) && u in db.users && db.users[u].username == username
    ensures FindByUsername(db, username) == Some(u)
  {
    assert UniqueKeys(db);
  }

  /** The store with user `u`'s password replaced. */
  function WithPassword(db: Db, u: Id, password: string): Db
    requires u in db.users
  {
    db.(users := db.users[u := db.users[u].(password := password)])
  }

  /**
   * Replacing one user's password changes that field of that user and
   * nothing else, and keeps the store invariant.
   */
  lemma WithPasswordChanges(db: Db, u: Id, password: string)
    requires Valid(db) && u in db.users
    ensures var d := WithPassword(db, u, password);
      d.users.Keys == db.users.Keys &&
      d.users[u].password == password &&
      d.users[u] == db.users[u].(password := password) &&
      (forall v :: v in db.users && v != u ==> d.users[v] == db.users[v]) &&
      d == db.(users := d.users) &&
      Valid(d)
  {
    UserReplacedValid(db, u, db.users[u].(password := password));
  }

  /**
   * A known username: the store becomes the one with that user's password
   * replaced by the encoding of the generated password (see
   * `WithPasswordChanges`), whatever happens to the mail.
   */
  lemma ResetChangesOnePassword(db: Db, username: string, draws: seq<nat>, encode: string -> string,
                                mailEnabled: bool, sendFailure: Option<string>, u: Id)
    requires Valid(db) && Draws(draws)
    requires u in db.users && db.users[u].username == username
    ensures ResetSpec(db, username, draws, encode, mailEnabled, sendFailure).0 ==
            WithPassword(db, u, encode(PasswordFrom(draws)))
    ensures Valid(ResetSpec(db, username, draws, encode, mailEnabled, sendFailure).0)
  {
    FindsTheUser(db, username, u);
    WithPasswordChanges(db, u, encode(PasswordFrom(draws)));
  }

  /**
   * Where the new password goes.  With mail disabled it is in the reply and
   * nothing is mailed.  With mail enabled it is in the mail, addressed to
   * the user's email, and the reply after a successful send is the same
   * whatever was drawn; after a failed send the reply carries the
   * exception's message instead.
   */
  lemma ResetDisclosure(db: Db, username: string, draws: seq<nat>, encode: string -> string,
                        mailEnabled: bool, sendFailure: Option<string>, u: Id)
    requires Valid(db) && Draws(draws)
    requires u in db.users && db.users[u].username == username
    ensures var (_, m, mail) := ResetSpec(db, username, draws, encode, mailEnabled, sendFailure);
      var pw := PasswordFrom(draws);
      (!mailEnabled ==> Contains(m, pw) && mail.None?) &&
      (mailEnabled ==>
         mail.Some? && mail.value.to == db.users[u].email && mail.value.subject == "Password Reset" &&
         Contains(mail.value.text, pw)) &&
      (mailEnabled && sendFailure.None? ==> m == SentMessage) &&
      (mailEnabled && sendFailure.Some? ==> m == SendFailedPrefix + sendFailure.value)
  {
    FindsTheUser(db, username, u);
    var pw := PasswordFrom(draws);
    ContainsInside("Password has been reset. Your new password is: ", pw, "\nPlease change your password after logging in.");
    ContainsInside("Your new password is: ", pw, "\n\nPlease change your password after logging in.");
  }
}
