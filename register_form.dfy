/**
 * `RegisterForm`: the checks the sign-up page makes before it sends the
 * registration, in the order it makes them.  The phone number is optional
 * and never checked.
 */
module RegisterForm {
  import opened Wrappers
  import opened Requests

  const FillFieldsMessage := "Please fill in all required fields"
  const MismatchMessage := "Passwords do not match"
  const ShortMessage := "Password must be at least 8 characters"
  const UpperMessage := "Password must contain at least one uppercase letter"
  const SpecialMessage := "Password must contain at least one special character"

  /** The fields the page holds. */
  datatype Registration = Registration(
    username: string,
    email: string,
    fullName: string,
    phoneNo: string,
    password: string,
    confirmPassword: string)

  /** The required fields are all non-empty. */
  predicate Complete(r: Registration)
  {
    r.username != [] && r.email != [] && r.fullName != [] && r.password != [] && r.confirmPassword != []
  }

  /** The password rules the page enforces: at least 8 characters, an upper-case letter and a special character. */
  predicate StrongPassword(p: string)
  {
    |p| >= 8 && HasUpper(p) && HasSpecial(p)
  }

  /**
   * `handleRegister`'s checks: the message of the first one that fails, or
   * nothing when the registration may be sent.
   */
  function RegisterCheck(r: Registration): (m: Option<string>)
    ensures m.None? <==> Complete(r) && r.password == r.confirmPassword && StrongPassword(r.password)
    ensures !Complete(r) ==> m == Some(FillFieldsMessage)
  {
    if !Complete(r) then Some(FillFieldsMessage)
    else if r.password != r.confirmPassword then Some(MismatchMessage)
    else if |r.password| < 8 then Some(ShortMessage)
    else if !HasUpper(r.password) then Some(UpperMessage)
    else if !HasSpecial(r.password) then Some(SpecialMessage)
    else None
  }

  /**
   * Each message names the first rule broken: a complete form whose two
   * passwords differ is reported as a mismatch however weak the password,
   * and each password rule is reported only when the earlier ones hold.
   */
  lemma FirstFailureReported(r: Registration)
    requires Complete(r)
    ensures r.password != r.confirmPassword ==> RegisterCheck(r) == Some(MismatchMessage)
    ensures r.password == r.confirmPassword && |r.password| < 8 ==> RegisterCheck(r) == Some(ShortMessage)
    ensures r.password == r.confirmPassword && |r.password| >= 8 && !HasUpper(r.password) ==>
      RegisterCheck(r) == Some(UpperMessage)
    ensures r.password == r.confirmPassword && |r.password| >= 8 && HasUpper(r.password) && !HasSpecial(r.password) ==>
      RegisterCheck(r) == Some(SpecialMessage)
  {
  }

  /** The phone number plays no part in the checks. */
  lemma PhoneIgnored(r: Registration, phone: string)
    ensures RegisterCheck(r.(phoneNo := phone)) == RegisterCheck(r)
  {
  }

  /** A password of 8 characters without an upper-case letter is turned away for that reason. */
  lemma LowerCaseRejected()
    ensures RegisterCheck(Registration("ann", "a@b.c", "Ann", "", "abcdefg!", "abcdefg!")) == Some(UpperMessage)
  {
    var p := "abcdefg!";
    assert !HasUpper(p) by {
      forall i | 0 <= i < |p| ensures !IsUpper(p[i]) {
      }
    }
  }

  /** A password the page accepts has a special character from the same set the server's pattern names. */
  lemma AcceptedPasswordHasSpecial(r: Registration)
    requires RegisterCheck(r).None?
    ensures exists i :: 0 <= i < |r.password| && r.password[i] in SpecialChars
  {
    var j :| 0 <= j < |r.password| && IsSpecial(r.password[j]);
  }
}
