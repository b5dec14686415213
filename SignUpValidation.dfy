/** The field checks at the start of `handleSignup` in
    screens/SignUpScreen.js: an ordered chain in which the first failing
    check decides the alert shown, and account creation is reached only
    when every check passes. */
module SignUpValidation {

  datatype SignupError =
    | MissingField
    | PasswordMismatch
    | PasswordTooShort
    | PasswordWithoutLetter
    | EmailWithoutAt

  /** Either the chain lets the sign-up go on to create the account, or it
      stops with the error whose alert is shown. */
  datatype Verdict = Proceed | Reject(error: SignupError)

  /** The text of the alert for each error. */
  function Message(e: SignupError): string {
    match e
    case MissingField => "Email, username, and password are required!"
    case PasswordMismatch => "Passwords do not match"
    case PasswordTooShort => "Password must be at least 6 characters"
    case PasswordWithoutLetter => "Password must contain at least one letter."
    case EmailWithoutAt => "Email must contain @"
  }

  const MinPasswordLength: nat := 6

  /** The one-character patterns the chain searches for: `/[a-z]/i` and `/@/`. */
  datatype Pattern = AnyLetter | AtSign

  predicate Matches(p: Pattern, c: char) {
    match p
    case AnyLetter => 'a' <= c <= 'z' || 'A' <= c <= 'Z'
    case AtSign => c == '@'
  }

  /** `s.search(p)`: the index of the first match, or -1 when there is none. */
  function Search(s: string, p: Pattern): (i: int)
    ensures -1 <= i < |s|
    ensures i >= 0 ==> Matches(p, s[i])
    ensures forall k :: 0 <= k < |s| && (i < 0 || k < i) ==> !Matches(p, s[k])
    decreases |s|
  {
    if s == [] then -1
    else if Matches(p, s[0]) then 0
    else
      var rest := Search(s[1..], p);
      if rest < 0 then -1 else rest + 1
  }

  /** The checks of `handleSignup`, in the source's order. */
  function ValidateSignup(email: string, username: string, password: string, confirmPassword: string): Verdict {
    if email == "" || password == "" || username == "" then Reject(MissingField)
    else if password != confirmPassword then Reject(PasswordMismatch)
    else if |password| < MinPasswordLength then Reject(PasswordTooShort)
    else if Search(password, AnyLetter) < 0 then Reject(PasswordWithoutLetter)
    else if Search(email, AtSign) < 0 then Reject(EmailWithoutAt)
    else Proceed
  }

  predicate HasLetter(s: string) {
    exists k :: 0 <= k < |s| && Matches(AnyLetter, s[k])
  }

  /** Each verdict, characterised without reference to the chain: an error
      is reported exactly when its check fails and every earlier check
      passes, and the sign-up proceeds exactly when every check passes. */
  lemma ValidateSignupSpec(email: string, username: string, password: string, confirmPassword: string)
    ensures var v := ValidateSignup(email, username, password, confirmPassword);
      && (v == Reject(MissingField) <==> email == "" || username == "" || password == "")
      && (v == Reject(PasswordMismatch) <==>
            email != "" && username != "" && password != "" && password != confirmPassword)
      && (v == Reject(PasswordTooShort) <==>
            email != "" && username != "" && password != "" && password == confirmPassword
            && |password| < MinPasswordLength)
      && (v == Reject(PasswordWithoutLetter) <==>
            email != "" && username != "" && password == confirmPassword
            && |password| >= MinPasswordLength && !HasLetter(password))
      && (v == Reject(EmailWithoutAt) <==>
            email != "" && username != "" && password == confirmPassword
            && |password| >= MinPasswordLength && HasLetter(password) && '@' !in email)
      && (v == Proceed <==>
            username != "" && password == confirmPassword
            && |password| >= MinPasswordLength && HasLetter(password) && '@' in email)
  {
    var letter := Search(password, AnyLetter);
    if letter >= 0 {
      assert Matches(AnyLetter, password[letter]);
    }
    var at := Search(email, AtSign);
    if at >= 0 {
      assert email[at] == '@';
    }
    if '@' in email {
      var k :| 0 <= k < |email| && email[k] == '@';
      assert Matches(AtSign, email[k]);
    }
  }

  /** A sign-up that proceeds has a confirmation equal to a password of at
      least six characters with a letter, and an email containing `@`. */
  lemma ProceedMeansAllChecksPass(email: string, username: string, password: string, confirmPassword: string)
    requires ValidateSignup(email, username, password, confirmPassword) == Proceed
    ensures email != "" && username != "" && password != ""
    ensures confirmPassword == password && |confirmPassword| >= MinPasswordLength
    ensures HasLetter(password) && '@' in email
  {
    ValidateSignupSpec(email, username, password, confirmPassword);
  }
}
