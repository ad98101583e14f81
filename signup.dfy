/**
 * The input checks at the start of `onSignup` (src/app/signup/page.tsx):
 * email and username are trimmed and lower-cased, then the empty checks run
 * in a fixed order, then the username pattern. Only input that passes every
 * check reaches the account-creation call.
 */
module Signup {
  import opened Text

  datatype SignupError = MissingEmail | MissingUsername | MissingPassword | BadUsername

  /** How the checks end: a message, or the call that creates the account. */
  datatype SignupStep =
    | Rejected(error: SignupError)
    | CreateAccount(email: string, password: string, username: string)

  predicate UsernameChar(c: char) {
    'a' <= c <= 'z' || '0' <= c <= '9' || c == '_'
  }

  /** `/^[a-z0-9_]{3,20}$/.test(u)`. */
  predicate MatchesUsernamePattern(u: string) {
    3 <= |u| <= 20 && forall k :: 0 <= k < |u| ==> UsernameChar(u[k])
  }

  /**
   * The validation prefix of `onSignup`. The first failing check decides the
   * message; the password is passed on exactly as typed.
   */
  function ValidateSignup(email: string, username: string, password: string): (r: SignupStep)
    ensures r == Rejected(MissingEmail) <==> Trim(email) == []
    ensures r == Rejected(MissingUsername) <==> Trim(email) != [] && Trim(username) == []
    ensures r == Rejected(MissingPassword) <==> Trim(email) != [] && Trim(username) != [] && password == []
    ensures r == Rejected(BadUsername) <==>
      Trim(email) != [] && Trim(username) != [] && password != [] &&
      !MatchesUsernamePattern(Lower(Trim(username)))
    ensures r.CreateAccount? ==>
      r.email == Lower(Trim(email)) && r.email != [] &&
      r.password == password && r.password != [] &&
      r.username == Lower(Trim(username)) && MatchesUsernamePattern(r.username)
  {
    var cleanEmail := Lower(Trim(email));
    var cleanUsername := Lower(Trim(username));
    if cleanEmail == [] then Rejected(MissingEmail)
    else if cleanUsername == [] then Rejected(MissingUsername)
    else if password == [] then Rejected(MissingPassword)
    else if !MatchesUsernamePattern(cleanUsername) then Rejected(BadUsername)
    else CreateAccount(cleanEmail, password, cleanUsername)
  }

  /** A password of only spaces is not trimmed, so it passes the empty check. */
  lemma BlankPasswordPasses(email: string, username: string)
    requires Trim(email) != [] && Trim(username) != []
    ensures ValidateSignup(email, username, " ") != Rejected(MissingPassword)
    ensures MatchesUsernamePattern(Lower(Trim(username))) ==>
      ValidateSignup(email, username, " ").CreateAccount? &&
      ValidateSignup(email, username, " ").password == " "
  {
  }

  /**
   * Upper-case letters are accepted: the username is lower-cased before the
   * pattern is tested, so 3 to 20 ASCII letters, digits and underscores of
   * either case pass.
   */
  lemma MixedCaseUsernameAccepted(username: string)
    requires 3 <= |Trim(username)| <= 20
    requires forall k :: 0 <= k < |Trim(username)| ==>
      var c := Trim(username)[k];
      'a' <= c <= 'z' || 'A' <= c <= 'Z' || '0' <= c <= '9' || c == '_'
    ensures MatchesUsernamePattern(Lower(Trim(username)))
  {
    var t := Trim(username);
    forall k | 0 <= k < |t| ensures UsernameChar(Lower(t)[k]) {
      LowerAt(t, k);
      LowerCharFacts(t[k]);
    }
  }
}
