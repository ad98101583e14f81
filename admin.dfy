/**
 * `isAdminEmail` (src/lib/is-admin.ts): the allowlist is the environment
 * string split on commas, each entry trimmed and lower-cased, empty entries
 * dropped; an email is an admin email when its lower-cased form is listed.
 * The environment string is a parameter (`None` when it is unset).
 */
module Admin {
  import opened Options
  import opened Text

  /** `.map(s => s.trim().toLowerCase()).filter(Boolean)`. */
  function CleanEntries(parts: seq<string>): seq<string> {
    if parts == [] then []
    else
      var e := Lower(Trim(parts[0]));
      (if e != [] then [e] else []) + CleanEntries(parts[1..])
  }

  /** The allowlist read from the environment string. */
  function AdminEmails(env: Option<string>): seq<string> {
    CleanEntries(Split(if env.Some? then env.value else "", ','))
  }

  function IsAdminEmail(env: Option<string>, email: Option<string>): bool {
    if email.None? || email.value == [] then false
    else Lower(email.value) in AdminEmails(env)
  }

  /**
   * The cleaned entries are exactly the non-empty trimmed, lower-cased
   * pieces; none of them starts or ends with white space.
   */
  lemma CleanEntriesSpec(parts: seq<string>)
    ensures forall x :: x in CleanEntries(parts) <==>
      x != [] && exists p :: p in parts && x == Lower(Trim(p))
    ensures forall x :: x in CleanEntries(parts) ==> !IsSpace(x[0]) && !IsSpace(x[|x| - 1])
  {
    CleanEntriesMembers(parts);
    CleanEntriesTrimmed(parts);
  }

  /** Membership in the cleaned allowlist. */
  lemma {:induction false} CleanEntriesMembers(parts: seq<string>)
    ensures forall x :: x in CleanEntries(parts) <==>
      x != [] && exists p :: p in parts && x == Lower(Trim(p))
  {
    if parts != [] {
      CleanEntriesMembers(parts[1..]);
      assert forall p :: p in parts <==> p == parts[0] || p in parts[1..];
    }
  }

  /** No cleaned entry is empty, or starts or ends with white space. */
  lemma {:induction false} CleanEntriesTrimmed(parts: seq<string>)
    ensures forall x :: x in CleanEntries(parts) ==> x != [] && !IsSpace(x[0]) && !IsSpace(x[|x| - 1])
  {
    if parts != [] {
      CleanEntriesTrimmed(parts[1..]);
      var t := Trim(parts[0]);
      if Lower(t) != [] {
        TrimSpec(parts[0]);
        LowerAt(t, 0);
        LowerAt(t, |t| - 1);
        LowerCharFacts(t[0]);
        LowerCharFacts(t[|t| - 1]);
      }
    }
  }

  /** Admin status is membership of the lower-cased email among the cleaned allowlist pieces. */
  lemma IsAdminEmailSpec(env: Option<string>, email: string)
    ensures IsAdminEmail(env, Some(email)) <==>
      email != [] &&
      exists p :: p in Split(if env.Some? then env.value else "", ',') &&
        Trim(p) != [] && Lower(Trim(p)) == Lower(email)
  {
    CleanEntriesSpec(Split(if env.Some? then env.value else "", ','));
  }

  /** A missing or empty email is never an admin email. */
  lemma NoEmailIsNotAdmin(env: Option<string>)
    ensures !IsAdminEmail(env, None) && !IsAdminEmail(env, Some(""))
  {
  }

  /** With the allowlist unset or empty, nobody is an admin. */
  lemma EmptyAllowlist(env: Option<string>, email: Option<string>)
    requires env.None? || env.value == ""
    ensures AdminEmails(env) == []
    ensures !IsAdminEmail(env, email)
  {
    assert Split("", ',') == [""];
    assert Lower(Trim("")) == "";
    assert [""][1..] == [];
  }

  /** Matching ignores case: emails that lower-case alike get the same answer. */
  lemma MatchIgnoresCase(env: Option<string>, e1: string, e2: string)
    requires Lower(e1) == Lower(e2)
    ensures IsAdminEmail(env, Some(e1)) == IsAdminEmail(env, Some(e2))
  {
  }

  /** The email is not trimmed: one that starts or ends with white space never matches. */
  lemma PaddedEmailNeverMatches(env: Option<string>, email: string)
    requires email != [] && (IsSpace(email[0]) || IsSpace(email[|email| - 1]))
    ensures !IsAdminEmail(env, Some(email))
  {
    CleanEntriesSpec(Split(if env.Some? then env.value else "", ','));
    LowerAt(email, 0);
    LowerAt(email, |email| - 1);
    LowerCharFacts(email[0]);
    LowerCharFacts(email[|email| - 1]);
  }
}
