/**
  `isValidEmail` (src/checkMetadata.ts): the address pattern
  `^[^\s@]+@[^\s@]+\.[^\s@]+$`, a recognizer that reads the address from
  left to right and the pattern itself stated over positions.
 */
module Email {
  import opened Strings

  /** `[^\s@]`. */
  predicate IsAddressChar(c: char) { !IsSpace(c) && c != '@' }

  /** What the pattern describes: an `@` at `a` and a `.` at `d`, with at
      least one character before the `@`, between the two and after the dot,
      and every other character neither white space nor `@`. The dot itself
      may be any dot after the `@` that leaves both sides non-empty. */
  ghost predicate MatchesPattern(s: string) {
    exists a: nat, d: nat ::
      && 0 < a && a + 1 < d && d + 1 < |s|
      && s[a] == '@' && s[d] == '.'
      && (forall k :: 0 <= k < |s| && k != a ==> IsAddressChar(s[k]))
  }

  /** `isValidEmail`: the first `@` is not the first character, no other `@`
      and no white space follow, and after the character that follows the
      `@` there is a dot that is not the last character. */
  predicate IsValidEmail(email: string) {
    var a := IndexOf(email, '@');
    && 0 < a < |email|
    && All(email, IsNonSpace)
    && var domain := email[a + 1..];
    && '@' !in domain
    && |domain| >= 2
    && 1 + IndexOf(domain[1..], '.') + 1 < |domain|
  }

  /** The recognizer accepts exactly the addresses the pattern describes. */
  lemma IsValidEmailIff(s: string)
    ensures IsValidEmail(s) <==> MatchesPattern(s)
  {
    if IsValidEmail(s) {
      AcceptedMatches(s);
    }
    if MatchesPattern(s) {
      var a: nat, d: nat :| && 0 < a && a + 1 < d && d + 1 < |s|
                            && s[a] == '@' && s[d] == '.'
                            && (forall k :: 0 <= k < |s| && k != a ==> IsAddressChar(s[k]));
      MatchIsAccepted(s, a, d);
    }
  }

  lemma AcceptedMatches(s: string)
    requires IsValidEmail(s)
    ensures MatchesPattern(s)
  {
    var a := IndexOf(s, '@');
    var domain := s[a + 1..];
    var i := IndexOf(domain[1..], '.');
    var d := a + 2 + i;
    assert s[d] == domain[1..][i];
    assert forall k :: a < k < |s| ==> s[k] == domain[k - a - 1];
    assert forall k :: 0 <= k < |s| && k != a ==> IsAddressChar(s[k]);
  }

  lemma MatchIsAccepted(s: string, a: nat, d: nat)
    requires 0 < a && a + 1 < d && d + 1 < |s|
    requires s[a] == '@' && s[d] == '.'
    requires forall k :: 0 <= k < |s| && k != a ==> IsAddressChar(s[k])
    ensures IsValidEmail(s)
  {
    assert IndexOf(s, '@') == a;
    var domain := s[a + 1..];
    assert forall k :: 0 <= k < |domain| ==> domain[k] == s[a + 1 + k];
    assert '@' !in domain;
    assert domain[1..][d - a - 2] == '.';
    assert IndexOf(domain[1..], '.') <= d - a - 2;
  }

  // The addresses the project's tests accept and reject.

  lemma AcceptsPlainAddress()
    ensures IsValidEmail("help@sous-chefs.org")
  {
    var s := "help@sous-chefs.org";
    assert s[4] == '@' && s[15] == '.';
    MatchIsAccepted(s, 4, 15);
  }

  /** An address has an `@` and a dot. */
  lemma NeedsAtAndDot(s: string)
    ensures '@' !in s || '.' !in s ==> !IsValidEmail(s)
  {
    if IsValidEmail(s) {
      AcceptedMatches(s);
    }
  }

  lemma RejectsNoAt()
    ensures !IsValidEmail("invalid-email")
  {
    var s := "invalid-email";
    assert '@' !in s;
    NeedsAtAndDot(s);
  }

  lemma RejectsNoDot()
    ensures !IsValidEmail("help@sous-chefs")
  {
    var s := "help@sous-chefs";
    assert '.' !in s;
    NeedsAtAndDot(s);
  }

  lemma RejectsSpace()
    ensures !IsValidEmail("jane doe@example.com")
  {
    assert !IsNonSpace("jane doe@example.com"[4]);
  }
}
