/** The form checks of the login page: the e-mail pattern, the "Add
    Account" checks and the "Login" check.  The calls to the
    authentication service are not part of this model. */
module Login {
  import opened Wrappers
  import opened Text

  /** `[a-zA-Z0-9_.+-]` */
  predicate IsLocalChar(c: char) {
    IsAsciiAlnum(c) || c == '_' || c == '.' || c == '+' || c == '-'
  }

  /** `[a-zA-Z0-9-]` */
  predicate IsDomainChar(c: char) {
    IsAsciiAlnum(c) || c == '-'
  }

  /** `[a-zA-Z0-9-.]` */
  predicate IsSuffixChar(c: char) {
    IsAsciiAlnum(c) || c == '-' || c == '.'
  }

  predicate AllLocal(s: string) { forall i | 0 <= i < |s| :: IsLocalChar(s[i]) }
  predicate AllDomain(s: string) { forall i | 0 <= i < |s| :: IsDomainChar(s[i]) }
  predicate AllSuffix(s: string) { forall i | 0 <= i < |s| :: IsSuffixChar(s[i]) }

  /** The text `$` has to reach: one final newline may be left over. */
  function WithoutFinalNewline(s: string): (t: string)
    ensures t == s || (|s| >= 1 && s[|s| - 1] == '\n' && t == s[..|s| - 1])
  {
    if |s| >= 1 && s[|s| - 1] == '\n' then s[..|s| - 1] else s
  }

  /** After the "@": domain characters up to the first ".", then suffix
      characters, both non-empty. */
  predicate DomainThenSuffix(rest: string) {
    var dot := IndexOf(rest, '.');
    dot < |rest| && 1 <= dot && AllDomain(rest[..dot]) &&
    |rest[dot + 1..]| >= 1 && AllSuffix(rest[dot + 1..])
  }

  /** Local characters up to the first "@", then the rest as above. */
  predicate LocalThenRest(t: string) {
    var at := IndexOf(t, '@');
    at < |t| && 1 <= at && AllLocal(t[..at]) && DomainThenSuffix(t[at + 1..])
  }

  /** `is_valid_email` */
  predicate IsValidEmail(email: string) {
    LocalThenRest(WithoutFinalNewline(email))
  }

  /** One way of reading an address as the pattern's parts. */
  predicate SplitsAs(email: string, local: string, domain: string, suffix: string, tail: string) {
    && 1 <= |local| && AllLocal(local)
    && 1 <= |domain| && AllDomain(domain)
    && 1 <= |suffix| && AllSuffix(suffix)
    && (tail == "" || tail == "\n")
    && email == local + ['@'] + (domain + ['.'] + suffix) + tail
  }

  /** `re.match(r"(^[a-zA-Z0-9_.+-]+@[a-zA-Z0-9-]+\.[a-zA-Z0-9-.]+$)", email)`
      read as a pattern: the three parts joined by "@" and ".", followed by
      the end or a final newline. */
  ghost predicate EmailPattern(email: string) {
    exists local: string, domain: string, suffix: string, tail: string ::
      SplitsAs(email, local, domain, suffix, tail)
  }

  /** Cutting a text around one of its characters and joining it back. */
  lemma Rejoin(t: string, k: nat)
    requires k < |t|
    ensures t == t[..k] + [t[k]] + t[k + 1..]
  {
  }

  /** The domain-and-suffix check is its two-part pattern. */
  lemma DomainThenSuffixSplit(rest: string)
    ensures DomainThenSuffix(rest) <==>
      exists domain: string, suffix: string ::
        1 <= |domain| && AllDomain(domain) && 1 <= |suffix| && AllSuffix(suffix)
        && rest == domain + ['.'] + suffix
  {
    if DomainThenSuffix(rest) {
      var dot := IndexOf(rest, '.');
      Rejoin(rest, dot);
      var domain, suffix := rest[..dot], rest[dot + 1..];
      assert rest == domain + ['.'] + suffix;
    }
    if exists domain: string, suffix: string ::
        1 <= |domain| && AllDomain(domain) && 1 <= |suffix| && AllSuffix(suffix)
        && rest == domain + ['.'] + suffix
    {
      var domain: string, suffix: string :|
        1 <= |domain| && AllDomain(domain) && 1 <= |suffix| && AllSuffix(suffix)
        && rest == domain + ['.'] + suffix;
      assert '.' !in domain;
      IndexOfJoin(domain, '.', suffix);
    }
  }

  /** The local-part check is its two-part pattern. */
  lemma LocalThenRestSplit(t: string)
    ensures LocalThenRest(t) <==>
      exists local: string, rest: string ::
        1 <= |local| && AllLocal(local) && DomainThenSuffix(rest) && t == local + ['@'] + rest
  {
    if LocalThenRest(t) {
      var at := IndexOf(t, '@');
      Rejoin(t, at);
      var local, rest := t[..at], t[at + 1..];
      assert t == local + ['@'] + rest;
    }
    if exists local: string, rest: string ::
        1 <= |local| && AllLocal(local) && DomainThenSuffix(rest) && t == local + ['@'] + rest
    {
      var local: string, rest: string :|
        1 <= |local| && AllLocal(local) && DomainThenSuffix(rest) && t == local + ['@'] + rest;
      assert '@' !in local;
      IndexOfJoin(local, '@', rest);
    }
  }

  /** What is left once the final newline is taken off. */
  lemma FinalNewlineSplit(email: string, body: string, tail: string)
    requires tail == "" || tail == "\n"
    requires |body| >= 1 && body[|body| - 1] != '\n'
    ensures email == body + tail ==> WithoutFinalNewline(email) == body
    ensures WithoutFinalNewline(email) == body ==>
      email == body + (if WithoutFinalNewline(email) == email then "" else "\n")
  {
    if WithoutFinalNewline(email) == body && body != email {
      Rejoin(email, |email| - 1);
    }
  }

  /** The text the pattern must cover ends in a suffix character. */
  lemma CheckedTextEnd(t: string)
    requires LocalThenRest(t)
    ensures |t| >= 1 && IsSuffixChar(t[|t| - 1])
  {
    var at := IndexOf(t, '@');
    var rest := t[at + 1..];
    var dot := IndexOf(rest, '.');
    assert t[|t| - 1] == rest[dot + 1..][|rest[dot + 1..]| - 1];
  }

  /** Every address the check accepts matches the pattern. */
  lemma ValidEmailMatches(email: string)
    requires IsValidEmail(email)
    ensures EmailPattern(email)
  {
    var t := WithoutFinalNewline(email);
    CheckedTextEnd(t);
    var tail := if t == email then "" else "\n";
    FinalNewlineSplit(email, t, tail);
    LocalThenRestSplit(t);
    var local: string, rest: string :|
      1 <= |local| && AllLocal(local) && DomainThenSuffix(rest) && t == local + ['@'] + rest;
    DomainThenSuffixSplit(rest);
    var domain: string, suffix: string :|
      1 <= |domain| && AllDomain(domain) && 1 <= |suffix| && AllSuffix(suffix)
      && rest == domain + ['.'] + suffix;
    assert SplitsAs(email, local, domain, suffix, tail);
  }

  /** Every address matching the pattern is accepted. */
  lemma MatchIsValidEmail(email: string)
    requires EmailPattern(email)
    ensures IsValidEmail(email)
  {
    var local: string, domain: string, suffix: string, tail: string :|
      SplitsAs(email, local, domain, suffix, tail);
    var rest := domain + ['.'] + suffix;
    var body := local + ['@'] + rest;
    assert body[|body| - 1] == suffix[|suffix| - 1];
    FinalNewlineSplit(email, body, tail);
    DomainThenSuffixSplit(rest);
    LocalThenRestSplit(body);
  }

  /** The check is the pattern. */
  lemma ValidEmailIsPattern(email: string)
    ensures IsValidEmail(email) <==> EmailPattern(email)
  {
    if IsValidEmail(email) {
      ValidEmailMatches(email);
    }
    if EmailPattern(email) {
      MatchIsValidEmail(email);
    }
  }

  /** In an address read as the pattern's parts, the only "@" is the one
      after the local part. */
  lemma OnlyOneAt(local: string, domain: string, suffix: string, tail: string)
    requires AllLocal(local) && AllDomain(domain) && AllSuffix(suffix)
    requires tail == "" || tail == "\n"
    ensures var email := local + ['@'] + (domain + ['.'] + suffix) + tail;
      forall i | 0 <= i < |email| :: email[i] == '@' <==> i == |local|
  {
    var w := domain + ['.'] + suffix + tail;
    assert '@' !in local;
    assert '@' !in w by {
      forall i | 0 <= i < |w| ensures w[i] != '@' {
        if i < |domain| {
        } else if i == |domain| {
        } else if i < |domain| + 1 + |suffix| {
          assert w[i] == suffix[i - |domain| - 1];
        }
      }
    }
    var email := local + ['@'] + (domain + ['.'] + suffix) + tail;
    assert email == local + ['@'] + w;
  }

  /** An accepted address has exactly one "@" and a "." after it. */
  lemma ValidEmailShape(email: string)
    requires IsValidEmail(email)
    ensures exists i | 0 <= i < |email| :: email[i] == '@'
    ensures forall i, j | 0 <= i < |email| && 0 <= j < |email| && email[i] == '@' && email[j] == '@' :: i == j
    ensures forall i | 0 <= i < |email| && email[i] == '@' :: exists j | i < j < |email| :: email[j] == '.'
  {
    ValidEmailIsPattern(email);
    var local: string, domain: string, suffix: string, tail: string :|
      SplitsAs(email, local, domain, suffix, tail);
    OnlyOneAt(local, domain, suffix, tail);
    var a := |local|;
    var d := a + 1 + |domain|;
    assert email[a] == '@' && email[d] == '.';
  }

  /** The checks of "Add Account", stopping at the first that fails. */
  function AddAccountCheck(email: string, password: string, confirm: string): Option<string> {
    if email == "" then Some("Email is required.")
    else if !IsValidEmail(email) then Some("Please enter a valid email.")
    else if password == "" then Some("Password is required.")
    else if |password| < 6 then Some("Password must be at least 6 characters.")
    else if confirm == "" then Some("Confirm Password is required.")
    else if password != confirm then Some("The passwords do not match.")
    else None
  }

  /** `signup` is called exactly when the address is valid and the password
      has six or more characters and is confirmed. */
  lemma SignupReachedIff(email: string, password: string, confirm: string)
    ensures AddAccountCheck(email, password, confirm).None? <==>
      IsValidEmail(email) && |password| >= 6 && password == confirm
  {
    if IsValidEmail(email) {
      assert |WithoutFinalNewline(email)| >= 1;
    }
  }

  /** The "Login" check: `login` is called only with both fields filled. */
  function LoginCheck(email: string, password: string): (error: Option<string>)
    ensures error.None? <==> email != "" && password != ""
    ensures error.Some? ==> error.value == "Email and password are both required."
  {
    if email == "" || password == "" then Some("Email and password are both required.") else None
  }
}
