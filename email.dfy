/** `validate_email`: a match of `^[a-zA-Z0-9._%+-]+@[a-zA-Z0-9.-]+\.[a-zA-Z]{2,}$`
    with Python's `re.match`, written as an explicit scan and proved equal to the
    language of the pattern. */
module Email {

  predicate IsLetter(c: char) { 'a' <= c <= 'z' || 'A' <= c <= 'Z' }

  predicate IsDigit(c: char) { '0' <= c <= '9' }

  /** The class `[a-zA-Z0-9._%+-]` of the part before `@`. */
  predicate IsLocalChar(c: char)
  {
    IsLetter(c) || IsDigit(c) || c == '.' || c == '_' || c == '%' || c == '+' || c == '-'
  }

  /** The class `[a-zA-Z0-9.-]` of the domain. */
  predicate IsDomainChar(c: char)
  {
    IsLetter(c) || IsDigit(c) || c == '.' || c == '-'
  }

  predicate AllLocal(s: string) { forall k :: 0 <= k < |s| ==> IsLocalChar(s[k]) }

  predicate AllDomain(s: string) { forall k :: 0 <= k < |s| ==> IsDomainChar(s[k]) }

  predicate AllLetters(s: string) { forall k :: 0 <= k < |s| ==> IsLetter(s[k]) }

  /** Index of the first `c` in `s`, or `|s|` when there is none. */
  function FirstIndex(s: string, c: char): (k: nat)
    ensures k <= |s|
    ensures k < |s| ==> s[k] == c
    ensures forall m :: 0 <= m < k ==> s[m] != c
  {
    if s == [] then 0
    else if s[0] == c then 0
    else 1 + FirstIndex(s[1..], c)
  }

  /** Index of the last `c` in `s`, or -1 when there is none. */
  function LastIndex(s: string, c: char): (k: int)
    ensures -1 <= k < |s|
    ensures k >= 0 ==> s[k] == c
    ensures forall m :: k < m < |s| ==> s[m] != c
  {
    if s == [] then -1
    else if s[|s| - 1] == c then |s| - 1
    else LastIndex(s[..|s| - 1], c)
  }

  /** The pattern without its anchors matches all of `s`. Neither class admits `@`, so
      the `@` is the first one; the top-level domain admits no `.`, so the dot before it
      is the last one. */
  predicate MatchesWhole(s: string)
  {
    var at := FirstIndex(s, '@');
    0 < at < |s| && AllLocal(s[..at]) &&
    var rest := s[at + 1..];
    var dot := LastIndex(rest, '.');
    0 < dot && AllDomain(rest[..dot]) && dot + 2 < |rest| && AllLetters(rest[dot + 1..])
  }

  /** `bool(EMAIL_REGEX.match(email))`. Without MULTILINE, `$` matches at the end of the
      string and also just before a newline that ends it. */
  function ValidateEmail(email: string): (ok: bool)
    ensures ok ==> |email| >= 6
  {
    MatchesWhole(email) ||
    (|email| > 0 && email[|email| - 1] == '\n' && MatchesWhole(email[..|email| - 1]))
  }

  // The language of the pattern, stated by where its `@` and its last `.` stand.

  /** `s` is L `@` D `.` T with `@` at `at` and `.` at `dot`: L and D non-empty over
      their classes, T at least two letters. */
  ghost predicate SplitsAt(s: string, at: int, dot: int)
  {
    0 < at && at + 1 < dot && dot + 2 < |s| &&
    s[at] == '@' && s[dot] == '.' &&
    AllLocal(s[..at]) && AllDomain(s[at + 1..dot]) && AllLetters(s[dot + 1..])
  }

  ghost predicate InLanguage(s: string)
  {
    exists at, dot :: SplitsAt(s, at, dot)
  }

  /** What `re.match` with a final `$` accepts: a word of the language, possibly
      followed by one newline. */
  ghost predicate RegexAccepts(s: string)
  {
    InLanguage(s) || (|s| > 0 && s[|s| - 1] == '\n' && InLanguage(s[..|s| - 1]))
  }

  /** `FirstIndex` finds `i` when `c` stands at `i` and nowhere before it. */
  lemma FirstIndexAt(s: string, c: char, i: int)
    requires 0 <= i < |s| && s[i] == c
    requires forall m :: 0 <= m < i ==> s[m] != c
    ensures FirstIndex(s, c) == i
  {
  }

  /** `LastIndex` finds `i` when `c` stands at `i` and nowhere after it. */
  lemma LastIndexAt(s: string, c: char, i: int)
    requires 0 <= i < |s| && s[i] == c
    requires forall m :: i < m < |s| ==> s[m] != c
    ensures LastIndex(s, c) == i
  {
  }

  /** A scan that succeeds has found a split of the language. */
  lemma MatchesWholeSplits(s: string) returns (at: int, dot: int)
    requires MatchesWhole(s)
    ensures SplitsAt(s, at, dot)
  {
    at := FirstIndex(s, '@');
    var rest := s[at + 1..];
    var d := LastIndex(rest, '.');
    assert s[at + 1..at + 1 + d] == rest[..d];
    assert s[at + 1 + d + 1..] == rest[d + 1..];
    dot := at + 1 + d;
  }

  /** In a split word the `@` of the split is the first `@`. */
  lemma SplitAtIsFirst(s: string, at: int, dot: int)
    requires SplitsAt(s, at, dot)
    ensures FirstIndex(s, '@') == at
  {
    forall m | 0 <= m < at
      ensures s[m] != '@'
    {
      assert s[m] == s[..at][m];
    }
    FirstIndexAt(s, '@', at);
  }

  /** In a split word the `.` of the split is the last `.` after the `@`. */
  lemma SplitDotIsLast(s: string, at: int, dot: int)
    requires SplitsAt(s, at, dot)
    ensures LastIndex(s[at + 1..], '.') == dot - at - 1
  {
    var rest := s[at + 1..];
    forall m | dot - at - 1 < m < |rest|
      ensures rest[m] != '.'
    {
      assert rest[m] == s[dot + 1..][m - (dot - at)];
    }
    LastIndexAt(rest, '.', dot - at - 1);
  }

  /** Every split of the language is the one the scan finds. */
  lemma SplitsAtMatches(s: string, at: int, dot: int)
    requires SplitsAt(s, at, dot)
    ensures MatchesWhole(s)
  {
    SplitAtIsFirst(s, at, dot);
    SplitDotIsLast(s, at, dot);
    var rest := s[at + 1..];
    var d := dot - at - 1;
    assert rest[..d] == s[at + 1..dot];
    assert rest[d + 1..] == s[dot + 1..];
  }

  lemma MatchesWholeIff(s: string)
    ensures MatchesWhole(s) <==> InLanguage(s)
  {
    if MatchesWhole(s) {
      var at, dot := MatchesWholeSplits(s);
    }
    if InLanguage(s) {
      var at, dot :| SplitsAt(s, at, dot);
      SplitsAtMatches(s, at, dot);
    }
  }

  /** The scan accepts exactly what the regular expression accepts. */
  lemma ValidateEmailIsRegex(email: string)
    ensures ValidateEmail(email) <==> RegexAccepts(email)
  {
    MatchesWholeIff(email);
    if |email| > 0 {
      MatchesWholeIff(email[..|email| - 1]);
    }
  }

  /** An accepted address has exactly one `@`. */
  lemma AcceptedHasOneAt(email: string)
    requires ValidateEmail(email)
    ensures exists k :: 0 <= k < |email| && email[k] == '@'
    ensures forall k, m :: 0 <= k < |email| && 0 <= m < |email| && email[k] == '@' && email[m] == '@' ==> k == m
  {
    var s, at := AcceptedWord(email);
    assert email[at] == s[at];
    forall k | 0 <= k < |email| && email[k] == '@'
      ensures k == at
    {
      assert k < |s| && s[k] == email[k];
    }
  }

  /** An accepted address is a word of the language, possibly with one newline after it;
      the `@` of that word is its only character outside the local-part class. */
  lemma AcceptedWord(email: string) returns (s: string, at: int)
    requires ValidateEmail(email)
    ensures s == email || (s + "\n" == email)
    ensures 0 <= at < |s| && s[at] == '@'
    ensures forall k :: 0 <= k < |s| ==> IsLocalChar(s[k]) || k == at
    ensures 0 < |s| && IsLetter(s[|s| - 1])
  {
    ValidateEmailIsRegex(email);
    if InLanguage(email) {
      s := email;
    } else {
      s := email[..|email| - 1];
      assert s + "\n" == email;
    }
    var at', dot :| SplitsAt(s, at', dot);
    at := at';
    OnlyAt(s, at, dot);
    assert s[|s| - 1] == s[dot + 1..][|s| - dot - 2];
  }

  /** In a word of the language, every character is a local-part character or the `@`. */
  lemma OnlyAt(s: string, at: int, dot: int)
    requires SplitsAt(s, at, dot)
    ensures forall k :: 0 <= k < |s| ==> IsLocalChar(s[k]) || k == at
  {
    forall k | 0 <= k < |s|
      ensures IsLocalChar(s[k]) || k == at
    {
      if k < at {
        assert s[k] == s[..at][k];
      } else if at < k < dot {
        assert s[k] == s[at + 1..dot][k - at - 1];
      } else if dot < k {
        assert s[k] == s[dot + 1..][k - dot - 1];
      }
    }
  }

  /** An accepted address holds no whitespace: every character but the last is a
      local-part character or `@`, and the last is a letter or the one newline `$` allows. */
  lemma AcceptedCharacters(email: string)
    requires ValidateEmail(email)
    ensures forall k :: 0 <= k < |email| - 1 ==> IsLocalChar(email[k]) || email[k] == '@'
    ensures IsLetter(email[|email| - 1]) || email[|email| - 1] == '\n'
  {
    var s, at := AcceptedWord(email);
    forall k | 0 <= k < |email| - 1
      ensures IsLocalChar(email[k]) || email[k] == '@'
    {
      assert k < |s| && s[k] == email[k];
    }
    if s == email {
    } else {
      assert email[|email| - 1] == (s + "\n")[|s|];
    }
  }

  /** Addresses the pattern turns away: nothing, a one-letter top-level domain, a digit
      in it, a space in the local part. */
  lemma EmailRejections()
    ensures !ValidateEmail("")
    ensures !ValidateEmail("a@b.c")
    ensures !ValidateEmail("a@b.c1")
    ensures !ValidateEmail("a b@c.com")
  {
    RejectsOneLetterTld();
    RejectsDigitInTld();
    RejectsSpace();
  }

  lemma RejectsOneLetterTld()
    ensures !ValidateEmail("a@b.c")
  {
    var s := "a@b.c";
    assert FirstIndex(s, '@') == 1;
    assert s[2..] == "b.c";
    assert LastIndex("b.c", '.') == 1;
  }

  lemma RejectsDigitInTld()
    ensures !ValidateEmail("a@b.c1")
  {
    var s := "a@b.c1";
    assert FirstIndex(s, '@') == 1;
    assert s[2..] == "b.c1";
    assert LastIndex("b.c1", '.') == 1;
    assert !IsLetter("b.c1"[3]);
  }

  lemma RejectsSpace()
    ensures !ValidateEmail("a b@c.com")
  {
    var s := "a b@c.com";
    assert FirstIndex(s, '@') == 3;
    assert !IsLocalChar(s[..3][1]);
  }

  /** A local part, a domain and a top-level domain of the pattern's classes, joined by
      `@` and `.`, form a word of the language. */
  lemma ComposedAddress(local: string, domain: string, tld: string)
    requires |local| > 0 && AllLocal(local)
    requires |domain| > 0 && AllDomain(domain)
    requires |tld| >= 2 && AllLetters(tld)
    ensures InLanguage(local + "@" + domain + "." + tld)
  {
    var s := local + "@" + domain + "." + tld;
    var at, dot := |local|, |local| + 1 + |domain|;
    assert s[..at] == local;
    assert s[at + 1..dot] == domain;
    assert s[dot + 1..] == tld;
    assert SplitsAt(s, at, dot);
  }

  /** A plain address is accepted. */
  lemma EmailAccepted()
    ensures ValidateEmail("guest@example.com")
  {
    ComposedAddress("guest", "example", "com");
    assert "guest" + "@" + "example" + "." + "com" == "guest@example.com";
    ValidateEmailIsRegex("guest@example.com");
  }

  /** `$` also matches before a final newline, so one trailing newline is accepted. */
  lemma EmailTrailingNewline()
    ensures ValidateEmail("a@b.co\n")
  {
    ComposedAddress("a", "b", "co");
    assert "a" + "@" + "b" + "." + "co" == "a@b.co";
    assert "a@b.co\n"[..6] == "a@b.co";
    ValidateEmailIsRegex("a@b.co\n");
  }
}
