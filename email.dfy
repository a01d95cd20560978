/** The e-mail shape both the booking form and the booking route test:
    the regular expression `^[^\s@]+@[^\s@]+\.[^\s@]+$`. */
module EmailShape {
  import opened Text

  /** A character of the class `[^\s@]`. */
  predicate IsPlain(c: char) {
    !IsJsWhitespace(c) && c != '@'
  }

  predicate AllPlain(s: string) {
    forall i | 0 <= i < |s| :: IsPlain(s[i])
  }

  /** `s` matches the pattern: one `@` with at least one character before it, and after it a `.`
      with at least one character on each side; no character other than that `@` is `@` or
      whitespace. The `.` is itself of the class `[^\s@]`, so the text after `@` may hold more
      dots, and any of them that is neither first nor last can be the one the pattern matches. */
  predicate MatchesEmailPattern(s: string) {
    exists at, dot | 0 < at && at + 1 < dot && dot + 1 < |s| ::
      s[at] == '@' && s[dot] == '.' && AllPlain(s[..at]) && AllPlain(s[at + 1..])
  }

  lemma AllPlainJoin(a: string, b: string)
    requires AllPlain(a) && AllPlain(b)
    ensures AllPlain(a + "." + b)
  {
  }

  /** Three non-empty runs of `[^\s@]` joined as `local@domain.ending` match. */
  lemma EmailPatternByParts(local: string, domain: string, ending: string)
    requires local != [] && domain != [] && ending != []
    requires AllPlain(local) && AllPlain(domain) && AllPlain(ending)
    ensures MatchesEmailPattern(local + "@" + domain + "." + ending)
  {
    var s := local + "@" + domain + "." + ending;
    var at, dot := |local|, |local| + 1 + |domain|;
    assert s[..at] == local;
    assert s[at + 1..] == domain + "." + ending;
    AllPlainJoin(domain, ending);
    assert s[at] == '@' && s[dot] == '.';
  }

  /** Every matching text is `local@domain.ending` for three non-empty runs of `[^\s@]`. */
  lemma EmailPatternParts(s: string) returns (local: string, domain: string, ending: string)
    requires MatchesEmailPattern(s)
    ensures local != [] && domain != [] && ending != []
    ensures AllPlain(local) && AllPlain(domain) && AllPlain(ending)
    ensures s == local + "@" + domain + "." + ending
  {
    var at, dot :| 0 < at && at + 1 < dot && dot + 1 < |s|
      && s[at] == '@' && s[dot] == '.' && AllPlain(s[..at]) && AllPlain(s[at + 1..]);
    local, domain, ending := s[..at], s[at + 1..dot], s[dot + 1..];
    AllPlainSlice(s[at + 1..], 0, dot - at - 1);
    AllPlainSlice(s[at + 1..], dot - at, |s| - at - 1);
    assert s[at + 1..][..dot - at - 1] == domain;
    assert s[at + 1..][dot - at..] == ending;
    CutTwice(s, at, dot);
  }

  lemma AllPlainSlice(s: string, i: nat, j: nat)
    requires AllPlain(s) && i <= j <= |s|
    ensures AllPlain(s[i..j])
  {
    assert forall k | 0 <= k < j - i :: s[i..j][k] == s[i + k];
  }

  /** A text cut at its `@` and at a later `.` is the three pieces joined by them. */
  lemma CutTwice(s: string, at: nat, dot: nat)
    requires at < dot < |s| && s[at] == '@' && s[dot] == '.'
    ensures s == s[..at] + "@" + s[at + 1..dot] + "." + s[dot + 1..]
  {
    assert s == s[..at] + [s[at]] + s[at + 1..dot] + [s[dot]] + s[dot + 1..];
  }

  /** A matching text holds exactly one `@`. */
  lemma EmailPatternOneAt(s: string)
    requires MatchesEmailPattern(s)
    ensures Count(s, '@') == 1
  {
    var local, domain, ending := EmailPatternParts(s);
    NoAtCount(local);
    NoAtCount(domain + "." + ending);
    CountAppend(local, "@", '@');
    CountAppend(local + "@", domain + "." + ending, '@');
    assert s == (local + "@") + (domain + "." + ending);
  }

  lemma NoAtCount(s: string)
    requires AllPlain(s)
    ensures Count(s, '@') == 0
  {
    CountZero(s, '@');
  }

  /** The examples: `a@b.co` matches; `not-an-email`, `a@b`, `@b.co`, `a b@c.d` do not. */
  lemma EmailPatternExamples()
    ensures MatchesEmailPattern("a@b.co")
    ensures !MatchesEmailPattern("not-an-email")
    ensures !MatchesEmailPattern("a@b")
    ensures !MatchesEmailPattern("@b.co")
    ensures !MatchesEmailPattern("a b@c.d")
  {
    assert "a@b.co"[..1] == "a" && "a@b.co"[2..] == "b.co";
    assert "a@b.co"[1] == '@' && "a@b.co"[3] == '.';
    assert !IsPlain("a b@c.d"[1]);
  }
}
