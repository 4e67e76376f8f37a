/** The address test `^[^\s@]+@[^\s@]+\.[^\s@]+$` that step validation applies
    to required e-mail fields, written without a regular-expression engine. */
module Email {

  /** The characters of JavaScript's `\s` class. */
  predicate IsSpace(c: char) {
    || c == '\t' || c == '\n' || c == '\U{000B}' || c == '\U{000C}' || c == '\r' || c == ' '
    || c == '\U{00A0}' || c == '\U{1680}' || ('\U{2000}' <= c <= '\U{200A}')
    || c == '\U{2028}' || c == '\U{2029}' || c == '\U{202F}' || c == '\U{205F}'
    || c == '\U{3000}' || c == '\U{FEFF}'
  }

  /** A character of the class `[^\s@]`. */
  predicate Plain(c: char) {
    !IsSpace(c) && c != '@'
  }

  predicate AllPlain(s: string) {
    forall k :: 0 <= k < |s| ==> Plain(s[k])
  }

  /** A match of the pattern, by positions: one `@` that is not first, a `.`
      at least two places after it and not last, and every other character
      from `[^\s@]` (which admits `.`). */
  ghost predicate MatchesPattern(s: string) {
    exists at, dot ::
      && 0 < at && at + 1 < dot < |s| - 1
      && s[at] == '@' && s[dot] == '.'
      && forall k :: 0 <= k < |s| && k != at ==> Plain(s[k])
  }

  /** The position of the first `@` in `s`, or `|s|` when there is none. */
  function IndexOfAt(s: string): (i: nat)
    ensures i <= |s|
    ensures i < |s| ==> s[i] == '@'
    ensures forall k :: 0 <= k < i ==> s[k] != '@'
  {
    if s == [] then 0
    else if s[0] == '@' then 0
    else 1 + IndexOfAt(s[1..])
  }

  predicate HasInnerDot(r: string) {
    exists k :: 0 < k < |r| - 1 && r[k] == '.'
  }

  /** The test itself: split at the first `@`, then both sides must be free of
      white space and `@`, the left side non-empty, and the right side must
      hold a `.` with something on each side of it. */
  function IsEmail(s: string): (b: bool)
    ensures b <==> MatchesPattern(s)
  {
    var at := IndexOfAt(s);
    var local, domain := s[..at], if at < |s| then s[at + 1..] else [];
    && 0 < at < |s|
    && AllPlain(local) && AllPlain(domain) && HasInnerDot(domain)
  }

  /** Every string of the shape `a@b.c` with `a`, `b`, `c` non-empty runs of
      `[^\s@]` passes the test. */
  lemma EmailFromParts(a: string, b: string, c: string)
    requires a != [] && b != [] && c != []
    requires AllPlain(a) && AllPlain(b) && AllPlain(c)
    ensures IsEmail(a + "@" + b + "." + c)
  {
    var s := a + "@" + b + "." + c;
    var at, dot := |a|, |a| + 1 + |b|;
    assert s[at] == '@' && s[dot] == '.';
    forall k | 0 <= k < |s| && k != at
      ensures Plain(s[k])
    {
      if k < at {
        assert s[k] == a[k];
      } else if k < dot {
        assert s[k] == b[k - at - 1];
      } else if k > dot {
        assert s[k] == c[k - dot - 1];
      }
    }
    assert MatchesPattern(s);
  }

  /** A string without `@` does not pass. */
  lemma RejectsNonAddress()
    ensures !IsEmail("not-an-email")
  {
    var s := "not-an-email";
    assert forall k :: 0 <= k < |s| ==> s[k] != '@';
    assert !MatchesPattern(s);
  }
}
