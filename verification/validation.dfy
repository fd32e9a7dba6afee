/**
 * The pure checks behind the contact and newsletter forms (FormHandler.validateEmail
 * and FormHandler.validateContactForm in script.js).
 *
 * Strings are sequences of Unicode characters. Whitespace is the set JavaScript uses
 * both for the regular-expression class `\s` and for String.prototype.trim.
 */
module FormValidation {

  // ---------------------------------------------------------------------------
  // Whitespace and trimming
  // ---------------------------------------------------------------------------

  /** JavaScript's WhiteSpace and LineTerminator characters (the members of `\s`). */
  predicate IsSpace(c: char) {
    c == '\t' || c == '\n' || c == '\U{000B}' || c == '\U{000C}' || c == '\r' ||
    c == ' ' || c == '\U{00A0}' || c == '\U{1680}' ||
    ('\U{2000}' <= c <= '\U{200A}') ||
    c == '\U{2028}' || c == '\U{2029}' || c == '\U{202F}' || c == '\U{205F}' ||
    c == '\U{3000}' || c == '\U{FEFF}'
  }

  /** A field "has text" when some character of it is not whitespace. */
  predicate HasText(s: string) {
    exists k | 0 <= k < |s| :: !IsSpace(s[k])
  }

  /** Drops leading whitespace: what remains is a suffix that starts with a non-space. */
  function TrimStart(s: string): (r: string)
    ensures |r| <= |s| && r == s[|s| - |r|..]
    ensures forall k | 0 <= k < |s| - |r| :: IsSpace(s[k])
    ensures r == [] || !IsSpace(r[0])
  {
    if s != [] && IsSpace(s[0]) then TrimStart(s[1..]) else s
  }

  /** Drops trailing whitespace: what remains is a prefix that ends with a non-space. */
  function TrimEnd(s: string): (r: string)
    ensures |r| <= |s| && r == s[..|r|]
    ensures forall k | |r| <= k < |s| :: IsSpace(s[k])
    ensures r == [] || !IsSpace(r[|r| - 1])
  {
    if s != [] && IsSpace(s[|s| - 1]) then TrimEnd(s[..|s| - 1]) else s
  }

  /**
   * String.prototype.trim: the contiguous slice of `s` left once the whitespace at
   * both ends is gone; it neither starts nor ends with whitespace.
   */
  function Trim(s: string): (r: string)
    ensures exists i, j | 0 <= i <= j <= |s| ::
      r == s[i..j] &&
      (forall k | 0 <= k < i :: IsSpace(s[k])) &&
      (forall k | j <= k < |s| :: IsSpace(s[k]))
    ensures r == [] || (!IsSpace(r[0]) && !IsSpace(r[|r| - 1]))
  {
    var t := TrimStart(s);
    var r := TrimEnd(t);
    var i := |s| - |t|;
    assert r == s[i..i + |r|];
    r
  }

  /** `!field.trim()` in JavaScript: trimming leaves the empty string exactly when the field has no text. */
  lemma TrimEmptyIffNoText(s: string)
    ensures Trim(s) == [] <==> !HasText(s)
  {
  }

  // ---------------------------------------------------------------------------
  // The e-mail pattern /^[^\s@]+@[^\s@]+\.[^\s@]+$/
  // ---------------------------------------------------------------------------

  /** The character class `[^\s@]`. */
  predicate Plain(c: char) {
    !IsSpace(c) && c != '@'
  }

  predicate AllPlain(s: string) {
    forall k | 0 <= k < |s| :: Plain(s[k])
  }

  /**
   * FormHandler.validateEmail: the regular expression matches exactly when the whole
   * string splits as  local "@" domain "." tld  with three non-empty runs of `[^\s@]`.
   * The split points are the positions of that "@" and of that ".".
   */
  predicate ValidateEmail(email: string) {
    exists at, dot | 0 < at && at + 1 < dot < |email| - 1 ::
      email[at] == '@' && email[dot] == '.' &&
      AllPlain(email[..at]) && AllPlain(email[at + 1..dot]) && AllPlain(email[dot + 1..])
  }

  /** Number of occurrences of `c` in `s`. */
  function CountOf(s: string, c: char): nat {
    if s == [] then 0 else (if s[0] == c then 1 else 0) + CountOf(s[1..], c)
  }

  /** Position of the first `c` in `s`, or |s| when there is none. */
  function IndexOf(s: string, c: char): (i: nat)
    ensures i <= |s|
    ensures i < |s| ==> s[i] == c
    ensures forall k | 0 <= k < i :: s[k] != c
  {
    if s == [] then 0 else if s[0] == c then 0 else 1 + IndexOf(s[1..], c)
  }

  predicate NoSpace(s: string) {
    forall k | 0 <= k < |s| :: !IsSpace(s[k])
  }

  /** Some "." of `d` is neither its first nor its last character. */
  predicate HasInnerDot(d: string) {
    exists k | 0 < k < |d| - 1 :: d[k] == '.'
  }

  lemma {:induction false} CountOfAppend(a: string, b: string, c: char)
    ensures CountOf(a + b, c) == CountOf(a, c) + CountOf(b, c)
  {
    if a != [] {
      assert (a + b)[0] == a[0] && (a + b)[1..] == a[1..] + b;
      CountOfAppend(a[1..], b, c);
    } else {
      assert a + b == b;
    }
  }

  lemma {:induction false} CountOfAbsent(s: string, c: char)
    requires forall k | 0 <= k < |s| :: s[k] != c
    ensures CountOf(s, c) == 0
  {
    if s != [] {
      CountOfAbsent(s[1..], c);
    }
  }

  lemma {:induction false} CountOfPresent(s: string, c: char, a: nat)
    requires a < |s| && s[a] == c
    ensures CountOf(s, c) >= 1
  {
    if a > 0 {
      CountOfPresent(s[1..], c, a - 1);
    }
  }

  lemma {:induction false} CountOfTwo(s: string, c: char, a: nat, b: nat)
    requires a < b < |s| && s[a] == c && s[b] == c
    ensures CountOf(s, c) >= 2
  {
    if a == 0 {
      CountOfPresent(s[1..], c, b - 1);
    } else {
      CountOfTwo(s[1..], c, a - 1, b - 1);
    }
  }

  /** Position `at` is the only "@" of `email` when every other character is in `[^\s@]`. */
  lemma {:induction false} SingleAt(email: string, at: nat)
    requires at < |email| && email[at] == '@'
    requires AllPlain(email[..at]) && AllPlain(email[at + 1..])
    ensures CountOf(email, '@') == 1 && IndexOf(email, '@') == at
  {
    assert email == email[..at] + [email[at]] + email[at + 1..];
    CountOfAppend(email[..at] + [email[at]], email[at + 1..], '@');
    CountOfAppend(email[..at], [email[at]], '@');
    CountOfAbsent(email[..at], '@');
    CountOfAbsent(email[at + 1..], '@');
  }

  /** Every match of the pattern is an address in the plain terms of EmailInPlainTerms. */
  lemma MatchInPlainTerms(email: string, at: nat, dot: nat)
    requires 0 < at && at + 1 < dot < |email| - 1
    requires email[at] == '@' && email[dot] == '.'
    requires AllPlain(email[..at]) && AllPlain(email[at + 1..dot]) && AllPlain(email[dot + 1..])
    ensures NoSpace(email) && CountOf(email, '@') == 1 && IndexOf(email, '@') == at
    ensures HasInnerDot(email[at + 1..])
  {
    forall k | 0 <= k < |email| ensures !IsSpace(email[k]) && (k != at ==> email[k] != '@') {
      if k < at {
        assert email[k] == email[..at][k];
      } else if at < k < dot {
        assert email[k] == email[at + 1..dot][k - at - 1];
      } else if dot < k {
        assert email[k] == email[dot + 1..][k - dot - 1];
      }
    }
    SingleAt(email, at);
    var d := email[at + 1..];
    assert d[dot - at - 1] == '.';
  }

  /** Conversely, an address in plain terms matches the pattern. */
  lemma PlainTermsMatch(email: string)
    requires NoSpace(email) && CountOf(email, '@') == 1
    requires 0 < IndexOf(email, '@') < |email| && HasInnerDot(email[IndexOf(email, '@') + 1..])
    ensures ValidateEmail(email)
  {
    var i := IndexOf(email, '@');
    var d := email[i + 1..];
    var k :| 0 < k < |d| - 1 && d[k] == '.';
    var dot := i + 1 + k;
    assert email[dot] == '.';
    forall n | 0 <= n < |email| && n != i ensures Plain(email[n]) {
      if i < n && email[n] == '@' {
        CountOfTwo(email, '@', i, n);
      }
    }
    assert AllPlain(email[..i]);
    assert AllPlain(email[i + 1..dot]);
    assert AllPlain(email[dot + 1..]);
  }

  /**
   * The pattern in plain terms: no whitespace anywhere, exactly one "@", something
   * before it, and a "." after it that is neither the first nor the last character
   * of the part after the "@".
   */
  lemma EmailInPlainTerms(email: string)
    ensures ValidateEmail(email) <==>
      NoSpace(email) && CountOf(email, '@') == 1 &&
      0 < IndexOf(email, '@') < |email| && HasInnerDot(email[IndexOf(email, '@') + 1..])
  {
    if ValidateEmail(email) {
      var at, dot :| 0 < at && at + 1 < dot < |email| - 1 &&
        email[at] == '@' && email[dot] == '.' &&
        AllPlain(email[..at]) && AllPlain(email[at + 1..dot]) && AllPlain(email[dot + 1..]);
      MatchInPlainTerms(email, at, dot);
    }
    if NoSpace(email) && CountOf(email, '@') == 1 &&
       0 < IndexOf(email, '@') < |email| && HasInnerDot(email[IndexOf(email, '@') + 1..]) {
      PlainTermsMatch(email);
    }
  }

  /** Example addresses the pattern accepts. */
  lemma EmailAccepted()
    ensures ValidateEmail("x@y.com")
    ensures ValidateEmail("a@b.co")
  {
    var s := "x@y.com";
    assert AllPlain(s[..1]) && AllPlain(s[2..3]) && AllPlain(s[4..]);
    assert 0 < 1 && 1 + 1 < 3 < |s| - 1 && s[1] == '@' && s[3] == '.';
    var t := "a@b.co";
    assert AllPlain(t[..1]) && AllPlain(t[2..3]) && AllPlain(t[4..]);
    assert 0 < 1 && 1 + 1 < 3 < |t| - 1 && t[1] == '@' && t[3] == '.';
  }

  /**
   * Example addresses the pattern rejects: "x@y" has no dot-segment after the domain,
   * and "not-an-email" has no "@".
   */
  lemma EmailRejected()
    ensures !ValidateEmail("x@y")
    ensures !ValidateEmail("not-an-email")
  {
  }

  // ---------------------------------------------------------------------------
  // The contact form
  // ---------------------------------------------------------------------------

  /** The four named fields of the contact form, as submitted. */
  datatype ContactForm = ContactForm(name: string, email: string, subject: string, message: string)

  /** Outcome of FormHandler.validateContactForm: the first failure's user-facing message, if any. */
  datatype Validation = Passed | Failed(reason: string)

  const NameMissing: string := "Please enter your name."
  const EmailInvalid: string := "Please enter a valid email address."
  const SubjectMissing: string := "Please enter a subject."
  const MessageMissing: string := "Please enter your message."

  /**
   * FormHandler.validateContactForm: name, email, subject and message are checked in
   * that order and only the first failure is reported.
   */
  function ValidateContactForm(data: ContactForm): (r: Validation)
    ensures r == Passed <==>
      HasText(data.name) && ValidateEmail(data.email) && HasText(data.subject) && HasText(data.message)
    ensures r == Failed(NameMissing) <==> !HasText(data.name)
    ensures r == Failed(EmailInvalid) <==> HasText(data.name) && !ValidateEmail(data.email)
    ensures r == Failed(SubjectMissing) <==>
      HasText(data.name) && ValidateEmail(data.email) && !HasText(data.subject)
    ensures r == Failed(MessageMissing) <==>
      HasText(data.name) && ValidateEmail(data.email) && HasText(data.subject) && !HasText(data.message)
    ensures r.Failed? ==> r.reason in {NameMissing, EmailInvalid, SubjectMissing, MessageMissing}
  {
    TrimEmptyIffNoText(data.name);
    TrimEmptyIffNoText(data.subject);
    TrimEmptyIffNoText(data.message);
    if Trim(data.name) == [] then Failed(NameMissing)
    else if !ValidateEmail(data.email) then Failed(EmailInvalid)
    else if Trim(data.subject) == [] then Failed(SubjectMissing)
    else if Trim(data.message) == [] then Failed(MessageMissing)
    else Passed
  }

  /** Example forms: a missing name, a malformed address, and a complete form. */
  lemma ContactFormNameMissing()
    ensures ValidateContactForm(ContactForm("", "a@b.co", "s", "m")) == Failed(NameMissing)
  {
  }

  lemma ContactFormEmailInvalid()
    ensures ValidateContactForm(ContactForm("A", "not-an-email", "s", "m")) == Failed(EmailInvalid)
  {
    EmailRejected();
    assert !IsSpace("A"[0]);
  }

  lemma ContactFormPassed()
    ensures ValidateContactForm(ContactForm("A", "a@b.co", "s", "m")) == Passed
  {
    EmailAccepted();
    assert !IsSpace("A"[0]) && !IsSpace("s"[0]) && !IsSpace("m"[0]);
  }
}
