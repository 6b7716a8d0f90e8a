/**
  The per-field validator of the report form (`_validateField`): a chain of
  checks keyed on the field name, each returning an error or nothing. The
  localized messages are abstracted to the error they report.
 */
module Validation {
  import opened Wrappers
  import opened Text

  /** The four localized error messages, by meaning. */
  datatype FieldError = InvalidEmail | Required | SelectLocation | FileTooLarge

  /** An attached file, reduced to the two properties the core reads. */
  datatype Attachment = Attachment(name: string, size: nat)

  /**
    A value handed to the validator: a string (an `undefined` form entry
    behaves as the empty string) or the content of the file slot (`File | null`).
   */
  datatype Value = StrValue(s: string) | FileValue(file: Option<Attachment>)

  /** The validator's own upper bound on an attachment: 10 * 1048576 bytes. */
  const MAX_BYTES: nat := 10 * 1048576

  /** The field names the validator has a rule for; every other name is accepted. */
  const CheckedFields: set<string> := {"email", "message", "site", "file"}

  /** The error a checked field reports when its rule fails. */
  function TagOf(name: string): FieldError
    requires name in CheckedFields
  {
    if name == "email" then InvalidEmail
    else if name == "message" then Required
    else if name == "site" then SelectLocation
    else FileTooLarge
  }

  /** `[^\s@]`: neither whitespace nor `@`. */
  predicate PlainChar(c: char) {
    c != '@' && !IsSpace(c)
  }

  /** `[^\s@]*`: no whitespace and no `@`. */
  predicate Plain(s: string) {
    forall i {:trigger PlainChar(s[i])} :: 0 <= i < |s| ==> PlainChar(s[i])
  }

  /**
    The pattern `^[^\s@]+@[^\s@]+\.[^\s@]+$` as the regular expression reads:
    a non-empty plain local part, `@`, a non-empty plain label, `.`, and a
    non-empty plain rest.
   */
  ghost predicate MatchesEmailPattern(s: string) {
    exists at, dot :: 0 < at && at + 1 < dot && dot + 1 < |s| && s[at] == '@' && s[dot] == '.'
      && Plain(s[..at]) && Plain(s[at + 1..dot]) && Plain(s[dot + 1..])
  }

  /**
    The same pattern in words: no whitespace anywhere, exactly one `@` with
    something before it, and a `.` in the part after the `@` that is neither
    that part's first nor its last character.
   */
  ghost predicate DescribedEmail(s: string) {
    && (forall i :: 0 <= i < |s| ==> !IsSpace(s[i]))
    && (exists at :: 0 < at < |s| && s[at] == '@'
         && (forall j :: 0 <= j < |s| && s[j] == '@' ==> j == at)
         && (exists dot :: at + 1 < dot < |s| - 1 && s[dot] == '.'))
  }

  /** Position of the first `c` in `s`, or `|s|` when there is none. */
  function IndexOf(s: string, c: char): (i: nat)
    ensures i <= |s|
    ensures i < |s| ==> s[i] == c
    ensures c !in s[..i]
  {
    if s == [] then 0
    else if s[0] == c then 0
    else
      var j := IndexOf(s[1..], c);
      assert s[..1 + j] == [s[0]] + s[1..][..j];
      1 + j
  }

  /** The email test as computed: split at the first `@`, both sides plain, a `.` strictly inside the domain. */
  function IsEmailAddress(s: string): (b: bool)
    ensures b ==> 5 <= |s| && '@' in s
  {
    var at := IndexOf(s, '@');
    && 0 < at < |s|
    && Plain(s[..at]) && Plain(s[at + 1..])
    && HasInnerDot(s[at + 1..])
  }

  /** A `.` that is neither the first nor the last character. */
  predicate HasInnerDot(d: string) {
    exists k | 0 < k < |d| - 1 :: d[k] == '.'
  }

  lemma PlainSlice(s: string, i: int, j: int)
    requires Plain(s) && 0 <= i <= j <= |s|
    ensures Plain(s[i..j])
  {
    forall k | 0 <= k < j - i ensures PlainChar(s[i..j][k]) {
      assert s[i..j][k] == s[i + k] && PlainChar(s[i + k]);
    }
  }

  lemma PlainRange(s: string, lo: int, hi: int)
    requires 0 <= lo <= hi <= |s|
    requires forall i :: lo <= i < hi ==> PlainChar(s[i])
    ensures Plain(s[lo..hi])
  {
    forall k | 0 <= k < hi - lo ensures PlainChar(s[lo..hi][k]) {
      assert s[lo..hi][k] == s[lo + k];
    }
  }

  /** The computed test accepts exactly the strings the regular expression matches. */
  lemma EmailCheckIsPattern(s: string)
    ensures IsEmailAddress(s) <==> MatchesEmailPattern(s)
  {
    if IsEmailAddress(s) { EmailCheckSound(s); }
    if MatchesEmailPattern(s) { EmailCheckComplete(s); }
  }

  lemma EmailCheckSound(s: string)
    requires IsEmailAddress(s)
    ensures MatchesEmailPattern(s)
  {
    var at := IndexOf(s, '@');
    var d := s[at + 1..];
    var k :| 0 < k < |d| - 1 && d[k] == '.';
    var dot := at + 1 + k;
    assert s[at + 1..dot] == d[..k] && s[dot + 1..] == d[k + 1..];
    PlainSlice(d, 0, k);
    PlainSlice(d, k + 1, |d|);
    assert d[k + 1..|d|] == d[k + 1..];
    assert s[dot] == '.';
  }

  lemma EmailCheckComplete(s: string)
    requires MatchesEmailPattern(s)
    ensures IsEmailAddress(s)
  {
    var a, dot :| 0 < a && a + 1 < dot && dot + 1 < |s| && s[a] == '@' && s[dot] == '.'
      && Plain(s[..a]) && Plain(s[a + 1..dot]) && Plain(s[dot + 1..]);
    FirstAt(s, a);
    var d := s[a + 1..];
    var k := dot - a - 1;
    assert d[..k] == s[a + 1..dot] && d[k + 1..] == s[dot + 1..];
    PlainAround(d, k);
    assert 0 < k < |d| - 1 && d[k] == '.';
    assert HasInnerDot(d);
  }

  /** A `c` with no `c` before it is where `IndexOf` stops. */
  lemma {:induction false} IndexOfFirst(s: string, c: char, a: nat)
    requires a < |s| && s[a] == c && c !in s[..a]
    ensures IndexOf(s, c) == a
    decreases a
  {
    if a > 0 {
      assert s[0] == s[..a][0];
      assert s[1..][..a - 1] == s[..a][1..];
      IndexOfFirst(s[1..], c, a - 1);
    }
  }

  /** A position holding `@` after a plain prefix is the first `@`. */
  lemma FirstAt(s: string, a: nat)
    requires a < |s| && s[a] == '@' && Plain(s[..a])
    ensures IndexOf(s, '@') == a
  {
    forall k | 0 <= k < a ensures s[..a][k] != '@' {
      assert PlainChar(s[..a][k]);
    }
    IndexOfFirst(s, '@', a);
  }

  /** Two plain pieces around a `.` make a plain string. */
  lemma PlainAround(d: string, k: nat)
    requires k < |d| && d[k] == '.' && Plain(d[..k]) && Plain(d[k + 1..])
    ensures Plain(d)
  {
    forall i | 0 <= i < |d| ensures PlainChar(d[i]) {
      if i < k { assert d[i] == d[..k][i] && PlainChar(d[..k][i]); }
      else if i > k { assert d[i] == d[k + 1..][i - k - 1] && PlainChar(d[k + 1..][i - k - 1]); }
    }
  }

  /** The regular expression, read in words, means what `DescribedEmail` says. */
  lemma EmailPatternMeaning(s: string)
    ensures MatchesEmailPattern(s) <==> DescribedEmail(s)
  {
    if MatchesEmailPattern(s) { PatternIsDescribed(s); }
    if DescribedEmail(s) { DescribedIsPattern(s); }
  }

  lemma PatternIsDescribed(s: string)
    requires MatchesEmailPattern(s)
    ensures DescribedEmail(s)
  {
    var a, dot :| 0 < a && a + 1 < dot && dot + 1 < |s| && s[a] == '@' && s[dot] == '.'
      && Plain(s[..a]) && Plain(s[a + 1..dot]) && Plain(s[dot + 1..]);
    forall j | 0 <= j < |s| && j != a ensures PlainChar(s[j]) {
      if j < a { assert s[j] == s[..a][j] && PlainChar(s[..a][j]); }
      else if j < dot { assert s[j] == s[a + 1..dot][j - a - 1] && PlainChar(s[a + 1..dot][j - a - 1]); }
      else if j > dot { assert s[j] == s[dot + 1..][j - dot - 1] && PlainChar(s[dot + 1..][j - dot - 1]); }
    }
    assert forall j :: 0 <= j < |s| && s[j] == '@' ==> j == a;
    assert forall i :: 0 <= i < |s| ==> !IsSpace(s[i]);
  }

  lemma DescribedIsPattern(s: string)
    requires DescribedEmail(s)
    ensures MatchesEmailPattern(s)
  {
    var a :| 0 < a < |s| && s[a] == '@'
      && (forall j :: 0 <= j < |s| && s[j] == '@' ==> j == a)
      && (exists dot :: a + 1 < dot < |s| - 1 && s[dot] == '.');
    var dot :| a + 1 < dot < |s| - 1 && s[dot] == '.';
    assert forall i :: 0 <= i < |s| && i != a ==> PlainChar(s[i]);
    PlainRange(s, 0, a);
    PlainRange(s, a + 1, dot);
    PlainRange(s, dot + 1, |s|);
    assert s[..a] == s[0..a] && s[dot + 1..] == s[dot + 1..|s|];
  }

  /** `value ?? ''` for the text rules; an empty file slot (`null`) reads as the empty string. */
  function AsString(v: Value): string {
    match v
    case StrValue(s) => s
    case FileValue(_) => ""
  }

  /**
    `_validateField`: only the four checked fields can fail, and a failing
    field reports its own error.
   */
  function ValidateField(name: string, v: Value): (r: Option<FieldError>)
    requires v.FileValue? && v.file.Some? ==> name == "file"
    ensures r.Some? ==> name in CheckedFields && r.value == TagOf(name)
  {
    if name == "email" then
      var s := AsString(v);
      if s != "" && !IsEmailAddress(s) then Some(InvalidEmail) else None
    else if name == "message" then
      if Trim(AsString(v)) == "" then Some(Required) else None
    else if name == "site" then
      if AsString(v) == "" then Some(SelectLocation) else None
    else if name == "file" then
      if v.FileValue? && v.file.Some? && v.file.value.size > MAX_BYTES then Some(FileTooLarge) else None
    else None
  }

  /** An empty email is accepted; a non-empty one is rejected exactly when it does not match the pattern. */
  lemma EmailRule(s: string)
    ensures ValidateField("email", StrValue(s)) ==
      (if s != "" && !MatchesEmailPattern(s) then Some(InvalidEmail) else None)
  {
    EmailCheckIsPattern(s);
  }

  /** A message is required: it fails exactly when it is whitespace only (or empty). */
  lemma MessageRule(s: string)
    ensures ValidateField("message", StrValue(s)) == (if AllSpace(s) then Some(Required) else None)
  {
  }

  /** A site must be selected: only the empty string fails, a whitespace-only site is accepted. */
  lemma SiteRule(s: string)
    ensures ValidateField("site", StrValue(s)) == (if s == "" then Some(SelectLocation) else None)
    ensures AllSpace(s) && s != "" ==> ValidateField("site", StrValue(s)).None?
  {
  }

  /** No file is fine; a file fails exactly above 10 MiB, so a file of exactly 10 MiB is accepted. */
  lemma FileRule(file: Option<Attachment>)
    ensures ValidateField("file", FileValue(file)) ==
      (if file.Some? && file.value.size > 10485760 then Some(FileTooLarge) else None)
    ensures file.Some? && file.value.size == 10485760 ==> ValidateField("file", FileValue(file)).None?
  {
  }
}
