/** The validation rules the services and the client use, with the meaning
    their libraries give them: FluentValidation's `NotEmpty`, `MaximumLength`,
    `MinimumLength`, `EmailAddress` and single-class `Matches`, and the
    DataAnnotations attributes `[Required]`, `[StringLength]`, `[MaxLength]`,
    `[EmailAddress]` and `[RegularExpression]`. A rule other than `NotEmpty`
    or `[Required]` lets a null value pass. */
module Rules {
  import opened Wrappers
  import opened Text

  /** `NotEmpty()` on a string, and `[Required]` (which does not allow empty
      strings): null, "" and white space only are rejected. */
  predicate NotEmpty(s: Option<string>) {
    !IsNullOrWhiteSpace(s)
  }

  /** `MaximumLength(n)` and `[MaxLength(n)]`. */
  predicate MaximumLength(s: Option<string>, n: nat) {
    s.None? || |s.value| <= n
  }

  /** `MinimumLength(n)`. */
  predicate MinimumLength(s: Option<string>, n: nat) {
    s.None? || |s.value| >= n
  }

  /** `[StringLength(max, MinimumLength = min)]`. */
  predicate StringLength(s: Option<string>, min: nat, max: nat) {
    s.None? || min <= |s.value| <= max
  }

  /** A string that `NotEmpty` accepts holds at least one non-white-space character. */
  lemma NotEmptyMeans(s: Option<string>)
    ensures NotEmpty(s) <==> s.Some? && exists i :: 0 <= i < |s.value| && !IsWhiteSpace(s.value[i])
  {
  }

  /** The e-mail check of both FluentValidation's default `EmailAddress()` and
      `[EmailAddress]`: the first '@' is neither the first nor the last
      character and is also the last '@'. */
  predicate EmailShape(s: string) {
    var first := IndexOf(s, '@');
    first.Some? && first.value > 0 && first.value != |s| - 1 && LastIndexOf(s, '@') == first
  }

  predicate IsEmailAddress(s: Option<string>) {
    s.None? || EmailShape(s.value)
  }

  /** The e-mail check holds exactly when the text holds one '@' and it stands
      strictly inside the text. */
  lemma EmailShapeMeans(s: string)
    ensures EmailShape(s) <==>
      exists i :: 0 < i < |s| - 1 && s[i] == '@' && (forall j :: 0 <= j < |s| && s[j] == '@' ==> j == i)
  {
    if EmailShape(s) {
      var i := IndexOf(s, '@').value;
      assert forall j :: 0 <= j < |s| && s[j] == '@' ==> j == i;
    }
    if exists i :: 0 < i < |s| - 1 && s[i] == '@' && (forall j :: 0 <= j < |s| && s[j] == '@' ==> j == i) {
      var i :| 0 < i < |s| - 1 && s[i] == '@' && (forall j :: 0 <= j < |s| && s[j] == '@' ==> j == i);
      assert '@' in s;
      assert IndexOf(s, '@') == Some(i);
      assert LastIndexOf(s, '@') == Some(i);
    }
  }

  predicate IsAsciiUpper(c: char) { 'A' <= c <= 'Z' }

  predicate IsSpecial(c: char) {
    c == '!' || c == '@' || c == '#' || c == '$' || c == '%' || c == '^' || c == '&' || c == '*'
  }

  /** `Matches(@"[A-Z]")`: null passes. */
  predicate HasUpper(s: Option<string>) {
    s.None? || exists i :: 0 <= i < |s.value| && IsAsciiUpper(s.value[i])
  }

  /** `Matches(@"[0-9]")`: null passes. */
  predicate HasDigit(s: Option<string>) {
    s.None? || exists i :: 0 <= i < |s.value| && IsDigit(s.value[i])
  }

  /** `Matches(@"[!@#$%^&*]")`: null passes. */
  predicate HasSpecial(s: Option<string>) {
    s.None? || exists i :: 0 <= i < |s.value| && IsSpecial(s.value[i])
  }

  /** `[RegularExpression(@"^(?=.*[A-Z])(?=.*[0-9])(?=.*[!@#$%^&*]).+$")]`. The
      attribute passes null and "" and otherwise wants a match of the whole
      text. `.` does not match a line feed, so a text holding one never matches
      in full; without one, the three look-aheads see the whole text. */
  predicate StrongPasswordPattern(s: Option<string>) {
    s.None? || s.value == "" || ('\n' !in s.value && HasUpper(s) && HasDigit(s) && HasSpecial(s))
  }
}
