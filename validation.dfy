/**
 * The form validators of app/utils/validation.ts. Each maps a string to
 * `None` (JavaScript `undefined`: no error) or `Some(message)`, running a
 * fixed chain of guards and returning the message of the first one that
 * fails. The `typeof x !== "string"` guards are unreachable for string
 * inputs and are not modelled.
 */
module Validation {
  import opened Wrappers
  import opened JsStrings

  // ---------------------------------------------------------------------------
  // EMAIL_REGEX

  /** The local-part class `[a-zA-Z0-9.!#$%&'*+/=?^_`{|}~-]`. */
  predicate IsLocalChar(c: char) {
    IsAsciiAlnum(c) || c in ".!#$%&'*+/=?^_`{|}~-"
  }

  lemma LocalCharIsNotSpace(c: char)
    requires IsLocalChar(c)
    ensures !IsSpace(c)
  {
  }

  /** `[a-zA-Z0-9-]` */
  predicate IsLabelChar(c: char) {
    IsAsciiAlnum(c) || c == '-'
  }

  /** `[a-zA-Z0-9.!#$%&'*+/=?^_`{|}~-]+` */
  predicate IsLocalPart(s: string) {
    |s| >= 1 && forall i :: 0 <= i < |s| ==> IsLocalChar(s[i])
  }

  /**
   * `[a-zA-Z0-9](?:[a-zA-Z0-9-]{0,61}[a-zA-Z0-9])?`: one to 63 letters,
   * digits and hyphens, starting and ending with a letter or digit.
   */
  predicate IsLabel(s: string) {
    && 1 <= |s| <= 63
    && (forall i :: 0 <= i < |s| ==> IsLabelChar(s[i]))
    && IsAsciiAlnum(s[0]) && IsAsciiAlnum(s[|s| - 1])
  }

  predicate AllLabels(labels: seq<string>) {
    forall i :: 0 <= i < |labels| ==> IsLabel(labels[i])
  }

  /**
   * The language of EMAIL_REGEX, read off its structure: a local part, `@`,
   * then one label followed by any number of `.label` groups, anchored at
   * both ends.
   */
  ghost predicate MatchesEmailRegex(s: string) {
    exists local: string, labels: seq<string> ::
      && IsLocalPart(local) && |labels| >= 1 && AllLabels(labels)
      && s == local + "@" + Join(labels, '.')
  }

  /** The executable test: split at `@` and at `.`, and check the pieces. */
  predicate IsEmailFormat(s: string) {
    var parts := Split(s, '@');
    |parts| == 2 && IsLocalPart(parts[0]) && AllLabels(Split(parts[1], '.'))
  }

  /** The executable test and the regex accept the same strings. */
  lemma {:induction false} EmailFormatIsRegex(s: string)
    ensures IsEmailFormat(s) <==> MatchesEmailRegex(s)
  {
    if IsEmailFormat(s) {
      var parts := Split(s, '@');
      var labels := Split(parts[1], '.');
      JoinSplit(s, '@');
      JoinSplit(parts[1], '.');
      assert s == parts[0] + "@" + Join(labels, '.');
    }
    if MatchesEmailRegex(s) {
      var local: string, labels: seq<string> :|
        && IsLocalPart(local) && |labels| >= 1 && AllLabels(labels)
        && s == local + "@" + Join(labels, '.');
      var domain := Join(labels, '.');
      assert '@' !in local;
      forall i | 0 <= i < |labels| ensures '.' !in labels[i] && '@' !in labels[i] {
        assert IsLabel(labels[i]);
      }
      SplitJoin(labels, '.');
      JoinChars(labels, '.', '@');
      SplitNoSeparator(domain, '@');
      SplitAppend(local, '@', domain);
      assert s == local + ['@'] + domain;
    }
  }

  // ---------------------------------------------------------------------------
  // messages

  const EmailRequired := "Email is required"
  const EmailTooLong := "Email address is too long"
  const EmailInvalid := "Invalid email address format"

  const PasswordRequired := "Password is required"
  const PasswordTooShort := "Password must be at least 8 characters long"
  const PasswordTooLong := "Password must be less than 72 characters"
  const PasswordWeak := "Password must contain uppercase, lowercase, number, and special character"

  /** The bounds and messages of one of the trimming validators. */
  datatype TrimmedRules = TrimmedRules(
    minLength: nat, maxLength: nat,
    required: string, tooShort: string, tooLong: string, invalid: string)

  const NameRules := TrimmedRules(2, 100,
    "Name is required",
    "Name must be at least 2 characters long",
    "Name must be less than 100 characters",
    "Name contains invalid characters")

  const ProjectNameRules := TrimmedRules(3, 100,
    "Project name is required",
    "Project name must be at least 3 characters long",
    "Project name must be less than 100 characters",
    "Project name contains invalid characters")

  const ContactNameRules := TrimmedRules(2, 100,
    "Contact name is required",
    "Contact name must be at least 2 characters long",
    "Contact name must be less than 100 characters",
    "Contact name contains invalid characters")

  const NotesRules := TrimmedRules(10, 10000,
    "Notes are required",
    "Notes must be at least 10 characters long",
    "Notes must be less than 10,000 characters",
    "Notes contain invalid content")

  // ---------------------------------------------------------------------------
  // /<script|<iframe|javascript:|onerror=/i

  const ForbiddenMarkers: seq<string> := ["<script", "<iframe", "javascript:", "onerror="]

  /** The regex test: some marker occurs in the text, ignoring letter case. */
  predicate HasForbiddenMarkup(s: string) {
    exists k | 0 <= k < |ForbiddenMarkers| :: Contains(ToLowerCase(s), ForbiddenMarkers[k])
  }

  /** A marker written in any mix of letter case, anywhere in the text, is found. */
  lemma ForbiddenInAnyCase(before: string, marker: string, after: string, k: nat)
    requires k < |ForbiddenMarkers| && ToLowerCase(marker) == ForbiddenMarkers[k]
    ensures HasForbiddenMarkup(before + marker + after)
  {
    ToLowerCaseAppend(before, marker);
    ToLowerCaseAppend(before + marker, after);
    ContainsInfix(ToLowerCase(before), ForbiddenMarkers[k], ToLowerCase(after));
  }

  // ---------------------------------------------------------------------------
  // validators

  /** validateEmail */
  function ValidateEmail(email: string): (r: Option<string>)
    ensures email == "" ==> r == Some(EmailRequired)
    ensures email != "" && |Trim(email)| > 254 ==> r == Some(EmailTooLong)
    ensures email != "" && |Trim(email)| <= 254 ==>
      && (r == None <==> MatchesEmailRegex(Trim(email)))
      && (r != None ==> r == Some(EmailInvalid))
  {
    if email == "" then Some(EmailRequired)
    else
      var trimmed := Trim(email);
      if |trimmed| > 254 then Some(EmailTooLong)
      else
        EmailFormatIsRegex(trimmed);
        if !IsEmailFormat(trimmed) then Some(EmailInvalid) else None
  }

  /** `[!@#$%^&*()_+\-=\[\]{};':"\\|,.<>\/?]` */
  predicate IsPasswordSpecial(c: char) {
    c in "!@#$%^&*()_+-=[]{};':\"\\|,.<>/?"
  }

  /** No listed special character is an ASCII letter or digit. */
  lemma SpecialIsNotAlnum(c: char)
    requires IsPasswordSpecial(c)
    ensures !IsAsciiAlnum(c)
  {
  }

  predicate HasUpper(s: string) { exists i | 0 <= i < |s| :: IsAsciiUpper(s[i]) }
  predicate HasLower(s: string) { exists i | 0 <= i < |s| :: IsAsciiLower(s[i]) }
  predicate HasDigit(s: string) { exists i | 0 <= i < |s| :: IsAsciiDigit(s[i]) }
  predicate HasSpecial(s: string) { exists i | 0 <= i < |s| :: IsPasswordSpecial(s[i]) }

  /** validatePassword: not trimmed; length errors take precedence over complexity. */
  function ValidatePassword(password: string): (r: Option<string>)
    ensures password == "" ==> r == Some(PasswordRequired)
    ensures 0 < |password| < 8 ==> r == Some(PasswordTooShort)
    ensures |password| > 72 ==> r == Some(PasswordTooLong)
    ensures r == None <==>
      && 8 <= |password| <= 72
      && HasUpper(password) && HasLower(password) && HasDigit(password) && HasSpecial(password)
    ensures 8 <= |password| <= 72 && r != None ==> r == Some(PasswordWeak)
  {
    if password == "" then Some(PasswordRequired)
    else if |password| < 8 then Some(PasswordTooShort)
    else if |password| > 72 then Some(PasswordTooLong)
    else if !HasUpper(password) || !HasLower(password) || !HasDigit(password) || !HasSpecial(password)
    then Some(PasswordWeak)
    else None
  }

  /**
   * The shared shape of validateName, validateProjectName,
   * validateContactName and validateNotes: presence of the raw value, then
   * inclusive length bounds and the markup check on the trimmed value.
   */
  function ValidateTrimmed(value: string, rules: TrimmedRules): (r: Option<string>)
    ensures value == "" ==> r == Some(rules.required)
    ensures value != "" && |Trim(value)| < rules.minLength ==> r == Some(rules.tooShort)
    ensures value != "" && rules.minLength <= |Trim(value)| && |Trim(value)| > rules.maxLength
      ==> r == Some(rules.tooLong)
    ensures value != "" && rules.minLength <= |Trim(value)| <= rules.maxLength
      ==> r == (if HasForbiddenMarkup(Trim(value)) then Some(rules.invalid) else None)
  {
    if value == "" then Some(rules.required)
    else
      var trimmed := Trim(value);
      if |trimmed| < rules.minLength then Some(rules.tooShort)
      else if |trimmed| > rules.maxLength then Some(rules.tooLong)
      else if HasForbiddenMarkup(trimmed) then Some(rules.invalid)
      else None
  }

  /** validateName */
  function ValidateName(name: string): (r: Option<string>)
    ensures name == "" ==> r == Some("Name is required")
    ensures r == None <==> name != "" && 2 <= |Trim(name)| <= 100 && !HasForbiddenMarkup(Trim(name))
    ensures name != "" && |Trim(name)| <= 1 ==> r == Some("Name must be at least 2 characters long")
    ensures |Trim(name)| > 100 ==> r == Some("Name must be less than 100 characters")
    ensures 2 <= |Trim(name)| <= 100 && HasForbiddenMarkup(Trim(name)) ==> r == Some("Name contains invalid characters")
  {
    ValidateTrimmed(name, NameRules)
  }

  /** validateProjectName */
  function ValidateProjectName(name: string): (r: Option<string>)
    ensures name == "" ==> r == Some("Project name is required")
    ensures r == None <==> name != "" && 3 <= |Trim(name)| <= 100 && !HasForbiddenMarkup(Trim(name))
    ensures name != "" && |Trim(name)| <= 2 ==> r == Some("Project name must be at least 3 characters long")
    ensures |Trim(name)| > 100 ==> r == Some("Project name must be less than 100 characters")
    ensures 3 <= |Trim(name)| <= 100 && HasForbiddenMarkup(Trim(name)) ==> r == Some("Project name contains invalid characters")
  {
    ValidateTrimmed(name, ProjectNameRules)
  }

  /** validateContactName */
  function ValidateContactName(name: string): (r: Option<string>)
    ensures name == "" ==> r == Some("Contact name is required")
    ensures r == None <==> name != "" && 2 <= |Trim(name)| <= 100 && !HasForbiddenMarkup(Trim(name))
    ensures name != "" && |Trim(name)| <= 1 ==> r == Some("Contact name must be at least 2 characters long")
    ensures |Trim(name)| > 100 ==> r == Some("Contact name must be less than 100 characters")
    ensures 2 <= |Trim(name)| <= 100 && HasForbiddenMarkup(Trim(name)) ==> r == Some("Contact name contains invalid characters")
  {
    ValidateTrimmed(name, ContactNameRules)
  }

  /** validateNotes */
  function ValidateNotes(notes: string): (r: Option<string>)
    ensures notes == "" ==> r == Some("Notes are required")
    ensures r == None <==> notes != "" && 10 <= |Trim(notes)| <= 10000 && !HasForbiddenMarkup(Trim(notes))
    ensures notes != "" && |Trim(notes)| <= 9 ==> r == Some("Notes must be at least 10 characters long")
    ensures |Trim(notes)| > 10000 ==> r == Some("Notes must be less than 10,000 characters")
    ensures 10 <= |Trim(notes)| <= 10000 && HasForbiddenMarkup(Trim(notes)) ==> r == Some("Notes contain invalid content")
  {
    ValidateTrimmed(notes, NotesRules)
  }

  /** validateRequired: blank values are missing; the markup check sees the untrimmed value. */
  function ValidateRequired(value: string, fieldName: string): (r: Option<string>)
    ensures AllSpace(value) ==> r == Some(fieldName + " is required")
    ensures !AllSpace(value) ==> r == (if HasForbiddenMarkup(value) then Some(fieldName + " contains invalid characters") else None)
  {
    TrimEmpty(value);
    if value == "" || |Trim(value)| == 0 then Some(fieldName + " is required")
    else if HasForbiddenMarkup(value) then Some(fieldName + " contains invalid characters")
    else None
  }

  // ---------------------------------------------------------------------------
  // properties

  /** Whitespace around a non-empty value changes nothing for the trimming validators. */
  lemma {:induction false} TrimmedIgnoresPadding(lead: string, value: string, trail: string, rules: TrimmedRules)
    requires AllSpace(lead) && AllSpace(trail) && value != ""
    ensures ValidateTrimmed(lead + value + trail, rules) == ValidateTrimmed(value, rules)
  {
    TrimPadded(lead, value, trail);
    assert |lead + value + trail| >= |value|;
  }

  /** The four trimming validators give the same answer for `s` and for `s` with whitespace around it. */
  lemma {:induction false} ValidatorsIgnorePadding(lead: string, s: string, trail: string)
    requires AllSpace(lead) && AllSpace(trail) && s != ""
    ensures ValidateName(lead + s + trail) == ValidateName(s)
    ensures ValidateProjectName(lead + s + trail) == ValidateProjectName(s)
    ensures ValidateContactName(lead + s + trail) == ValidateContactName(s)
    ensures ValidateNotes(lead + s + trail) == ValidateNotes(s)
  {
    TrimmedIgnoresPadding(lead, s, trail, NameRules);
    TrimmedIgnoresPadding(lead, s, trail, ProjectNameRules);
    TrimmedIgnoresPadding(lead, s, trail, ContactNameRules);
    TrimmedIgnoresPadding(lead, s, trail, NotesRules);
  }

  /**
   * Once the trimmed length is within bounds, a marker anywhere in it, in
   * any letter case, gives the rules' invalid-content message.
   */
  lemma {:induction false} TrimmedRejectsMarkup(value: string, rules: TrimmedRules,
                                                before: string, marker: string, after: string, k: nat)
    requires Trim(value) == before + marker + after
    requires rules.minLength <= |Trim(value)| <= rules.maxLength
    requires k < |ForbiddenMarkers| && ToLowerCase(marker) == ForbiddenMarkers[k]
    ensures ValidateTrimmed(value, rules) == Some(rules.invalid)
  {
    ForbiddenInAnyCase(before, marker, after, k);
    assert value != "" by { assert |Trim(value)| >= |marker| > 0; }
  }

  /** The same for validateRequired, on the untrimmed value. */
  lemma {:induction false} RequiredRejectsMarkup(before: string, marker: string, after: string, k: nat, fieldName: string)
    requires k < |ForbiddenMarkers| && ToLowerCase(marker) == ForbiddenMarkers[k]
    ensures ValidateRequired(before + marker + after, fieldName) == Some(fieldName + " contains invalid characters")
  {
    ForbiddenInAnyCase(before, marker, after, k);
    var value := before + marker + after;
    assert !IsSpace(value[|before|]) by { assert value[|before|] == marker[0]; assert ToLowerCase(marker)[0] == ToLowerChar(marker[0]); }
  }

  /** A trimmed address of at most 254 characters without `@` is badly formed. */
  lemma {:induction false} EmailWithoutAt(email: string)
    requires email != [] && !IsSpace(email[0]) && !IsSpace(email[|email| - 1])
    requires '@' !in email && |email| <= 254
    ensures ValidateEmail(email) == Some(EmailInvalid)
  {
    TrimUnpadded(email);
    SplitNoSeparator(email, '@');
  }

  /** A local part, `@` and dot-separated labels, 254 characters at most, is accepted. */
  lemma {:induction false} EmailFromParts(local: string, labels: seq<string>)
    requires IsLocalPart(local) && |labels| >= 1 && AllLabels(labels)
    requires |local + "@" + Join(labels, '.')| <= 254
    ensures ValidateEmail(local + "@" + Join(labels, '.')) == None
  {
    var email := local + "@" + Join(labels, '.');
    EmailFromPartsUnpadded(local, labels);
    TrimUnpadded(email);
  }

  lemma EmailFromPartsUnpadded(local: string, labels: seq<string>)
    requires IsLocalPart(local) && |labels| >= 1 && AllLabels(labels)
    ensures var email := local + "@" + Join(labels, '.');
      !IsSpace(email[0]) && !IsSpace(email[|email| - 1])
  {
    var domain := Join(labels, '.');
    var email := local + "@" + domain;
    assert email[0] == local[0];
    LocalCharIsNotSpace(local[0]);
    var last := labels[|labels| - 1];
    assert IsLabel(last);
    JoinLast(labels, '.');
    assert email[|email| - 1] == last[|last| - 1];
    AlnumIsNotSpace(last[|last| - 1]);
  }

  /** Splitting at `@` separates a local part and a domain that are free of `@`. */
  lemma {:induction false} SplitAtSingleAt(local: string, domain: string)
    requires '@' !in local && '@' !in domain
    ensures Split(local + "@" + domain, '@') == [local, domain]
  {
    assert local + "@" + domain == local + ['@'] + domain;
    SplitAppend(local, '@', domain);
    SplitNoSeparator(domain, '@');
  }

  /** An address whose single `@` splits it into a bad local part or a bad domain is rejected. */
  lemma {:induction false} EmailBadParts(local: string, domain: string)
    requires '@' !in local && '@' !in domain
    requires !IsSpace((local + "@" + domain)[0]) && !IsSpace((local + "@" + domain)[|local| + |domain|])
    requires |local| + |domain| < 254
    requires !IsLocalPart(local) || !AllLabels(Split(domain, '.'))
    ensures ValidateEmail(local + "@" + domain) == Some(EmailInvalid)
  {
    var email := local + "@" + domain;
    TrimUnpadded(email);
    SplitAtSingleAt(local, domain);
    assert !IsEmailFormat(email);
  }
}
