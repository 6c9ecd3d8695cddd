/**
 * The concrete cases of tests/utils/validation.test.ts, and the seeded
 * password of prisma/seed.ts checked against the login form's validator.
 */
module ValidationExamples {
  import opened Wrappers
  import opened JsStrings
  import opened Validation

  lemma ExampleLocalParts()
    ensures IsLocalPart("test") && IsLocalPart("user.name") && IsLocalPart("user+tag")
    ensures IsLocalPart("123") && IsLocalPart("Test")
  {
  }

  lemma ExampleLabels()
    ensures IsLabel("example") && IsLabel("com") && IsLabel("co") && IsLabel("uk")
    ensures IsLabel("Example") && IsLabel("COM")
  {
  }

  /** `local@a.b` is accepted when its parts are. */
  lemma AcceptsTwoLabels(local: string, a: string, b: string)
    requires IsLocalPart(local) && IsLabel(a) && IsLabel(b)
    requires |local| + |a| + |b| + 2 <= 254
    ensures ValidateEmail(local + "@" + a + "." + b) == None
  {
    assert local + "@" + Join([a, b], '.') == local + "@" + a + "." + b by {
      assert Join([a, b], '.') == a + "." + b;
    }
    EmailFromParts(local, [a, b]);
  }

  /** `local@a.b.c` is accepted when its parts are. */
  lemma AcceptsThreeLabels(local: string, a: string, b: string, c: string)
    requires IsLocalPart(local) && IsLabel(a) && IsLabel(b) && IsLabel(c)
    requires |local| + |a| + |b| + |c| + 3 <= 254
    ensures ValidateEmail(local + "@" + a + "." + b + "." + c) == None
  {
    assert local + "@" + Join([a, b, c], '.') == local + "@" + a + "." + b + "." + c by {
      assert Join([b, c], '.') == b + "." + c;
      assert [a, b, c][1..] == [b, c];
      assert Join([a, b, c], '.') == a + "." + (b + "." + c);
    }
    EmailFromParts(local, [a, b, c]);
  }

  lemma PlainAddressSpelling()
    ensures "test" + "@" + "example" + "." + "com" == "test@example.com"
  {
  }

  lemma AcceptsPlainAddress()
    ensures ValidateEmail("test@example.com") == None
  {
    ExampleLocalParts();
    ExampleLabels();
    AcceptsTwoLabels("test", "example", "com");
    PlainAddressSpelling();
  }

  lemma DottedLocalPartSpelling()
    ensures "user.name" + "@" + "example" + "." + "com" == "user.name@example.com"
  {
  }

  lemma AcceptsDottedLocalPart()
    ensures ValidateEmail("user.name@example.com") == None
  {
    ExampleLocalParts();
    ExampleLabels();
    AcceptsTwoLabels("user.name", "example", "com");
    DottedLocalPartSpelling();
  }

  lemma TaggedAddressSpelling()
    ensures "user+tag" + "@" + "example" + "." + "co" + "." + "uk" == "user+tag@example.co.uk"
  {
  }

  lemma AcceptsTaggedAddress()
    ensures ValidateEmail("user+tag@example.co.uk") == None
  {
    ExampleLocalParts();
    ExampleLabels();
    AcceptsThreeLabels("user+tag", "example", "co", "uk");
    TaggedAddressSpelling();
  }

  lemma NumericLocalPartSpelling()
    ensures "123" + "@" + "example" + "." + "com" == "123@example.com"
  {
  }

  lemma AcceptsNumericLocalPart()
    ensures ValidateEmail("123@example.com") == None
  {
    ExampleLocalParts();
    ExampleLabels();
    AcceptsTwoLabels("123", "example", "com");
    NumericLocalPartSpelling();
  }

  lemma MixedCaseSpelling()
    ensures "Test" + "@" + "Example" + "." + "COM" == "Test@Example.COM"
  {
  }

  /** Upper-case letters are in both character classes of the regex. */
  lemma AcceptsMixedCase()
    ensures ValidateEmail("Test@Example.COM") == None
  {
    ExampleLocalParts();
    ExampleLabels();
    AcceptsTwoLabels("Test", "Example", "COM");
    MixedCaseSpelling();
  }

  lemma RejectsInvalidWord()
    ensures ValidateEmail("invalid") == Some("Invalid email address format")
  {
    EmailWithoutAt("invalid");
  }

  lemma RejectsNotAnEmail()
    ensures ValidateEmail("notanemail") == Some("Invalid email address format")
  {
    EmailWithoutAt("notanemail");
  }

  lemma RejectsWithoutAt()
    ensures ValidateEmail("invalid") == Some("Invalid email address format")
    ensures ValidateEmail("notanemail") == Some("Invalid email address format")
  {
    RejectsInvalidWord();
    RejectsNotAnEmail();
  }

  lemma EmptyLocalPartSpelling()
    ensures "" + "@" + "example.com" == "@example.com"
  {
  }

  lemma EmptyLocalPartParts()
    ensures ValidateEmail("" + "@" + "example.com") == Some(EmailInvalid)
  {
    EmailBadParts("", "example.com");
  }

  lemma RejectsEmptyLocalPart()
    ensures ValidateEmail("@example.com") == Some("Invalid email address format")
  {
    EmptyLocalPartSpelling();
    EmptyLocalPartParts();
  }

  lemma EmptyDomainSpelling()
    ensures "user" + "@" + "" == "user@"
  {
  }

  lemma EmptyDomainParts()
    ensures ValidateEmail("user" + "@" + "") == Some(EmailInvalid)
  {
    assert !AllLabels(Split("", '.')) by { assert !IsLabel(Split("", '.')[0]); }
    EmailBadParts("user", "");
  }

  lemma RejectsEmptyDomain()
    ensures ValidateEmail("user@") == Some("Invalid email address format")
  {
    EmptyDomainSpelling();
    EmptyDomainParts();
  }

  lemma SpaceInLocalPartSpelling()
    ensures "user " + "@" + "example.com" == "user @example.com"
  {
  }

  lemma SpaceInLocalPartParts()
    ensures ValidateEmail("user " + "@" + "example.com") == Some(EmailInvalid)
  {
    assert !IsLocalChar("user "[4]);
    EmailBadParts("user ", "example.com");
  }

  lemma RejectsSpaceInLocalPart()
    ensures ValidateEmail("user @example.com") == Some("Invalid email address format")
  {
    SpaceInLocalPartSpelling();
    SpaceInLocalPartParts();
  }

  lemma EmptyLabelSpelling()
    ensures "user" + "@" + ".com" == "user@.com"
  {
  }

  lemma LeadingDotSplit()
    ensures !AllLabels(Split(".com", '.'))
  {
    SplitAppend("", '.', "com");
    assert "" + ['.'] + "com" == ".com";
    assert Split(".com", '.')[0] == "";
  }

  lemma EmptyLabelParts()
    ensures ValidateEmail("user" + "@" + ".com") == Some(EmailInvalid)
  {
    LeadingDotSplit();
    EmailBadParts("user", ".com");
  }

  lemma RejectsEmptyLabel()
    ensures ValidateEmail("user@.com") == Some("Invalid email address format")
  {
    EmptyLabelSpelling();
    EmptyLabelParts();
  }

  lemma RejectsEmptyEmail()
    ensures ValidateEmail("") == Some("Email is required")
  {
  }

  lemma AcceptsPassword1()
    ensures ValidatePassword("Password123!") == None
  {
    var p := "Password123!";
    assert IsAsciiUpper(p[0]) && IsAsciiLower(p[1]) && IsAsciiDigit(p[8]) && IsPasswordSpecial(p[11]);
  }

  lemma AcceptsPassword2()
    ensures ValidatePassword("SuperSecure1@") == None
  {
    var p := "SuperSecure1@";
    assert IsAsciiUpper(p[0]) && IsAsciiLower(p[1]) && IsAsciiDigit(p[11]) && IsPasswordSpecial(p[12]);
  }

  lemma AcceptsPassword3()
    ensures ValidatePassword("MyP@ssw0rd") == None
  {
    var p := "MyP@ssw0rd";
    assert IsAsciiUpper(p[0]) && IsAsciiLower(p[1]) && IsAsciiDigit(p[7]) && IsPasswordSpecial(p[3]);
  }

  lemma AcceptsPassword4()
    ensures ValidatePassword("Test1234#") == None
  {
    var p := "Test1234#";
    assert IsAsciiUpper(p[0]) && IsAsciiLower(p[1]) && IsAsciiDigit(p[4]) && IsPasswordSpecial(p[8]);
  }

  lemma RejectsShortPassword()
    ensures ValidatePassword("Pass1!") == Some("Password must be at least 8 characters long")
  {
  }

  lemma RejectsEmptyPassword()
    ensures ValidatePassword("") == Some("Password is required")
  {
  }

  lemma RejectsPasswordWithoutUpper()
    ensures ValidatePassword("password123!") == Some(PasswordWeak)
  {
  }

  lemma NoLowerInUpperPassword()
    ensures !HasLower("PASSWORD123!")
  {
    var p := "PASSWORD123!";
    forall i | 0 <= i < |p| ensures !IsAsciiLower(p[i]) {
    }
  }

  lemma RejectsPasswordWithoutLower()
    ensures ValidatePassword("PASSWORD123!") == Some(PasswordWeak)
  {
    NoLowerInUpperPassword();
  }

  lemma RejectsPasswordWithoutDigit()
    ensures ValidatePassword("Password!") == Some(PasswordWeak)
  {
  }

  lemma NoSpecialInAlnumPassword()
    ensures !HasSpecial("Password123")
  {
    var p := "Password123";
    assert forall i | 0 <= i < |p| :: IsAsciiAlnum(p[i]);
    forall i | 0 <= i < |p| ensures !IsPasswordSpecial(p[i]) {
      if IsPasswordSpecial(p[i]) {
        SpecialIsNotAlnum(p[i]);
      }
    }
  }

  lemma RejectsPasswordWithoutSpecial()
    ensures ValidatePassword("Password123") == Some(PasswordWeak)
  {
    NoSpecialInAlnumPassword();
  }

  /**
   * The seeded accounts' password has no upper-case letter and no special
   * character, so the login form's own validator turns it away before any
   * credential check.
   */
  lemma SeedPasswordFailsLoginValidation()
    ensures ValidatePassword("password123") == Some(PasswordWeak)
  {
  }
}
