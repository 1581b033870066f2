/** The validator examples of the repository's unit tests, stated as lemmas about the model. */
module UtilsExamples {
  import opened Wrappers
  import opened Arrays
  import opened Utils

  /** An address built from a plain local part, an '@' and a plain dotted domain is valid. */
  lemma EmailOfParts(local: string, domain: string)
    requires local != [] && AllPlain(local) && AllPlain(domain) && HasInnerDot(domain)
    ensures IsValidEmail(local + "@" + domain)
  {
    var s := local + "@" + domain;
    var k := |local|;
    AllAt(local, IsPlain);
    assert s[..k] == local && s[k + 1..] == domain;
    assert IsAt(s[k]);
    assert forall j | 0 <= j < k :: s[j] == local[j];
    assert FirstIndex(s, IsAt) == Some(k);
  }

  /** A number made of an optional '+' and a run of phone characters with ten digits is valid. */
  lemma PhoneOfParts(plus: string, body: string)
    requires plus == "" || plus == "+"
    requires body != [] && All(body, IsPhoneChar) && DigitCount(plus + body) >= 10
    ensures IsValidPhone(plus + body)
  {
    AllAt(body, IsPhoneChar);
    assert (plus + body)[|plus|..] == body;
  }

  // The valid addresses of the tests, each written as its local part, '@' and domain.

  lemma ValidEmailExample()
    ensures IsValidEmail("test" + "@" + "example.com")
  {
    assert AllPlain("test") && AllPlain("example.com");
    assert "example.com"[7] == '.';
    EmailOfParts("test", "example.com");
  }

  lemma ValidDottedEmailExample()
    ensures IsValidEmail("user.name" + "@" + "domain.co.uk")
  {
    assert AllPlain("user.name") && AllPlain("domain.co.uk");
    assert "domain.co.uk"[6] == '.';
    EmailOfParts("user.name", "domain.co.uk");
  }

  lemma ValidTaggedEmailExample()
    ensures IsValidEmail("user+tag" + "@" + "example.com")
  {
    assert AllPlain("user+tag") && AllPlain("example.com");
    assert "example.com"[7] == '.';
    EmailOfParts("user+tag", "example.com");
  }

  lemma InvalidEmailWithoutAt()
    ensures !IsValidEmail("")
    ensures !IsValidEmail("invalid")
  {
    assert FirstIndex("", IsAt) == None;
    assert FirstIndex("invalid", IsAt) == None by {
      var s := "invalid";
      assert forall i | 0 <= i < |s| :: !IsAt(s[i]);
    }
  }

  lemma InvalidEmailWithoutDomain()
    ensures !IsValidEmail("invalid@")
  {
    var s := "invalid@";
    assert FirstIndex(s, IsAt) == Some(7) by {
      assert IsAt(s[7]);
      assert forall i | 0 <= i < 7 :: !IsAt(s[i]);
    }
    assert s[8..] == "";
  }

  lemma InvalidEmailEndingInAt()
    ensures !IsValidEmail("user@")
  {
    var s := "user@";
    assert FirstIndex(s, IsAt) == Some(4) by {
      assert IsAt(s[4]);
      assert forall i | 0 <= i < 4 :: !IsAt(s[i]);
    }
    assert s[5..] == "";
  }

  lemma InvalidEmailWithoutLocalPart()
    ensures !IsValidEmail("@example.com")
  {
    assert FirstIndex("@example.com", IsAt) == Some(0) by {
      assert IsAt("@example.com"[0]);
    }
  }

  /** Fewer than ten characters can never hold ten digits. */
  lemma ShortPhoneInvalid(s: string)
    requires |s| < 10
    ensures !IsValidPhone(s)
  {
    if IsValidPhone(s) {
      ValidPhoneShape(s);
    }
  }

  lemma ValidPhoneExample()
    ensures IsValidPhone("1234567890")
    ensures IsValidPhone("12345678901")
  {
    var a, b := "12345", "67890";
    assert "" + (a + b) == a + b == "1234567890";
    assert "" + (a + b + "1") == a + b + "1" == "12345678901";
    assert All(a, IsPhoneChar) && All(b, IsPhoneChar) && All("1", IsPhoneChar);
    AllConcat(a, b, IsPhoneChar);
    AllConcat(a + b, "1", IsPhoneChar);
    assert DigitCount(a) == 5 && DigitCount(b) == 5 && DigitCount("1") == 1;
    DigitCountConcat(a, b);
    DigitCountConcat(a + b, "1");
    PhoneOfParts("", a + b);
    PhoneOfParts("", a + b + "1");
  }

  lemma ValidParenthesisedPhoneExample()
    ensures IsValidPhone("(123) 456-7890")
  {
    var a, b := "(123) ", "456-7890";
    assert "" + (a + b) == a + b == "(123) 456-7890";
    assert All(a, IsPhoneChar) && All(b, IsPhoneChar);
    AllConcat(a, b, IsPhoneChar);
    assert DigitCount(a) == 3 && DigitCount(b) == 7;
    DigitCountConcat(a, b);
    PhoneOfParts("", a + b);
  }

  lemma ValidCountryCodePhoneExample()
    ensures IsValidPhone("+91 1234567890")
  {
    var a, b := "91 ", "1234567890";
    assert "+" + (a + b) == "+91 1234567890";
    assert All(a, IsPhoneChar) && All(b, IsPhoneChar);
    AllConcat(a, b, IsPhoneChar);
    assert DigitCount("+") == 0 && DigitCount(a) == 2 && DigitCount(b) == 10;
    DigitCountConcat(a, b);
    DigitCountConcat("+", a + b);
    PhoneOfParts("+", a + b);
  }

  lemma ValidDashedPhoneExample()
    ensures IsValidPhone("+1-234-567-8900")
  {
    var a, b := "1-234-", "567-8900";
    assert "+" + (a + b) == "+1-234-567-8900";
    assert All(a, IsPhoneChar) && All(b, IsPhoneChar);
    AllConcat(a, b, IsPhoneChar);
    assert DigitCount("+") == 0 && DigitCount(a) == 4 && DigitCount(b) == 7;
    DigitCountConcat(a, b);
    DigitCountConcat("+", a + b);
    PhoneOfParts("+", a + b);
  }

  lemma InvalidPhoneExamples()
    ensures !IsValidPhone("123")
    ensures !IsValidPhone("12345")
    ensures !IsValidPhone("")
    ensures !IsValidPhone("abcdefghij")
  {
    ShortPhoneInvalid("123");
    ShortPhoneInvalid("12345");
    ShortPhoneInvalid("");
    var s := "abcdefghij";
    assert s[0] == 'a' && !IsPhoneChar(s[0]);
    if IsValidPhone(s) {
      ValidPhoneShape(s);
    }
  }
}
