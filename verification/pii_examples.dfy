/** The redaction examples the sanitizer's unit tests check, proved about the model. */
module PIIExamples {
  import opened Common
  import opened Regex
  import opened PIISanitizer

  lemma SanitizeExamplePlainText()
    ensures SanitizeText("Welcome to our pricing page") == "Welcome to our pricing page"
  {
    SanitizeTextIdentity("Welcome to our pricing page");
  }

  lemma CardDashedMatch8()
    ensures Match(CardPattern[8..], "Card: 4111-1111-1111-1111", 25) == Some(25)
  {
  }

  lemma CardDashedMatch7()
    ensures Match(CardPattern[7..], "Card: 4111-1111-1111-1111", 21) == Some(25)
  {
    CardDashedMatch8();
  }

  lemma CardDashedMatch6()
    ensures Match(CardPattern[6..], "Card: 4111-1111-1111-1111", 20) == Some(25)
  {
    CardDashedMatch7();
  }

  lemma CardDashedMatch5()
    ensures Match(CardPattern[5..], "Card: 4111-1111-1111-1111", 16) == Some(25)
  {
    CardDashedMatch6();
  }

  lemma CardDashedMatch4()
    ensures Match(CardPattern[4..], "Card: 4111-1111-1111-1111", 15) == Some(25)
  {
    CardDashedMatch5();
  }

  lemma CardDashedMatch3()
    ensures Match(CardPattern[3..], "Card: 4111-1111-1111-1111", 11) == Some(25)
  {
    CardDashedMatch4();
  }

  lemma CardDashedMatch2()
    ensures Match(CardPattern[2..], "Card: 4111-1111-1111-1111", 10) == Some(25)
  {
    CardDashedMatch3();
  }

  lemma CardDashedMatch1()
    ensures Match(CardPattern[1..], "Card: 4111-1111-1111-1111", 6) == Some(25)
  {
    CardDashedMatch2();
  }

  /** The dashed card number matches from index 6 to the end. */
  lemma CardDashedMatch()
    ensures Match(CardPattern, "Card: 4111-1111-1111-1111", 6) == Some(25)
  {
    CardDashedMatch1();
  }

  /** No card match starts in the label `Card: `, which holds no digit. */
  lemma CardLabelNoMatch(s: string)
    requires |s| >= 6 && s[..6] == "Card: "
    ensures forall m :: 0 <= m < 6 ==> Match(CardPattern, s, m).None?
  {
    forall m | 0 <= m < 6 ensures Match(CardPattern, s, m).None? {
      assert s[m] == "Card: "[m];
      BoundaryThenLeadMissing(CardPattern, s, m);
    }
  }

  lemma CardPassExampleCardDashed()
    ensures ReplaceAll(CardPattern, "Card: 4111-1111-1111-1111", Redaction) == "Card: [REDACTED]"
  {
    var s := "Card: 4111-1111-1111-1111";
    var p := CardPattern;
    assert s[0..6] + Redaction == "Card: [REDACTED]";
    assert ReplaceFrom(p, s, 25, Redaction) == "" by { ReplaceFromEnd(p, s, Redaction); }
    assert ReplaceFrom(p, s, 0, Redaction) == s[0..6] + Redaction + ReplaceFrom(p, s, 25, Redaction) by {
      CardDashedMatch();
      CardLabelNoMatch(s);
      ReplaceFromLeftmost(p, s, 0, 6, Redaction);
    }
  }

  lemma SanitizeExampleCardDashed()
    ensures SanitizeText("Card: 4111-1111-1111-1111") == "Card: [REDACTED]"
  {
    var s := "Card: 4111-1111-1111-1111";
    var t := "Card: [REDACTED]";
    assert ReplaceAll(CardPattern, s, Redaction) == t by { CardPassExampleCardDashed(); }
    assert ReplaceAll(EmailPattern, ReplaceAll(SsnPattern, t, Redaction), Redaction) == t by {
      RedactedCardClean();
      LaterPassesIdentity(t);
    }
  }

  lemma CardPlainMatch8()
    ensures Match(CardPattern[8..], "Card: 4111111111111111", 22) == Some(22)
  {
  }

  lemma CardPlainMatch7()
    ensures Match(CardPattern[7..], "Card: 4111111111111111", 18) == Some(22)
  {
    CardPlainMatch8();
  }

  lemma CardPlainMatch6()
    ensures Match(CardPattern[6..], "Card: 4111111111111111", 18) == Some(22)
  {
    CardPlainMatch7();
  }

  lemma CardPlainMatch5()
    ensures Match(CardPattern[5..], "Card: 4111111111111111", 14) == Some(22)
  {
    CardPlainMatch6();
  }

  lemma CardPlainMatch4()
    ensures Match(CardPattern[4..], "Card: 4111111111111111", 14) == Some(22)
  {
    CardPlainMatch5();
  }

  lemma CardPlainMatch3()
    ensures Match(CardPattern[3..], "Card: 4111111111111111", 10) == Some(22)
  {
    CardPlainMatch4();
  }

  lemma CardPlainMatch2()
    ensures Match(CardPattern[2..], "Card: 4111111111111111", 10) == Some(22)
  {
    CardPlainMatch3();
  }

  lemma CardPlainMatch1()
    ensures Match(CardPattern[1..], "Card: 4111111111111111", 6) == Some(22)
  {
    CardPlainMatch2();
  }

  /** The plain card number matches from index 6 to the end; each optional separator
      matches nothing. */
  lemma CardPlainMatch()
    ensures Match(CardPattern, "Card: 4111111111111111", 6) == Some(22)
  {
    CardPlainMatch1();
  }

  lemma CardPassExampleCardPlain()
    ensures ReplaceAll(CardPattern, "Card: 4111111111111111", Redaction) == "Card: [REDACTED]"
  {
    var s := "Card: 4111111111111111";
    var p := CardPattern;
    assert s[0..6] + Redaction == "Card: [REDACTED]";
    assert ReplaceFrom(p, s, 22, Redaction) == "" by { ReplaceFromEnd(p, s, Redaction); }
    assert ReplaceFrom(p, s, 0, Redaction) == s[0..6] + Redaction + ReplaceFrom(p, s, 22, Redaction) by {
      CardPlainMatch();
      CardLabelNoMatch(s);
      ReplaceFromLeftmost(p, s, 0, 6, Redaction);
    }
  }

  lemma SanitizeExampleCardPlain()
    ensures SanitizeText("Card: 4111111111111111") == "Card: [REDACTED]"
  {
    var s := "Card: 4111111111111111";
    var t := "Card: [REDACTED]";
    assert ReplaceAll(CardPattern, s, Redaction) == t by { CardPassExampleCardPlain(); }
    assert ReplaceAll(EmailPattern, ReplaceAll(SsnPattern, t, Redaction), Redaction) == t by {
      RedactedCardClean();
      LaterPassesIdentity(t);
    }
  }

  /** The redacted card line has no digit and no `@` left. */
  lemma RedactedCardClean()
    ensures !HasDigit("Card: [REDACTED]") && '@' !in "Card: [REDACTED]"
  {
    var t := "Card: [REDACTED]";
    forall i | 0 <= i < |t| ensures !IsAsciiDigit(t[i]) && t[i] != '@' {
    }
  }

  /** A card match spans at least sixteen characters. */
  lemma CardMinLen()
    ensures MinLen(CardPattern) == 16
  {
    var p := CardPattern;
    assert MinLen(p[8..]) == 0;
    assert MinLen(p[7..]) == 4;
    assert MinLen(p[6..]) == 4;
    assert MinLen(p[5..]) == 8;
    assert MinLen(p[4..]) == 8;
    assert MinLen(p[3..]) == 12;
    assert MinLen(p[2..]) == 12;
    assert MinLen(p[1..]) == 16;
  }

  /** No card number hides in the SSN line: a card match would need all sixteen characters. */
  lemma SsnLineHasNoCard()
    ensures ReplaceAll(CardPattern, "SSN: 123-45-6789", Redaction) == "SSN: 123-45-6789"
  {
    var s := "SSN: 123-45-6789";
    CardMinLen();
    assert Match(CardPattern[1..], s, 0) == None;
    assert Match(CardPattern, s, 0) == None;
    ReplaceFromNoMatch(CardPattern, s, 0, Redaction);
  }

  lemma SsnMatchExample()
    ensures Match(SsnPattern, "SSN: 123-45-6789", 5) == Some(16)
  {
    var s := "SSN: 123-45-6789";
    var p := SsnPattern;
    assert Match(p[6..], s, 16) == Some(16);
    assert Match(p[5..], s, 12) == Some(16);
    assert Match(p[4..], s, 11) == Some(16);
    assert Match(p[3..], s, 9) == Some(16);
    assert Match(p[2..], s, 8) == Some(16);
    assert Match(p[1..], s, 5) == Some(16);
  }

  /** No SSN match starts in the label `SSN: `, which holds no digit. */
  lemma SsnLabelNoMatch(s: string)
    requires |s| >= 5 && s[..5] == "SSN: "
    ensures forall m :: 0 <= m < 5 ==> Match(SsnPattern, s, m).None?
  {
    forall m | 0 <= m < 5 ensures Match(SsnPattern, s, m).None? {
      assert s[m] == "SSN: "[m];
      BoundaryThenLeadMissing(SsnPattern, s, m);
    }
  }

  lemma SsnPassExample()
    ensures ReplaceAll(SsnPattern, "SSN: 123-45-6789", Redaction) == "SSN: [REDACTED]"
  {
    var s := "SSN: 123-45-6789";
    var p := SsnPattern;
    assert s[0..5] + Redaction == "SSN: [REDACTED]";
    assert ReplaceFrom(p, s, 16, Redaction) == "" by { ReplaceFromEnd(p, s, Redaction); }
    assert ReplaceFrom(p, s, 0, Redaction) == s[0..5] + Redaction + ReplaceFrom(p, s, 16, Redaction) by {
      SsnMatchExample();
      SsnLabelNoMatch(s);
      ReplaceFromLeftmost(p, s, 0, 5, Redaction);
    }
  }

  /** The redacted SSN line has no `@`, so the e-mail pass leaves it alone. */
  lemma RedactedSsnNoEmail()
    ensures ReplaceAll(EmailPattern, "SSN: [REDACTED]", Redaction) == "SSN: [REDACTED]"
  {
    var t := "SSN: [REDACTED]";
    forall i | 0 <= i < |t| ensures !InClass(EmailPattern[2].cls, t[i]) {
    }
    ReplaceAllWithoutClass(EmailPattern, t, Redaction, 2);
  }

  lemma SanitizeExampleSsn()
    ensures SanitizeText("SSN: 123-45-6789") == "SSN: [REDACTED]"
  {
    var s := "SSN: 123-45-6789";
    var t := "SSN: [REDACTED]";
    assert ReplaceAll(CardPattern, s, Redaction) == s by { SsnLineHasNoCard(); }
    assert ReplaceAll(SsnPattern, s, Redaction) == t by { SsnPassExample(); }
    assert ReplaceAll(EmailPattern, t, Redaction) == t by { RedactedSsnNoEmail(); }
  }

  /** `.com` matches the dot and the top-level domain. */
  lemma EmailTopLevel()
    ensures Match(EmailPattern[4..], "Email: user@example.com", 19) == Some(23)
  {
    var s := "Email: user@example.com";
    var p := EmailPattern;
    assert Match(p[6..], s, 23) == Some(23);
    assert Match(p[5..], s, 20) == Some(23);
  }

  /** The domain part backtracks from the end of the text to the last dot. */
  lemma EmailDomainBacktrack()
    ensures Match(EmailPattern[3..], "Email: user@example.com", 12) == Some(23)
  {
    var s := "Email: user@example.com";
    var p := EmailPattern;
    EmailTopLevel();
    assert Match(p[4..], s, 20) == None;
    assert Match(p[4..], s, 21) == None;
    assert Match(p[4..], s, 22) == None;
    assert Match(p[4..], s, 23) == None;
    assert TryDown(p[4..], s, 13, 19) == Some(23);
    assert TryDown(p[4..], s, 13, 20) == Some(23);
    assert TryDown(p[4..], s, 13, 21) == Some(23);
    assert TryDown(p[4..], s, 13, 22) == Some(23);
    assert TryDown(p[4..], s, 13, 23) == Some(23);
  }

  /** The local part `user` is the longest run of local-part characters from index 7. */
  lemma EmailLocalRun()
    ensures RunEnd(LocalPart, "Email: user@example.com", 7, None) == 11
  {
    var s := "Email: user@example.com";
    assert s[7] == 'u' && s[8] == 's' && s[9] == 'e' && s[10] == 'r' && s[11] == '@';
    assert RunEnd(LocalPart, s, 11, None) == 11;
    assert RunEnd(LocalPart, s, 10, None) == 11;
    assert RunEnd(LocalPart, s, 9, None) == 11;
    assert RunEnd(LocalPart, s, 8, None) == 11;
  }

  lemma EmailAfterLocal()
    ensures Match(EmailPattern[2..], "Email: user@example.com", 11) == Some(23)
  {
    var s := "Email: user@example.com";
    var p := EmailPattern;
    assert s[11] == '@' && s[12] == 'e';
    assert RunEnd(Literal('@'), s, 12, Some(0)) == 12;
    assert RunEnd(Literal('@'), s, 11, Some(1)) == 12;
    EmailDomainBacktrack();
    assert TryDown(p[3..], s, 12, 12) == Some(23);
  }

  lemma EmailMatchExample()
    ensures Match(EmailPattern, "Email: user@example.com", 7) == Some(23)
  {
    var s := "Email: user@example.com";
    var p := EmailPattern;
    assert s[6] == ' ' && s[7] == 'u';
    EmailLocalRun();
    EmailAfterLocal();
    assert TryDown(p[2..], s, 8, 11) == Some(23);
    assert Match(p[1..], s, 7) == Some(23);
  }

  /** `Email` is a run of local-part characters that no `@` follows. */
  lemma EmailWordNoAt()
    ensures Match(EmailPattern[1..], "Email: user@example.com", 0) == None
  {
    var s := "Email: user@example.com";
    var p := EmailPattern;
    assert s[0] == 'E' && s[1] == 'm' && s[2] == 'a' && s[3] == 'i' && s[4] == 'l' && s[5] == ':';
    assert RunEnd(LocalPart, s, 5, None) == 5;
    assert RunEnd(LocalPart, s, 4, None) == 5;
    assert RunEnd(LocalPart, s, 3, None) == 5;
    assert RunEnd(LocalPart, s, 2, None) == 5;
    assert RunEnd(LocalPart, s, 1, None) == 5;
    assert RunEnd(LocalPart, s, 0, None) == 5;
    EmailNoAtBefore5();
    assert TryDown(p[2..], s, 1, 1) == None;
    assert TryDown(p[2..], s, 1, 2) == None;
    assert TryDown(p[2..], s, 1, 3) == None;
    assert TryDown(p[2..], s, 1, 4) == None;
    assert TryDown(p[2..], s, 1, 5) == None;
  }

  lemma EmailNoAtBefore5()
    ensures forall k :: 1 <= k <= 5 ==> Match(EmailPattern[2..], "Email: user@example.com", k) == None
  {
    var s := "Email: user@example.com";
    var p := EmailPattern;
    assert s[1] == 'm' && s[2] == 'a' && s[3] == 'i' && s[4] == 'l' && s[5] == ':';
    forall k | 1 <= k <= 5 ensures Match(p[2..], s, k) == None {
      assert s[k] != '@';
      assert RunEnd(Literal('@'), s, k, Some(1)) == k;
    }
  }

  /** Inside the word `Email` there is no word boundary. */
  lemma EmailNoMatchInWord(k: nat)
    requires 1 <= k <= 4
    ensures Match(EmailPattern, "Email: user@example.com", k).None?
  {
    var s := "Email: user@example.com";
    assert s[0] == 'E' && s[1] == 'm' && s[2] == 'a' && s[3] == 'i' && s[4] == 'l';
    assert IsWordChar(s[k - 1]) && IsWordChar(s[k]);
  }

  /** At `:` and at the space no local-part character starts. */
  lemma EmailNoMatchAtPunct(k: nat)
    requires 5 <= k <= 6
    ensures Match(EmailPattern, "Email: user@example.com", k).None?
  {
    var s := "Email: user@example.com";
    assert s[5] == ':' && s[6] == ' ';
    BoundaryThenLeadMissing(EmailPattern, s, k);
  }

  /** No e-mail match starts before the local part. */
  lemma EmailNoEarlierMatch()
    ensures forall k :: 0 <= k < 7 ==> Match(EmailPattern, "Email: user@example.com", k).None?
  {
    var s := "Email: user@example.com";
    forall k | 0 <= k < 7 ensures Match(EmailPattern, s, k).None? {
      if k == 0 {
        EmailWordNoAt();
      } else if k <= 4 {
        EmailNoMatchInWord(k);
      } else {
        EmailNoMatchAtPunct(k);
      }
    }
  }

  lemma EmailEndReplace()
    ensures ReplaceFrom(EmailPattern, "Email: user@example.com", 23, Redaction) == ""
  {
    var s := "Email: user@example.com";
    var p := EmailPattern;
    assert |s| == 23 && s[22] == 'm';
    assert RunEnd(LocalPart, s, 23, None) == 23;
    assert Match(p[1..], s, 23) == None;
    assert Match(p, s, 23) == None;
  }

  lemma EmailPassExample()
    ensures ReplaceAll(EmailPattern, "Email: user@example.com", Redaction) == "Email: [REDACTED]"
  {
    var s := "Email: user@example.com";
    var p := EmailPattern;
    assert s[0..7] + Redaction == "Email: [REDACTED]";
    assert ReplaceFrom(p, s, 23, Redaction) == "" by { EmailEndReplace(); }
    assert ReplaceFrom(p, s, 0, Redaction) == s[0..7] + Redaction + ReplaceFrom(p, s, 23, Redaction) by {
      EmailMatchExample();
      EmailNoEarlierMatch();
      ReplaceFromLeftmost(p, s, 0, 7, Redaction);
    }
  }

  lemma SanitizeExampleEmail()
    ensures SanitizeText("Email: user@example.com") == "Email: [REDACTED]"
  {
    var s := "Email: user@example.com";
    assert !HasDigit(s);
    assert CardPattern[1] == Digits(4);
    ReplaceAllWithoutClass(CardPattern, s, Redaction, 1);
    assert SsnPattern[1] == Digits(3);
    ReplaceAllWithoutClass(SsnPattern, s, Redaction, 1);
    EmailPassExample();
  }
}
