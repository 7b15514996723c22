/**
 * End-to-end scenarios of the matcher over a one-company registry, for every order
 * in which the suffix set may be visited: the four confidence tiers, a failing
 * build (a missing name, a name of punctuation only) and a credit field that is
 * not a number.
 */
module Scenarios {
  import opened Wrappers
  import opened Errors
  import opened Digits
  import opened Records
  import CompanyName
  import Domain
  import PostCode
  import Dates
  import opened Index
  import opened Lookup

  const AcmeNumber := "01234567"
  const AcmeName := "ACME Corp. Ltd"
  const AcmeWebsite := "https://www.example.com:8080/path?q=1"
  const AcmePostCode := "SW1A 1AA"

  const Acme := Company(AcmeNumber, Some(AcmeName), Some(AcmeWebsite),
                        Address(Some("1 Main Street"), Some("London"), Some(AcmePostCode)))

  /** The bureau knows ACME twice; only the first row counts. */
  const AcmeCredit := CreditRecord(AcmeNumber, Some("700"), Some("3"), Some("25-Jan-2025"))
  const AcmeStaleCredit := CreditRecord(AcmeNumber, Some("1"), Some("1"), None)
  /** A row whose score is not a number. */
  const UnreadableCredit := CreditRecord(AcmeNumber, Some("n/a"), Some("3"), Some("25-Jan-2025"))

  /** ACME's registry name normalises to "acme corp". */
  lemma AcmeKey(order: seq<string>)
    requires CompanyName.IsSuffixOrder(order)
    ensures NameKey(Acme, order) == Some("acme corp")
    ensures CompanyName.NormaliseCompanyName(Some(AcmeName), order) == Some("acme corp")
  {
    CompanyName.DocumentedExamples(order);
  }

  /** The credit index of ACME's two rows: the first row, its date in ISO 8601. */
  lemma AcmeCreditIndex()
    ensures CreditIndex([AcmeCredit, AcmeStaleCredit]) == Ok(map[AcmeNumber := AcmeCredit.(lastDefaultDate := Some("2025-01-25"))])
  {
    Dates.ExampleDates();
    CreditIndexPair(AcmeCredit, AcmeStaleCredit, Some("2025-01-25"));
  }

  /** The credit index of the one unreadable row. */
  lemma UnreadableCreditIndex()
    ensures CreditIndex([UnreadableCredit]) == Ok(map[AcmeNumber := UnreadableCredit.(lastDefaultDate := Some("2025-01-25"))])
  {
    var rows := [UnreadableCredit];
    assert Dates.NormaliseDate(rows[0].lastDefaultDate) == Ok(Some("2025-01-25")) by {
      Dates.ExampleDates();
    }
    CreditIndexFirstOf(rows, Some("2025-01-25"));
  }

  /** ACME's credit numbers read back as numbers. */
  lemma AcmeCreditInts()
    ensures CreditInt(Some("700")) == Ok(Some(700)) && CreditInt(Some("3")) == Ok(Some(3))
  {
    CreditIntRoundTrip(700);
    CreditIntRoundTrip(3);
    assert IntToString(700) == "700" by {
      assert NatToString(700) == NatToString(70) + [DigitChar(0)];
    }
  }

  /** The lookup over the ACME registry and bureau, built as `__init__` builds it. */
  method AcmeLookup(order: seq<string>) returns (lookup: CompanyLookup)
    requires CompanyName.IsSuffixOrder(order)
    ensures lookup.suffixOrder == order
    ensures lookup.companyNameLookup == map["acme corp" := Acme]
    ensures lookup.creditBureauLookup == map[AcmeNumber := AcmeCredit.(lastDefaultDate := Some("2025-01-25"))]
  {
    AcmeKey(order);
    NameIndexSingle(Acme, order, "acme corp");
    AcmeCreditIndex();
    var created := CompanyLookup.Create([Acme], [AcmeCredit, AcmeStaleCredit], order);
    lookup := created.value;
  }

  /** The tiers of the three queries, against ACME's website and post code. */
  lemma AcmeTiers()
    ensures MatchConfidence(Domain.NormaliseDomain(Some(AcmeWebsite)), Domain.NormaliseDomain(Some(AcmeWebsite)),
                            PostCode.NormalisePostCode(Some(AcmePostCode)), PostCode.NormalisePostCode(Some(AcmePostCode))) == High
    ensures MatchConfidence(Domain.NormaliseDomain(Some(AcmeWebsite)), Domain.NormaliseDomain(Some(AcmeWebsite)),
                            PostCode.NormalisePostCode(Some("  m1 1aa  ")), PostCode.NormalisePostCode(Some(AcmePostCode))) == Medium
    ensures MatchConfidence(Domain.NormaliseDomain(Some("sub.domain.co.uk")), Domain.NormaliseDomain(Some(AcmeWebsite)),
                            PostCode.NormalisePostCode(Some("  m1 1aa  ")), PostCode.NormalisePostCode(Some(AcmePostCode))) == Low
  {
    Domain.DocumentedExample();
    Domain.SubdomainKept();
    PostCode.DocumentedExamples();
  }

  /** A score that is not a number is refused with the literal error. */
  lemma UnreadableText()
    ensures CreditInt(Some("n/a")) == Err(InvalidLiteral("n/a"))
  {
    assert !IsIntLiteral("n/a") by {
      assert "n/a"[0] == 'n';
    }
  }

  /** Same name, website and post code: a high-confidence match enriched with the first credit row. */
  method HighConfidence(order: seq<string>) returns (r: Result<MatchResult, Error>)
    requires CompanyName.IsSuffixOrder(order)
    ensures r == Ok(MatchResult(Some(AcmeName), Acme.address, Some(AcmeWebsite), Some(AcmeNumber),
                                Some(700), Some("2025-01-25"), High, Some(3)))
  {
    var lookup := AcmeLookup(order);
    AcmeKey(order);
    AcmeCreditInts();
    AcmeTiers();
    r := lookup.Find(Query(Some(AcmeName), Some(AcmeWebsite), Some(AcmePostCode)));
  }

  /** Same website, another post code: medium. */
  method MediumConfidence(order: seq<string>) returns (r: Result<MatchResult, Error>)
    requires CompanyName.IsSuffixOrder(order)
    ensures r.Ok? && r.value.confidence == Medium && r.value.companyNumber == Some(AcmeNumber)
  {
    var lookup := AcmeLookup(order);
    AcmeKey(order);
    AcmeCreditInts();
    AcmeTiers();
    r := lookup.Find(Query(Some(AcmeName), Some(AcmeWebsite), Some("  m1 1aa  ")));
  }

  /** Another website and another post code: low, though the name matches. */
  method LowConfidence(order: seq<string>) returns (r: Result<MatchResult, Error>)
    requires CompanyName.IsSuffixOrder(order)
    ensures r.Ok? && r.value.confidence == Low && r.value.companyNumber == Some(AcmeNumber)
  {
    var lookup := AcmeLookup(order);
    AcmeKey(order);
    AcmeCreditInts();
    AcmeTiers();
    r := lookup.Find(Query(Some(AcmeName), Some("sub.domain.co.uk"), Some("  m1 1aa  ")));
  }

  /** A name the registry does not hold: the all-empty `no_match` answer. */
  method NoMatchFound(order: seq<string>) returns (r: Result<MatchResult, Error>)
    requires CompanyName.IsSuffixOrder(order)
    ensures r == Ok(NoMatchResult)
  {
    var lookup := AcmeLookup(order);
    CompanyName.DocumentedExamples(order);
    r := lookup.Find(Query(Some("Tech & Software LLC"), Some(AcmeWebsite), Some(AcmePostCode)));
  }

  /** A registry record without a name stops `__init__` with the invalid-name error. */
  method NamelessRecordRejected(order: seq<string>) returns (r: Result<CompanyLookup, Error>)
    requires CompanyName.IsSuffixOrder(order)
    ensures r == Err(InvalidCompanyName(None))
  {
    var nameless := Company("00000001", None, None, Address(None, None, None));
    AcmeKey(order);
    NameIndexThenUnnamed(Acme, nameless, order, "acme corp");
    r := CompanyLookup.Create([Acme, nameless], [AcmeCredit], order);
  }

  /** A registry record whose name is only punctuation stops `__init__` with the invalid-name error. */
  method PunctuationNameRejected(order: seq<string>) returns (r: Result<CompanyLookup, Error>)
    requires CompanyName.IsSuffixOrder(order)
    ensures r == Err(InvalidCompanyName(Some("...")))
  {
    var dots := Company("00000002", Some("..."), None, Address(None, None, None));
    assert forall c :: c in "..." ==> c == '.';
    CompanyName.PunctuationOnlyName("...", order);
    AcmeKey(order);
    NameIndexThenUnnamed(Acme, dots, order, "acme corp");
    r := CompanyLookup.Create([Acme, dots], [AcmeCredit], order);
  }

  /** The lookup over the ACME registry and a bureau whose only row has an unreadable score. */
  method UnreadableScoreLookup(order: seq<string>) returns (lookup: CompanyLookup)
    requires CompanyName.IsSuffixOrder(order)
    ensures lookup.suffixOrder == order
    ensures lookup.companyNameLookup == map["acme corp" := Acme]
    ensures AcmeNumber in lookup.creditBureauLookup && lookup.creditBureauLookup[AcmeNumber].creditScore == Some("n/a")
  {
    UnreadableCreditIndex();
    AcmeKey(order);
    NameIndexSingle(Acme, order, "acme corp");
    var created := CompanyLookup.Create([Acme], [UnreadableCredit], order);
    lookup := created.value;
  }

  /** A credit score that is not a number makes `find` raise `int`'s error on a match. */
  method UnreadableScore(order: seq<string>) returns (r: Result<MatchResult, Error>)
    requires CompanyName.IsSuffixOrder(order)
    ensures r == Err(InvalidLiteral("n/a"))
  {
    var lookup := UnreadableScoreLookup(order);
    AcmeKey(order);
    UnreadableText();
    r := lookup.Find(Query(Some(AcmeName), Some(AcmeWebsite), Some(AcmePostCode)));
  }
}
