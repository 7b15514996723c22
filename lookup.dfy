/**
 * The `CompanyLookup` object: the loaded Companies House and credit bureau
 * records, the two lookup dictionaries the builders fill, and the matcher that
 * reads them.
 */
module Lookup {
  import opened Wrappers
  import opened Errors
  import opened Digits
  import opened Records
  import opened CompanyName
  import opened Domain
  import opened PostCode
  import opened Dates
  import opened Index

  /**
   * The three-tier rule of `find`: high when both the normalised domains and the
   * normalised post codes agree (two missing values agree), medium when exactly
   * one of them does, low when neither does.
   */
  function MatchConfidence(inputDomain: Option<string>, companyDomain: Option<string>,
                           inputPostCode: Option<string>, companyPostCode: Option<string>): (c: Confidence)
    ensures c == High <==> inputDomain == companyDomain && inputPostCode == companyPostCode
    ensures c == Medium <==> (inputDomain == companyDomain) != (inputPostCode == companyPostCode)
    ensures c == Low <==> inputDomain != companyDomain && inputPostCode != companyPostCode
  {
    if inputDomain == companyDomain && inputPostCode == companyPostCode then High
    else if inputDomain == companyDomain || inputPostCode == companyPostCode then Medium
    else Low
  }

  /**
   * `int(x) if x else None` on a credit field: missing and empty text give None,
   * a decimal integer gives its value, anything else is the `ValueError` of `int`.
   */
  function CreditInt(field: Option<string>): (r: Result<Option<int>, Error>)
    ensures r == Ok(None) <==> field.None? || field.value == ""
    ensures r.Err? <==> field.Some? && field.value != "" && !IsIntLiteral(field.value)
    ensures r.Err? ==> r.error == InvalidLiteral(field.value)
    ensures field.Some? && IsIntLiteral(field.value) ==> r == Ok(Some(ParseInt(field.value).value))
  {
    if field.None? || field.value == "" then Ok(None)
    else
      match ParseInt(field.value)
      case Ok(n) => Ok(Some(n))
      case Err(e) => Err(e)
  }

  /** A credit field holding the decimal text of a number reads back as that number. */
  lemma CreditIntRoundTrip(n: int)
    ensures CreditInt(Some(IntToString(n))) == Ok(Some(n))
  {
    IntRoundTrip(n);
    assert IntToString(n) != "" by {
      assert IsIntLiteral(IntToString(n));
    }
  }

  class CompanyLookup {
    /** The Companies House records, as loaded. */
    var companiesHouseData: seq<Company>
    /** The credit bureau rows; the credit builder rewrites their default dates in place. */
    var creditBureauData: seq<CreditRecord>
    /** Normalised company name to registry record. */
    var companyNameLookup: map<string, Company>
    /** Company number to credit row. */
    var creditBureauLookup: map<string, CreditRecord>
    /** The order in which this process visits the legal-suffix set. */
    const suffixOrder: seq<string>

    /** The object once its reference data is loaded and before the lookups are built. */
    constructor (companies: seq<Company>, credits: seq<CreditRecord>, order: seq<string>)
      requires IsSuffixOrder(order)
      ensures companiesHouseData == companies && creditBureauData == credits && suffixOrder == order
      ensures companyNameLookup == map[] && creditBureauLookup == map[]
    {
      companiesHouseData := companies;
      creditBureauData := credits;
      companyNameLookup := map[];
      creditBureauLookup := map[];
      suffixOrder := order;
    }

    /**
     * `__init__` over already loaded records: load, build the name lookup, then
     * build the credit lookup; the first builder error is raised instead.
     */
    static method Create(companies: seq<Company>, credits: seq<CreditRecord>, order: seq<string>)
      returns (r: Result<CompanyLookup, Error>)
      requires IsSuffixOrder(order)
      ensures r.Ok? <==> NameIndex(companies, order).Ok? && CreditIndex(credits).Ok?
      ensures r.Err? && NameIndex(companies, order).Err? ==> r.error == NameIndex(companies, order).error
      ensures r.Err? && NameIndex(companies, order).Ok? ==> r.error == CreditIndex(credits).error
      ensures r.Ok? ==>
        fresh(r.value) && r.value.suffixOrder == order && r.value.companiesHouseData == companies &&
        r.value.companyNameLookup == NameIndex(companies, order).value &&
        r.value.creditBureauData == Rewritten(credits, |credits|) &&
        r.value.creditBureauLookup == CreditIndex(credits).value
    {
      var lookup := new CompanyLookup(companies, credits, order);
      var err := lookup.BuildNormalisedCompanyDataLookups();
      if err.Some? {
        return Err(err.value);
      }
      err := lookup.BuildCreditBureauDataLookups();
      if err.Some? {
        return Err(err.value);
      }
      return Ok(lookup);
    }

    /**
     * `build_normalised_company_data_lookups`: reset the name lookup, then file each
     * registry record under its normalised name, a later record replacing an
     * earlier one. A name that normalises to nothing stops the build with an
     * error and leaves the records before it filed.
     */
    method BuildNormalisedCompanyDataLookups() returns (err: Option<Error>)
      modifies this
      ensures companiesHouseData == old(companiesHouseData) && creditBureauData == old(creditBureauData)
      ensures creditBureauLookup == old(creditBureauLookup)
      ensures err.None? <==> NameIndex(companiesHouseData, suffixOrder).Ok?
      ensures err.None? ==> companyNameLookup == NameIndex(companiesHouseData, suffixOrder).value
      ensures err.Some? ==> err.value == NameIndex(companiesHouseData, suffixOrder).error
      ensures err.Some? ==>
        exists f :: FirstUnnamed(companiesHouseData, suffixOrder, f) &&
          NameIndex(companiesHouseData[..f], suffixOrder) == Ok(companyNameLookup)
    {
      companyNameLookup := map[];
      var i := 0;
      assert companiesHouseData[..0] == [];
      while i < |companiesHouseData|
        invariant 0 <= i <= |companiesHouseData|
        invariant companiesHouseData == old(companiesHouseData) && creditBureauData == old(creditBureauData)
        invariant creditBureauLookup == old(creditBureauLookup)
        invariant NameIndex(companiesHouseData[..i], suffixOrder) == Ok(companyNameLookup)
      {
        var company := companiesHouseData[i];
        var normalisedName := NormaliseCompanyName(company.name, suffixOrder);
        NameIndexStep(companiesHouseData, suffixOrder, i);
        if normalisedName.None? || normalisedName.value == "" {
          NameIndexFailsAt(companiesHouseData, suffixOrder, i);
          return Some(InvalidCompanyName(company.name));
        }
        companyNameLookup := companyNameLookup[normalisedName.value := company];
        i := i + 1;
      }
      assert companiesHouseData[..i] == companiesHouseData;
      return None;
    }

    /**
     * `build_credit_bureau_data_lookups`: reset the credit lookup, then visit the
     * rows in order; a row whose company number is already filed is skipped
     * untouched, any other has its default date normalised in place and is
     * filed. A date in no known format stops the build with an error, leaving
     * the rows before it rewritten and filed.
     */
    method BuildCreditBureauDataLookups() returns (err: Option<Error>)
      modifies this
      ensures companiesHouseData == old(companiesHouseData) && companyNameLookup == old(companyNameLookup)
      ensures err.None? <==> CreditIndex(old(creditBureauData)).Ok?
      ensures err.None? ==>
        creditBureauLookup == CreditIndex(old(creditBureauData)).value &&
        creditBureauData == Rewritten(old(creditBureauData), |old(creditBureauData)|)
      ensures err.Some? ==> err.value == CreditIndex(old(creditBureauData)).error
      ensures err.Some? ==>
        exists f :: FirstBadDate(old(creditBureauData), f) &&
          CreditIndex(old(creditBureauData)[..f]) == Ok(creditBureauLookup) &&
          creditBureauData == Rewritten(old(creditBureauData), f)
    {
      ghost var rows := creditBureauData;
      creditBureauLookup := map[];
      var i := 0;
      assert rows[..0] == [];
      while i < |creditBureauData|
        invariant 0 <= i <= |rows| == |creditBureauData|
        invariant companiesHouseData == old(companiesHouseData) && companyNameLookup == old(companyNameLookup)
        invariant creditBureauData == Rewritten(rows, i)
        invariant CreditIndex(rows[..i]) == Ok(creditBureauLookup)
      {
        var shelved := creditBureauData[i];
        RewrittenStep(rows, i);
        CreditIndexStep(rows, i);
        var companyNumber := shelved.companyNumber;
        if companyNumber in creditBureauLookup {
          i := i + 1;
          continue;
        }
        var date := NormaliseDate(shelved.lastDefaultDate);
        if date.Err? {
          CreditIndexFailsAt(rows, i);
          return Some(date.error);
        }
        var record := shelved.(lastDefaultDate := date.value);
        creditBureauData := creditBureauData[i := record];
        creditBureauLookup := creditBureauLookup[companyNumber := record];
        i := i + 1;
      }
      assert rows[..i] == rows;
      return None;
    }

    /** `get_credit_bureau_record`: the filed row, or an all-empty row for an unknown company number. */
    function GetCreditBureauRecord(companyNumber: string): (r: CreditRecord)
      reads this
      ensures companyNumber in creditBureauLookup ==> r == creditBureauLookup[companyNumber]
      ensures companyNumber !in creditBureauLookup ==> r == MissingCredit(companyNumber)
    {
      if companyNumber in creditBureauLookup then creditBureauLookup[companyNumber] else MissingCredit(companyNumber)
    }

    /**
     * `find`: look the query's normalised name up; on a hit, rate the match by
     * its normalised domain and post code, copy the registry fields and merge in
     * the credit fields; on a miss, the all-empty `no_match` answer.
     */
    function Find(query: Query): (r: Result<MatchResult, Error>)
      reads this
      ensures var key := NormaliseCompanyName(query.name, suffixOrder);
        r == Ok(NoMatchResult) <==> key.None? || key.value !in companyNameLookup
      ensures var key := NormaliseCompanyName(query.name, suffixOrder);
        key.Some? && key.value in companyNameLookup ==>
          var company := companyNameLookup[key.value];
          var credit := GetCreditBureauRecord(company.companyNumber);
          (r.Err? <==> CreditInt(credit.creditScore).Err? || CreditInt(credit.tradeLines).Err?) &&
          (r.Err? ==> r.error == if CreditInt(credit.creditScore).Err? then CreditInt(credit.creditScore).error
                                 else CreditInt(credit.tradeLines).error) &&
          (r.Ok? ==>
             r.value.name == company.name && r.value.address == company.address &&
             r.value.domain == company.domain && r.value.companyNumber == Some(company.companyNumber) &&
             r.value.confidence == MatchConfidence(NormaliseDomain(query.website), NormaliseDomain(company.domain),
                                                   NormalisePostCode(query.postcode), NormalisePostCode(company.address.postcode)) &&
             Ok(r.value.creditScore) == CreditInt(credit.creditScore) &&
             Ok(r.value.tradeLines) == CreditInt(credit.tradeLines) &&
             r.value.lastDefaultDate == credit.lastDefaultDate)
    {
      var key := NormaliseCompanyName(query.name, suffixOrder);
      if key.Some? && key.value in companyNameLookup then
        var company := companyNameLookup[key.value];
        var confidence := MatchConfidence(NormaliseDomain(query.website), NormaliseDomain(company.domain),
                                          NormalisePostCode(query.postcode), NormalisePostCode(company.address.postcode));
        var credit := GetCreditBureauRecord(company.companyNumber);
        match CreditInt(credit.creditScore)
        case Err(e) => Err(e)
        case Ok(score) =>
          match CreditInt(credit.tradeLines)
          case Err(e) => Err(e)
          case Ok(tradeLines) =>
            Ok(MatchResult(company.name, company.address, company.domain, Some(company.companyNumber),
                           score, credit.lastDefaultDate, confidence, tradeLines))
      else
        Ok(NoMatchResult)
    }

    /**
     * Over a credit lookup built from `rows`: the record returned for a company
     * number carries that number; it is the first row with the number, with its
     * date normalised, and the all-empty row when no row has the number.
     */
    lemma CreditRecordOf(rows: seq<CreditRecord>, companyNumber: string)
      requires CreditIndex(rows) == Ok(creditBureauLookup)
      ensures GetCreditBureauRecord(companyNumber).companyNumber == companyNumber
      ensures forall i :: IsFirst(rows, i) && rows[i].companyNumber == companyNumber ==>
        GetCreditBureauRecord(companyNumber) == WithNormalisedDate(rows[i])
      ensures (forall i :: 0 <= i < |rows| ==> rows[i].companyNumber != companyNumber) ==>
        GetCreditBureauRecord(companyNumber) == MissingCredit(companyNumber)
      ensures var d := GetCreditBureauRecord(companyNumber).lastDefaultDate;
        d.None? || ParseIsoDate(d.value).Some?
    {
      CreditIndexKeys(rows);
      CreditIndexContents(rows);
    }

    /**
     * Over a name lookup built from the registry records: a query gets the
     * `no_match` answer exactly when its name normalises to nothing or to a name
     * no registry record has.
     */
    lemma FindNoMatch(query: Query)
      requires NameIndex(companiesHouseData, suffixOrder) == Ok(companyNameLookup)
      ensures Find(query) == Ok(NoMatchResult) <==>
        var key := NormaliseCompanyName(query.name, suffixOrder);
        key.None? || forall i :: 0 <= i < |companiesHouseData| ==> NameKey(companiesHouseData[i], suffixOrder) != key
    {
      var key := NormaliseCompanyName(query.name, suffixOrder);
      NameIndexHasKeys(companiesHouseData, suffixOrder);
      NameIndexValues(companiesHouseData, suffixOrder);
      if key.Some? && key.value in companyNameLookup {
        var c := companyNameLookup[key.value];
        var i :| 0 <= i < |companiesHouseData| && companiesHouseData[i] == c;
        assert NameKey(companiesHouseData[i], suffixOrder) == key;
      }
    }

    /**
     * Over a name lookup built from the registry records: a matched answer copies
     * the fields of the last registry record whose name normalises to the
     * query's, and its confidence is never `no_match`.
     */
    lemma FindMatch(query: Query)
      requires NameIndex(companiesHouseData, suffixOrder) == Ok(companyNameLookup)
      ensures Find(query).Ok? && Find(query) != Ok(NoMatchResult) ==>
        Find(query).value.confidence != NoMatch &&
        exists i :: LastOfName(companiesHouseData, suffixOrder, i) &&
          NameKey(companiesHouseData[i], suffixOrder) == NormaliseCompanyName(query.name, suffixOrder) &&
          Find(query).value.name == companiesHouseData[i].name &&
          Find(query).value.address == companiesHouseData[i].address &&
          Find(query).value.domain == companiesHouseData[i].domain &&
          Find(query).value.companyNumber == Some(companiesHouseData[i].companyNumber)
    {
      var key := NormaliseCompanyName(query.name, suffixOrder);
      if Find(query).Ok? && Find(query) != Ok(NoMatchResult) {
        NameIndexValues(companiesHouseData, suffixOrder);
        NameIndexLastWins(companiesHouseData, suffixOrder);
        var c := companyNameLookup[key.value];
        var j :| 0 <= j < |companiesHouseData| && companiesHouseData[j] == c;
        var i := LastWithKey(companiesHouseData, suffixOrder, j);
      }
    }

    /**
     * Over a credit lookup built from `rows`: the credit fields of a matched
     * answer come from the first bureau row with the matched company number, its
     * date normalised and its numbers parsed; with no such row they are empty.
     */
    lemma FindCredit(query: Query, rows: seq<CreditRecord>)
      requires CreditIndex(rows) == Ok(creditBureauLookup)
      ensures Find(query).Ok? && Find(query).value.companyNumber.Some? ==>
        var n := Find(query).value.companyNumber.value;
        (forall i :: IsFirst(rows, i) && rows[i].companyNumber == n ==>
           Find(query).value.lastDefaultDate == WithNormalisedDate(rows[i]).lastDefaultDate &&
           Ok(Find(query).value.creditScore) == CreditInt(rows[i].creditScore) &&
           Ok(Find(query).value.tradeLines) == CreditInt(rows[i].tradeLines)) &&
        ((forall i :: 0 <= i < |rows| ==> rows[i].companyNumber != n) ==>
           Find(query).value.lastDefaultDate.None? && Find(query).value.creditScore.None? &&
           Find(query).value.tradeLines.None?)
    {
      if Find(query).Ok? && Find(query).value.companyNumber.Some? {
        CreditRecordOf(rows, Find(query).value.companyNumber.value);
      }
    }
  }

  /** The last record at or after `j` whose key is that of record `j`. */
  lemma {:induction false} LastWithKey(cs: seq<Company>, order: seq<string>, j: nat) returns (i: nat)
    requires j < |cs|
    ensures j <= i && LastOfName(cs, order, i) && NameKey(cs[i], order) == NameKey(cs[j], order)
    decreases |cs| - j
  {
    if k :| j < k < |cs| && NameKey(cs[k], order) == NameKey(cs[j], order) {
      i := LastWithKey(cs, order, k);
    } else {
      i := j;
    }
  }
}
