/** The records the matcher reads and returns, as values. */
module Records {
  import opened Wrappers

  /** A registry address; each part may be missing. */
  datatype Address = Address(street: Option<string>, city: Option<string>, postcode: Option<string>)

  /** One Companies House record. */
  datatype Company = Company(companyNumber: string, name: Option<string>, domain: Option<string>, address: Address)

  /**
   * One credit bureau row. The score and the trade-line count are kept as the
   * text the bureau file holds; the default date is rewritten by the builder.
   */
  datatype CreditRecord = CreditRecord(
    companyNumber: string,
    creditScore: Option<string>,
    tradeLines: Option<string>,
    lastDefaultDate: Option<string>)

  /** The fields of a query that the matcher reads. */
  datatype Query = Query(name: Option<string>, website: Option<string>, postcode: Option<string>)

  /** `'high'`, `'medium'`, `'low'` and `'no_match'`. */
  datatype Confidence = High | Medium | Low | NoMatch

  /** The answer of `find`: always the same eight fields. */
  datatype MatchResult = MatchResult(
    name: Option<string>,
    address: Address,
    domain: Option<string>,
    companyNumber: Option<string>,
    creditScore: Option<int>,
    lastDefaultDate: Option<string>,
    confidence: Confidence,
    tradeLines: Option<int>)

  /** The record `get_credit_bureau_record` invents for a company number the bureau does not know. */
  function MissingCredit(companyNumber: string): CreditRecord {
    CreditRecord(companyNumber, None, None, None)
  }

  /** The all-empty answer for a query whose name matches no registry record. */
  const NoMatchResult := MatchResult(None, Address(None, None, None), None, None, None, None, NoMatch, None)
}
