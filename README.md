# Company lookup, modelled in Dafny

This project models the matching core of `CompanyLookup` in `src/company_lookup.py`.
The core matches imperfect company descriptions (a name, a website, a post code) against
Companies House registry records and enriches a match with credit bureau data. The model covers:

- the four normalisers, as pure functions:
  - company name (trim, lower-case, separators to spaces, collapse whitespace, cut legal suffixes, `&` to `and`, keep letters, digits and spaces);
  - domain (trim, drop one `@`, add a scheme, take the network location, drop the port and one `www.`, lower-case);
  - post code (trim, upper-case, delete spaces, tabs and line breaks);
  - date (three `strptime` formats tried in turn, ISO 8601 output, `ValueError` otherwise).
- the two index builders, as methods of the class `CompanyLookup` that fill its dictionary fields in a loop:
  - the name index: the last record wins, and a name that normalises to nothing raises;
  - the credit index: the first row per company number wins, and that row's default date is rewritten in place.
- `get_credit_bureau_record` and `find`, as functions that read the object: exact lookup on the normalised name, the three-tier confidence rule, and the credit fields parsed with `int`.

Each builder is proved against a specification function over the record lists (`Index.NameIndex`, `Index.CreditIndex`). The properties are proved about those functions: which records end up in the index, which one wins, and when and with which record the build fails.

Python's `set` iteration order decides the order in which the suffix loop visits `{group, inc, llc, ltd, plc}`. The model makes that order a parameter (`order`, kept by the object as `suffixOrder`). Every general lemma about names is proved for all five-element orders of the set. The result itself can depend on the order, as `CompanyName.SuffixOrderDecides` shows.

Layout:

- `wrappers.dfy`: `Option`/`Result` and the error values: the invalid-name `ValueError`, the invalid-date `ValueError`, and `int`'s `ValueError`.
- `text.dfy`: ASCII character classes and the string operations the source uses: `strip`, `lower`, `upper`, `replace`, `split`/`join`, the alphanumeric filter.
- `digits.dfy`: decimal digits, `int(text)`, `str(n)`.
- `company_name.dfy`, `domain.dfy`, `postcode.dfy`, `dates.dfy`: the normalisers.
- `records.dfy`: registry records, credit rows, queries and the `find` result.
- `filing.dfy`: last-wins and first-wins filing of values under keys, generic over the record type.
- `index.dfy`: the two indexes as functions of the record lists.
- `lookup.dfy`: the class `CompanyLookup` and the confidence and credit-field rules.
- `scenarios.dfy`: end-to-end scenarios over a one-company registry, proved for every suffix order.

Behaviour of the code worth knowing, which the model keeps:

- Legal suffixes are cut by `name.endswith(suffix)` (src/company_lookup.py:137) followed by the slice `name[: -(len(suffix) + 1)]` (:138). The test is on text, not on whole words, so "bestinc" becomes "bes" (`CompanyName.SuffixInsideWord`). The loop tries every suffix, so several can be cut from one name, and which ones depends on the set's iteration order (`CompanyName.SuffixOrderDecides`).
- The name builder stores `self.company_name_lookup[normalised_name] = company` (:299) without looking for the key first, so a later record with the same normalised name replaces an earlier one (`Index.NameIndexLastWins`).
- The docstring of `normalise_domain` (:166-167) gives `domain.co.uk` for `sub.domain.co.uk`, but the code keeps every label (`Domain.SubdomainKept`). It drops only one `www.` (:194-196), so it is not idempotent (`Domain.WwwDroppedOnce`).
- `find` reads the credit score and the trade-line count with `int(...)` (:478, :485) and does not catch `ValueError`, so a value that is not a decimal integer makes `find` raise (`Scenarios.UnreadableScore`).

## Model

| member | source | states |
|---|---|---|
| CompanyName.NormaliseCompanyName | src/company_lookup.py:119-149 | None and "" give None; any other result is non-empty, trimmed, free of upper case and `&`, and made only of lower-case letters, digits and spaces |
| CompanyName.NormaliseName | src/company_lookup.py:119-149 | the statements of `normalise_company_name`, run in order with the suffix loop as a `for` loop, compute `NormaliseCompanyName` |
| CompanyName.StripSuffixes | src/company_lookup.py:134-138 | the suffix loop visiting the suffixes in the given order; it never makes the name longer |
| CompanyName.StripLegalSuffixes | src/company_lookup.py:134-138 | the suffix `for` loop computes the suffix-stripping function of the name and the visiting order |
| CompanyName.StripSuffixesChars | src/company_lookup.py:134-138 | the suffix loop only removes characters |
| CompanyName.StripSuffixesNoMatch | src/company_lookup.py:136-138 | a name that ends with none of the suffixes leaves the loop unchanged |
| CompanyName.StripSuffixesOne | src/company_lookup.py:136-138 | when exactly one suffix ends the name and none ends the rest, that suffix is cut whatever the visiting order |
| CompanyName.CanonicalNameFixpoint | src/company_lookup.py:119-149 | an already normalised name (single-spaced, lower-case letters, digits and spaces, ending with no suffix) normalises to itself in every order |
| CompanyName.PunctuationOnlyName | src/company_lookup.py:119-149 | a non-empty name with no letter, digit or `&` (only punctuation and whitespace) normalises to None |
| CompanyName.BlankCompanyName | src/company_lookup.py:119-149 | a name of whitespace only normalises to None |
| CompanyName.DocumentedExamples | src/company_lookup.py:113-117 | "ACME Corp. Ltd" gives "acme corp" and "Tech & Software LLC" gives "tech and software", in every suffix order |
| CompanyName.SuffixInsideWord | src/company_lookup.py:136-138 | "bestinc" gives "bes" in every order: the suffix is matched as text and `len + 1` characters are cut |
| CompanyName.SuffixOrderDecides | src/company_lookup.py:135-138 | "acme ltd group" gives "acme" when "group" is visited before "ltd", and "acme ltd" when "ltd" comes first |
| Domain.NormaliseDomain | src/company_lookup.py:169-201 | None and "" give None; any other result is non-empty, lower-case, and has no colon, slash, question mark or hash |
| Domain.BlankDomain | src/company_lookup.py:173-176 | whitespace-only text gives None |
| Domain.SchemePrefixIgnored | src/company_lookup.py:182-188 | writing `http://` or `https://` before a text without a scheme does not change its domain |
| Domain.AtPrefixIgnored | src/company_lookup.py:178-180 | one leading `@` does not change the domain |
| Domain.HostTextDomain | src/company_lookup.py:187-201 | on a trimmed lower-case host name the normaliser only drops a `www.` prefix |
| Domain.CanonicalDomain | src/company_lookup.py:187-201 | a host name without `www.` is its own domain |
| Domain.WwwDroppedOnce | src/company_lookup.py:194-196 | exactly one `www.` is dropped, so `www.` + a host name gives that host name |
| Domain.DocumentedExample | src/company_lookup.py:164-165 | "https://www.example.com:8080/path?q=1" gives "example.com" |
| Domain.SubdomainKept | src/company_lookup.py:166-167 | "sub.domain.co.uk" gives itself, not the "domain.co.uk" of the docstring |
| PostCode.NormalisePostCode | src/company_lookup.py:223-235 | None and "" give None; any other result is non-empty, trimmed, without lower case, spaces, tabs or line breaks |
| PostCode.BlankPostCode | src/company_lookup.py:223-235 | whitespace-only text gives None |
| PostCode.NormalisedPostCodeFixpoint | src/company_lookup.py:227-235 | a normalised post code normalises to itself |
| PostCode.NormalisePostCodeIdempotent | src/company_lookup.py:223-235 | normalising twice equals normalising once |
| PostCode.RemoveGapsNoop | src/company_lookup.py:230-233 | deleting gaps leaves a gap-free text alone |
| PostCode.DocumentedExamples | src/company_lookup.py:218-221 | "SW1A 1AA" gives "SW1A1AA" and "  m1 1aa  " gives "M11AA" |
| Dates.NormaliseDate | src/company_lookup.py:260-279 | None and "" give None; the error is raised exactly when none of the three formats reads the text, and carries the text; any result is an ISO 8601 date that reads back |
| Dates.DayMonYearRoundTrip | src/company_lookup.py:264-266 | every valid date written as `%d-%b-%Y` is read back as that date |
| Dates.MonthDayYearRoundTrip | src/company_lookup.py:268-271 | every valid date written as `%B %d, %Y` is read back as that date |
| Dates.IsoRoundTrip | src/company_lookup.py:273-276 | every valid date written as `isoformat` is read back by `%Y-%m-%d` |
| Dates.FormatsExclusive | src/company_lookup.py:263-279 | no text is read by two of the formats, so the order they are tried in never decides the date |
| Dates.NormaliseFormattedDate | src/company_lookup.py:263-279 | a date in any of the three formats normalises to its ISO 8601 text |
| Dates.NormaliseDateIdempotent | src/company_lookup.py:263-279 | a normalised date normalises to itself |
| Dates.ExampleDates | src/company_lookup.py:255-258 | "25-Jan-2025" and "January 25, 2025" both give "2025-01-25" |
| Digits.ParseInt | src/company_lookup.py:477-488 | `int(text)` succeeds exactly on an optional sign followed by decimal digits, with the sign of the text, and otherwise raises with the text |
| Digits.IntRoundTrip | src/company_lookup.py:477-488 | every integer's decimal text reads back as that integer |
| Digits.ParseIntLeadingZeros | src/company_lookup.py:477-488 | zeros in front of a digit string do not change the value `int` reads |
| Digits.ParseIntPlus | src/company_lookup.py:477-488 | a `+` in front of a digit string does not change the value |
| Digits.ParseIntMinus | src/company_lookup.py:477-488 | a `-` in front of a digit string negates the value, so "-0" reads as 0 |
| Digits.UnusualLiterals | src/company_lookup.py:477-488 | "0750", "+3" and "-0", which `str` never writes, read as 750, 3 and 0 |
| Index.NameIndex | src/company_lookup.py:291-299 | what the name builder computes: the index has at most one entry per record, and a failure carries the name of one of the records (the lemmas below state which) |
| Index.NameIndexFails | src/company_lookup.py:291-297 | building the name index fails exactly when some record's name normalises to nothing |
| Index.NameIndexFirstError | src/company_lookup.py:293-297 | a failed build reports the name of the first record whose name normalises to nothing |
| Index.NameIndexHasKeys | src/company_lookup.py:293-299 | every record's normalised name is a key of a built index |
| Index.NameIndexValues | src/company_lookup.py:293-299 | every key is non-empty and is the normalised name of the record it holds, which is one of the records |
| Index.NameIndexLastWins | src/company_lookup.py:293-299 | the record filed under a name is the last record with that normalised name |
| Index.NameIndexStep | src/company_lookup.py:293-299 | one more record is filed under its key, replacing any earlier one, or its missing key is the error |
| Index.NameIndexErrorSticks | src/company_lookup.py:296-297 | once a prefix of the records fails, the whole list fails the same way |
| Index.NameIndexFailsAt | src/company_lookup.py:296-297 | a record without a key after a good prefix is the first such record and decides the error |
| Index.WithNormalisedDate | src/company_lookup.py:315-317 | the rewritten row keeps number, score and trade lines; its date is the normalised date when that exists |
| Index.StoredCredit | src/company_lookup.py:315-319 | a row is filed exactly when its date normalises, and is filed with the normalised date |
| Index.CreditIndex | src/company_lookup.py:308-319 | what the credit builder computes: the index has at most one entry per row (the lemmas below state which rows and what a failure is) |
| Index.CreditIndexKeys | src/company_lookup.py:310-319 | the keys of a built credit index are exactly the company numbers of the rows |
| Index.CreditIndexFails | src/company_lookup.py:310-319 | building fails exactly when some first row of a number has a date in no known format, and the error is that of the first such row |
| Index.CreditIndexContents | src/company_lookup.py:310-319 | each number holds its first row with the date normalised; every key is its row's number; every stored date is absent or ISO 8601 |
| Index.CreditIndexStep | src/company_lookup.py:310-319 | a repeated number is skipped; a new one is filed with its date normalised, or its date error is the result |
| Index.CreditIndexErrorSticks | src/company_lookup.py:315-317 | once a prefix of the rows fails, the whole list fails the same way |
| Index.CreditIndexFailsAt | src/company_lookup.py:315-317 | a first row with a bad date after a good prefix is the first such row and decides the error |
| Index.CreditRebuild | src/company_lookup.py:308-319 | building again over the rewritten rows gives the same index and rewrites nothing more |
| Index.NameIndexSingle | src/company_lookup.py:293-299 | a one-record registry is indexed under the record's key |
| Index.NameIndexThenUnnamed | src/company_lookup.py:293-297 | a nameless record after a named one stops the build with its own name |
| Index.CreditIndexFirstOf | src/company_lookup.py:310-319 | when all rows share a number, the first is filed with its date normalised |
| Lookup.MatchConfidence | src/company_lookup.py:453-466 | high exactly when domains and post codes both agree, medium exactly when one of them agrees, low exactly when neither does |
| Lookup.CreditInt | src/company_lookup.py:477-488 | None and "" give None; the error is raised exactly on other text that is not a decimal integer, and carries the text; a decimal integer gives the value `int` reads from it |
| Lookup.CreditIntRoundTrip | src/company_lookup.py:477-488 | a field holding a number's decimal text reads back as that number |
| Lookup.CompanyLookup.constructor | src/company_lookup.py:83-89 | the loaded records are stored and both lookups start empty |
| Lookup.CompanyLookup.Create | src/company_lookup.py:69-93 | construction succeeds exactly when both indexes build; it then holds the name index, the credit index and the rewritten rows, and otherwise raises the first builder's error |
| Lookup.CompanyLookup.BuildNormalisedCompanyDataLookups | src/company_lookup.py:291-299 | the name lookup becomes the name index of the records; on failure the error is the index's, and the lookup holds the records before the first nameless one |
| Lookup.CompanyLookup.BuildCreditBureauDataLookups | src/company_lookup.py:308-319 | the credit lookup becomes the credit index of the rows and the rows become the rewritten rows; on failure the lookup and rows reflect the rows before the first bad date |
| Lookup.CompanyLookup.GetCreditBureauRecord | src/company_lookup.py:338-346 | the filed row for a known number, otherwise the all-empty row carrying the number |
| Lookup.CompanyLookup.Find | src/company_lookup.py:440-505 | `no_match` exactly when the normalised name is missing or not a key; on a hit it fails exactly on an unparsable credit number, with the score's error when the score is unparsable and otherwise the trade-line count's (the score is read first), and otherwise copies the record fields, rates the match and parses the credit fields |
| Lookup.CompanyLookup.CreditRecordOf | src/company_lookup.py:338-346 | the record returned carries the number; it is the first row with that number, date normalised, or the all-empty row; its date is absent or ISO 8601 |
| Lookup.CompanyLookup.FindNoMatch | src/company_lookup.py:440-505 | `no_match` exactly when the query name normalises to nothing or to a name no registry record has |
| Lookup.CompanyLookup.FindMatch | src/company_lookup.py:440-476 | a match copies the fields of the last registry record with the query's normalised name, and is never `no_match` |
| Lookup.CompanyLookup.FindCredit | src/company_lookup.py:470-488 | the credit fields of a match come from the first bureau row with the matched number, or are empty without one |
| Lookup.LastWithKey | src/company_lookup.py:293-299 | every record has a last record with the same key at or after it |
| Scenarios.AcmeLookup | src/company_lookup.py:69-93 | building over one registry record and two bureau rows of its number files "acme corp" and the first row with an ISO date |
| Scenarios.HighConfidence | src/company_lookup.py:440-489 | a query with the record's own name, website and post code gets the full high-confidence answer with the first row's credit data |
| Scenarios.MediumConfidence | src/company_lookup.py:453-466 | same website, another post code: medium |
| Scenarios.LowConfidence | src/company_lookup.py:453-466 | another website and post code: low, though the name matches |
| Scenarios.NoMatchFound | src/company_lookup.py:491-505 | a name the registry lacks gets the `no_match` answer |
| Scenarios.NamelessRecordRejected | src/company_lookup.py:296-297 | a registry record without a name makes construction raise the invalid-name error with None |
| Scenarios.PunctuationNameRejected | src/company_lookup.py:293-297 | a registry record named "..." after a good one makes construction raise the invalid-name error carrying "..." |
| Scenarios.UnreadableScore | src/company_lookup.py:477-481 | a matched record whose score is "n/a" makes `find` raise `int`'s error |

## Left out

- `_public_suffixes` (src/company_lookup.py:14-48) is not modelled: it fetches a list over the network and nothing calls it.
- `load_reference_data`, `load_json_file` and `load_csv_file` are not modelled: they read files and decode JSON and CSV. The constructor and `Lookup.CompanyLookup.Create` take the loaded record lists instead, and the file paths of `__init__` are dropped.
- `str(record["company_number"])` (src/company_lookup.py:311) is not modelled: company numbers are text throughout the model. The bureau rows come from CSV (:359), so their numbers are text already. The registry records come from JSON (:358), and `find` passes a record's `company_number` to `get_credit_bureau_record` unconverted (:468-470). A registry number stored as a JSON number therefore finds no bureau row, and `find` returns it as a number with empty credit fields. `Records.Company` holds its number as text only, so that miss is not modelled.
- Characters are ASCII. Python's Unicode `isalnum`, `isspace`, `lower` and `upper` are modelled on ASCII only.
- `Dates.NormaliseDate` reads the canonical form of each format: two-digit days and months, month names in the C locale with their exact case, four-digit years. `strptime` also accepts one-digit days and months (`"2025-1-25"`), and month names in other letter cases.
- `Domain.NormaliseDomain` reads the network location as the text after the scheme, up to the first `/`, `?` or `#`. `urlsplit`'s removal of control characters and its error on malformed IPv6 brackets are not modelled.
- `Digits.ParseInt` accepts an optional sign and decimal digits only. `int` also accepts surrounding whitespace and `_` between digits.
- `Lookup.CompanyLookup.Find` compares the stored record against the query by value. In Python the lookup, the record list and the returned answer share the same dictionary objects; that aliasing is not modelled.
- A failed build leaves the object half built in the model. In Python `__init__` raises and the object is discarded; `Create` returns only the error.
- The suffix-set iteration order is a parameter, not Python's string hashing.
