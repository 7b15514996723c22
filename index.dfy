/**
 * What the two index builders compute, as functions of the record lists: the
 * normalised-name index over the Companies House records and the
 * company-number index over the credit bureau rows.
 */
module Index {
  import opened Wrappers
  import opened Errors
  import opened Records
  import opened CompanyName
  import opened Dates
  import opened Filing

  // ---------------------------------------------------------------------------
  // Name index
  // ---------------------------------------------------------------------------

  /** The key a registry record is filed under: its normalised name. */
  function NameKey(c: Company, order: seq<string>): (k: Option<string>)
    ensures k.Some? ==> k.value != ""
  {
    NormaliseCompanyName(c.name, order)
  }

  /** The keys of the registry records, in list order. */
  function NameKeys(cs: seq<Company>, order: seq<string>): (keys: seq<Option<string>>)
    ensures |keys| == |cs|
  {
    seq(|cs|, i requires 0 <= i < |cs| => NameKey(cs[i], order))
  }

  /**
   * The name index after visiting `cs` in order: each record is filed under its
   * normalised name, replacing any earlier record with that key; the first
   * name that normalises to nothing is an error.
   */
  function NameIndex(cs: seq<Company>, order: seq<string>): (r: Result<map<string, Company>, Error>)
    ensures r.Ok? ==> |r.value| <= |cs|
    ensures r.Err? ==> exists i :: 0 <= i < |cs| && r.error == InvalidCompanyName(cs[i].name)
  {
    match FileLastWins(cs, NameKeys(cs, order))
    case Ok(m) => Ok(m)
    case Err(f) => Err(InvalidCompanyName(cs[f].name))
  }

  /** `f` is the first record whose name normalises to nothing. */
  predicate FirstUnnamed(cs: seq<Company>, order: seq<string>, f: int) {
    0 <= f < |cs| && NameKey(cs[f], order).None? &&
    forall j :: 0 <= j < f ==> NameKey(cs[j], order).Some?
  }

  /** No later record of `cs` has the key of record `i`. */
  predicate LastOfName(cs: seq<Company>, order: seq<string>, i: int) {
    0 <= i < |cs| && forall j :: i < j < |cs| ==> NameKey(cs[j], order) != NameKey(cs[i], order)
  }

  /** The keys of a prefix are the prefix of the keys. */
  lemma NameKeysPrefix(cs: seq<Company>, order: seq<string>, n: nat)
    requires n <= |cs|
    ensures NameKeys(cs[..n], order) == NameKeys(cs, order)[..n]
  {
  }

  /** Building the name index fails exactly when some registry name normalises to nothing. */
  lemma NameIndexFails(cs: seq<Company>, order: seq<string>)
    ensures NameIndex(cs, order).Err? <==> exists i :: 0 <= i < |cs| && NameKey(cs[i], order).None?
  {
    var keys := NameKeys(cs, order);
    LastWinsFails(cs, keys);
    if NameIndex(cs, order).Ok? {
      forall i | 0 <= i < |cs| ensures NameKey(cs[i], order).Some? {
        assert keys[i] in keys;
      }
    } else {
      var f := FileLastWins(cs, keys).error;
      assert keys[f] == NameKey(cs[f], order);
    }
  }

  /** A failed name index reports the first registry name that normalises to nothing. */
  lemma NameIndexFirstError(cs: seq<Company>, order: seq<string>)
    requires NameIndex(cs, order).Err?
    ensures exists f :: FirstUnnamed(cs, order, f) && NameIndex(cs, order).error == InvalidCompanyName(cs[f].name)
  {
    var keys := NameKeys(cs, order);
    LastWinsFails(cs, keys);
    var f := FileLastWins(cs, keys).error;
    forall j | 0 <= j < f ensures NameKey(cs[j], order).Some? {
      assert keys[..f][j] == keys[j] == NameKey(cs[j], order);
    }
    assert keys[f] == NameKey(cs[f], order);
    assert FirstUnnamed(cs, order, f);
  }

  /** A successful name index holds the key of every record. */
  lemma NameIndexHasKeys(cs: seq<Company>, order: seq<string>)
    requires NameIndex(cs, order).Ok?
    ensures forall i :: 0 <= i < |cs| ==> NameKey(cs[i], order).Some? && NameKey(cs[i], order).value in NameIndex(cs, order).value
  {
    var keys := NameKeys(cs, order);
    LastWinsHasKeys(cs, keys);
    forall i | 0 <= i < |cs| ensures NameKey(cs[i], order).Some? && NameKey(cs[i], order).value in NameIndex(cs, order).value {
      assert keys[i] == NameKey(cs[i], order);
    }
  }

  /**
   * Every entry of a successful name index is a registry record filed under its
   * own normalised name, which is non-empty.
   */
  lemma NameIndexValues(cs: seq<Company>, order: seq<string>)
    requires NameIndex(cs, order).Ok?
    ensures var m := NameIndex(cs, order).value;
      forall k :: k in m ==> k != "" && NameKey(m[k], order) == Some(k) && m[k] in cs
  {
    var keys := NameKeys(cs, order);
    var m := NameIndex(cs, order).value;
    LastWinsValues(cs, keys);
    forall k | k in m ensures k != "" && NameKey(m[k], order) == Some(k) && m[k] in cs {
      var i :| 0 <= i < |cs| && keys[i] == Some(k) && m[k] == cs[i];
      assert keys[i] == NameKey(cs[i], order);
    }
  }

  /** When several registry records share a normalised name, the last of them is filed. */
  lemma NameIndexLastWins(cs: seq<Company>, order: seq<string>)
    requires NameIndex(cs, order).Ok?
    ensures var m := NameIndex(cs, order).value;
      forall i :: LastOfName(cs, order, i) ==>
        NameKey(cs[i], order).Some? && NameKey(cs[i], order).value in m && m[NameKey(cs[i], order).value] == cs[i]
  {
    var keys := NameKeys(cs, order);
    var m := NameIndex(cs, order).value;
    LastWinsLast(cs, keys);
    forall i | LastOfName(cs, order, i)
      ensures NameKey(cs[i], order).Some? && NameKey(cs[i], order).value in m && m[NameKey(cs[i], order).value] == cs[i]
    {
      forall j | i < j < |cs| ensures keys[j] != keys[i] {
        assert keys[j] == NameKey(cs[j], order);
      }
      assert keys[i] == NameKey(cs[i], order);
      assert IsLastKey(keys, i);
    }
  }

  /** Visiting one more registry record: it is filed under its key, or its missing key is the error. */
  lemma NameIndexStep(cs: seq<Company>, order: seq<string>, i: nat)
    requires i < |cs| && NameIndex(cs[..i], order).Ok?
    ensures var m := NameIndex(cs[..i], order).value;
      match NameKey(cs[i], order)
      case None => NameIndex(cs[..i + 1], order) == Err(InvalidCompanyName(cs[i].name))
      case Some(k) => NameIndex(cs[..i + 1], order) == Ok(m[k := cs[i]])
  {
    var p := cs[..i + 1];
    assert p[..i] == cs[..i];
    NameKeysPrefix(p, order, i);
    assert NameKeys(p, order)[i] == NameKey(cs[i], order);
  }

  /** Once the records so far fail to index, the whole list fails the same way. */
  lemma NameIndexErrorSticks(cs: seq<Company>, order: seq<string>, n: nat)
    requires n <= |cs| && NameIndex(cs[..n], order).Err?
    ensures NameIndex(cs, order) == NameIndex(cs[..n], order)
  {
    var keys := NameKeys(cs, order);
    NameKeysPrefix(cs, order, n);
    LastWinsErrorSticks(cs, keys, n);
    var f := FileLastWins(cs, keys).error;
    assert cs[..n][f] == cs[f];
  }

  /** The first record whose key is missing after a prefix that indexes fine is the error of the whole list. */
  lemma NameIndexFailsAt(cs: seq<Company>, order: seq<string>, i: nat)
    requires i < |cs| && NameIndex(cs[..i], order).Ok? && NameKey(cs[i], order).None?
    ensures FirstUnnamed(cs, order, i)
    ensures NameIndex(cs, order) == Err(InvalidCompanyName(cs[i].name))
  {
    NameIndexStep(cs, order, i);
    NameIndexErrorSticks(cs, order, i + 1);
    NameIndexFails(cs[..i], order);
    forall j | 0 <= j < i ensures NameKey(cs[j], order).Some? {
      assert cs[..i][j] == cs[j];
    }
  }

  // ---------------------------------------------------------------------------
  // Credit index
  // ---------------------------------------------------------------------------

  /** A bureau row with its default date normalised; the row itself when the date is in no known format. */
  function WithNormalisedDate(r: CreditRecord): (n: CreditRecord)
    ensures n.companyNumber == r.companyNumber && n.creditScore == r.creditScore && n.tradeLines == r.tradeLines
    ensures NormaliseDate(r.lastDefaultDate).Ok? ==> Ok(n.lastDefaultDate) == NormaliseDate(r.lastDefaultDate)
    ensures NormaliseDate(r.lastDefaultDate).Err? ==> n == r
  {
    match NormaliseDate(r.lastDefaultDate)
    case Ok(d) => r.(lastDefaultDate := d)
    case Err(_) => r
  }

  /** What the builder stores for a row it files: the row with its date normalised, or the date error. */
  function StoredCredit(r: CreditRecord): (s: Result<CreditRecord, Error>)
    ensures s.Ok? <==> NormaliseDate(r.lastDefaultDate).Ok?
    ensures s.Ok? ==> s.value == WithNormalisedDate(r)
    ensures s.Err? ==> s.error == NormaliseDate(r.lastDefaultDate).error
  {
    match NormaliseDate(r.lastDefaultDate)
    case Ok(d) => Ok(r.(lastDefaultDate := d))
    case Err(e) => Err(e)
  }

  /** The company numbers of the bureau rows, in list order. */
  function Numbers(rs: seq<CreditRecord>): (keys: seq<string>)
    ensures |keys| == |rs|
  {
    seq(|rs|, i requires 0 <= i < |rs| => rs[i].companyNumber)
  }

  /** What the builder would store for each row, in list order. */
  function StoredCredits(rs: seq<CreditRecord>): (stored: seq<Result<CreditRecord, Error>>)
    ensures |stored| == |rs|
  {
    seq(|rs|, i requires 0 <= i < |rs| => StoredCredit(rs[i]))
  }

  /**
   * The credit index after visiting `rs` in order: a row whose company number is
   * already filed is skipped; otherwise it is filed with its default date
   * normalised, and a date in no known format is an error.
   */
  function CreditIndex(rs: seq<CreditRecord>): (r: Result<map<string, CreditRecord>, Error>)
    ensures r.Ok? ==> |r.value| <= |rs|
  {
    FileFirstWins(Numbers(rs), StoredCredits(rs))
  }

  /** Row `i` is the first row of `rs` with its company number. */
  predicate IsFirst(rs: seq<CreditRecord>, i: int) {
    0 <= i < |rs| && forall j :: 0 <= j < i ==> rs[j].companyNumber != rs[i].companyNumber
  }

  /** `f` is the first row that is filed but whose date is in no known format. */
  predicate FirstBadDate(rs: seq<CreditRecord>, f: int) {
    IsFirst(rs, f) && NormaliseDate(rs[f].lastDefaultDate).Err? &&
    forall j :: 0 <= j < f && IsFirst(rs, j) ==> NormaliseDate(rs[j].lastDefaultDate).Ok?
  }

  /** The bureau rows once the builder has visited the first `n`: first occurrences among them carry normalised dates. */
  function Rewritten(rs: seq<CreditRecord>, n: nat): (out: seq<CreditRecord>)
    requires n <= |rs|
    ensures |out| == |rs|
    ensures forall i :: 0 <= i < |rs| ==> out[i].companyNumber == rs[i].companyNumber
  {
    seq(|rs|, i requires 0 <= i < |rs| => if i < n && IsFirst(rs, i) then WithNormalisedDate(rs[i]) else rs[i])
  }

  /** The numbers and stored values of a prefix are the prefixes of those of the whole list. */
  lemma CreditPrefix(rs: seq<CreditRecord>, n: nat)
    requires n <= |rs|
    ensures Numbers(rs[..n]) == Numbers(rs)[..n] && StoredCredits(rs[..n]) == StoredCredits(rs)[..n]
  {
  }

  /** Being a first occurrence is a property of the row numbers. */
  lemma IsFirstByNumbers(rs: seq<CreditRecord>)
    ensures forall i :: IsFirst(rs, i) <==> IsFirstKey(Numbers(rs), i)
  {
    var keys := Numbers(rs);
    forall i | 0 <= i < |rs| ensures IsFirst(rs, i) <==> IsFirstKey(keys, i) {
      if !IsFirst(rs, i) {
        var j :| 0 <= j < i && rs[j].companyNumber == rs[i].companyNumber;
        assert keys[..i][j] == keys[i];
      }
    }
  }

  /** The keys of a successful credit index are exactly the company numbers of the rows. */
  lemma CreditIndexKeys(rs: seq<CreditRecord>)
    requires CreditIndex(rs).Ok?
    ensures forall k :: k in CreditIndex(rs).value <==> exists i :: 0 <= i < |rs| && rs[i].companyNumber == k
  {
    var keys := Numbers(rs);
    FirstWinsKeys(keys, StoredCredits(rs));
    forall k | k in keys ensures exists i :: 0 <= i < |rs| && rs[i].companyNumber == k {
      var i :| 0 <= i < |keys| && keys[i] == k;
    }
    forall k | exists i :: 0 <= i < |rs| && rs[i].companyNumber == k ensures k in keys {
      var i :| 0 <= i < |rs| && rs[i].companyNumber == k;
      assert keys[i] == k;
    }
  }

  /**
   * Building the credit index fails exactly when the first row for some company
   * number carries a date in no known format; the error is that of the first
   * such row. Later rows with a number already seen are never parsed.
   */
  lemma CreditIndexFails(rs: seq<CreditRecord>)
    ensures CreditIndex(rs).Err? <==>
      exists i :: IsFirst(rs, i) && NormaliseDate(rs[i].lastDefaultDate).Err?
    ensures CreditIndex(rs).Err? ==>
      exists f :: FirstBadDate(rs, f) && CreditIndex(rs).error == NormaliseDate(rs[f].lastDefaultDate).error
  {
    var keys, stored := Numbers(rs), StoredCredits(rs);
    FirstWinsFails(keys, stored);
    IsFirstByNumbers(rs);
    if CreditIndex(rs).Err? {
      var f :| IsFirstError(keys, stored, f) && FileFirstWins(keys, stored).error == stored[f].error;
      assert FirstBadDate(rs, f);
    } else {
      forall i | IsFirst(rs, i) ensures NormaliseDate(rs[i].lastDefaultDate).Ok? {
        assert stored[i].Ok?;
      }
    }
  }

  /**
   * A successful credit index files, under each company number, the first row
   * with that number with its default date normalised; every stored date is
   * absent or an ISO 8601 date.
   */
  lemma CreditIndexContents(rs: seq<CreditRecord>)
    requires CreditIndex(rs).Ok?
    ensures var m := CreditIndex(rs).value;
      (forall i :: IsFirst(rs, i) ==> rs[i].companyNumber in m && m[rs[i].companyNumber] == WithNormalisedDate(rs[i])) &&
      (forall k :: k in m ==>
        m[k].companyNumber == k && (m[k].lastDefaultDate.None? || ParseIsoDate(m[k].lastDefaultDate.value).Some?))
  {
    var keys, stored := Numbers(rs), StoredCredits(rs);
    var m := CreditIndex(rs).value;
    FirstWinsContents(keys, stored);
    FirstWinsValues(keys, stored);
    IsFirstByNumbers(rs);
    forall i | IsFirst(rs, i) ensures rs[i].companyNumber in m && m[rs[i].companyNumber] == WithNormalisedDate(rs[i]) {
      assert keys[i] == rs[i].companyNumber && Ok(m[keys[i]]) == stored[i];
    }
    forall k | k in m
      ensures m[k].companyNumber == k && (m[k].lastDefaultDate.None? || ParseIsoDate(m[k].lastDefaultDate.value).Some?)
    {
      var i :| IsFirstKey(keys, i) && keys[i] == k && Ok(m[k]) == stored[i];
      assert m[k] == WithNormalisedDate(rs[i]);
    }
  }

  /** Visiting one more row rewrites exactly that row, and only when it is a first occurrence. */
  lemma RewrittenStep(rs: seq<CreditRecord>, n: nat)
    requires n < |rs|
    ensures Rewritten(rs, n)[n] == rs[n]
    ensures Rewritten(rs, n + 1) ==
      if IsFirst(rs, n) then Rewritten(rs, n)[n := WithNormalisedDate(rs[n])] else Rewritten(rs, n)
  {
  }

  /** Visiting one more bureau row: a repeated number is skipped; a new one is filed with its date normalised, or its date error is the result. */
  lemma CreditIndexStep(rs: seq<CreditRecord>, i: nat)
    requires i < |rs| && CreditIndex(rs[..i]).Ok?
    ensures var m := CreditIndex(rs[..i]).value;
      (IsFirst(rs, i) <==> rs[i].companyNumber !in m) &&
      CreditIndex(rs[..i + 1]) ==
        if rs[i].companyNumber in m then Ok(m)
        else match StoredCredit(rs[i])
          case Ok(v) => Ok(m[rs[i].companyNumber := v])
          case Err(e) => Err(e)
  {
    var p := rs[..i + 1];
    assert p[..i] == rs[..i];
    CreditPrefix(p, i);
    assert Numbers(p)[i] == rs[i].companyNumber && StoredCredits(p)[i] == StoredCredit(rs[i]);
    CreditIndexKeys(rs[..i]);
    if !IsFirst(rs, i) {
      var j :| 0 <= j < i && rs[j].companyNumber == rs[i].companyNumber;
      assert rs[..i][j] == rs[j];
    }
  }

  /** Once the rows so far fail to index, the whole list fails the same way. */
  lemma CreditIndexErrorSticks(rs: seq<CreditRecord>, n: nat)
    requires n <= |rs| && CreditIndex(rs[..n]).Err?
    ensures CreditIndex(rs) == CreditIndex(rs[..n])
  {
    CreditPrefix(rs, n);
    FirstWinsErrorSticks(Numbers(rs), StoredCredits(rs), n);
  }

  /** The first row filed with a bad date after a prefix that indexes fine is the error of the whole list. */
  lemma CreditIndexFailsAt(rs: seq<CreditRecord>, i: nat)
    requires i < |rs| && CreditIndex(rs[..i]).Ok? && IsFirst(rs, i) && NormaliseDate(rs[i].lastDefaultDate).Err?
    ensures FirstBadDate(rs, i)
    ensures CreditIndex(rs) == Err(NormaliseDate(rs[i].lastDefaultDate).error)
  {
    CreditIndexStep(rs, i);
    CreditIndexErrorSticks(rs, i + 1);
    CreditIndexFails(rs[..i]);
    forall j | 0 <= j < i && IsFirst(rs, j) ensures NormaliseDate(rs[j].lastDefaultDate).Ok? {
      assert rs[..i][j] == rs[j];
      assert IsFirst(rs[..i], j);
    }
  }

  /** A stored row's date is already normalised, so normalising it again changes nothing. */
  lemma StoredCreditStable(r: CreditRecord)
    requires NormaliseDate(r.lastDefaultDate).Ok?
    ensures StoredCredit(WithNormalisedDate(r)) == Ok(WithNormalisedDate(r))
  {
    if NormaliseDate(r.lastDefaultDate).value.Some? {
      NormaliseDateIdempotent(r.lastDefaultDate);
    }
  }

  /**
   * Running the credit builder again over the rows it has rewritten rebuilds the
   * same lookup and leaves the rows as they are.
   */
  lemma CreditRebuild(rs: seq<CreditRecord>)
    requires CreditIndex(rs).Ok?
    ensures CreditIndex(Rewritten(rs, |rs|)) == CreditIndex(rs)
    ensures Rewritten(Rewritten(rs, |rs|), |rs|) == Rewritten(rs, |rs|)
  {
    var out := Rewritten(rs, |rs|);
    CreditIndexFails(rs);
    IsFirstByNumbers(rs);
    IsFirstByNumbers(out);
    assert Numbers(out) == Numbers(rs);
    forall i | IsFirstKey(Numbers(rs), i) ensures StoredCredits(rs)[i] == StoredCredits(out)[i] {
      StoredCreditStable(rs[i]);
    }
    FirstWinsSameFirst(Numbers(rs), StoredCredits(rs), StoredCredits(out));
    forall i | 0 <= i < |rs| ensures Rewritten(out, |rs|)[i] == out[i] {
      if IsFirst(rs, i) {
        StoredCreditStable(rs[i]);
      }
    }
  }

  /** A one-record registry indexes its record under its key. */
  lemma NameIndexSingle(c: Company, order: seq<string>, k: string)
    requires NameKey(c, order) == Some(k)
    ensures NameIndex([c], order) == Ok(map[k := c])
  {
    var cs := [c];
    assert cs[..0] == [];
    NameIndexStep(cs, order, 0);
    assert cs[..1] == cs;
  }

  /** A nameless record after a named one stops the build with its own name. */
  lemma NameIndexThenUnnamed(c: Company, d: Company, order: seq<string>, k: string)
    requires NameKey(c, order) == Some(k) && NameKey(d, order).None?
    ensures NameIndex([c, d], order) == Err(InvalidCompanyName(d.name))
  {
    var cs := [c, d];
    assert cs[..1] == [c];
    NameIndexSingle(c, order, k);
    NameIndexFailsAt(cs, order, 1);
  }

  /** A bureau whose first row has a readable date files that row, whatever rows with its number follow. */
  lemma CreditIndexFirstOf(rs: seq<CreditRecord>, d: Option<string>)
    requires |rs| > 0 && NormaliseDate(rs[0].lastDefaultDate) == Ok(d)
    requires forall i :: 0 <= i < |rs| ==> rs[i].companyNumber == rs[0].companyNumber
    ensures CreditIndex(rs) == Ok(map[rs[0].companyNumber := rs[0].(lastDefaultDate := d)])
  {
    var m := map[rs[0].companyNumber := rs[0].(lastDefaultDate := d)];
    assert rs[..0] == [];
    CreditIndexStep(rs, 0);
    var n := 1;
    while n < |rs|
      invariant 1 <= n <= |rs| && CreditIndex(rs[..n]) == Ok(m)
    {
      CreditIndexStep(rs, n);
      n := n + 1;
    }
    assert rs[..|rs|] == rs;
  }

  /** Of two rows with the same number, the first is filed with its date normalised. */
  lemma CreditIndexPair(r: CreditRecord, s: CreditRecord, d: Option<string>)
    requires s.companyNumber == r.companyNumber && NormaliseDate(r.lastDefaultDate) == Ok(d)
    ensures CreditIndex([r, s]) == Ok(map[r.companyNumber := r.(lastDefaultDate := d)])
  {
    CreditIndexFirstOf([r, s], d);
  }
}
