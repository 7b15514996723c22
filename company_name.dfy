/**
 * `normalise_company_name`: lower-case, turn line breaks, tabs, hyphens and
 * underscores into spaces, collapse whitespace, cut legal suffixes off the end,
 * spell `&` as "and", keep only letters, digits and whitespace, trim.
 *
 * The suffixes live in a Python set, so the loop visits them in an order fixed by
 * string hashing; the model takes that order as the parameter `order`.
 */
module CompanyName {
  import opened Text
  import opened Wrappers

  /** The legal-entity suffixes the loop looks for. */
  const LegalSuffixes: set<string> := {"group", "inc", "llc", "ltd", "plc"}

  /** An order in which iterating the suffix set can visit it: every suffix exactly once. */
  predicate IsSuffixOrder(order: seq<string>) {
    |order| == 5 && (forall t :: t in order ==> t in LegalSuffixes) && (forall t :: t in LegalSuffixes ==> t in order)
  }

  /**
   * One turn of the suffix loop: when `name` ends with `suffix` (as text, not as a
   * whole word), drop `|suffix| + 1` characters from the end and strip.
   */
  function StripSuffix(name: string, suffix: string): string
  {
    if EndsWith(name, suffix) then Strip(DropLast(name, |suffix| + 1)) else name
  }

  /** The whole suffix loop, visiting the suffixes in `order`; it never lengthens the name. */
  function StripSuffixes(name: string, order: seq<string>): (r: string)
    ensures |r| <= |name|
    decreases |order|
  {
    if order == [] then name else StripSuffixes(StripSuffix(name, order[0]), order[1..])
  }

  lemma StripSuffixChars(name: string, suffix: string)
    ensures forall c :: c in StripSuffix(name, suffix) ==> c in name
  {
    if EndsWith(name, suffix) {
      var cut := DropLast(name, |suffix| + 1);
      StripChars(cut);
      forall c | c in cut ensures c in name { assert c in name[..|cut|]; }
    }
  }

  /** The suffix loop only removes characters. */
  lemma {:induction false} StripSuffixesChars(name: string, order: seq<string>)
    ensures forall c :: c in StripSuffixes(name, order) ==> c in name
    decreases |order|
  {
    if order != [] {
      StripSuffixChars(name, order[0]);
      StripSuffixesChars(StripSuffix(name, order[0]), order[1..]);
    }
  }

  /** The suffix loop as the source runs it: a `for` loop rebinding `name`. */
  method StripLegalSuffixes(name: string, order: seq<string>) returns (r: string)
    ensures r == StripSuffixes(name, order)
  {
    r := name;
    var i := 0;
    while i < |order|
      invariant 0 <= i <= |order|
      invariant StripSuffixes(r, order[i..]) == StripSuffixes(name, order)
    {
      if EndsWith(r, order[i]) {
        r := Strip(DropLast(r, |order[i]| + 1));
      }
      assert order[i..][1..] == order[i + 1..];
      i := i + 1;
    }
  }

  /** The first stages: trimmed, lower-cased, separators turned into spaces, whitespace runs collapsed. */
  function Tidied(name: string): string {
    var lowered := Lower(Strip(name));
    var unbroken := Replace(Replace(Replace(lowered, '\n', " "), '\r', " "), '\t', " ");
    var spaced := Replace(Replace(unbroken, '-', " "), '_', " ");
    Collapse(spaced)
  }

  /** The last stages: `&` spelt out, everything but letters, digits and whitespace dropped, trimmed. */
  function Finished(unsuffixed: string): string {
    Strip(KeepAlnumOrSpace(Replace(unsuffixed, '&', "and")))
  }

  /** The text `normalise_company_name` builds before deciding between a name and `None`. */
  function NormalisedText(name: string, order: seq<string>): string {
    Finished(StripSuffixes(Tidied(name), order))
  }

  /** A lower-case letter or digit, or a space: the only characters a normalised name holds. */
  predicate IsNameChar(c: char) {
    (IsAlnum(c) && !IsUpper(c)) || c == ' '
  }

  /**
   * `normalise_company_name`: None and "" give None; otherwise a non-empty, trimmed
   * text of lower-case letters, digits and spaces, without `&`, or None when nothing
   * is left.
   */
  function NormaliseCompanyName(name: Option<string>, order: seq<string>): (r: Option<string>)
    ensures name.None? || name.value == "" ==> r.None?
    ensures r.Some? ==> r.value != "" && Trimmed(r.value)
    ensures r.Some? ==> NoUpper(r.value) && '&' !in r.value
    ensures r.Some? ==> forall i :: 0 <= i < |r.value| ==> IsNameChar(r.value[i])
  {
    if name.None? || name.value == "" then None
    else
      var s := NormalisedText(name.value, order);
      NormalisedTextChars(name.value, order);
      NameCharsShape(s);
      if s == "" then None else Some(s)
  }

  /**
   * `normalise_company_name` as the source runs it, stage by stage, with
   * the suffix `for` loop run by `StripLegalSuffixes`; it computes the function above.
   */
  method NormaliseName(name: Option<string>, order: seq<string>) returns (r: Option<string>)
    ensures r == NormaliseCompanyName(name, order)
  {
    if name.None? || name.value == "" {
      return None;
    }
    var tidied := Tidied(name.value);
    var unsuffixed := StripLegalSuffixes(tidied, order);
    var s := Finished(unsuffixed);
    r := if s == "" then None else Some(s);
  }

  /** No letter, digit or `&`: nothing the normaliser would keep or spell out. */
  predicate NoNameMaterial(s: string) {
    forall c :: c in s ==> !IsAlnum(c) && c != '&'
  }

  /** The first stages bring in nothing but spaces. */
  lemma TidiedNoNameMaterial(n: string)
    requires NoNameMaterial(n)
    ensures NoNameMaterial(Tidied(n))
  {
    var stripped := Strip(n);
    StripChars(n);
    var lowered := Lower(stripped);
    forall c | c in lowered ensures !IsAlnum(c) && c != '&' {
      var i :| 0 <= i < |lowered| && lowered[i] == c;
      assert stripped[i] in stripped;
    }
    SpacedChars(lowered);
  }

  /** The last stages leave nothing of a text without name material. */
  lemma FinishedNoNameMaterial(u: string)
    requires NoNameMaterial(u)
    ensures Finished(u) == ""
  {
    ReplaceAbsent(u, '&', "and");
    var kept := KeepAlnumOrSpace(u);
    KeepChars(u);
    forall i | 0 <= i < |kept| ensures IsSpace(kept[i]) {
      assert kept[i] in kept;
    }
    StripEmpty(kept);
  }

  /**
   * A name with no letter, digit or `&` (only punctuation and whitespace)
   * normalises to None: such a registry name makes the name builder raise.
   */
  lemma PunctuationOnlyName(n: string, order: seq<string>)
    requires forall c :: c in n ==> !IsAlnum(c) && c != '&'
    ensures NormaliseCompanyName(Some(n), order) == None
  {
    if n != "" {
      TidiedNoNameMaterial(n);
      StripSuffixesChars(Tidied(n), order);
      FinishedNoNameMaterial(StripSuffixes(Tidied(n), order));
    }
  }

  /** A name of whitespace only normalises to None. */
  lemma BlankCompanyName(n: string, order: seq<string>)
    requires forall i :: 0 <= i < |n| ==> IsSpace(n[i])
    ensures NormaliseCompanyName(Some(n), order) == None
  {
    forall c | c in n ensures !IsAlnum(c) && c != '&' {
      var i :| 0 <= i < |n| && n[i] == c;
    }
    PunctuationOnlyName(n, order);
  }

  lemma NameCharsShape(s: string)
    requires forall c :: c in s ==> IsNameChar(c)
    ensures NoUpper(s) && '&' !in s
    ensures forall i :: 0 <= i < |s| ==> IsNameChar(s[i])
  {
    assert forall i :: 0 <= i < |s| ==> s[i] in s;
  }

  /** Every character is a space, or neither whitespace nor upper case nor `&`. */
  predicate SpaceOrPlain(s: string, allowAmpersand: bool) {
    forall c :: c in s ==> c == ' ' || (!IsSpace(c) && !IsUpper(c) && (allowAmpersand || c != '&'))
  }

  lemma NormalisedTextChars(name: string, order: seq<string>)
    ensures forall c :: c in NormalisedText(name, order) ==> IsNameChar(c)
  {
    var lowered := Lower(Strip(name));
    var spaced := Replace(Replace(Replace(Replace(Replace(lowered, '\n', " "), '\r', " "), '\t', " "), '-', " "), '_', " ");
    var unsuffixed := StripSuffixes(Tidied(name), order);
    SpacedChars(lowered);
    CollapsedChars(lowered, spaced);
    StripSuffixesChars(Tidied(name), order);
    assert SpaceOrPlain(unsuffixed, true);
    AndedChars(unsuffixed);
    KeptChars(Replace(unsuffixed, '&', "and"));
  }

  lemma SpacedChars(lowered: string)
    ensures forall c :: c in Replace(Replace(Replace(Replace(Replace(lowered, '\n', " "), '\r', " "), '\t', " "), '-', " "), '_', " ") ==> c in lowered || c == ' '
  {
    var s1 := Replace(lowered, '\n', " ");
    var s2 := Replace(s1, '\r', " ");
    var s3 := Replace(s2, '\t', " ");
    var s4 := Replace(s3, '-', " ");
    ReplaceChars(lowered, '\n', " ");
    ReplaceChars(s1, '\r', " ");
    ReplaceChars(s2, '\t', " ");
    ReplaceChars(s3, '-', " ");
    ReplaceChars(s4, '_', " ");
  }

  lemma CollapsedChars(lowered: string, spaced: string)
    requires NoUpper(lowered)
    requires forall c :: c in spaced ==> c in lowered || c == ' '
    ensures SpaceOrPlain(Collapse(spaced), true)
  {
    forall c | c in Collapse(spaced) && c != ' ' ensures !IsSpace(c) && !IsUpper(c) {
      assert c in lowered;
      var i :| 0 <= i < |lowered| && lowered[i] == c;
    }
  }

  lemma AndedChars(s: string)
    requires SpaceOrPlain(s, true)
    ensures SpaceOrPlain(Replace(s, '&', "and"), false)
  {
    ReplaceChars(s, '&', "and");
    forall c | c in Replace(s, '&', "and") && c != ' ' ensures !IsSpace(c) && !IsUpper(c) && c != '&' {
      if c in "and" {
        assert c == 'a' || c == 'n' || c == 'd';
      }
    }
  }

  lemma KeptChars(s: string)
    requires SpaceOrPlain(s, false)
    ensures forall c :: c in Strip(KeepAlnumOrSpace(s)) ==> IsNameChar(c)
  {
    KeepChars(s);
    StripChars(KeepAlnumOrSpace(s));
  }

  /** When no suffix in `order` ends `name`, the loop leaves it alone. */
  lemma {:induction false} StripSuffixesNoMatch(name: string, order: seq<string>)
    requires forall t :: t in order ==> !EndsWith(name, t)
    ensures StripSuffixes(name, order) == name
    decreases |order|
  {
    if order != [] {
      StripSuffixesNoMatch(name, order[1..]);
    }
  }

  /**
   * When exactly one suffix `s` of `order` ends `name` and none ends what is left
   * after cutting it, the loop cuts `s` whatever position it visits `s` in.
   */
  lemma {:induction false} StripSuffixesOne(name: string, order: seq<string>, s: string)
    requires s in order && EndsWith(name, s)
    requires forall t :: t in order && t != s ==> !EndsWith(name, t)
    requires forall t :: t in order ==> !EndsWith(StripSuffix(name, s), t)
    ensures StripSuffixes(name, order) == StripSuffix(name, s)
    decreases |order|
  {
    if order[0] == s {
      StripSuffixesNoMatch(StripSuffix(name, s), order[1..]);
    } else {
      StripSuffixesOne(name, order[1..], s);
    }
  }

  /** A name that is already normalised: what the source stores as a key for a clean registry name. */
  predicate IsCanonicalName(n: string) {
    && n != ""
    && IsCollapsed(n)
    && (forall i :: 0 <= i < |n| ==> IsNameChar(n[i]))
    && (forall t :: t in LegalSuffixes ==> !EndsWith(n, t))
  }

  /** A character the normaliser rewrites to a space. */
  predicate IsBreak(c: char) {
    c == '\n' || c == '\r' || c == '\t' || c == '-' || c == '_'
  }

  /** None of the characters the normaliser rewrites to spaces. */
  predicate NoBreaks(s: string) {
    forall i :: 0 <= i < |s| ==> !IsBreak(s[i])
  }

  lemma ReplaceBreaksNoop(s: string)
    requires NoBreaks(s)
    ensures Replace(Replace(Replace(Replace(Replace(s, '\n', " "), '\r', " "), '\t', " "), '-', " "), '_', " ") == s
  {
    assert forall c :: c in s ==> !IsBreak(c);
    ReplaceAbsent(s, '\n', " ");
    ReplaceAbsent(s, '\r', " ");
    ReplaceAbsent(s, '\t', " ");
    ReplaceAbsent(s, '-', " ");
    ReplaceAbsent(s, '_', " ");
  }

  /** The first stages leave a lower-case, trimmed text with single spaces alone. */
  lemma TidiedOfClean(name: string, lowered: string)
    requires Trimmed(name) && Lower(name) == lowered
    requires NoBreaks(lowered) && IsCollapsed(lowered)
    ensures Tidied(name) == lowered
  {
    StripTrimmed(name);
    ReplaceBreaksNoop(lowered);
    CollapseCollapsed(lowered);
  }

  /** Normalising a canonical name gives it back, in every suffix order. */
  lemma CanonicalNameFixpoint(n: string, order: seq<string>)
    requires IsCanonicalName(n) && IsSuffixOrder(order)
    ensures NormaliseCompanyName(Some(n), order) == Some(n)
  {
    assert Strip(n) == n by { StripTrimmed(n); }
    assert Lower(n) == n by { LowerOfLower(n); }
    assert NoBreaks(n) && '&' !in n by {
      assert forall c :: c in n ==> IsNameChar(c);
      assert forall i :: 0 <= i < |n| ==> IsNameChar(n[i]);
    }
    TidiedOfClean(n, n);
    StripSuffixesNoMatch(n, order);
    FinishedOfClean(n);
  }

  /** The last stages leave a trimmed text of letters, digits and spaces alone. */
  lemma FinishedOfClean(n: string)
    requires Trimmed(n) && '&' !in n
    requires forall i :: 0 <= i < |n| ==> IsAlnum(n[i]) || IsSpace(n[i])
    ensures Finished(n) == n
  {
    ReplaceAbsent(n, '&', "and");
    KeepAllKept(n);
    StripTrimmed(n);
  }

  /** The result from the value of each of its stages. */
  lemma NormaliseFromStages(name: string, order: seq<string>, tidied: string, unsuffixed: string, result: string)
    requires name != "" && Tidied(name) == tidied
    requires StripSuffixes(tidied, order) == unsuffixed
    requires Finished(unsuffixed) == result && result != ""
    ensures NormaliseCompanyName(Some(name), order) == Some(result)
  {
  }

  /** One suffix is cut when the name ends with it and the rest is already trimmed. */
  lemma CutSuffix(name: string, suffix: string, cut: string)
    requires EndsWith(name, suffix) && DropLast(name, |suffix| + 1) == cut && Trimmed(cut)
    ensures StripSuffix(name, suffix) == cut
  {
    StripTrimmed(cut);
  }

  /** The last stages on a text without `&` whose letters, digits and spaces form a trimmed `kept`. */
  lemma FinishedOfKept(unsuffixed: string, kept: string)
    requires '&' !in unsuffixed && KeepAlnumOrSpace(unsuffixed) == kept && Trimmed(kept)
    ensures Finished(unsuffixed) == kept
  {
    ReplaceAbsent(unsuffixed, '&', "and");
    StripTrimmed(kept);
  }

  /** Letters, digits and whitespace pass the filter, whatever follows them. */
  lemma KeepPrefix(a: string, b: string, kb: string)
    requires forall i :: 0 <= i < |a| ==> IsAlnum(a[i]) || IsSpace(a[i])
    requires KeepAlnumOrSpace(b) == kb
    ensures KeepAlnumOrSpace(a + b) == a + kb
  {
    KeepConcat(a, b);
    KeepAllKept(a);
  }

  /** The two examples of the source's documentation hold in every suffix order. */
  lemma DocumentedExamples(order: seq<string>)
    requires IsSuffixOrder(order)
    ensures NormaliseCompanyName(Some("ACME Corp. Ltd"), order) == Some("acme corp")
    ensures NormaliseCompanyName(Some("Tech & Software LLC"), order) == Some("tech and software")
  {
    AcmeExample(order);
    TechExample(order);
  }

  /**
   * Suffixes are matched as text, not as words: "bestinc" ends with "inc", and
   * cutting four characters leaves "bes", in every suffix order.
   */
  lemma SuffixInsideWord(order: seq<string>)
    requires IsSuffixOrder(order)
    ensures NormaliseCompanyName(Some("bestinc"), order) == Some("bes")
  {
    BestincStages(order);
    NormaliseFromStages("bestinc", order, "bestinc", "bes", "bes");
  }

  /**
   * Several suffixes can be cut from one name, and which ones depends on the order
   * the suffix set is visited in: "acme ltd group" loses both when "group" comes
   * before "ltd", and only "group" when "ltd" comes first.
   */
  lemma SuffixOrderDecides()
    ensures IsSuffixOrder(GroupFirst) && IsSuffixOrder(LtdFirst)
    ensures NormaliseCompanyName(Some("acme ltd group"), GroupFirst) == Some("acme")
    ensures NormaliseCompanyName(Some("acme ltd group"), LtdFirst) == Some("acme ltd")
  {
    GroupLtdSuffixes();
    GroupFirstResult();
    LtdFirstResult();
  }

  const GroupFirst: seq<string> := ["group", "ltd", "inc", "llc", "plc"]
  const LtdFirst: seq<string> := ["ltd", "group", "inc", "llc", "plc"]

  // ---------------------------------------------------------------------------
  // The literal steps behind the examples above. Each lemma states one stage of
  // the normaliser on one literal, so no proof has to run the whole normaliser
  // on a string.
  // ---------------------------------------------------------------------------

  lemma BestincStages(order: seq<string>)
    requires IsSuffixOrder(order)
    ensures Tidied("bestinc") == "bestinc"
    ensures StripSuffixes("bestinc", order) == "bes"
    ensures Finished("bes") == "bes"
  {
    BestincClean();
    TidiedOfClean("bestinc", "bestinc");
    FinishedOfClean("bes");
    BestincSuffixes(order);
  }

  lemma BestincSuffixes(order: seq<string>)
    requires IsSuffixOrder(order)
    ensures StripSuffixes("bestinc", order) == "bes"
  {
    BestincClean();
    BestincDrop();
    CutSuffix("bestinc", "inc", "bes");
    BestincOnlyInc(order);
    StripSuffixesOne("bestinc", order, "inc");
  }

  lemma BestincClean()
    ensures Trimmed("bestinc") && Lower("bestinc") == "bestinc" && NoBreaks("bestinc") && IsCollapsed("bestinc")
    ensures Trimmed("bes") && '&' !in "bes" && forall i :: 0 <= i < |"bes"| ==> IsAlnum("bes"[i]) || IsSpace("bes"[i])
  {
  }

  lemma BestincDrop()
    ensures EndsWith("bestinc", "inc") && DropLast("bestinc", 4) == "bes"
  {
  }

  lemma BestincOnlyInc(order: seq<string>)
    requires IsSuffixOrder(order)
    ensures "inc" in order
    ensures forall t :: t in order && t != "inc" ==> !EndsWith("bestinc", t)
    ensures forall t :: t in order ==> !EndsWith("bes", t)
  {
  }

  lemma GroupLtdSuffixes()
    ensures GroupFirst[2..] == LtdFirst[2..] == ["inc", "llc", "plc"]
    ensures StripSuffix("acme ltd group", "group") == "acme ltd" && StripSuffix("acme ltd", "ltd") == "acme"
    ensures StripSuffixes("acme", GroupFirst[2..]) == "acme" && StripSuffixes("acme ltd", LtdFirst[2..]) == "acme ltd"
    ensures StripSuffixes("acme ltd group", GroupFirst) == "acme"
    ensures StripSuffixes("acme ltd group", LtdFirst) == "acme ltd"
  {
    GroupLtdCuts();
    CutNamesClean();
    CutSuffix("acme ltd group", "group", "acme ltd");
    CutSuffix("acme ltd", "ltd", "acme");
    StripSuffixesNoMatch("acme", GroupFirst[2..]);
    StripSuffixesNoMatch("acme ltd", LtdFirst[2..]);
    GroupLtdSteps();
  }

  lemma GroupFirstResult()
    requires StripSuffixes("acme ltd group", GroupFirst) == "acme"
    ensures NormaliseCompanyName(Some("acme ltd group"), GroupFirst) == Some("acme")
  {
    GroupLtdClean();
    TidiedOfClean("acme ltd group", "acme ltd group");
    CutNamesClean();
    FinishedOfClean("acme");
    NormaliseFromStages("acme ltd group", GroupFirst, "acme ltd group", "acme", "acme");
  }

  lemma LtdFirstResult()
    requires StripSuffixes("acme ltd group", LtdFirst) == "acme ltd"
    ensures NormaliseCompanyName(Some("acme ltd group"), LtdFirst) == Some("acme ltd")
  {
    GroupLtdClean();
    TidiedOfClean("acme ltd group", "acme ltd group");
    CutNamesClean();
    FinishedOfClean("acme ltd");
    NormaliseFromStages("acme ltd group", LtdFirst, "acme ltd group", "acme ltd", "acme ltd");
  }

  lemma GroupLtdClean()
    ensures Trimmed("acme ltd group") && Lower("acme ltd group") == "acme ltd group"
    ensures NoBreaks("acme ltd group") && IsCollapsed("acme ltd group")
  {
  }

  lemma CutNamesClean()
    ensures Trimmed("acme") && '&' !in "acme" && forall i :: 0 <= i < |"acme"| ==> IsAlnum("acme"[i]) || IsSpace("acme"[i])
    ensures Trimmed("acme ltd") && '&' !in "acme ltd"
    ensures forall i :: 0 <= i < |"acme ltd"| ==> IsAlnum("acme ltd"[i]) || IsSpace("acme ltd"[i])
  {
  }

  lemma GroupLtdCuts()
    ensures EndsWith("acme ltd group", "group") && DropLast("acme ltd group", 6) == "acme ltd"
    ensures EndsWith("acme ltd", "ltd") && DropLast("acme ltd", 4) == "acme"
    ensures !EndsWith("acme ltd group", "ltd")
    ensures forall t :: t in GroupFirst[2..] ==> !EndsWith("acme", t) && !EndsWith("acme ltd", t)
  {
  }

  lemma GroupLtdSteps()
    requires StripSuffix("acme ltd group", "group") == "acme ltd" && StripSuffix("acme ltd", "ltd") == "acme"
    requires StripSuffixes("acme", GroupFirst[2..]) == "acme" && StripSuffixes("acme ltd", LtdFirst[2..]) == "acme ltd"
    requires !EndsWith("acme ltd group", "ltd")
    ensures StripSuffixes("acme ltd group", GroupFirst) == "acme"
    ensures StripSuffixes("acme ltd group", LtdFirst) == "acme ltd"
  {
    assert GroupFirst[1..][1..] == GroupFirst[2..] && LtdFirst[1..][1..] == LtdFirst[2..];
    assert GroupFirst[2..] == LtdFirst[2..];
  }

  lemma AcmeExample(order: seq<string>)
    requires IsSuffixOrder(order)
    ensures NormaliseCompanyName(Some("ACME Corp. Ltd"), order) == Some("acme corp")
  {
    AcmeTidied();
    AcmeSuffixes(order);
    AcmeFinished();
    NormaliseFromStages("ACME Corp. Ltd", order, "acme corp. ltd", "acme corp.", "acme corp");
  }

  lemma AcmeTidied()
    ensures Tidied("ACME Corp. Ltd") == "acme corp. ltd"
  {
    AcmeTrimmed();
    AcmeLower();
    AcmeNoBreaks();
    AcmeCollapsed();
    TidiedOfClean("ACME Corp. Ltd", "acme corp. ltd");
  }

  lemma AcmeTrimmed()
    ensures Trimmed("ACME Corp. Ltd") && Trimmed("acme corp.") && Trimmed("acme corp")
  {
  }

  lemma AcmeLower()
    ensures Lower("ACME Corp. Ltd") == "acme corp. ltd"
  {
  }

  lemma AcmeNoBreaks()
    ensures NoBreaks("acme corp. ltd")
  {
  }

  lemma AcmeCollapsed()
    ensures IsCollapsed("acme corp. ltd")
  {
  }

  lemma AcmeSuffixes(order: seq<string>)
    requires IsSuffixOrder(order)
    ensures StripSuffixes("acme corp. ltd", order) == "acme corp."
  {
    AcmeDrop();
    AcmeTrimmed();
    CutSuffix("acme corp. ltd", "ltd", "acme corp.");
    AcmeOnlyLtd(order);
    StripSuffixesOne("acme corp. ltd", order, "ltd");
  }

  lemma AcmeDrop()
    ensures EndsWith("acme corp. ltd", "ltd") && DropLast("acme corp. ltd", 4) == "acme corp."
  {
  }

  lemma AcmeOnlyLtd(order: seq<string>)
    requires IsSuffixOrder(order)
    ensures "ltd" in order
    ensures forall t :: t in order && t != "ltd" ==> !EndsWith("acme corp. ltd", t)
    ensures forall t :: t in order ==> !EndsWith("acme corp.", t)
  {
  }

  lemma AcmeFinished()
    ensures Finished("acme corp.") == "acme corp"
  {
    AcmeKept();
    AcmeNoAmpersand();
    AcmeTrimmed();
    FinishedOfKept("acme corp.", "acme corp");
  }

  lemma AcmeNoAmpersand()
    ensures '&' !in "acme corp."
  {
  }

  lemma AcmeKept()
    ensures KeepAlnumOrSpace("acme corp.") == "acme corp"
  {
    AcmeSplitDot();
    AcmeAlnum();
    DotDropped();
    KeepPrefix("acme corp", ".", "");
  }

  lemma AcmeSplitDot()
    ensures "acme corp." == "acme corp" + "." && "acme corp" + "" == "acme corp"
  {
  }

  lemma AcmeAlnum()
    ensures forall i :: 0 <= i < |"acme corp"| ==> IsAlnum("acme corp"[i]) || IsSpace("acme corp"[i])
  {
  }

  lemma DotDropped()
    ensures KeepAlnumOrSpace(".") == ""
  {
  }

  lemma TechExample(order: seq<string>)
    requires IsSuffixOrder(order)
    ensures NormaliseCompanyName(Some("Tech & Software LLC"), order) == Some("tech and software")
  {
    TechTidied();
    TechSuffixes(order);
    TechFinished();
    NormaliseFromStages("Tech & Software LLC", order, "tech & software llc", "tech & software", "tech and software");
  }

  lemma TechTidied()
    ensures Tidied("Tech & Software LLC") == "tech & software llc"
  {
    TechTrimmed();
    TechLower();
    TechNoBreaks();
    TechCollapsed();
    TidiedOfClean("Tech & Software LLC", "tech & software llc");
  }

  lemma TechTrimmed()
    ensures Trimmed("Tech & Software LLC") && Trimmed("tech & software") && Trimmed("tech and software")
  {
  }

  lemma TechLower()
    ensures Lower("Tech & Software LLC") == "tech & software llc"
  {
  }

  lemma TechNoBreaks()
    ensures NoBreaks("tech & software llc")
  {
  }

  lemma TechCollapsed()
    ensures IsCollapsed("tech & software llc")
  {
  }

  lemma TechSuffixes(order: seq<string>)
    requires IsSuffixOrder(order)
    ensures StripSuffixes("tech & software llc", order) == "tech & software"
  {
    TechDrop();
    TechTrimmed();
    CutSuffix("tech & software llc", "llc", "tech & software");
    TechOnlyLlc(order);
    StripSuffixesOne("tech & software llc", order, "llc");
  }

  lemma TechDrop()
    ensures EndsWith("tech & software llc", "llc") && DropLast("tech & software llc", 4) == "tech & software"
  {
  }

  lemma TechOnlyLlc(order: seq<string>)
    requires IsSuffixOrder(order)
    ensures "llc" in order
    ensures forall t :: t in order && t != "llc" ==> !EndsWith("tech & software llc", t)
    ensures forall t :: t in order ==> !EndsWith("tech & software", t)
  {
  }

  lemma TechFinished()
    ensures Finished("tech & software") == "tech and software"
  {
    TechAmpersand();
    TechAlnum();
    KeepAllKept("tech and software");
    TechTrimmed();
    StripTrimmed("tech and software");
  }

  lemma TechAmpersand()
    ensures Replace("tech & software", '&', "and") == "tech and software"
  {
    TechSplitAmpersand();
    ReplaceOnce("tech ", " software", '&', "and");
  }

  lemma TechSplitAmpersand()
    ensures "tech & software" == "tech " + ['&'] + " software"
    ensures '&' !in "tech " && '&' !in " software"
    ensures "tech " + "and" + " software" == "tech and software"
  {
  }

  lemma TechAlnum()
    ensures forall i :: 0 <= i < |"tech and software"| ==>
      IsAlnum("tech and software"[i]) || IsSpace("tech and software"[i])
  {
  }
}
