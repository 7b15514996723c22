/**
 * `normalise_post_code`: trim, upper-case, then delete every line feed, carriage
 * return, tab and space.
 */
module PostCode {
  import opened Text
  import opened Wrappers

  /** The characters the normaliser deletes. */
  predicate IsGap(c: char) {
    c == '\n' || c == '\r' || c == '\t' || c == ' '
  }

  /** `.replace("\n", "").replace("\r", "").replace("\t", "").replace(" ", "")`. */
  function RemoveGaps(s: string): string {
    Replace(Replace(Replace(Replace(s, '\n', ""), '\r', ""), '\t', ""), ' ', "")
  }

  /** Upper case, with none of the deleted characters. */
  predicate IsPostCodeText(r: string) {
    NoLower(r) && forall i :: 0 <= i < |r| ==> !IsGap(r[i])
  }

  /** `normalise_post_code`. */
  function NormalisePostCode(postcode: Option<string>): (r: Option<string>)
    ensures postcode.None? || postcode.value == "" ==> r.None?
    ensures r.Some? ==> r.value != "" && IsPostCodeText(r.value) && Trimmed(r.value)
  {
    if postcode.None? || postcode.value == "" then None
    else
      var upper := Upper(Strip(postcode.value));
      UpperTrimmed(Strip(postcode.value));
      RemoveGapsShape(upper);
      var r := RemoveGaps(upper);
      if r == "" then None else Some(r)
  }

  /** Upper-casing keeps a text trimmed. */
  lemma UpperTrimmed(s: string)
    requires Trimmed(s)
    ensures Trimmed(Upper(s)) && NoLower(Upper(s))
  {
  }

  /** What is left after deleting is upper case, gap-free and, when non-empty, trimmed. */
  lemma RemoveGapsShape(s: string)
    requires NoLower(s) && Trimmed(s)
    ensures IsPostCodeText(RemoveGaps(s))
    ensures s != [] ==> RemoveGaps(s) != [] && Trimmed(RemoveGaps(s))
  {
    RemoveGapsChars(s);
    if s != [] {
      RemoveGapsEnds(s);
    }
  }

  /** Deleting keeps the other characters of `s`, and only those. */
  lemma RemoveGapsChars(s: string)
    requires NoLower(s)
    ensures IsPostCodeText(RemoveGaps(s))
  {
    var s1 := Replace(s, '\n', "");
    var s2 := Replace(s1, '\r', "");
    var s3 := Replace(s2, '\t', "");
    var r := Replace(s3, ' ', "");
    ReplaceChars(s, '\n', "");
    ReplaceChars(s1, '\r', "");
    ReplaceChars(s2, '\t', "");
    ReplaceChars(s3, ' ', "");
    forall i | 0 <= i < |r| ensures !IsLower(r[i]) && !IsGap(r[i]) {
      assert r[i] in r;
      var j :| 0 <= j < |s| && s[j] == r[i];
    }
  }

  /** The deleted characters are whitespace, so a trimmed text keeps its first and last characters. */
  lemma RemoveGapsEnds(s: string)
    requires s != [] && !IsSpace(s[0]) && !IsSpace(s[|s| - 1])
    ensures RemoveGaps(s) != [] && Trimmed(RemoveGaps(s))
  {
    var s1 := Replace(s, '\n', "");
    var s2 := Replace(s1, '\r', "");
    var s3 := Replace(s2, '\t', "");
    ReplaceKeepsFirst(s, '\n');
    ReplaceKeepsLast(s, '\n');
    ReplaceKeepsFirst(s1, '\r');
    ReplaceKeepsLast(s1, '\r');
    ReplaceKeepsFirst(s2, '\t');
    ReplaceKeepsLast(s2, '\t');
    ReplaceKeepsFirst(s3, ' ');
    ReplaceKeepsLast(s3, ' ');
  }

  /** A text without the deleted characters is left alone. */
  lemma RemoveGapsNoop(s: string)
    requires forall i :: 0 <= i < |s| ==> !IsGap(s[i])
    ensures RemoveGaps(s) == s
  {
    assert forall c :: c in s ==> !IsGap(c);
    ReplaceAbsent(s, '\n', "");
    ReplaceAbsent(s, '\r', "");
    ReplaceAbsent(s, '\t', "");
    ReplaceAbsent(s, ' ', "");
  }

  /** Blank text has no post code. */
  lemma BlankPostCode(s: string)
    requires forall i :: 0 <= i < |s| ==> IsSpace(s[i])
    ensures NormalisePostCode(Some(s)) == None
  {
    StripEmpty(s);
  }

  /** Normalising a normalised post code gives it back. */
  lemma NormalisedPostCodeFixpoint(p: string)
    requires p != "" && IsPostCodeText(p) && Trimmed(p)
    ensures NormalisePostCode(Some(p)) == Some(p)
  {
    StripTrimmed(p);
    UpperOfUpper(p);
    RemoveGapsNoop(p);
  }

  /** Applying the normaliser twice is the same as applying it once. */
  lemma NormalisePostCodeIdempotent(postcode: Option<string>)
    ensures var once := NormalisePostCode(postcode);
      once.Some? ==> NormalisePostCode(once) == once
  {
    var once := NormalisePostCode(postcode);
    if once.Some? {
      NormalisedPostCodeFixpoint(once.value);
    }
  }

  /** One space between two gap-free parts is the only thing deleted. */
  lemma OneGap(s: string, a: string, b: string)
    requires s == a + [' '] + b
    requires forall i :: 0 <= i < |a| ==> !IsGap(a[i])
    requires forall i :: 0 <= i < |b| ==> !IsGap(b[i])
    ensures RemoveGaps(s) == a + b
  {
    forall c | c in s ensures c == ' ' || !IsGap(c) {
      var i :| 0 <= i < |s| && s[i] == c;
      if i < |a| {
        assert c == a[i];
      } else if i > |a| {
        assert c == b[i - |a| - 1];
      }
    }
    ReplaceAbsent(s, '\n', "");
    ReplaceAbsent(s, '\r', "");
    ReplaceAbsent(s, '\t', "");
    assert ' ' !in a && ' ' !in b;
    ReplaceOnce(a, b, ' ', "");
    assert a + [] + b == a + b;
  }

  /**
   * A post code written as two gap-free parts separated by one space, with
   * whitespace padding around it, comes out upper-cased and with the space removed.
   */
  lemma PaddedPostCode(x: string, pad: string, core: string, trail: string, a: string, b: string)
    requires x == pad + core + trail
    requires forall i :: 0 <= i < |pad| ==> IsSpace(pad[i])
    requires forall i :: 0 <= i < |trail| ==> IsSpace(trail[i])
    requires core != [] && Trimmed(core)
    requires Upper(core) == a + [' '] + b && a != []
    requires forall i :: 0 <= i < |a| ==> !IsGap(a[i])
    requires forall i :: 0 <= i < |b| ==> !IsGap(b[i])
    ensures NormalisePostCode(Some(x)) == Some(a + b)
  {
    StripPadded(pad, core, trail);
    OneGap(Upper(core), a, b);
  }

  lemma SpacedPostCodeParts()
    ensures Upper("SW1A 1AA") == "SW1A" + [' '] + "1AA"
    ensures Trimmed("SW1A 1AA")
    ensures "SW1A" + "1AA" == "SW1A1AA"
  {
    UpperOfUpper("SW1A 1AA");
  }

  lemma PaddedPostCodeParts()
    ensures Upper("m1 1aa") == "M1" + [' '] + "1AA"
    ensures Trimmed("m1 1aa")
    ensures "  m1 1aa  " == "  " + "m1 1aa" + "  "
    ensures "M1" + "1AA" == "M11AA"
  {
  }

  lemma SpacedExample()
    ensures NormalisePostCode(Some("SW1A 1AA")) == Some("SW1A1AA")
  {
    SpacedPostCodeParts();
    assert "SW1A 1AA" == [] + "SW1A 1AA" + [];
    PaddedPostCode("SW1A 1AA", [], "SW1A 1AA", [], "SW1A", "1AA");
  }

  lemma PaddedExample()
    ensures NormalisePostCode(Some("  m1 1aa  ")) == Some("M11AA")
  {
    PaddedPostCodeParts();
    PaddedPostCode("  m1 1aa  ", "  ", "m1 1aa", "  ", "M1", "1AA");
  }

  /** The documented examples: `"SW1A 1AA"` and `"  m1 1aa  "`. */
  lemma DocumentedExamples()
    ensures NormalisePostCode(Some("SW1A 1AA")) == Some("SW1A1AA")
    ensures NormalisePostCode(Some("  m1 1aa  ")) == Some("M11AA")
  {
    SpacedExample();
    PaddedExample();
  }
}
