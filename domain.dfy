/**
 * `normalise_domain`: trim, drop one leading `@`, read the URL authority (adding an
 * `http://` scheme when the text has none), then drop the port, one `www.` prefix and
 * upper case.
 *
 * `urlsplit` is modelled only as far as this use needs it: after a scheme of `http`
 * or `https` in any case, the network location is the text that follows `//` up to
 * the first `/`, `?` or `#` (section 3.2 of RFC 3986).
 */
module Domain {
  import opened Text
  import opened Wrappers

  /** `s.lower().startswith(("http://", "https://"))`. */
  predicate HasHttpScheme(s: string) {
    StartsWith(Lower(s), "http://") || StartsWith(Lower(s), "https://")
  }

  /** The characters that end the network location of a URL. */
  const NetlocEnd: set<char> := {'/', '?', '#'}

  /** The text of `s` before the first character of `stops`, or all of `s` when there is none. */
  function PrefixBefore(s: string, stops: set<char>): (r: string)
    ensures |r| <= |s| && r == s[..|r|]
    ensures forall i :: 0 <= i < |r| ==> r[i] !in stops
    ensures |r| < |s| ==> s[|r|] in stops
    decreases |s|
  {
    if s == [] || s[0] in stops then [] else [s[0]] + PrefixBefore(s[1..], stops)
  }

  /** The network location `urlsplit` reads from a URL with an `http` or `https` scheme. */
  function Netloc(url: string): (r: string)
    requires HasHttpScheme(url)
  {
    var rest := if StartsWith(Lower(url), "http://") then url[7..] else url[8..];
    PrefixBefore(rest, NetlocEnd)
  }

  /** `domain.split(":")[0]`: the text before the first colon. */
  function DropPort(netloc: string): (r: string) {
    PrefixBefore(netloc, {':'})
  }

  /** Drop a `www.` prefix, matched without regard to case. */
  function DropWww(host: string): (r: string) {
    if StartsWith(Lower(host), "www.") then host[4..] else host
  }

  /** The text with an `http://` scheme added when it has no `http` or `https` scheme. */
  function WithScheme(s: string): (url: string)
    ensures HasHttpScheme(url)
  {
    if HasHttpScheme(s) then s
    else
      assert Lower("http://" + s)[..7] == "http://";
      "http://" + s
  }

  /** A trimmed text without one leading `@`. */
  function DropAt(stripped: string): string {
    if StartsWith(stripped, "@") then stripped[1..] else stripped
  }

  /** The lower-case host name of a network location: no port, no `www.` prefix. */
  function HostName(netloc: string): string {
    Lower(DropWww(DropPort(netloc)))
  }

  /** The host name the normaliser reads from a trimmed, non-empty text. */
  function HostOf(stripped: string): (h: string)
    ensures IsDomainText(h)
  {
    HostChars(stripped);
    HostName(Netloc(WithScheme(DropAt(stripped))))
  }

  /** Lower case, without a colon, slash, question mark or hash. */
  predicate IsDomainText(h: string) {
    NoUpper(h) && forall i :: 0 <= i < |h| ==> h[i] != ':' && h[i] !in NetlocEnd
  }

  /** `normalise_domain`. */
  function NormaliseDomain(url: Option<string>): (r: Option<string>)
    ensures url.None? || url.value == "" ==> r.None?
    ensures r.Some? ==> r.value != "" && IsDomainText(r.value)
  {
    if url.None? || url.value == "" then None
    else
      var stripped := Strip(url.value);
      if stripped == "" then None else DomainOf(HostOf(stripped))
  }

  /** `domain if domain else None`: a non-empty host text is the domain. */
  function DomainOf(host: string): (r: Option<string>)
    ensures r.Some? ==> r.value == host && host != ""
    ensures host != "" ==> r.Some?
  {
    if host == "" then None else Some(host)
  }

  /** The host has no colon and none of the characters that end a network location. */
  lemma HostChars(stripped: string)
    ensures IsDomainText(HostName(Netloc(WithScheme(DropAt(stripped)))))
  {
    var netloc := Netloc(WithScheme(DropAt(stripped)));
    assert forall i :: 0 <= i < |netloc| ==> netloc[i] !in NetlocEnd;
    HostNameChars(netloc);
  }

  lemma HostNameChars(netloc: string)
    requires forall i :: 0 <= i < |netloc| ==> netloc[i] !in NetlocEnd
    ensures IsDomainText(HostName(netloc))
  {
    var host := DropPort(netloc);
    var h := DropWww(host);
    assert forall i :: 0 <= i < |host| ==> host[i] != ':' && host[i] !in NetlocEnd;
    assert forall i :: 0 <= i < |h| ==> h[i] != ':' && h[i] !in NetlocEnd;
    var l := Lower(h);
    forall i | 0 <= i < |l| ensures l[i] != ':' && l[i] !in NetlocEnd {
      assert l[i] == LowerChar(h[i]);
    }
  }

  /** Whitespace-only text has no domain. */
  lemma BlankDomain(s: string)
    requires forall i :: 0 <= i < |s| ==> IsSpace(s[i])
    ensures NormaliseDomain(Some(s)) == None
  {
    StripEmpty(s);
  }

  /** `PrefixBefore` is pinned down by the position of the first stop character. */
  lemma PrefixBeforeAt(s: string, stops: set<char>, k: nat)
    requires k <= |s|
    requires forall i :: 0 <= i < k ==> s[i] !in stops
    requires k < |s| ==> s[k] in stops
    ensures PrefixBefore(s, stops) == s[..k]
  {
  }

  /** After a scheme the network location is read from the rest of the text. */
  lemma NetlocAfterScheme(scheme: string, t: string)
    requires scheme == "http://" || scheme == "https://"
    ensures HasHttpScheme(scheme + t)
    ensures Netloc(scheme + t) == PrefixBefore(t, NetlocEnd)
  {
    var u := scheme + t;
    assert Lower(u)[..|scheme|] == scheme by {
      forall i | 0 <= i < |scheme| ensures Lower(u)[i] == scheme[i] {
        assert u[i] == scheme[i];
      }
    }
    if scheme == "https://" {
      assert Lower(u)[4] == 's';
      assert !StartsWith(Lower(u), "http://");
    }
    assert u[|scheme|..] == t;
  }

  /** A scheme can only be seen at the start of a text that has no leading whitespace and survives trimming. */
  lemma SchemeOfStripped(s: string)
    requires s == [] || !IsSpace(s[0])
    requires HasHttpScheme(Strip(s))
    ensures HasHttpScheme(s)
  {
    var t := Strip(s);
    assert LStrip(s) == s;
    assert t == s[..|t|];
    assert Lower(t) == Lower(s)[..|t|];
  }

  /** A text that trims to a non-empty text has the domain read from that text. */
  lemma StrippedDomain(x: string)
    requires Strip(x) != ""
    ensures NormaliseDomain(Some(x)) == DomainOf(HostOf(Strip(x)))
  {
  }

  /** Trimming keeps the first character of a text that does not start with whitespace. */
  lemma StripKeepsHead(s: string)
    requires s != [] && !IsSpace(s[0])
    ensures Strip(s) != [] && Strip(s)[0] == s[0]
  {
    StripEmpty(s);
    assert LStrip(s) == s;
  }

  /** The host read from a text with an `http` or `https` scheme in front. */
  lemma HostOfSchemed(scheme: string, t: string)
    requires scheme == "http://" || scheme == "https://"
    ensures HostOf(scheme + t) == HostName(PrefixBefore(t, NetlocEnd))
  {
    assert (scheme + t)[0] == 'h';
    assert DropAt(scheme + t) == scheme + t;
    NetlocAfterScheme(scheme, t);
  }

  /** The host read from a text without a scheme or a leading `@`. */
  lemma HostOfPlain(t: string)
    requires t != [] && t[0] != '@' && !HasHttpScheme(t)
    ensures HostOf(t) == HostName(PrefixBefore(t, NetlocEnd))
  {
    assert DropAt(t) == t by {
      assert t[..1][0] == t[0];
    }
    assert WithScheme(t) == "http://" + t;
    NetlocAfterScheme("http://", t);
  }

  /**
   * Writing `http://` or `https://` in front of a text without a scheme, a leading
   * `@` or leading whitespace does not change its domain.
   */
  lemma SchemePrefixIgnored(scheme: string, s: string)
    requires scheme == "http://" || scheme == "https://"
    requires s == [] || (!IsSpace(s[0]) && s[0] != '@')
    requires !HasHttpScheme(s)
    ensures NormaliseDomain(Some(scheme + s)) == NormaliseDomain(Some(s))
  {
    StripAfterPrefix(scheme, s);
    if s != [] {
      SchemeBeforeText(scheme, s);
    } else {
      StrippedDomain(scheme + s);
      HostOfSchemed(scheme, Strip(s));
      EmptyHost();
    }
  }

  lemma SchemeBeforeText(scheme: string, s: string)
    requires scheme == "http://" || scheme == "https://"
    requires s != [] && !IsSpace(s[0]) && s[0] != '@'
    requires !HasHttpScheme(s)
    requires Strip(scheme + s) == scheme + Strip(s)
    ensures NormaliseDomain(Some(scheme + s)) == NormaliseDomain(Some(s))
  {
    var t := Strip(s);
    HostOfSchemed(scheme, t);
    StripKeepsHead(s);
    if HasHttpScheme(t) {
      SchemeOfStripped(s);
    }
    HostOfPlain(t);
    SameHost(scheme + s, s);
  }

  /** One leading `@` is dropped before the URL is read. */
  lemma HostOfAt(t: string)
    requires t == [] || t[0] != '@'
    ensures HostOf("@" + t) == HostOf(t)
  {
    assert ("@" + t)[1..] == t;
    assert DropAt("@" + t) == t;
    if t != [] {
      assert t[..1][0] == t[0];
    }
    assert DropAt(t) == t;
  }

  /** A leading `@` is ignored, once. */
  lemma AtPrefixIgnored(s: string)
    requires s == [] || (!IsSpace(s[0]) && s[0] != '@')
    ensures NormaliseDomain(Some("@" + s)) == NormaliseDomain(Some(s))
  {
    var t := Strip(s);
    StripAfterPrefix("@", s);
    if s != [] {
      StripKeepsHead(s);
      HostOfAt(t);
      SameHost("@" + s, s);
    } else {
      StrippedDomain("@" + s);
      HostOfAt(t);
      EmptyHost();
    }
  }

  /** Two texts that trim to texts with the same host have the same domain. */
  lemma SameHost(x: string, y: string)
    requires Strip(x) != "" && Strip(y) != ""
    requires HostOf(Strip(x)) == HostOf(Strip(y))
    ensures NormaliseDomain(Some(x)) == NormaliseDomain(Some(y))
  {
  }

  /** The empty text has no host. */
  lemma EmptyHost()
    ensures HostOf([]) == [] && HostName(PrefixBefore([], NetlocEnd)) == []
  {
    assert DropAt([]) == [];
    assert WithScheme([]) == "http://" + [];
    NetlocAfterScheme("http://", []);
  }

  /**
   * A text that is already a trimmed lower-case host name: no `@` in front, and no
   * colon, slash, question mark or hash.
   */
  predicate IsHostText(d: string) {
    && d != ""
    && Trimmed(d)
    && NoUpper(d)
    && d[0] != '@'
    && (forall i :: 0 <= i < |d| ==> d[i] != ':' && d[i] !in NetlocEnd)
  }

  /** On a host text the normaliser only drops a `www.` prefix. */
  lemma HostTextDomain(d: string)
    requires IsHostText(d)
    ensures NormaliseDomain(Some(d)) == if DropWww(d) == "" then None else Some(DropWww(d))
  {
    StripTrimmed(d);
    assert DropAt(d) == d;
    assert !HasHttpScheme(d) by {
      LowerOfLower(d);
      if |d| >= 7 {
        assert d[4] != ':' && d[5] != ':';
      }
    }
    NetlocAfterScheme("http://", d);
    PrefixBeforeAt(d, NetlocEnd, |d|);
    PrefixBeforeAt(d, {':'}, |d|);
    var w := DropWww(d);
    assert NoUpper(w);
    LowerOfLower(w);
  }

  /** A host text without a `www.` prefix is its own domain. */
  lemma CanonicalDomain(d: string)
    requires IsHostText(d) && !StartsWith(d, "www.")
    ensures NormaliseDomain(Some(d)) == Some(d)
  {
    HostTextDomain(d);
    LowerOfLower(d);
  }

  /**
   * Only one `www.` is dropped: the normaliser is not idempotent, since
   * "www.www.example.com" gives "www.example.com", which gives "example.com".
   */
  lemma WwwDroppedOnce(d: string)
    requires IsHostText(d)
    ensures NormaliseDomain(Some("www." + d)) == Some(d)
  {
    var w := "www." + d;
    assert w[..4] == "www." && w[4..] == d;
    assert IsHostText(w) by {
      assert forall i :: 4 <= i < |w| ==> w[i] == d[i - 4];
    }
    HostTextDomain(w);
    LowerOfLower(w);
  }

  /** The example of the source's documentation: scheme, `www.`, port, path and query all go. */
  lemma DocumentedExample()
    ensures NormaliseDomain(Some("https://www.example.com:8080/path?q=1")) == Some("example.com")
  {
    ExampleUrlPieces();
    StripTrimmed("https://www.example.com:8080/path?q=1");
    StrippedDomain("https://www.example.com:8080/path?q=1");
    HostOfSchemed("https://", "www.example.com:8080/path?q=1");
    ExampleNetloc();
    PrefixBeforeAt("www.example.com:8080/path?q=1", NetlocEnd, 20);
    ExampleHost();
  }

  /**
   * The documentation also promises "sub.domain.co.uk" gives "domain.co.uk"; the code
   * keeps every label, and so does the model.
   */
  lemma SubdomainKept()
    ensures NormaliseDomain(Some("sub.domain.co.uk")) == Some("sub.domain.co.uk")
  {
    SubdomainHostText();
    CanonicalDomain("sub.domain.co.uk");
  }

  // ---------------------------------------------------------------------------
  // The literal steps behind the two examples above, one stage of the
  // normaliser per lemma.
  // ---------------------------------------------------------------------------

  lemma ExampleUrlPieces()
    ensures Trimmed("https://www.example.com:8080/path?q=1")
    ensures "https://www.example.com:8080/path?q=1" == "https://" + "www.example.com:8080/path?q=1"
  {
    ExampleUrlTrimmed();
    ExampleUrlSplit();
  }

  lemma ExampleUrlTrimmed()
    ensures Trimmed("https://www.example.com:8080/path?q=1")
  {
  }

  lemma ExampleUrlSplit()
    ensures "https://www.example.com:8080/path?q=1" == "https://" + "www.example.com:8080/path?q=1"
  {
  }

  lemma ExampleNetloc()
    ensures var r := "www.example.com:8080/path?q=1";
      && (forall i :: 0 <= i < 20 ==> r[i] !in NetlocEnd)
      && r[20] in NetlocEnd
      && r[..20] == "www.example.com:8080"
  {
  }

  lemma ExampleHost()
    ensures HostName("www.example.com:8080") == "example.com"
  {
    ExamplePort();
    PrefixBeforeAt("www.example.com:8080", {':'}, 15);
    ExampleWww();
  }

  lemma ExamplePort()
    ensures var n := "www.example.com:8080";
      && (forall i :: 0 <= i < 15 ==> n[i] !in {':'})
      && n[15] in {':'}
      && n[..15] == "www.example.com"
  {
  }

  lemma ExampleWww()
    ensures DropWww("www.example.com") == "example.com"
    ensures Lower("example.com") == "example.com"
  {
    ExampleLowerCase();
    LowerOfLower("www.example.com");
    LowerOfLower("example.com");
    assert "www.example.com"[4..] == "example.com";
  }

  lemma ExampleLowerCase()
    ensures NoUpper("www.example.com") && NoUpper("example.com")
  {
  }

  lemma SubdomainHostText()
    ensures IsHostText("sub.domain.co.uk") && !StartsWith("sub.domain.co.uk", "www.")
  {
  }
}
