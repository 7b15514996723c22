/**
 * The Python string operations the normalisers are built from, over ASCII:
 * `str.isspace`, `str.isalnum`, `str.lower`, `str.upper`, `str.strip`,
 * `str.replace`, `str.endswith`, slicing with a negative bound and
 * `" ".join(s.split())`.
 */
module Text {

  /** `str.isspace` on ASCII: space, \t \n \v \f \r and the separators \x1c-\x1f. */
  predicate IsSpace(c: char) {
    c == ' ' || ('\t' <= c <= '\r') || ('\U{001C}' <= c <= '\U{001F}')
  }

  predicate IsUpper(c: char) { 'A' <= c <= 'Z' }

  predicate IsLower(c: char) { 'a' <= c <= 'z' }

  predicate IsDigit(c: char) { '0' <= c <= '9' }

  /** `str.isalnum` on ASCII. */
  predicate IsAlnum(c: char) { IsUpper(c) || IsLower(c) || IsDigit(c) }

  /** No character of `s` is an upper-case ASCII letter. */
  predicate NoUpper(s: string) { forall i :: 0 <= i < |s| ==> !IsUpper(s[i]) }

  /** No character of `s` is a lower-case ASCII letter. */
  predicate NoLower(s: string) { forall i :: 0 <= i < |s| ==> !IsLower(s[i]) }

  /** `s` neither starts nor ends with whitespace. */
  predicate Trimmed(s: string) {
    s == [] || (!IsSpace(s[0]) && !IsSpace(s[|s| - 1]))
  }

  function LowerChar(c: char): (d: char)
    ensures !IsUpper(d)
    ensures IsSpace(d) == IsSpace(c) && IsAlnum(d) == IsAlnum(c)
    ensures !IsUpper(c) ==> d == c
  {
    if IsUpper(c) then (c as int + 32) as char else c
  }

  function UpperChar(c: char): (d: char)
    ensures !IsLower(d)
    ensures IsSpace(d) == IsSpace(c)
    ensures !IsLower(c) ==> d == c
  {
    if IsLower(c) then (c as int - 32) as char else c
  }

  /** `str.lower`. */
  function Lower(s: string): (r: string)
    ensures |r| == |s| && NoUpper(r)
    ensures forall i :: 0 <= i < |s| ==> r[i] == LowerChar(s[i])
  {
    seq(|s|, i requires 0 <= i < |s| => LowerChar(s[i]))
  }

  /** `str.upper`. */
  function Upper(s: string): (r: string)
    ensures |r| == |s| && NoLower(r)
    ensures forall i :: 0 <= i < |s| ==> r[i] == UpperChar(s[i])
  {
    seq(|s|, i requires 0 <= i < |s| => UpperChar(s[i]))
  }

  lemma LowerOfLower(s: string)
    requires NoUpper(s)
    ensures Lower(s) == s
  {
  }

  lemma UpperOfUpper(s: string)
    requires NoLower(s)
    ensures Upper(s) == s
  {
  }

  /** `str.lstrip()`: drop the leading whitespace. */
  function LStrip(s: string): (r: string)
    ensures |r| <= |s| && r == s[|s| - |r|..]
    ensures r == [] || !IsSpace(r[0])
    decreases |s|
  {
    if s != [] && IsSpace(s[0]) then LStrip(s[1..]) else s
  }

  /** `str.rstrip()`: drop the trailing whitespace. */
  function RStrip(s: string): (r: string)
    ensures |r| <= |s| && r == s[..|r|]
    ensures r == [] || !IsSpace(r[|r| - 1])
    decreases |s|
  {
    if s != [] && IsSpace(s[|s| - 1]) then RStrip(s[..|s| - 1]) else s
  }

  /** `str.strip()`: drop the whitespace at both ends. */
  function Strip(s: string): (r: string)
    ensures Trimmed(r)
  {
    RStrip(LStrip(s))
  }

  /** Stripping only removes characters. */
  lemma StripChars(s: string)
    ensures forall c :: c in Strip(s) ==> c in s
  {
    var l := LStrip(s);
    var r := RStrip(l);
    forall c | c in r ensures c in s {
      assert c in l[..|r|];
      assert c in s[|s| - |l|..];
    }
  }

  /** Only an all-whitespace text strips to nothing. */
  lemma StripEmpty(s: string)
    ensures Strip(s) == [] <==> forall i :: 0 <= i < |s| ==> IsSpace(s[i])
  {
    if forall i :: 0 <= i < |s| ==> IsSpace(s[i]) {
      LStripAllSpace(s);
    } else {
      var i :| 0 <= i < |s| && !IsSpace(s[i]);
      LStripKeepsNonSpace(s, i);
      var l := LStrip(s);
      RStripKeepsNonSpace(l, i - (|s| - |l|));
    }
  }

  lemma {:induction false} LStripAllSpace(s: string)
    requires forall i :: 0 <= i < |s| ==> IsSpace(s[i])
    ensures LStrip(s) == []
    decreases |s|
  {
    if s != [] {
      LStripAllSpace(s[1..]);
    }
  }

  lemma {:induction false} LStripKeepsNonSpace(s: string, i: nat)
    requires i < |s| && !IsSpace(s[i])
    ensures |LStrip(s)| >= |s| - i
    decreases |s|
  {
    if IsSpace(s[0]) {
      LStripKeepsNonSpace(s[1..], i - 1);
    }
  }

  lemma {:induction false} RStripKeepsNonSpace(s: string, i: nat)
    requires i < |s| && !IsSpace(s[i])
    ensures |RStrip(s)| > i
    decreases |s|
  {
    if IsSpace(s[|s| - 1]) {
      RStripKeepsNonSpace(s[..|s| - 1], i);
    }
  }

  lemma StripTrimmed(s: string)
    requires Trimmed(s)
    ensures Strip(s) == s
  {
  }

  /** Stripping removes exactly the whitespace padding around a trimmed, non-empty core. */
  lemma StripPadded(a: string, core: string, b: string)
    requires forall i :: 0 <= i < |a| ==> IsSpace(a[i])
    requires forall i :: 0 <= i < |b| ==> IsSpace(b[i])
    requires core != [] && Trimmed(core)
    ensures Strip(a + core + b) == core
  {
    var t := core + b;
    assert a + core + b == a + t;
    LStripSpaces(a, t);
    RStripSpaces(core, b);
  }

  lemma {:induction false} LStripSpaces(a: string, t: string)
    requires forall i :: 0 <= i < |a| ==> IsSpace(a[i])
    requires t == [] || !IsSpace(t[0])
    ensures LStrip(a + t) == t
    decreases |a|
  {
    if a == [] {
      assert a + t == t;
    } else {
      assert (a + t)[1..] == a[1..] + t;
      LStripSpaces(a[1..], t);
    }
  }

  lemma {:induction false} RStripSpaces(t: string, b: string)
    requires forall i :: 0 <= i < |b| ==> IsSpace(b[i])
    requires t == [] || !IsSpace(t[|t| - 1])
    ensures RStrip(t + b) == t
    decreases |b|
  {
    if b == [] {
      assert t + b == t;
    } else {
      assert (t + b)[..|t + b| - 1] == t + b[..|b| - 1];
      RStripSpaces(t, b[..|b| - 1]);
    }
  }

  /** Stripping a text that starts with a non-space prefix only strips its end. */
  lemma {:induction false} StripAfterPrefix(p: string, s: string)
    requires p != [] && !IsSpace(p[0]) && !IsSpace(p[|p| - 1])
    requires s == [] || !IsSpace(s[0])
    ensures Strip(p + s) == p + Strip(s)
    decreases |s|
  {
    assert LStrip(p + s) == p + s;
    assert LStrip(s) == s;
    RStripAfterPrefix(p, s);
  }

  lemma {:induction false} RStripAfterPrefix(p: string, s: string)
    requires p != [] && !IsSpace(p[|p| - 1])
    ensures RStrip(p + s) == p + RStrip(s)
    decreases |s|
  {
    if s == [] {
      assert p + s == p;
    } else if IsSpace(s[|s| - 1]) {
      assert (p + s)[..|p + s| - 1] == p + s[..|s| - 1];
      RStripAfterPrefix(p, s[..|s| - 1]);
    } else {
    }
  }

  /** `s.startswith(t)`. */
  predicate StartsWith(s: string, t: string) {
    |t| <= |s| && s[..|t|] == t
  }

  /** `s.endswith(t)`. */
  predicate EndsWith(s: string, t: string) {
    |t| <= |s| && s[|s| - |t|..] == t
  }

  /** `s[:-k]` for `k >= 1`: everything but the last `k` characters, or "" when `s` is shorter. */
  function DropLast(s: string, k: nat): (r: string)
    ensures |r| <= |s| && r == s[..|r|]
    ensures |r| == if k <= |s| then |s| - k else 0
  {
    if k <= |s| then s[..|s| - k] else []
  }

  /** `s.replace(c, t)` for a single character `c`. */
  function Replace(s: string, c: char, t: string): (r: string)
    decreases |s|
  {
    if s == [] then [] else (if s[0] == c then t else [s[0]]) + Replace(s[1..], c, t)
  }

  /** A replacement's characters come from `s` (other than `c`) or from `t`. */
  lemma {:induction false} ReplaceChars(s: string, c: char, t: string)
    ensures forall x :: x in Replace(s, c, t) ==> (x in s && x != c) || x in t
    decreases |s|
  {
    if s != [] {
      ReplaceChars(s[1..], c, t);
      assert forall x :: x in s[1..] ==> x in s;
    }
  }

  /** `"".join(ch for ch in s if ch.isalnum() or ch.isspace())`. */
  function KeepAlnumOrSpace(s: string): (r: string)
    decreases |s|
  {
    if s == [] then []
    else (if IsAlnum(s[0]) || IsSpace(s[0]) then [s[0]] else []) + KeepAlnumOrSpace(s[1..])
  }

  /** The filter keeps only letters, digits and whitespace of `s`. */
  lemma {:induction false} KeepChars(s: string)
    ensures forall x :: x in KeepAlnumOrSpace(s) ==> x in s && (IsAlnum(x) || IsSpace(x))
    decreases |s|
  {
    if s != [] {
      KeepChars(s[1..]);
      assert forall x :: x in s[1..] ==> x in s;
    }
  }


  /** Replacing a character that does not occur changes nothing. */
  lemma {:induction false} ReplaceAbsent(s: string, c: char, t: string)
    requires c !in s
    ensures Replace(s, c, t) == s
    decreases |s|
  {
    if s != [] {
      assert c !in s[1..];
      ReplaceAbsent(s[1..], c, t);
    }
  }

  /** Replacement works character by character, so it distributes over concatenation. */
  lemma {:induction false} ReplaceConcat(a: string, b: string, c: char, t: string)
    ensures Replace(a + b, c, t) == Replace(a, c, t) + Replace(b, c, t)
    decreases |a|
  {
    if a == [] {
      assert a + b == b;
    } else {
      assert (a + b)[0] == a[0];
      assert (a + b)[1..] == a[1..] + b;
      ReplaceConcat(a[1..], b, c, t);
    }
  }

  /** Replacing the one occurrence of `c`. */
  lemma ReplaceOnce(a: string, b: string, c: char, t: string)
    requires c !in a && c !in b
    ensures Replace(a + [c] + b, c, t) == a + t + b
  {
    ReplaceConcat(a + [c], b, c, t);
    ReplaceConcat(a, [c], c, t);
    ReplaceAbsent(a, c, t);
    ReplaceAbsent(b, c, t);
  }

  /** Deleting a character keeps the first character when it is not the one deleted. */
  lemma ReplaceKeepsFirst(s: string, c: char)
    requires s != [] && s[0] != c
    ensures Replace(s, c, []) != [] && Replace(s, c, [])[0] == s[0]
  {
  }

  /** Deleting a character keeps the last character when it is not the one deleted. */
  lemma {:induction false} ReplaceKeepsLast(s: string, c: char)
    requires s != [] && s[|s| - 1] != c
    ensures Replace(s, c, []) != [] && Replace(s, c, [])[|Replace(s, c, [])| - 1] == s[|s| - 1]
    decreases |s|
  {
    if |s| > 1 {
      ReplaceKeepsLast(s[1..], c);
    }
  }

  /** A string of letters, digits and whitespace passes the filter unchanged. */
  lemma {:induction false} KeepAllKept(s: string)
    requires forall i :: 0 <= i < |s| ==> IsAlnum(s[i]) || IsSpace(s[i])
    ensures KeepAlnumOrSpace(s) == s
    decreases |s|
  {
    if s != [] {
      KeepAllKept(s[1..]);
    }
  }

  /** The filter works character by character, so it distributes over concatenation. */
  lemma {:induction false} KeepConcat(a: string, b: string)
    ensures KeepAlnumOrSpace(a + b) == KeepAlnumOrSpace(a) + KeepAlnumOrSpace(b)
    decreases |a|
  {
    if a == [] {
      assert a + b == b;
    } else {
      assert (a + b)[0] == a[0];
      assert (a + b)[1..] == a[1..] + b;
      KeepConcat(a[1..], b);
    }
  }

  /** `s` contains no whitespace at all. */
  predicate NoSpace(w: string) { forall i :: 0 <= i < |w| ==> !IsSpace(w[i]) }

  /** The longest prefix of `s` without whitespace. */
  function WordPrefix(s: string): (w: string)
    ensures |w| <= |s| && w == s[..|w|] && NoSpace(w)
    ensures |w| == |s| || IsSpace(s[|w|])
    decreases |s|
  {
    if s == [] || IsSpace(s[0]) then [] else [s[0]] + WordPrefix(s[1..])
  }

  /** Every entry is a non-empty run of non-whitespace. */
  predicate AllWords(ws: seq<string>) {
    forall k :: 0 <= k < |ws| ==> ws[k] != [] && NoSpace(ws[k])
  }

  lemma AllWordsCons(w: string, ws: seq<string>)
    requires w != [] && NoSpace(w) && AllWords(ws)
    ensures AllWords([w] + ws)
  {
    var r := [w] + ws;
    forall k | 0 <= k < |r| ensures r[k] != [] && NoSpace(r[k]) {
      if k > 0 { assert r[k] == ws[k - 1]; }
    }
  }

  /** `s.split()` with no separator: the maximal runs of non-whitespace, in order. */
  function Split(s: string): (ws: seq<string>)
    ensures AllWords(ws)
    decreases |s|
  {
    if s == [] then []
    else if IsSpace(s[0]) then Split(s[1..])
    else
      var w := WordPrefix(s);
      var rest := Split(s[|w|..]);
      AllWordsCons(w, rest);
      [w] + rest
  }

  lemma {:induction false} SplitChars(s: string)
    ensures forall k, x :: 0 <= k < |Split(s)| && x in Split(s)[k] ==> x in s
    decreases |s|
  {
    if s == [] {
    } else if IsSpace(s[0]) {
      SplitChars(s[1..]);
      assert Split(s) == Split(s[1..]);
      forall k, x | 0 <= k < |Split(s)| && x in Split(s)[k] ensures x in s {
        assert x in Split(s[1..])[k];
        assert x in s[1..];
      }
    } else {
      var w := WordPrefix(s);
      var rest := s[|w|..];
      SplitChars(rest);
      var ws := Split(s);
      assert ws == [w] + Split(rest);
      forall k, x | 0 <= k < |ws| && x in ws[k] ensures x in s {
        if k > 0 {
          assert x in Split(rest)[k - 1];
          assert x in rest;
        } else {
          assert x in s[..|w|];
        }
      }
    }
  }

  /** `" ".join(ws)`. */
  function JoinWithSpace(ws: seq<string>): string
  {
    if ws == [] then [] else if |ws| == 1 then ws[0] else ws[0] + " " + JoinWithSpace(ws[1..])
  }

  /** `" ".join(s.split())`: whitespace runs become single spaces, and the ends are trimmed. */
  function Collapse(s: string): (r: string)
    ensures forall x :: x in r ==> x == ' ' || (x in s && !IsSpace(x))
    ensures r == [] || (r[0] != ' ' && r[|r| - 1] != ' ')
  {
    var ws := Split(s);
    SplitChars(s);
    JoinedChars(ws);
    JoinWithSpace(ws)
  }

  lemma {:induction false} JoinedChars(ws: seq<string>)
    requires AllWords(ws)
    ensures forall x :: x in JoinWithSpace(ws) ==> x == ' ' || exists k :: 0 <= k < |ws| && x in ws[k] && !IsSpace(x)
    ensures JoinWithSpace(ws) == [] || (JoinWithSpace(ws)[0] != ' ' && JoinWithSpace(ws)[|JoinWithSpace(ws)| - 1] != ' ')
  {
    if |ws| > 1 {
      JoinedChars(ws[1..]);
      var j := JoinWithSpace(ws);
      assert j == ws[0] + " " + JoinWithSpace(ws[1..]);
      forall x | x in j ensures x == ' ' || exists k :: 0 <= k < |ws| && x in ws[k] && !IsSpace(x) {
        if x in ws[0] {
          var i :| 0 <= i < |ws[0]| && ws[0][i] == x;
        } else if x != ' ' {
          assert x in JoinWithSpace(ws[1..]);
          var k :| 0 <= k < |ws[1..]| && x in ws[1..][k] && !IsSpace(x);
          assert x in ws[k + 1];
        }
      }
      assert j[0] == ws[0][0];
    } else if |ws| == 1 {
      forall x | x in ws[0] ensures !IsSpace(x) {
        var i :| 0 <= i < |ws[0]| && ws[0][i] == x;
      }
    }
  }

  /** Only `' '` as whitespace, no space at either end, and never two spaces in a row. */
  predicate IsCollapsed(s: string) {
    && (forall i :: 0 <= i < |s| && IsSpace(s[i]) ==> s[i] == ' ')
    && (s == [] || (s[0] != ' ' && s[|s| - 1] != ' '))
    && (forall i :: 0 <= i < |s| - 1 && s[i] == ' ' ==> s[i + 1] != ' ')
  }

  /** Collapsing a text whose whitespace is already collapsed changes nothing. */
  lemma CollapseCollapsed(s: string)
    requires IsCollapsed(s)
    ensures Collapse(s) == s
  {
    SplitCollapsed(s);
  }

  lemma {:induction false} SplitCollapsed(s: string)
    requires IsCollapsed(s)
    ensures s != [] ==> Split(s) != []
    ensures JoinWithSpace(Split(s)) == s
    decreases |s|
  {
    if s != [] {
      var w := WordPrefix(s);
      if |w| < |s| {
        var rest := s[|w| + 1..];
        assert s[|w|] == ' ';
        assert s == w + " " + rest;
        assert IsCollapsed(rest) by {
          forall i | 0 <= i < |rest| - 1 && rest[i] == ' ' ensures rest[i + 1] != ' ' {
            assert s[|w| + 1 + i] == ' ';
          }
        }
        SplitCollapsed(rest);
        SplitAfterWord(w, rest);
      } else {
        SplitWord(s);
      }
    }
  }

  lemma SplitWord(w: string)
    requires w != [] && NoSpace(w)
    ensures Split(w) == [w]
  {
    WordPrefixWhole(w);
    assert w[|w|..] == [];
  }

  lemma {:induction false} WordPrefixWhole(w: string)
    requires NoSpace(w)
    ensures WordPrefix(w) == w
    decreases |w|
  {
    if w != [] {
      WordPrefixWhole(w[1..]);
    }
  }

  lemma {:induction false} WordPrefixBeforeSpace(w: string, rest: string)
    requires NoSpace(w)
    ensures WordPrefix(w + " " + rest) == w
    decreases |w|
  {
    if w != [] {
      assert (w + " " + rest)[1..] == w[1..] + " " + rest;
      WordPrefixBeforeSpace(w[1..], rest);
    }
  }

  lemma SplitAfterWord(w: string, rest: string)
    requires w != [] && NoSpace(w)
    requires rest != [] && !IsSpace(rest[0])
    ensures Split(w + " " + rest) == [w] + Split(rest)
  {
    SplitFirstWord(w, rest);
    SplitSkipsSpace(rest);
  }

  lemma SplitFirstWord(w: string, rest: string)
    requires w != [] && NoSpace(w)
    ensures Split(w + " " + rest) == [w] + Split(" " + rest)
  {
    var s := w + " " + rest;
    WordPrefixBeforeSpace(w, rest);
    assert s[0] == w[0];
    assert s[|w|..] == " " + rest;
  }

  lemma SplitSkipsSpace(rest: string)
    ensures Split(" " + rest) == Split(rest)
  {
    assert (" " + rest)[1..] == rest;
  }
}
