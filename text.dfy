/**
 * The Python string operations the extraction code is built from, over
 * `string` (= seq<char>): `str.isspace`, `str.lower`, `str.strip`, `str.split()`,
 * `str.splitlines`, `str.split(c)`, `str.replace`, `str.startswith`/`endswith`,
 * the `in` substring test, `re.sub(r"\s+", " ", s)` and the driver of `re.split`.
 */
module Text {

  /** `c.isspace()`, which is also what the regex class `\s` matches in a str pattern. */
  predicate IsSpace(c: char)
  {
    c == ' ' || ('\t' <= c <= '\r') || ('\U{1C}' <= c <= '\U{1F}')
    || c == '\U{85}' || c == '\U{A0}' || c == '\U{1680}'
    || ('\U{2000}' <= c <= '\U{200A}') || c == '\U{2028}' || c == '\U{2029}'
    || c == '\U{202F}' || c == '\U{205F}' || c == '\U{3000}'
  }

  predicate NoSpace(w: string)
  {
    forall i :: 0 <= i < |w| ==> !IsSpace(w[i])
  }

  predicate AllSpace(w: string)
  {
    forall i :: 0 <= i < |w| ==> IsSpace(w[i])
  }

  /** `str.lower()` on one character: ASCII, Latin-1 capitals and the Croatian Č Ć Š Đ Ž. */
  function LowerChar(c: char): char
  {
    if 'A' <= c <= 'Z' then (c as int + 32) as char
    else if '\U{C0}' <= c <= '\U{DE}' && c != '\U{D7}' then (c as int + 32) as char
    else if c == 'Č' || c == 'Ć' || c == 'Š' || c == 'Đ' || c == 'Ž' then (c as int + 1) as char
    else c
  }

  function Lower(s: string): (r: string)
    ensures |r| == |s|
    ensures forall i {:trigger r[i]} :: 0 <= i < |s| ==> r[i] == LowerChar(s[i])
  {
    seq(|s|, i requires 0 <= i < |s| => LowerChar(s[i]))
  }

  /** Lower-casing never creates or removes white space. */
  lemma LowerCharSpace(c: char)
    ensures IsSpace(LowerChar(c)) <==> IsSpace(c)
  {
  }

  function StartsWith(s: string, p: string): bool
  {
    |p| <= |s| && s[..|p|] == p
  }

  function EndsWith(s: string, p: string): bool
  {
    |p| <= |s| && s[|s| - |p|..] == p
  }

  /** sub occurs in s at position i. */
  predicate OccursAt(s: string, sub: string, i: nat)
  {
    i + |sub| <= |s| && s[i..i + |sub|] == sub
  }

  /** Python's `sub in s`. */
  predicate Contains(s: string, sub: string)
  {
    exists i: nat :: i <= |s| && OccursAt(s, sub, i)
  }

  /** Number of white-space characters starting at i. */
  function SpaceRun(s: string, i: nat): (n: nat)
    ensures n > 0 ==> i + n <= |s|
    ensures forall k :: i <= k < i + n ==> k < |s| && IsSpace(s[k])
    ensures i + n < |s| ==> !IsSpace(s[i + n])
    decreases |s| - i
  {
    if i < |s| && IsSpace(s[i]) then 1 + SpaceRun(s, i + 1) else 0
  }

  /** Number of non-white-space characters starting at i. */
  function WordRun(s: string, i: nat): (n: nat)
    ensures n > 0 ==> i + n <= |s|
    ensures forall k :: i <= k < i + n ==> k < |s| && !IsSpace(s[k])
    ensures i + n < |s| ==> IsSpace(s[i + n])
    decreases |s| - i
  {
    if i < |s| && !IsSpace(s[i]) then 1 + WordRun(s, i + 1) else 0
  }

  /** `s.lstrip()`: the suffix of s left once its leading white space is gone. */
  function LStrip(s: string): (r: string)
    ensures |r| <= |s|
    ensures r == [] || !IsSpace(r[0])
    ensures forall i :: 0 <= i < |s| - |r| ==> IsSpace(s[i])
    decreases |s|
  {
    if s != [] && IsSpace(s[0]) then LStrip(s[1..]) else s
  }

  /** `s.rstrip()`: the prefix of s left once its trailing white space is gone. */
  function RStrip(s: string): (r: string)
    ensures |r| <= |s|
    ensures r == [] || !IsSpace(r[|r| - 1])
    ensures forall i :: |r| <= i < |s| ==> IsSpace(s[i])
    decreases |s|
  {
    if s != [] && IsSpace(s[|s| - 1]) then RStrip(s[..|s| - 1]) else s
  }

  /** What `lstrip()` leaves is a suffix of s. */
  lemma {:induction false} LStripSuffix(s: string)
    ensures LStrip(s) == s[|s| - |LStrip(s)|..]
    decreases |s|
  {
    if s != [] && IsSpace(s[0]) {
      LStripSuffix(s[1..]);
      assert s[1..][|s| - 1 - |LStrip(s)|..] == s[|s| - |LStrip(s)|..];
    }
  }

  /** What `rstrip()` leaves is a prefix of s. */
  lemma {:induction false} RStripPrefix(s: string)
    ensures RStrip(s) == s[..|RStrip(s)|]
    decreases |s|
  {
    if s != [] && IsSpace(s[|s| - 1]) {
      RStripPrefix(s[..|s| - 1]);
      assert s[..|s| - 1][..|RStrip(s)|] == s[..|RStrip(s)|];
    }
  }

  /** `s.strip()`. */
  function Strip(s: string): (r: string)
    ensures |r| <= |s|
    ensures r == [] || (!IsSpace(r[0]) && !IsSpace(r[|r| - 1]))
  {
    LStripSuffix(s);
    RStripPrefix(LStrip(s));
    RStrip(LStrip(s))
  }

  /** A string `strip()` leaves unchanged. */
  predicate IsStripped(s: string)
  {
    s == [] || (!IsSpace(s[0]) && !IsSpace(s[|s| - 1]))
  }

  lemma StripStripped(s: string)
    requires IsStripped(s)
    ensures Strip(s) == s
  {
  }

  lemma StripIsStripped(s: string)
    ensures IsStripped(Strip(s))
  {
  }

  /** Stripping a prefix of a stripped string leaves a prefix of it. */
  lemma StripPrefix(s: string, i: nat)
    requires IsStripped(s) && i <= |s|
    ensures Strip(s[..i]) == s[..|Strip(s[..i])|]
  {
    var p := s[..i];
    if i > 0 {
      assert LStrip(p) == p;
    }
    RStripPrefix(LStrip(p));
    PrefixTrans(s, p, Strip(p));
  }

  /** Stripping a prefix of a single-spaced string leaves it single-spaced. */
  lemma SingleSpacedPrefix(s: string, i: nat)
    requires SingleSpaced(s) && i <= |s|
    ensures SingleSpaced(Strip(s[..i])) && Strip(s[..i]) == s[..|Strip(s[..i])|]
  {
    StripPrefix(s, i);
    var t := Strip(s[..i]);
    StripIsStripped(s[..i]);
    forall j | 0 <= j < |t| && IsSpace(t[j])
      ensures t[j] == ' ' && j + 1 < |t| && !IsSpace(t[j + 1])
    {
      assert t[j] == s[j];
      if j + 1 < |t| {
        assert t[j + 1] == s[j + 1];
      }
    }
  }

  /** A prefix of a prefix is a prefix. */
  lemma PrefixTrans(a: string, b: string, c: string)
    requires |b| <= |a| && b == a[..|b|] && |c| <= |b| && c == b[..|c|]
    ensures c == a[..|c|]
  {
    forall k | 0 <= k < |c|
      ensures c[k] == a[k]
    {
      assert c[k] == b[k];
    }
  }

  /** White space before the first non-space character at a is what `lstrip` removes. */
  lemma LStripSkips(s: string, a: nat)
    requires a < |s| && !IsSpace(s[a]) && forall k :: 0 <= k < a ==> IsSpace(s[k])
    ensures LStrip(s) == s[a..]
  {
    var l := LStrip(s);
    LStripSuffix(s);
    var off := |s| - |l|;
    assert off <= a;
    assert off < |s| && s[off] == l[0];
  }

  /** White space after the last non-space character at b - 1 is what `rstrip` removes. */
  lemma RStripCuts(s: string, b: nat)
    requires 0 < b <= |s| && !IsSpace(s[b - 1]) && forall k :: b <= k < |s| ==> IsSpace(s[k])
    ensures RStrip(s) == s[..b]
  {
    var r := RStrip(s);
    RStripPrefix(s);
    assert |r| >= b;
    assert s[|r| - 1] == r[|r| - 1];
  }

  /** `strip` of a stripped piece padded with white space on both sides gives the piece. */
  lemma StripPadded(s: string, a: nat, b: nat)
    requires a < b <= |s| && !IsSpace(s[a]) && !IsSpace(s[b - 1])
    requires forall k :: 0 <= k < a ==> IsSpace(s[k])
    requires forall k :: b <= k < |s| ==> IsSpace(s[k])
    ensures Strip(s) == s[a..b]
  {
    LStripSkips(s, a);
    RStripSuffix(s, a, b);
  }

  lemma RStripSuffix(s: string, a: nat, b: nat)
    requires a < b <= |s| && !IsSpace(s[b - 1])
    requires forall k :: b <= k < |s| ==> IsSpace(s[k])
    ensures RStrip(s[a..]) == s[a..b]
  {
    var t := s[a..];
    forall k | b - a <= k < |t|
      ensures IsSpace(t[k])
    {
      assert t[k] == s[a + k];
    }
    RStripCuts(t, b - a);
  }

  /** Stripping a string that has a non-space character keeps that character. */
  lemma {:induction false} StripKeeps(s: string, i: nat)
    requires i < |s| && !IsSpace(s[i])
    ensures exists j :: 0 <= j < |Strip(s)| && Strip(s)[j] == s[i]
  {
    var l := LStrip(s);
    LStripSuffix(s);
    var off := |s| - |l|;
    assert i >= off;
    var r := RStrip(l);
    RStripPrefix(l);
    assert l[i - off] == s[i];
    assert i - off < |r|;
    assert Strip(s) == r;
    assert r[i - off] == l[i - off] == s[i];
  }

  /** Stripping a white-space-only string leaves nothing. */
  lemma StripAllSpace(s: string)
    requires AllSpace(s)
    ensures Strip(s) == []
  {
    LStripAllSpace(s);
  }

  lemma {:induction false} LStripAllSpace(s: string)
    requires AllSpace(s)
    ensures LStrip(s) == []
    decreases |s|
  {
    if s != [] {
      assert IsSpace(s[0]);
      assert forall i :: 0 <= i < |s[1..]| ==> s[1..][i] == s[i + 1];
      LStripAllSpace(s[1..]);
    }
  }

  /** `s.split()`: the maximal runs of non-white-space characters, in order. */
  function Words(s: string): seq<string>
    decreases |s|
  {
    var t := LStrip(s);
    if t == [] then [] else [t[..WordRun(t, 0)]] + Words(t[WordRun(t, 0)..])
  }

  /** Every word is non-empty and free of white space. */
  lemma {:induction false} WordsAreWords(s: string)
    ensures forall k :: 0 <= k < |Words(s)| ==> Words(s)[k] != [] && NoSpace(Words(s)[k])
    decreases |s|
  {
    var t := LStrip(s);
    if t != [] {
      var n := WordRun(t, 0);
      FirstWord(t);
      WordsAreWords(t[n..]);
      ConsWords(t[..n], Words(t[n..]), Words(s));
    }
  }

  lemma FirstWord(t: string)
    requires t != [] && !IsSpace(t[0])
    ensures WordRun(t, 0) > 0 && NoSpace(t[..WordRun(t, 0)])
  {
  }

  lemma ConsWords(first: string, rest: seq<string>, ws: seq<string>)
    requires ws == [first] + rest
    requires first != [] && NoSpace(first)
    requires forall k :: 0 <= k < |rest| ==> rest[k] != [] && NoSpace(rest[k])
    ensures forall k :: 0 <= k < |ws| ==> ws[k] != [] && NoSpace(ws[k])
  {
    forall k | 0 <= k < |ws|
      ensures ws[k] != [] && NoSpace(ws[k])
    {
      if k > 0 {
        assert ws[k] == rest[k - 1];
      }
    }
  }

  /** A string has no words exactly when it is blank. */
  lemma {:induction false} WordsEmpty(s: string)
    ensures Words(s) == [] <==> AllSpace(s)
  {
    var t := LStrip(s);
    LStripSuffix(s);
    if t != [] {
      assert !IsSpace(s[|s| - |t|]);
    }
  }

  /** `" ".join(ws)`. */
  function JoinWords(ws: seq<string>): string
  {
    if ws == [] then "" else if |ws| == 1 then ws[0] else ws[0] + " " + JoinWords(ws[1..])
  }

  /** The only white space in s is single ' ' characters between non-space ones. */
  predicate SingleSpaced(s: string)
  {
    && IsStripped(s)
    && forall i :: 0 <= i < |s| && IsSpace(s[i]) ==> s[i] == ' ' && i + 1 < |s| && !IsSpace(s[i + 1])
  }

  /** Joining non-empty words with one space gives a single-spaced, stripped string. */
  lemma {:induction false} JoinWordsSingleSpaced(ws: seq<string>)
    requires forall k :: 0 <= k < |ws| ==> ws[k] != [] && NoSpace(ws[k])
    ensures SingleSpaced(JoinWords(ws))
    ensures JoinWords(ws) == [] <==> ws == []
  {
    if |ws| > 1 {
      assert forall k :: 0 <= k < |ws[1..]| ==> ws[1..][k] == ws[k + 1];
      JoinWordsSingleSpaced(ws[1..]);
      var rest := JoinWords(ws[1..]);
      var s := ws[0] + " " + rest;
      assert s == JoinWords(ws);
      forall i | 0 <= i < |s|
        ensures IsSpace(s[i]) ==> s[i] == ' ' && i + 1 < |s| && !IsSpace(s[i + 1])
      {
        if i < |ws[0]| {
          assert s[i] == ws[0][i];
        } else if i == |ws[0]| {
          assert s[i + 1] == rest[0];
        } else {
          assert s[i] == rest[i - |ws[0]| - 1];
          if i + 1 < |s| {
            assert s[i + 1] == rest[i - |ws[0]|];
          }
        }
      }
      assert s[|s| - 1] == rest[|rest| - 1];
    }
  }

  /** `re.sub(r"\s+", " ", s)`: every maximal white-space run becomes one ' '. */
  function CollapseSpaces(s: string): (r: string)
    decreases |s|
  {
    if s == [] then []
    else if IsSpace(s[0]) then " " + CollapseSpaces(s[SpaceRun(s, 0)..])
    else [s[0]] + CollapseSpaces(s[1..])
  }

  /** `s.replace(pat, rep)`: leftmost, non-overlapping occurrences. */
  function ReplaceAll(s: string, pat: string, rep: string): string
    requires pat != []
    decreases |s|
  {
    if |s| < |pat| then s
    else if s[..|pat|] == pat then rep + ReplaceAll(s[|pat|..], pat, rep)
    else [s[0]] + ReplaceAll(s[1..], pat, rep)
  }

  /** `s.replace(a, b)` for single characters. */
  function ReplaceChar(s: string, a: char, b: char): (r: string)
    ensures |r| == |s|
    ensures forall i :: 0 <= i < |s| ==> r[i] == (if s[i] == a then b else s[i])
  {
    seq(|s|, i requires 0 <= i < |s| => if s[i] == a then b else s[i])
  }

  /** `re.sub(r"\s+", "", s)`. */
  function RemoveSpaces(s: string): (r: string)
    ensures NoSpace(r) && |r| <= |s|
    ensures forall c :: c in r ==> c in s
    ensures NoSpace(s) ==> r == s
    decreases |s|
  {
    if s == [] then []
    else if IsSpace(s[0]) then RemoveSpaces(s[1..])
    else [s[0]] + RemoveSpaces(s[1..])
  }

  /** The line boundaries of `str.splitlines` ("\r\n" counts as one). */
  predicate IsLineBreak(c: char)
  {
    c == '\n' || c == '\r' || c == '\U{0B}' || c == '\U{0C}' || ('\U{1C}' <= c <= '\U{1E}')
    || c == '\U{85}' || c == '\U{2028}' || c == '\U{2029}'
  }

  function LineLen(s: string, i: nat): (n: nat)
    ensures i <= |s| ==> i + n <= |s|
    ensures forall k :: i <= k < i + n ==> k < |s| && !IsLineBreak(s[k])
    ensures i + n < |s| ==> IsLineBreak(s[i + n])
    decreases |s| - i
  {
    if i < |s| && !IsLineBreak(s[i]) then 1 + LineLen(s, i + 1) else 0
  }

  /** `s.splitlines()`: no trailing empty line, "" gives []. */
  function SplitLines(s: string): (ls: seq<string>)
    decreases |s|
  {
    if s == [] then []
    else
      var k := LineLen(s, 0);
      if k == |s| then [s]
      else
        var b := if s[k] == '\r' && k + 1 < |s| && s[k + 1] == '\n' then 2 else 1;
        [s[..k]] + SplitLines(s[k + b..])
  }

  /** Every line of a blank text is blank. */
  lemma {:induction false} SplitLinesAllSpace(s: string)
    requires AllSpace(s)
    ensures forall k :: 0 <= k < |SplitLines(s)| ==> AllSpace(SplitLines(s)[k])
    decreases |s|
  {
    if s != [] {
      var k := LineLen(s, 0);
      if k < |s| {
        var b := if s[k] == '\r' && k + 1 < |s| && s[k + 1] == '\n' then 2 else 1;
        SplitLinesAllSpace(s[k + b..]);
      }
    }
  }

  /** Number of characters before the first c at or after i. */
  function UntilChar(s: string, i: nat, c: char): (n: nat)
    ensures i <= |s| ==> i + n <= |s|
    ensures forall k :: i <= k < i + n ==> k < |s| && s[k] != c
    ensures i + n < |s| ==> s[i + n] == c
    decreases |s| - i
  {
    if i < |s| && s[i] != c then 1 + UntilChar(s, i + 1, c) else 0
  }

  /** `s.split(c)`: always at least one piece, pieces free of c. */
  function SplitOn(s: string, c: char): (parts: seq<string>)
    ensures |parts| >= 1
    ensures forall k, j :: 0 <= k < |parts| && 0 <= j < |parts[k]| ==> parts[k][j] != c
    decreases |s|
  {
    var n := UntilChar(s, 0, c);
    if n == |s| then [s] else [s[..n]] + SplitOn(s[n + 1..], c)
  }

  /** `c.join(parts)`: the pieces with one c between neighbours. */
  function JoinOn(parts: seq<string>, c: char): string
  {
    if parts == [] then "" else if |parts| == 1 then parts[0] else parts[0] + [c] + JoinOn(parts[1..], c)
  }

  /** `c.join(s.split(c)) == s`: splitting loses nothing but the separators. */
  lemma {:induction false} SplitOnJoin(s: string, c: char)
    ensures JoinOn(SplitOn(s, c), c) == s
    decreases |s|
  {
    var n := UntilChar(s, 0, c);
    if n < |s| {
      var rest := SplitOn(s[n + 1..], c);
      SplitOnJoin(s[n + 1..], c);
      assert SplitOn(s, c) == [s[..n]] + rest;
      assert (([s[..n]] + rest)[1..]) == rest;
      assert s == s[..n] + [c] + s[n + 1..];
    }
  }

  /**
   * `re.split(pattern, s)` for a pattern that never matches the empty string:
   * `sep(s, i)` is the length of the pattern's match at position i (0 when none).
   */
  function RegexSplit(s: string, sep: (string, nat) -> nat): seq<string>
  {
    SplitFrom(s, sep, 0, 0)
  }

  function SplitFrom(s: string, sep: (string, nat) -> nat, start: nat, i: nat): (parts: seq<string>)
    requires start <= i <= |s|
    ensures |parts| >= 1
    decreases |s| - i
  {
    if i == |s| then [s[start..]]
    else
      var n := sep(s, i);
      if n > 0 && i + n <= |s| then [s[start..i]] + SplitFrom(s, sep, i + n, i + n)
      else SplitFrom(s, sep, start, i + 1)
  }

  /** Where the separator never matches, `re.split` returns the string whole. */
  lemma {:induction false} SplitWithoutSeparator(s: string, sep: (string, nat) -> nat, start: nat, i: nat)
    requires start <= i <= |s|
    requires forall k :: i <= k < |s| ==> sep(s, k) == 0
    ensures SplitFrom(s, sep, start, i) == [s[start..]]
    decreases |s| - i
  {
    if i < |s| {
      SplitWithoutSeparator(s, sep, start, i + 1);
    }
  }

  /**
   * Scanning from i, the first separator match is the one-character match at k:
   * the piece before it is cut there and splitting resumes after it.
   */
  lemma {:induction false} SplitSkip(s: string, sep: (string, nat) -> nat, start: nat, i: nat, k: nat)
    requires start <= i <= k < |s|
    requires forall j :: i <= j < k ==> sep(s, j) == 0
    requires sep(s, k) == 1
    ensures SplitFrom(s, sep, start, i) == [s[start..k]] + SplitFrom(s, sep, k + 1, k + 1)
    decreases k - i
  {
    if i < k {
      SplitSkip(s, sep, start, i + 1, k);
    }
  }

  /** With one-character separators, a separator at p adds at least one piece. */
  lemma {:induction false} SplitPieces(s: string, sep: (string, nat) -> nat, start: nat, i: nat, p: nat)
    requires start <= i <= p < |s| && sep(s, p) == 1
    requires forall j :: sep(s, j) <= 1
    ensures |SplitFrom(s, sep, start, i)| >= 1 + |SplitFrom(s, sep, p + 1, p + 1)|
    decreases p - i
  {
    if i < p {
      if sep(s, i) == 1 {
        SplitPieces(s, sep, i + 1, i + 1, p);
      } else {
        SplitPieces(s, sep, start, i + 1, p);
      }
    }
  }

  /** Two one-character separators split a string into at least three pieces. */
  lemma TwoSeparators(s: string, sep: (string, nat) -> nat, p: nat, q: nat)
    requires p < q < |s| && sep(s, p) == 1 && sep(s, q) == 1
    requires forall j :: sep(s, j) <= 1
    ensures |RegexSplit(s, sep)| >= 3
  {
    SplitPieces(s, sep, 0, 0, p);
    SplitPieces(s, sep, p + 1, p + 1, q);
    assert |SplitFrom(s, sep, q + 1, q + 1)| >= 1;
  }

  /** `[p.strip() for p in parts if p.strip()]`. */
  function NonBlankStripped(parts: seq<string>): (r: seq<string>)
    ensures forall k :: 0 <= k < |r| ==> r[k] != [] && IsStripped(r[k])
  {
    if parts == [] then []
    else
      var p := Strip(parts[|parts| - 1]);
      NonBlankStripped(parts[..|parts| - 1]) + (if p == [] then [] else [p])
  }
}
