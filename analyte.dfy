/**
 * Analyte names: the three-tier validity rule all three apps share (each with
 * its own word sets), the first name-cleaning steps shared by app_v2 and app_v3,
 * and the urine-test check of app_v3 and app_v4.
 */
module Analyte {
  import opened Text
  import opened Decimal

  /** `w.isdigit()`. */
  predicate IsDigitWord(w: string)
  {
    w != [] && AllDigits(w)
  }

  /**
   * Some word of a word list occurs in s (`any(w in s for w in words)`): some
   * slice of s is one of the words. The list is given by its membership test.
   */
  predicate MentionsAny(s: string, words: string -> bool)
  {
    exists i, j | 0 <= i <= j <= |s| :: words(s[i..j])
  }

  /** A listed word that occurs in s is mentioned. */
  lemma MentionsWord(s: string, words: string -> bool, w: string)
    requires words(w) && Contains(s, w)
    ensures MentionsAny(s, words)
  {
    var i: nat :| i <= |s| && OccursAt(s, w, i);
    assert words(s[i..i + |w|]);
  }

  /**
   * The structural fallback: at most three words, each longer than one character,
   * and not every word a number or shorter than three characters.
   */
  predicate PlausibleWords(ws: seq<string>)
  {
    && |ws| <= 3
    && (forall k :: 0 <= k < |ws| ==> |ws[k]| > 1)
    && !(forall k :: 0 <= k < |ws| ==> IsDigitWord(ws[k]) || |ws[k]| < 3)
  }

  /**
   * `is_valid_analyte`: names under two characters are rejected; then a skip word
   * anywhere in the lower-cased name rejects it, a known analyte term anywhere
   * accepts it, and otherwise the word structure decides.
   */
  predicate ThreeTier(name: string, known: string -> bool, skip: string -> bool)
  {
    if |Strip(name)| < 2 then false
    else
      var low := Strip(Lower(name));
      if MentionsAny(low, skip) then false
      else if MentionsAny(low, known) then true
      else PlausibleWords(Words(low))
  }

  /** A word with no white space at either end. */
  predicate Trimmed(w: string)
  {
    w != [] && !IsSpace(w[0]) && !IsSpace(w[|w| - 1])
  }

  /** Strip(s) is the slice of s between its leading and trailing white space. */
  lemma StripSlice(s: string) returns (a: nat)
    ensures a + |Strip(s)| <= |s| && Strip(s) == s[a..a + |Strip(s)|]
    ensures forall i :: 0 <= i < a ==> IsSpace(s[i])
    ensures forall i :: a + |Strip(s)| <= i < |s| ==> IsSpace(s[i])
  {
    var l := LStrip(s);
    a := |s| - |l|;
    var r := RStrip(l);
    LStripSuffix(s);
    RStripPrefix(l);
    assert Strip(s) == r;
    assert l == s[a..];
    assert r == l[..|r|];
    PrefixOfSuffix(s, a, |r|);
    SpacesAfter(s, a, l, |r|);
  }

  lemma PrefixOfSuffix(s: string, a: nat, n: nat)
    requires a + n <= |s|
    ensures s[a..][..n] == s[a..a + n]
  {
  }

  lemma SpacesAfter(s: string, a: nat, l: string, n: nat)
    requires a <= |s| && l == s[a..] && n <= |l|
    requires forall i :: n <= i < |l| ==> IsSpace(l[i])
    ensures forall i :: a + n <= i < |s| ==> IsSpace(s[i])
  {
    forall i | a + n <= i < |s|
      ensures IsSpace(s[i])
    {
      assert s[i] == l[i - a];
    }
  }

  /** A trimmed word that occurs in s also occurs in Strip(s). */
  lemma ContainsStrip(s: string, w: string)
    requires Trimmed(w) && Contains(s, w)
    ensures Contains(Strip(s), w)
  {
    var i: nat :| i <= |s| && OccursAt(s, w, i);
    var a := StripSlice(s);
    var b := a + |Strip(s)|;
    assert s[i] == w[0] && s[i + |w| - 1] == w[|w| - 1] by {
      assert s[i..i + |w|] == w;
    }
    OccursInSlice(s, a, b, w, i);
  }

  /** An occurrence inside s[a..b] is an occurrence in the slice. */
  lemma OccursInSlice(s: string, a: nat, b: nat, w: string, i: nat)
    requires a <= i && i + |w| <= b <= |s| && OccursAt(s, w, i)
    ensures OccursAt(s[a..b], w, i - a)
  {
    var t := s[a..b];
    forall k | 0 <= k < |w|
      ensures t[i - a + k] == w[k]
    {
      assert t[i - a + k] == s[i + k];
      assert s[i..i + |w|][k] == s[i + k];
    }
    assert t[i - a..i - a + |w|] == w;
  }

  /** Skip words win: a name containing one (in any case) is rejected even if it names an analyte. */
  lemma SkipWordRejects(name: string, known: string -> bool, skip: string -> bool, w: string)
    requires skip(w) && Trimmed(w) && Contains(Lower(name), w)
    ensures !ThreeTier(name, known, skip)
  {
    ContainsStrip(Lower(name), w);
    MentionsWord(Strip(Lower(name)), skip, w);
  }

  /** Known terms accept: with no skip word present, a name containing a known term is valid. */
  lemma KnownTermAccepts(name: string, known: string -> bool, skip: string -> bool, w: string)
    requires |Strip(name)| >= 2 && !MentionsAny(Strip(Lower(name)), skip)
    requires known(w) && Trimmed(w) && Contains(Lower(name), w)
    ensures ThreeTier(name, known, skip)
  {
    ContainsStrip(Lower(name), w);
    MentionsWord(Strip(Lower(name)), known, w);
  }

  /** A name of one to three words, each of three or more letters, passes the structural test. */
  lemma StructuralAccepts(name: string, known: string -> bool, skip: string -> bool)
    requires |Strip(name)| >= 2 && !MentionsAny(Strip(Lower(name)), skip)
    requires var ws := Words(Strip(Lower(name))); 1 <= |ws| <= 3 && forall k :: 0 <= k < |ws| ==> |ws[k]| >= 3 && !IsDigitWord(ws[k])
    ensures ThreeTier(name, known, skip)
  {
    var ws := Words(Strip(Lower(name)));
    assert !(IsDigitWord(ws[0]) || |ws[0]| < 3);
  }

  /** The lab prefix `k-` or `s-`, in any case. */
  predicate HasLabPrefix(n: string)
  {
    StartsWith(Lower(n), "k-") || StartsWith(Lower(n), "s-")
  }

  /** Drop one lab prefix, then strip again. */
  function DropLabPrefix(n: string): string
  {
    if HasLabPrefix(n) then Strip(n[2..]) else n
  }

  /** `re.sub(r"\s+", " ", n.replace("aps.", "aps")).strip()`. */
  function NormalizeName(n: string): (r: string)
    ensures SingleSpaced(r)
  {
    CollapsedStrip(ReplaceAll(n, "aps.", "aps"));
    Strip(CollapseSpaces(ReplaceAll(n, "aps.", "aps")))
  }

  /**
   * The common start of `clean_name_and_type` (app_v2) and `clean_analyte_name`
   * (app_v3): strip, drop one lab prefix, turn "aps." into "aps", collapse white
   * space runs to one space and strip again.
   */
  function PrepareName(name: string): (r: string)
    ensures SingleSpaced(r)
  {
    NormalizeName(DropLabPrefix(Strip(name)))
  }

  /** The lab prefix is removed once: whatever follows it is kept, even a second prefix. */
  lemma LabPrefixRemovedOnce(n: string)
    requires |n| >= 2 && n[0] in "kKsS" && n[1] == '-' && IsStripped(n[2..])
    ensures DropLabPrefix(Strip(n)) == n[2..]
  {
    PrefixedStripped(n);
    LabPrefixDetected(n);
    StripStripped(n[2..]);
  }

  lemma PrefixedStripped(n: string)
    requires |n| >= 2 && !IsSpace(n[0]) && !IsSpace(n[1]) && IsStripped(n[2..])
    ensures Strip(n) == n
  {
    if |n| > 2 {
      assert n[|n| - 1] == n[2..][|n| - 3];
    }
    StripStripped(n);
  }

  lemma LabPrefixDetected(n: string)
    requires |n| >= 2 && n[0] in "kKsS" && n[1] == '-'
    ensures HasLabPrefix(n)
  {
    var l := Lower(n);
    assert l[0] == LowerChar(n[0]) && l[1] == '-';
    if l[0] == 'k' {
      assert l[..2] == "k-";
    } else {
      assert l[..2] == "s-";
    }
  }

  /** A name without a lab prefix is only normalised. */
  lemma NoLabPrefixKept(name: string)
    requires !HasLabPrefix(Strip(name))
    ensures PrepareName(name) == NormalizeName(Strip(name))
  {
  }

  /** Every white-space character of a collapsed string is a ' ' followed by a non-space. */
  predicate NoDoubleSpace(s: string)
  {
    forall i :: 0 <= i < |s| && IsSpace(s[i]) ==> s[i] == ' ' && (i + 1 == |s| || !IsSpace(s[i + 1]))
  }

  lemma {:induction false} CollapseNoDoubleSpace(s: string)
    ensures NoDoubleSpace(CollapseSpaces(s))
    decreases |s|
  {
    if s != [] {
      if IsSpace(s[0]) {
        var n := SpaceRun(s, 0);
        var rest := s[n..];
        CollapseNoDoubleSpace(rest);
        var c := CollapseSpaces(rest);
        assert CollapseSpaces(s) == " " + c;
        if c != [] {
          assert rest != [] && !IsSpace(rest[0]);
          assert c[0] == rest[0];
        }
        forall i | 0 < i < |" " + c|
          ensures (" " + c)[i] == c[i - 1]
        {
        }
      } else {
        CollapseNoDoubleSpace(s[1..]);
        var c := CollapseSpaces(s[1..]);
        assert CollapseSpaces(s) == [s[0]] + c;
        forall i | 0 < i < |[s[0]] + c|
          ensures ([s[0]] + c)[i] == c[i - 1]
        {
        }
      }
    }
  }

  /** Stripping a collapsed string leaves it single-spaced. */
  lemma CollapsedStrip(s: string)
    ensures SingleSpaced(Strip(CollapseSpaces(s)))
  {
    var c := CollapseSpaces(s);
    CollapseNoDoubleSpace(c);
    CollapseNoDoubleSpace(s);
    var a := StripSlice(c);
    var r := Strip(c);
    StripIsStripped(c);
    forall i | 0 <= i < |r| && IsSpace(r[i])
      ensures r[i] == ' ' && i + 1 < |r| && !IsSpace(r[i + 1])
    {
      assert r[i] == c[a + i];
      if i + 1 < |r| {
        assert r[i + 1] == c[a + i + 1];
      }
    }
  }

  /** The urine tests whose result is a word rather than a number. */
  predicate UrineQualitative(w: string)
  {
    w in {
      "glukoza u urinu", "eritrociti u urinu", "proteini u urinu",
      "bilirubin u urinu", "urobilinogen u urinu", "krv u urinu",
      "ketoni u urinu", "nitriti", "leukociti u urinu"
    }
  }

  /** `is_qualitative_result`: the lower-cased analyte mentions one of the urine tests. */
  predicate IsUrineQualitative(analyte: string)
  {
    MentionsAny(Lower(analyte), UrineQualitative)
  }

  /** Upper- or lower-case, "Nitriti" anywhere in the name makes the result qualitative. */
  lemma NitritiQualitative(analyte: string, i: nat)
    requires i + 7 <= |analyte| && Lower(analyte[i..i + 7]) == "nitriti"
    ensures IsUrineQualitative(analyte)
  {
    var l := Lower(analyte);
    assert l[i..i + 7] == Lower(analyte[i..i + 7]);
    assert UrineQualitative(l[i..i + 7]);
  }
}
