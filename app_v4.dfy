/**
 * The extraction core of app_v4: the `LabResultParser` class with its value,
 * reference, status and name helpers, the line parser and the text parser.
 *
 * The four line regexes of `parse_line` are not re-implemented: `LineMatcher`
 * gives the groups of `re.search(pattern, line)`. What the regexes guarantee
 * about the groups (a number where `\d+[,.]?\d*` stands, a word where `\w+`
 * stands) is part of the matcher's type. The number regex `\d+[,.]?\d*` and
 * the two reference regexes of `parse_reference` are recognised in full.
 */
module AppV4 {
  import opened Wrappers
  import opened Text
  import opened Decimal
  import opened Tokens
  import opened Records
  import opened Analyte
  import opened Selection

  // ---------------------------------------------------------------- word sets

  /** `known_analytes` of `__init__`. */
  predicate KnownAnalyte(w: string)
  {
    w in {
      "glukoza", "hemoglobin", "hematokrit", "leukociti", "eritrociti", "trombociti",
      "kreatinin", "ureja", "bilirubin", "alt", "ast", "ggt", "alkalna fosfataza",
      "ldh", "ck", "troponin", "crp", "esr", "feritin", "vitamin d", "b12", "folna kiselina",
      "tsh", "ft3", "ft4", "testosteron", "estradiol", "progesteron", "insulin",
      "hba1c", "lipidi", "holesterol", "trigliceridi", "hdl", "ldl", "apolipoprotein",
      "sodium", "kalijum", "kalcijum", "fosfor", "magnezijum", "kloridi", "bikarbonati",
      "ph", "pco2", "po2", "hco3", "base excess", "laktat", "glukoza u urinu",
      "proteini u urinu", "eritrociti u urinu", "leukociti u urinu", "nitriti",
      "ketoni u urinu", "bilirubin u urinu", "urobilinogen u urinu", "krv u urinu"
    }
  }

  /** `skip_words` of `__init__`. */
  predicate SkipWord(w: string)
  {
    w in {
      "datum", "vrijeme", "ime", "prezime", "jmbg", "adresa", "telefon", "email",
      "doktor", "dr", "prof", "država", "grad", "ulica", "broj", "kat", "stan",
      "laboratorij", "analiza", "rezultat", "vrijednost", "jedinica", "referenca",
      "normalan", "povišen", "snižen", "kritičan", "urgentno", "hitno", "redovno",
      "kontrola", "pregled", "dijagnoza", "terapija", "lijek", "doza", "tableta",
      "kapsula", "sirup", "injeksija", "infuzija", "operacija", "hirurgija",
      "bolnica", "klinika", "ambulanta", "ordinacija", "sestra", "tehničar",
      "direktor", "upravnik", "sekretar", "administrator", "račun", "faktura",
      "plaćanje", "osiguranje", "kartica", "bankovni", "transfer", "depozit"
    }
  }

  // ---------------------------------------------------------------- numbers

  /**
   * Length of the match of `\d+[,.]?\d*` at i, 0 when there is none. Every
   * shorter reading leaves a digit or a separator next, which none of the
   * patterns built on it accepts there, so the greedy length is the match.
   */
  function DecLenAt(s: string, i: nat): (n: nat)
    ensures n > 0 ==> i + n <= |s|
  {
    var d := DigitRun(s, i);
    if d == 0 then 0
    else if i + d < |s| && IsSeparator(s[i + d]) then d + 1 + DigitRun(s, i + d + 1)
    else d
  }

  /** The whole of t is a `\d+[,.]?\d*`: "12", "3,5", "4." */
  predicate IsDec(t: string)
  {
    t != [] && DecLenAt(t, 0) == |t|
  }

  /** The value of a `\d+[,.]?\d*`, either separator being the decimal point. */
  function DecValue(t: string): real
    requires IsDec(t)
  {
    var d := DigitRun(t, 0);
    assert AllDigits(t[..d]);
    assert AllDigits(FracDigits(t, d));
    DigitsValue(t[..d]) as real + FracValue(FracDigits(t, d))
  }

  /** `float(t.replace(",", "."))` never fails on a `\d+[,.]?\d*` and reads its value. */
  lemma DecReads(t: string)
    requires IsDec(t)
    ensures ParseFloat(t) == Some(DecValue(t))
  {
    var u := CommaToDot(t);
    var d := DigitRun(t, 0);
    DecIsLiteral(t);
    CommaToDotDigits(t, 0, d);
    FracDigitsCommaToDot(t, d);
    DecSameParts(u, t, d);
  }

  /** The layout of a `\d+[,.]?\d*`: digits, then possibly a separator and digits up to the end. */
  lemma DecShape(t: string)
    requires IsDec(t)
    ensures 0 < DigitRun(t, 0) <= |t|
    ensures DigitRun(t, 0) < |t| ==> IsSeparator(t[DigitRun(t, 0)]) && DigitRun(t, DigitRun(t, 0) + 1) == |t| - DigitRun(t, 0) - 1
  {
  }

  /** A `\d+[,.]?\d*` starts with a digit and ends with a digit or the separator: stripping leaves it alone. */
  lemma DecIsStripped(t: string)
    requires IsDec(t)
    ensures IsStripped(t)
  {
    DecShape(t);
    var d := DigitRun(t, 0);
    assert IsDigit(t[0]);
    if d == |t| {
      assert IsDigit(t[|t| - 1]);
    } else if DigitRun(t, d + 1) > 0 {
      assert IsDigit(t[d + 1 + DigitRun(t, d + 1) - 1]);
    } else {
      assert IsSeparator(t[|t| - 1]);
    }
  }

  lemma DecIsLiteral(t: string)
    requires IsDec(t)
    ensures IsFloatLiteral(CommaToDot(t))
    ensures DigitRun(CommaToDot(t), 0) == DigitRun(t, 0)
    ensures AllDigits(t[..DigitRun(t, 0)])
    ensures DigitRun(t, 0) < |t| ==> AllDigits(t[DigitRun(t, 0) + 1..])
  {
    var u := CommaToDot(t);
    var d := DigitRun(t, 0);
    DecShape(t);
    DigitRunCommaToDot(t, 0);
    assert IsDigit(t[0]) && u[0] == t[0];
    if d < |t| {
      DigitRunCommaToDot(t, d + 1);
      assert u[d] == '.';
    }
    FloatLiteralOfParts(u, d);
    DecDigits(t);
  }

  /** Unsigned whole digits, then possibly a dot and digits to the end: a float literal. */
  lemma FloatLiteralOfParts(u: string, d: nat)
    requires 0 < d <= |u| && DigitRun(u, 0) == d && IsDigit(u[0])
    requires d < |u| ==> u[d] == '.' && DigitRun(u, d + 1) == |u| - d - 1
    ensures IsFloatLiteral(u)
  {
    assert SignLen(u, 0) == 0;
  }

  lemma DecDigits(t: string)
    requires IsDec(t)
    ensures AllDigits(t[..DigitRun(t, 0)])
    ensures DigitRun(t, 0) < |t| ==> AllDigits(t[DigitRun(t, 0) + 1..])
  {
    DecShape(t);
  }

  /** A float literal with the whole digits and fraction digits of a `\d+[,.]?\d*` and no sign has its value. */
  lemma DecSameParts(u: string, t: string, d: nat)
    requires IsFloatLiteral(u) && IsDec(t)
    requires d == DigitRun(t, 0) && SignLen(u, 0) == 0 && DigitRun(u, 0) == d
    requires u[0..d] == t[0..d] && FracDigits(u, d) == FracDigits(t, d)
    ensures FloatValue(u) == DecValue(t)
  {
    assert t[0..d] == t[..d];
    assert AllDigits(t[..d]) && AllDigits(FracDigits(t, d));
    assert FloatValue(u) == DecimalValue(false, t[..d], FracDigits(t, d));
  }

  lemma {:induction false} FracValueNonNegative(s: string)
    requires AllDigits(s)
    ensures 0.0 <= FracValue(s) < 1.0
    decreases |s|
  {
    if s != [] {
      FracValueNonNegative(s[1..]);
    }
  }

  /** A `\d+[,.]?\d*` has no sign: its value is never negative. */
  lemma DecNonNegative(t: string)
    requires IsDec(t)
    ensures DecValue(t) >= 0.0
  {
    var d := DigitRun(t, 0);
    assert AllDigits(FracDigits(t, d));
    FracValueNonNegative(FracDigits(t, d));
  }

  // ---------------------------------------------------------------- parse_value

  /** The alternatives of `qual_pattern`. */
  const QualWords: set<string> := {
    "pozitivno", "negativno", "normalno", "povišeno", "sniženo", "kritično", "da", "ne",
    "+", "-", "pos", "neg", "norm", "elevated", "low", "high", "critical"
  }

  /** `re.fullmatch(qual_pattern, t, re.IGNORECASE)`. */
  predicate IsQualWord(t: string)
  {
    Lower(t) in QualWords
  }

  /**
   * `parse_value`: (numeric value, qualitative value). Empty input gives neither;
   * otherwise exactly one, the qualitative one being the stripped text. A word of
   * the qualitative list (in any case) is text; anything else is a number when
   * `float()` reads it after `,` becomes `.`, and text when it does not.
   */
  function ParseValue(s: string): (res: (Option<real>, Option<string>))
    ensures s == [] ==> res == (None, None)
    ensures s != [] ==> (res.0.Some? <==> res.1.None?)
    ensures res.1.Some? ==> res.1.value == Strip(s)
    ensures res.0.Some? ==> res.0 == ParseFloat(Strip(s))
    ensures s != [] && IsQualWord(Strip(s)) ==> res == (None, Some(Strip(s)))
    ensures s != [] && !IsQualWord(Strip(s)) && ParseFloat(Strip(s)).None? ==> res == (None, Some(Strip(s)))
    ensures s != [] && !IsQualWord(Strip(s)) && ParseFloat(Strip(s)).Some? ==> res == (ParseFloat(Strip(s)), None)
  {
    if s == [] then (None, None)
    else
      var t := Strip(s);
      if IsQualWord(t) then (None, Some(t))
      else
        match ParseFloat(t)
        case Some(v) => (Some(v), None)
        case None => (None, Some(t))
  }

  /** A number never reads as a qualitative word: it starts with a digit. */
  lemma DecIsNoQualWord(t: string)
    requires IsDec(t)
    ensures !IsQualWord(t)
  {
    assert IsDigit(Lower(t)[0]);
  }

  /** A `\d+[,.]?\d*` value is read as that number. */
  lemma DecValueRead(s: string)
    requires IsDec(Strip(s))
    ensures ParseValue(s) == (Some(DecValue(Strip(s))), None)
  {
    DecIsNoQualWord(Strip(s));
    DecReads(Strip(s));
  }

  /** A value of white space only is not empty: it becomes the qualitative value "". */
  lemma BlankValueIsText(s: string)
    requires s != [] && AllSpace(s)
    ensures ParseValue(s) == (None, Some(""))
  {
    StripAllSpace(s);
    assert !IsFloatLiteral(CommaToDot([]));
  }

  // ---------------------------------------------------------------- parse_reference

  /** The word between the two numbers of a reference pattern. */
  datatype Joiner = Dash | Do

  function JoinerText(j: Joiner): string
  {
    if j == Dash then "-" else "do"
  }

  /** Where the second number of `(\d+[,.]?\d*)\s*<joiner>\s*(\d+[,.]?\d*)` at i would start, 0 when the joiner is missing. */
  function SecondStart(s: string, i: nat, j: Joiner): nat
  {
    var e := i + DecLenAt(s, i) + SpaceRun(s, i + DecLenAt(s, i));
    var w := JoinerText(j);
    if e + |w| <= |s| && s[e..e + |w|] == w then e + |w| + SpaceRun(s, e + |w|) else 0
  }

  /** Length of the match of `(\d+[,.]?\d*)\s*<joiner>\s*(\d+[,.]?\d*)` at i, 0 when there is none. */
  function PairLenAt(s: string, i: nat, j: Joiner): (n: nat)
    ensures n > 0 ==> i + n <= |s|
    ensures n > 0 ==> DecLenAt(s, i) > 0 && i < SecondStart(s, i, j) && DecLenAt(s, SecondStart(s, i, j)) > 0
  {
    if DecLenAt(s, i) == 0 then 0
    else
      var k := SecondStart(s, i, j);
      if k == 0 || DecLenAt(s, k) == 0 then 0 else k + DecLenAt(s, k) - i
  }

  function DashPairLen(s: string, i: nat): nat
  {
    PairLenAt(s, i, Dash)
  }

  function DoPairLen(s: string, i: nat): nat
  {
    PairLenAt(s, i, Do)
  }

  function PairLen(j: Joiner): (string, nat) -> nat
  {
    if j == Dash then DashPairLen else DoPairLen
  }

  /** The two number groups of the pattern's match at i. */
  function PairGroups(s: string, i: nat, j: Joiner): (string, string)
    requires PairLenAt(s, i, j) > 0
  {
    (DecAt(s, i), DecAt(s, SecondStart(s, i, j)))
  }

  /** The `\d+[,.]?\d*` matched at i. */
  function DecAt(s: string, i: nat): string
    requires DecLenAt(s, i) > 0
  {
    s[i..i + DecLenAt(s, i)]
  }

  /**
   * One step of `parse_reference`'s loop: the leftmost match of the pattern and
   * its two numbers through `float()`, None when there is no match or (the
   * `except: continue`) a number does not convert.
   */
  function ReadPair(s: string, j: Joiner): Option<(real, real)>
  {
    match SearchFrom(s, PairLen(j), 0)
    case None => None
    case Some(i) =>
      assert PairLenAt(s, i, j) > 0;
      PairValues(s, i, j)
  }

  /** The two numbers of the match at i through `float()`, None when one does not convert. */
  function PairValues(s: string, i: nat, j: Joiner): Option<(real, real)>
    requires PairLenAt(s, i, j) > 0
  {
    var g := PairGroups(s, i, j);
    match (ParseFloat(g.0), ParseFloat(g.1))
    case (Some(lo), Some(hi)) => Some((lo, hi))
    case _ => None
  }

  /** The groups of a match are numbers, so the conversion never fails. */
  lemma ReadPairFinds(s: string, j: Joiner)
    ensures ReadPair(s, j).Some? <==> SearchFrom(s, PairLen(j), 0).Some?
    ensures ReadPair(s, j).Some? ==>
      var i := SearchFrom(s, PairLen(j), 0).value;
      && PairLenAt(s, i, j) > 0
      && IsDec(PairGroups(s, i, j).0) && IsDec(PairGroups(s, i, j).1)
      && ReadPair(s, j).value == (DecValue(PairGroups(s, i, j).0), DecValue(PairGroups(s, i, j).1))
  {
    match SearchFrom(s, PairLen(j), 0)
    case None =>
    case Some(i) =>
      assert PairLenAt(s, i, j) > 0;
      GroupsRead(s, i, j);
  }

  lemma GroupsRead(s: string, i: nat, j: Joiner)
    requires PairLenAt(s, i, j) > 0
    ensures var g := PairGroups(s, i, j);
      && IsDec(g.0) && IsDec(g.1)
      && PairValues(s, i, j) == Some((DecValue(g.0), DecValue(g.1)))
  {
    var k := SecondStart(s, i, j);
    DecSlice(s, i);
    DecSlice(s, k);
    DecReads(DecAt(s, i));
    DecReads(DecAt(s, k));
  }

  /** The greedy match at i, cut out of s, is a `\d+[,.]?\d*` on its own. */
  lemma DecSlice(s: string, i: nat)
    requires DecLenAt(s, i) > 0
    ensures IsDec(DecAt(s, i))
  {
    var n := DecLenAt(s, i);
    var d := DigitRun(s, i);
    if d < n {
      DecTail(s, i);
    }
    DecOfSlice(s, i, n, d);
  }

  lemma DecOfSlice(s: string, i: nat, n: nat, d: nat)
    requires 0 < d <= n && i + n <= |s| && DigitRun(s, i) == d
    requires d < n ==> IsSeparator(s[i + d]) && DigitRun(s, i + d + 1) == n - d - 1
    ensures IsDec(s[i..i + n])
  {
    RunInSlice(s, i, i + n, 0, d);
    if d < n {
      RunInSlice(s, i, i + n, d + 1, n - d - 1);
      SepInSlice(s, i, i + n, d);
    }
    DecOfParts(s[i..i + n], d);
  }

  lemma SepInSlice(s: string, i: nat, e: nat, k: nat)
    requires i + k < e <= |s| && IsSeparator(s[i + k])
    ensures IsSeparator(s[i..e][k])
  {
  }

  /** Past the whole digits of a `\d+[,.]?\d*` match: the separator, then digits to the end of the match. */
  lemma DecTail(s: string, i: nat)
    requires 0 < DecLenAt(s, i) && DigitRun(s, i) < DecLenAt(s, i)
    ensures IsSeparator(s[i + DigitRun(s, i)])
    ensures DigitRun(s, i + DigitRun(s, i) + 1) == DecLenAt(s, i) - DigitRun(s, i) - 1
  {
  }

  /** A string of whole digits, then possibly a separator and digits to the end, is a `\d+[,.]?\d*`. */
  lemma DecOfParts(t: string, d: nat)
    requires 0 < d <= |t| && DigitRun(t, 0) == d
    requires d < |t| ==> IsSeparator(t[d]) && DigitRun(t, d + 1) == |t| - d - 1
    ensures IsDec(t)
  {
  }

  /** `\w`: letters (Latin scripts), digits and the underscore. */
  predicate IsWordChar(c: char)
  {
    IsDigit(c) || IsAsciiLetter(c) || c == '_' || c == '\U{AA}' || c == '\U{B5}' || c == '\U{BA}'
    || ('\U{C0}' <= c <= '\U{24F}' && c != '\U{D7}' && c != '\U{F7}') || c == 'μ'
  }

  /** After any white space at p, a `\w` character. */
  predicate WordAfter(s: string, p: nat)
  {
    p + SpaceRun(s, p) < |s| && IsWordChar(s[p + SpaceRun(s, p)])
  }

  /**
   * The third pattern `(\d+[,.]?\d*)\s*-\s*(\d+[,.]?\d*)\s*(\w+)` matches at i:
   * the first two groups as in the first pattern except that the second number
   * may give back characters (any non-empty prefix of it is a number), and a
   * `\w` must follow.
   */
  predicate UnitRangeAt(s: string, i: nat)
  {
    && DecLenAt(s, i) > 0
    && var k := SecondStart(s, i, Dash);
    && k > 0
    && exists e :: k < e <= k + DecLenAt(s, k) && WordAfter(s, e)
  }

  /**
   * The third pattern is only tried once the first found no match anywhere,
   * and wherever it matches the first matches too: it is never the one that answers.
   */
  lemma ThirdPatternIdle(s: string)
    requires SearchFrom(s, DashPairLen, 0).None?
    ensures forall i :: !UnitRangeAt(s, i)
  {
    forall i | UnitRangeAt(s, i)
      ensures false
    {
      var k := SecondStart(s, i, Dash);
      assert DashPairLen(s, i) == k + DecLenAt(s, k) - i;
      assert HitAt(s, DashPairLen, i);
    }
  }

  /**
   * `parse_reference`: (low, high, unit). The leftmost `a - b` anywhere in the
   * text, else the leftmost `a do b`, gives its two numbers; the unit is always
   * None. An empty text, or one with neither form, gives no bounds.
   */
  function ParseReference(s: string): (r: (Option<real>, Option<real>, Option<string>))
    ensures s == [] ==> r == (None, None, None)
    ensures r.2 == None
    ensures r.0.Some? <==> r.1.Some?
  {
    if s == [] then (None, None, None)
    else
      match ReadPair(s, Dash)
      case Some(p) => (Some(p.0), Some(p.1), None)
      case None =>
        match ReadPair(s, Do)
        case Some(p) => (Some(p.0), Some(p.1), None)
        case None => (None, None, None)
  }

  /**
   * The bounds are those of the leftmost `a - b` when there is one, else of the
   * leftmost `a do b`; there are none exactly when neither occurs.
   */
  lemma ReferenceForms(s: string)
    requires s != []
    ensures var dash := SearchFrom(s, DashPairLen, 0);
      var dO := SearchFrom(s, DoPairLen, 0);
      && (ParseReference(s).0.None? <==> dash.None? && dO.None?)
      && (dash.Some? ==>
            var g := PairGroups(s, dash.value, Dash);
            IsDec(g.0) && IsDec(g.1) && ParseReference(s) == (Some(DecValue(g.0)), Some(DecValue(g.1)), None))
      && (dash.None? && dO.Some? ==>
            var g := PairGroups(s, dO.value, Do);
            IsDec(g.0) && IsDec(g.1) && ParseReference(s) == (Some(DecValue(g.0)), Some(DecValue(g.1)), None))
  {
    ReadPairFinds(s, Dash);
    ReadPairFinds(s, Do);
  }

  /**
   * The patterns have no sign: a bound is never negative. "-2 - 2" reads as 2
   * to 2, the leftmost match starting at the first digit.
   */
  lemma ReferenceUnsigned(s: string)
    ensures ParseReference(s).0.Some? ==> ParseReference(s).0.value >= 0.0 && ParseReference(s).1.value >= 0.0
  {
    if s != [] {
      ReferenceForms(s);
      var dash := SearchFrom(s, DashPairLen, 0);
      var dO := SearchFrom(s, DoPairLen, 0);
      if dash.Some? {
        var g := PairGroups(s, dash.value, Dash);
        DecNonNegative(g.0);
        DecNonNegative(g.1);
      } else if dO.Some? {
        var g := PairGroups(s, dO.value, Do);
        DecNonNegative(g.0);
        DecNonNegative(g.1);
      }
    }
  }

  // ---------------------------------------------------------------- clean_analyte_name

  /** The words `clean_analyte_name` removes at either end of a name. */
  const Fillers: seq<string> := ["test", "analiza", "vrijednost", "rezultat"]

  /** `^w\s+` matches n, in any case. */
  predicate LeadsWith(n: string, w: string)
  {
    |w| < |n| && Lower(n[..|w|]) == w && IsSpace(n[|w|])
  }

  /** `\s+w$` matches n, in any case. */
  predicate TrailsWith(n: string, w: string)
  {
    |w| < |n| && Lower(n[|n| - |w|..]) == w && IsSpace(n[|n| - |w| - 1])
  }

  /**
   * How much `re.sub(r'^(test|analiza|vrijednost|rezultat)\s+', '', n, flags=re.IGNORECASE)`
   * removes from the front of n, the alternatives tried from the f-th on.
   */
  function LeadCut(n: string, f: nat): (k: nat)
    requires f <= |Fillers|
    ensures k <= |n|
    decreases |Fillers| - f
  {
    if f == |Fillers| then 0
    else if LeadsWith(n, Fillers[f]) then |Fillers[f]| + SpaceRun(n, |Fillers[f]|)
    else LeadCut(n, f + 1)
  }

  /** Number of white-space characters just before j. */
  function SpacesBefore(s: string, j: nat): (n: nat)
    requires j <= |s|
    ensures n <= j
    ensures forall k :: j - n <= k < j ==> IsSpace(s[k])
    ensures n < j ==> !IsSpace(s[j - n - 1])
    decreases j
  {
    if j > 0 && IsSpace(s[j - 1]) then 1 + SpacesBefore(s, j - 1) else 0
  }

  /**
   * Where `re.sub(r'\s+(test|analiza|vrijednost|rezultat)$', '', n, flags=re.IGNORECASE)`
   * cuts n (|n| when it does not match): the leftmost match starts where the
   * white-space run before the word starts. The name holds no line break at
   * this point, so `$` is the end of the name.
   */
  function TailCut(n: string, f: nat): (k: nat)
    requires f <= |Fillers|
    ensures k <= |n|
    decreases |Fillers| - f
  {
    if f == |Fillers| then |n|
    else if TrailsWith(n, Fillers[f]) then |n| - |Fillers[f]| - SpacesBefore(n, |n| - |Fillers[f]|)
    else TailCut(n, f + 1)
  }

  /**
   * `clean_analyte_name`: "" for an empty name; otherwise strip, collapse every
   * white-space run to one space, drop one leading and then one trailing
   * filler word with the white space next to it, and strip.
   */
  function CleanAnalyteName(name: string): (r: string)
    ensures name == [] ==> r == []
    ensures IsStripped(r)
  {
    if name == [] then []
    else
      var c := CollapseSpaces(Strip(name));
      var a := c[LeadCut(c, 0)..];
      StripIsStripped(a[..TailCut(a, 0)]);
      Strip(a[..TailCut(a, 0)])
  }

  lemma FillersPlain()
    ensures forall g :: 0 <= g < |Fillers| ==> Fillers[g] != [] && NoSpace(Fillers[g])
    ensures forall f, g :: 0 <= f < |Fillers| && 0 <= g < |Fillers| && Fillers[f] == Fillers[g] ==> f == g
  {
  }

  /** A filler followed by white space can start a name in one way only. */
  lemma LeadUnique(n: string, f: nat, g: nat)
    requires f < |Fillers| && g < |Fillers| && |Fillers[g]| <= |Fillers[f]|
    requires LeadsWith(n, Fillers[f]) && LeadsWith(n, Fillers[g])
    ensures f == g
  {
    FillersPlain();
    var a, b := Fillers[f], Fillers[g];
    forall k | 0 <= k < |a|
      ensures !IsSpace(n[k])
    {
      LowerCharSpace(n[k]);
      assert a[k] == Lower(n[..|a|])[k];
    }
    assert a == Lower(n[..|a|]) == b;
  }

  lemma TailUnique(n: string, f: nat, g: nat)
    requires f < |Fillers| && g < |Fillers| && |Fillers[g]| <= |Fillers[f]|
    requires TrailsWith(n, Fillers[f]) && TrailsWith(n, Fillers[g])
    ensures f == g
  {
    FillersPlain();
    var a, b := Fillers[f], Fillers[g];
    forall j | |n| - |a| <= j < |n|
      ensures !IsSpace(n[j])
    {
      LowerCharSpace(n[j]);
      assert a[j - (|n| - |a|)] == Lower(n[|n| - |a|..])[j - (|n| - |a|)];
    }
    assert a == Lower(n[|n| - |a|..]) == b;
  }

  lemma {:induction false} LeadCutFinds(n: string, f: nat, h: nat)
    requires h <= f < |Fillers| && LeadsWith(n, Fillers[f])
    ensures LeadCut(n, h) == |Fillers[f]| + SpaceRun(n, |Fillers[f]|)
    decreases f - h
  {
    if h < f {
      if LeadsWith(n, Fillers[h]) {
        if |Fillers[h]| <= |Fillers[f]| {
          LeadUnique(n, f, h);
        } else {
          LeadUnique(n, h, f);
        }
      }
      LeadCutFinds(n, f, h + 1);
    }
  }

  lemma {:induction false} TailCutFinds(n: string, f: nat, h: nat)
    requires h <= f < |Fillers| && TrailsWith(n, Fillers[f])
    ensures TailCut(n, h) == |n| - |Fillers[f]| - SpacesBefore(n, |n| - |Fillers[f]|)
    decreases f - h
  {
    if h < f {
      if TrailsWith(n, Fillers[h]) {
        if |Fillers[h]| <= |Fillers[f]| {
          TailUnique(n, f, h);
        } else {
          TailUnique(n, h, f);
        }
      }
      TailCutFinds(n, f, h + 1);
    }
  }

  lemma {:induction false} CutsNone(n: string, h: nat)
    requires h <= |Fillers|
    requires forall g :: h <= g < |Fillers| ==> !LeadsWith(n, Fillers[g]) && !TrailsWith(n, Fillers[g])
    ensures LeadCut(n, h) == 0 && TailCut(n, h) == |n|
    decreases |Fillers| - h
  {
    if h < |Fillers| {
      CutsNone(n, h + 1);
    }
  }

  /** Collapsing leaves a string alone when its white space is already single spaces. */
  lemma {:induction false} CollapseKeeps(s: string)
    requires NoDoubleSpace(s)
    ensures CollapseSpaces(s) == s
    decreases |s|
  {
    if s != [] {
      NoDoubleSpaceTail(s);
      CollapseKeeps(s[1..]);
      if IsSpace(s[0]) {
        SingleSpaceRun(s);
        assert CollapseSpaces(s) == " " + CollapseSpaces(s[1..]);
      } else {
        assert CollapseSpaces(s) == [s[0]] + CollapseSpaces(s[1..]);
      }
      assert s == [s[0]] + s[1..];
    }
  }

  lemma NoDoubleSpaceTail(s: string)
    requires s != [] && NoDoubleSpace(s)
    ensures NoDoubleSpace(s[1..])
  {
    forall i | 0 <= i < |s[1..]| && IsSpace(s[1..][i])
      ensures s[1..][i] == ' ' && (i + 1 == |s[1..]| || !IsSpace(s[1..][i + 1]))
    {
      assert s[1..][i] == s[i + 1];
    }
  }

  lemma SingleSpaceRun(s: string)
    requires s != [] && NoDoubleSpace(s) && IsSpace(s[0])
    ensures s[0] == ' ' && SpaceRun(s, 0) == 1
  {
  }

  /** A word whose lower-case form is a filler has no white space. */
  lemma FillerWord(w: string)
    requires Lower(w) in Fillers
    ensures w != [] && NoSpace(w)
  {
    FillersPlain();
    forall k | 0 <= k < |w|
      ensures !IsSpace(w[k])
    {
      LowerCharSpace(w[k]);
      assert Lower(w)[k] == LowerChar(w[k]);
    }
  }

  /** A single-spaced name that neither starts nor ends with a filler word is kept as it is. */
  lemma KeptWithoutFiller(n: string)
    requires n != [] && SingleSpaced(n)
    requires forall g :: 0 <= g < |Fillers| ==> !LeadsWith(n, Fillers[g]) && !TrailsWith(n, Fillers[g])
    ensures CleanAnalyteName(n) == n
  {
    StripStripped(n);
    CollapseKeeps(n);
    CutsNone(n, 0);
    assert n[0..] == n;
    assert n[0..][..|n|] == n;
  }

  /**
   * One filler word at each end, in any case, is removed with the space next to
   * it; what lies between is kept as it is, even when it starts or ends with a
   * filler word itself.
   */
  lemma FillerWrapped(w1: string, core: string, w2: string)
    requires Lower(w1) in Fillers && Lower(w2) in Fillers
    requires core != [] && SingleSpaced(core)
    ensures CleanAnalyteName(w1 + " " + core + " " + w2) == core
  {
    FillerWord(w1);
    FillerWord(w2);
    var n := w1 + " " + core + " " + w2;
    WrappedShape(w1, core, w2);
    StripStripped(n);
    CollapseKeeps(n);
    var rest := core + " " + w2;
    SpacedAssoc(w1, core, w2);
    LeadFillerCut(w1, rest);
    TailFillerCut(core, w2);
    StripStripped(core);
  }

  lemma SpacedAssoc(w1: string, core: string, w2: string)
    ensures w1 + " " + core + " " + w2 == w1 + " " + (core + " " + w2)
  {
  }

  /** A leading filler and the single space after it are cut. */
  lemma LeadFillerCut(w1: string, rest: string)
    requires Lower(w1) in Fillers && rest != [] && !IsSpace(rest[0])
    ensures var n := w1 + " " + rest; LeadCut(n, 0) == |w1| + 1 && n[|w1| + 1..] == rest
  {
    var n := w1 + " " + rest;
    var f :| 0 <= f < |Fillers| && Fillers[f] == Lower(w1);
    assert n[..|w1|] == w1;
    assert LeadsWith(n, Fillers[f]);
    LeadCutFinds(n, f, 0);
    assert SpaceRun(n, |w1|) == 1;
  }

  /** A trailing filler and the single space before it are cut. */
  lemma TailFillerCut(core: string, w2: string)
    requires Lower(w2) in Fillers && core != [] && !IsSpace(core[|core| - 1])
    ensures var a := core + " " + w2; TailCut(a, 0) == |core| && a[..|core|] == core
  {
    var a := core + " " + w2;
    var g :| 0 <= g < |Fillers| && Fillers[g] == Lower(w2);
    assert a[|a| - |w2|..] == w2;
    assert TrailsWith(a, Fillers[g]);
    TailCutFinds(a, g, 0);
    assert SpacesBefore(a, |a| - |w2|) == 1;
  }

  /** The wrapped name is stripped and has single spaces only. */
  lemma WrappedShape(w1: string, core: string, w2: string)
    requires w1 != [] && NoSpace(w1) && w2 != [] && NoSpace(w2)
    requires core != [] && SingleSpaced(core)
    ensures IsStripped(w1 + " " + core + " " + w2)
    ensures NoDoubleSpace(w1 + " " + core + " " + w2)
  {
    var n := w1 + " " + core + " " + w2;
    var p := |w1| + 1 + |core|;
    forall i | 0 <= i < |n| && IsSpace(n[i])
      ensures n[i] == ' ' && (i + 1 == |n| || !IsSpace(n[i + 1]))
    {
      if i == |w1| {
        assert n[i + 1] == core[0];
      } else if |w1| < i < p {
        assert n[i] == core[i - |w1| - 1];
        if i + 1 < p {
          assert n[i + 1] == core[i - |w1|];
        }
      } else if i == p {
        assert n[i + 1] == w2[0];
      }
    }
    assert n[0] == w1[0];
    assert n[|n| - 1] == w2[|w2| - 1];
  }

  // ---------------------------------------------------------------- calculate_status

  /** Status: "Sniženo", "Povišeno", "Normalno", "Kvalitativno". */
  datatype Verdict = Snizeno | Poviseno | Normalno | Kvalitativno

  /** `calculate_status`: below the low bound, else above the high bound, else within; both bounds inclusive. */
  function CalculateStatus(value: real, low: real, high: real): (st: Verdict)
    ensures st != Kvalitativno
    ensures st == Snizeno <==> value < low
    ensures st == Normalno <==> low <= value <= high
  {
    if value < low then Snizeno
    else if value > high then Poviseno
    else Normalno
  }

  /**
   * app_v4's status agrees with the range rule of app_v2 and app_v3 on every
   * value and every pair of bounds.
   */
  lemma StatusAgreesWithRange(v: real, lo: real, hi: real)
    ensures var ref := RefInfo(Some(lo), Some(hi), RangeRef, None);
      && (CalculateStatus(v, lo, hi) == Snizeno <==> StatusFrom(Num(v), ref) == Below)
      && (CalculateStatus(v, lo, hi) == Poviseno <==> StatusFrom(Num(v), ref) == Above)
      && (CalculateStatus(v, lo, hi) == Normalno <==> StatusFrom(Num(v), ref) == Within)
  {
  }

  // ---------------------------------------------------------------- parse_line

  /** The four line patterns, in the order `parse_line` tries them. */
  datatype LinePattern = AnalyteValueUnitRange | AnalyteValueUnit | ValueUnitAnalyte | AnalyteValue

  const LinePatterns: seq<LinePattern> := [AnalyteValueUnitRange, AnalyteValueUnit, ValueUnitAnalyte, AnalyteValue]

  /**
   * The groups of a match: analyte, value, unit (absent in the fourth pattern)
   * and the two reference numbers (the first pattern only).
   */
  datatype LineGroups = LineGroups(analyte: string, value: string, unit: Option<string>, range: Option<(string, string)>)

  predicate NoDigit(w: string)
  {
    forall k :: 0 <= k < |w| ==> !IsDigit(w[k])
  }

  /** `\w+`. */
  predicate IsWord(w: string)
  {
    w != [] && forall k :: 0 <= k < |w| ==> IsWordChar(w[k])
  }

  /**
   * What the pattern's regex guarantees about its groups: `[^0-9]+?` for the
   * analyte, `\d+[,.]?\d*` for the value and the reference numbers, `\w+` for the unit.
   */
  predicate Shaped(p: LinePattern, g: LineGroups)
  {
    && g.analyte != [] && NoDigit(g.analyte)
    && IsDec(g.value)
    && (g.unit.Some? <==> p != AnalyteValue)
    && (g.unit.Some? ==> IsWord(g.unit.value))
    && (g.range.Some? <==> p == AnalyteValueUnitRange)
    && (g.range.Some? ==> IsDec(g.range.value.0) && IsDec(g.range.value.1))
  }

  function NoMatch(p: LinePattern, s: string): Option<LineGroups>
  {
    None
  }

  /** `re.search(pattern, line)` for the four patterns: the groups of the match, or None. */
  type LineMatcher = m: (LinePattern, string) -> Option<LineGroups>
    | forall p, s :: m(p, s).Some? ==> Shaped(p, m(p, s).value)
    witness NoMatch

  /** The unit words that hold a qualitative result. */
  const UnitWords: seq<string> := ["pozitivno", "negativno", "normalno", "povišeno", "sniženo"]

  /** `unit and unit.lower() in [...]`. */
  predicate IsUnitWord(unit: Option<string>)
  {
    unit.Some? && unit.value != [] && Lower(unit.value) in UnitWords
  }

  /**
   * The row of the first pattern that matched: None when the cleaned analyte is
   * not valid. For a urine test whose unit is a result word the word becomes the
   * qualitative value and the unit None. The status compares the number with
   * the two bounds when all three exist, is "Kvalitativno" when there is a
   * qualitative value, and None otherwise.
   */
  function MatchResult(p: LinePattern, g: LineGroups, known: string -> bool, skip: string -> bool): Option<LabRow>
  {
    var low := if g.range.Some? then ParseFloat(g.range.value.0) else None;
    var high := if g.range.Some? then ParseFloat(g.range.value.1) else None;
    var analyte := CleanAnalyteName(g.analyte);
    if !ThreeTier(analyte, known, skip) then None
    else
      var pv := ParseValue(g.value);
      var moved := IsUrineQualitative(analyte) && IsUnitWord(g.unit);
      var qual := if moved then g.unit else pv.1;
      var unit := if moved then None else g.unit;
      var status :=
        if pv.0.Some? && low.Some? && high.Some? then Some(CalculateStatus(pv.0.value, low.value, high.value))
        else if qual.Some? && qual.value != [] then Some(Kvalitativno)
        else None;
      Some(LabRow(analyte, ValueOf(pv.0, qual), unit, low, high, status))
  }

  /** A row of app_v4: Analit, Vrijednost, Jedinica, Ref_low, Ref_high, Status. */
  datatype LabRow = LabRow(analyte: string, value: Value, unit: Option<string>, low: Option<real>, high: Option<real>, status: Option<Verdict>)

  function Tagged(p: LinePattern, found: Option<LineGroups>): Option<(LinePattern, LineGroups)>
  {
    if found.Some? then Some((p, found.value)) else None
  }

  /** What each pattern finds in the stripped line, in order. */
  function Matches(s: string, m: LineMatcher): (ms: seq<Option<(LinePattern, LineGroups)>>)
    ensures |ms| == |LinePatterns|
    ensures forall k :: 0 <= k < |LinePatterns| ==> ms[k] == Tagged(LinePatterns[k], m(LinePatterns[k], s))
  {
    seq(|LinePatterns|, k requires 0 <= k < |LinePatterns| => Tagged(LinePatterns[k], m(LinePatterns[k], s)))
  }

  /**
   * `parse_line`: None for a line shorter than three characters once stripped;
   * otherwise the first pattern that matches decides, and a line no pattern
   * matches gives None.
   */
  function LineResult(line: string, m: LineMatcher, known: string -> bool, skip: string -> bool): Option<LabRow>
  {
    var s := Strip(line);
    if |s| < 3 then None
    else
      match FirstSome(Matches(s, m))
      case None => None
      case Some(pg) => MatchResult(pg.0, pg.1, known, skip)
  }

  /**
   * For a match of a pattern: the row exists exactly when the cleaned analyte is
   * valid; its value is always the number of the value group (a result word moved
   * out of the unit shows up in neither Vrijednost nor Jedinica); the bounds exist
   * exactly for the first pattern; the status is the range status for the first
   * pattern, "Kvalitativno" when a result word was moved, and None otherwise.
   */
  lemma MatchResultFields(p: LinePattern, g: LineGroups, known: string -> bool, skip: string -> bool)
    requires Shaped(p, g)
    ensures MatchResult(p, g, known, skip).Some? <==> ThreeTier(CleanAnalyteName(g.analyte), known, skip)
    ensures MatchResult(p, g, known, skip).Some? ==>
      var r := MatchResult(p, g, known, skip).value;
      var moved := IsUrineQualitative(r.analyte) && IsUnitWord(g.unit);
      && r.analyte == CleanAnalyteName(g.analyte)
      && r.value == Num(DecValue(g.value))
      && (r.low.Some? <==> p == AnalyteValueUnitRange) && (r.high.Some? <==> p == AnalyteValueUnitRange)
      && (p == AnalyteValueUnitRange ==>
            && r.low == Some(DecValue(g.range.value.0)) && r.high == Some(DecValue(g.range.value.1))
            && r.status == Some(CalculateStatus(DecValue(g.value), r.low.value, r.high.value)))
      && (p != AnalyteValueUnitRange ==> r.status == (if moved then Some(Kvalitativno) else None))
      && r.unit == (if moved then None else g.unit)
  {
    DecIsStripped(g.value);
    StripStripped(g.value);
    DecValueRead(g.value);
    if g.range.Some? {
      DecReads(g.range.value.0);
      DecReads(g.range.value.1);
    }
  }

  /**
   * `parse_line` answers with the first pattern that matches the stripped line
   * (k): every earlier pattern found nothing, and when that pattern's analyte is
   * not valid the answer is None, with no fall-back to the later patterns.
   */
  lemma LineResultFirst(line: string, m: LineMatcher, known: string -> bool, skip: string -> bool) returns (k: nat)
    ensures |Strip(line)| < 3 ==> LineResult(line, m, known, skip) == None
    ensures |Strip(line)| >= 3 ==>
      && k <= |LinePatterns|
      && (forall j :: 0 <= j < k ==> m(LinePatterns[j], Strip(line)).None?)
      && (k < |LinePatterns| ==>
            m(LinePatterns[k], Strip(line)).Some?
            && LineResult(line, m, known, skip) == MatchResult(LinePatterns[k], m(LinePatterns[k], Strip(line)).value, known, skip))
      && (k == |LinePatterns| ==> LineResult(line, m, known, skip) == None)
  {
    var s := Strip(line);
    var ms := Matches(s, m);
    k := FirstSomeAt(ms);
    if k < |LinePatterns| {
      assert ms[k] == Tagged(LinePatterns[k], m(LinePatterns[k], s));
    }
    forall j | 0 <= j < k
      ensures m(LinePatterns[j], s).None?
    {
      assert ms[j] == Tagged(LinePatterns[j], m(LinePatterns[j], s));
    }
  }

  /** Every row `parse_line` returns has a numeric value, and bounds only together with the range status. */
  predicate WellFormed(r: LabRow)
  {
    && r.value.Num?
    && (r.low.Some? <==> r.high.Some?)
    && (r.low.Some? ==> r.status == Some(CalculateStatus(r.value.n, r.low.value, r.high.value)))
    && (r.low.None? ==> r.status != Some(Snizeno) && r.status != Some(Normalno) && r.status != Some(Poviseno))
  }

  lemma LineResultWellFormed(line: string, m: LineMatcher, known: string -> bool, skip: string -> bool)
    ensures LineResult(line, m, known, skip).Some? ==> WellFormed(LineResult(line, m, known, skip).value)
  {
    var k := LineResultFirst(line, m, known, skip);
    if |Strip(line)| >= 3 && k < |LinePatterns| {
      var p := LinePatterns[k];
      MatchResultFields(p, m(p, Strip(line)).value, known, skip);
    }
  }

  // ---------------------------------------------------------------- parse_text

  /** What `parse_line` gives on each line. */
  function LineResults(lines: seq<string>, m: LineMatcher, known: string -> bool, skip: string -> bool): (opts: seq<Option<LabRow>>)
    ensures |opts| == |lines|
    ensures forall i :: 0 <= i < |lines| ==> opts[i] == LineResult(lines[i], m, known, skip)
  {
    seq(|lines|, i requires 0 <= i < |lines| => LineResult(lines[i], m, known, skip))
  }

  /** Every row `parse_text` collects from the lines of `text.split('\n')`, in order. */
  function TextResults(text: string, m: LineMatcher, known: string -> bool, skip: string -> bool): seq<LabRow>
  {
    if text == [] then [] else Present(LineResults(SplitOn(text, '\n'), m, known, skip))
  }

  /** `_priority`: how many of Ref_low and Ref_high are not null. */
  function Priority(r: LabRow): nat
  {
    (if r.low.Some? then 1 else 0) + (if r.high.Some? then 1 else 0)
  }

  /** `_has_unit`: Jedinica is neither null nor "". */
  predicate HasUnit(r: LabRow)
  {
    r.unit.Some? && r.unit.value != []
  }

  /** The sort order within one Analit: `_priority` descending, then `_has_unit` descending. */
  predicate ResultLe(a: LabRow, b: LabRow)
  {
    Priority(a) > Priority(b) || (Priority(a) == Priority(b) && (HasUnit(a) || !HasUnit(b)))
  }

  lemma ResultLeTotal()
    ensures TotalPreorder(ResultLe)
  {
  }

  function ResultKey(r: LabRow): string
  {
    r.analyte
  }

  /** The table `parse_text` returns, from the rows it collected. */
  function ResultTable(rows: seq<LabRow>): seq<LabRow>
  {
    KeepBest(rows, ResultKey, ResultLe)
  }

  /**
   * One row per Analit, and the kept row has the most reference bounds among the
   * rows with its Analit, and a unit whenever one of those with as many has one.
   */
  lemma ResultTableBest(rows: seq<LabRow>)
    ensures var table := ResultTable(rows);
      && UniqueKeys(table, ResultKey)
      && forall j, x :: 0 <= j < |table| && x in rows && x.analyte == table[j].analyte ==>
           && Priority(table[j]) >= Priority(x)
           && (Priority(table[j]) == Priority(x) && HasUnit(x) ==> HasUnit(table[j]))
  {
    var table := ResultTable(rows);
    ResultLeTotal();
    KeepBestMinimal(rows, ResultKey, ResultLe);
    forall j, x | 0 <= j < |table| && x in rows && x.analyte == table[j].analyte
      ensures Priority(table[j]) >= Priority(x)
      ensures Priority(table[j]) == Priority(x) && HasUnit(x) ==> HasUnit(table[j])
    {
      assert ResultKey(x) == ResultKey(table[j]);
      assert ResultLe(table[j], x);
    }
  }

  /** An empty text gives the empty table. */
  lemma EmptyTextEmptyTable(m: LineMatcher, known: string -> bool, skip: string -> bool)
    ensures ResultTable(TextResults("", m, known, skip)) == []
  {
  }

  /** A row that `parse_line` gave for one of the lines, and so is well formed. */
  predicate FromLine(r: LabRow, lines: seq<string>, m: LineMatcher, known: string -> bool, skip: string -> bool)
  {
    && WellFormed(r)
    && exists i :: 0 <= i < |lines| && LineResult(lines[i], m, known, skip) == Some(r)
  }

  lemma LineResultFromLine(lines: seq<string>, i: nat, m: LineMatcher, known: string -> bool, skip: string -> bool)
    requires i < |lines| && LineResult(lines[i], m, known, skip).Some?
    ensures FromLine(LineResult(lines[i], m, known, skip).value, lines, m, known, skip)
  {
    LineResultWellFormed(lines[i], m, known, skip);
  }

  /**
   * Every row of the table is the row `parse_line` gave for one of the lines of
   * the text, so its value is a number and it has bounds only with the range status.
   */
  lemma ResultTableRows(text: string, m: LineMatcher, known: string -> bool, skip: string -> bool)
    ensures var table := ResultTable(TextResults(text, m, known, skip));
      forall j :: 0 <= j < |table| ==> FromLine(table[j], SplitOn(text, '\n'), m, known, skip)
  {
    var table := ResultTable(TextResults(text, m, known, skip));
    var lines := SplitOn(text, '\n');
    var opts := LineResults(lines, m, known, skip);
    forall j | 0 <= j < |table|
      ensures FromLine(table[j], lines, m, known, skip)
    {
      PresentMembers(opts, table[j]);
      var i :| 0 <= i < |opts| && opts[i] == Some(table[j]);
      LineResultFromLine(lines, i, m, known, skip);
    }
  }

  // ---------------------------------------------------------------- the parser

  /**
   * `LabResultParser`. Its constructor sets the word sets the validity rule uses;
   * nothing changes them afterwards.
   */
  class LabResultParser {
    /** `known_analytes`, as its membership test. */
    const knownAnalytes: string -> bool
    /** `skip_words`, as its membership test. */
    const skipWords: string -> bool

    /** `__init__`. The regex strings it also stores are the recognisers above. */
    constructor()
      ensures knownAnalytes == KnownAnalyte && skipWords == SkipWord
    {
      knownAnalytes := KnownAnalyte;
      skipWords := SkipWord;
    }

    /** `is_valid_analyte`: the three-tier rule over the parser's word sets. */
    predicate IsValidAnalyte(name: string)
    {
      ThreeTier(name, knownAnalytes, skipWords)
    }

    /** The body of `parse_line`'s loop for the first pattern that matched. */
    method ResultOfMatch(p: LinePattern, g: LineGroups) returns (r: Option<LabRow>)
      ensures r == MatchResult(p, g, knownAnalytes, skipWords)
    {
      var low: Option<real> := None;
      var high: Option<real> := None;
      if g.range.Some? {
        low := ParseFloat(g.range.value.0);
        high := ParseFloat(g.range.value.1);
      }
      var analyte := CleanAnalyteName(g.analyte);
      if !IsValidAnalyte(analyte) {
        return None;
      }
      var pv := ParseValue(g.value);
      var num, qual := pv.0, pv.1;
      var unit := g.unit;
      if IsUrineQualitative(analyte) {
        if IsUnitWord(unit) {
          qual := unit;
          unit := None;
        }
      }
      var status: Option<Verdict> := None;
      if num.Some? && low.Some? && high.Some? {
        status := Some(CalculateStatus(num.value, low.value, high.value));
      } else if qual.Some? && qual.value != [] {
        status := Some(Kvalitativno);
      }
      r := Some(LabRow(analyte, ValueOf(num, qual), unit, low, high, status));
    }

    /** `parse_line`: the first pattern that matches the stripped line decides. */
    method ParseLine(line: string, m: LineMatcher) returns (r: Option<LabRow>)
      ensures r == LineResult(line, m, knownAnalytes, skipWords)
    {
      var s := Strip(line);
      if |s| < 3 {
        return None;
      }
      ghost var ms := Matches(s, m);
      for k := 0 to |LinePatterns|
        invariant FirstSome(ms) == FirstSome(ms[k..])
      {
        var p := LinePatterns[k];
        var found := m(p, s);
        if found.Some? {
          assert ms[k..][0] == ms[k] == Some((p, found.value));
          r := ResultOfMatch(p, found.value);
          return;
        }
        assert ms[k..][0].None? && ms[k..][1..] == ms[k + 1..];
      }
      return None;
    }

    /**
     * `parse_text`: parse every line of `text.split('\n')`, collect the rows, and
     * keep one row per Analit, one with the most reference bounds and then a
     * unit. An empty text, or one without rows, gives the empty table.
     */
    method ParseText(text: string, m: LineMatcher) returns (table: seq<LabRow>)
      ensures table == ResultTable(TextResults(text, m, knownAnalytes, skipWords))
      ensures UniqueKeys(table, ResultKey)
      ensures Keys(table, ResultKey) == Keys(TextResults(text, m, knownAnalytes, skipWords), ResultKey)
      ensures forall k :: 0 <= k < |table| ==> table[k] in TextResults(text, m, knownAnalytes, skipWords)
    {
      if text == [] {
        return [];
      }
      var lines := SplitOn(text, '\n');
      ghost var opts := LineResults(lines, m, knownAnalytes, skipWords);
      var results: seq<LabRow> := [];
      PresentSnoc(opts, 0);
      for i := 0 to |lines|
        invariant results == Present(opts[..i])
      {
        var r := ParseLine(lines[i], m);
        PresentSnoc(opts, i + 1);
        PushRow(results, r);
        if r.Some? {
          results := results + [r.value];
        }
      }
      assert opts[..|lines|] == opts;
      table := KeepBest(results, ResultKey, ResultLe);
    }
  }

  /** For a parser built by `__init__`, a name containing "normalan" or "datum" (in any case) is never valid. */
  lemma NormalanDatumRejected(p: LabResultParser, name: string, w: string)
    requires p.skipWords == SkipWord
    requires (w == "normalan" || w == "datum") && Contains(Lower(name), w)
    ensures !p.IsValidAnalyte(name)
  {
    SkipWordRejects(name, p.knownAnalytes, p.skipWords, w);
  }

  /** Filler words are dropped: "Rezultat glukoza test" is cleaned to "glukoza". */
  lemma FillersDropped()
    ensures CleanAnalyteName("Rezultat glukoza test") == "glukoza"
  {
    assert Lower("Rezultat") == "rezultat";
    assert Lower("test") == "test";
    assert SingleSpaced("glukoza");
    FillerWrapped("Rezultat", "glukoza", "test");
    SampleName();
  }

  lemma SampleName()
    ensures "Rezultat" + " " + "glukoza" + " " + "test" == "Rezultat glukoza test"
  {
    assert "Rezultat" + " " == "Rezultat ";
    assert "Rezultat " + "glukoza" == "Rezultat glukoza";
    assert "Rezultat glukoza" + " " == "Rezultat glukoza ";
  }

  /**
   * Cleaning comes before the validity test: the raw name "Rezultat glukoza
   * test", which holds the skip word "rezultat", is rejected, while
   * `parse_line` tests its cleaned form "glukoza".
   */
  lemma FillerBeforeValidity(p: LabResultParser)
    requires p.skipWords == SkipWord
    ensures CleanAnalyteName("Rezultat glukoza test") == "glukoza"
    ensures !p.IsValidAnalyte("Rezultat glukoza test")
  {
    FillersDropped();
    RawNameHoldsRezultat();
    SkipWordRejects("Rezultat glukoza test", p.knownAnalytes, p.skipWords, "rezultat");
  }

  lemma RawNameHoldsRezultat()
    ensures Contains(Lower("Rezultat glukoza test"), "rezultat")
  {
    var low := Lower("Rezultat glukoza test");
    assert low[..8] == "rezultat";
    assert OccursAt(low, "rezultat", 0);
  }
}
