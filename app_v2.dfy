/**
 * The extraction core of app_v2: the automatic line parser, the targeted
 * (dictionary) parser and their merge, with the helpers they share.
 *
 * The line regexes PAT_MOJLAB, PAT_UNIVERSAL, PAT_STATE, PAT_TABLE and
 * PAT_A to PAT_D are not re-implemented: their matches on a line are an input
 * (`matches`), given as the named groups of each match in `finditer` order.
 * The token regexes NUM, QUAL, UNIT and RANGE, the unit-tail regex and the alias
 * regex of the targeted parser are recognised in full.
 */
module AppV2 {
  import opened Wrappers
  import opened Text
  import opened Decimal
  import opened Padded
  import opened Tokens
  import opened Records
  import opened Analyte
  import opened Selection

  // ---------------------------------------------------------------- validity

  /** Membership in `KNOWN_ANALYTES`, the analyte terms that make a name valid. */
  predicate KnownAnalyte(w: string)
  {
    w in {
      "hemoglobin", "hb", "eritrociti", "rbc", "leukociti", "wbc", "trombociti", "plt",
      "hematokrit", "hct", "glukoza", "glucose", "urea", "kreatinin", "creatinine",
      "alt", "gpt", "ast", "got", "ggt", "gamma gt", "holesterol", "cholesterol",
      "hdl", "ldl", "trigliceridi", "triglycerides", "natrijum", "na", "kalijum", "k",
      "kalcijum", "ca", "neutrofili", "neutrophils", "limfociti", "lymphocytes",
      "monociti", "monocytes", "eozinofili", "eosinophils", "bazofili", "basophils",
      "mcv", "mch", "mchc", "rdw", "pdw", "mpv", "pct", "p-lcr", "ig", "sedimentacija",
      "protrombinsko", "inr", "aptt", "fibrinogen", "bilirubin", "urobilinogen",
      "glukoza u urinu", "eritrociti u urinu", "proteini u urinu", "ketoni u urinu",
      "nitriti", "leukociti u urinu", "krv u urinu", "ph urina", "specifina težina"
    }
  }

  /** Membership in `SKIP_WORDS`, the header and comment words that make a name invalid. */
  predicate SkipWord(w: string)
  {
    w in {
      "laboratorijska", "dijagnostika", "uzorkovanja", "vrijeme", "datum", "pacijent",
      "doktor", "dr", "serum", "plazma", "citrat", "punkt", "protokola", "br.",
      "aligrudić", "golubovci", "filip", "mara", "džomić", "qo", "med", "dijag",
      "normalan", "negativan", "pozitivan", "granulociti", "epitelne", "cel",
      "neskvamozne", "bubrežni", "epitel", "elije", "težina", "specifina"
    }
  }

  /** `is_valid_analyte`: the three-tier rule over app_v2's word sets. */
  predicate IsValidAnalyte(name: string)
  {
    ThreeTier(name, KnownAnalyte, SkipWord)
  }

  /** "k" is a known term: any name with a k or K in it and no skip word is valid. */
  lemma NameWithKIsValid(name: string, i: nat)
    requires i < |name| && (name[i] == 'k' || name[i] == 'K')
    requires |Strip(name)| >= 2 && !MentionsAny(Strip(Lower(name)), SkipWord)
    ensures IsValidAnalyte(name)
  {
    LowerContainsK(name, i);
    KIsKnown();
    KnownTermAccepts(name, KnownAnalyte, SkipWord, "k");
  }

  lemma KIsKnown()
    ensures KnownAnalyte("k") && Trimmed("k")
  {
  }

  lemma LowerContainsK(name: string, i: nat)
    requires i < |name| && (name[i] == 'k' || name[i] == 'K')
    ensures Contains(Lower(name), "k")
  {
    var l := Lower(name);
    assert l[i..i + 1] == "k";
    assert OccursAt(l, "k", i);
  }

  /** The skip words are checked first: a known term never rescues a name that mentions one. */
  lemma SkipWordBeatsKnownTerm(name: string, w: string)
    requires SkipWord(w) && Contains(Lower(name), w)
    ensures !IsValidAnalyte(name)
  {
    SkipWordsTrimmed();
    SkipWordRejects(name, KnownAnalyte, SkipWord, w);
  }

  lemma SkipWordsTrimmed()
    ensures forall w :: SkipWord(w) ==> Trimmed(w)
  {
  }

  /**
   * The known term "specifina težina" can never make a name valid: both of its
   * words are skip words.
   */
  lemma SpecificGravityNeverValid(name: string)
    requires Contains(Lower(name), "specifina težina")
    ensures !IsValidAnalyte(name)
  {
    var l := Lower(name);
    var i: nat :| i <= |l| && OccursAt(l, "specifina težina", i);
    assert l[i..i + 9] == l[i..i + 16][..9];
    assert OccursAt(l, "specifina", i);
    SkipWordBeatsKnownTerm(name, "specifina");
  }

  // ---------------------------------------------------------------- units

  /** `normalize_units`: "^" becomes "*", the micro sign becomes "u", white space goes. */
  function NormalizeUnits(u: string): (r: string)
    ensures u == [] ==> r == []
    ensures NoSpace(r) && '^' !in r && 'µ' !in r
    ensures |r| <= |u|
    ensures forall c :: c in r ==> c in u || c == '*' || c == 'u'
  {
    if u == [] then []
    else
      var a := ReplaceChar(u, '^', '*');
      var b := ReplaceChar(a, 'µ', 'u');
      assert forall c :: c in b ==> c in u || c == '*' || c == 'u' by {
        forall c | c in b
          ensures c in u || c == '*' || c == 'u'
        {
          var i :| 0 <= i < |b| && b[i] == c;
          assert a[i] in a;
        }
      }
      RemoveSpaces(b)
  }

  /** Normalising a unit twice changes nothing more. */
  lemma NormalizeUnitsIdempotent(u: string)
    ensures NormalizeUnits(NormalizeUnits(u)) == NormalizeUnits(u)
  {
    var r := NormalizeUnits(u);
    if r != [] {
      var a := ReplaceChar(r, '^', '*');
      assert a == r by {
        forall i | 0 <= i < |r|
          ensures a[i] == r[i]
        {
          assert r[i] in r;
        }
      }
      var b := ReplaceChar(a, 'µ', 'u');
      assert b == r by {
        forall i | 0 <= i < |r|
          ensures b[i] == r[i]
        {
          assert r[i] in r;
        }
      }
    }
  }

  /** The unit symbols UNIT_TAIL knows, lower-cased (it matches ignoring case). */
  predicate SimpleTail(w: string)
  {
    w in {
      "g/l", "fg/l", "pg/l", "ng/l", "ug/l", "mg/l", "kg/l",
      "ng/ml", "ug/ml", "mg/dl", "mmol/l", "mol/l", "u/l", "iu/l", "miu/l",
      "l/l", "fl", "pl", "nl", "pg", "%"
    }
  }

  /** One of UNIT_TAIL's alternatives matches the whole of t. */
  predicate IsTailToken(t: string)
  {
    t != [] && (SimpleTail(Lower(t)) || PowerUnitLenAt(t, 0) == |t|)
  }

  /**
   * Length of the UNIT_TAIL match at i (a unit symbol, then white space, then
   * the end): what follows i, without its trailing white space, must be a unit
   * symbol, and the match runs to the end.
   */
  function TailLenAt(s: string, i: nat): nat
  {
    if i < |s| && IsTailToken(RStrip(s[i..])) then |s| - i else 0
  }

  /** `UNIT_TAIL.search(s)` succeeds. */
  predicate HasUnitTail(s: string)
  {
    SearchFrom(s, TailLenAt, 0).Some?
  }

  /**
   * The `while UNIT_TAIL.search(name)` loop: cut the name at the leftmost match
   * (`UNIT_TAIL.sub("", name)`), strip, and repeat. Each round shortens the name.
   */
  function StripUnitTails(name: string): (r: string)
    ensures !HasUnitTail(r)
    ensures |r| <= |name|
    decreases |name|
  {
    match SearchFrom(name, TailLenAt, 0)
    case None => name
    case Some(i) => StripUnitTails(Strip(name[..i]))
  }

  /** A name without a unit tail is left as it is. */
  lemma StripUnitTailsNoTail(name: string)
    requires !HasUnitTail(name)
    ensures StripUnitTails(name) == name
  {
  }

  /** On a single-spaced name, removing unit tails only cuts the name short. */
  lemma {:induction false} StripUnitTailsPrefix(name: string)
    requires SingleSpaced(name)
    ensures SingleSpaced(StripUnitTails(name))
    ensures StripUnitTails(name) == name[..|StripUnitTails(name)|]
    decreases |name|
  {
    match SearchFrom(name, TailLenAt, 0)
    case None =>
    case Some(i) =>
      var cut := Strip(name[..i]);
      StripPrefix(name, i);
      SingleSpacedPrefix(name, i);
      StripUnitTailsPrefix(cut);
      PrefixTrans(name, cut, StripUnitTails(cut));
  }

  // ---------------------------------------------------------------- names

  predicate EndsWithAps(n: string)
  {
    EndsWith(Lower(n), " aps")
  }

  /** The name after a trailing "%" is removed, when there is one. */
  function WithoutPercent(n: string): string
  {
    if EndsWith(n, "%") then Strip(n[..|n| - 1]) else n
  }

  /** The name once a trailing " aps" is removed, when there is one. */
  function WithoutAps(n: string): string
  {
    if EndsWithAps(n) then Strip(n[..|n| - 3]) else n
  }

  /**
   * The (Analit, Tip) pair `clean_name_and_type` returns for a raw name and the
   * unit found next to it.
   */
  function CleanName(name: string, unitGuess: string): (res: (string, Subtype))
    ensures !HasUnitTail(res.0)
  {
    var n0 := PrepareName(name);
    var n1 := WithoutPercent(n0);
    var typ := if EndsWithAps(n1) then Absolute else if EndsWith(n0, "%") then Percent
               else if Strip(unitGuess) == "%" then Percent else NoSubtype;
    (StripUnitTails(WithoutAps(n1)), typ)
  }

  lemma WithoutPercentShape(n: string)
    requires SingleSpaced(n)
    ensures SingleSpaced(WithoutPercent(n)) && WithoutPercent(n) == n[..|WithoutPercent(n)|]
  {
    if EndsWith(n, "%") {
      SingleSpacedPrefix(n, |n| - 1);
    }
  }

  lemma WithoutApsShape(n: string)
    requires SingleSpaced(n)
    ensures SingleSpaced(WithoutAps(n)) && WithoutAps(n) == n[..|WithoutAps(n)|]
  {
    if EndsWithAps(n) {
      ApsLength(n);
      SingleSpacedPrefix(n, |n| - 3);
      assert WithoutAps(n) == Strip(n[..|n| - 3]);
    } else {
      assert n[..|n|] == n;
    }
  }

  lemma ApsLength(n: string)
    requires EndsWithAps(n)
    ensures |n| >= 4
  {
    assert |Lower(n)| == |n|;
  }

  /**
   * The cleaned name is single-spaced and is the prepared name cut short: cleaning
   * only ever removes a tail.
   */
  lemma CleanNameShape(name: string, unitGuess: string)
    ensures var r := CleanName(name, unitGuess).0;
      SingleSpaced(r) && r == PrepareName(name)[..|r|]
  {
    var n0 := PrepareName(name);
    var n1 := WithoutPercent(n0);
    var n2 := WithoutAps(n1);
    var r := StripUnitTails(n2);
    assert SingleSpaced(n2) && n2 == n0[..|n2|] by {
      WithoutPercentShape(n0);
      WithoutApsShape(n1);
      PrefixTrans(n0, n1, n2);
    }
    assert SingleSpaced(r) && r == n2[..|r|] by {
      StripUnitTailsPrefix(n2);
    }
    PrefixTrans(n0, n2, r);
  }

  /**
   * Tip: "aps" exactly when the name, once a trailing "%" is gone, ends in " aps"
   * (the two checks are separate `if`s, so "aps" overrides "%"); otherwise "%"
   * when the name ended in "%" or the unit is "%"; otherwise none.
   */
  lemma CleanNameSubtype(name: string, unitGuess: string)
    ensures var n0 := PrepareName(name);
      && (CleanName(name, unitGuess).1 == Absolute <==> EndsWithAps(WithoutPercent(n0)))
      && (CleanName(name, unitGuess).1 == Percent <==>
            !EndsWithAps(WithoutPercent(n0)) && (EndsWith(n0, "%") || Strip(unitGuess) == "%"))
  {
  }

  /** The unit hint is only consulted when the name itself gave no Tip. */
  lemma UnitHintOnlyWithoutTip(name: string, unitGuess: string)
    requires var n0 := PrepareName(name); EndsWith(n0, "%") || EndsWithAps(WithoutPercent(n0))
    ensures CleanName(name, unitGuess) == CleanName(name, "")
  {
  }

  /** `clean_name_and_type`, step by step, with the unit-tail loop. */
  method CleanNameAndType(rawName: string, unitGuess: string) returns (name: string, typ: Subtype)
    ensures (name, typ) == CleanName(rawName, unitGuess)
  {
    name := PrepareName(rawName);
    typ := NoSubtype;
    if EndsWith(name, "%") {
      typ := Percent;
      name := Strip(name[..|name| - 1]);
    }
    if EndsWith(Lower(name), " aps") {
      typ := Absolute;
      name := Strip(name[..|name| - 3]);
    }
    ghost var beforeLoop := name;
    while SearchFrom(name, TailLenAt, 0).Some?
      invariant StripUnitTails(name) == StripUnitTails(beforeLoop)
      decreases |name|
    {
      name := Strip(name[..SearchFrom(name, TailLenAt, 0).value]);
    }
    if typ == NoSubtype && Strip(unitGuess) == "%" {
      typ := Percent;
    }
  }

  // ---------------------------------------------------------------- references

  /** `re.match(rf"^{NUM}\s*[~\-]\s*{NUM}$", r)`. */
  predicate IsRangePair(r: string)
  {
    r != [] && PairLenAt(r, 0) == |r|
  }

  /** `re.match(rf"^<\s*{NUM}$", r)` for op '<', `re.match(rf"^>\s*{NUM}$", r)` for op '>'. */
  predicate IsBound(r: string, op: char)
  {
    r != [] && BoundLenAt(r, 0, op) == |r|
  }

  /** Position of the `~` or `-` between the two numbers of a range. */
  function RangeSepAt(r: string): nat
  {
    NumLenAt(r, 0) + SpaceRun(r, NumLenAt(r, 0))
  }

  /** A range is a NUM, optional white space, the separator, optional white space, a NUM. */
  lemma RangePairParts(r: string)
    requires IsRangePair(r)
    ensures 0 < NumLenAt(r, 0) <= RangeSepAt(r) < SecondNumStart(r, 0) < |r|
    ensures r[RangeSepAt(r)] == '~' || r[RangeSepAt(r)] == '-'
    ensures SecondNumStart(r, 0) == RangeSepAt(r) + 1 + SpaceRun(r, RangeSepAt(r) + 1)
    ensures NumLenAt(r, SecondNumStart(r, 0)) == |r| - SecondNumStart(r, 0)
  {
    PairLenAtParts(r, 0);
    var k := RangeSepAt(r);
    assert k == 0 + NumLenAt(r, 0) + SpaceRun(r, 0 + NumLenAt(r, 0));
    assert r[k] == '~' || r[k] == '-';
  }

  /** A one-sided reference is the operator, optional white space and a NUM. */
  lemma BoundParts(r: string, op: char)
    requires IsBound(r, op)
    ensures var m := BoundNumStart(r, 0);
      r[0] == op && 1 <= m < |r| && m == 1 + SpaceRun(r, 1) && NumLenAt(r, m) == |r| - m
  {
  }

  /** The four reference forms exclude each other: they start differently. */
  lemma RefFormsDisjoint(r: string)
    ensures IsRangePair(r) ==> !IsBound(r, '<') && !IsBound(r, '>') && !IsQual(r)
    ensures IsBound(r, '<') ==> !IsBound(r, '>') && !IsQual(r)
    ensures IsBound(r, '>') ==> !IsQual(r)
  {
    if IsRangePair(r) {
      RangePairParts(r);
      NumLenAtChars(r, 0);
    }
    if IsBound(r, '<') {
      BoundParts(r, '<');
    }
    if IsBound(r, '>') {
      BoundParts(r, '>');
    }
    if IsQual(r) {
      QualStart(r);
    }
  }

  lemma QualStart(r: string)
    requires IsQual(r)
    ensures r != [] && (r[0] == 'N' || r[0] == 'P')
  {
  }

  /**
   * The reference part of `interpret_auto_match` on the stripped reference text:
   * a range gives both bounds, `<x` only the upper and `>x` only the lower one,
   * a qualitative word is kept as the expected word, and anything else is "none".
   * The bounds are the values of the numbers the reference regexes matched.
   */
  function InterpretRef(r: string): (ref: RefInfo)
    ensures ref.kind == RangeRef <==> IsRangePair(r)
    ensures ref.kind == LessRef <==> IsBound(r, '<')
    ensures ref.kind == GreaterRef <==> IsBound(r, '>')
    ensures ref.kind == QualRef <==> IsQual(r)
    ensures ref.low.Some? <==> ref.kind == RangeRef || ref.kind == GreaterRef
    ensures ref.high.Some? <==> ref.kind == RangeRef || ref.kind == LessRef
    ensures ref.qual.Some? <==> ref.kind == QualRef
    ensures ref.kind == QualRef ==> ref.qual.value == r
  {
    RefFormsDisjoint(r);
    if IsRangePair(r) then
      RangePairParts(r);
      RefInfo(Some(NumAt(r, 0)), Some(NumAt(r, SecondNumStart(r, 0))), RangeRef, None)
    else if IsBound(r, '<') then
      BoundParts(r, '<');
      RefInfo(None, Some(NumAt(r, BoundNumStart(r, 0))), LessRef, None)
    else if IsBound(r, '>') then
      BoundParts(r, '>');
      RefInfo(Some(NumAt(r, BoundNumStart(r, 0))), None, GreaterRef, None)
    else if IsQual(r) then RefInfo(None, None, QualRef, Some(r))
    else NoReference
  }

  /** The separator `[~\-]` of `re.split(r"[~\-]", ref_raw)`: one `~` or `-`. */
  function DashOrTilde(s: string, i: nat): nat
  {
    if i < |s| && (s[i] == '~' || s[i] == '-') then 1 else 0
  }

  /** `r.split(op)[1]` for a reference that starts with op. */
  function AfterOp(r: string, op: char): string
    requires r != [] && r[0] == op
  {
    var parts := SplitOn(r, op);
    assert |parts| >= 2 by {
      assert UntilChar(r, 0, op) == 0;
    }
    parts[1]
  }

  /**
   * The reference part of `interpret_auto_match` as written. A range is cut at
   * every `~` and `-` and unpacked into exactly two pieces (`a,b = ...`), which
   * raises when there are more; the bound of `<x` and `>x` is the text after the
   * operator; every bound goes through `d2f`.
   */
  function InterpretRefAsWritten(r: string): Outcome<RefInfo>
  {
    if IsRangePair(r) then
      var pieces := RegexSplit(r, DashOrTilde);
      if |pieces| != 2 then Crash
      else Ok(RefInfo(ParseFloat(Strip(pieces[0])), ParseFloat(Strip(pieces[1])), RangeRef, None))
    else if IsBound(r, '<') then
      BoundParts(r, '<');
      Ok(RefInfo(None, ParseFloat(Strip(AfterOp(r, '<'))), LessRef, None))
    else if IsBound(r, '>') then
      BoundParts(r, '>');
      Ok(RefInfo(ParseFloat(Strip(AfterOp(r, '>'))), None, GreaterRef, None))
    else if IsQual(r) then Ok(RefInfo(None, None, QualRef, Some(r)))
    else Ok(NoReference)
  }

  /** A range one of whose numbers carries a minus sign. */
  predicate MinusSignedRange(r: string)
  {
    && IsRangePair(r)
    && (r[0] == '-' || (SecondNumStart(r, 0) < |r| && r[SecondNumStart(r, 0)] == '-'))
  }

  /** A minus sign adds a third piece to the split. */
  lemma MinusSignSplitsInThree(r: string)
    requires MinusSignedRange(r)
    ensures |RegexSplit(r, DashOrTilde)| >= 3
  {
    RangePairParts(r);
    var k := RangeSepAt(r);
    var m := SecondNumStart(r, 0);
    assert DashOrTilde(r, k) == 1;
    if r[0] == '-' {
      assert DashOrTilde(r, 0) == 1;
      TwoSeparators(r, DashOrTilde, 0, k);
    } else {
      assert DashOrTilde(r, m) == 1;
      TwoSeparators(r, DashOrTilde, k, m);
    }
  }

  /** The character layout of a range: NUM, white space, separator, white space, NUM. */
  lemma RangeLayout(r: string) returns (n1: nat, k: nat, m: nat)
    requires IsRangePair(r)
    ensures n1 == NumLenAt(r, 0) && k == RangeSepAt(r) && m == SecondNumStart(r, 0)
    ensures 0 < n1 <= k < m < |r| && (r[k] == '~' || r[k] == '-')
    ensures NumLenAt(r, m) == |r| - m
    ensures IsDigit(r[0]) || r[0] == '-' || r[0] == '+'
    ensures forall j :: 0 < j < n1 ==> IsDigit(r[j]) || IsSeparator(r[j])
    ensures IsDigit(r[n1 - 1])
    ensures forall j :: n1 <= j < k ==> IsSpace(r[j])
    ensures forall j :: k < j < m ==> IsSpace(r[j])
    ensures IsDigit(r[m]) || r[m] == '-' || r[m] == '+'
    ensures forall j :: m < j < |r| ==> IsDigit(r[j]) || IsSeparator(r[j])
    ensures IsDigit(r[|r| - 1])
  {
    RangePairParts(r);
    n1 := NumLenAt(r, 0);
    k := RangeSepAt(r);
    m := SecondNumStart(r, 0);
    NumLenAtChars(r, 0);
    NumLenAtChars(r, m);
  }

  /** Without minus signs a range splits into the text before and after its separator. */
  lemma RangeSplitsInTwo(r: string)
    requires IsRangePair(r) && !MinusSignedRange(r)
    ensures var k := RangeSepAt(r); k < |r| && RegexSplit(r, DashOrTilde) == [r[..k], r[k + 1..]]
  {
    var k := OnlySeparator(r);
    SplitAtOnly(r, k);
  }

  /** In a range without minus signs the separator is the only `~` or `-`. */
  lemma OnlySeparator(r: string) returns (k: nat)
    requires IsRangePair(r) && !MinusSignedRange(r)
    ensures k == RangeSepAt(r) && k < |r| && (r[k] == '~' || r[k] == '-')
    ensures forall j :: 0 <= j < |r| && j != k ==> r[j] != '~' && r[j] != '-'
  {
    var n1, m;
    n1, k, m := RangeLayout(r);
    assert r[0] != '-' && r[m] != '-';
    forall j | 0 <= j < |r| && j != k
      ensures r[j] != '~' && r[j] != '-'
    {
      if j == 0 || j == m {
      } else if j < n1 {
      } else if j < k {
        assert IsSpace(r[j]);
      } else if j < m {
        assert IsSpace(r[j]);
      } else {
      }
    }
  }

  /** A string with a single `~` or `-` splits into the text before and after it. */
  lemma SplitAtOnly(s: string, k: nat)
    requires k < |s| && (s[k] == '~' || s[k] == '-')
    requires forall j :: 0 <= j < |s| && j != k ==> s[j] != '~' && s[j] != '-'
    ensures RegexSplit(s, DashOrTilde) == [s[..k], s[k + 1..]]
  {
    SplitSkip(s, DashOrTilde, 0, 0, k);
    SplitWithoutSeparator(s, DashOrTilde, k + 1, k + 1);
    assert s[0..k] == s[..k];
  }

  /** The piece before the separator, stripped, is the first number. */
  lemma FirstPieceParses(r: string)
    requires IsRangePair(r)
    ensures RangeSepAt(r) <= |r| && NumLenAt(r, 0) > 0
    ensures ParseFloat(Strip(r[..RangeSepAt(r)])) == Some(NumAt(r, 0))
  {
    var n1, k, m := RangeLayout(r);
    HeadPieceParses(r, n1, k);
  }

  /** The piece after the separator, stripped, is the second number. */
  lemma SecondPieceParses(r: string, piece: string)
    requires IsRangePair(r) && RangeSepAt(r) < |r| && piece == r[RangeSepAt(r) + 1..]
    ensures SecondNumStart(r, 0) <= |r| && NumLenAt(r, SecondNumStart(r, 0)) > 0
    ensures ParseFloat(Strip(piece)) == Some(NumAt(r, SecondNumStart(r, 0)))
  {
    var n1, k, m := RangeLayout(r);
    TailPieceParses(r, k, m, piece);
  }

  /** The text after the operator of `<x` or `>x` is everything after its first character. */
  lemma AfterOpIsRest(r: string, op: char)
    requires IsBound(r, op) && (op == '<' || op == '>')
    ensures AfterOp(r, op) == r[1..]
  {
    var rest := r[1..];
    RestWithoutOp(r, op, rest);
    assert UntilChar(r, 0, op) == 0;
    assert SplitOn(r, op) == [r[..0]] + SplitOn(rest, op);
    assert UntilChar(rest, 0, op) == |rest|;
  }

  lemma RestWithoutOp(r: string, op: char, rest: string)
    requires IsBound(r, op) && (op == '<' || op == '>') && rest == r[1..]
    ensures forall j :: 0 <= j < |rest| ==> rest[j] != op
  {
    BoundParts(r, op);
    var m := BoundNumStart(r, 0);
    NumLenAtChars(r, m);
    forall j | 0 <= j < |rest|
      ensures rest[j] != op
    {
      assert rest[j] == r[j + 1];
      if j + 1 < m {
        assert IsSpace(r[j + 1]);
      }
    }
  }

  /** The stripped text after the operator reads as the bound's number. */
  lemma BoundPieceParses(r: string, op: char)
    requires IsBound(r, op) && (op == '<' || op == '>')
    ensures BoundNumStart(r, 0) <= |r| && NumLenAt(r, BoundNumStart(r, 0)) > 0
    ensures ParseFloat(Strip(AfterOp(r, op))) == Some(NumAt(r, BoundNumStart(r, 0)))
  {
    BoundParts(r, op);
    AfterOpIsRest(r, op);
    TailPieceParses(r, 0, BoundNumStart(r, 0), AfterOp(r, op));
  }

  /**
   * Where the code as written does not crash it agrees with the reading of the
   * regex matches: every bound `d2f` reads is the value of the matched number.
   */
  lemma AsWrittenAgrees(r: string)
    requires !MinusSignedRange(r)
    ensures InterpretRefAsWritten(r) == Ok(InterpretRef(r))
  {
    if IsRangePair(r) {
      RangeSplitsInTwo(r);
      FirstPieceParses(r);
      SecondPieceParses(r, r[RangeSepAt(r) + 1..]);
    } else if IsBound(r, '<') {
      BoundPieceParses(r, '<');
    } else if IsBound(r, '>') {
      RefFormsDisjoint(r);
      BoundPieceParses(r, '>');
    }
  }

  /** The code as written crashes on exactly the ranges with a minus-signed number. */
  lemma AsWrittenCrashesExactly(r: string)
    ensures InterpretRefAsWritten(r) == Crash <==> MinusSignedRange(r)
  {
    if MinusSignedRange(r) {
      MinusSignSplitsInThree(r);
    } else {
      AsWrittenAgrees(r);
    }
  }

  /** The layout of the range MojLab's pattern builds as `f"{low}-{high}"`. */
  lemma JoinedRangeLayout(low: string, high: string)
    requires IsNum(low) && IsNum(high)
    ensures var r := low + "-" + high;
      && IsRangePair(r) && NumLenAt(r, 0) == |low|
      && SecondNumStart(r, 0) == |low| + 1 && NumLenAt(r, |low| + 1) == |high|
  {
    var r := low + ['-'] + high;
    PairFirstNum(low, '-', high);
    PairSeparator(low, '-', high);
    PairSecondStart(low, '-', high);
    PairSecondNum(low, '-', high);
    PairLenOfParts(r, |low|, |high|);
  }

  /** MojLab's range reads back as the two numbers it was built from. */
  lemma JoinedRangeReads(low: string, high: string, r: string)
    requires IsNum(low) && IsNum(high) && r == low + "-" + high
    ensures InterpretRef(r) == RefInfo(Some(NumValue(low)), Some(NumValue(high)), RangeRef, None)
  {
    JoinedRangeLayout(low, high);
    JoinedNumbers(low, high, r);
    RangeReads(r);
  }

  lemma JoinedNumbers(low: string, high: string, r: string)
    requires IsNum(low) && IsNum(high) && r == low + "-" + high
    requires NumLenAt(r, 0) == |low| && NumLenAt(r, |low| + 1) == |high|
    ensures NumAt(r, 0) == NumValue(low) && NumAt(r, |low| + 1) == NumValue(high)
  {
    JoinedPieces(low, high);
    NumAtSlice(r, 0, low);
    JoinedSecond(low, high, r);
  }

  lemma JoinedSecond(low: string, high: string, r: string)
    requires IsNum(high) && r == low + "-" + high && NumLenAt(r, |low| + 1) == |high|
    ensures NumAt(r, |low| + 1) == NumValue(high)
  {
    JoinedPieces(low, high);
    NumAtSlice(r, |low| + 1, high);
  }

  /** A range reads as the values of its two numbers. */
  lemma RangeReads(r: string)
    requires IsRangePair(r)
    ensures SecondNumStart(r, 0) <= |r| && NumLenAt(r, 0) > 0 && NumLenAt(r, SecondNumStart(r, 0)) > 0
    ensures InterpretRef(r) == RefInfo(Some(NumAt(r, 0)), Some(NumAt(r, SecondNumStart(r, 0))), RangeRef, None)
  {
    RangePairParts(r);
  }

  lemma JoinedPieces(low: string, high: string)
    ensures (low + "-" + high)[0..|low|] == low
    ensures (low + "-" + high)[|low| + 1..|low| + 1 + |high|] == high
  {
  }

  /** The code as written crashes on MojLab's range exactly when one of its numbers is negative. */
  lemma JoinedRangeCrashes(low: string, high: string)
    requires IsNum(low) && IsNum(high)
    ensures InterpretRefAsWritten(low + "-" + high) == Crash <==> low[0] == '-' || high[0] == '-'
  {
    var r := low + "-" + high;
    JoinedRangeLayout(low, high);
    AsWrittenCrashesExactly(r);
    assert r[0] == low[0] && r[|low| + 1] == high[0];
  }

  /** "-2-2": read as written the parse crashes; the intended reading is the range from -2 to 2. */
  lemma MinusTwoToTwo()
    ensures InterpretRefAsWritten("-2-2") == Crash
    ensures InterpretRef("-2-2") == RefInfo(Some(-2.0), Some(2.0), RangeRef, None)
  {
    MinusTwoAndTwo();
    assert "-2-2" == "-2" + "-" + "2";
    JoinedRangeCrashes("-2", "2");
    JoinedRangeReads("-2", "2", "-2-2");
  }

  lemma MinusTwoAndTwo()
    ensures IsNum("-2") && NumValue("-2") == -2.0
    ensures IsNum("2") && NumValue("2") == 2.0
  {
    assert DigitRun("-2", 2) == 0;
    assert DigitRun("2", 1) == 0;
  }

  // ---------------------------------------------------------------- interpret_auto_match

  /**
   * Vrijednost: the number when the raw value is a whole `NUM` (read by `d2f`),
   * otherwise the raw text itself when it is not empty, otherwise nothing.
   */
  function ReadValue(raw: string): (v: Value)
    ensures v.Num? <==> IsNum(raw)
    ensures v.Num? ==> v.n == NumValue(raw)
    ensures v.Qual? <==> raw != [] && !IsNum(raw)
    ensures v.Qual? ==> v.q == raw
  {
    if IsNum(raw) then
      NumParsesAsFloat(raw);
      Num(ParseFloat(raw).value)
    else if raw != [] then Qual(raw)
    else NoValue
  }

  /**
   * The arguments of `interpret_auto_match`: raw name, value, unit, reference
   * and flag, each "" where the source passes None.
   */
  datatype Args = Args(name: string, val: string, unit: string, ref: string, flag: string)

  /** The row built once the name is known to be valid, from a reading of the reference. */
  function BuildRow(a: Args, ref: RefInfo, line: string): Row
  {
    var (name, typ) := CleanName(a.name, a.unit);
    var v := ReadValue(a.val);
    Row(name, typ, v, NormalizeUnits(a.unit), ref, Strip(a.flag), StatusFrom(v, ref), Auto, line)
  }

  /**
   * `interpret_auto_match` with the references read as the regexes matched them:
   * no row unless the cleaned name is a valid analyte; otherwise the row of the
   * cleaned name and Tip, the value, the normalised unit, the reference of the
   * stripped reference text, the stripped flag, the status, source "auto" and
   * the line.
   */
  function AutoRow(a: Args, line: string): (r: Option<Row>)
    ensures r.Some? <==> IsValidAnalyte(CleanName(a.name, a.unit).0)
    ensures r.Some? ==> var row := r.value;
      && (row.analyte, row.subtype) == CleanName(a.name, a.unit)
      && row.source == Auto && row.line == line
      && row.value == ReadValue(a.val) && row.ref == InterpretRef(Strip(a.ref))
      && row.status == StatusFrom(row.value, row.ref)
      && NoSpace(row.unit) && row.flag == Strip(a.flag)
  {
    var name := CleanName(a.name, a.unit).0;
    if !IsValidAnalyte(name) then None
    else Some(BuildRow(a, InterpretRef(Strip(a.ref)), line))
  }

  /** `interpret_auto_match` as written: a minus-signed range reference raises. */
  function AutoRowAsWritten(a: Args, line: string): Outcome<Option<Row>>
  {
    if !IsValidAnalyte(CleanName(a.name, a.unit).0) then Ok(None)
    else
      match InterpretRefAsWritten(Strip(a.ref))
      case Crash => Crash
      case Ok(ref) => Ok(Some(BuildRow(a, ref, line)))
  }

  /**
   * The code as written raises exactly for a valid name with a minus-signed range,
   * and otherwise returns the row `AutoRow` describes. An invalid name returns
   * before the reference is looked at.
   */
  lemma AutoRowAsWrittenAgrees(a: Args, line: string)
    ensures AutoRowAsWritten(a, line) == Crash <==>
      IsValidAnalyte(CleanName(a.name, a.unit).0) && MinusSignedRange(Strip(a.ref))
    ensures AutoRowAsWritten(a, line) != Crash ==> AutoRowAsWritten(a, line) == Ok(AutoRow(a, line))
  {
    AsWrittenCrashesExactly(Strip(a.ref));
    if !MinusSignedRange(Strip(a.ref)) {
      AsWrittenAgrees(Strip(a.ref));
    }
  }

  /** An empty or blank reference reads as "none" with every bound null. */
  lemma BlankRefIsNone(r: string)
    requires AllSpace(r)
    ensures InterpretRef(Strip(r)) == NoReference
  {
    StripAllSpace(r);
  }
}
