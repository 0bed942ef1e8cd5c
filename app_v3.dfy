/**
 * The extraction core of app_v3: the `LabResultParser` class with its value,
 * reference, status and name helpers, the line parser and the text parser.
 *
 * The four line regexes of `parse_line` are not re-implemented: `LineMatcher`
 * gives the named groups of `re.match(pattern, line)` (a group that took no part
 * reads as ""). The token regexes NUM and QUAL, and the reference forms built
 * from them, are recognised in full (module Tokens).
 */
module AppV3 {
  import opened Wrappers
  import opened Text
  import opened Decimal
  import opened Tokens
  import opened Records
  import opened Analyte
  import opened Selection
  import AppV2

  // ---------------------------------------------------------------- values

  /** A QUAL word is not a number for `float()`: it starts with a letter. */
  lemma QualIsNoFloat(t: string)
    requires IsQual(t)
    ensures ParseFloat(t).None?
  {
    AppV2.QualStart(t);
    assert CommaToDot(t)[0] == t[0];
  }

  lemma NumReads(t: string)
    ensures IsNum(t) ==> ParseFloat(t) == Some(NumValue(t))
  {
    if IsNum(t) {
      NumParsesAsFloat(t);
    }
  }

  /**
   * `parse_value`: (numeric value, qualitative value). Empty input gives neither;
   * otherwise the stripped text is a QUAL word, or the number `float()` reads once
   * commas are dots, or else the text itself as a qualitative value.
   */
  function ParseValue(s: string): (res: (Option<real>, Option<string>))
    ensures s == [] ==> res == (None, None)
    ensures s != [] ==> (res.0.Some? <==> !res.1.Some?)
    ensures res.0 == (if s == [] then None else ParseFloat(Strip(s)))
    ensures res.1.Some? ==> res.1.value == Strip(s)
    ensures IsNum(Strip(s)) ==> res == (Some(NumValue(Strip(s))), None)
    ensures IsQual(Strip(s)) ==> res == (None, Some(Strip(s)))
  {
    if s == [] then (None, None)
    else
      var t := Strip(s);
      NumReads(t);
      if IsQual(t) then QualIsNoFloat(t); (None, Some(t))
      else
        match ParseFloat(t)
        case Some(x) => (Some(x), None)
        case None => (None, Some(t))
  }

  // ---------------------------------------------------------------- references

  /**
   * `parse_reference` with every bound read as the number the range regexes
   * matched. Empty input is "none"; the stripped text is tried as a QUAL word
   * first, then as `a-b` / `a~b`, `<x` and `>x`. The four forms exclude each
   * other, so this is the reference reading of app_v2 on the stripped text.
   */
  function ParseReference(s: string): (ref: RefInfo)
    ensures s == [] ==> ref == NoReference
    ensures ref == AppV2.InterpretRef(Strip(s))
  {
    if s == [] then
      StripAllSpace(s);
      NoReference
    else
      var r := Strip(s);
      AppV2.RefFormsDisjoint(r);
      if IsQual(r) then RefInfo(None, None, QualRef, Some(r))
      else if AppV2.IsRangePair(r) then
        AppV2.RangeReads(r);
        RefInfo(Some(NumAt(r, 0)), Some(NumAt(r, SecondNumStart(r, 0))), RangeRef, None)
      else if AppV2.IsBound(r, '<') then
        AppV2.BoundParts(r, '<');
        RefInfo(None, Some(NumAt(r, BoundNumStart(r, 0))), LessRef, None)
      else if AppV2.IsBound(r, '>') then
        AppV2.BoundParts(r, '>');
        RefInfo(Some(NumAt(r, BoundNumStart(r, 0))), None, GreaterRef, None)
      else NoReference
  }

  /** `float(t)`: the value, or a crash where Python raises ValueError. */
  function Float(t: string): Outcome<real>
  {
    match ParseFloat(t)
    case Some(x) => Ok(x)
    case None => Crash
  }

  /**
   * `parse_reference` as written: a range is cut at every `~` and `-` and its first
   * two pieces go through `float()`, which raises on an empty piece; the bound of
   * `<x` and `>x` is the text after the operator.
   */
  function ParseReferenceAsWritten(s: string): Outcome<RefInfo>
  {
    if s == [] then Ok(NoReference)
    else
      var r := Strip(s);
      if IsQual(r) then Ok(RefInfo(None, None, QualRef, Some(r)))
      else if AppV2.IsRangePair(r) then
        var parts := RegexSplit(r, AppV2.DashOrTilde);
        if |parts| < 2 then Crash
        else
          match (Float(Strip(parts[0])), Float(Strip(parts[1])))
          case (Ok(lo), Ok(hi)) => Ok(RefInfo(Some(lo), Some(hi), RangeRef, None))
          case _ => Crash
      else if AppV2.IsBound(r, '<') then
        AppV2.BoundParts(r, '<');
        match Float(Strip(AppV2.AfterOp(r, '<')))
        case Ok(hi) => Ok(RefInfo(None, Some(hi), LessRef, None))
        case Crash => Crash
      else if AppV2.IsBound(r, '>') then
        AppV2.BoundParts(r, '>');
        match Float(Strip(AppV2.AfterOp(r, '>')))
        case Ok(lo) => Ok(RefInfo(Some(lo), None, GreaterRef, None))
        case Crash => Crash
      else Ok(NoReference)
  }

  /**
   * With a minus sign on either number the split leaves an empty first piece
   * ("-2-2" gives "", "2", "2") or a blank second one ("2 - -3" gives "2 ", " ", "3").
   */
  lemma MinusSignedPieceBlank(r: string)
    requires AppV2.MinusSignedRange(r)
    ensures var parts := RegexSplit(r, AppV2.DashOrTilde);
      |parts| >= 2 && (Strip(parts[0]) == [] || Strip(parts[1]) == [])
  {
    if r[0] == '-' {
      LeadingMinusPiece(r);
    } else {
      var n1, k, m := AppV2.RangeLayout(r);
      SecondMinusPiece(r, n1, k, m);
    }
  }

  /** A leading `-` is a separator at 0: the first piece is empty. */
  lemma LeadingMinusPiece(r: string)
    requires r != [] && r[0] == '-'
    ensures var parts := RegexSplit(r, AppV2.DashOrTilde); |parts| >= 2 && Strip(parts[0]) == []
  {
    SplitSkip(r, AppV2.DashOrTilde, 0, 0, 0);
    StripAllSpace(r[0..0]);
  }

  /**
   * Without a leading minus the first `~` or `-` is the range separator at k, and the
   * next is the sign at m of the second number: the second piece is the white space
   * between them.
   */
  lemma SecondMinusPiece(r: string, n1: nat, k: nat, m: nat)
    requires 0 < n1 <= k < m < |r| && r[0] != '-' && r[0] != '~'
    requires forall j :: 0 < j < n1 ==> IsDigit(r[j]) || IsSeparator(r[j])
    requires forall j :: n1 <= j < k ==> IsSpace(r[j])
    requires r[k] == '~' || r[k] == '-'
    requires forall j :: k < j < m ==> IsSpace(r[j])
    requires r[m] == '-'
    ensures var parts := RegexSplit(r, AppV2.DashOrTilde); |parts| >= 2 && Strip(parts[1]) == []
  {
    NoDashBefore(r, n1, k);
    SplitSkip(r, AppV2.DashOrTilde, 0, 0, k);
    NoDashBetween(r, k, m);
    SplitSkip(r, AppV2.DashOrTilde, k + 1, k + 1, m);
    BlankBetween(r, k, m);
  }

  /** The first number and the white space after it hold no `~` or `-`. */
  lemma NoDashBefore(r: string, n1: nat, k: nat)
    requires 0 < n1 <= k <= |r| && r[0] != '-' && r[0] != '~'
    requires forall j :: 0 < j < n1 ==> IsDigit(r[j]) || IsSeparator(r[j])
    requires forall j :: n1 <= j < k ==> IsSpace(r[j])
    ensures forall j :: 0 <= j < k ==> AppV2.DashOrTilde(r, j) == 0
  {
  }

  /** White space holds no `~` or `-`. */
  lemma NoDashBetween(r: string, k: nat, m: nat)
    requires k < m <= |r| && forall j :: k < j < m ==> IsSpace(r[j])
    ensures forall j :: k + 1 <= j < m ==> AppV2.DashOrTilde(r, j) == 0
  {
  }

  lemma BlankBetween(r: string, k: nat, m: nat)
    requires k < m <= |r| && forall j :: k < j < m ==> IsSpace(r[j])
    ensures Strip(r[k + 1..m]) == []
  {
    assert AllSpace(r[k + 1..m]);
    StripAllSpace(r[k + 1..m]);
  }

  /** `float("")` raises. */
  lemma EmptyIsNoFloat()
    ensures Float([]) == Crash
  {
  }

  /**
   * The code as written raises exactly on a range with a minus-signed number, and
   * everywhere else returns the reading `ParseReference` gives.
   */
  lemma ReferenceCrashesExactly(s: string)
    ensures ParseReferenceAsWritten(s) == Crash <==> AppV2.MinusSignedRange(Strip(s))
    ensures ParseReferenceAsWritten(s) != Crash ==> ParseReferenceAsWritten(s) == Ok(ParseReference(s))
  {
    if s == [] {
      StripAllSpace(s);
    } else {
      var r := Strip(s);
      AppV2.RefFormsDisjoint(r);
      if AppV2.IsRangePair(r) {
        if AppV2.MinusSignedRange(r) {
          MinusSignedPieceBlank(r);
          EmptyIsNoFloat();
        } else {
          AppV2.RangeSplitsInTwo(r);
          AppV2.FirstPieceParses(r);
          AppV2.SecondPieceParses(r, r[AppV2.RangeSepAt(r) + 1..]);
        }
      } else if AppV2.IsBound(r, '<') {
        AppV2.BoundPieceParses(r, '<');
      } else if AppV2.IsBound(r, '>') {
        AppV2.BoundPieceParses(r, '>');
      }
    }
  }

  /** "-2-2": as written `float("")` raises; the intended reading is the range from -2 to 2. */
  lemma MinusTwoToTwo()
    ensures ParseReferenceAsWritten("-2-2") == Crash
    ensures ParseReference("-2-2") == RefInfo(Some(-2.0), Some(2.0), RangeRef, None)
  {
    AppV2.MinusTwoToTwo();
    AppV2.AsWrittenCrashesExactly("-2-2");
    MinusTwoStripped();
    ReferenceCrashesExactly("-2-2");
  }

  lemma MinusTwoStripped()
    ensures Strip("-2-2") == "-2-2"
  {
    assert IsStripped("-2-2");
    StripStripped("-2-2");
  }

  // ---------------------------------------------------------------- status

  /**
   * `calculate_status`: a number is compared with the bounds its reference kind
   * uses, a qualitative value with the qualitative reference; this is the status
   * rule of app_v2 applied to the value the row shows.
   */
  function CalculateStatus(num: Option<real>, qual: Option<string>, low: Option<real>, high: Option<real>,
                           kind: RefKind, qualRef: Option<string>): (st: Status)
    ensures st == StatusFrom(ValueOf(num, qual), RefInfo(low, high, kind, qualRef))
  {
    if num.Some? then
      var v := num.value;
      if kind == RangeRef && low.Some? && high.Some? then
        if v < low.value then Below else if v > high.value then Above else Within
      else if kind == LessRef && high.Some? then (if v < high.value then Within else Above)
      else if kind == GreaterRef && low.Some? then (if v > low.value then Within else Below)
      else Blank
    else if qual.Some? && qualRef.Some? then (if qual.value == qualRef.value then Within else Deviation)
    else Blank
  }

  // ---------------------------------------------------------------- names

  /**
   * `clean_analyte_name`: the prepared name (stripped, one lab prefix dropped,
   * white space collapsed) loses a trailing "%" (Tip "%") or else a trailing
   * " aps" (Tip "aps"); there is no unit-tail stripping.
   */
  function CleanAnalyteName(name: string): (res: (string, Subtype))
  {
    var n := PrepareName(name);
    if EndsWith(n, "%") then (AppV2.WithoutPercent(n), Percent)
    else if AppV2.EndsWithAps(n) then (AppV2.WithoutAps(n), Absolute)
    else (n, NoSubtype)
  }

  /**
   * The Tip is decided by `if`/`elif`: "%" exactly when the prepared name ends in
   * "%", "aps" exactly when it does not and ends in " aps"; at most one suffix is
   * removed, and the cleaned name is single-spaced and the prepared name cut short.
   */
  lemma CleanAnalyteNameShape(name: string)
    ensures var n := PrepareName(name); var res := CleanAnalyteName(name);
      && (res.1 == Percent <==> EndsWith(n, "%"))
      && (res.1 == Absolute <==> !EndsWith(n, "%") && AppV2.EndsWithAps(n))
      && (res.1 == NoSubtype ==> res.0 == n)
      && SingleSpaced(res.0) && res.0 == n[..|res.0|]
  {
    var n := PrepareName(name);
    AppV2.WithoutPercentShape(n);
    AppV2.WithoutApsShape(n);
  }

  /**
   * A name ending in " aps%" keeps its " aps" and gets Tip "%" here, where app_v2's
   * two independent `if`s give Tip "aps".
   */
  lemma PercentBeforeAps(name: string, unitGuess: string)
    requires var n := PrepareName(name); EndsWith(n, "%") && AppV2.EndsWithAps(AppV2.WithoutPercent(n))
    ensures CleanAnalyteName(name).1 == Percent && AppV2.EndsWithAps(CleanAnalyteName(name).0)
    ensures AppV2.CleanName(name, unitGuess).1 == Absolute
  {
    AppV2.CleanNameSubtype(name, unitGuess);
  }

  // ---------------------------------------------------------------- lines

  /** The patterns of `parse_line`, in the order they are tried. */
  datatype LinePattern = NameValueUnitRef | NameValueUnit | ValueUnitName | NameValue

  const LinePatterns: seq<LinePattern> := [NameValueUnitRef, NameValueUnit, ValueUnitName, NameValue]

  /** The named groups of a match. */
  datatype LineGroups = LineGroups(analyte: string, value: string, unit: string, ref: string)

  /** `re.match(pattern, line)`: the groups of the match, None when the line does not match. */
  type LineMatcher = (LinePattern, string) -> Option<LineGroups>

  /** The groups a pattern defines; the others read as "" (`groups.get(name, "")`). */
  function Used(p: LinePattern, g: LineGroups): LineGroups
  {
    match p
    case NameValueUnitRef => g
    case NameValueUnit | ValueUnitName => g.(ref := "")
    case NameValue => g.(unit := "", ref := "")
  }

  /** `unit.lower() in ["negativan", "normalan", "pozitivan"]`. */
  predicate QualitativeWord(w: string)
  {
    w == "negativan" || w == "normalan" || w == "pozitivan"
  }

  /**
   * The qualitative branch fires: a urine test, a non-empty qualitative value,
   * and a qualitative word where the unit should be.
   */
  predicate UnitHoldsResult(analyte: string, qual: Option<string>, unit: string)
  {
    IsUrineQualitative(analyte) && qual.Some? && qual.value != [] && QualitativeWord(Lower(unit))
  }

  /**
   * The row `parse_line` builds from the groups of one match, None when the
   * stripped analyte is not valid (the loop moves on to the next pattern). In the
   * qualitative branch the unit is cleared first and then copied into the
   * qualitative value, so both end up "".
   */
  function MatchRow(g: LineGroups, line: string, known: string -> bool, skip: string -> bool): Option<Row>
  {
    var analyte := Strip(g.analyte);
    if !ThreeTier(analyte, known, skip) then None
    else
      var (num, qual0) := ParseValue(Strip(g.value));
      var cleared := UnitHoldsResult(analyte, qual0, Strip(g.unit));
      var unit := if cleared then "" else Strip(g.unit);
      var qual := if cleared then Some(unit) else qual0;
      var ref := ParseReference(Strip(g.ref));
      var (name, typ) := CleanAnalyteName(analyte);
      var status := CalculateStatus(num, qual, ref.low, ref.high, ref.kind, ref.qual);
      Some(Row(name, typ, ValueOf(num, qual), unit, ref, "", status, Smart, line))
  }

  /** What one pattern gives on the stripped line: a row, or None (no match, or an invalid analyte). */
  function PatternRow(line: string, m: LineMatcher, p: LinePattern, known: string -> bool, skip: string -> bool): Option<Row>
  {
    match m(p, Strip(line))
    case None => None
    case Some(g) => MatchRow(Used(p, g), line, known, skip)
  }

  /** What each pattern gives, in the order they are tried. */
  function PatternRows(line: string, m: LineMatcher, known: string -> bool, skip: string -> bool): (opts: seq<Option<Row>>)
    ensures |opts| == |LinePatterns|
    ensures forall k :: 0 <= k < |LinePatterns| ==> opts[k] == PatternRow(line, m, LinePatterns[k], known, skip)
  {
    seq(|LinePatterns|, k requires 0 <= k < |LinePatterns| => PatternRow(line, m, LinePatterns[k], known, skip))
  }

  /** `parse_line`: None for a blank line, else the row of the first pattern that gives one. */
  function LineRow(line: string, m: LineMatcher, known: string -> bool, skip: string -> bool): Option<Row>
  {
    if Strip(line) == [] then None else FirstSome(PatternRows(line, m, known, skip))
  }

  /**
   * The row of a match is present exactly when the stripped analyte is valid. It
   * carries the cleaned name and Tip, the reading of the stripped reference, the
   * status of its value against that reference, source "smart", no flag and the
   * line. In the qualitative branch both the unit and the value are ""; otherwise
   * the unit is the stripped unit group and the value is what `parse_value` read.
   */
  lemma MatchRowFields(g: LineGroups, line: string, known: string -> bool, skip: string -> bool)
    ensures MatchRow(g, line, known, skip).Some? <==> ThreeTier(Strip(g.analyte), known, skip)
    ensures MatchRow(g, line, known, skip).Some? ==>
      var r := MatchRow(g, line, known, skip).value;
      var pv := ParseValue(Strip(g.value));
      && (r.analyte, r.subtype) == CleanAnalyteName(Strip(g.analyte))
      && r.ref == AppV2.InterpretRef(Strip(g.ref))
      && r.status == StatusFrom(r.value, r.ref)
      && r.source == Smart && r.flag == [] && r.line == line
      && (if UnitHoldsResult(Strip(g.analyte), pv.1, Strip(g.unit))
          then r.unit == [] && r.value == Qual([])
          else r.unit == Strip(g.unit) && r.value == ValueOf(pv.0, pv.1))
  {
    StripIsStripped(g.ref);
    StripStripped(Strip(g.ref));
  }

  /**
   * The qualitative branch loses the word: a urine test whose unit group holds
   * "Negativan" gets the value "" and no unit, and against a qualitative reference
   * its status is "odstupanje" whatever the word was.
   */
  lemma UnitWordLost(g: LineGroups, line: string, known: string -> bool, skip: string -> bool)
    requires ThreeTier(Strip(g.analyte), known, skip)
    requires UnitHoldsResult(Strip(g.analyte), ParseValue(Strip(g.value)).1, Strip(g.unit))
    ensures var r := MatchRow(g, line, known, skip);
      && r.Some? && r.value.unit == [] && r.value.value == Qual([])
      && (r.value.ref.qual.Some? ==> r.value.status == Deviation)
  {
    MatchRowFields(g, line, known, skip);
    var r := MatchRow(g, line, known, skip).value;
    if r.ref.qual.Some? {
      AppV2.RefFormsDisjoint(Strip(g.ref));
      QualNotEmpty(r.ref.qual.value);
    }
  }

  lemma QualNotEmpty(q: string)
    requires IsQual(q)
    ensures q != []
  {
  }

  /**
   * `parse_line` returns the row of the first pattern that matches the stripped
   * line with a valid analyte (k): every earlier pattern failed to match or named
   * an invalid analyte. A blank line, or a line no pattern turns into a row, gives None.
   */
  lemma LineRowFirst(line: string, m: LineMatcher, known: string -> bool, skip: string -> bool) returns (k: nat)
    ensures Strip(line) == [] ==> LineRow(line, m, known, skip) == None
    ensures Strip(line) != [] ==>
      && k <= |LinePatterns|
      && (forall j :: 0 <= j < k ==> PatternRow(line, m, LinePatterns[j], known, skip).None?)
      && (k < |LinePatterns| ==>
            PatternRow(line, m, LinePatterns[k], known, skip).Some?
            && LineRow(line, m, known, skip) == PatternRow(line, m, LinePatterns[k], known, skip))
      && (k == |LinePatterns| ==> LineRow(line, m, known, skip) == None)
  {
    k := FirstSomeAt(PatternRows(line, m, known, skip));
  }

  // ---------------------------------------------------------------- text

  /** The separator `\s{2,}` of the column split, at i. */
  function WideGap(s: string, i: nat): nat
  {
    if SpaceRun(s, i) >= 2 then SpaceRun(s, i) else 0
  }

  /**
   * The lines one line of the text contributes: none when it is blank; otherwise
   * its stripped non-blank columns when `re.split(r"\s{2,}", ...)` cuts it in
   * several, or else the stripped line.
   */
  function ColumnsOf(ln: string): seq<string>
  {
    var s := Strip(ln);
    if s == [] then []
    else
      var parts := RegexSplit(s, WideGap);
      if |parts| > 1 then NonBlankStripped(parts) else [s]
  }

  function LinesOf(lns: seq<string>): seq<string>
  {
    if lns == [] then [] else LinesOf(lns[..|lns| - 1]) + ColumnsOf(lns[|lns| - 1])
  }

  /** The lines `parse_text` hands to `parse_line`, in order. */
  function TextLines(text: string): seq<string>
  {
    LinesOf(SplitLines(text))
  }

  /** What `parse_line` gives on each line. */
  function LineOptions(lines: seq<string>, m: LineMatcher, known: string -> bool, skip: string -> bool): (opts: seq<Option<Row>>)
    ensures |opts| == |lines|
    ensures forall i :: 0 <= i < |lines| ==> opts[i] == LineRow(lines[i], m, known, skip)
  {
    seq(|lines|, i requires 0 <= i < |lines| => LineRow(lines[i], m, known, skip))
  }

  /** Every row `parse_text` collects, before de-duplication. */
  function TextRows(text: string, m: LineMatcher, known: string -> bool, skip: string -> bool): seq<Row>
  {
    Present(LineOptions(TextLines(text), m, known, skip))
  }

  lemma ColumnsClean(ln: string)
    ensures forall k :: 0 <= k < |ColumnsOf(ln)| ==> ColumnsOf(ln)[k] != [] && IsStripped(ColumnsOf(ln)[k])
  {
    StripIsStripped(ln);
  }

  /** Every line handed to `parse_line` is stripped and not blank. */
  lemma {:induction false} LinesClean(lns: seq<string>)
    ensures forall k :: 0 <= k < |LinesOf(lns)| ==> LinesOf(lns)[k] != [] && IsStripped(LinesOf(lns)[k])
    decreases |lns|
  {
    if lns != [] {
      var front := LinesOf(lns[..|lns| - 1]);
      var cols := ColumnsOf(lns[|lns| - 1]);
      LinesClean(lns[..|lns| - 1]);
      ColumnsClean(lns[|lns| - 1]);
      forall k | 0 <= k < |front + cols|
        ensures (front + cols)[k] != [] && IsStripped((front + cols)[k])
      {
        if k >= |front| {
          assert (front + cols)[k] == cols[k - |front|];
        }
      }
    }
  }

  /** A line without a run of two white-space characters is handed over whole, stripped. */
  lemma SingleColumn(ln: string)
    requires Strip(ln) != []
    requires forall i :: 0 <= i < |Strip(ln)| ==> WideGap(Strip(ln), i) == 0
    ensures ColumnsOf(ln) == [Strip(ln)]
  {
    SplitWithoutSeparator(Strip(ln), WideGap, 0, 0);
  }

  /** A blank line contributes nothing. */
  lemma {:induction false} BlankLinesNothing(lns: seq<string>)
    requires forall k :: 0 <= k < |lns| ==> AllSpace(lns[k])
    ensures LinesOf(lns) == []
    decreases |lns|
  {
    if lns != [] {
      BlankLinesNothing(lns[..|lns| - 1]);
      StripAllSpace(lns[|lns| - 1]);
    }
  }

  /** An empty or blank text gives no lines, hence no rows and the empty table. */
  lemma BlankTextNoRows(text: string, m: LineMatcher, known: string -> bool, skip: string -> bool)
    requires AllSpace(text)
    ensures TextLines(text) == []
    ensures SmartTable(TextRows(text, m, known, skip)) == []
  {
    SplitLinesAllSpace(text);
    BlankLinesNothing(SplitLines(text));
  }

  // ---------------------------------------------------------------- de-duplication

  /** The de-duplication key Analit. */
  function SmartKey(r: Row): string
  {
    r.analyte
  }

  /**
   * The sort order within one Analit: `_priority` (the non-null count of Ref_low,
   * Ref_high and Ref_tip) descending, then `_has_unit` (a non-empty Jedinica)
   * descending.
   */
  predicate SmartLe(a: Row, b: Row)
  {
    InfoScore(a) > InfoScore(b) || (InfoScore(a) == InfoScore(b) && (a.unit != [] || b.unit == []))
  }

  lemma SmartLeTotal()
    ensures TotalPreorder(SmartLe)
  {
  }

  /** The table `parse_text` returns, from the rows it collected. */
  function SmartTable(rows: seq<Row>): seq<Row>
  {
    KeepBest(rows, SmartKey, SmartLe)
  }

  /**
   * One row per Analit, and the kept row has the largest non-null count among
   * the rows with its Analit, and a unit whenever one of those with that count has one.
   */
  lemma SmartTableBest(rows: seq<Row>)
    ensures var table := SmartTable(rows);
      && UniqueKeys(table, SmartKey)
      && forall j, x :: 0 <= j < |table| && x in rows && x.analyte == table[j].analyte ==>
           && InfoScore(table[j]) >= InfoScore(x)
           && (InfoScore(table[j]) == InfoScore(x) && x.unit != [] ==> table[j].unit != [])
  {
    var table := SmartTable(rows);
    SmartLeTotal();
    KeepBestMinimal(rows, SmartKey, SmartLe);
    forall j, x | 0 <= j < |table| && x in rows && x.analyte == table[j].analyte
      ensures InfoScore(table[j]) >= InfoScore(x)
      ensures InfoScore(table[j]) == InfoScore(x) && x.unit != [] ==> table[j].unit != []
    {
      assert SmartKey(x) == SmartKey(table[j]);
      assert SmartLe(table[j], x);
    }
  }

  /** A row `parse_line` returns is marked "smart", has no flag, and its status fits its value and reference. */
  predicate GoodSmartRow(r: Row, lines: seq<string>)
  {
    r.source == Smart && r.flag == [] && r.status == StatusFrom(r.value, r.ref) && r.line in lines
  }

  lemma LineRowGood(line: string, m: LineMatcher, known: string -> bool, skip: string -> bool, lines: seq<string>)
    requires line in lines && LineRow(line, m, known, skip).Some?
    ensures GoodSmartRow(LineRow(line, m, known, skip).value, lines)
  {
    var k := LineRowFirst(line, m, known, skip);
    var p := LinePatterns[k];
    MatchRowFields(Used(p, m(p, Strip(line)).value), line, known, skip);
  }

  /**
   * Every row of the table comes from one of the lines: it is a row `parse_line`
   * returned for that line, marked "smart", with no flag and the status of its
   * value against its reference.
   */
  lemma SmartTableRows(text: string, m: LineMatcher, known: string -> bool, skip: string -> bool)
    ensures var table := SmartTable(TextRows(text, m, known, skip));
      forall j :: 0 <= j < |table| ==> GoodSmartRow(table[j], TextLines(text))
  {
    var lines := TextLines(text);
    var opts := LineOptions(lines, m, known, skip);
    var table := SmartTable(TextRows(text, m, known, skip));
    forall j | 0 <= j < |table|
      ensures GoodSmartRow(table[j], lines)
    {
      PresentMembers(opts, table[j]);
      var i :| 0 <= i < |opts| && opts[i] == Some(table[j]);
      LineRowGood(lines[i], m, known, skip, lines);
    }
  }

  // ---------------------------------------------------------------- the parser

  /**
   * `LabResultParser`. Its constructor sets the word sets the validity rule uses;
   * nothing changes them afterwards.
   */
  class LabResultParser {
    /** `known_analytes`, as its membership test. */
    const knownAnalytes: string -> bool
    /** `skip_words`, as its membership test. */
    const skipWords: string -> bool

    /**
     * `__init__`: app_v3's word sets, which hold the same words as app_v2's
     * KNOWN_ANALYTES and SKIP_WORDS. The token patterns it also stores are the
     * recognisers of module Tokens.
     */
    constructor()
      ensures knownAnalytes == AppV2.KnownAnalyte && skipWords == AppV2.SkipWord
    {
      knownAnalytes := AppV2.KnownAnalyte;
      skipWords := AppV2.SkipWord;
    }

    /** `is_valid_analyte`: the three-tier rule over the parser's word sets. */
    predicate IsValidAnalyte(name: string)
    {
      ThreeTier(name, knownAnalytes, skipWords)
    }

    /**
     * The body of `parse_line`'s loop for one match: None when the analyte is not
     * valid; otherwise the row, with the qualitative branch that clears the unit
     * and then reads the cleared unit as the value.
     */
    method RowOfMatch(groups: LineGroups, line: string) returns (r: Option<Row>)
      ensures r == MatchRow(groups, line, knownAnalytes, skipWords)
    {
      var analyte := Strip(groups.analyte);
      if !IsValidAnalyte(analyte) {
        return None;
      }
      var pv := ParseValue(Strip(groups.value));
      var num, qual := pv.0, pv.1;
      var unit := Strip(groups.unit);
      if IsUrineQualitative(analyte) {
        if qual.Some? && qual.value != [] && QualitativeWord(Lower(unit)) {
          unit := "";
          qual := Some(unit);
        }
      }
      var ref := ParseReference(Strip(groups.ref));
      var cleaned := CleanAnalyteName(analyte);
      var status := CalculateStatus(num, qual, ref.low, ref.high, ref.kind, ref.qual);
      r := Some(Row(cleaned.0, cleaned.1, ValueOf(num, qual), unit, ref, "", status, Smart, line));
    }

    /**
     * `parse_line`: try the patterns in order on the stripped line; a match whose
     * analyte is not valid moves on to the next pattern, the first valid one gives the row.
     */
    method ParseLine(line: string, m: LineMatcher) returns (r: Option<Row>)
      ensures r == LineRow(line, m, knownAnalytes, skipWords)
    {
      var s := Strip(line);
      if s == [] {
        return None;
      }
      ghost var opts := PatternRows(line, m, knownAnalytes, skipWords);
      for k := 0 to |LinePatterns|
        invariant FirstSome(opts) == FirstSome(opts[k..])
      {
        var p := LinePatterns[k];
        var found := m(p, s);
        if found.Some? {
          r := RowOfMatch(Used(p, found.value), line);
          if r.Some? {
            assert r == opts[k] == opts[k..][0];
            return;
          }
        }
        assert opts[k..][0].None? && opts[k..][1..] == opts[k + 1..];
      }
      return None;
    }

    /**
     * `parse_text`: collect the stripped, non-blank lines of the text (cut into
     * columns at runs of two or more white-space characters), parse each, and keep
     * one row per Analit, one with the most reference fields and then a unit.
     * With no rows the table is empty.
     */
    method ParseText(text: string, m: LineMatcher) returns (table: seq<Row>)
      ensures table == SmartTable(TextRows(text, m, knownAnalytes, skipWords))
      ensures UniqueKeys(table, SmartKey)
      ensures Keys(table, SmartKey) == Keys(TextRows(text, m, knownAnalytes, skipWords), SmartKey)
      ensures forall k :: 0 <= k < |table| ==> table[k] in TextRows(text, m, knownAnalytes, skipWords)
    {
      var lns := SplitLines(text);
      var lines: seq<string> := [];
      for i := 0 to |lns|
        invariant lines == LinesOf(lns[..i])
      {
        assert lns[..i + 1][..i] == lns[..i];
        var line := Strip(lns[i]);
        if line != [] {
          var parts := RegexSplit(line, WideGap);
          if |parts| > 1 {
            lines := lines + NonBlankStripped(parts);
          } else {
            lines := lines + [line];
          }
        }
      }
      assert lns[..|lns|] == lns;
      ghost var opts := LineOptions(lines, m, knownAnalytes, skipWords);
      var results: seq<Row> := [];
      PresentSnoc(opts, 0);
      for i := 0 to |lines|
        invariant results == Present(opts[..i])
      {
        var r := ParseLine(lines[i], m);
        PresentSnoc(opts, i + 1);
        PushRow(results, r);
        if r.Some? {
          results := results + [r.value];
        }
      }
      assert opts[..|lines|] == opts;
      table := KeepBest(results, SmartKey, SmartLe);
    }
  }

  /** A parser built by `__init__` accepts a name with a k in it unless a skip word occurs. */
  lemma NameWithKIsValid(p: LabResultParser, name: string, i: nat)
    requires p.knownAnalytes == AppV2.KnownAnalyte && p.skipWords == AppV2.SkipWord
    requires i < |name| && (name[i] == 'k' || name[i] == 'K')
    requires |Strip(name)| >= 2 && !MentionsAny(Strip(Lower(name)), AppV2.SkipWord)
    ensures p.IsValidAnalyte(name)
  {
    AppV2.NameWithKIsValid(name, i);
  }

  /** For a parser built by `__init__` skip words come first: a name mentioning one is invalid. */
  lemma SkipWordFirst(p: LabResultParser, name: string, w: string)
    requires p.knownAnalytes == AppV2.KnownAnalyte && p.skipWords == AppV2.SkipWord
    requires AppV2.SkipWord(w) && Contains(Lower(name), w)
    ensures !p.IsValidAnalyte(name)
  {
    AppV2.SkipWordBeatsKnownTerm(name, w);
  }
}
