/**
 * `auto_parse` of app_v2: the candidate lines of a text, the rows the line
 * patterns produce on them, and the (Analit, Tip) de-duplication.
 *
 * The line patterns PAT_MOJLAB, PAT_UNIVERSAL, PAT_STATE, PAT_TABLE and PAT_A to
 * PAT_D are not re-implemented: `Matcher` gives, for a pattern and a line, the
 * named groups of its matches in `finditer` order (a group that took no part is "").
 */
module AppV2Parse {
  import opened Wrappers
  import opened Text
  import opened Records
  import opened Analyte
  import opened Selection
  import opened AppV2

  datatype Pattern = MojLab | Universal | State | Table | PatA | PatB | PatC | PatD

  /** The order in which `auto_parse` applies the patterns to each line. */
  const PatternOrder: seq<Pattern> := [MojLab, Universal, State, Table, PatA, PatB, PatC, PatD]

  /** The named groups of one match: an, val, un, ref, fl, and MojLab's low and high. */
  datatype Groups = Groups(an: string, val: string, un: string, ref: string, fl: string, low: string, high: string)

  type Matcher = (Pattern, string) -> seq<Groups>

  /**
   * What each pattern passes to `interpret_auto_match`: MojLab builds the range
   * `f"{low}-{high}"`; PAT_A and PAT_B pass their flag; PAT_C and PAT_D pass no
   * reference.
   */
  function ArgsOf(p: Pattern, g: Groups): Args
  {
    match p
    case MojLab => Args(g.an, g.val, g.un, g.low + "-" + g.high, "")
    case Universal | State | Table => Args(g.an, g.val, g.un, g.ref, "")
    case PatA | PatB => Args(g.an, g.val, g.un, g.ref, g.fl)
    case PatC | PatD => Args(g.an, g.val, g.un, "", "")
  }

  /** MojLab is applied with `search` (its first match only), the others with `finditer`. */
  function UsedMatches(p: Pattern, ms: seq<Groups>): seq<Groups>
  {
    if p == MojLab && |ms| > 1 then ms[..1] else ms
  }

  /** The rows of a pattern's matches on a line, in match order, invalid names dropped. */
  function MatchRows(p: Pattern, ms: seq<Groups>, line: string): seq<Row>
  {
    if ms == [] then []
    else MatchRows(p, ms[..|ms| - 1], line) + RowsOf(AutoRow(ArgsOf(p, ms[|ms| - 1]), line))
  }

  /** The rows of the first k patterns on a line. */
  function LineRowsUpTo(line: string, m: Matcher, k: nat): seq<Row>
    requires k <= |PatternOrder|
  {
    if k == 0 then []
    else
      var p := PatternOrder[k - 1];
      LineRowsUpTo(line, m, k - 1) + MatchRows(p, UsedMatches(p, m(p, line)), line)
  }

  /** The rows of a sequence of candidate lines, line by line. */
  function RowsOfLines(lines: seq<string>, m: Matcher): seq<Row>
  {
    if lines == [] then []
    else RowsOfLines(lines[..|lines| - 1], m) + LineRowsUpTo(lines[|lines| - 1], m, |PatternOrder|)
  }

  // ---------------------------------------------------------------- candidate lines

  function TabRun(s: string, i: nat): (n: nat)
    ensures n > 0 ==> i + n <= |s|
    ensures n > 0 ==> s[i] == '\t'
    decreases |s| - i
  {
    if i < |s| && s[i] == '\t' then 1 + TabRun(s, i + 1) else 0
  }

  /** The separator `\s{3,}|\t+` of the two-column split at i. */
  function ColumnGap(s: string, i: nat): nat
  {
    if SpaceRun(s, i) >= 3 then SpaceRun(s, i) else TabRun(s, i)
  }

  /**
   * The candidate lines one input line contributes: its words joined by single
   * spaces, split into columns at `\s{3,}|\t+` when that gives several pieces.
   */
  function CandidatesOf(ln: string): seq<string>
  {
    var s := JoinWords(Words(ln));
    if s == [] then []
    else
      var parts := RegexSplit(s, ColumnGap);
      if |parts| > 1 then NonBlankStripped(parts) else [s]
  }

  function CandidateLines(lns: seq<string>): seq<string>
  {
    if lns == [] then []
    else CandidateLines(lns[..|lns| - 1]) + CandidatesOf(lns[|lns| - 1])
  }

  /** Every row `auto_parse` collects from a text, before de-duplication. */
  function AutoRows(text: string, m: Matcher): seq<Row>
  {
    RowsOfLines(CandidateLines(SplitLines(text)), m)
  }

  /**
   * The column split never fires: white space is collapsed first, so a blank line
   * gives no candidate and every other line exactly one, its words single-spaced.
   */
  lemma OneCandidatePerLine(ln: string)
    ensures AllSpace(ln) ==> CandidatesOf(ln) == []
    ensures !AllSpace(ln) ==> CandidatesOf(ln) == [JoinWords(Words(ln))]
    ensures !AllSpace(ln) ==> SingleSpaced(JoinWords(Words(ln))) && JoinWords(Words(ln)) != []
  {
    var s := JoinWords(Words(ln));
    WordsAreWords(ln);
    JoinWordsSingleSpaced(Words(ln));
    WordsEmpty(ln);
    if s != [] {
      forall i | 0 <= i < |s|
        ensures ColumnGap(s, i) == 0
      {
        NoGapInSingleSpaced(s, i);
      }
      SplitWithoutSeparator(s, ColumnGap, 0, 0);
      assert s[0..] == s;
    }
  }

  lemma NoGapInSingleSpaced(s: string, i: nat)
    requires SingleSpaced(s) && i < |s|
    ensures ColumnGap(s, i) == 0
  {
    if IsSpace(s[i]) {
      assert s[i] == ' ' && i + 1 < |s| && !IsSpace(s[i + 1]);
      assert SpaceRun(s, i + 1) == 0;
    }
  }

  /** A blank text has no candidate lines, so `auto_parse` finds no rows. */
  lemma {:induction false} BlankTextNoCandidates(lns: seq<string>)
    requires forall k :: 0 <= k < |lns| ==> AllSpace(lns[k])
    ensures CandidateLines(lns) == []
  {
    if lns != [] {
      BlankTextNoCandidates(lns[..|lns| - 1]);
      OneCandidatePerLine(lns[|lns| - 1]);
    }
  }

  lemma BlankTextNoRows(text: string, m: Matcher)
    requires AllSpace(text)
    ensures AutoRows(text, m) == []
  {
    SplitLinesAllSpace(text);
    BlankTextNoCandidates(SplitLines(text));
  }

  // ---------------------------------------------------------------- rows

  /** What every row of `interpret_auto_match` satisfies. */
  predicate GoodAutoRow(r: Row)
  {
    IsValidAnalyte(r.analyte) && r.source == Auto && r.status == StatusFrom(r.value, r.ref)
  }

  /** Good rows, each carrying one of the given lines. */
  predicate AllGood(rows: seq<Row>, lines: seq<string>)
  {
    forall k :: 0 <= k < |rows| ==> GoodAutoRow(rows[k]) && rows[k].line in lines
  }

  lemma AllGoodConcat(a: seq<Row>, b: seq<Row>, lines: seq<string>)
    requires AllGood(a, lines) && AllGood(b, lines)
    ensures AllGood(a + b, lines)
  {
    forall k | 0 <= k < |a + b|
      ensures GoodAutoRow((a + b)[k]) && (a + b)[k].line in lines
    {
      if k < |a| {
        assert (a + b)[k] == a[k];
      } else {
        assert (a + b)[k] == b[k - |a|];
      }
    }
  }

  lemma AllGoodWider(rows: seq<Row>, small: seq<string>, lines: seq<string>)
    requires AllGood(rows, small) && forall x :: x in small ==> x in lines
    ensures AllGood(rows, lines)
  {
  }

  lemma AutoRowGood(a: Args, line: string)
    ensures AllGood(RowsOf(AutoRow(a, line)), [line])
  {
    var r := AutoRow(a, line);
    if r.Some? {
      var cn := CleanName(a.name, a.unit);
      assert r.value.analyte == cn.0;
      OneGoodRow(r, cn.0, line);
    }
  }

  lemma OneGoodRow(r: Option<Row>, name: string, line: string)
    requires r.Some? && IsValidAnalyte(name) && r.value.analyte == name
    requires r.value.source == Auto && r.value.line == line && r.value.status == StatusFrom(r.value.value, r.value.ref)
    ensures AllGood(RowsOf(r), [line])
  {
    assert RowsOf(r) == [r.value];
  }

  lemma {:induction false} MatchRowsGood(p: Pattern, ms: seq<Groups>, line: string)
    ensures AllGood(MatchRows(p, ms, line), [line])
  {
    if ms != [] {
      MatchRowsGood(p, ms[..|ms| - 1], line);
      AutoRowGood(ArgsOf(p, ms[|ms| - 1]), line);
      AllGoodConcat(MatchRows(p, ms[..|ms| - 1], line), RowsOf(AutoRow(ArgsOf(p, ms[|ms| - 1]), line)), [line]);
    }
  }

  lemma {:induction false} LineRowsGood(line: string, m: Matcher, k: nat)
    requires k <= |PatternOrder|
    ensures AllGood(LineRowsUpTo(line, m, k), [line])
  {
    if k > 0 {
      LineRowsGood(line, m, k - 1);
      var p := PatternOrder[k - 1];
      MatchRowsGood(p, UsedMatches(p, m(p, line)), line);
      AllGoodConcat(LineRowsUpTo(line, m, k - 1), MatchRows(p, UsedMatches(p, m(p, line)), line), [line]);
    }
  }

  /** Every collected row names a valid analyte, comes from "auto" and carries one of the lines. */
  lemma {:induction false} RowsOfLinesGood(lines: seq<string>, m: Matcher)
    ensures AllGood(RowsOfLines(lines, m), lines)
  {
    if lines != [] {
      var front := lines[..|lines| - 1];
      var last := lines[|lines| - 1];
      RowsOfLinesGood(front, m);
      LineRowsGood(last, m, |PatternOrder|);
      AllGoodWider(RowsOfLines(front, m), front, lines);
      AllGoodWider(LineRowsUpTo(last, m, |PatternOrder|), [last], lines);
      AllGoodConcat(RowsOfLines(front, m), LineRowsUpTo(last, m, |PatternOrder|), lines);
    }
  }

  // ---------------------------------------------------------------- de-duplication

  /** The de-duplication key (Analit, Tip). */
  function AutoKey(r: Row): (string, Subtype)
  {
    (r.analyte, r.subtype)
  }

  /** Ref_low or Ref_high ascending with nulls last. */
  predicate BoundLe(x: Option<real>, y: Option<real>)
  {
    y.None? || (x.Some? && x.value <= y.value)
  }

  /**
   * The sort order of `auto_parse`: `_priority` is 2 on every auto row, so rows
   * are ordered by Ref_low and then Ref_high, ascending, nulls last.
   */
  predicate AutoLe(a: Row, b: Row)
  {
    if a.ref.low == b.ref.low then BoundLe(a.ref.high, b.ref.high)
    else BoundLe(a.ref.low, b.ref.low)
  }

  /** Bounds with nulls last are totally preordered. */
  lemma BoundLeTotal(x: Option<real>, y: Option<real>, z: Option<real>)
    ensures BoundLe(x, y) || BoundLe(y, x)
    ensures BoundLe(x, y) && BoundLe(y, z) ==> BoundLe(x, z)
    ensures BoundLe(x, y) && BoundLe(y, x) ==> x == y
  {
  }

  /** The auto order is a total preorder, so the de-duplication keeps a best row per key. */
  lemma AutoLeTotal()
    ensures TotalPreorder(AutoLe)
  {
    forall a, b
      ensures AutoLe(a, b) || AutoLe(b, a)
    {
      BoundLeTotal(a.ref.low, b.ref.low, b.ref.low);
      BoundLeTotal(a.ref.high, b.ref.high, b.ref.high);
    }
    forall a, b, c | AutoLe(a, b) && AutoLe(b, c)
      ensures AutoLe(a, c)
    {
      BoundLeTotal(a.ref.low, b.ref.low, c.ref.low);
      BoundLeTotal(b.ref.low, c.ref.low, a.ref.low);
      BoundLeTotal(c.ref.low, a.ref.low, b.ref.low);
      BoundLeTotal(a.ref.high, b.ref.high, c.ref.high);
    }
  }

  /** The table `auto_parse` returns, from the rows it collected. */
  function AutoTable(rows: seq<Row>): seq<Row>
  {
    KeepBest(rows, AutoKey, AutoLe)
  }

  /** The first loop of `auto_parse`: the candidate lines of the text, in order. */
  method CollectLines(text: string) returns (lines: seq<string>)
    ensures lines == CandidateLines(SplitLines(text))
  {
    var lns := SplitLines(text);
    lines := [];
    for i := 0 to |lns|
      invariant lines == CandidateLines(lns[..i])
    {
      assert CandidateLines(lns[..i + 1]) == CandidateLines(lns[..i]) + CandidatesOf(lns[i]) by {
        assert lns[..i + 1][..i] == lns[..i];
      }
      var s := JoinWords(Words(lns[i]));
      if s != [] {
        var parts := RegexSplit(s, ColumnGap);
        if |parts| > 1 {
          lines := lines + NonBlankStripped(parts);
        } else {
          lines := lines + [s];
        }
      }
    }
    assert lns[..|lns|] == lns;
  }

  /** One `for m in PAT.finditer(line)` loop: the rows of valid matches, appended in order. */
  method AppendMatchRows(rows: seq<Row>, p: Pattern, ms: seq<Groups>, line: string) returns (out: seq<Row>)
    ensures out == rows + MatchRows(p, ms, line)
  {
    out := rows;
    MatchRowsSnoc(p, ms, 0, line);
    for j := 0 to |ms|
      invariant out == rows + MatchRows(p, ms[..j], line)
    {
      var r := AutoRow(ArgsOf(p, ms[j]), line);
      MatchRowsSnoc(p, ms, j + 1, line);
      AppendStep(rows, MatchRows(p, ms[..j], line), RowsOf(r), MatchRows(p, ms[..j + 1], line));
      PushRow(out, r);
      if r.Some? {
        out := out + [r.value];
      }
    }
    assert ms[..|ms|] == ms;
  }

  /** The rows of the first j matches: none for j = 0, one match more for each step. */
  lemma MatchRowsSnoc(p: Pattern, ms: seq<Groups>, j: nat, line: string)
    requires j <= |ms|
    ensures j == 0 ==> MatchRows(p, ms[..j], line) == []
    ensures j > 0 ==> MatchRows(p, ms[..j], line) == MatchRows(p, ms[..j - 1], line) + RowsOf(AutoRow(ArgsOf(p, ms[j - 1]), line))
  {
    if j > 0 {
      assert ms[..j][..j - 1] == ms[..j - 1];
    } else {
      assert ms[..j] == [];
    }
  }

  /** The rows of the first i lines: none for i = 0, one line's rows more for each step. */
  lemma RowsOfLinesSnoc(lines: seq<string>, i: nat, m: Matcher)
    requires i <= |lines|
    ensures i == 0 ==> RowsOfLines(lines[..i], m) == []
    ensures i > 0 ==> RowsOfLines(lines[..i], m) == RowsOfLines(lines[..i - 1], m) + LineRowsUpTo(lines[i - 1], m, |PatternOrder|)
  {
    if i > 0 {
      assert lines[..i][..i - 1] == lines[..i - 1];
    } else {
      assert lines[..i] == [];
    }
  }

  /** One pattern more on a line appends that pattern's rows. */
  lemma LineRowsStep(line: string, m: Matcher, k: nat)
    requires k < |PatternOrder|
    ensures var p := PatternOrder[k];
      LineRowsUpTo(line, m, k + 1) == LineRowsUpTo(line, m, k) + MatchRows(p, UsedMatches(p, m(p, line)), line)
  {
  }

  lemma LineRowsNext(rows: seq<Row>, line: string, m: Matcher, k: nat, out: seq<Row>, next: seq<Row>)
    requires k < |PatternOrder| && out == rows + LineRowsUpTo(line, m, k)
    requires next == out + MatchRows(PatternOrder[k], UsedMatches(PatternOrder[k], m(PatternOrder[k], line)), line)
    ensures next == rows + LineRowsUpTo(line, m, k + 1)
  {
    var p := PatternOrder[k];
    LineRowsStep(line, m, k);
    AppendStep(rows, LineRowsUpTo(line, m, k), MatchRows(p, UsedMatches(p, m(p, line)), line), LineRowsUpTo(line, m, k + 1));
  }

  lemma NothingAppended(rows: seq<Row>)
    ensures rows == rows + []
  {
  }

  /** The patterns applied to one line in their fixed order, each match's row appended. */
  method AppendLineRows(rows: seq<Row>, line: string, m: Matcher) returns (out: seq<Row>)
    ensures out == rows + LineRowsUpTo(line, m, |PatternOrder|)
  {
    out := rows;
    NothingAppended(rows);
    for k := 0 to |PatternOrder|
      invariant out == rows + LineRowsUpTo(line, m, k)
    {
      var p := PatternOrder[k];
      var next := AppendMatchRows(out, p, UsedMatches(p, m(p, line)), line);
      LineRowsNext(rows, line, m, k, out, next);
      out := next;
    }
  }

  /**
   * `auto_parse`: collect the candidate lines, apply the patterns to each line in
   * order and keep the rows with a valid analyte, then keep one row per
   * (Analit, Tip), one that sorts first by Ref_low and Ref_high.
   */
  method AutoParse(text: string, m: Matcher) returns (table: seq<Row>)
    ensures table == AutoTable(AutoRows(text, m))
    ensures UniqueKeys(table, AutoKey)
    ensures Keys(table, AutoKey) == Keys(AutoRows(text, m), AutoKey)
    ensures forall k :: 0 <= k < |table| ==> table[k] in AutoRows(text, m)
  {
    var lines := CollectLines(text);
    var rows: seq<Row> := [];
    RowsOfLinesSnoc(lines, 0, m);
    for i := 0 to |lines|
      invariant rows == RowsOfLines(lines[..i], m)
    {
      rows := AppendLineRows(rows, lines[i], m);
      RowsOfLinesSnoc(lines, i + 1, m);
    }
    assert lines[..|lines|] == lines;
    table := AutoTable(rows);
  }

  /**
   * The kept row of each (Analit, Tip) sorts no later than any collected row with
   * that key, and every kept row names a valid analyte and comes from "auto".
   */
  lemma AutoTableBest(text: string, m: Matcher)
    ensures var table := AutoTable(AutoRows(text, m));
      && (forall j, x :: 0 <= j < |table| && x in AutoRows(text, m) && AutoKey(x) == AutoKey(table[j])
            ==> AutoLe(table[j], x))
      && AllGood(table, CandidateLines(SplitLines(text)))
  {
    var rows := AutoRows(text, m);
    AutoLeTotal();
    KeepBestMinimal(rows, AutoKey, AutoLe);
    RowsOfLinesGood(CandidateLines(SplitLines(text)), m);
  }

  /** An empty or blank text gives an empty table. */
  lemma BlankTextEmptyTable(text: string, m: Matcher)
    requires AllSpace(text)
    ensures AutoTable(AutoRows(text, m)) == []
  {
    BlankTextNoRows(text, m);
  }

  // ---------------------------------------------------------------- auto_parse as written

  /** A match whose row `interpret_auto_match` raises on: a valid name with a minus-signed range. */
  predicate MatchRaises(p: Pattern, g: Groups)
  {
    var a := ArgsOf(p, g);
    IsValidAnalyte(CleanName(a.name, a.unit).0) && MinusSignedRange(Strip(a.ref))
  }

  /** Some match of the sequence raises, the last one or one before it. */
  predicate SomeMatchRaises(p: Pattern, ms: seq<Groups>)
  {
    ms != [] && (SomeMatchRaises(p, ms[..|ms| - 1]) || MatchRaises(p, ms[|ms| - 1]))
  }

  /** Some pattern among the first k raises on one of its matches on the line. */
  predicate LineRaisesUpTo(line: string, m: Matcher, k: nat)
    requires k <= |PatternOrder|
  {
    k > 0 && (LineRaisesUpTo(line, m, k - 1)
              || var p := PatternOrder[k - 1]; SomeMatchRaises(p, UsedMatches(p, m(p, line))))
  }

  /** Some line of the sequence raises under one of the patterns. */
  predicate SomeLineRaises(lines: seq<string>, m: Matcher)
  {
    lines != [] && (SomeLineRaises(lines[..|lines| - 1], m) || LineRaisesUpTo(lines[|lines| - 1], m, |PatternOrder|))
  }

  /** `MatchRows` with `interpret_auto_match` as written: the first raising match ends the parse. */
  function MatchRowsAsWritten(p: Pattern, ms: seq<Groups>, line: string): Outcome<seq<Row>>
  {
    if ms == [] then Ok([])
    else Then(MatchRowsAsWritten(p, ms[..|ms| - 1], line), RowsOutcome(AutoRowAsWritten(ArgsOf(p, ms[|ms| - 1]), line)))
  }

  function LineRowsUpToAsWritten(line: string, m: Matcher, k: nat): Outcome<seq<Row>>
    requires k <= |PatternOrder|
  {
    if k == 0 then Ok([])
    else
      var p := PatternOrder[k - 1];
      Then(LineRowsUpToAsWritten(line, m, k - 1), MatchRowsAsWritten(p, UsedMatches(p, m(p, line)), line))
  }

  function RowsOfLinesAsWritten(lines: seq<string>, m: Matcher): Outcome<seq<Row>>
  {
    if lines == [] then Ok([])
    else Then(RowsOfLinesAsWritten(lines[..|lines| - 1], m), LineRowsUpToAsWritten(lines[|lines| - 1], m, |PatternOrder|))
  }

  /** `auto_parse` as written: it raises when any match it reads raises, otherwise it returns the table. */
  function AutoParseAsWritten(text: string, m: Matcher): Outcome<seq<Row>>
  {
    match RowsOfLinesAsWritten(CandidateLines(SplitLines(text)), m)
    case Crash => Crash
    case Ok(rows) => Ok(AutoTable(rows))
  }

  /** The matches of a pattern raise exactly when one of them does; otherwise they give `MatchRows`. */
  lemma {:induction false} MatchRowsAsWrittenAgrees(p: Pattern, ms: seq<Groups>, line: string)
    ensures MatchRowsAsWritten(p, ms, line) == Crash <==> SomeMatchRaises(p, ms)
    ensures MatchRowsAsWritten(p, ms, line) != Crash ==> MatchRowsAsWritten(p, ms, line) == Ok(MatchRows(p, ms, line))
    decreases |ms|
  {
    if ms != [] {
      var front, a := ms[..|ms| - 1], ArgsOf(p, ms[|ms| - 1]);
      MatchRowsAsWrittenAgrees(p, front, line);
      AutoRowAsWrittenAgrees(a, line);
      RowsOutcomeAgrees(AutoRowAsWritten(a, line), AutoRow(a, line), MatchRaises(p, ms[|ms| - 1]));
      ThenAgrees(MatchRowsAsWritten(p, front, line), RowsOutcome(AutoRowAsWritten(a, line)),
        MatchRows(p, front, line), RowsOf(AutoRow(a, line)), SomeMatchRaises(p, front), MatchRaises(p, ms[|ms| - 1]));
    }
  }

  lemma {:induction false} LineRowsAsWrittenAgrees(line: string, m: Matcher, k: nat)
    requires k <= |PatternOrder|
    ensures LineRowsUpToAsWritten(line, m, k) == Crash <==> LineRaisesUpTo(line, m, k)
    ensures LineRowsUpToAsWritten(line, m, k) != Crash ==> LineRowsUpToAsWritten(line, m, k) == Ok(LineRowsUpTo(line, m, k))
  {
    if k > 0 {
      var p := PatternOrder[k - 1];
      var ms := UsedMatches(p, m(p, line));
      LineRowsAsWrittenAgrees(line, m, k - 1);
      MatchRowsAsWrittenAgrees(p, ms, line);
      ThenAgrees(LineRowsUpToAsWritten(line, m, k - 1), MatchRowsAsWritten(p, ms, line),
        LineRowsUpTo(line, m, k - 1), MatchRows(p, ms, line), LineRaisesUpTo(line, m, k - 1), SomeMatchRaises(p, ms));
    }
  }

  lemma {:induction false} RowsOfLinesAsWrittenAgrees(lines: seq<string>, m: Matcher)
    ensures RowsOfLinesAsWritten(lines, m) == Crash <==> SomeLineRaises(lines, m)
    ensures RowsOfLinesAsWritten(lines, m) != Crash ==> RowsOfLinesAsWritten(lines, m) == Ok(RowsOfLines(lines, m))
    decreases |lines|
  {
    if lines != [] {
      var front, last := lines[..|lines| - 1], lines[|lines| - 1];
      RowsOfLinesAsWrittenAgrees(front, m);
      LineRowsAsWrittenAgrees(last, m, |PatternOrder|);
      ThenAgrees(RowsOfLinesAsWritten(front, m), LineRowsUpToAsWritten(last, m, |PatternOrder|),
        RowsOfLines(front, m), LineRowsUpTo(last, m, |PatternOrder|), SomeLineRaises(front, m), LineRaisesUpTo(last, m, |PatternOrder|));
    }
  }

  /**
   * `auto_parse` as written raises exactly when some candidate line has a match
   * with a valid name and a minus-signed range; otherwise it returns the table
   * `AutoParse` builds.
   */
  lemma AutoParseAsWrittenAgrees(text: string, m: Matcher)
    ensures AutoParseAsWritten(text, m) == Crash <==> SomeLineRaises(CandidateLines(SplitLines(text)), m)
    ensures AutoParseAsWritten(text, m) != Crash ==> AutoParseAsWritten(text, m) == Ok(AutoTable(AutoRows(text, m)))
  {
    RowsOfLinesAsWrittenAgrees(CandidateLines(SplitLines(text)), m);
  }
}
