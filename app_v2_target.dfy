/**
 * `targeted_parse` of app_v2: every case-insensitive occurrence of a catalog
 * alias in the text, the text windows around it, the value, unit and reference
 * searched for in those windows, and the one-row-per-analyte de-duplication that
 * prefers rows with more reference bounds.
 *
 * The catalog is a parameter; `AnalyteCatalog` is the built-in one.
 */
module AppV2Target {
  import opened Wrappers
  import opened Text
  import opened Tokens
  import opened Records
  import opened Selection
  import opened AppV2
  import opened AppV2Parse

  /** One entry of `ANALYTE_CATALOG`: the analyte's name and the aliases it is found by. */
  datatype CatalogEntry = Entry(name: string, aliases: seq<string>)

  /** `ANALYTE_CATALOG` as the module defines it. */
  const AnalyteCatalog: seq<CatalogEntry> := [
    Entry("Hemoglobin", ["Hemoglobin", "Hb"]),
    Entry("Leukociti", ["Leukociti", "Leukocite", "WBC"]),
    Entry("Eritrociti", ["Eritrociti", "Eritrocite", "RBC", "K-Eritrociti"]),
    Entry("Hematokrit", ["Hematokrit", "HCT"]),
    Entry("Trombociti", ["Trombociti", "PLT"]),
    Entry("Glukoza", ["Glukoza", "Glucose"]),
    Entry("Urea", ["Urea"]),
    Entry("Kreatinin", ["Kreatinin", "Creatinine"]),
    Entry("ALT", ["ALT", "GPT"]),
    Entry("AST", ["AST", "GOT"]),
    Entry("GGT", ["GGT", "Gamma GT", "Gamma-GT"]),
    Entry("Ukupni holesterol", ["Ukupni holesterol", "Holesterol ukupni", "Cholesterol total"]),
    Entry("HDL", ["HDL"]),
    Entry("LDL", ["LDL"]),
    Entry("Trigliceridi", ["Trigliceridi", "Triglycerides", "Trigl."]),
    Entry("Natrijum", ["Natrijum", "Na"]),
    Entry("Kalijum", ["Kalijum", "K"]),
    Entry("Kalcijum", ["Kalcijum", "Ca"]),
    Entry("Neutrofili %", ["Neutrofili %", "Neutrofili%", "Neutrofili procenat", "Neutrophils %"]),
    Entry("Neutrofili aps", ["Neutrofili aps", "Neutrofili aps.", "Neutrofili abs", "Neutrophils abs"]),
    Entry("Limfociti %", ["Limfociti %", "Lymphocytes %", "Limfociti%"]),
    Entry("Limfociti aps", ["Limfociti aps", "Lymphocytes abs", "Limfociti aps."]),
    Entry("Monociti %", ["Monociti %", "Monocytes %", "Monociti%"]),
    Entry("Monociti aps", ["Monociti aps", "Monocytes abs", "Monociti aps."])
  ]

  /** `WINDOW_CHARS`: how far left and right of an alias the fields are looked for. */
  const WindowChars: nat := 120

  // ---------------------------------------------------------------- alias matching

  /**
   * The aliases lower-cased: an escaped literal under `re.IGNORECASE` is matched
   * as the lower-cased alias against the lower-cased text.
   */
  function LowerAll(aliases: seq<string>): (r: seq<string>)
    ensures |r| == |aliases|
    ensures forall k :: 0 <= k < |r| ==> r[k] == Lower(aliases[k])
  {
    seq(|aliases|, k requires 0 <= k < |aliases| => Lower(aliases[k]))
  }

  /** The (lower-cased) alias occurs at i of the lower-cased text. */
  predicate AliasAt(low: string, a: string, i: nat)
  {
    a != [] && i + |a| <= |low| && low[i..i + |a|] == a
  }

  /**
   * The length of the match of the alternation of the aliases at i: the first
   * alias in list order that occurs there, 0 when none does.
   */
  function AliasLenAt(low: string, aliases: seq<string>, i: nat): (n: nat)
    ensures n > 0 ==> i + n <= |low|
    decreases |aliases|
  {
    if aliases == [] then 0
    else if AliasAt(low, aliases[0], i) then |aliases[0]|
    else AliasLenAt(low, aliases[1..], i)
  }

  /**
   * The alternation matches at i exactly when some alias occurs there, and then
   * with the first such alias in list order.
   */
  lemma {:induction false} AliasLenAtFirst(low: string, aliases: seq<string>, i: nat)
    ensures AliasLenAt(low, aliases, i) > 0 <==> exists k :: 0 <= k < |aliases| && AliasAt(low, aliases[k], i)
    ensures AliasLenAt(low, aliases, i) > 0 ==>
      exists k :: 0 <= k < |aliases| && AliasAt(low, aliases[k], i) && AliasLenAt(low, aliases, i) == |aliases[k]|
        && forall k' :: 0 <= k' < k ==> !AliasAt(low, aliases[k'], i)
    decreases |aliases|
  {
    if aliases != [] && !AliasAt(low, aliases[0], i) {
      var rest := aliases[1..];
      AliasLenAtFirst(low, rest, i);
      assert forall k :: 1 <= k < |aliases| ==> aliases[k] == rest[k - 1];
      if AliasLenAt(low, rest, i) > 0 {
        var k :| 0 <= k < |rest| && AliasAt(low, rest[k], i) && AliasLenAt(low, rest, i) == |rest[k]|
          && forall k' :: 0 <= k' < k ==> !AliasAt(low, rest[k'], i);
        assert aliases[k + 1] == rest[k];
      }
    }
  }

  /** Lower-casing commutes with slicing. */
  lemma LowerSlice(s: string, a: nat, b: nat)
    requires a <= b <= |s|
    ensures Lower(s[a..b]) == Lower(s)[a..b]
  {
  }

  /** An alias occurs at i of the lower-cased text exactly when the text there equals it up to case. */
  lemma AliasAtIgnoresCase(text: string, a: string, i: nat)
    ensures AliasAt(Lower(text), Lower(a), i) <==>
      a != [] && i + |a| <= |text| && Lower(text[i..i + |a|]) == Lower(a)
  {
    if i + |a| <= |text| {
      LowerSlice(text, i, i + |a|);
    }
  }

  /** `alias_pat.search` from position i: the leftmost position at or after i where an alias occurs. */
  function NextHit(low: string, aliases: seq<string>, i: nat): (r: Option<nat>)
    ensures r.Some? ==> i <= r.value && AliasLenAt(low, aliases, r.value) > 0
    ensures r.Some? ==> forall j :: i <= j < r.value ==> AliasLenAt(low, aliases, j) == 0
    ensures r.None? ==> forall j :: i <= j ==> AliasLenAt(low, aliases, j) == 0
    decreases |low| - i
  {
    if i >= |low| then None
    else if AliasLenAt(low, aliases, i) > 0 then Some(i)
    else NextHit(low, aliases, i + 1)
  }

  /**
   * `alias_pat.finditer(text)` from position i, on the lower-cased text: the
   * spans of the successive leftmost matches, each search resuming where the
   * previous match ended.
   */
  function AliasHits(low: string, aliases: seq<string>, i: nat): (hs: seq<(nat, nat)>)
    ensures forall k :: 0 <= k < |hs| ==> i <= hs[k].0 < hs[k].1 <= |low|
    ensures forall k, l :: 0 <= k < l < |hs| ==> hs[k].1 <= hs[l].0
    decreases |low| - i
  {
    match NextHit(low, aliases, i)
    case None => []
    case Some(j) =>
      var n := AliasLenAt(low, aliases, j);
      [(j, j + n)] + AliasHits(low, aliases, j + n)
  }

  /** Every reported span is a match of the alternation. */
  lemma {:induction false} AliasHitsMatch(low: string, aliases: seq<string>, i: nat, k: nat)
    requires k < |AliasHits(low, aliases, i)|
    ensures var h := AliasHits(low, aliases, i)[k]; h.1 - h.0 == AliasLenAt(low, aliases, h.0)
    decreases |low| - i
  {
    var hs := AliasHits(low, aliases, i);
    var sf := NextHit(low, aliases, i);
    var j := sf.value;
    var n := AliasLenAt(low, aliases, j);
    var tail := AliasHits(low, aliases, j + n);
    assert hs == [(j, j + n)] + tail;
    if k > 0 {
      AliasHitsMatch(low, aliases, j + n, k - 1);
      assert hs[k] == tail[k - 1];
    }
  }

  /**
   * No occurrence is skipped: every position at which an alias occurs lies inside
   * one of the reported spans (its own, or that of an earlier overlapping match).
   */
  lemma {:induction false} AliasHitsCover(low: string, aliases: seq<string>, i: nat, p: nat) returns (k: nat)
    requires i <= p && AliasLenAt(low, aliases, p) > 0
    ensures var hs := AliasHits(low, aliases, i); k < |hs| && hs[k].0 <= p < hs[k].1
    decreases |low| - i
  {
    var hs := AliasHits(low, aliases, i);
    var sf := NextHit(low, aliases, i);
    if sf.None? {
      assert false;
    } else {
      var j := sf.value;
      var n := AliasLenAt(low, aliases, j);
      var tail := AliasHits(low, aliases, j + n);
      assert hs == [(j, j + n)] + tail;
      assert j <= p;
      if p >= j + n {
        var t := AliasHitsCover(low, aliases, j + n, p);
        assert hs[t + 1] == tail[t];
        k := t + 1;
      } else {
        k := 0;
      }
    }
  }

  /**
   * There are no word boundaries: Kalijum's alias "K" matches every 'k' and 'K'
   * of the text, inside words included.
   */
  lemma KalijumMatchesEveryK(text: string, i: nat)
    requires i < |text| && (text[i] == 'k' || text[i] == 'K')
    ensures AnalyteCatalog[16].name == "Kalijum"
    ensures AliasLenAt(Lower(text), LowerAll(AnalyteCatalog[16].aliases), i) > 0
  {
    var aliases := LowerAll(AnalyteCatalog[16].aliases);
    assert aliases[1] == Lower("K") == "k";
    assert Lower(text)[i..i + 1] == "k";
    assert AliasAt(Lower(text), aliases[1], i);
  }

  // ---------------------------------------------------------------- windows

  /** `max(0, start - WINDOW_CHARS)`. */
  function WindowStart(start: nat): nat
  {
    if start >= WindowChars then start - WindowChars else 0
  }

  /** `min(len(text), end + WINDOW_CHARS)`. */
  function WindowEnd(text: string, end: nat): nat
  {
    if end + WindowChars <= |text| then end + WindowChars else |text|
  }

  /** The text right of the alias, left of it, and the window around it. */
  datatype Sides = Sides(right: string, left: string, window: string)

  /** The three windows of an alias span [start, end): right of it, left of it, and both with the span. */
  function SidesOf(text: string, start: nat, end: nat): Sides
    requires start <= end <= |text|
  {
    Sides(text[end..WindowEnd(text, end)], text[WindowStart(start)..start], text[WindowStart(start)..WindowEnd(text, end)])
  }

  /**
   * The windows are clamped to the text: up to WINDOW_CHARS characters after the
   * span, up to WINDOW_CHARS before it, each cut short only by an end of the text,
   * and the combined window is the left one, the span and the right one.
   */
  lemma WindowsClamped(text: string, start: nat, end: nat)
    requires start <= end <= |text|
    ensures var sd := SidesOf(text, start, end);
      && |sd.right| == (if |text| - end < WindowChars then |text| - end else WindowChars)
      && |sd.left| == (if start < WindowChars then start else WindowChars)
      && sd.right == text[end..end + |sd.right|]
      && sd.left == text[start - |sd.left|..start]
      && sd.window == sd.left + text[start..end] + sd.right
  {
    var ws := WindowStart(start);
    var we := WindowEnd(text, end);
    assert text[ws..we] == text[ws..start] + text[start..end] + text[end..we];
  }

  // ---------------------------------------------------------------- field search

  /**
   * The result of `for side in (right, left, window): if not m: m = PAT.search(side)`
   * for one field: the match in the first side where the field's pattern occurs.
   */
  function FirstFound(sides: seq<string>, lenAt: (string, nat) -> nat): Option<string>
  {
    if sides == [] then None
    else
      var before := FirstFound(sides[..|sides| - 1], lenAt);
      if before.Some? then before else Search(sides[|sides| - 1], lenAt)
  }

  /** A field is found when some side has it, and then it is the match in the first such side. */
  lemma {:induction false} FirstFoundFirst(sides: seq<string>, lenAt: (string, nat) -> nat)
    ensures FirstFound(sides, lenAt).Some? <==> exists k :: 0 <= k < |sides| && Search(sides[k], lenAt).Some?
    ensures FirstFound(sides, lenAt).Some? ==>
      exists k :: 0 <= k < |sides| && FirstFound(sides, lenAt) == Search(sides[k], lenAt)
        && forall k' :: 0 <= k' < k ==> Search(sides[k'], lenAt).None?
  {
    if sides != [] {
      var front := sides[..|sides| - 1];
      FirstFoundFirst(front, lenAt);
      assert forall k :: 0 <= k < |front| ==> front[k] == sides[k];
    }
  }

  /** The group's text, "" when the field was not found. */
  function OrEmpty(m: Option<string>): string
  {
    if m.Some? then m.value else ""
  }

  /** The raw value, unit and reference text found around one alias span. */
  datatype Fields = Fields(val: string, unit: string, ref: string)

  function SideList(sd: Sides): seq<string>
  {
    [sd.right, sd.left, sd.window]
  }

  /** Each field is looked for on its own: value, unit and reference may come from different sides. */
  function FieldsOf(sd: Sides): Fields
  {
    var sides := SideList(sd);
    Fields(OrEmpty(FirstFound(sides, ValueLenAt)), OrEmpty(FirstFound(sides, UnitLenAt)),
           OrEmpty(FirstFound(sides, RangeLenAt)))
  }

  /** The side loop of `targeted_parse`. */
  method SearchSides(sd: Sides) returns (f: Fields)
    ensures f == FieldsOf(sd)
  {
    var sides := SideList(sd);
    var valM: Option<string> := None;
    var unitM: Option<string> := None;
    var rangeM: Option<string> := None;
    for k := 0 to |sides|
      invariant valM == FirstFound(sides[..k], ValueLenAt)
      invariant unitM == FirstFound(sides[..k], UnitLenAt)
      invariant rangeM == FirstFound(sides[..k], RangeLenAt)
    {
      FirstFoundStep(sides, k, ValueLenAt);
      FirstFoundStep(sides, k, UnitLenAt);
      FirstFoundStep(sides, k, RangeLenAt);
      if valM.None? {
        valM := Search(sides[k], ValueLenAt);
      }
      if unitM.None? {
        unitM := Search(sides[k], UnitLenAt);
      }
      if rangeM.None? {
        rangeM := Search(sides[k], RangeLenAt);
      }
    }
    assert sides[..|sides|] == sides;
    f := Fields(OrEmpty(valM), OrEmpty(unitM), OrEmpty(rangeM));
  }

  /** One more side: the earlier match stands, or the new side is searched. */
  lemma FirstFoundStep(sides: seq<string>, k: nat, lenAt: (string, nat) -> nat)
    requires k < |sides|
    ensures FirstFound(sides[..k + 1], lenAt) ==
      if FirstFound(sides[..k], lenAt).Some? then FirstFound(sides[..k], lenAt) else Search(sides[k], lenAt)
  {
    assert sides[..k + 1][..k] == sides[..k];
  }

  /** A field's text is non-empty exactly when some side has that field. */
  lemma FoundIsNonEmpty(sides: seq<string>, lenAt: (string, nat) -> nat)
    ensures OrEmpty(FirstFound(sides, lenAt)) != [] <==> exists k :: 0 <= k < |sides| && Search(sides[k], lenAt).Some?
  {
    FirstFoundFirst(sides, lenAt);
    var r := FirstFound(sides, lenAt);
    if r.Some? {
      var k :| 0 <= k < |sides| && r == Search(sides[k], lenAt);
      SearchFinds(sides[k], lenAt);
    }
  }

  // ---------------------------------------------------------------- rows

  /**
   * The row of an alias of the analyte `name` from the fields found around it:
   * the name cleaned with the unit as hint, the value read as in
   * `interpret_auto_match`, the stripped reference interpreted, no flag, source
   * "ciljani" and the alias span as Linija. There is no row when the cleaned name
   * is empty or no value was found.
   */
  function RowFrom(name: string, f: Fields, line: string): Option<Row>
  {
    var (cname, typ) := CleanName(name, f.unit);
    var v := ReadValue(f.val);
    if cname != [] && !v.NoValue? then
      var ref := InterpretRef(Strip(f.ref));
      Some(Row(cname, typ, v, NormalizeUnits(f.unit), ref, "", StatusFrom(v, ref), Targeted, line))
    else None
  }

  /** The row for the alias span [start, end). */
  function TargetRow(text: string, name: string, start: nat, end: nat): Option<Row>
    requires start <= end <= |text|
  {
    RowFrom(name, FieldsOf(SidesOf(text, start, end)), text[start..end])
  }

  lemma RowFromWhen(name: string, f: Fields, line: string)
    ensures var r := RowFrom(name, f, line);
      && (r.Some? <==> CleanName(name, f.unit).0 != [] && f.val != [])
      && (r.Some? ==>
            && r.value.line == line && r.value.source == Targeted && r.value.flag == "" && !r.value.value.NoValue?
            && (r.value.analyte, r.value.subtype) == CleanName(name, f.unit)
            && r.value.ref == InterpretRef(Strip(f.ref)) && r.value.status == StatusFrom(r.value.value, r.value.ref))
  {
    var cn := CleanName(name, f.unit);
    var v := ReadValue(f.val);
    assert v.NoValue? <==> f.val == [];
    if cn.0 != [] && !v.NoValue? {
      var ref := InterpretRef(Strip(f.ref));
      assert RowFrom(name, f, line) == Some(Row(cn.0, cn.1, v, NormalizeUnits(f.unit), ref, "", StatusFrom(v, ref), Targeted, line));
    } else {
      assert RowFrom(name, f, line) == None;
    }
  }

  /**
   * A row is emitted exactly when the cleaned name is not empty and some side
   * holds a number or a qualitative word; its Linija is the alias span and its
   * Izvor is "ciljani".
   */
  lemma TargetRowWhen(text: string, name: string, start: nat, end: nat)
    requires start <= end <= |text|
    ensures var sides := SideList(SidesOf(text, start, end));
      var f := FieldsOf(SidesOf(text, start, end));
      var r := TargetRow(text, name, start, end);
      && (r.Some? <==> CleanName(name, f.unit).0 != [] && exists k :: 0 <= k < |sides| && Search(sides[k], ValueLenAt).Some?)
      && (r.Some? ==>
            && r.value.line == text[start..end] && r.value.source == Targeted && r.value.flag == ""
            && (r.value.analyte, r.value.subtype) == CleanName(name, f.unit)
            && r.value.ref == InterpretRef(Strip(f.ref)) && r.value.status == StatusFrom(r.value.value, r.value.ref))
  {
    FoundIsNonEmpty(SideList(SidesOf(text, start, end)), ValueLenAt);
    RowFromWhen(name, FieldsOf(SidesOf(text, start, end)), text[start..end]);
  }

  /** The body of the `finditer` loop: the side loop, then the interpretation of the fields. */
  method ReadHit(text: string, name: string, start: nat, end: nat) returns (r: Option<Row>)
    requires start <= end <= |text|
    ensures r == TargetRow(text, name, start, end)
  {
    var f := SearchSides(SidesOf(text, start, end));
    var cname, typ := CleanNameAndType(name, f.unit);
    var v := ReadValue(f.val);
    var ref := InterpretRef(Strip(f.ref));
    if cname != [] && !v.NoValue? {
      r := Some(Row(cname, typ, v, NormalizeUnits(f.unit), ref, "", StatusFrom(v, ref), Targeted, text[start..end]));
    } else {
      r := None;
    }
  }

  /** Spans inside the text. */
  predicate SpansIn(hs: seq<(nat, nat)>, text: string)
  {
    forall k :: 0 <= k < |hs| ==> hs[k].0 <= hs[k].1 <= |text|
  }

  /** The alias spans of a catalog entry in the text, in `finditer` order. */
  function EntryHits(text: string, e: CatalogEntry): (hs: seq<(nat, nat)>)
    ensures SpansIn(hs, text)
  {
    AliasHits(Lower(text), LowerAll(e.aliases), 0)
  }

  /** The row, if any, of each span of the analyte `name`, in order. */
  function HitOptions(text: string, name: string, hs: seq<(nat, nat)>): (r: seq<Option<Row>>)
    requires SpansIn(hs, text)
    ensures |r| == |hs|
    ensures forall k :: 0 <= k < |hs| ==> r[k] == TargetRow(text, name, hs[k].0, hs[k].1)
  {
    seq(|hs|, k requires 0 <= k < |hs| => TargetRow(text, name, hs[k].0, hs[k].1))
  }

  /** The rows one catalog entry contributes. */
  function EntryRows(text: string, e: CatalogEntry): seq<Row>
  {
    Present(HitOptions(text, e.name, EntryHits(text, e)))
  }

  /** Every row `targeted_parse` collects, entry by entry, before de-duplication. */
  function CatalogRows(text: string, catalog: seq<CatalogEntry>): seq<Row>
  {
    Concat(EntryRowLists(text, catalog))
  }

  /** The rows of each entry of the catalog. */
  function EntryRowLists(text: string, catalog: seq<CatalogEntry>): (r: seq<seq<Row>>)
    ensures |r| == |catalog|
    ensures forall i :: 0 <= i < |catalog| ==> r[i] == EntryRows(text, catalog[i])
  {
    seq(|catalog|, i requires 0 <= i < |catalog| => EntryRows(text, catalog[i]))
  }

  /** The lists one after the other. */
  function Concat(lists: seq<seq<Row>>): seq<Row>
  {
    if lists == [] then []
    else Concat(lists[..|lists| - 1]) + lists[|lists| - 1]
  }

  /** `for m in alias_pat.finditer(text)` for one entry: the row of each span, appended in order. */
  method AppendEntryRows(rows: seq<Row>, text: string, e: CatalogEntry) returns (out: seq<Row>)
    ensures out == rows + EntryRows(text, e)
  {
    var hs := EntryHits(text, e);
    ghost var opts := HitOptions(text, e.name, hs);
    out := rows;
    PresentSnoc(opts, 0);
    for j := 0 to |hs|
      invariant out == rows + Present(opts[..j])
    {
      var r := ReadHit(text, e.name, hs[j].0, hs[j].1);
      assert r == opts[j];
      PresentSnoc(opts, j + 1);
      AppendStep(rows, Present(opts[..j]), RowsOf(r), Present(opts[..j + 1]));
      PushRow(out, r);
      if r.Some? {
        out := out + [r.value];
      }
    }
    assert opts[..|hs|] == opts;
  }

  lemma ConcatSnoc(lists: seq<seq<Row>>, i: nat)
    requires i <= |lists|
    ensures i == 0 ==> Concat(lists[..i]) == []
    ensures i > 0 ==> Concat(lists[..i]) == Concat(lists[..i - 1]) + lists[i - 1]
  {
    if i > 0 {
      assert lists[..i][..i - 1] == lists[..i - 1];
    } else {
      assert lists[..i] == [];
    }
  }

  // ---------------------------------------------------------------- targeted_parse as written

  /**
   * The interpretation of the fields as written: the reference is read, and a
   * range split into exactly two pieces, before the name and the value are
   * checked, so a minus-signed range raises whatever the name and the value.
   */
  function RowFromAsWritten(name: string, f: Fields, line: string): Outcome<Option<Row>>
  {
    var (cname, typ) := CleanName(name, f.unit);
    var v := ReadValue(f.val);
    match InterpretRefAsWritten(Strip(f.ref))
    case Crash => Crash
    case Ok(ref) =>
      if cname != [] && !v.NoValue? then
        Ok(Some(Row(cname, typ, v, NormalizeUnits(f.unit), ref, "", StatusFrom(v, ref), Targeted, line)))
      else Ok(None)
  }

  /** The body of the `finditer` loop as written. */
  function TargetRowAsWritten(text: string, name: string, start: nat, end: nat): Outcome<Option<Row>>
    requires start <= end <= |text|
  {
    RowFromAsWritten(name, FieldsOf(SidesOf(text, start, end)), text[start..end])
  }

  /** A span whose reference field, stripped, is a range with a minus-signed number. */
  predicate HitRaises(text: string, h: (nat, nat))
    requires h.0 <= h.1 <= |text|
  {
    MinusSignedRange(Strip(FieldsOf(SidesOf(text, h.0, h.1)).ref))
  }

  /**
   * Read as written, the fields raise exactly on a minus-signed range, with or
   * without a name and a value; otherwise they give the row `RowFrom` describes.
   */
  lemma RowFromAsWrittenAgrees(name: string, f: Fields, line: string)
    ensures RowFromAsWritten(name, f, line) == Crash <==> MinusSignedRange(Strip(f.ref))
    ensures RowFromAsWritten(name, f, line) != Crash ==> RowFromAsWritten(name, f, line) == Ok(RowFrom(name, f, line))
  {
    AsWrittenCrashesExactly(Strip(f.ref));
    if !MinusSignedRange(Strip(f.ref)) {
      AsWrittenAgrees(Strip(f.ref));
    }
  }

  /** A span raises exactly when its reference field is a minus-signed range; otherwise it gives `TargetRow`. */
  lemma TargetRowAsWrittenAgrees(text: string, name: string, start: nat, end: nat)
    requires start <= end <= |text|
    ensures TargetRowAsWritten(text, name, start, end) == Crash <==> HitRaises(text, (start, end))
    ensures TargetRowAsWritten(text, name, start, end) != Crash ==>
      TargetRowAsWritten(text, name, start, end) == Ok(TargetRow(text, name, start, end))
  {
    RowFromAsWrittenAgrees(name, FieldsOf(SidesOf(text, start, end)), text[start..end]);
  }

  /**
   * A span with no value near it and the reference "-2-2": the code as written
   * raises, where the intended reading only finds no row.
   */
  lemma NoValueStillRaises()
    ensures RowFromAsWritten("Kalij", Fields("", "", "-2-2"), "K") == Crash
    ensures RowFrom("Kalij", Fields("", "", "-2-2"), "K") == None
  {
    StripStripped("-2-2");
    MinusTwoToTwo();
    RowFromAsWrittenAgrees("Kalij", Fields("", "", "-2-2"), "K");
    RowFromWhen("Kalij", Fields("", "", "-2-2"), "K");
  }

  /** Some span among the first j raises. */
  predicate SomeHitRaises(text: string, hs: seq<(nat, nat)>, j: nat)
    requires SpansIn(hs, text) && j <= |hs|
  {
    j > 0 && (SomeHitRaises(text, hs, j - 1) || HitRaises(text, hs[j - 1]))
  }

  /** The first j spans of an entry read one after the other, as written. */
  function HitRowsAsWritten(text: string, name: string, hs: seq<(nat, nat)>, j: nat): Outcome<seq<Row>>
    requires SpansIn(hs, text) && j <= |hs|
  {
    if j == 0 then Ok([])
    else Then(HitRowsAsWritten(text, name, hs, j - 1), RowsOutcome(TargetRowAsWritten(text, name, hs[j - 1].0, hs[j - 1].1)))
  }

  lemma {:induction false} HitRowsAsWrittenAgrees(text: string, name: string, hs: seq<(nat, nat)>, j: nat)
    requires SpansIn(hs, text) && j <= |hs|
    ensures HitRowsAsWritten(text, name, hs, j) == Crash <==> SomeHitRaises(text, hs, j)
    ensures HitRowsAsWritten(text, name, hs, j) != Crash ==>
      HitRowsAsWritten(text, name, hs, j) == Ok(Present(HitOptions(text, name, hs)[..j]))
  {
    var opts := HitOptions(text, name, hs);
    PresentSnoc(opts, j);
    if j > 0 {
      var h := hs[j - 1];
      HitRowsAsWrittenAgrees(text, name, hs, j - 1);
      TargetRowAsWrittenAgrees(text, name, h.0, h.1);
      RowsOutcomeAgrees(TargetRowAsWritten(text, name, h.0, h.1), opts[j - 1], HitRaises(text, h));
      ThenAgrees(HitRowsAsWritten(text, name, hs, j - 1), RowsOutcome(TargetRowAsWritten(text, name, h.0, h.1)),
        Present(opts[..j - 1]), RowsOf(opts[j - 1]), SomeHitRaises(text, hs, j - 1), HitRaises(text, h));
    }
  }

  /** The spans of one entry, as written: they raise exactly when one of them does, and give `EntryRows` otherwise. */
  lemma EntryRowsAsWrittenAgrees(text: string, e: CatalogEntry)
    ensures var hs := EntryHits(text, e);
      && (HitRowsAsWritten(text, e.name, hs, |hs|) == Crash <==> SomeHitRaises(text, hs, |hs|))
      && (HitRowsAsWritten(text, e.name, hs, |hs|) != Crash ==> HitRowsAsWritten(text, e.name, hs, |hs|) == Ok(EntryRows(text, e)))
  {
    var hs := EntryHits(text, e);
    HitRowsAsWrittenAgrees(text, e.name, hs, |hs|);
    assert HitOptions(text, e.name, hs)[..|hs|] == HitOptions(text, e.name, hs);
  }

  /** Some entry of the catalog has a raising span, the last one or one before it. */
  predicate SomeEntryRaises(text: string, catalog: seq<CatalogEntry>)
  {
    catalog != [] && (SomeEntryRaises(text, catalog[..|catalog| - 1])
                      || var hs := EntryHits(text, catalog[|catalog| - 1]); SomeHitRaises(text, hs, |hs|))
  }

  /** The entries read one after the other, as written. */
  function CatalogRowsAsWritten(text: string, catalog: seq<CatalogEntry>): Outcome<seq<Row>>
  {
    if catalog == [] then Ok([])
    else
      var e := catalog[|catalog| - 1];
      var hs := EntryHits(text, e);
      Then(CatalogRowsAsWritten(text, catalog[..|catalog| - 1]), HitRowsAsWritten(text, e.name, hs, |hs|))
  }

  lemma CatalogRowsSnoc(text: string, catalog: seq<CatalogEntry>)
    requires catalog != []
    ensures CatalogRows(text, catalog) == CatalogRows(text, catalog[..|catalog| - 1]) + EntryRows(text, catalog[|catalog| - 1])
  {
    var lists := EntryRowLists(text, catalog);
    assert EntryRowLists(text, catalog[..|catalog| - 1]) == lists[..|catalog| - 1];
    ConcatSnoc(lists, |catalog|);
    assert lists[..|catalog|] == lists;
  }

  lemma {:induction false} CatalogRowsAsWrittenAgrees(text: string, catalog: seq<CatalogEntry>)
    ensures CatalogRowsAsWritten(text, catalog) == Crash <==> SomeEntryRaises(text, catalog)
    ensures CatalogRowsAsWritten(text, catalog) != Crash ==> CatalogRowsAsWritten(text, catalog) == Ok(CatalogRows(text, catalog))
    decreases |catalog|
  {
    if catalog != [] {
      var front, e := catalog[..|catalog| - 1], catalog[|catalog| - 1];
      var hs := EntryHits(text, e);
      CatalogRowsAsWrittenAgrees(text, front);
      EntryRowsAsWrittenAgrees(text, e);
      ThenAgrees(CatalogRowsAsWritten(text, front), HitRowsAsWritten(text, e.name, hs, |hs|),
        CatalogRows(text, front), EntryRows(text, e), SomeEntryRaises(text, front), SomeHitRaises(text, hs, |hs|));
      CatalogRowsSnoc(text, catalog);
    }
  }

  /** `targeted_parse` as written: it raises when any span it reads raises, otherwise it returns the table. */
  function TargetedParseAsWritten(text: string, catalog: seq<CatalogEntry>): Outcome<seq<Row>>
  {
    match CatalogRowsAsWritten(text, catalog)
    case Crash => Crash
    case Ok(rows) => Ok(TargetTable(rows))
  }

  /**
   * `targeted_parse` as written raises exactly when some alias span of some
   * entry has a minus-signed range as its reference field, whether or not that
   * span would give a row; otherwise it returns the table `TargetedParse` builds.
   */
  lemma TargetedParseAsWrittenAgrees(text: string, catalog: seq<CatalogEntry>)
    ensures TargetedParseAsWritten(text, catalog) == Crash <==> SomeEntryRaises(text, catalog)
    ensures TargetedParseAsWritten(text, catalog) != Crash ==>
      TargetedParseAsWritten(text, catalog) == Ok(TargetTable(CatalogRows(text, catalog)))
  {
    CatalogRowsAsWrittenAgrees(text, catalog);
  }

  // ---------------------------------------------------------------- de-duplication

  /** A range scores 3, a one-sided bound 2, a qualitative or missing reference 1. */
  lemma InfoScoreOfRef(r: Row, raw: string)
    requires r.ref == InterpretRef(raw)
    ensures InfoScore(r) == if IsRangePair(raw) then 3 else if IsBound(raw, '<') || IsBound(raw, '>') then 2 else 1
  {
    RefFormsDisjoint(raw);
  }

  /** The de-duplication key Analit. */
  function TargetKey(r: Row): string
  {
    r.analyte
  }

  /** The sort order within one Analit: `_info_score` descending. */
  predicate ScoreLe(a: Row, b: Row)
  {
    InfoScore(a) >= InfoScore(b)
  }

  lemma ScoreLeTotal()
    ensures TotalPreorder(ScoreLe)
  {
  }

  /** The table `targeted_parse` returns, from the rows it collected. */
  function TargetTable(rows: seq<Row>): seq<Row>
  {
    KeepBest(rows, TargetKey, ScoreLe)
  }

  /**
   * `targeted_parse` with the catalog as a parameter: for each entry, in catalog
   * order, the row of each alias span; then one row per Analit.
   */
  method TargetedParse(text: string, catalog: seq<CatalogEntry>) returns (table: seq<Row>)
    ensures table == TargetTable(CatalogRows(text, catalog))
    ensures UniqueKeys(table, TargetKey)
    ensures Keys(table, TargetKey) == Keys(CatalogRows(text, catalog), TargetKey)
    ensures forall k :: 0 <= k < |table| ==> table[k] in CatalogRows(text, catalog)
  {
    ghost var lists := EntryRowLists(text, catalog);
    var rows: seq<Row> := [];
    ConcatSnoc(lists, 0);
    for i := 0 to |catalog|
      invariant rows == Concat(lists[..i])
    {
      rows := AppendEntryRows(rows, text, catalog[i]);
      ConcatSnoc(lists, i + 1);
    }
    assert lists[..|catalog|] == lists;
    table := TargetTable(rows);
  }

  /** The line is, up to case, one of the catalog's aliases. */
  predicate NamesAlias(line: string, catalog: seq<CatalogEntry>)
  {
    exists k, j :: 0 <= k < |catalog| && 0 <= j < |catalog[k].aliases| && Lower(line) == Lower(catalog[k].aliases[j])
  }

  /** What every row of `targeted_parse` satisfies. */
  predicate GoodTargetRow(r: Row, catalog: seq<CatalogEntry>)
  {
    && r.source == Targeted && r.analyte != [] && !r.value.NoValue? && r.flag == ""
    && r.status == StatusFrom(r.value, r.ref) && NamesAlias(r.line, catalog)
  }

  predicate AllGoodTarget(rows: seq<Row>, catalog: seq<CatalogEntry>)
  {
    forall k :: 0 <= k < |rows| ==> GoodTargetRow(rows[k], catalog)
  }

  lemma AllGoodTargetConcat(a: seq<Row>, b: seq<Row>, catalog: seq<CatalogEntry>)
    requires AllGoodTarget(a, catalog) && AllGoodTarget(b, catalog)
    ensures AllGoodTarget(a + b, catalog)
  {
    forall k | 0 <= k < |a + b|
      ensures GoodTargetRow((a + b)[k], catalog)
    {
      if k < |a| {
        assert (a + b)[k] == a[k];
      } else {
        assert (a + b)[k] == b[k - |a|];
      }
    }
  }

  /** Each span `finditer` reports is, up to case, one of the entry's aliases. */
  lemma SpanIsAlias(text: string, catalog: seq<CatalogEntry>, i: nat, idx: nat)
    requires i < |catalog| && idx < |EntryHits(text, catalog[i])|
    ensures var h := EntryHits(text, catalog[i])[idx]; NamesAlias(text[h.0..h.1], catalog)
  {
    var e := catalog[i];
    var low := Lower(text);
    var aliases := LowerAll(e.aliases);
    var h := EntryHits(text, e)[idx];
    AliasHitsMatch(low, aliases, 0, idx);
    AliasLenAtFirst(low, aliases, h.0);
    var j :| 0 <= j < |aliases| && AliasAt(low, aliases[j], h.0) && AliasLenAt(low, aliases, h.0) == |aliases[j]|;
    assert low[h.0..h.1] == Lower(e.aliases[j]);
    LowerSlice(text, h.0, h.1);
    assert Lower(text[h.0..h.1]) == Lower(catalog[i].aliases[j]);
  }

  /** The row of one span is good. */
  lemma HitRowGood(text: string, catalog: seq<CatalogEntry>, i: nat, idx: nat)
    requires i < |catalog| && idx < |EntryHits(text, catalog[i])|
    ensures var h := EntryHits(text, catalog[i])[idx];
      AllGoodTarget(RowsOf(TargetRow(text, catalog[i].name, h.0, h.1)), catalog)
  {
    var h := EntryHits(text, catalog[i])[idx];
    RowFromWhen(catalog[i].name, FieldsOf(SidesOf(text, h.0, h.1)), text[h.0..h.1]);
    SpanIsAlias(text, catalog, i, idx);
  }

  lemma {:induction false} PresentGood(opts: seq<Option<Row>>, catalog: seq<CatalogEntry>)
    requires forall k :: 0 <= k < |opts| ==> AllGoodTarget(RowsOf(opts[k]), catalog)
    ensures AllGoodTarget(Present(opts), catalog)
  {
    if opts != [] {
      PresentGood(opts[..|opts| - 1], catalog);
      AllGoodTargetConcat(Present(opts[..|opts| - 1]), RowsOf(opts[|opts| - 1]), catalog);
    }
  }

  lemma EntryRowsGood(text: string, catalog: seq<CatalogEntry>, i: nat)
    requires i < |catalog|
    ensures AllGoodTarget(EntryRows(text, catalog[i]), catalog)
  {
    var hs := EntryHits(text, catalog[i]);
    var opts := HitOptions(text, catalog[i].name, hs);
    forall k | 0 <= k < |opts|
      ensures AllGoodTarget(RowsOf(opts[k]), catalog)
    {
      HitRowGood(text, catalog, i, k);
    }
    PresentGood(opts, catalog);
  }

  lemma {:induction false} ConcatGood(lists: seq<seq<Row>>, catalog: seq<CatalogEntry>)
    requires forall i :: 0 <= i < |lists| ==> AllGoodTarget(lists[i], catalog)
    ensures AllGoodTarget(Concat(lists), catalog)
  {
    if lists != [] {
      ConcatGood(lists[..|lists| - 1], catalog);
      AllGoodTargetConcat(Concat(lists[..|lists| - 1]), lists[|lists| - 1], catalog);
    }
  }

  lemma CatalogRowsGood(text: string, catalog: seq<CatalogEntry>)
    ensures AllGoodTarget(CatalogRows(text, catalog), catalog)
  {
    var lists := EntryRowLists(text, catalog);
    forall i | 0 <= i < |lists|
      ensures AllGoodTarget(lists[i], catalog)
    {
      EntryRowsGood(text, catalog, i);
    }
    ConcatGood(lists, catalog);
  }

  /** Every kept row has a value, a non-empty name, source "ciljani" and an alias of the catalog as Linija. */
  lemma TargetTableGood(text: string, catalog: seq<CatalogEntry>)
    ensures AllGoodTarget(TargetTable(CatalogRows(text, catalog)), catalog)
  {
    var rows := CatalogRows(text, catalog);
    var table := TargetTable(rows);
    CatalogRowsGood(text, catalog);
    forall j | 0 <= j < |table|
      ensures GoodTargetRow(table[j], catalog)
    {
      var idx :| 0 <= idx < |rows| && rows[idx] == table[j];
    }
  }

  /**
   * The table has at most one row per Analit, and the kept row has the highest
   * `_info_score` among the collected rows of its Analit.
   */
  lemma TargetTableBest(rows: seq<Row>)
    ensures var table := TargetTable(rows);
      && UniqueKeys(table, TargetKey)
      && (forall j, x :: 0 <= j < |table| && x in rows && x.analyte == table[j].analyte ==> InfoScore(table[j]) >= InfoScore(x))
  {
    ScoreLeTotal();
    KeepBestMinimal(rows, TargetKey, ScoreLe);
  }

  // ---------------------------------------------------------------- merge_auto_target

  /** The auto rows whose (Analit, Tip) is not among the given keys, in order. */
  function AbsentRows(auto: seq<Row>, keys: set<(string, Subtype)>): (r: seq<Row>)
    ensures forall x :: x in r <==> x in auto && AutoKey(x) !in keys
  {
    if auto == [] then []
    else
      var last := auto[|auto| - 1];
      AbsentRows(auto[..|auto| - 1], keys) + (if AutoKey(last) in keys then [] else [last])
  }

  /**
   * `merge_auto_target` on the two tables: with both non-empty, the targeted rows
   * followed by the auto rows whose (Analit, Tip) the targeted table lacks;
   * otherwise whichever table is non-empty (the auto one when both are empty).
   */
  function Merge(auto: seq<Row>, target: seq<Row>): seq<Row>
  {
    if auto != [] && target != [] then target + AbsentRows(auto, Keys(target, AutoKey))
    else if target != [] then target
    else auto
  }

  /** Every targeted row is kept, first and in order. */
  lemma MergeKeepsTarget(auto: seq<Row>, target: seq<Row>)
    ensures |target| <= |Merge(auto, target)| && Merge(auto, target)[..|target|] == target
  {
  }

  /**
   * An auto row that is not itself a targeted row is in the result exactly when
   * no targeted row has its (Analit, Tip).
   */
  lemma MergeAutoRow(auto: seq<Row>, target: seq<Row>, x: Row)
    requires x in auto && x !in target
    ensures x in Merge(auto, target) <==> AutoKey(x) !in Keys(target, AutoKey)
  {
    if target == [] {
      assert Keys(target, AutoKey) == {};
    }
  }

  /** The two fallbacks are the general case: the result is always the targeted rows plus the unmatched auto rows. */
  lemma MergeUniform(auto: seq<Row>, target: seq<Row>)
    ensures Merge(auto, target) == target + AbsentRows(auto, Keys(target, AutoKey))
  {
    if target == [] {
      assert Keys(target, AutoKey) == {};
      AbsentNone(auto);
    } else if auto == [] {
      assert target + [] == target;
    }
  }

  lemma {:induction false} AbsentNone(auto: seq<Row>)
    ensures AbsentRows(auto, {}) == auto
  {
    if auto != [] {
      AbsentNone(auto[..|auto| - 1]);
      assert auto[..|auto| - 1] + [auto[|auto| - 1]] == auto;
    }
  }

  /** If either side is empty the result is the other side. */
  lemma MergeEmptySide(auto: seq<Row>, target: seq<Row>)
    ensures auto == [] ==> Merge(auto, target) == target
    ensures target == [] ==> Merge(auto, target) == auto
  {
  }

  /**
   * `merge_auto_target`: the auto table (line patterns given by `m`) and the
   * targeted table (analytes from `catalog`) of the text, merged.
   */
  method MergeAutoTarget(text: string, m: Matcher, catalog: seq<CatalogEntry>) returns (table: seq<Row>)
    ensures table == Merge(AutoTable(AutoRows(text, m)), TargetTable(CatalogRows(text, catalog)))
  {
    var auto := AutoParse(text, m);
    var target := TargetedParse(text, catalog);
    table := Merge(auto, target);
  }

  /** `merge_auto_target` as written: `auto_parse` runs first, then `targeted_parse`; a raise in either is its raise. */
  function MergeAutoTargetAsWritten(text: string, m: Matcher, catalog: seq<CatalogEntry>): Outcome<seq<Row>>
  {
    match AutoParseAsWritten(text, m)
    case Crash => Crash
    case Ok(auto) =>
      match TargetedParseAsWritten(text, catalog)
      case Crash => Crash
      case Ok(target) => Ok(Merge(auto, target))
  }

  /**
   * `merge_auto_target` as written raises exactly when either parser does, and
   * otherwise returns the merge `MergeAutoTarget` computes.
   */
  lemma MergeAutoTargetAsWrittenAgrees(text: string, m: Matcher, catalog: seq<CatalogEntry>)
    ensures MergeAutoTargetAsWritten(text, m, catalog) == Crash <==>
      SomeLineRaises(CandidateLines(SplitLines(text)), m) || SomeEntryRaises(text, catalog)
    ensures MergeAutoTargetAsWritten(text, m, catalog) != Crash ==>
      MergeAutoTargetAsWritten(text, m, catalog) == Ok(Merge(AutoTable(AutoRows(text, m)), TargetTable(CatalogRows(text, catalog))))
  {
    AutoParseAsWrittenAgrees(text, m);
    TargetedParseAsWrittenAgrees(text, catalog);
  }
}
