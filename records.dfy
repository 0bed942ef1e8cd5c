/**
 * The result row shared by app_v2 and app_v3 (the twelve columns Analit, Tip,
 * Vrijednost, Jedinica, Ref_low, Ref_high, Ref_tip, Ref_kval, Flag, Status,
 * Izvor, Linija) and the status rule both apps use (`status_from` in app_v2,
 * `LabResultParser.calculate_status` in app_v3).
 */
module Records {
  import opened Wrappers

  /** Vrijednost: a number, a qualitative word, or nothing (Python `None`). */
  datatype Value = Num(n: real) | Qual(q: string) | NoValue

  /**
   * Vrijednost as app_v3 and app_v4 fill it: the number when there is one,
   * else the qualitative text, else nothing.
   */
  function ValueOf(num: Option<real>, qual: Option<string>): Value
  {
    if num.Some? then Num(num.value) else if qual.Some? then Qual(qual.value) else NoValue
  }

  /** Tip: "" / "%" / "aps". */
  datatype Subtype = NoSubtype | Percent | Absolute

  /** Ref_tip: "range" / "<" / ">" / "qual" / "none". */
  datatype RefKind = RangeRef | LessRef | GreaterRef | QualRef | NoRef

  /** Ref_low, Ref_high, Ref_tip and Ref_kval. */
  datatype RefInfo = RefInfo(low: Option<real>, high: Option<real>, kind: RefKind, qual: Option<string>)

  /** The reference "none" with every bound null. */
  const NoReference := RefInfo(None, None, NoRef, None)

  /** Status: "⬇️ ispod", "⬆️ iznad", "✅ u referentnom", "⚠️ odstupanje", "". */
  datatype Status = Below | Above | Within | Deviation | Blank

  /** Izvor: "auto", "ciljani", "smart". */
  datatype Source = Auto | Targeted | Smart

  datatype Row = Row(
    analyte: string,
    subtype: Subtype,
    value: Value,
    unit: string,
    ref: RefInfo,
    flag: string,
    status: Status,
    source: Source,
    line: string)

  /**
   * The status of a value against a reference: numeric values are compared with
   * the bounds the reference kind uses, qualitative values with the qualitative
   * reference word; everything else has no status.
   */
  function StatusFrom(value: Value, ref: RefInfo): (s: Status)
    ensures s == Deviation <==> value.Qual? && ref.qual.Some? && value.q != ref.qual.value
    ensures value.NoValue? ==> s == Blank
    ensures value.Num? && ref.kind == QualRef ==> s == Blank
  {
    match value
    case Num(v) =>
      if ref.kind == RangeRef && ref.low.Some? && ref.high.Some? then
        if v < ref.low.value then Below
        else if v > ref.high.value then Above
        else Within
      else if ref.kind == LessRef && ref.high.Some? then
        if v < ref.high.value then Within else Above
      else if ref.kind == GreaterRef && ref.low.Some? then
        if v > ref.low.value then Within else Below
      else Blank
    case Qual(q) =>
      if ref.qual.Some? then (if q == ref.qual.value then Within else Deviation) else Blank
    case NoValue => Blank
  }

  /** Below, within, above, in that order. */
  function Rank(s: Status): int
  {
    match s
    case Below => 0
    case Within => 1
    case Above => 2
    case _ => 1
  }

  /** A range: within exactly on the closed interval, below under it, above over it. */
  lemma RangeStatus(v: real, lo: real, hi: real)
    requires lo <= hi
    ensures StatusFrom(Num(v), RefInfo(Some(lo), Some(hi), RangeRef, None)) == Within <==> lo <= v <= hi
    ensures StatusFrom(Num(v), RefInfo(Some(lo), Some(hi), RangeRef, None)) == Below <==> v < lo
    ensures StatusFrom(Num(v), RefInfo(Some(lo), Some(hi), RangeRef, None)) == Above <==> hi < v
  {
  }

  /** For a fixed numeric reference a larger value never gets a lower status. */
  lemma StatusMonotone(v: real, w: real, ref: RefInfo)
    requires v <= w
    requires ref.kind == RangeRef && ref.low.Some? && ref.high.Some? ==> ref.low.value <= ref.high.value
    ensures Rank(StatusFrom(Num(v), ref)) <= Rank(StatusFrom(Num(w), ref))
  {
  }

  /** One-sided references: `<h` is met strictly below h, `>l` strictly above l. */
  lemma OneSidedStatus(v: real, b: real)
    ensures StatusFrom(Num(v), RefInfo(None, Some(b), LessRef, None)) == (if v < b then Within else Above)
    ensures StatusFrom(Num(v), RefInfo(Some(b), None, GreaterRef, None)) == (if v > b then Within else Below)
  {
  }

  // ---------------------------------------------------------------- lists of rows

  function RowsOf<T>(r: Option<T>): seq<T>
  {
    if r.Some? then [r.value] else []
  }

  /** `if row: rows.append(row)` appends the rows of an optional row. */
  lemma PushRow<T>(acc: seq<T>, r: Option<T>)
    ensures acc + RowsOf(r) == if r.Some? then acc + [r.value] else acc
  {
    if r.None? {
      assert acc + [] == acc;
    }
  }

  /** Appending one step's rows to an accumulated list. */
  lemma AppendStep(rows: seq<Row>, done: seq<Row>, step: seq<Row>, next: seq<Row>)
    requires next == done + step
    ensures (rows + done) + step == rows + next
  {
  }

  /** The rows that are present, in order (`if row: rows.append(row)` over a sequence). */
  function Present<T>(opts: seq<Option<T>>): seq<T>
  {
    if opts == [] then []
    else Present(opts[..|opts| - 1]) + RowsOf(opts[|opts| - 1])
  }

  lemma PresentSnoc<T>(opts: seq<Option<T>>, j: nat)
    requires j <= |opts|
    ensures j == 0 ==> Present(opts[..j]) == []
    ensures j > 0 ==> Present(opts[..j]) == Present(opts[..j - 1]) + RowsOf(opts[j - 1])
  {
    if j > 0 {
      assert opts[..j][..j - 1] == opts[..j - 1];
    } else {
      assert opts[..j] == [];
    }
  }

  /**
   * How many of Ref_low, Ref_high and Ref_tip are not null (`_info_score` of
   * app_v2's targeted parser, `_priority` of app_v3's `parse_text`). Ref_tip is
   * always a string, so the count is one more than the number of bounds.
   */
  function InfoScore(r: Row): nat
  {
    1 + (if r.ref.low.Some? then 1 else 0) + (if r.ref.high.Some? then 1 else 0)
  }

  /** A row is in Present(opts) exactly when one of the options holds it. */
  lemma {:induction false} PresentMembers<T>(opts: seq<Option<T>>, x: T)
    ensures x in Present(opts) <==> exists k :: 0 <= k < |opts| && opts[k] == Some(x)
    decreases |opts|
  {
    if opts != [] {
      var front := opts[..|opts| - 1];
      PresentMembers(front, x);
      if exists k :: 0 <= k < |front| && front[k] == Some(x) {
        var k :| 0 <= k < |front| && front[k] == Some(x);
        assert opts[k] == Some(x);
      }
      if exists k :: 0 <= k < |opts| && opts[k] == Some(x) {
        var k :| 0 <= k < |opts| && opts[k] == Some(x);
        if k < |front| {
          assert front[k] == Some(x);
        }
      }
    }
  }

  // ---------------------------------------------------------------- steps that may raise

  /** The rows an optional row contributes, when producing it did not raise. */
  function RowsOutcome<T>(o: Outcome<Option<T>>): Outcome<seq<T>>
  {
    match o
    case Crash => Crash
    case Ok(r) => Ok(RowsOf(r))
  }

  /** Two steps one after the other: a raise in either is a raise of both, otherwise the rows in order. */
  function Then<T>(a: Outcome<seq<T>>, b: Outcome<seq<T>>): Outcome<seq<T>>
  {
    if a.Crash? || b.Crash? then Crash else Ok(a.value + b.value)
  }

  /** An optional row that raises exactly when c, and is r otherwise, contributes RowsOf(r) unless c. */
  lemma RowsOutcomeAgrees<T>(o: Outcome<Option<T>>, r: Option<T>, c: bool)
    requires o == Crash <==> c
    requires o != Crash ==> o == Ok(r)
    ensures RowsOutcome(o) == Crash <==> c
    ensures RowsOutcome(o) != Crash ==> RowsOutcome(o) == Ok(RowsOf(r))
  {
  }

  /** Steps that raise exactly when ca and cb, giving ra and rb otherwise, raise together exactly when either does. */
  lemma ThenAgrees<T>(a: Outcome<seq<T>>, b: Outcome<seq<T>>, ra: seq<T>, rb: seq<T>, ca: bool, cb: bool)
    requires a == Crash <==> ca
    requires a != Crash ==> a == Ok(ra)
    requires b == Crash <==> cb
    requires b != Crash ==> b == Ok(rb)
    ensures Then(a, b) == Crash <==> ca || cb
    ensures Then(a, b) != Crash ==> Then(a, b) == Ok(ra + rb)
  {
  }
}
