/**
 * Numbers as the extraction code reads them. `NUM` is the regex
 * `[-+]?\d+(?:[.,]\d+)?` shared by app_v2 and app_v3; `ParseFloat` is
 * `float(s.replace(",", "."))` restricted to plain decimal literals
 * (`d2f` in app_v2, the `try: float(...)` branches of app_v3 and app_v4).
 * Values are exact reals: the source only compares them with `<` and `>`.
 */
module Decimal {
  import opened Wrappers

  predicate IsDigit(c: char)
  {
    '0' <= c <= '9'
  }

  predicate AllDigits(s: string)
  {
    forall i :: 0 <= i < |s| ==> IsDigit(s[i])
  }

  function DigitValue(c: char): nat
    requires IsDigit(c)
  {
    c as int - '0' as int
  }

  /** The value of a string of decimal digits ("" reads as 0). */
  function DigitsValue(s: string): nat
    requires AllDigits(s)
    decreases |s|
  {
    if s == [] then 0 else DigitsValue(s[..|s| - 1]) * 10 + DigitValue(s[|s| - 1])
  }

  /** The value of the digits after a decimal point: 0.d1d2... = (d1 + 0.d2...) / 10. */
  function FracValue(s: string): real
    requires AllDigits(s)
    decreases |s|
  {
    if s == [] then 0.0 else (DigitValue(s[0]) as real + FracValue(s[1..])) / 10.0
  }

  /** Number of digits starting at i. */
  function DigitRun(s: string, i: nat): (n: nat)
    ensures n > 0 ==> i + n <= |s|
    ensures forall k :: i <= k < i + n ==> k < |s| && IsDigit(s[k])
    ensures i + n < |s| ==> !IsDigit(s[i + n])
    decreases |s| - i
  {
    if i < |s| && IsDigit(s[i]) then 1 + DigitRun(s, i + 1) else 0
  }

  /** 1 when an optional sign `[-+]` stands at i. */
  function SignLen(s: string, i: nat): nat
  {
    if i < |s| && (s[i] == '-' || s[i] == '+') then 1 else 0
  }

  predicate IsSeparator(c: char)
  {
    c == '.' || c == ','
  }

  /** The whole of t is a `NUM`: sign, digits, and optionally `.` or `,` followed by digits. */
  predicate IsNum(t: string)
  {
    var st := SignLen(t, 0);
    var d := DigitRun(t, st);
    d > 0 && (st + d == |t| || FractionAt(t, st + d))
  }

  /** From e on, t is a separator followed by one or more digits. */
  predicate FractionAt(t: string, e: nat)
  {
    e + 1 < |t| && IsSeparator(t[e]) && AllDigits(t[e + 1..])
  }

  /** The value of a decimal with the given sign, whole digits and fractional digits. */
  function DecimalValue(negative: bool, whole: string, frac: string): real
    requires AllDigits(whole) && AllDigits(frac)
  {
    var v := DigitsValue(whole) as real + FracValue(frac);
    if negative then -v else v
  }

  /** The digits after the separator at e, "" when e is the end. */
  function FracDigits(t: string, e: nat): string
  {
    if e < |t| then t[e + 1..] else ""
  }

  /** The value a `NUM` denotes; the separator may be a dot or a comma. */
  function NumValue(t: string): real
    requires IsNum(t)
  {
    var st := SignLen(t, 0);
    var e := st + DigitRun(t, st);
    assert AllDigits(t[st..e]);
    DecimalValue(st == 1 && t[0] == '-', t[st..e], FracDigits(t, e))
  }

  /**
   * Length of the `NUM` match starting at i, 0 when there is none. The regex
   * has a single reading at a position (a shorter digit run would leave a digit
   * or separator where the rest of any pattern built on it needs something else),
   * so the greedy length is the match.
   */
  function NumLenAt(s: string, i: nat): (n: nat)
    ensures n > 0 ==> i + n <= |s|
  {
    var st := SignLen(s, i);
    var d := DigitRun(s, i + st);
    if d == 0 then 0
    else
      var e := i + st + d;
      if e + 1 < |s| && IsSeparator(s[e]) && IsDigit(s[e + 1]) then st + d + 1 + DigitRun(s, e + 1)
      else st + d
  }

  /** Digit runs read inside a slice are those of the whole string, cut at the slice end. */
  lemma {:induction false} DigitRunSlice(s: string, i: nat, e: nat, k: nat)
    requires i <= e <= |s| && i + k <= e
    ensures DigitRun(s[i..e], k) == if DigitRun(s, i + k) <= e - i - k then DigitRun(s, i + k) else e - i - k
    decreases e - i - k
  {
    if i + k < e && IsDigit(s[i + k]) {
      DigitRunSlice(s, i, e, k + 1);
    }
  }

  /** A digit run that ends inside the slice is read the same in the slice. */
  lemma RunInSlice(s: string, i: nat, e: nat, k: nat, r: nat)
    requires i + k + r <= e <= |s|
    requires DigitRun(s, i + k) == r
    ensures DigitRun(s[i..e], k) == r
  {
    DigitRunSlice(s, i, e, k);
  }

  /** The greedy match at i, when there is one, is a `NUM`. */
  lemma NumLenAtIsNum(s: string, i: nat)
    requires i <= |s| && NumLenAt(s, i) > 0
    ensures IsNum(s[i..i + NumLenAt(s, i)])
  {
    var st := SignLen(s, i);
    var d := DigitRun(s, i + st);
    NumSliceWhole(s, i);
    if st + d < NumLenAt(s, i) {
      NumSliceFraction(s, i);
    }
  }

  /** Sign and whole digits of the greedy match, read inside the matched slice. */
  lemma NumSliceWhole(s: string, i: nat)
    requires i <= |s| && NumLenAt(s, i) > 0
    ensures var t := s[i..i + NumLenAt(s, i)]; var st := SignLen(s, i);
      SignLen(t, 0) == st && DigitRun(t, st) == DigitRun(s, i + st)
  {
    var n := NumLenAt(s, i);
    var st := SignLen(s, i);
    assert st + DigitRun(s, i + st) <= n;
    RunInSlice(s, i, i + n, st, DigitRun(s, i + st));
  }

  /** A greedy match longer than sign and whole digits ends in a fraction. */
  lemma NumSliceFraction(s: string, i: nat)
    requires i <= |s| && NumLenAt(s, i) > 0
    requires SignLen(s, i) + DigitRun(s, i + SignLen(s, i)) < NumLenAt(s, i)
    ensures FractionAt(s[i..i + NumLenAt(s, i)], SignLen(s, i) + DigitRun(s, i + SignLen(s, i)))
  {
    var n := NumLenAt(s, i);
    var e := SignLen(s, i) + DigitRun(s, i + SignLen(s, i));
    var t := s[i..i + n];
    assert t[e] == s[i + e];
    assert t[e + 1..] == s[i + e + 1..i + n];
  }

  /** Nothing starting at i is a `NUM` when the greedy match finds none. */
  lemma NoNumAt(s: string, i: nat)
    requires i <= |s| && NumLenAt(s, i) == 0
    ensures forall e :: i < e <= |s| ==> !IsNum(s[i..e])
  {
    var st := SignLen(s, i);
    forall e | i < e <= |s|
      ensures !IsNum(s[i..e])
    {
      var t := s[i..e];
      assert SignLen(t, 0) == st;
      DigitRunSlice(s, i, e, st);
    }
  }

  /** A string is a `NUM` exactly when the greedy match at 0 covers all of it (`re.fullmatch`). */
  lemma NumFullMatch(t: string)
    ensures IsNum(t) <==> (|t| > 0 && NumLenAt(t, 0) == |t|)
  {
    assert t[0..|t|] == t;
    if NumLenAt(t, 0) > 0 {
      NumLenAtIsNum(t, 0);
    }
    if IsNum(t) {
      var st := SignLen(t, 0);
      var d := DigitRun(t, st);
      assert NumLenAt(t, 0) > 0;
      if st + d < |t| {
        assert DigitRun(t, st + d + 1) == |t| - st - d - 1 by {
          DigitRunAll(t, st + d + 1);
        }
      }
    }
  }

  /** A digit run that stops at a non-digit or at the end is read exactly. */
  lemma {:induction false} DigitRunExact(s: string, a: nat, b: nat)
    requires a <= b <= |s| && (forall k :: a <= k < b ==> IsDigit(s[k]))
    requires b == |s| || !IsDigit(s[b])
    ensures DigitRun(s, a) == b - a
    decreases b - a
  {
    if a < b {
      DigitRunExact(s, a + 1, b);
    }
  }

  /**
   * A `NUM` standing at i and followed by neither a digit nor a separator is
   * exactly what the greedy match reads there.
   */
  lemma NumLenAtExact(s: string, i: nat, t: string)
    requires i + |t| <= |s| && s[i..i + |t|] == t && IsNum(t)
    requires i + |t| == |s| || (!IsDigit(s[i + |t|]) && !IsSeparator(s[i + |t|]))
    ensures NumLenAt(s, i) == |t|
  {
    var n := |t|;
    var st := SignLen(t, 0);
    var d := DigitRun(t, st);
    NumWholeExact(s, i, t, st);
    if st + d < n {
      assert FractionAt(t, st + d);
      FractionDigits(s, i, n, st + d);
      NumLenAtOfParts(s, i, st, d, n);
    } else {
      assert i + st + d == |s| || !IsSeparator(s[i + st + d]);
      NumLenAtOfParts(s, i, st, d, n);
    }
  }

  /** NumLenAt at i from its parts: the sign, the whole digits and, when n goes further, the fraction. */
  lemma NumLenAtOfParts(s: string, i: nat, st: nat, d: nat, n: nat)
    requires SignLen(s, i) == st && DigitRun(s, i + st) == d && d > 0 && st + d <= n
    requires st + d == n ==> i + n == |s| || !IsSeparator(s[i + n])
    requires st + d < n ==>
      && i + st + d + 1 < |s| && IsSeparator(s[i + st + d]) && IsDigit(s[i + st + d + 1])
      && DigitRun(s, i + st + d + 1) == n - st - d - 1
    ensures NumLenAt(s, i) == n
  {
  }

  /** Sign and whole digits of a `NUM` read in place are those of the `NUM` alone. */
  lemma NumWholeExact(s: string, i: nat, t: string, st: nat)
    requires i + |t| <= |s| && s[i..i + |t|] == t && IsNum(t) && st == SignLen(t, 0)
    requires i + |t| == |s| || (!IsDigit(s[i + |t|]) && !IsSeparator(s[i + |t|]))
    ensures SignLen(s, i) == st && DigitRun(s, i + st) == DigitRun(t, st)
  {
    var n := |t|;
    var d := DigitRun(t, st);
    assert SignLen(s, i) == st;
    forall k | i + st <= k < i + st + d
      ensures IsDigit(s[k])
    {
      assert s[k] == t[k - i];
    }
    if st + d < n {
      assert s[i + st + d] == t[st + d];
    }
    DigitRunExact(s, i + st, i + st + d);
  }

  lemma FractionDigits(s: string, i: nat, n: nat, e: nat)
    requires i + n <= |s| && FractionAt(s[i..i + n], e)
    requires i + n == |s| || !IsDigit(s[i + n])
    ensures i + e + 1 < |s| && IsSeparator(s[i + e]) && IsDigit(s[i + e + 1])
    ensures DigitRun(s, i + e + 1) == n - e - 1
  {
    var t := s[i..i + n];
    assert s[i + e] == t[e];
    forall k | i + e + 1 <= k < i + n
      ensures IsDigit(s[k])
    {
      assert s[k] == t[e + 1..][k - i - e - 1];
    }
    DigitRunExact(s, i + e + 1, i + n);
  }

  /** The characters of a `NUM` match: a sign or digit, then digits and separators. */
  lemma NumLenAtChars(s: string, i: nat)
    requires NumLenAt(s, i) > 0
    ensures IsDigit(s[i]) || s[i] == '-' || s[i] == '+'
    ensures forall j :: i < j < i + NumLenAt(s, i) ==> IsDigit(s[j]) || IsSeparator(s[j])
    ensures IsDigit(s[i + NumLenAt(s, i) - 1])
  {
  }

  /** The value of the `NUM` match at i. */
  function NumAt(s: string, i: nat): real
    requires i <= |s| && NumLenAt(s, i) > 0
  {
    NumLenAtIsNum(s, i);
    NumValue(s[i..i + NumLenAt(s, i)])
  }

  /** A match that runs to the end: its value is that of the whole tail. */
  lemma NumAtTail(s: string, i: nat)
    requires i < |s| && NumLenAt(s, i) == |s| - i
    ensures IsNum(s[i..|s|]) && NumAt(s, i) == NumValue(s[i..|s|])
  {
    NumLenAtIsNum(s, i);
    assert s[i..i + NumLenAt(s, i)] == s[i..|s|];
  }

  /** The number matched at i is the NUM t that occupies s from i on. */
  lemma NumAtSlice(s: string, i: nat, t: string)
    requires i + |t| <= |s| && s[i..i + |t|] == t && NumLenAt(s, i) == |t| > 0
    ensures IsNum(t) && NumAt(s, i) == NumValue(t)
  {
    NumLenAtIsNum(s, i);
  }

  /** A run of digits up to the end is read whole. */
  lemma {:induction false} DigitRunAll(t: string, k: nat)
    requires k <= |t| && AllDigits(t[k..])
    ensures DigitRun(t, k) == |t| - k
    decreases |t| - k
  {
    if k < |t| {
      assert IsDigit(t[k..][0]);
      assert t[k + 1..] == t[k..][1..];
      DigitRunAll(t, k + 1);
    }
  }

  /** `s.replace(",", ".")`. */
  function CommaToDot(s: string): (r: string)
    ensures |r| == |s|
    ensures forall i :: 0 <= i < |s| ==> r[i] == (if s[i] == ',' then '.' else s[i])
  {
    seq(|s|, i requires 0 <= i < |s| => if s[i] == ',' then '.' else s[i])
  }

  /**
   * The decimal literals Python's `float()` accepts: sign, then digits with an
   * optional `.` and more digits, or `.` and at least one digit.
   */
  predicate IsFloatLiteral(t: string)
  {
    var st := SignLen(t, 0);
    var d := DigitRun(t, st);
    var e := st + d;
    if e >= |t| then d > 0
    else t[e] == '.' && e + 1 + DigitRun(t, e + 1) == |t| && (d > 0 || e + 1 < |t|)
  }

  function FloatValue(t: string): real
    requires IsFloatLiteral(t)
  {
    var st := SignLen(t, 0);
    var e := st + DigitRun(t, st);
    assert AllDigits(t[st..e]);
    assert AllDigits(FracDigits(t, e));
    DecimalValue(st == 1 && t[0] == '-', t[st..e], FracDigits(t, e))
  }

  /** `float(s.replace(",", "."))`, None where Python raises ValueError. */
  function ParseFloat(s: string): Option<real>
  {
    var t := CommaToDot(s);
    if IsFloatLiteral(t) then Some(FloatValue(t)) else None
  }

  /** Digit runs are the same after `replace(",", ".")`. */
  lemma {:induction false} DigitRunCommaToDot(s: string, k: nat)
    ensures DigitRun(CommaToDot(s), k) == DigitRun(s, k)
    decreases |s| - k
  {
    if k < |s| && IsDigit(s[k]) {
      DigitRunCommaToDot(s, k + 1);
    }
  }

  /** Every `NUM` is a float literal once its comma is a dot, with the value `NumValue` gives. */
  lemma NumParsesAsFloat(t: string)
    requires IsNum(t)
    ensures ParseFloat(t) == Some(NumValue(t))
  {
    NumIsFloatLiteral(t);
    FloatValueOfNum(t);
  }

  lemma FloatValueOfNum(t: string)
    requires IsNum(t) && IsFloatLiteral(CommaToDot(t))
    ensures FloatValue(CommaToDot(t)) == NumValue(t)
  {
    var u := CommaToDot(t);
    var st := SignLen(t, 0);
    var e := st + DigitRun(t, st);
    CommaToDotSign(t);
    CommaToDotWhole(t);
    FracDigitsCommaToDot(t, e);
    SameParts(u, t, st, e);
  }

  /** A float literal and a `NUM` with the same sign, whole digits and fraction digits have the same value. */
  lemma SameParts(u: string, t: string, st: nat, e: nat)
    requires IsFloatLiteral(u) && IsNum(t)
    requires st == SignLen(t, 0) && e == st + DigitRun(t, st)
    requires SignLen(u, 0) == st && st + DigitRun(u, st) == e
    requires u[st..e] == t[st..e] && FracDigits(u, e) == FracDigits(t, e)
    requires st == 1 ==> u[0] == t[0]
    ensures FloatValue(u) == NumValue(t)
  {
    var neg := st == 1 && t[0] == '-';
    assert AllDigits(t[st..e]) && AllDigits(FracDigits(t, e));
    assert FloatValue(u) == DecimalValue(neg, t[st..e], FracDigits(t, e));
  }

  /** `replace(",", ".")` keeps the sign. */
  lemma CommaToDotSign(t: string)
    ensures SignLen(CommaToDot(t), 0) == SignLen(t, 0)
    ensures SignLen(t, 0) == 1 ==> CommaToDot(t)[0] == t[0]
  {
  }

  /** `replace(",", ".")` keeps the whole part of a `NUM`. */
  lemma CommaToDotWhole(t: string)
    requires IsNum(t)
    ensures var st := SignLen(t, 0); var e := st + DigitRun(t, st);
      st + DigitRun(CommaToDot(t), st) == e && CommaToDot(t)[st..e] == t[st..e]
  {
    var st := SignLen(t, 0);
    var e := st + DigitRun(t, st);
    DigitRunCommaToDot(t, st);
    assert AllDigits(t[st..e]);
    CommaToDotDigits(t, st, e);
  }

  lemma FracDigitsCommaToDot(t: string, e: nat)
    requires e < |t| ==> AllDigits(t[e + 1..])
    ensures FracDigits(CommaToDot(t), e) == FracDigits(t, e)
  {
    if e < |t| {
      CommaToDotDigits(t, e + 1, |t|);
      assert t[e + 1..|t|] == t[e + 1..];
      assert CommaToDot(t)[e + 1..|t|] == CommaToDot(t)[e + 1..];
    }
  }

  /** `replace(",", ".")` leaves digits alone. */
  lemma CommaToDotDigits(t: string, a: nat, b: nat)
    requires a <= b <= |t| && AllDigits(t[a..b])
    ensures CommaToDot(t)[a..b] == t[a..b]
  {
    var u := CommaToDot(t);
    forall k | a <= k < b
      ensures u[k] == t[k]
    {
      assert t[a..b][k - a] == t[k];
    }
  }

  /** After `replace(",", ".")` a `NUM` is a float literal. */
  lemma NumIsFloatLiteral(t: string)
    requires IsNum(t)
    ensures IsFloatLiteral(CommaToDot(t))
  {
    var u := CommaToDot(t);
    var st := SignLen(t, 0);
    var e := st + DigitRun(t, st);
    assert SignLen(u, 0) == st;
    DigitRunCommaToDot(t, st);
    if e < |t| {
      assert u[e] == '.';
      DigitRunAll(t, e + 1);
      DigitRunCommaToDot(t, e + 1);
    }
  }
}
