/**
 * The token regexes shared by app_v2 and app_v3, recognised at a position:
 *   QUAL  = (?:Negativan|Normalan|Pozitivan)            (case-sensitive)
 *   RANGE = NUM\s*[~\-]\s*NUM | <\s*NUM | >\s*NUM | QUAL
 *   UNIT  = 10[*^]\d+/[A-Za-z]+ | a run of letters and the symbols % / * . - ^
 * Each `...LenAt(s, i)` is the length of the match that Python's `re` finds at
 * position i, 0 when there is none. Each NUM inside these tokens is followed by
 * something that is neither a digit nor a separator (or by nothing), so the regex
 * engine's first successful reading is the greedy one computed here.
 */
module Tokens {
  import opened Wrappers
  import opened Text
  import opened Decimal
  import opened Padded

  /** QUAL, in the order of its alternation. */
  const Qualitatives: seq<string> := ["Negativan", "Normalan", "Pozitivan"]

  /** `re.fullmatch(QUAL, t)`. */
  predicate IsQual(t: string)
  {
    t in Qualitatives
  }

  function QualLenAt(s: string, i: nat): (n: nat)
    ensures n > 0 ==> i + n <= |s| && IsQual(s[i..i + n])
    ensures n == 0 ==> forall q :: q in Qualitatives ==> !OccursAt(s, q, i)
  {
    if OccursAt(s, "Negativan", i) then 9
    else if OccursAt(s, "Normalan", i) then 8
    else if OccursAt(s, "Pozitivan", i) then 9
    else 0
  }

  /** Where the second NUM of `NUM\s*[~-]\s*NUM` starts, given the first NUM at i. */
  function SecondNumStart(s: string, i: nat): nat
  {
    var j := i + NumLenAt(s, i);
    var k := j + SpaceRun(s, j);
    k + 1 + SpaceRun(s, k + 1)
  }

  /** `NUM\s*[~-]\s*NUM` at i. */
  function PairLenAt(s: string, i: nat): (n: nat)
    ensures n > 0 ==> i + n <= |s|
  {
    var n1 := NumLenAt(s, i);
    if n1 == 0 then 0
    else
      var j := i + n1;
      var k := j + SpaceRun(s, j);
      if k < |s| && (s[k] == '~' || s[k] == '-') then
        var m := SecondNumStart(s, i);
        var n2 := NumLenAt(s, m);
        if n2 == 0 then 0 else m + n2 - i
      else 0
  }

  /** The parts of a `NUM\s*[~-]\s*NUM` match at i. */
  lemma PairLenAtParts(s: string, i: nat)
    requires PairLenAt(s, i) > 0
    ensures var n1 := NumLenAt(s, i); var k := i + n1 + SpaceRun(s, i + n1); var m := SecondNumStart(s, i);
      && n1 > 0 && k < |s| && (s[k] == '~' || s[k] == '-')
      && m == k + 1 + SpaceRun(s, k + 1)
      && NumLenAt(s, m) > 0 && PairLenAt(s, i) == m + NumLenAt(s, m) - i
  {
  }

  /** Where the NUM of `<\s*NUM` or `>\s*NUM` starts, given the operator at i. */
  function BoundNumStart(s: string, i: nat): nat
  {
    i + 1 + SpaceRun(s, i + 1)
  }

  /** `<\s*NUM` (op '<') or `>\s*NUM` (op '>') at i. */
  function BoundLenAt(s: string, i: nat, op: char): (n: nat)
    ensures n > 0 ==> i + n <= |s|
  {
    if i < |s| && s[i] == op then
      var m := BoundNumStart(s, i);
      var n2 := NumLenAt(s, m);
      if n2 == 0 then 0 else m + n2 - i
    else 0
  }

  /** RANGE at i: the alternatives in order, the first that matches wins. */
  function RangeLenAt(s: string, i: nat): (n: nat)
    ensures n > 0 ==> i + n <= |s|
  {
    var p := PairLenAt(s, i);
    if p > 0 then p
    else
      var lt := BoundLenAt(s, i, '<');
      if lt > 0 then lt
      else
        var gt := BoundLenAt(s, i, '>');
        if gt > 0 then gt else QualLenAt(s, i)
  }

  /** Two `NUM`s joined by `-` or `~` are read back as a range with exactly those two numbers. */
  lemma PairOfNums(a: string, c: char, b: string)
    requires IsNum(a) && IsNum(b) && (c == '~' || c == '-')
    ensures PairLenAt(a + [c] + b, 0) == |a| + 1 + |b|
  {
    PairFirstNum(a, c, b);
    PairSeparator(a, c, b);
    PairSecondStart(a, c, b);
    PairSecondNum(a, c, b);
    NumStartsWell(a);
    NumStartsWell(b);
    PairLenOfJoin(a, c, b);
  }

  lemma PairLenOfJoin(a: string, c: char, b: string)
    requires a != [] && b != [] && (c == '~' || c == '-')
    requires NumLenAt(a + [c] + b, 0) == |a| && SpaceRun(a + [c] + b, |a|) == 0 && (a + [c] + b)[|a|] == c
    requires SpaceRun(a + [c] + b, |a| + 1) == 0 && NumLenAt(a + [c] + b, |a| + 1) == |b|
    ensures PairLenAt(a + [c] + b, 0) == |a| + 1 + |b|
  {
    PairLenOfParts(a + [c] + b, |a|, |b|);
  }

  /** PairLenAt at 0 from its parts: a NUM, a separator with no white space around it, a NUM. */
  lemma PairLenOfParts(s: string, n1: nat, n2: nat)
    requires 0 < n1 < |s| && NumLenAt(s, 0) == n1 && SpaceRun(s, n1) == 0
    requires (s[n1] == '~' || s[n1] == '-') && SpaceRun(s, n1 + 1) == 0
    requires n2 > 0 && NumLenAt(s, n1 + 1) == n2 && n1 + 1 + n2 == |s|
    ensures SecondNumStart(s, 0) == n1 + 1 && PairLenAt(s, 0) == |s|
  {
  }

  lemma PairFirstNum(a: string, c: char, b: string)
    requires IsNum(a) && (c == '~' || c == '-')
    ensures NumLenAt(a + [c] + b, 0) == |a|
  {
    var s := a + [c] + b;
    assert s[0..|a|] == a;
    NumLenAtExact(s, 0, a);
  }

  lemma PairSeparator(a: string, c: char, b: string)
    requires c == '~' || c == '-'
    ensures (a + [c] + b)[|a|] == c && SpaceRun(a + [c] + b, |a|) == 0
  {
    assert (a + [c] + b)[|a|] == c;
  }

  lemma PairSecondStart(a: string, c: char, b: string)
    requires IsNum(b)
    ensures SpaceRun(a + [c] + b, |a| + 1) == 0
  {
    var s := a + [c] + b;
    NumStartsWell(b);
    assert s[|a| + 1] == b[0];
  }

  lemma PairSecondNum(a: string, c: char, b: string)
    requires IsNum(b)
    ensures NumLenAt(a + [c] + b, |a| + 1) == |b|
  {
    var s := a + [c] + b;
    assert s[|a| + 1..|a| + 1 + |b|] == b;
    NumLenAtExact(s, |a| + 1, b);
  }

  predicate IsAsciiLetter(c: char)
  {
    'a' <= c <= 'z' || 'A' <= c <= 'Z'
  }

  function LetterRun(s: string, i: nat): (n: nat)
    ensures n > 0 ==> i + n <= |s|
    ensures forall k :: i <= k < i + n ==> k < |s| && IsAsciiLetter(s[k])
    decreases |s| - i
  {
    if i < |s| && IsAsciiLetter(s[i]) then 1 + LetterRun(s, i + 1) else 0
  }

  /** `10[*^]\d+/[A-Za-z]+` at i. */
  function PowerUnitLenAt(s: string, i: nat): (n: nat)
    ensures n > 0 ==> i + n <= |s|
  {
    if OccursAt(s, "10", i) && i + 2 < |s| && (s[i + 2] == '*' || s[i + 2] == '^') then
      var d := DigitRun(s, i + 3);
      var j := i + 3 + d;
      if d > 0 && j < |s| && s[j] == '/' then
        var l := LetterRun(s, j + 1);
        if l > 0 then j + 1 + l - i else 0
      else 0
    else 0
  }

  predicate IsUnitChar(c: char)
  {
    IsAsciiLetter(c) || c == '%' || c == '/' || c == '*' || c == '.' || c == '-' || c == '^'
  }

  /** A run of unit characters (letters and `%` `/` `*` `.` `-` `^`) at i. */
  function UnitCharRun(s: string, i: nat): (n: nat)
    ensures n > 0 ==> i + n <= |s|
    ensures forall k :: i <= k < i + n ==> k < |s| && IsUnitChar(s[k])
    ensures i + n < |s| ==> !IsUnitChar(s[i + n])
    decreases |s| - i
  {
    if i < |s| && IsUnitChar(s[i]) then 1 + UnitCharRun(s, i + 1) else 0
  }

  /** UNIT at i. */
  function UnitLenAt(s: string, i: nat): (n: nat)
    ensures n > 0 ==> i + n <= |s|
  {
    var p := PowerUnitLenAt(s, i);
    if p > 0 then p else UnitCharRun(s, i)
  }

  /** `NUM|QUAL` at i. */
  function ValueLenAt(s: string, i: nat): (n: nat)
    ensures n > 0 ==> i + n <= |s|
  {
    var p := NumLenAt(s, i);
    if p > 0 then p else QualLenAt(s, i)
  }

  /** A token recogniser finds a match at i. */
  predicate HitAt(s: string, lenAt: (string, nat) -> nat, i: nat)
  {
    i < |s| && lenAt(s, i) > 0 && i + lenAt(s, i) <= |s|
  }

  /** `pattern.search(s[i..])` positions: the leftmost hit at or after i. */
  function SearchFrom(s: string, lenAt: (string, nat) -> nat, i: nat): (r: Option<nat>)
    ensures r.Some? ==> i <= r.value && HitAt(s, lenAt, r.value)
    ensures r.Some? ==> forall j :: i <= j < r.value ==> !HitAt(s, lenAt, j)
    ensures r.None? ==> forall j :: i <= j ==> !HitAt(s, lenAt, j)
    decreases |s| - i
  {
    if i >= |s| then None
    else if HitAt(s, lenAt, i) then Some(i)
    else SearchFrom(s, lenAt, i + 1)
  }

  /** `pattern.search(s).group(0)`, None when the pattern does not occur. */
  function Search(s: string, lenAt: (string, nat) -> nat): Option<string>
  {
    match SearchFrom(s, lenAt, 0)
    case Some(j) => Some(s[j..j + lenAt(s, j)])
    case None => None
  }

  /**
   * The search finds something exactly when the token occurs somewhere, and then
   * the leftmost occurrence, which is not empty.
   */
  lemma SearchFinds(s: string, lenAt: (string, nat) -> nat)
    ensures Search(s, lenAt).Some? <==> exists j: nat :: HitAt(s, lenAt, j)
    ensures Search(s, lenAt).Some? ==>
      && Search(s, lenAt).value != []
      && exists j: nat :: (HitAt(s, lenAt, j) && Search(s, lenAt).value == s[j..j + lenAt(s, j)]
                          && forall k :: 0 <= k < j ==> !HitAt(s, lenAt, k))
  {
  }
}
