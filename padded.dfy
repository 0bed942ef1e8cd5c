/**
 * `d2f(x.strip())` on a piece of text that holds one `NUM` with white space
 * around it: the value read is the value of the `NUM`.
 */
module Padded {
  import opened Wrappers
  import opened Text
  import opened Decimal

  /** `d2f(s[..k].strip())` where s starts with a NUM followed by white space up to k. */
  lemma HeadPieceParses(s: string, n: nat, k: nat)
    requires 0 < n <= k <= |s| && NumLenAt(s, 0) == n
    requires forall j :: n <= j < k ==> IsSpace(s[j])
    ensures ParseFloat(Strip(s[..k])) == Some(NumAt(s, 0))
  {
    var t := s[..k];
    forall j | n <= j < |t|
      ensures IsSpace(t[j])
    {
      assert t[j] == s[j];
    }
    NumLenAtIsNum(s, 0);
    assert t[0..n] == s[0..n];
    PaddedNumParses(t, 0, n);
  }

  /** `d2f(t.strip())` for t = s[k + 1..] where white space runs from k + 1 to a NUM at m that ends s. */
  lemma TailPieceParses(s: string, k: nat, m: nat, t: string)
    requires k < m < |s| && NumLenAt(s, m) == |s| - m && t == s[k + 1..]
    requires forall j :: k < j < m ==> IsSpace(s[j])
    ensures ParseFloat(Strip(t)) == Some(NumAt(s, m))
  {
    var a := m - k - 1;
    TailSpaces(s, k, m, t);
    TailNum(s, k, m, t);
    PaddedNumParses(t, a, |t|);
  }

  lemma TailSpaces(s: string, k: nat, m: nat, t: string)
    requires k < m <= |s| && t == s[k + 1..]
    requires forall j :: k < j < m ==> IsSpace(s[j])
    ensures forall j :: 0 <= j < m - k - 1 ==> IsSpace(t[j])
  {
    forall j | 0 <= j < m - k - 1
      ensures IsSpace(t[j])
    {
      assert t[j] == s[k + 1 + j];
    }
  }

  lemma TailNum(s: string, k: nat, m: nat, t: string)
    requires k < m < |s| && NumLenAt(s, m) == |s| - m && t == s[k + 1..]
    ensures IsNum(t[m - k - 1..|t|]) && NumValue(t[m - k - 1..|t|]) == NumAt(s, m)
  {
    SuffixOfSuffix(s, k + 1, m, t);
    NumAtTail(s, m);
    SameNum(t[m - k - 1..|t|], s[m..|s|], NumAt(s, m));
  }

  lemma SameNum(u: string, v: string, x: real)
    requires u == v && IsNum(v) && NumValue(v) == x
    ensures IsNum(u) && NumValue(u) == x
  {
  }

  lemma SuffixOfSuffix(s: string, b: nat, m: nat, t: string)
    requires b <= m <= |s| && t == s[b..]
    ensures t[m - b..|t|] == s[m..|s|]
  {
  }

  /** A `NUM` padded with white space is read by `d2f(x.strip())` as its value. */
  lemma PaddedNumParses(t: string, a: nat, b: nat)
    requires a < b <= |t| && IsNum(t[a..b])
    requires forall j :: 0 <= j < a ==> IsSpace(t[j])
    requires forall j :: b <= j < |t| ==> IsSpace(t[j])
    ensures ParseFloat(Strip(t)) == Some(NumValue(t[a..b]))
  {
    NumStartsWell(t[a..b]);
    NumEndsWell(t[a..b]);
    assert t[a] == t[a..b][0] && t[b - 1] == t[a..b][b - a - 1];
    StripPadded(t, a, b);
    NumParsesAsFloat(t[a..b]);
  }

  /** A `NUM` ends with a digit. */
  lemma NumEndsWell(t: string)
    requires IsNum(t)
    ensures IsDigit(t[|t| - 1]) && !IsSpace(t[|t| - 1])
  {
    var st := SignLen(t, 0);
    var e := st + DigitRun(t, st);
    if e < |t| {
      assert t[e + 1..][|t| - e - 2] == t[|t| - 1];
    }
  }

  /** A `NUM` begins with its sign or its first digit. */
  lemma NumStartsWell(t: string)
    requires IsNum(t)
    ensures IsDigit(t[0]) || t[0] == '-' || t[0] == '+'
    ensures !IsSpace(t[0])
  {
  }
}
