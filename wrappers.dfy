/**
 * Option, for the source's None-or-value results, and Outcome, for the places
 * where the source raises an uncaught exception instead of returning.
 */
module Wrappers {

  datatype Option<+T> = None | Some(value: T)
  {
    /** The value, or `default` when there is none. */
    function GetOr(default: T): T
    {
      match this
      case Some(v) => v
      case None => default
    }
  }

  /** The result of a step that either returns a value or raises (`Crash`). */
  datatype Outcome<+T> = Ok(value: T) | Crash

  /** The first value present in a sequence of options (a first-match loop that returns early). */
  function FirstSome<T>(opts: seq<Option<T>>): Option<T>
  {
    if opts == [] then None
    else if opts[0].Some? then opts[0]
    else FirstSome(opts[1..])
  }

  /** Options that are all absent before k do not change which value comes first. */
  lemma {:induction false} FirstSomeSkips<T>(opts: seq<Option<T>>, k: nat)
    requires k <= |opts|
    requires forall j :: 0 <= j < k ==> opts[j].None?
    ensures FirstSome(opts) == FirstSome(opts[k..])
  {
    if k > 0 {
      assert opts[1..][k - 1..] == opts[k..];
      FirstSomeSkips(opts[1..], k - 1);
    }
  }

  /**
   * FirstSome is the value at the first index that holds one, and None exactly
   * when no index holds one.
   */
  lemma {:induction false} FirstSomeAt<T>(opts: seq<Option<T>>) returns (k: nat)
    ensures k <= |opts|
    ensures forall j :: 0 <= j < k ==> opts[j].None?
    ensures k < |opts| ==> opts[k].Some? && FirstSome(opts) == opts[k]
    ensures k == |opts| ==> FirstSome(opts) == None
  {
    if opts == [] {
      k := 0;
    } else if opts[0].Some? {
      k := 0;
    } else {
      var k' := FirstSomeAt(opts[1..]);
      k := k' + 1;
      forall j | 0 <= j < k
        ensures opts[j].None?
      {
        if j > 0 {
          assert opts[j] == opts[1..][j - 1];
        }
      }
    }
  }
}
