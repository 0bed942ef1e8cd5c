/**
 * `df.sort_values(order).drop_duplicates(subset=key, keep="first")`: one row per
 * key, and the row kept is one that comes first in the sort order. Rows are
 * processed left to right; a later row replaces the kept one only when it sorts
 * strictly before it. Which of several equally ranked rows survives, and the
 * order of the output rows, are not part of the model.
 */
module Selection {

  /** `le(a, b)`: a sorts no later than b. */
  ghost predicate TotalPreorder<R(!new)>(le: (R, R) -> bool)
  {
    && (forall a, b :: le(a, b) || le(b, a))
    && (forall a, b, c :: le(a, b) && le(b, c) ==> le(a, c))
  }

  predicate UniqueKeys<R, K(==)>(rows: seq<R>, key: R -> K)
  {
    forall i, j :: 0 <= i < j < |rows| ==> key(rows[i]) != key(rows[j])
  }

  function Keys<R, K>(rows: seq<R>, key: R -> K): set<K>
  {
    if rows == [] then {} else {key(rows[0])} + Keys(rows[1..], key)
  }

  lemma {:induction false} KeysHas<R, K>(rows: seq<R>, key: R -> K, i: nat)
    requires i < |rows|
    ensures key(rows[i]) in Keys(rows, key)
  {
    if i > 0 {
      KeysHas(rows[1..], key, i - 1);
    }
  }

  /** Add r to rows that have unique keys: it replaces the row with its key if it sorts before it. */
  function Insert<R, K(==)>(acc: seq<R>, r: R, key: R -> K, le: (R, R) -> bool): (res: seq<R>)
    ensures Keys(res, key) == Keys(acc, key) + {key(r)}
    ensures UniqueKeys(acc, key) ==> UniqueKeys(res, key)
    ensures forall i :: 0 <= i < |res| ==> res[i] == r || res[i] in acc
    decreases |acc|
  {
    if acc == [] then [r]
    else if key(acc[0]) == key(r) then (if le(acc[0], r) then acc else [r] + acc[1..])
    else
      var rest := Insert(acc[1..], r, key, le);
      assert ([acc[0]] + rest)[1..] == rest;
      assert UniqueKeys(acc, key) ==> UniqueKeys([acc[0]] + rest, key) by {
        if UniqueKeys(acc, key) {
          forall j | 0 <= j < |rest|
            ensures key(rest[j]) != key(acc[0])
          {
            KeysHas(rest, key, j);
            if key(rest[j]) != key(r) {
              assert key(rest[j]) in Keys(acc[1..], key);
              KeyOccurs(acc[1..], key, key(rest[j]));
            }
          }
        }
      }
      [acc[0]] + rest
  }

  /** A key in Keys comes from some row. */
  lemma {:induction false} KeyOccurs<R, K>(rows: seq<R>, key: R -> K, k: K)
    requires k in Keys(rows, key)
    ensures exists i :: 0 <= i < |rows| && key(rows[i]) == k
  {
    if key(rows[0]) != k {
      KeyOccurs(rows[1..], key, k);
      var i :| 0 <= i < |rows[1..]| && key(rows[1..][i]) == k;
      assert rows[i + 1] == rows[1..][i];
    }
  }

  /** One row per key, the best of its key under le. */
  function KeepBest<R, K(==)>(rows: seq<R>, key: R -> K, le: (R, R) -> bool): (kept: seq<R>)
    ensures UniqueKeys(kept, key)
    ensures Keys(kept, key) == Keys(rows, key)
    ensures forall i :: 0 <= i < |kept| ==> kept[i] in rows
    decreases |rows|
  {
    if rows == [] then []
    else
      var front := rows[..|rows| - 1];
      var last := rows[|rows| - 1];
      var prev := KeepBest(front, key, le);
      assert Keys(rows, key) == Keys(front, key) + {key(last)} by {
        KeysSnoc(rows, key);
      }
      Insert(prev, last, key, le)
  }

  lemma {:induction false} KeysSnoc<R, K>(s: seq<R>, key: R -> K)
    requires s != []
    ensures Keys(s, key) == Keys(s[..|s| - 1], key) + {key(s[|s| - 1])}
  {
    if |s| > 1 {
      KeysSnoc(s[1..], key);
      assert s[1..][..|s[1..]| - 1] == s[..|s| - 1][1..];
    }
  }

  /** Under a total preorder, Insert keeps for each key a row no worse than any inserted so far. */
  lemma {:induction false} InsertBest<R(!new), K>(acc: seq<R>, r: R, key: R -> K, le: (R, R) -> bool, seen: set<R>)
    requires TotalPreorder(le) && UniqueKeys(acc, key)
    requires forall x :: x in seen ==> key(x) in Keys(acc, key)
    requires forall j, x :: 0 <= j < |acc| && x in seen && key(x) == key(acc[j]) ==> le(acc[j], x)
    ensures forall j, x :: 0 <= j < |Insert(acc, r, key, le)| && (x in seen || x == r) && key(x) == key(Insert(acc, r, key, le)[j])
              ==> le(Insert(acc, r, key, le)[j], x)
    decreases |acc|
  {
    var res := Insert(acc, r, key, le);
    if acc == [] {
      assert le(r, r);
    } else if key(acc[0]) == key(r) {
      if le(acc[0], r) {
        assert res == acc;
        forall j, x | 0 <= j < |res| && (x in seen || x == r) && key(x) == key(res[j])
          ensures le(res[j], x)
        {
          if j > 0 {
            assert key(acc[j]) != key(acc[0]);
          }
        }
      } else {
        assert le(r, acc[0]);
        forall j, x | 0 <= j < |res| && (x in seen || x == r) && key(x) == key(res[j])
          ensures le(res[j], x)
        {
          if j == 0 {
            if x != r {
              assert le(acc[0], x);
              assert le(r, x);
            }
          } else {
            assert res[j] == acc[j];
            assert key(acc[j]) != key(acc[0]);
          }
        }
      }
    } else {
      var seen' := set x | x in seen && key(x) != key(acc[0]);
      forall x | x in seen'
        ensures key(x) in Keys(acc[1..], key)
      {
        assert key(x) in Keys(acc, key);
      }
      forall j, x | 0 <= j < |acc[1..]| && x in seen' && key(x) == key(acc[1..][j])
        ensures le(acc[1..][j], x)
      {
        assert acc[1..][j] == acc[j + 1];
      }
      InsertBest(acc[1..], r, key, le, seen');
      var rest := Insert(acc[1..], r, key, le);
      assert res == [acc[0]] + rest;
      forall j, x | 0 <= j < |res| && (x in seen || x == r) && key(x) == key(res[j])
        ensures le(res[j], x)
      {
        if j > 0 {
          assert res[j] == rest[j - 1];
          if x != r {
            assert key(rest[j - 1]) in Keys(rest, key) by {
              KeysHas(rest, key, j - 1);
            }
            assert key(x) != key(acc[0]);
            assert x in seen';
          }
        }
      }
    }
  }

  /** Each kept row sorts no later than any input row with its key. */
  lemma {:induction false} KeepBestMinimal<R(!new), K>(rows: seq<R>, key: R -> K, le: (R, R) -> bool)
    requires TotalPreorder(le)
    ensures forall j, x :: 0 <= j < |KeepBest(rows, key, le)| && x in rows && key(x) == key(KeepBest(rows, key, le)[j])
              ==> le(KeepBest(rows, key, le)[j], x)
    decreases |rows|
  {
    if rows != [] {
      var front := rows[..|rows| - 1];
      KeepBestMinimal(front, key, le);
      var seen := set x | x in front;
      forall x | x in seen
        ensures key(x) in Keys(KeepBest(front, key, le), key)
      {
        var i :| 0 <= i < |front| && front[i] == x;
        KeysHas(front, key, i);
      }
      InsertBest(KeepBest(front, key, le), rows[|rows| - 1], key, le, seen);
      assert forall x :: x in rows ==> x in seen || x == rows[|rows| - 1] by {
        assert rows == front + [rows[|rows| - 1]];
      }
    }
  }
}
