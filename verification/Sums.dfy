/** Sums of a column over rows, whole and grouped by a key. */
module Sums {

  function Sum<T>(rows: seq<T>, column: T -> int): int {
    if rows == [] then 0 else column(rows[0]) + Sum(rows[1..], column)
  }

  /** The rows of one group. */
  function Group<T>(rows: seq<T>, key: T -> int, k: int): seq<T> {
    if rows == [] then [] else (if key(rows[0]) == k then [rows[0]] else []) + Group(rows[1..], key, k)
  }

  /** The groups' sums added up. */
  function SumOfGroups<T>(keys: seq<int>, rows: seq<T>, key: T -> int, column: T -> int): int {
    if keys == [] then 0 else Sum(Group(rows, key, keys[0]), column) + SumOfGroups(keys[1..], rows, key, column)
  }

  predicate Distinct(keys: seq<int>) {
    forall i, j :: 0 <= i < j < |keys| ==> keys[i] != keys[j]
  }

  lemma SumHead<T>(r: T, rows: seq<T>, column: T -> int)
    ensures Sum([r] + rows, column) == column(r) + Sum(rows, column)
  {
    assert ([r] + rows)[1..] == rows;
  }

  /** A row adds its column to its own group and to no other. */
  lemma {:induction false} OneRow<T>(keys: seq<int>, r: T, rows: seq<T>, key: T -> int, column: T -> int)
    requires Distinct(keys)
    ensures SumOfGroups(keys, [r] + rows, key, column)
         == SumOfGroups(keys, rows, key, column) + if key(r) in keys then column(r) else 0
  {
    if keys != [] {
      OneRow(keys[1..], r, rows, key, column);
      assert ([r] + rows)[1..] == rows;
      assert key(r) in keys <==> key(r) == keys[0] || key(r) in keys[1..];
      var g := Group(rows, key, keys[0]);
      if key(r) == keys[0] {
        assert Group([r] + rows, key, keys[0]) == [r] + g;
        SumHead(r, g, column);
      } else {
        assert Group([r] + rows, key, keys[0]) == [] + g == g;
      }
    }
  }

  lemma {:induction false} NoRows<T>(keys: seq<int>, key: T -> int, column: T -> int)
    ensures SumOfGroups(keys, [], key, column) == 0
  {
    if keys != [] {
      NoRows(keys[1..], key, column);
    }
  }

  /** When every row's key is listed once, summing the groups is summing the rows. */
  lemma {:induction false} SumByGroups<T>(keys: seq<int>, rows: seq<T>, key: T -> int, column: T -> int)
    requires Distinct(keys)
    requires forall i :: 0 <= i < |rows| ==> key(rows[i]) in keys
    ensures SumOfGroups(keys, rows, key, column) == Sum(rows, column)
  {
    if rows == [] {
      NoRows(keys, key, column);
    } else {
      SumByGroups(keys, rows[1..], key, column);
      OneRow(keys, rows[0], rows[1..], key, column);
      assert rows == [rows[0]] + rows[1..];
    }
  }
}
