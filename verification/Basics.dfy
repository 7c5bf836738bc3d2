/** Small shared vocabulary: options, bounds, and sums over table rows. */
module Basics {

  datatype Option<+T> = None | Some(value: T)

  function Min(a: int, b: int): int {
    if a <= b then a else b
  }

  function Max(a: int, b: int): int {
    if a >= b then a else b
  }

  /** Multiplying keeps the order, and keeps a difference at least as large. */
  lemma ProductOrder(a: int, b: int, k: nat)
    ensures a <= b ==> a * k <= b * k
    ensures a >= b ==> a * k >= b * k
    ensures a < b ==> a * k + k <= b * k
  {
    if a < b {
      var d := b - a - 1;
      assert b == a + d + 1;
      assert (a + d + 1) * k == a * k + d * k + k;
      assert d * k >= 0;
    } else {
      var d := a - b;
      assert a == b + d;
      assert (b + d) * k == b * k + d * k;
      assert d * k >= 0;
    }
  }

  /** The total of `f` over the rows of a table. */
  function SumBy<T>(f: T -> int, rows: seq<T>): int {
    if rows == [] then 0 else SumBy(f, rows[..|rows| - 1]) + f(rows[|rows| - 1])
  }

  lemma SumByAppend<T>(f: T -> int, rows: seq<T>, row: T)
    ensures SumBy(f, rows + [row]) == SumBy(f, rows) + f(row)
  {
    assert (rows + [row])[..|rows|] == rows;
  }

  /** Rewriting one row changes the total by the difference of that row alone. */
  lemma {:induction false} SumByUpdate<T>(f: T -> int, rows: seq<T>, i: nat, row: T)
    requires i < |rows|
    ensures SumBy(f, rows[i := row]) == SumBy(f, rows) - f(rows[i]) + f(row)
  {
    var last := |rows| - 1;
    if i == last {
      assert rows[i := row][..last] == rows[..last];
    } else {
      SumByUpdate(f, rows[..last], i, row);
      assert rows[i := row][..last] == rows[..last][i := row];
    }
  }

  lemma {:induction false} SumByNonNegative<T>(f: T -> int, rows: seq<T>)
    requires forall i :: 0 <= i < |rows| ==> f(rows[i]) >= 0
    ensures SumBy(f, rows) >= 0
  {
    if rows != [] {
      SumByNonNegative(f, rows[..|rows| - 1]);
    }
  }

  /** Rows that do not differ in `f` have the same total. */
  lemma {:induction false} SumBySame<T>(f: T -> int, rows: seq<T>, rows': seq<T>)
    requires |rows| == |rows'| && forall i :: 0 <= i < |rows| ==> f(rows[i]) == f(rows'[i])
    ensures SumBy(f, rows) == SumBy(f, rows')
  {
    if rows != [] {
      SumBySame(f, rows[..|rows| - 1], rows'[..|rows| - 1]);
    }
  }

  lemma {:induction false} SumByAtMost<T>(f: T -> int, g: T -> int, rows: seq<T>)
    requires forall i :: 0 <= i < |rows| ==> f(rows[i]) <= g(rows[i])
    ensures SumBy(f, rows) <= SumBy(g, rows)
  {
    if rows != [] {
      SumByAtMost(f, g, rows[..|rows| - 1]);
    }
  }
}
