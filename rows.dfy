/** Queries over the rows of a table, as the SQL `WHERE` and
    `ORDER BY id DESC LIMIT 1` clauses of the stores use them. */
module Rows {

  /** `SELECT ... WHERE p`: the rows satisfying `p`, in table order. */
  function Where<R>(rows: seq<R>, p: R -> bool): (r: seq<R>)
    ensures |r| <= |rows|
    ensures forall i :: 0 <= i < |r| ==> p(r[i])
  {
    if rows == [] then []
    else (if p(rows[0]) then [rows[0]] else []) + Where(rows[1..], p)
  }

  /** `SELECT` of some columns: `f` applied to every row, in table order. */
  function Select<R, S>(rows: seq<R>, f: R -> S): (r: seq<S>)
    ensures |r| == |rows| && forall i :: 0 <= i < |rows| ==> r[i] == f(rows[i])
  {
    seq(|rows|, i requires 0 <= i < |rows| => f(rows[i]))
  }

  /** Filtering distributes over concatenation. */
  lemma {:induction false} WhereAppend<R>(a: seq<R>, b: seq<R>, p: R -> bool)
    ensures Where(a + b, p) == Where(a, p) + Where(b, p)
  {
    if a == [] {
      assert a + b == b;
    } else {
      assert (a + b)[1..] == a[1..] + b;
      WhereAppend(a[1..], b, p);
    }
  }

  /** `Where` keeps each row satisfying `p` as often as the table holds it,
      and no other row. */
  lemma {:induction false} WhereMultiset<R>(rows: seq<R>, p: R -> bool, x: R)
    ensures multiset(Where(rows, p))[x] == if p(x) then multiset(rows)[x] else 0
  {
    if rows != [] {
      WhereMultiset(rows[1..], p, x);
      assert rows == [rows[0]] + rows[1..];
    }
  }

  /** Index of the last row satisfying `p`, or -1 when no row does. */
  function LastWhere<R>(rows: seq<R>, p: R -> bool): (k: int)
    ensures -1 <= k < |rows|
    ensures k == -1 <==> forall i :: 0 <= i < |rows| ==> !p(rows[i])
    ensures 0 <= k ==> p(rows[k]) && forall i :: k < i < |rows| ==> !p(rows[i])
    decreases |rows|
  {
    if rows == [] then -1
    else if p(rows[|rows| - 1]) then |rows| - 1
    else LastWhere(rows[..|rows| - 1], p)
  }

  /** Appending a row moves the last match onto it exactly when it matches. */
  lemma LastWhereAppend<R>(rows: seq<R>, x: R, p: R -> bool)
    ensures LastWhere(rows + [x], p) == if p(x) then |rows| else LastWhere(rows, p)
  {
    assert (rows + [x])[..|rows|] == rows;
  }

  /** Ids that grow strictly along the table, as `AUTOINCREMENT` hands them out. */
  ghost predicate IncreasingIds<R>(rows: seq<R>, id: R -> int) {
    forall i, j :: 0 <= i < j < |rows| ==> id(rows[i]) < id(rows[j])
  }

  /** When ids grow along the table, the last matching row is the matching
      row with the highest id: what `ORDER BY id DESC LIMIT 1` selects. */
  lemma LastWhereHasHighestId<R>(rows: seq<R>, p: R -> bool, id: R -> int)
    requires IncreasingIds(rows, id)
    requires LastWhere(rows, p) != -1
    ensures forall i :: 0 <= i < |rows| && p(rows[i]) ==> id(rows[i]) <= id(rows[LastWhere(rows, p)])
  {
  }
}
