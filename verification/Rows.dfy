/** Selecting rows of a table in the order they were inserted. */
module Rows {

  /** The rows satisfying `p`, in table order. */
  function Where<T>(rows: seq<T>, p: T -> bool): seq<T> {
    if rows == [] then []
    else
      var last := rows[|rows| - 1];
      Where(rows[..|rows| - 1], p) + if p(last) then [last] else []
  }

  /** The first row satisfying `p`, by position: `SELECT id ... LIMIT 1`. */
  function First<T>(rows: seq<T>, p: T -> bool): (id: int)
    ensures -1 <= id < |rows|
    ensures id >= 0 ==> p(rows[id])
    ensures forall i :: 0 <= i < (if id < 0 then |rows| else id) ==> !p(rows[i])
  {
    if rows == [] then -1
    else
      var id := First(rows[..|rows| - 1], p);
      if id >= 0 then id else if p(rows[|rows| - 1]) then |rows| - 1 else -1
  }

  lemma {:induction false} WhereAppend<T>(a: seq<T>, b: seq<T>, p: T -> bool)
    ensures Where(a + b, p) == Where(a, p) + Where(b, p)
  {
    if b == [] {
      assert a + b == a;
    } else {
      var k := |b| - 1;
      WhereAppend(a, b[..k], p);
      assert (a + b)[..|a + b| - 1] == a + b[..k];
    }
  }

  lemma {:induction false} WhereMember<T>(rows: seq<T>, p: T -> bool, x: T)
    ensures x in Where(rows, p) <==> x in rows && p(x)
  {
    if rows != [] {
      var k := |rows| - 1;
      WhereMember(rows[..k], p, x);
      assert x in rows <==> x in rows[..k] || x == rows[k] by {
        assert rows == rows[..k] + [rows[k]];
      }
    }
  }

  lemma {:induction false} WhereAll<T>(rows: seq<T>, p: T -> bool)
    requires forall i :: 0 <= i < |rows| ==> p(rows[i])
    ensures Where(rows, p) == rows
  {
    if rows != [] {
      WhereAll(rows[..|rows| - 1], p);
    }
  }

  lemma {:induction false} WhereNone<T>(rows: seq<T>, p: T -> bool)
    requires forall i :: 0 <= i < |rows| ==> !p(rows[i])
    ensures Where(rows, p) == []
  {
    if rows != [] {
      WhereNone(rows[..|rows| - 1], p);
    }
  }

  lemma {:induction false} WhereSame<T>(rows: seq<T>, p: T -> bool, q: T -> bool)
    requires forall i :: 0 <= i < |rows| ==> p(rows[i]) == q(rows[i])
    ensures Where(rows, p) == Where(rows, q)
  {
    if rows != [] {
      WhereSame(rows[..|rows| - 1], p, q);
    }
  }

  /** `n` copies of `xs`, one after another. */
  function Repeat<T>(xs: seq<T>, n: nat): (ys: seq<T>)
    ensures |ys| == n * |xs|
  {
    if n == 0 then [] else Repeat(xs, n - 1) + xs
  }

  lemma {:induction false} RepeatMember<T>(xs: seq<T>, n: nat, x: T)
    ensures x in Repeat(xs, n) <==> n > 0 && x in xs
  {
    if n > 0 {
      RepeatMember(xs, n - 1, x);
    }
  }

  // ---------------------------------------------------------------- ORDER BY

  /** `ORDER BY`, as a stable insertion sort on the comparison `le`. */
  function OrderBy<T>(rows: seq<T>, le: (T, T) -> bool): (sorted: seq<T>)
    ensures |sorted| == |rows|
  {
    if rows == [] then [] else Insert(rows[|rows| - 1], OrderBy(rows[..|rows| - 1], le), le)
  }

  function Insert<T>(x: T, rows: seq<T>, le: (T, T) -> bool): (more: seq<T>)
    ensures |more| == |rows| + 1
  {
    if rows == [] then [x]
    else
      var last := rows[|rows| - 1];
      if le(last, x) then rows + [x] else Insert(x, rows[..|rows| - 1], le) + [last]
  }

  ghost predicate Sorted<T>(rows: seq<T>, le: (T, T) -> bool) {
    forall i, j :: 0 <= i < j < |rows| ==> le(rows[i], rows[j])
  }

  /** Rows that are in order already are returned as they are. */
  lemma {:induction false} OrderBySorted<T>(rows: seq<T>, le: (T, T) -> bool)
    requires Sorted(rows, le)
    ensures OrderBy(rows, le) == rows
  {
    if rows != [] {
      OrderBySorted(rows[..|rows| - 1], le);
    }
  }

  lemma {:induction false} InsertSorts<T>(x: T, rows: seq<T>, le: (T, T) -> bool)
    requires Sorted(rows, le)
    requires forall a, b :: le(a, b) || le(b, a)
    requires forall a, b, c :: le(a, b) && le(b, c) ==> le(a, c)
    ensures Sorted(Insert(x, rows, le), le)
    ensures multiset(Insert(x, rows, le)) == multiset(rows) + multiset{x}
  {
    if rows != [] {
      var front, last := rows[..|rows| - 1], rows[|rows| - 1];
      assert rows == front + [last];
      if le(last, x) {
        forall i | 0 <= i < |rows| ensures le(rows[i], x) {
          assert i == |rows| - 1 || le(rows[i], last);
        }
      } else {
        InsertSorts(x, front, le);
        forall i | 0 <= i < |rows| ensures le(Insert(x, front, le)[i], last) {
          assert Insert(x, front, le)[i] in multiset(front) + multiset{x};
        }
      }
    }
  }

  /** The result is sorted and holds the same rows. */
  lemma {:induction false} OrderBySorts<T>(rows: seq<T>, le: (T, T) -> bool)
    requires forall a, b :: le(a, b) || le(b, a)
    requires forall a, b, c :: le(a, b) && le(b, c) ==> le(a, c)
    ensures Sorted(OrderBy(rows, le), le)
    ensures multiset(OrderBy(rows, le)) == multiset(rows)
  {
    if rows != [] {
      var k := |rows| - 1;
      OrderBySorts(rows[..k], le);
      InsertSorts(rows[k], OrderBy(rows[..k], le), le);
      assert rows == rows[..k] + [rows[k]];
    }
  }
}
