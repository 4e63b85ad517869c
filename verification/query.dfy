/** What the fluent query builders of src/la28/queries have in common:
    each `where` call adds one condition that every row must meet, each
    `order_by` call adds sort columns, and `fetch` returns the rows that
    meet all conditions in the order of the columns. Rows the columns do
    not tell apart keep their storage order. */
module Query {
  import opened Text
  import opened Sorting

  /** `WHERE p`: the rows satisfying `p`, in their order. */
  function Where<T(!new)>(rows: seq<T>, p: T -> bool): (r: seq<T>)
    ensures |r| <= |rows|
    ensures forall i :: 0 <= i < |r| ==> p(r[i])
    ensures forall x :: multiset(r)[x] == if p(x) then multiset(rows)[x] else 0
    decreases |rows|
  {
    if |rows| == 0 then []
    else
      var rest := Where(rows[1..], p);
      assert rows == [rows[0]] + rows[1..];
      assert multiset(rows) == multiset{rows[0]} + multiset(rows[1..]);
      if p(rows[0]) then [rows[0]] + rest else rest
  }

  /** `Where` takes the head row if it meets `p`, then filters the rest. */
  lemma WhereStep<T(!new)>(rows: seq<T>, p: T -> bool)
    requires |rows| > 0
    ensures Where(rows, p) == (if p(rows[0]) then [rows[0]] else []) + Where(rows[1..], p)
  {
  }

  /** A row is kept exactly when it is stored and meets `p`. */
  lemma WhereMembers<T(!new)>(rows: seq<T>, p: T -> bool, x: T)
    ensures x in Where(rows, p) <==> x in rows && p(x)
  {
    assert x in Where(rows, p) <==> multiset(Where(rows, p))[x] > 0;
    assert x in rows <==> multiset(rows)[x] > 0;
  }

  /** Only the verdicts on stored rows matter. */
  lemma {:induction false} WhereExtensional<T(!new)>(rows: seq<T>, p: T -> bool, q: T -> bool)
    requires forall x :: x in rows ==> p(x) == q(x)
    ensures Where(rows, p) == Where(rows, q)
    decreases |rows|
  {
    if |rows| > 0 {
      assert forall x :: x in rows[1..] ==> x in rows;
      WhereExtensional(rows[1..], p, q);
    }
  }

  /** Two conditions applied in turn keep the rows meeting both. */
  lemma {:induction false} WhereWhere<T(!new)>(rows: seq<T>, p: T -> bool, q: T -> bool)
    ensures Where(Where(rows, p), q) == Where(rows, x => p(x) && q(x))
    decreases |rows|
  {
    if |rows| > 0 {
      WhereWhere(rows[1..], p, q);
    }
  }

  /** A condition every row meets removes nothing. */
  lemma {:induction false} WhereAll<T(!new)>(rows: seq<T>, p: T -> bool)
    requires forall x :: x in rows ==> p(x)
    ensures Where(rows, p) == rows
    decreases |rows|
  {
    if |rows| > 0 {
      assert forall x :: x in rows[1..] ==> x in rows;
      WhereAll(rows[1..], p);
      assert rows == [rows[0]] + rows[1..];
    }
  }

  /** `SELECT ... WHERE p ORDER BY cols`. */
  function Select<T(!new), C>(rows: seq<T>, p: T -> bool, cols: seq<C>, val: (T, C) -> Pair): (r: seq<T>)
    ensures |r| == |Where(rows, p)|
    ensures multiset(r) == multiset(Where(rows, p))
    ensures forall x :: x in r <==> x in rows && p(x)
    ensures forall i, j :: 0 <= i < j < |r| ==> LexLe(r[i], r[j], cols, val)
  {
    var r := Sort(Where(rows, p), (x, y) => LexLe(x, y, cols, val));
    LexLeSorts(Where(rows, p), cols, val);
    forall x ensures x in r <==> x in rows && p(x) {
      WhereMembers(rows, p, x);
      assert x in r <==> x in multiset(r);
    }
    r
  }

  /** Without sort columns a selection keeps storage order. */
  lemma {:induction false} SelectUnordered<T(!new), C>(rows: seq<T>, p: T -> bool, val: (T, C) -> Pair)
    ensures Select(rows, p, [], val) == Where(rows, p)
  {
    SortKeepsOrder(Where(rows, p), (x: T, y: T) => LexLe(x, y, [], val));
  }

  lemma {:induction false} SortKeepsOrder<T>(s: seq<T>, le: (T, T) -> bool)
    requires forall x, y :: le(x, y)
    ensures Sort(s, le) == s
    decreases |s|
  {
    if |s| > 0 {
      SortKeepsOrder(s[1..], le);
      assert s == [s[0]] + s[1..];
      if |s| > 1 {
        assert le(s[0], s[1..][0]);
      }
    }
  }

  /** `first()`: the head of the result, if any. */
  function Head<T>(rows: seq<T>): (r: Option<T>)
    ensures r.None? <==> |rows| == 0
    ensures r.Some? ==> r.value == rows[0]
  {
    if |rows| == 0 then None else Some(rows[0])
  }

  /** Every condition of `fs` holds of `x`. */
  predicate AllHold<F, T>(fs: seq<F>, holds: (F, T) -> bool, x: T) {
    forall i :: 0 <= i < |fs| ==> holds(fs[i], x)
  }

  function Conjunction<F, T>(fs: seq<F>, holds: (F, T) -> bool): T -> bool {
    x => AllHold(fs, holds, x)
  }

  /** `fetch` of a builder holding conditions `fs` and sort columns `cols`. */
  function Run<F(!new), T(!new), C>(rows: seq<T>, fs: seq<F>, holds: (F, T) -> bool, cols: seq<C>, val: (T, C) -> Pair): (r: seq<T>)
    ensures forall x :: x in r <==> x in rows && forall f :: f in fs ==> holds(f, x)
    ensures forall i, j :: 0 <= i < j < |r| ==> LexLe(r[i], r[j], cols, val)
    ensures |r| == |Where(rows, Conjunction(fs, holds))| <= |rows|
  {
    var r := Select(rows, Conjunction(fs, holds), cols, val);
    assert forall x :: AllHold(fs, holds, x) <==> forall f :: f in fs ==> holds(f, x);
    r
  }

  /** Only the set of conditions matters: not the order of the calls that
      added them, nor repeated calls. */
  lemma ConditionsAreASet<F(!new), T(!new), C>(rows: seq<T>, fs1: seq<F>, fs2: seq<F>, holds: (F, T) -> bool, cols: seq<C>, val: (T, C) -> Pair)
    requires forall f :: f in fs1 <==> f in fs2
    ensures Run(rows, fs1, holds, cols, val) == Run(rows, fs2, holds, cols, val)
  {
    forall x | x in rows ensures Conjunction(fs1, holds)(x) == Conjunction(fs2, holds)(x) {
      assert AllHold(fs1, holds, x) <==> forall f :: f in fs1 ==> holds(f, x);
      assert AllHold(fs2, holds, x) <==> forall f :: f in fs2 ==> holds(f, x);
    }
    WhereExtensional(rows, Conjunction(fs1, holds), Conjunction(fs2, holds));
  }

  /** A builder with no condition and no column returns the rows as stored. */
  lemma RunNothing<F(!new), T(!new), C>(rows: seq<T>, holds: (F, T) -> bool, val: (T, C) -> Pair)
    ensures Run(rows, [], holds, [], val) == rows
  {
    WhereAll(rows, Conjunction([], holds));
    SelectUnordered(rows, Conjunction([], holds), val);
  }

  /** The head of a sorted result sorts no later than any of its rows. */
  lemma HeadIsLeast<T, C>(rows: seq<T>, cols: seq<C>, val: (T, C) -> Pair)
    requires forall i, j :: 0 <= i < j < |rows| ==> LexLe(rows[i], rows[j], cols, val)
    ensures |rows| > 0 ==> forall x :: x in rows ==> LexLe(rows[0], x, cols, val)
  {
    if |rows| > 0 {
      forall x | x in rows ensures LexLe(rows[0], x, cols, val) {
        var j :| 0 <= j < |rows| && rows[j] == x;
        if j == 0 {
          LexLeTotal(x, x, cols, val);
        }
      }
    }
  }
}
