/** Stable insertion sort, permutations of index ranges and lexicographic
    comparison of column values: the ordering machinery behind the SQL
    `ORDER BY` clauses of the numbering pass and of the query builders.
    Rows that compare equal keep their storage order, which is the choice
    this model makes where SQL leaves the order of ties unspecified. */
module Sorting {

  /** `x` placed before the first element it is `le` to. */
  function Insert<T>(x: T, s: seq<T>, le: (T, T) -> bool): (r: seq<T>)
    ensures multiset(r) == multiset(s) + multiset{x}
    ensures |r| == |s| + 1
    decreases |s|
  {
    if |s| == 0 then [x]
    else if le(x, s[0]) then [x] + s
    else
      assert s == [s[0]] + s[1..];
      [s[0]] + Insert(x, s[1..], le)
  }

  /** Insertion sort; the result is a permutation of the input. */
  function Sort<T>(s: seq<T>, le: (T, T) -> bool): (r: seq<T>)
    ensures multiset(r) == multiset(s)
    ensures |r| == |s|
    decreases |s|
  {
    if |s| == 0 then []
    else
      assert s == [s[0]] + s[1..];
      Insert(s[0], Sort(s[1..], le), le)
  }

  ghost predicate SortedBy<T>(s: seq<T>, le: (T, T) -> bool) {
    forall i, j :: 0 <= i < j < |s| ==> le(s[i], s[j])
  }

  /** `le` is a total preorder on the values in `s`. */
  ghost predicate TotalPreorderOn<T>(s: seq<T>, le: (T, T) -> bool) {
    && (forall x, y :: x in s && y in s ==> le(x, y) || le(y, x))
    && (forall x, y, z :: x in s && y in s && z in s && le(x, y) && le(y, z) ==> le(x, z))
  }

  lemma TotalPreorderOnSub<T>(s: seq<T>, t: seq<T>, le: (T, T) -> bool)
    requires TotalPreorderOn(s, le)
    requires forall x :: x in t ==> x in s
    ensures TotalPreorderOn(t, le)
  {
  }

  lemma {:induction false} InsertSorted<T>(x: T, s: seq<T>, le: (T, T) -> bool)
    requires SortedBy(s, le)
    requires TotalPreorderOn([x] + s, le)
    ensures SortedBy(Insert(x, s, le), le)
    decreases |s|
  {
    if |s| > 0 && !le(x, s[0]) {
      var rest := Insert(x, s[1..], le);
      assert forall y :: y in [x] + s[1..] ==> y in [x] + s;
      TotalPreorderOnSub([x] + s, [x] + s[1..], le);
      InsertSorted(x, s[1..], le);
      assert le(s[0], x) by { assert x in [x] + s && s[0] in [x] + s; }
      forall j | 0 <= j < |rest| ensures le(s[0], rest[j]) {
        assert rest[j] in multiset(rest);
        if rest[j] != x {
          assert rest[j] in s[1..];
          var k :| 0 <= k < |s[1..]| && s[1..][k] == rest[j];
          assert s[k + 1] == rest[j];
        }
      }
    } else if |s| > 0 {
      forall j | 0 < j < |s| ensures le(x, s[j]) {
        assert s[0] in [x] + s && s[j] in [x] + s && x in [x] + s;
      }
    }
  }

  /** Under a total preorder, insertion sort returns a sorted sequence. */
  lemma {:induction false} SortSorted<T>(s: seq<T>, le: (T, T) -> bool)
    requires TotalPreorderOn(s, le)
    ensures SortedBy(Sort(s, le), le)
    decreases |s|
  {
    if |s| > 0 {
      TotalPreorderOnSub(s, s[1..], le);
      SortSorted(s[1..], le);
      var sorted := Sort(s[1..], le);
      forall y | y in [s[0]] + sorted ensures y in s {
        if y != s[0] {
          assert y in multiset(sorted);
        }
      }
      TotalPreorderOnSub(s, [s[0]] + sorted, le);
      InsertSorted(s[0], sorted, le);
    }
  }

  /** The sort consults `le` only on the values it is given. */
  lemma {:induction false} SortCongruent<T>(s: seq<T>, le1: (T, T) -> bool, le2: (T, T) -> bool)
    requires forall x, y :: x in s && y in s ==> le1(x, y) == le2(x, y)
    ensures Sort(s, le1) == Sort(s, le2)
    decreases |s|
  {
    if |s| > 0 {
      SortCongruent(s[1..], le1, le2);
      forall y | y in Sort(s[1..], le1) ensures y in s {
        assert y in multiset(Sort(s[1..], le1));
      }
      InsertCongruent(s[0], Sort(s[1..], le1), le1, le2, s);
    }
  }

  lemma {:induction false} InsertCongruent<T>(x: T, t: seq<T>, le1: (T, T) -> bool, le2: (T, T) -> bool, s: seq<T>)
    requires x in s
    requires forall y :: y in t ==> y in s
    requires forall a, b :: a in s && b in s ==> le1(a, b) == le2(a, b)
    ensures Insert(x, t, le1) == Insert(x, t, le2)
    decreases |t|
  {
    if |t| > 0 {
      assert t[0] in s;
      InsertCongruent(x, t[1..], le1, le2, s);
    }
  }

  /** `r` lists each of `0..n-1` exactly once. */
  ghost predicate IsPermutationOfRange(r: seq<nat>, n: nat) {
    && |r| == n
    && (forall p :: 0 <= p < |r| ==> r[p] < n)
    && (forall k :: 0 <= k < n ==> k in r)
    && (forall p, q :: 0 <= p < q < |r| ==> r[p] != r[q])
  }

  function Range(n: nat): (r: seq<nat>)
    ensures |r| == n
    ensures forall i :: 0 <= i < n ==> r[i] == i
  {
    seq(n, i requires 0 <= i < n => i)
  }

  lemma {:induction false} DistinctMultiplicity<T>(s: seq<T>, i: nat)
    requires i < |s|
    requires forall p, q :: 0 <= p < q < |s| ==> s[p] != s[q]
    ensures multiset(s)[s[i]] == 1
  {
    var x := s[i];
    assert s == s[..i] + [x] + s[i + 1..];
    forall y | y in s[..i] ensures y != x {
      var k :| 0 <= k < i && s[..i][k] == y;
      assert s[k] != s[i];
    }
    var tail := s[i + 1..];
    forall y | y in tail ensures y != x {
      var k :| 0 <= k < |tail| && tail[k] == y;
      assert s[i] != s[i + 1 + k];
    }
  }

  lemma RepeatedMultiplicity<T>(r: seq<T>, p: nat, q: nat)
    requires p < q < |r|
    ensures r[p] == r[q] ==> multiset(r)[r[p]] >= 2
  {
    assert r == r[..p] + [r[p]] + r[p + 1..q] + [r[q]] + r[q + 1..];
  }

  lemma {:induction false} MultisetDistinct<T>(r: seq<T>, s: seq<T>)
    requires multiset(r) == multiset(s)
    requires forall p, q :: 0 <= p < q < |s| ==> s[p] != s[q]
    ensures forall p, q :: 0 <= p < q < |r| ==> r[p] != r[q]
  {
    forall p, q | 0 <= p < q < |r| ensures r[p] != r[q] {
      assert r[p] in multiset(s);
      var i :| 0 <= i < |s| && s[i] == r[p];
      DistinctMultiplicity(s, i);
      RepeatedMultiplicity(r, p, q);
    }
  }

  /** Sorting `0..n-1` by any comparison yields a permutation of `0..n-1`. */
  function SortRange(n: nat, le: (nat, nat) -> bool): (r: seq<nat>)
    ensures IsPermutationOfRange(r, n)
  {
    var r := Sort<nat>(Range(n), le);
    assert forall p :: 0 <= p < |r| ==> r[p] < n by {
      forall p | 0 <= p < |r| ensures r[p] < n {
        assert r[p] in multiset(Range(n));
      }
    }
    assert forall k :: 0 <= k < n ==> k in r by {
      forall k | 0 <= k < n ensures k in r {
        assert Range(n)[k] == k;
        assert k in multiset(r);
      }
    }
    MultisetDistinct(r, Range(n));
    r
  }

  /** Applies `f` to every element. */
  function MapSeq<A, B>(f: A -> B, s: seq<A>): (r: seq<B>)
    ensures |r| == |s|
    ensures forall i :: 0 <= i < |s| ==> r[i] == f(s[i])
  {
    seq(|s|, i requires 0 <= i < |s| => f(s[i]))
  }

  lemma MapSeqConcat<A, B>(f: A -> B, s: seq<A>, t: seq<A>)
    ensures MapSeq(f, s + t) == MapSeq(f, s) + MapSeq(f, t)
  {
  }

  lemma MapSeqCons<A, B>(f: A -> B, a: seq<A>)
    requires |a| > 0
    ensures MapSeq(f, a) == [f(a[0])] + MapSeq(f, a[1..])
  {
  }

  /** Removing the element at `j` removes its image from the mapped multiset. */
  lemma MapSeqRemove<A, B>(f: A -> B, b: seq<A>, j: nat)
    requires j < |b|
    ensures multiset(MapSeq(f, b)) == multiset(MapSeq(f, b[..j] + b[j + 1..])) + multiset{f(b[j])}
  {
    assert b == b[..j] + [b[j]] + b[j + 1..];
    MapSeqConcat(f, b[..j] + [b[j]], b[j + 1..]);
    MapSeqConcat(f, b[..j], [b[j]]);
    MapSeqConcat(f, b[..j], b[j + 1..]);
  }

  lemma RemoveFromMultiset<A>(a: seq<A>, b: seq<A>, j: nat)
    requires multiset(a) == multiset(b) && |a| > 0
    requires j < |b| && b[j] == a[0]
    ensures multiset(a[1..]) == multiset(b[..j] + b[j + 1..])
  {
    assert a == [a[0]] + a[1..];
    assert b == b[..j] + [b[j]] + b[j + 1..];
    assert multiset(a[1..]) == multiset(a) - multiset{a[0]};
    assert multiset(b[..j] + b[j + 1..]) == multiset(b) - multiset{b[j]};
  }

  /** Mapping two permutations of each other gives permutations of each other. */
  lemma {:induction false} MapPermutation<A, B>(f: A -> B, a: seq<A>, b: seq<A>)
    requires multiset(a) == multiset(b)
    ensures multiset(MapSeq(f, a)) == multiset(MapSeq(f, b))
    decreases |a|
  {
    if |a| > 0 {
      assert a[0] in multiset(b);
      var j :| 0 <= j < |b| && b[j] == a[0];
      RemoveFromMultiset(a, b, j);
      MapPermutation(f, a[1..], b[..j] + b[j + 1..]);
      MapPermutationStep(f, a, b, j);
    } else {
      assert |b| == |multiset(b)| == 0;
    }
  }

  lemma MapPermutationStep<A, B>(f: A -> B, a: seq<A>, b: seq<A>, j: nat)
    requires |a| > 0 && j < |b| && b[j] == a[0]
    requires multiset(MapSeq(f, a[1..])) == multiset(MapSeq(f, b[..j] + b[j + 1..]))
    ensures multiset(MapSeq(f, a)) == multiset(MapSeq(f, b))
  {
    assert multiset(MapSeq(f, a)) == multiset(MapSeq(f, a[1..])) + multiset{f(a[0])} by {
      MapSeqCons(f, a);
    }
    assert multiset(MapSeq(f, b)) == multiset(MapSeq(f, b[..j] + b[j + 1..])) + multiset{f(b[j])} by {
      MapSeqRemove(f, b, j);
    }
  }

  /** A pair of integers compared lexicographically: the value of one
      `ORDER BY` column, already turned so that "smaller" sorts first. */
  datatype Pair = Pair(hi: int, lo: int)

  predicate PairLt(a: Pair, b: Pair) {
    a.hi < b.hi || (a.hi == b.hi && a.lo < b.lo)
  }

  /** `a` sorts no later than `b` under the column list `cols`: the first
      column on which they differ decides, as in `ORDER BY c1, c2, ...`. */
  function LexLe<T, C>(a: T, b: T, cols: seq<C>, val: (T, C) -> Pair): bool
    decreases |cols|
  {
    if |cols| == 0 then true
    else if PairLt(val(a, cols[0]), val(b, cols[0])) then true
    else if PairLt(val(b, cols[0]), val(a, cols[0])) then false
    else LexLe(a, b, cols[1..], val)
  }

  lemma {:induction false} LexLeTotal<T, C>(a: T, b: T, cols: seq<C>, val: (T, C) -> Pair)
    ensures LexLe(a, b, cols, val) || LexLe(b, a, cols, val)
    decreases |cols|
  {
    if |cols| > 0 {
      LexLeTotal(a, b, cols[1..], val);
    }
  }

  lemma {:induction false} LexLeTransitive<T, C>(a: T, b: T, c: T, cols: seq<C>, val: (T, C) -> Pair)
    requires LexLe(a, b, cols, val) && LexLe(b, c, cols, val)
    ensures LexLe(a, c, cols, val)
    decreases |cols|
  {
    if |cols| > 0 {
      var va, vb, vc := val(a, cols[0]), val(b, cols[0]), val(c, cols[0]);
      if !PairLt(va, vb) && !PairLt(vb, va) && !PairLt(vb, vc) && !PairLt(vc, vb) {
        LexLeTransitive(a, b, c, cols[1..], val);
      }
    }
  }

  /** Every column list gives a total preorder, so sorting by it sorts. */
  lemma LexLeSorts<T, C>(s: seq<T>, cols: seq<C>, val: (T, C) -> Pair)
    ensures SortedBy(Sort(s, (x, y) => LexLe(x, y, cols, val)), (x, y) => LexLe(x, y, cols, val))
  {
    var le := (x, y) => LexLe(x, y, cols, val);
    forall x, y | x in s && y in s ensures le(x, y) || le(y, x) {
      LexLeTotal(x, y, cols, val);
    }
    forall x, y, z | x in s && y in s && z in s && le(x, y) && le(y, z) ensures le(x, z) {
      LexLeTransitive(x, y, z, cols, val);
    }
    SortSorted(s, le);
  }
}
