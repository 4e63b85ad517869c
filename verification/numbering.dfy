/** The numbering pass of src/la28/parsing.py (`_compute_numbering`): a full
    recompute over a sorted snapshot. Sessions are ordered by
    (starts_at, code) and events by (starts_at, code, order_in_session) of
    their session; each gets its position in that order, the total, its
    position among the rows of the same sport and that sport's total. The
    per-sport positions come from a running count map, as in the source, and
    the per-sport totals from a pre-pass over the same order. */
module Numbering {
  import opened Text
  import opened Sorting
  import opened Models

  /** The `ORDER BY` key: start instant, session code, order within the
      session. Sessions use 0 for the last component. */
  datatype Key = Key(at: int, code: string, order: int)

  predicate KeyLe(a: Key, b: Key) {
    || a.at < b.at
    || (a.at == b.at && StrLt(a.code, b.code))
    || (a.at == b.at && a.code == b.code && a.order <= b.order)
  }

  /** `a` sorts strictly before `b`. */
  predicate KeyLt(a: Key, b: Key) {
    !KeyLe(b, a)
  }

  lemma KeyLeTotal(a: Key, b: Key)
    ensures KeyLe(a, b) || KeyLe(b, a)
  {
    StrLtConnected(a.code, b.code);
  }

  lemma KeyLeTransitive(a: Key, b: Key, c: Key)
    requires KeyLe(a, b) && KeyLe(b, c)
    ensures KeyLe(a, c)
  {
    if a.at == b.at == c.at && StrLt(a.code, b.code) && StrLt(b.code, c.code) {
      StrLtTransitive(a.code, b.code, c.code);
    }
  }

  /** Two different keys are strictly ordered one way or the other. */
  lemma KeyLtConnected(a: Key, b: Key)
    ensures a == b || KeyLt(a, b) || KeyLt(b, a)
  {
    StrLtConnected(a.code, b.code);
    StrLtAsymmetric(a.code, b.code);
    StrLtIrreflexive(a.code);
  }

  /** The comparison of row indices by their keys. */
  function ByKey(key: nat -> Key): (nat, nat) -> bool {
    (i: nat, j: nat) => KeyLe(key(i), key(j))
  }

  /** The rows `idx` sorted by key; rows with equal keys keep their order. */
  function OrderBy(idx: seq<nat>, key: nat -> Key): (order: seq<nat>)
    ensures multiset(order) == multiset(idx)
  {
    Sort(idx, ByKey(key))
  }

  lemma OrderBySorted(idx: seq<nat>, key: nat -> Key)
    ensures SortedBy(OrderBy(idx, key), ByKey(key))
  {
    var le := ByKey(key);
    forall x, y | x in idx && y in idx ensures le(x, y) || le(y, x) {
      KeyLeTotal(key(x), key(y));
    }
    forall x, y, z | x in idx && y in idx && z in idx && le(x, y) && le(y, z) ensures le(x, z) {
      KeyLeTransitive(key(x), key(y), key(z));
    }
    SortSorted(idx, le);
  }

  /** In a sorted order, a row with a strictly smaller key comes first. */
  lemma SortedPositions(order: seq<nat>, key: nat -> Key, p: nat, q: nat)
    requires SortedBy(order, ByKey(key))
    requires p < |order| && q < |order|
    requires KeyLt(key(order[p]), key(order[q]))
    ensures p < q
  {
    SortedLe(order, key, q, p);
  }

  lemma SortedLe(order: seq<nat>, key: nat -> Key, a: nat, b: nat)
    requires SortedBy(order, ByKey(key))
    requires a < |order| && b < |order|
    ensures a <= b ==> KeyLe(key(order[a]), key(order[b]))
  {
    if a < b {
      assert ByKey(key)(order[a], order[b]);
    }
  }

  /** Python's `d.get(k, 0)`. */
  function Get(m: map<string, nat>, k: string): nat {
    if k in m then m[k] else 0
  }

  /** The running count map after visiting `idx` in turn: each visit adds one
      to the entry of the row's group. */
  function Tally(idx: seq<nat>, group: nat -> string): (m: map<string, nat>)
    decreases |idx|
  {
    if |idx| == 0 then map[]
    else
      var m := Tally(idx[..|idx| - 1], group);
      var g := group(idx[|idx| - 1]);
      m[g := Get(m, g) + 1]
  }

  /** How many of the rows `idx` belong to group `g`. */
  ghost function Count(idx: seq<nat>, group: nat -> string, g: string): nat {
    multiset(MapSeq(group, idx))[g]
  }

  /** The running map counts exactly the rows of each group. */
  lemma {:induction false} TallyCounts(idx: seq<nat>, group: nat -> string, g: string)
    ensures Get(Tally(idx, group), g) == Count(idx, group, g)
    decreases |idx|
  {
    if |idx| > 0 {
      var n := |idx| - 1;
      TallyCounts(idx[..n], group, g);
      assert idx == idx[..n] + [idx[n]];
      MapSeqConcat(group, idx[..n], [idx[n]]);
    }
  }

  lemma CountSplit(idx: seq<nat>, group: nat -> string, g: string, k: nat)
    requires k <= |idx|
    ensures Count(idx, group, g) == Count(idx[..k], group, g) + Count(idx[k..], group, g)
  {
    assert idx == idx[..k] + idx[k..];
    MapSeqConcat(group, idx[..k], idx[k..]);
  }

  lemma CountLast(idx: seq<nat>, group: nat -> string, g: string)
    requires |idx| > 0
    ensures Count(idx, group, g) == Count(idx[..|idx| - 1], group, g) + (if group(idx[|idx| - 1]) == g then 1 else 0)
  {
    CountSplit(idx, group, g, |idx| - 1);
    assert idx[|idx| - 1..] == [idx[|idx| - 1]];
  }

  /** The four counters one row receives. */
  datatype Counters = Counters(number: nat, total: nat, groupNumber: nat, groupTotal: nat)

  /** The counters of the row at position `p` of `order`: its 1-based
      position, the length, the running count of its group just after it and
      its group's total from the pre-pass. */
  function CountersAt(order: seq<nat>, group: nat -> string, p: nat): (c: Counters)
    requires p < |order|
    ensures c.number == p + 1 && c.total == |order|
    ensures c.groupNumber == Count(order[..p + 1], group, group(order[p]))
    ensures c.groupTotal == Count(order, group, group(order[p]))
  {
    var g := group(order[p]);
    TallyCounts(order[..p + 1], group, g);
    TallyCounts(order, group, g);
    Counters(p + 1, |order|, Get(Tally(order[..p + 1], group), g), Get(Tally(order, group), g))
  }

  /** Group positions run from 1 to the group's total. */
  lemma GroupNumberBounds(order: seq<nat>, group: nat -> string, p: nat)
    requires p < |order|
    ensures 1 <= CountersAt(order, group, p).groupNumber <= CountersAt(order, group, p).groupTotal
  {
    var g := group(order[p]);
    CountLast(order[..p + 1], group, g);
    assert order[..p + 1][..p] == order[..p];
    CountSplit(order, group, g, p + 1);
  }

  /** Within a group, later positions get strictly larger group numbers. */
  lemma GroupNumberIncreases(order: seq<nat>, group: nat -> string, p: nat, q: nat)
    requires p < q < |order|
    requires group(order[p]) == group(order[q])
    ensures CountersAt(order, group, p).groupNumber < CountersAt(order, group, q).groupNumber
  {
    var g := group(order[q]);
    var pre := order[..q + 1];
    CountSplit(pre, group, g, p + 1);
    assert pre[..p + 1] == order[..p + 1];
    var mid := pre[p + 1..];
    assert mid[|mid| - 1] == order[q];
    CountLast(mid, group, g);
  }

  /** Every group number from 1 to the group's count is reached. */
  lemma {:induction false} GroupNumberReached(order: seq<nat>, group: nat -> string, g: string, k: nat)
    requires 1 <= k <= Count(order, group, g)
    ensures exists p :: 0 <= p < |order| && group(order[p]) == g && Count(order[..p + 1], group, g) == k
    decreases |order|
  {
    var n := |order| - 1;
    CountLast(order, group, g);
    assert order[..n + 1] == order;
    if k <= Count(order[..n], group, g) {
      GroupNumberReached(order[..n], group, g, k);
      var p :| 0 <= p < n && group(order[..n][p]) == g && Count(order[..n][..p + 1], group, g) == k;
      assert order[..n][..p + 1] == order[..p + 1];
    } else {
      assert group(order[n]) == g && Count(order[..n + 1], group, g) == k;
    }
  }

  /** The position of row `i` in `order`. */
  function PosOf(order: seq<nat>, i: nat): (p: nat)
    requires i in order
    ensures p < |order| && order[p] == i
  {
    if order[0] == i then 0 else 1 + PosOf(order[1..], i)
  }

  lemma PosOfUnique(order: seq<nat>, p: nat)
    requires forall a, b :: 0 <= a < b < |order| ==> order[a] != order[b]
    requires p < |order|
    ensures PosOf(order, order[p]) == p
  {
  }

  // ---------------------------------------------------------------------
  // Sessions

  /** A session with its four counters cleared: everything numbering must
      leave alone. */
  function ClearSession(s: Session): Session {
    s.(sessionNumber := None, totalSessions := None, sportSessionNumber := None, totalSportSessions := None)
  }

  function SessionKey(ss: seq<Session>): nat -> Key {
    (i: nat) => if i < |ss| then Key(Ordinal(ss[i].startsAt), ss[i].code, 0) else Key(0, "", 0)
  }

  function SessionSport(ss: seq<Session>): nat -> string {
    (i: nat) => if i < |ss| then ss[i].sport else ""
  }

  /** The session indices in (starts_at, code) order. */
  function SessionOrder(ss: seq<Session>): (order: seq<nat>)
    ensures IsPermutationOfRange(order, |ss|)
  {
    var order := OrderBy(Range(|ss|), SessionKey(ss));
    assert forall p :: 0 <= p < |order| ==> order[p] < |ss| by {
      forall p | 0 <= p < |order| ensures order[p] < |ss| {
        assert order[p] in multiset(Range(|ss|));
      }
    }
    assert forall k :: 0 <= k < |ss| ==> k in order by {
      forall k | 0 <= k < |ss| ensures k in order {
        assert Range(|ss|)[k] == k;
        assert k in multiset(order);
      }
    }
    MultisetDistinct(order, Range(|ss|));
    order
  }

  lemma SessionOrderSorted(ss: seq<Session>)
    ensures SortedBy(SessionOrder(ss), ByKey(SessionKey(ss)))
  {
    OrderBySorted(Range(|ss|), SessionKey(ss));
  }

  /** The session half of the pass. */
  function NumberSessions(ss: seq<Session>): (r: seq<Session>)
    ensures |r| == |ss|
    ensures forall i :: 0 <= i < |ss| ==> ClearSession(r[i]) == ClearSession(ss[i])
    ensures forall i :: 0 <= i < |ss| ==> r[i].totalSessions == Some(|ss|)
  {
    var order := SessionOrder(ss);
    var group := SessionSport(ss);
    seq(|ss|, i requires 0 <= i < |ss| => SessionAt(ss[i], order, group, i))
  }

  /** Session `s`, stored at index `i`, after the pass: the counters of its
      position in `order`. */
  function SessionAt(s: Session, order: seq<nat>, group: nat -> string, i: nat): (r: Session)
    requires i in order
    ensures ClearSession(r) == ClearSession(s)
    ensures r.totalSessions == Some(|order|)
    ensures r.sessionNumber == Some(PosOf(order, i) + 1)
    ensures r.sportSessionNumber == Some(CountersAt(order, group, PosOf(order, i)).groupNumber as int)
    ensures r.totalSportSessions == Some(CountersAt(order, group, PosOf(order, i)).groupTotal as int)
  {
    var c := CountersAt(order, group, PosOf(order, i));
    s.(sessionNumber := Some(c.number as int), totalSessions := Some(c.total as int),
       sportSessionNumber := Some(c.groupNumber as int), totalSportSessions := Some(c.groupTotal as int))
  }

  lemma NumberSessionsAt(ss: seq<Session>, i: nat)
    requires i < |ss|
    ensures i in SessionOrder(ss)
    ensures NumberSessions(ss)[i] == SessionAt(ss[i], SessionOrder(ss), SessionSport(ss), i)
  {
  }

  /** Some session carries number `k`. */
  ghost predicate NumberGiven(r: seq<Session>, k: int) {
    exists i :: 0 <= i < |r| && r[i].sessionNumber == Some(k)
  }

  /** Session numbers are a bijection onto 1..N. */
  lemma SessionNumbersArePermutation(ss: seq<Session>)
    ensures forall i :: 0 <= i < |ss| ==> NumberSessions(ss)[i].sessionNumber.Some?
    ensures forall i :: 0 <= i < |ss| ==> 1 <= NumberSessions(ss)[i].sessionNumber.value <= |ss|
    ensures forall i, j :: 0 <= i < j < |ss| ==>
              NumberSessions(ss)[i].sessionNumber != NumberSessions(ss)[j].sessionNumber
    ensures forall k :: 1 <= k <= |ss| ==> NumberGiven(NumberSessions(ss), k)
  {
    SessionNumbersInRange(ss);
    SessionNumbersDistinct(ss);
    SessionNumbersReached(ss);
  }

  lemma SessionNumbersInRange(ss: seq<Session>)
    ensures forall i :: 0 <= i < |ss| ==> NumberSessions(ss)[i].sessionNumber.Some?
    ensures forall i :: 0 <= i < |ss| ==> 1 <= NumberSessions(ss)[i].sessionNumber.value <= |ss|
  {
    forall i | 0 <= i < |ss| ensures NumberSessions(ss)[i].sessionNumber.Some? && 1 <= NumberSessions(ss)[i].sessionNumber.value <= |ss| {
      SessionNumberInRange(ss, i);
    }
  }

  lemma SessionNumberInRange(ss: seq<Session>, i: nat)
    requires i < |ss|
    ensures NumberSessions(ss)[i].sessionNumber.Some? && 1 <= NumberSessions(ss)[i].sessionNumber.value <= |ss|
  {
    var order := SessionOrder(ss);
    NumberSessionsAt(ss, i);
    var n := PosOf(order, i);
    assert n < |ss|;
    assert NumberSessions(ss)[i].sessionNumber == Some(n + 1);
  }

  lemma SessionNumbersDistinct(ss: seq<Session>)
    ensures forall i, j :: 0 <= i < j < |ss| ==>
              NumberSessions(ss)[i].sessionNumber != NumberSessions(ss)[j].sessionNumber
  {
    var order := SessionOrder(ss);
    var r := NumberSessions(ss);
    forall i, j | 0 <= i < j < |ss| ensures r[i].sessionNumber != r[j].sessionNumber {
      NumberSessionsAt(ss, i);
      NumberSessionsAt(ss, j);
      assert order[PosOf(order, i)] != order[PosOf(order, j)];
    }
  }

  lemma SessionNumbersReached(ss: seq<Session>)
    ensures forall k :: 1 <= k <= |ss| ==> NumberGiven(NumberSessions(ss), k)
  {
    var order := SessionOrder(ss);
    var r := NumberSessions(ss);
    forall k | 1 <= k <= |ss| ensures NumberGiven(r, k) {
      var i := order[k - 1];
      PosOfUnique(order, k - 1);
      NumberSessionsAt(ss, i);
      assert r[i].sessionNumber == Some(k);
    }
  }

  /** A session that sorts strictly earlier gets a smaller number. */
  lemma SessionNumbersFollowKey(ss: seq<Session>, i: nat, j: nat)
    requires i < |ss| && j < |ss|
    requires KeyLt(SessionKey(ss)(i), SessionKey(ss)(j))
    ensures NumberSessions(ss)[i].sessionNumber.value < NumberSessions(ss)[j].sessionNumber.value
  {
    var order := SessionOrder(ss);
    NumberSessionsAt(ss, i);
    NumberSessionsAt(ss, j);
    SessionOrderSorted(ss);
    SortedPositions(order, SessionKey(ss), PosOf(order, i), PosOf(order, j));
  }

  /** With distinct codes no two sessions tie on the key, so the numbering
      is the (starts_at, code) rank of every session. */
  lemma SessionKeysDistinct(ss: seq<Session>, i: nat, j: nat)
    requires UniqueCodes(ss)
    requires i < j < |ss|
    ensures KeyLt(SessionKey(ss)(i), SessionKey(ss)(j)) || KeyLt(SessionKey(ss)(j), SessionKey(ss)(i))
  {
    KeyLtConnected(SessionKey(ss)(i), SessionKey(ss)(j));
  }

  /** Per sport, numbers run 1..k in key order and k is the sport's session
      count. */
  lemma SportSessionNumbers(ss: seq<Session>, i: nat, j: nat)
    requires i < |ss| && j < |ss| && ss[i].sport == ss[j].sport
    ensures NumberSessions(ss)[i].totalSportSessions == Some(multiset(SportsOf(ss))[ss[i].sport])
    ensures 1 <= NumberSessions(ss)[i].sportSessionNumber.value <= NumberSessions(ss)[i].totalSportSessions.value
    ensures KeyLt(SessionKey(ss)(i), SessionKey(ss)(j)) ==>
              NumberSessions(ss)[i].sportSessionNumber.value < NumberSessions(ss)[j].sportSessionNumber.value
  {
    var order := SessionOrder(ss);
    var group := SessionSport(ss);
    NumberSessionsAt(ss, i);
    NumberSessionsAt(ss, j);
    var p, q := PosOf(order, i), PosOf(order, j);
    GroupNumberBounds(order, group, p);
    SportCountIsSessionCount(ss);
    if KeyLt(SessionKey(ss)(i), SessionKey(ss)(j)) {
      SessionOrderSorted(ss);
      SortedPositions(order, SessionKey(ss), p, q);
      GroupNumberIncreases(order, group, p, q);
    }
  }

  /** Every sport number up to the sport's total is given to some session. */
  lemma SportSessionNumbersReached(ss: seq<Session>, sport: string, k: int)
    requires 1 <= k <= multiset(SportsOf(ss))[sport]
    ensures exists i :: 0 <= i < |ss| && ss[i].sport == sport && NumberSessions(ss)[i].sportSessionNumber == Some(k)
  {
    var order := SessionOrder(ss);
    var group := SessionSport(ss);
    SportCountIsSessionCount(ss);
    GroupNumberReached(order, group, sport, k);
    var p :| 0 <= p < |order| && group(order[p]) == sport && Count(order[..p + 1], group, sport) == k;
    PosOfUnique(order, p);
    NumberSessionsAt(ss, order[p]);
    assert NumberSessions(ss)[order[p]].sportSessionNumber == Some(k);
  }

  function SportsOf(ss: seq<Session>): (r: seq<string>)
    ensures |r| == |ss| && forall i :: 0 <= i < |ss| ==> r[i] == ss[i].sport
  {
    seq(|ss|, i requires 0 <= i < |ss| => ss[i].sport)
  }

  /** Counting a sport along the sorted order counts it among all sessions. */
  lemma SportCountIsSessionCount(ss: seq<Session>)
    ensures forall g :: Count(SessionOrder(ss), SessionSport(ss), g) == multiset(SportsOf(ss))[g]
  {
    var order := SessionOrder(ss);
    var group := SessionSport(ss);
    OrderRangeMultiset(order, |ss|);
    MapPermutation(group, order, Range(|ss|));
    assert MapSeq(group, Range(|ss|)) == SportsOf(ss);
  }

  lemma OrderRangeMultiset(order: seq<nat>, n: nat)
    requires IsPermutationOfRange(order, n)
    ensures multiset(order) == multiset(Range(n))
  {
    var r := Range(n);
    forall x: nat ensures multiset(order)[x] == multiset(r)[x] {
      if x < n {
        assert r[x] == x;
        var p := PosOf(order, x);
        DistinctMultiplicity(order, p);
        DistinctMultiplicity(r, x);
      } else {
        assert x !in order;
        assert x !in r;
      }
    }
  }

  /** Numbering again changes nothing: it reads only fields it never writes. */
  lemma NumberSessionsIdempotent(ss: seq<Session>)
    ensures NumberSessions(NumberSessions(ss)) == NumberSessions(ss)
  {
    var r := NumberSessions(ss);
    forall i | 0 <= i < |ss| ensures SessionKey(r)(i) == SessionKey(ss)(i) && SessionSport(r)(i) == SessionSport(ss)(i) {
      assert ClearSession(r[i]) == ClearSession(ss[i]);
    }
    SameKeysSameOrder(Range(|ss|), SessionKey(r), SessionKey(ss), |ss|);
    var order := SessionOrder(ss);
    assert SessionOrder(r) == order;
    SameGroupsSameCounts(order, SessionSport(r), SessionSport(ss), |ss|);
    var rr := NumberSessions(r);
    forall i | 0 <= i < |ss| ensures rr[i] == r[i] {
      NumberSessionsAt(ss, i);
      NumberSessionsAt(r, i);
      assert ClearSession(r[i]) == ClearSession(ss[i]);
    }
  }

  lemma SameKeysSameOrder(idx: seq<nat>, k1: nat -> Key, k2: nat -> Key, n: nat)
    requires forall i :: 0 <= i < n ==> k1(i) == k2(i)
    requires forall x :: x in idx ==> x < n
    ensures OrderBy(idx, k1) == OrderBy(idx, k2)
  {
    SortCongruent(idx, ByKey(k1), ByKey(k2));
  }

  lemma SameGroupsSameCounts(order: seq<nat>, g1: nat -> string, g2: nat -> string, n: nat)
    requires forall i :: 0 <= i < n ==> g1(i) == g2(i)
    requires forall p :: 0 <= p < |order| ==> order[p] < n
    ensures forall p :: 0 <= p < |order| ==> CountersAt(order, g1, p) == CountersAt(order, g2, p)
  {
    assert MapSeq(g1, order) == MapSeq(g2, order);
    forall p | 0 <= p < |order| ensures CountersAt(order, g1, p) == CountersAt(order, g2, p) {
      assert MapSeq(g1, order[..p + 1]) == MapSeq(g2, order[..p + 1]);
    }
  }

  // ---------------------------------------------------------------------
  // Events

  function ClearEvent(e: Event): Event {
    e.(eventNumber := None, totalEvents := None, sportEventNumber := None, totalSportEvents := None)
  }

  /** The session stored under `code`, as a primary-key lookup. */
  function SessionOf(ss: seq<Session>, code: string): (r: Option<Session>)
    ensures r.Some? <==> exists i :: 0 <= i < |ss| && ss[i].code == code
    ensures r.Some? ==> r.value.code == code
  {
    if |ss| == 0 then None
    else if ss[0].code == code then Some(ss[0])
    else
      var r := SessionOf(ss[1..], code);
      assert (exists i :: 0 <= i < |ss| && ss[i].code == code) ==> r.Some? by {
        if exists i :: 0 <= i < |ss| && ss[i].code == code {
          var i :| 0 <= i < |ss| && ss[i].code == code;
          assert ss[1..][i - 1] == ss[i];
        }
      }
      r
  }

  predicate HasSession(ss: seq<Session>, es: seq<Event>, i: nat) {
    i < |es| && SessionOf(ss, es[i].code).Some?
  }

  /** The inner join of events with their session: the indices of events
      whose session exists, in storage order. */
  function Joined(ss: seq<Session>, es: seq<Event>, n: nat): (r: seq<nat>)
    requires n <= |es|
    ensures forall p :: 0 <= p < |r| ==> r[p] < n && HasSession(ss, es, r[p])
    ensures forall p, q :: 0 <= p < q < |r| ==> r[p] < r[q]
    ensures forall i :: 0 <= i < n && HasSession(ss, es, i) ==> i in r
  {
    if n == 0 then []
    else
      var r := Joined(ss, es, n - 1);
      if HasSession(ss, es, n - 1) then r + [n - 1] else r
  }

  function EventKey(ss: seq<Session>, es: seq<Event>): nat -> Key {
    (i: nat) =>
      if HasSession(ss, es, i) then Key(Ordinal(SessionOf(ss, es[i].code).value.startsAt), es[i].code, es[i].orderInSession)
      else Key(0, "", 0)
  }

  function EventSport(ss: seq<Session>, es: seq<Event>): nat -> string {
    (i: nat) => if HasSession(ss, es, i) then SessionOf(ss, es[i].code).value.sport else ""
  }

  /** The joined events in (starts_at, code, order_in_session) order. */
  function EventOrder(ss: seq<Session>, es: seq<Event>): (order: seq<nat>)
    ensures forall p :: 0 <= p < |order| ==> HasSession(ss, es, order[p])
    ensures forall i :: HasSession(ss, es, i) <==> i in order
    ensures forall p, q :: 0 <= p < q < |order| ==> order[p] != order[q]
  {
    var joined := Joined(ss, es, |es|);
    var order := OrderBy(joined, EventKey(ss, es));
    forall i ensures HasSession(ss, es, i) <==> i in order {
      assert i in order <==> i in multiset(joined);
    }
    MultisetDistinct(order, joined);
    order
  }

  lemma EventOrderSorted(ss: seq<Session>, es: seq<Event>)
    ensures SortedBy(EventOrder(ss, es), ByKey(EventKey(ss, es)))
  {
    OrderBySorted(Joined(ss, es, |es|), EventKey(ss, es));
  }

  /** The event half of the pass. Events without a session are not in the
      join and keep whatever counters they had. */
  function NumberEvents(ss: seq<Session>, es: seq<Event>): (r: seq<Event>)
    ensures |r| == |es|
    ensures forall i :: 0 <= i < |es| ==> ClearEvent(r[i]) == ClearEvent(es[i])
    ensures forall i :: 0 <= i < |es| && !HasSession(ss, es, i) ==> r[i] == es[i]
  {
    var order := EventOrder(ss, es);
    var group := EventSport(ss, es);
    seq(|es|, i requires 0 <= i < |es| => EventAt(es[i], order, group, i))
  }

  /** Event `e`, stored at index `i`, after the pass. */
  function EventAt(e: Event, order: seq<nat>, group: nat -> string, i: nat): (r: Event)
    ensures ClearEvent(r) == ClearEvent(e) && r.code == e.code
    ensures i !in order ==> r == e
    ensures i in order ==> r.eventNumber == Some(PosOf(order, i) + 1) && r.totalEvents == Some(|order|)
    ensures i in order ==> r.sportEventNumber == Some(CountersAt(order, group, PosOf(order, i)).groupNumber as int)
    ensures i in order ==> r.totalSportEvents == Some(CountersAt(order, group, PosOf(order, i)).groupTotal as int)
  {
    if i in order then
      var c := CountersAt(order, group, PosOf(order, i));
      e.(eventNumber := Some(c.number as int), totalEvents := Some(c.total as int),
         sportEventNumber := Some(c.groupNumber as int), totalSportEvents := Some(c.groupTotal as int))
    else e
  }

  lemma NumberEventsAt(ss: seq<Session>, es: seq<Event>, i: nat)
    requires i < |es|
    ensures HasSession(ss, es, i) <==> i in EventOrder(ss, es)
    ensures NumberEvents(ss, es)[i] == EventAt(es[i], EventOrder(ss, es), EventSport(ss, es), i)
  {
  }

  /** How many events are in the join. */
  ghost function JoinedCount(ss: seq<Session>, es: seq<Event>): nat {
    |Joined(ss, es, |es|)|
  }

  /** Some event carries number `k`. */
  ghost predicate EventNumberGiven(ss: seq<Session>, r: seq<Event>, k: int) {
    exists i :: 0 <= i < |r| && HasSession(ss, r, i) && r[i].eventNumber == Some(k)
  }

  /** Event numbers are a bijection from the joined events onto 1..N, with
      N the number of joined events. */
  lemma EventNumbersArePermutation(ss: seq<Session>, es: seq<Event>)
    ensures forall i :: 0 <= i < |es| && HasSession(ss, es, i) ==>
              NumberEvents(ss, es)[i].totalEvents == Some(JoinedCount(ss, es))
              && 1 <= NumberEvents(ss, es)[i].eventNumber.value <= JoinedCount(ss, es)
    ensures forall i, j :: 0 <= i < j < |es| && HasSession(ss, es, i) && HasSession(ss, es, j) ==>
              NumberEvents(ss, es)[i].eventNumber != NumberEvents(ss, es)[j].eventNumber
    ensures forall k :: 1 <= k <= JoinedCount(ss, es) ==> EventNumberGiven(ss, NumberEvents(ss, es), k)
  {
    EventNumbersInRange(ss, es);
    EventNumbersDistinct(ss, es);
    EventNumbersReached(ss, es);
  }

  lemma EventOrderLength(ss: seq<Session>, es: seq<Event>)
    ensures |EventOrder(ss, es)| == JoinedCount(ss, es)
  {
    var order := EventOrder(ss, es);
    var joined := Joined(ss, es, |es|);
    assert |multiset(order)| == |multiset(joined)|;
  }

  lemma EventNumbersInRange(ss: seq<Session>, es: seq<Event>)
    ensures forall i :: 0 <= i < |es| && HasSession(ss, es, i) ==>
              NumberEvents(ss, es)[i].totalEvents == Some(JoinedCount(ss, es))
              && 1 <= NumberEvents(ss, es)[i].eventNumber.value <= JoinedCount(ss, es)
  {
    EventOrderLength(ss, es);
    forall i | 0 <= i < |es| && HasSession(ss, es, i)
      ensures NumberEvents(ss, es)[i].totalEvents == Some(JoinedCount(ss, es))
      ensures 1 <= NumberEvents(ss, es)[i].eventNumber.value <= JoinedCount(ss, es)
    {
      NumberEventsAt(ss, es, i);
    }
  }

  lemma EventNumbersDistinct(ss: seq<Session>, es: seq<Event>)
    ensures forall i, j :: 0 <= i < j < |es| && HasSession(ss, es, i) && HasSession(ss, es, j) ==>
              NumberEvents(ss, es)[i].eventNumber != NumberEvents(ss, es)[j].eventNumber
  {
    var order := EventOrder(ss, es);
    forall i, j | 0 <= i < j < |es| && HasSession(ss, es, i) && HasSession(ss, es, j)
      ensures NumberEvents(ss, es)[i].eventNumber != NumberEvents(ss, es)[j].eventNumber
    {
      NumberEventsAt(ss, es, i);
      NumberEventsAt(ss, es, j);
      assert order[PosOf(order, i)] != order[PosOf(order, j)];
    }
  }

  lemma EventNumbersReached(ss: seq<Session>, es: seq<Event>)
    ensures forall k :: 1 <= k <= JoinedCount(ss, es) ==> EventNumberGiven(ss, NumberEvents(ss, es), k)
  {
    var n := JoinedCount(ss, es);
    assert n == |EventOrder(ss, es)| by {
      EventOrderLength(ss, es);
    }
    forall k | 1 <= k <= n ensures EventNumberGiven(ss, NumberEvents(ss, es), k) {
      NumberedGiven(ss, es, k);
    }
  }

  lemma NumberedGiven(ss: seq<Session>, es: seq<Event>, k: nat)
    requires 1 <= k <= |EventOrder(ss, es)|
    ensures EventNumberGiven(ss, NumberEvents(ss, es), k)
  {
    NumberedAt(ss, es, k);
    Given(ss, NumberEvents(ss, es), EventOrder(ss, es)[k - 1], k);
  }

  lemma Given(ss: seq<Session>, r: seq<Event>, i: nat, k: int)
    requires HasSession(ss, r, i) && r[i].eventNumber == Some(k)
    ensures EventNumberGiven(ss, r, k)
  {
  }

  /** The `k`-th event of the order keeps its session and gets number `k`. */
  lemma NumberedAt(ss: seq<Session>, es: seq<Event>, k: nat)
    requires 1 <= k <= |EventOrder(ss, es)|
    ensures var i := EventOrder(ss, es)[k - 1];
      HasSession(ss, NumberEvents(ss, es), i) && NumberEvents(ss, es)[i].eventNumber == Some(k)
  {
    var order := EventOrder(ss, es);
    var i := order[k - 1];
    PosOfUnique(order, k - 1);
    NumberEventsAt(ss, es, i);
    EventAtNumber(es[i], order, EventSport(ss, es), k);
  }

  lemma EventAtNumber(e: Event, order: seq<nat>, group: nat -> string, k: nat)
    requires 1 <= k <= |order| && PosOf(order, order[k - 1]) == k - 1
    ensures EventAt(e, order, group, order[k - 1]).eventNumber == Some(k)
    ensures EventAt(e, order, group, order[k - 1]).code == e.code
  {
    assert order[k - 1] in order;
  }

  /** An event that sorts strictly earlier gets a smaller number. */
  lemma EventNumbersFollowKey(ss: seq<Session>, es: seq<Event>, i: nat, j: nat)
    requires HasSession(ss, es, i) && HasSession(ss, es, j)
    requires KeyLt(EventKey(ss, es)(i), EventKey(ss, es)(j))
    ensures NumberEvents(ss, es)[i].eventNumber.value < NumberEvents(ss, es)[j].eventNumber.value
  {
    var order := EventOrder(ss, es);
    NumberEventsAt(ss, es, i);
    NumberEventsAt(ss, es, j);
    EventOrderSorted(ss, es);
    SortedPositions(order, EventKey(ss, es), PosOf(order, i), PosOf(order, j));
  }

  /** The sport of every joined event, in storage order. */
  ghost function EventSports(ss: seq<Session>, es: seq<Event>): seq<string> {
    MapSeq(EventSport(ss, es), Joined(ss, es, |es|))
  }

  /** Per sport, event numbers run 1..k in key order and k is the number of
      joined events of that sport. */
  lemma SportEventNumbers(ss: seq<Session>, es: seq<Event>, i: nat, j: nat)
    requires HasSession(ss, es, i) && HasSession(ss, es, j)
    requires EventSport(ss, es)(i) == EventSport(ss, es)(j)
    ensures NumberEvents(ss, es)[i].totalSportEvents == Some(multiset(EventSports(ss, es))[EventSport(ss, es)(i)])
    ensures 1 <= NumberEvents(ss, es)[i].sportEventNumber.value <= NumberEvents(ss, es)[i].totalSportEvents.value
    ensures KeyLt(EventKey(ss, es)(i), EventKey(ss, es)(j)) ==>
              NumberEvents(ss, es)[i].sportEventNumber.value < NumberEvents(ss, es)[j].sportEventNumber.value
  {
    var order := EventOrder(ss, es);
    var group := EventSport(ss, es);
    NumberEventsAt(ss, es, i);
    NumberEventsAt(ss, es, j);
    var p, q := PosOf(order, i), PosOf(order, j);
    GroupNumberBounds(order, group, p);
    MapPermutation(group, order, Joined(ss, es, |es|));
    if KeyLt(EventKey(ss, es)(i), EventKey(ss, es)(j)) {
      EventOrderSorted(ss, es);
      SortedPositions(order, EventKey(ss, es), p, q);
      GroupNumberIncreases(order, group, p, q);
    }
  }

  /** Every sport event number up to the sport's total is given out. */
  lemma SportEventNumbersReached(ss: seq<Session>, es: seq<Event>, sport: string, k: int)
    requires 1 <= k <= multiset(EventSports(ss, es))[sport]
    ensures exists i: nat :: HasSession(ss, es, i) && EventSport(ss, es)(i) == sport
                             && NumberEvents(ss, es)[i].sportEventNumber == Some(k)
  {
    var order := EventOrder(ss, es);
    var group := EventSport(ss, es);
    MapPermutation(group, order, Joined(ss, es, |es|));
    GroupNumberReached(order, group, sport, k);
    var p :| 0 <= p < |order| && group(order[p]) == sport && Count(order[..p + 1], group, sport) == k;
    PosOfUnique(order, p);
    NumberEventsAt(ss, es, order[p]);
    assert NumberEvents(ss, es)[order[p]].sportEventNumber == Some(k);
  }

  /** Numbering events again changes nothing. */
  lemma NumberEventsIdempotent(ss: seq<Session>, es: seq<Event>)
    ensures NumberEvents(ss, NumberEvents(ss, es)) == NumberEvents(ss, es)
  {
    var r := NumberEvents(ss, es);
    EventOrderCongruent(ss, r, es);
    var order := EventOrder(ss, es);
    SameGroupsSameCounts(order, EventSport(ss, r), EventSport(ss, es), |es|);
    var rr := NumberEvents(ss, r);
    forall i | 0 <= i < |es| ensures rr[i] == r[i] {
      NumberEventsAt(ss, es, i);
      NumberEventsAt(ss, r, i);
      EventAtTwice(es[i], order, EventSport(ss, r), EventSport(ss, es), i);
    }
  }

  lemma EventAtTwice(e: Event, order: seq<nat>, g1: nat -> string, g2: nat -> string, i: nat)
    requires forall p :: 0 <= p < |order| ==> CountersAt(order, g1, p) == CountersAt(order, g2, p)
    ensures EventAt(EventAt(e, order, g2, i), order, g1, i) == EventAt(e, order, g2, i)
  {
    if i in order {
      assert CountersAt(order, g1, PosOf(order, i)) == CountersAt(order, g2, PosOf(order, i));
    }
  }

  /** Events that differ only in their counters are joined, keyed, grouped
      and ordered alike. */
  lemma EventOrderCongruent(ss: seq<Session>, a: seq<Event>, b: seq<Event>)
    requires |a| == |b|
    requires forall i :: 0 <= i < |a| ==> ClearEvent(a[i]) == ClearEvent(b[i])
    ensures EventOrder(ss, a) == EventOrder(ss, b)
    ensures forall i :: 0 <= i < |a| ==> EventSport(ss, a)(i) == EventSport(ss, b)(i)
  {
    forall i: nat | i < |a| ensures a[i].code == b[i].code && a[i].orderInSession == b[i].orderInSession {
      assert ClearEvent(a[i]) == ClearEvent(b[i]);
    }
    assert forall i: nat :: HasSession(ss, a, i) == HasSession(ss, b, i);
    JoinedCongruent(ss, a, b, |a|);
    forall i | 0 <= i < |a| ensures EventKey(ss, a)(i) == EventKey(ss, b)(i) {
    }
    SameKeysSameOrder(Joined(ss, b, |b|), EventKey(ss, a), EventKey(ss, b), |b|);
  }

  lemma {:induction false} JoinedCongruent(ss: seq<Session>, a: seq<Event>, b: seq<Event>, n: nat)
    requires n <= |a| == |b|
    requires forall i :: HasSession(ss, a, i) == HasSession(ss, b, i)
    ensures Joined(ss, a, n) == Joined(ss, b, n)
  {
    if n > 0 {
      JoinedCongruent(ss, a, b, n - 1);
    }
  }

  /** The whole pass over a store. The event half sees the sessions as the
      session half left them; their keys and sports are unchanged. */
  function Renumber(st: Store): (r: Store)
    ensures r.sessions == NumberSessions(st.sessions)
    ensures r.events == NumberEvents(st.sessions, st.events)
    ensures r.(sessions := st.sessions, events := st.events) == st
  {
    var ss := NumberSessions(st.sessions);
    SessionOfCleared(st.sessions, ss, st.events);
    st.(sessions := ss, events := NumberEvents(ss, st.events))
  }

  /** Running the whole pass again changes nothing: a reload over an
      already numbered store leaves its numbers as they are. */
  lemma RenumberIdempotent(st: Store)
    ensures Renumber(Renumber(st)) == Renumber(st)
  {
    var r := Renumber(st);
    NumberSessionsIdempotent(st.sessions);
    NumberEventsIdempotent(st.sessions, st.events);
    SessionOfCleared(st.sessions, r.sessions, r.events);
  }

  /** Numbered sessions look up, key and group events exactly as before. */
  lemma SessionOfCleared(ss: seq<Session>, rs: seq<Session>, es: seq<Event>)
    requires |rs| == |ss|
    requires forall i :: 0 <= i < |ss| ==> ClearSession(rs[i]) == ClearSession(ss[i])
    ensures NumberEvents(rs, es) == NumberEvents(ss, es)
  {
    SessionsOrderEventsAlike(ss, rs, es);
    var order := EventOrder(ss, es);
    SameGroupsSameCounts(order, EventSport(rs, es), EventSport(ss, es), |es|);
    forall i | 0 <= i < |es| ensures NumberEvents(rs, es)[i] == NumberEvents(ss, es)[i] {
      NumberEventsAt(ss, es, i);
      NumberEventsAt(rs, es, i);
      if i in order {
        assert CountersAt(order, EventSport(rs, es), PosOf(order, i)) == CountersAt(order, EventSport(ss, es), PosOf(order, i));
      }
    }
  }

  lemma SessionsOrderEventsAlike(ss: seq<Session>, rs: seq<Session>, es: seq<Event>)
    requires |rs| == |ss|
    requires forall i :: 0 <= i < |ss| ==> ClearSession(rs[i]) == ClearSession(ss[i])
    ensures EventOrder(rs, es) == EventOrder(ss, es)
    ensures forall i :: 0 <= i < |es| ==> EventSport(rs, es)(i) == EventSport(ss, es)(i)
  {
    forall code ensures SessionOf(rs, code).Some? == SessionOf(ss, code).Some?
      && (SessionOf(rs, code).Some? ==> ClearSession(SessionOf(rs, code).value) == ClearSession(SessionOf(ss, code).value))
    {
      SessionOfClearedAt(ss, rs, code);
    }
    assert forall i: nat :: HasSession(rs, es, i) == HasSession(ss, es, i);
    forall i | 0 <= i < |es| ensures EventKey(rs, es)(i) == EventKey(ss, es)(i) && EventSport(rs, es)(i) == EventSport(ss, es)(i) {
      if HasSession(ss, es, i) {
        assert ClearSession(SessionOf(rs, es[i].code).value) == ClearSession(SessionOf(ss, es[i].code).value);
      }
    }
    JoinedSessions(rs, ss, es, |es|);
    SameKeysSameOrder(Joined(ss, es, |es|), EventKey(rs, es), EventKey(ss, es), |es|);
  }

  lemma {:induction false} SessionOfClearedAt(ss: seq<Session>, rs: seq<Session>, code: string)
    requires |rs| == |ss|
    requires forall i :: 0 <= i < |ss| ==> ClearSession(rs[i]) == ClearSession(ss[i])
    ensures SessionOf(rs, code).Some? == SessionOf(ss, code).Some?
    ensures SessionOf(rs, code).Some? ==> ClearSession(SessionOf(rs, code).value) == ClearSession(SessionOf(ss, code).value)
    decreases |ss|
  {
    if |ss| > 0 {
      assert ClearSession(rs[0]) == ClearSession(ss[0]);
      SessionOfClearedAt(ss[1..], rs[1..], code);
    }
  }

  lemma {:induction false} JoinedSessions(rs: seq<Session>, ss: seq<Session>, es: seq<Event>, n: nat)
    requires n <= |es|
    requires forall i :: HasSession(rs, es, i) == HasSession(ss, es, i)
    ensures Joined(rs, es, n) == Joined(ss, es, n)
  {
    if n > 0 {
      JoinedSessions(rs, ss, es, n - 1);
    }
  }
}
