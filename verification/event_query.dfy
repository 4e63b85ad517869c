/** `SessionQuery` of src/la28/queries/event_query.py: sessions filtered
    by conditions on their own columns (and on their venue's zone), ordered
    by start. */
module SessionQuery {
  import opened Text
  import opened Sorting
  import opened Models
  import opened Query

  datatype Filter =
    | BySport(sport: string)
    | ByVenue(venue: string)
    | ByZone(zone: string)
    | ByDay(day: int)
    | ByDays(days: seq<int>)
    | ByDate(date: int)
    | ByType(typeName: string)
    | Ticketed
    | Between(start: Stamp, end: Stamp)

  /** The SQL condition of a filter on one session. `by_zone` joins the
      venue, so a session whose venue is not stored never passes it. */
  predicate Holds(st: Store, f: Filter, s: Session)
    ensures f.ByZone? && s.venue !in st.venues ==> !Holds(st, f, s)
    ensures f.ByType? && s.sessionType.None? ==> !Holds(st, f, s)
    ensures f.ByDays? && f.days == [] ==> !Holds(st, f, s)
    ensures f.Between? && StampLt(f.end, f.start) ==> !Holds(st, f, s)
  {
    match f
    case BySport(x) => s.sport == x
    case ByVenue(v) => s.venue == v
    case ByZone(z) => s.venue in st.venues && st.venues[s.venue].zone == z
    case ByDay(d) => s.day == d
    case ByDays(ds) => s.day in ds
    case ByDate(d) => Within(DayStart(d), DayEnd(d), s.startsAt)
    case ByType(t) => s.sessionType == Some(t)
    case Ticketed => s.ticketed
    case Between(a, b) => Within(a, b, s.startsAt)
  }

  function HoldsIn(st: Store): (Filter, Session) -> bool {
    (f, s) => Holds(st, f, s)
  }

  datatype Column = StartsAt(desc: bool)

  function Value(s: Session, c: Column): Pair {
    if c.desc then Pair(-s.startsAt.date, -(s.startsAt.minute as int)) else Pair(s.startsAt.date, s.startsAt.minute)
  }

  datatype Builder = Builder(filters: seq<Filter>, orders: seq<Column>)

  const Fresh := Builder([], [])

  function Add(q: Builder, f: Filter): Builder {
    q.(filters := q.filters + [f])
  }

  function OrderByStart(q: Builder, desc: bool := false): Builder {
    q.(orders := q.orders + [StartsAt(desc)])
  }

  /** `fetch`: the stored sessions meeting every condition, sorted. */
  function Fetch(st: Store, q: Builder): (rows: seq<Session>)
    ensures forall s :: s in rows <==> s in st.sessions && forall f :: f in q.filters ==> Holds(st, f, s)
    ensures forall i, j :: 0 <= i < j < |rows| ==> LexLe(rows[i], rows[j], q.orders, Value)
    ensures |rows| <= |st.sessions|
  {
    Run(st.sessions, q.filters, HoldsIn(st), q.orders, Value)
  }

  /** `first`: the head of the fetched sessions. */
  function FirstSession(st: Store, q: Builder): (r: Option<Session>)
    ensures r.None? <==> Count(st, q) == 0
    ensures r.Some? ==> r.value in st.sessions && forall f :: f in q.filters ==> Holds(st, f, r.value)
    ensures r.Some? ==> forall x :: x in Fetch(st, q) ==> LexLe(r.value, x, q.orders, Value)
  {
    var rows := Fetch(st, q);
    HeadIsLeast(rows, q.orders, Value);
    Head(rows)
  }

  /** `count`: how many stored sessions meet every condition, whatever the
      sort columns. */
  function Count(st: Store, q: Builder): (n: nat)
    ensures n == |Where(st.sessions, Conjunction(q.filters, HoldsIn(st)))|
  {
    |Fetch(st, q)|
  }

  /** Conditions combine by AND: the order of the calls does not matter. */
  lemma FiltersCommute(st: Store, q: Builder, f: Filter, g: Filter)
    ensures Fetch(st, Add(Add(q, f), g)) == Fetch(st, Add(Add(q, g), f))
  {
    ConditionsAreASet(st.sessions, Add(Add(q, f), g).filters, Add(Add(q, g), f).filters, HoldsIn(st), q.orders, Value);
  }

  /** A fresh builder returns the sessions as stored. */
  lemma FreshFetchesAll(st: Store)
    ensures Fetch(st, Fresh) == st.sessions
  {
    RunNothing(st.sessions, HoldsIn(st), Value);
  }

  /** `by_date` keeps the sessions starting on that day, and is `between`
      its first and last minute; both ends of `between` are included. */
  lemma DateFilters(st: Store, s: Session, d: int, a: Stamp, b: Stamp)
    ensures Holds(st, ByDate(d), s) <==> s.startsAt.date == d
    ensures Holds(st, ByDate(d), s) == Holds(st, Between(DayStart(d), DayEnd(d)), s)
    ensures StampLe(a, b) && (s.startsAt == a || s.startsAt == b) ==> Holds(st, Between(a, b), s)
  {
  }

  /** `order_by_start` sorts by start in the requested direction. */
  lemma OrderedByStart(st: Store, q: Builder, desc: bool)
    requires q.orders == []
    ensures var rows := Fetch(st, OrderByStart(q, desc));
            forall i, j :: 0 <= i < j < |rows| ==>
              if desc then StampLe(rows[j].startsAt, rows[i].startsAt) else StampLe(rows[i].startsAt, rows[j].startsAt)
  {
    var rows := Fetch(st, OrderByStart(q, desc));
    assert OrderByStart(q, desc).orders == [StartsAt(desc)];
    forall i, j | 0 <= i < j < |rows|
      ensures if desc then StampLe(rows[j].startsAt, rows[i].startsAt) else StampLe(rows[i].startsAt, rows[j].startsAt)
    {
      StartColumn(rows[i], rows[j], desc);
    }
  }

  lemma StartColumn(a: Session, b: Session, desc: bool)
    requires LexLe(a, b, [StartsAt(desc)], Value)
    ensures if desc then StampLe(b.startsAt, a.startsAt) else StampLe(a.startsAt, b.startsAt)
  {
    assert [StartsAt(desc)][1..] == [];
    StampLtLexicographic(a.startsAt, b.startsAt);
    StampLtLexicographic(b.startsAt, a.startsAt);
  }
}

/** `EventQuery` of src/la28/queries/event_query.py: events filtered by
    their own columns or their session's, ordered by event number. */
module EventQuery {
  import opened Text
  import opened Sorting
  import opened Models
  import opened Numbering
  import opened Query

  datatype Filter =
    | BySex(sex: string)
    | ByType(typeName: string)
    | BySession(code: string)
    | BySport(sport: string)
    | ByDay(day: int)
    | Medals
    | Search(term: string)

  /** The SQL condition of a filter on one event. `by_sport` and `by_day`
      join the session; an event without one passes neither. */
  predicate Holds(st: Store, f: Filter, e: Event)
    ensures (f.BySport? || f.ByDay?) && SessionOf(st.sessions, e.code).None? ==> !Holds(st, f, e)
    ensures (f.ByType? || f.Medals?) && e.eventType.None? ==> !Holds(st, f, e)
    ensures f.Search? && f.term == "" ==> Holds(st, f, e)
  {
    assert OccursAt(e.description, "", 0);
    match f
    case BySex(x) => e.sex == x
    case ByType(t) => e.eventType == Some(t)
    case BySession(c) => e.code == c
    case BySport(x) => SessionOf(st.sessions, e.code).Some? && SessionOf(st.sessions, e.code).value.sport == x
    case ByDay(d) => SessionOf(st.sessions, e.code).Some? && SessionOf(st.sessions, e.code).value.day == d
    case Medals => e.eventType == Some("Final") || e.eventType == Some("Bronze")
    case Search(t) => Contains(e.description, t)
  }

  function HoldsIn(st: Store): (Filter, Event) -> bool {
    (f, e) => Holds(st, f, e)
  }

  datatype Column = EventNumber

  /** A null event number sorts before every number, as in SQLite. */
  function Value(e: Event, c: Column): Pair {
    if e.eventNumber.None? then Pair(0, 0) else Pair(1, e.eventNumber.value)
  }

  datatype Builder = Builder(filters: seq<Filter>, orders: seq<Column>)

  const Fresh := Builder([], [])

  function Add(q: Builder, f: Filter): Builder {
    q.(filters := q.filters + [f])
  }

  /** `finals`: the type filter for "Final". */
  function Finals(q: Builder): Builder {
    Add(q, ByType("Final"))
  }

  function OrderByNumber(q: Builder): Builder {
    q.(orders := q.orders + [EventNumber])
  }

  /** `fetch`: the stored events meeting every condition, sorted. */
  function Fetch(st: Store, q: Builder): (rows: seq<Event>)
    ensures forall e :: e in rows <==> e in st.events && forall f :: f in q.filters ==> Holds(st, f, e)
    ensures forall i, j :: 0 <= i < j < |rows| ==> LexLe(rows[i], rows[j], q.orders, Value)
    ensures |rows| <= |st.events|
  {
    Run(st.events, q.filters, HoldsIn(st), q.orders, Value)
  }

  function FirstEvent(st: Store, q: Builder): (r: Option<Event>)
    ensures r.None? <==> Count(st, q) == 0
    ensures r.Some? ==> r.value in st.events && forall f :: f in q.filters ==> Holds(st, f, r.value)
    ensures r.Some? ==> forall x :: x in Fetch(st, q) ==> LexLe(r.value, x, q.orders, Value)
  {
    var rows := Fetch(st, q);
    HeadIsLeast(rows, q.orders, Value);
    Head(rows)
  }

  /** `count`: how many stored events meet every condition, whatever the
      sort columns. */
  function Count(st: Store, q: Builder): (n: nat)
    ensures n == |Where(st.events, Conjunction(q.filters, HoldsIn(st)))|
  {
    |Fetch(st, q)|
  }

  lemma FiltersCommute(st: Store, q: Builder, f: Filter, g: Filter)
    ensures Fetch(st, Add(Add(q, f), g)) == Fetch(st, Add(Add(q, g), f))
  {
    ConditionsAreASet(st.events, Add(Add(q, f), g).filters, Add(Add(q, g), f).filters, HoldsIn(st), q.orders, Value);
  }

  /** `finals` keeps the events of type "Final". */
  lemma FinalsFilter(st: Store, q: Builder, e: Event)
    ensures e in Fetch(st, Finals(q)) <==> e in Fetch(st, q) && e.eventType == Some("Final")
  {
    TypeFilter(st, q, "Final", e);
  }

  /** `by_type` keeps the events of that type. */
  lemma TypeFilter(st: Store, q: Builder, t: string, e: Event)
    ensures e in Fetch(st, Add(q, ByType(t))) <==> e in Fetch(st, q) && e.eventType == Some(t)
  {
    FetchAdd(st, q, ByType(t), e);
  }

  /** `medals` keeps exactly what `finals` or the type filter for "Bronze"
      would keep. */
  lemma MedalsFilter(st: Store, q: Builder, e: Event)
    ensures e in Fetch(st, Add(q, Medals)) <==> e in Fetch(st, Finals(q)) || e in Fetch(st, Add(q, ByType("Bronze")))
  {
    MedalsHolds(st, e);
    FetchEither(st, q, ByType("Final"), ByType("Bronze"), Medals, e);
  }

  lemma MedalsHolds(st: Store, e: Event)
    ensures Holds(st, Medals, e) <==> Holds(st, ByType("Final"), e) || Holds(st, ByType("Bronze"), e)
  {
  }

  /** A condition that holds exactly when one of two others does keeps the
      rows that either would keep. */
  lemma FetchEither(st: Store, q: Builder, f: Filter, g: Filter, h: Filter, e: Event)
    requires Holds(st, h, e) <==> Holds(st, f, e) || Holds(st, g, e)
    ensures e in Fetch(st, Add(q, h)) <==> e in Fetch(st, Add(q, f)) || e in Fetch(st, Add(q, g))
  {
    FetchAdd(st, q, f, e);
    FetchAdd(st, q, g, e);
    FetchAdd(st, q, h, e);
  }

  /** One more call keeps the rows that also meet its condition. */
  lemma FetchAdd(st: Store, q: Builder, f: Filter, e: Event)
    ensures e in Fetch(st, Add(q, f)) <==> e in Fetch(st, q) && Holds(st, f, e)
  {
    assert forall g :: g in Add(q, f).filters <==> g in q.filters || g == f;
  }

  /** A single call on a fresh builder keeps the stored rows meeting its
      condition. */
  lemma FetchOne(st: Store, f: Filter, e: Event)
    ensures e in Fetch(st, Add(Fresh, f)) <==> e in st.events && Holds(st, f, e)
  {
    assert Add(Fresh, f).filters == [f];
  }

  /** `by_session` keeps exactly the events of that session. */
  lemma SessionFilter(st: Store, code: string, e: Event)
    ensures e in Fetch(st, Add(Fresh, BySession(code))) <==> e in st.events && e.code == code
  {
    FetchOne(st, BySession(code), e);
  }

  /** `search` keeps exactly the events whose description has the term at
      some position. */
  lemma SearchFilter(st: Store, term: string, e: Event)
    ensures e in Fetch(st, Add(Fresh, Search(term))) <==>
              e in st.events && exists i :: OccursAt(e.description, term, i)
  {
    FetchOne(st, Search(term), e);
    SearchHolds(st, term, e);
  }

  lemma SearchHolds(st: Store, term: string, e: Event)
    ensures Holds(st, Search(term), e) <==> exists i :: OccursAt(e.description, term, i)
  {
  }

  /** The empty term matches every event. */
  lemma EmptySearchKeepsAll(st: Store, e: Event)
    requires e in st.events
    ensures e in Fetch(st, Add(Fresh, Search("")))
  {
    EmptyTermHolds(st, e);
    FetchOne(st, Search(""), e);
  }

  lemma EmptyTermHolds(st: Store, e: Event)
    ensures Holds(st, Search(""), e)
  {
    assert OccursAt(e.description, "", 0);
  }

  /** `order_by_number`: unnumbered events first, then ascending numbers. */
  lemma OrderedByNumber(st: Store, q: Builder)
    requires q.orders == []
    ensures var rows := Fetch(st, OrderByNumber(q));
            forall i, j :: 0 <= i < j < |rows| ==>
              rows[i].eventNumber.None? || (rows[j].eventNumber.Some? && rows[i].eventNumber.value <= rows[j].eventNumber.value)
  {
    var rows := Fetch(st, OrderByNumber(q));
    assert OrderByNumber(q).orders == [EventNumber];
    forall i, j | 0 <= i < j < |rows|
      ensures rows[i].eventNumber.None? || (rows[j].eventNumber.Some? && rows[i].eventNumber.value <= rows[j].eventNumber.value)
    {
      NumberColumn(rows[i], rows[j]);
    }
  }

  lemma NumberColumn(a: Event, b: Event)
    requires LexLe(a, b, [EventNumber], Value)
    ensures a.eventNumber.None? || (b.eventNumber.Some? && a.eventNumber.value <= b.eventNumber.value)
  {
    assert [EventNumber][1..] == [];
  }
}
