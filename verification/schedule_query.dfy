/** `ScheduleQuery` (src/la28/queries/schedule_query.py): one row per event
    whose session, venue, zone and sport exist, with the event type's rank
    when the type is seeded and four map links when the venue has both
    coordinates; filters and orderings are added one call at a time. */
module ScheduleQuery {
  import opened Text
  import opened Sorting
  import opened Models
  import opened Numbering
  import opened Query

  /** A map link: fixed text around the venue's two coordinates. How the
      database prints a number is not modelled, so the coordinates stay
      numbers. */
  datatype MapUrl = MapUrl(prefix: string, lat: real, middle: string, lng: real, suffix: string)

  datatype MapUrls = MapUrls(google: Option<MapUrl>, waze: Option<MapUrl>, apple: Option<MapUrl>, osm: Option<MapUrl>)

  /** The four link columns: present when both coordinates are. */
  function Urls(v: Venue): (u: MapUrls)
    ensures u.google.Some? <==> v.latitude.Some? && v.longitude.Some?
    ensures u.waze.Some? == u.google.Some? && u.apple.Some? == u.google.Some? && u.osm.Some? == u.google.Some?
    ensures u.google.Some? ==>
              && u.google.value.lat == v.latitude.value && u.google.value.lng == v.longitude.value
              && u.waze.value.lat == v.latitude.value && u.waze.value.lng == v.longitude.value
              && u.apple.value.lat == v.latitude.value && u.apple.value.lng == v.longitude.value
              && u.osm.value.lat == v.latitude.value && u.osm.value.lng == v.longitude.value
    ensures u.apple.Some? ==> u.apple.value.suffix == "&q=" + ReplaceChar(v.venue, ' ', '+')
  {
    if v.latitude.Some? && v.longitude.Some? then
      var lat, lng := v.latitude.value, v.longitude.value;
      MapUrls(
        Some(MapUrl("https://www.google.com/maps/search/?api=1&query=", lat, ",", lng, "")),
        Some(MapUrl("https://waze.com/ul?ll=", lat, ",", lng, "&navigate=yes")),
        Some(MapUrl("https://maps.apple.com/?ll=", lat, ",", lng, "&q=" + ReplaceChar(v.venue, ' ', '+'))),
        Some(MapUrl("https://www.openstreetmap.org/?mlat=", lat, "&mlon=", lng, "&zoom=17")))
    else MapUrls(None, None, None, None)
  }

  /** The Apple link names the venue with no space left in it, every other
      character kept in place. */
  lemma AppleQueryHasNoSpace(v: Venue)
    requires Urls(v).apple.Some?
    ensures var q := Urls(v).apple.value.suffix[3..];
            && |q| == |v.venue| && ' ' !in q
            && forall i :: 0 <= i < |q| && v.venue[i] != ' ' ==> q[i] == v.venue[i]
  {
    var q := Urls(v).apple.value.suffix[3..];
    assert q == ReplaceChar(v.venue, ' ', '+');
    ReplaceCharRemovesAll(v.venue, ' ', '+');
  }

  /** One row of the projection. */
  datatype ScheduleRow = ScheduleRow(
    event: Event,
    session: Session,
    sport: string,
    venue: Venue,
    zone: Zone,
    rank: Option<int>,
    urls: MapUrls)

  /** The inner joins Event-Session-Venue-Zone-Sport find a partner. */
  predicate Joinable(st: Store, e: Event) {
    match SessionOf(st.sessions, e.code)
    case None => false
    case Some(s) => s.venue in st.venues && st.venues[s.venue].zone in st.zones && s.sport in st.sports
  }

  function JoinableIn(st: Store): Event -> bool {
    e => Joinable(st, e)
  }

  /** The left join with the event types: a rank only for a seeded type. */
  function RankOf(st: Store, t: Option<string>): (r: Option<int>)
    ensures r.Some? <==> t.Some? && t.value in st.eventTypes
    ensures r.Some? ==> r.value == st.eventTypes[t.value].rank
  {
    if t.Some? && t.value in st.eventTypes then Some(st.eventTypes[t.value].rank) else None
  }

  function RowOf(st: Store, e: Event): (r: ScheduleRow)
    requires Joinable(st, e)
  {
    var s := SessionOf(st.sessions, e.code).value;
    var v := st.venues[s.venue];
    ScheduleRow(e, s, s.sport, v, st.zones[v.zone], RankOf(st, e.eventType), Urls(v))
  }

  /** The joined rows of `es`: one per joinable event, in storage order. */
  function JoinEvents(st: Store, es: seq<Event>): (rows: seq<ScheduleRow>)
    ensures MapSeq((r: ScheduleRow) => r.event, rows) == Where(es, JoinableIn(st))
    ensures forall i :: 0 <= i < |rows| ==> Joinable(st, rows[i].event) && rows[i] == RowOf(st, rows[i].event)
    decreases |es|
  {
    if |es| == 0 then []
    else
      var rest := JoinEvents(st, es[1..]);
      var head := JoinHead(st, es[0]);
      WhereStep(es, JoinableIn(st));
      MapSeqConcat((r: ScheduleRow) => r.event, head, rest);
      head + rest
  }

  /** The joined row of one event, if it has one. */
  function JoinHead(st: Store, e: Event): (h: seq<ScheduleRow>)
    ensures MapSeq((r: ScheduleRow) => r.event, h) == if JoinableIn(st)(e) then [e] else []
    ensures forall i :: 0 <= i < |h| ==> Joinable(st, h[i].event) && h[i] == RowOf(st, h[i].event)
  {
    if Joinable(st, e) then [RowOf(st, e)] else []
  }

  function Join(st: Store): (rows: seq<ScheduleRow>) {
    JoinEvents(st, st.events)
  }

  /** Left join: an event whose inner joins succeed appears whatever its
      type. */
  lemma JoinKeepsEveryType(st: Store, e: Event)
    requires e in st.events && Joinable(st, e)
    ensures exists r :: r in Join(st) && r.event == e
  {
    var rows := Join(st);
    var kept := Where(st.events, JoinableIn(st));
    WhereMembers(st.events, JoinableIn(st), e);
    var k :| 0 <= k < |kept| && kept[k] == e;
    MapSeqAt(rows, kept, k);
    assert rows[k] in rows;
  }

  /** A row has a rank exactly when its event's type is seeded. */
  lemma JoinRank(st: Store, r: ScheduleRow)
    requires r in Join(st)
    ensures r.rank.Some? <==> r.event.eventType.Some? && r.event.eventType.value in st.eventTypes
  {
    var rows := Join(st);
    var i :| 0 <= i < |rows| && rows[i] == r;
    RowRank(st, r.event);
  }

  lemma RowRank(st: Store, e: Event)
    requires Joinable(st, e)
    ensures RowOf(st, e).rank == RankOf(st, e.eventType)
  {
  }

  lemma MapSeqAt(rows: seq<ScheduleRow>, es: seq<Event>, k: nat)
    requires MapSeq((r: ScheduleRow) => r.event, rows) == es && k < |es|
    ensures k < |rows| && rows[k].event == es[k]
  {
    assert |MapSeq((r: ScheduleRow) => r.event, rows)| == |rows|;
  }

  /** Every row describes a stored event together with the records its
      keys name. */
  lemma JoinRowsAreConsistent(st: Store, r: ScheduleRow)
    requires r in Join(st)
    ensures r.event in st.events
    ensures SessionOf(st.sessions, r.event.code) == Some(r.session)
    ensures r.sport == r.session.sport && r.sport in st.sports
    ensures r.session.venue in st.venues && r.venue == st.venues[r.session.venue]
    ensures r.venue.zone in st.zones && r.zone == st.zones[r.venue.zone]
    ensures r.urls.google.Some? <==> r.venue.latitude.Some? && r.venue.longitude.Some?
  {
    var rows := Join(st);
    var i :| 0 <= i < |rows| && rows[i] == r;
    var kept := Where(st.events, JoinableIn(st));
    assert |MapSeq((x: ScheduleRow) => x.event, rows)| == |rows|;
    assert kept[i] == r.event;
    WhereMembers(st.events, JoinableIn(st), r.event);
  }

  /** The conditions a builder call can add. */
  datatype Filter =
    | BySport(sport: string)
    | BySports(sports: seq<string>)
    | ByVenue(venue: string)
    | ByVenues(venues: seq<string>)
    | ByZone(zone: string)
    | ByZones(zones: seq<string>)
    | ByDay(day: int)
    | ByDays(days: seq<int>)
    | ByDate(date: int)
    | ByEventType(typeName: string)
    | ByEventTypes(typeNames: seq<string>)
    | BySex(sex: string)
    | Ticketed
    | InOkc
    | FinalsOnly
    | MedalEvents
    | Between(start: Stamp, end: Stamp)

  /** The SQL condition of a filter on one row. A null type matches no
      type condition, and an empty `IN` list matches no row. */
  predicate Holds(f: Filter, r: ScheduleRow)
    ensures r.event.eventType.None? && (f.ByEventType? || f.ByEventTypes? || f.FinalsOnly? || f.MedalEvents?) ==> !Holds(f, r)
    ensures (f.BySports? && f.sports == []) || (f.ByVenues? && f.venues == []) ==> !Holds(f, r)
    ensures (f.ByZones? && f.zones == []) || (f.ByDays? && f.days == []) ==> !Holds(f, r)
    ensures f.ByEventTypes? && f.typeNames == [] ==> !Holds(f, r)
    ensures f.Between? && StampLt(f.end, f.start) ==> !Holds(f, r)
  {
    match f
    case BySport(s) => r.sport == s
    case BySports(ss) => r.sport in ss
    case ByVenue(v) => r.venue.venue == v
    case ByVenues(vs) => r.venue.venue in vs
    case ByZone(z) => r.zone.zone == z
    case ByZones(zs) => r.zone.zone in zs
    case ByDay(d) => r.session.day == d
    case ByDays(ds) => r.session.day in ds
    case ByDate(d) => Within(DayStart(d), DayEnd(d), r.session.startsAt)
    case ByEventType(t) => r.event.eventType == Some(t)
    case ByEventTypes(ts) => r.event.eventType.Some? && r.event.eventType.value in ts
    case BySex(x) => r.event.sex == x
    case Ticketed => r.session.ticketed
    case InOkc => r.venue.inOkc
    case FinalsOnly => r.event.eventType == Some("Final")
    case MedalEvents => r.event.eventType.Some? && r.event.eventType.value in ["Final", "Bronze"]
    case Between(a, b) => Within(a, b, r.session.startsAt)
  }

  /** Sort columns. */
  datatype Column = StartsAt(desc: bool) | OrderInSession | Rank

  /** The value a column sorts by, turned so that smaller sorts first. A
      null rank sorts before every rank, as in SQLite. */
  function Value(r: ScheduleRow, c: Column): Pair {
    match c
    case StartsAt(desc) =>
      var s := r.session.startsAt;
      if desc then Pair(-s.date, -(s.minute as int)) else Pair(s.date, s.minute)
    case OrderInSession => Pair(r.event.orderInSession, 0)
    case Rank => if r.rank.None? then Pair(0, 0) else Pair(1, r.rank.value)
  }

  /** The state of a builder: its conditions and its sort columns. */
  datatype Builder = Builder(filters: seq<Filter>, orders: seq<Column>)

  const Fresh := Builder([], [])

  function Add(q: Builder, f: Filter): Builder {
    q.(filters := q.filters + [f])
  }

  function OrderByStart(q: Builder, desc: bool := false): Builder {
    q.(orders := q.orders + [StartsAt(desc), OrderInSession])
  }

  function OrderByEventType(q: Builder): Builder {
    q.(orders := q.orders + [Rank, StartsAt(false), OrderInSession])
  }

  /** `fetch`: the joined rows meeting every condition, sorted. */
  function Fetch(st: Store, q: Builder): (rows: seq<ScheduleRow>)
    ensures forall r :: r in rows <==> r in Join(st) && forall f :: f in q.filters ==> Holds(f, r)
    ensures forall i, j :: 0 <= i < j < |rows| ==> LexLe(rows[i], rows[j], q.orders, Value)
    ensures |rows| <= |Join(st)|
  {
    Run(Join(st), q.filters, Holds, q.orders, Value)
  }

  /** `first`: the head of the fetched rows, which sorts first. */
  function FirstRow(st: Store, q: Builder): (r: Option<ScheduleRow>)
    ensures r.None? <==> Count(st, q) == 0
    ensures r.Some? ==> r.value in Join(st) && forall f :: f in q.filters ==> Holds(f, r.value)
    ensures r.Some? ==> forall x :: x in Fetch(st, q) ==> LexLe(r.value, x, q.orders, Value)
  {
    var rows := Fetch(st, q);
    HeadIsLeast(rows, q.orders, Value);
    Head(rows)
  }

  /** `count`: how many joined rows meet every condition, whatever the
      sort columns; at most one per joinable stored event. */
  function Count(st: Store, q: Builder): (n: nat)
    ensures n == |Where(Join(st), Conjunction(q.filters, Holds))|
    ensures n <= |Where(st.events, JoinableIn(st))|
  {
    |Fetch(st, q)|
  }

  /** Conditions combine by AND, so only the set of conditions added
      matters, not the order or repetition of the calls. */
  lemma FiltersAreASet(st: Store, q1: Builder, q2: Builder)
    requires q1.orders == q2.orders
    requires forall f :: f in q1.filters <==> f in q2.filters
    ensures Fetch(st, q1) == Fetch(st, q2)
  {
    ConditionsAreASet(Join(st), q1.filters, q2.filters, Holds, q1.orders, Value);
  }

  /** Two filter calls commute. */
  lemma FiltersCommute(st: Store, q: Builder, f: Filter, g: Filter)
    ensures Fetch(st, Add(Add(q, f), g)) == Fetch(st, Add(Add(q, g), f))
  {
    FiltersAreASet(st, Add(Add(q, f), g), Add(Add(q, g), f));
  }

  /** A fresh builder returns the join in storage order. */
  lemma FreshFetchesJoin(st: Store)
    ensures Fetch(st, Fresh) == Join(st)
  {
    RunNothing(Join(st), Holds, Value);
  }

  /** `finals_only` is the type filter for "Final"; `medal_events` keeps
      exactly the finals and the bronze events. */
  lemma MedalFilters(r: ScheduleRow)
    ensures Holds(FinalsOnly, r) == Holds(ByEventType("Final"), r)
    ensures Holds(MedalEvents, r) <==> Holds(ByEventType("Final"), r) || Holds(ByEventType("Bronze"), r)
    ensures Holds(MedalEvents, r) == Holds(ByEventTypes(["Final", "Bronze"]), r)
  {
  }

  /** `by_date` keeps exactly the rows starting on that day, from midnight
      to the last minute. */
  lemma ByDateIsTheDay(r: ScheduleRow, d: int)
    ensures Holds(ByDate(d), r) <==> r.session.startsAt.date == d
    ensures Holds(ByDate(d), r) == Holds(Between(DayStart(d), DayEnd(d)), r)
  {
  }

  /** `between` includes both of its ends. */
  lemma BetweenInclusive(r: ScheduleRow, a: Stamp, b: Stamp)
    requires StampLe(a, b)
    ensures r.session.startsAt == a ==> Holds(Between(a, b), r)
    ensures r.session.startsAt == b ==> Holds(Between(a, b), r)
  {
  }

  /** `order_by_start`: start times in the requested direction, events of
      one start in ascending session order even when descending. */
  lemma OrderedByStart(st: Store, q: Builder, desc: bool)
    requires q.orders == []
    ensures var rows := Fetch(st, OrderByStart(q, desc));
            forall i, j :: 0 <= i < j < |rows| ==> StartsInOrder(rows[i], rows[j], desc)
  {
    var rows := Fetch(st, OrderByStart(q, desc));
    assert OrderByStart(q, desc).orders == [StartsAt(desc), OrderInSession];
    forall i, j | 0 <= i < j < |rows| ensures StartsInOrder(rows[i], rows[j], desc) {
      StartColumns(rows[i], rows[j], desc);
    }
  }

  /** `a` may come before `b` when ordering by start: start in the
      requested direction, then ascending order within the session. */
  ghost predicate StartsInOrder(a: ScheduleRow, b: ScheduleRow, desc: bool) {
    && (if desc then StampLe(b.session.startsAt, a.session.startsAt)
        else StampLe(a.session.startsAt, b.session.startsAt))
    && (a.session.startsAt == b.session.startsAt ==> a.event.orderInSession <= b.event.orderInSession)
  }

  lemma StartColumns(a: ScheduleRow, b: ScheduleRow, desc: bool)
    requires LexLe(a, b, [StartsAt(desc), OrderInSession], Value)
    ensures StartsInOrder(a, b, desc)
  {
    var cols := [StartsAt(desc), OrderInSession];
    assert cols[1..] == [OrderInSession];
    assert cols[1..][1..] == [];
    StampLtLexicographic(a.session.startsAt, b.session.startsAt);
    StampLtLexicographic(b.session.startsAt, a.session.startsAt);
  }

  /** Null ranks first, then ascending rank. */
  predicate RankLe(a: Option<int>, b: Option<int>) {
    a.None? || (b.Some? && a.value <= b.value)
  }

  /** `order_by_event_type`: by rank, then start, then order in session. */
  lemma OrderedByEventType(st: Store, q: Builder)
    requires q.orders == []
    ensures var rows := Fetch(st, OrderByEventType(q));
            forall i, j :: 0 <= i < j < |rows| ==>
              && RankLe(rows[i].rank, rows[j].rank)
              && (rows[i].rank == rows[j].rank ==> StartsInOrder(rows[i], rows[j], false))
  {
    var rows := Fetch(st, OrderByEventType(q));
    assert OrderByEventType(q).orders == [Rank, StartsAt(false), OrderInSession];
    forall i, j | 0 <= i < j < |rows|
      ensures RankLe(rows[i].rank, rows[j].rank)
      ensures rows[i].rank == rows[j].rank ==> StartsInOrder(rows[i], rows[j], false)
    {
      RankColumns(rows[i], rows[j]);
    }
  }

  lemma RankColumns(a: ScheduleRow, b: ScheduleRow)
    requires LexLe(a, b, [Rank, StartsAt(false), OrderInSession], Value)
    ensures RankLe(a.rank, b.rank)
    ensures a.rank == b.rank ==> StartsInOrder(a, b, false)
  {
    var cols := [Rank, StartsAt(false), OrderInSession];
    assert cols[1..] == [StartsAt(false), OrderInSession];
    if a.rank == b.rank {
      StartColumns(a, b, false);
    }
  }
}
