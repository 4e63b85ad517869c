/** The parts of src/la28/schema.py that carry meaning beyond emitted text:
    the `schedule_view` the schema defines (its joins, its four map-link
    columns and its order), the event types it seeds, and the dialects
    `generate_schema` accepts. The view restates what `ScheduleQuery`
    computes, and the lemmas here show the two agree. */
module Schema {
  import opened Text
  import opened Sorting
  import opened Models
  import opened Query
  import opened ScheduleQuery

  // ---------------------------------------------------------------------
  // The link columns of the view

  /** `CASE WHEN venue.latitude IS NOT NULL AND venue.longitude IS NOT NULL
      THEN prefix || latitude || middle || longitude || suffix ELSE NULL END`. */
  function CaseUrl(lat: Option<real>, lng: Option<real>, prefix: string, middle: string, suffix: string): (u: Option<MapUrl>)
    ensures u.Some? <==> lat.Some? && lng.Some?
    ensures u.Some? ==> u.value.lat == lat.value && u.value.lng == lng.value
    ensures u.Some? ==> u.value.prefix == prefix && u.value.middle == middle && u.value.suffix == suffix
  {
    if lat.Some? && lng.Some? then Some(MapUrl(prefix, lat.value, middle, lng.value, suffix)) else None
  }

  /** `REPLACE(venue.venue, ' ', '+')`. */
  function SqlReplaceSpaces(name: string): string {
    ReplaceChar(name, ' ', '+')
  }

  /** The four link columns as the view's SQL writes them. */
  function ViewUrls(v: Venue): MapUrls {
    MapUrls(
      CaseUrl(v.latitude, v.longitude, "https://www.google.com/maps/search/?api=1&query=", ",", ""),
      CaseUrl(v.latitude, v.longitude, "https://waze.com/ul?ll=", ",", "&navigate=yes"),
      CaseUrl(v.latitude, v.longitude, "https://maps.apple.com/?ll=", ",", "&q=" + SqlReplaceSpaces(v.venue)),
      CaseUrl(v.latitude, v.longitude, "https://www.openstreetmap.org/?mlat=", "&mlon=", "&zoom=17"))
  }

  /** The view and the query layer build the same links for every venue. */
  lemma ViewUrlsMatchQuery(v: Venue)
    ensures ViewUrls(v) == Urls(v)
  {
  }

  /** Each link column is present exactly when both coordinates are, and the
      Apple link names the venue with its spaces turned into "+". */
  lemma ViewUrlsPresent(v: Venue)
    ensures ViewUrls(v).google.Some? <==> v.latitude.Some? && v.longitude.Some?
    ensures ViewUrls(v).waze.Some? <==> v.latitude.Some? && v.longitude.Some?
    ensures ViewUrls(v).apple.Some? <==> v.latitude.Some? && v.longitude.Some?
    ensures ViewUrls(v).osm.Some? <==> v.latitude.Some? && v.longitude.Some?
    ensures ViewUrls(v).apple.Some? ==> ' ' !in ViewUrls(v).apple.value.suffix[3..]
  {
    ViewUrlsMatchQuery(v);
    if Urls(v).apple.Some? {
      AppleQueryHasNoSpace(v);
    }
  }

  // ---------------------------------------------------------------------
  // The rows of the view

  /** `ORDER BY session.starts_at, event.order_in_session`. */
  predicate ViewLe(a: ScheduleRow, b: ScheduleRow) {
    || StampLt(a.session.startsAt, b.session.startsAt)
    || (a.session.startsAt == b.session.startsAt && a.event.orderInSession <= b.event.orderInSession)
  }

  function ViewOrder(): (ScheduleRow, ScheduleRow) -> bool {
    (a, b) => ViewLe(a, b)
  }

  /** The rows of `schedule_view`: the inner joins with session, venue, zone
      and sport, the left join with the event types, in the view's order. */
  function ViewRows(st: Store): (rows: seq<ScheduleRow>)
    ensures multiset(rows) == multiset(ScheduleQuery.Join(st))
    ensures forall i, j :: 0 <= i < j < |rows| ==> ViewLe(rows[i], rows[j])
  {
    var rows := Sort(ScheduleQuery.Join(st), ViewOrder());
    ViewOrderIsPreorder(ScheduleQuery.Join(st));
    SortSorted(ScheduleQuery.Join(st), ViewOrder());
    rows
  }

  lemma ViewOrderIsPreorder(s: seq<ScheduleRow>)
    ensures TotalPreorderOn(s, ViewOrder())
  {
    forall a, b | a in s && b in s ensures ViewLe(a, b) || ViewLe(b, a) {
      StampLtLexicographic(a.session.startsAt, b.session.startsAt);
      StampLtLexicographic(b.session.startsAt, a.session.startsAt);
    }
  }

  /** The view's order is the order `order_by_start` gives a builder. */
  lemma ViewLeIsStartColumns(a: ScheduleRow, b: ScheduleRow)
    ensures ViewLe(a, b) == LexLe(a, b, [StartsAt(false), OrderInSession], Value)
  {
    var cols := [StartsAt(false), OrderInSession];
    assert cols[1..] == [OrderInSession];
    assert cols[1..][1..] == [];
    StampLtLexicographic(a.session.startsAt, b.session.startsAt);
    StampLtLexicographic(b.session.startsAt, a.session.startsAt);
  }

  /** Reading the view is the same as fetching from a fresh builder ordered
      by start: same rows, same order, ties included. */
  lemma ViewIsOrderByStart(st: Store)
    ensures ViewRows(st) == Fetch(st, OrderByStart(Fresh))
  {
    var cols := [StartsAt(false), OrderInSession];
    var q := OrderByStart(Fresh);
    assert q.filters == [] && q.orders == cols;
    var all := Conjunction([], Holds);
    WhereAll(ScheduleQuery.Join(st), all);
    forall a, b | a in ScheduleQuery.Join(st) && b in ScheduleQuery.Join(st)
      ensures ViewOrder()(a, b) == ((x, y) => LexLe(x, y, cols, Value))(a, b)
    {
      ViewLeIsStartColumns(a, b);
    }
    SortCongruent(ScheduleQuery.Join(st), ViewOrder(), (x, y) => LexLe(x, y, cols, Value));
  }

  /** Every joinable stored event has exactly as many view rows as it has
      copies in storage, and nothing else has a row. */
  lemma ViewRowPerEvent(st: Store)
    ensures multiset(MapSeq((r: ScheduleRow) => r.event, ViewRows(st))) == multiset(Where(st.events, JoinableIn(st)))
  {
    MapPermutation((r: ScheduleRow) => r.event, ViewRows(st), ScheduleQuery.Join(st));
  }

  // ---------------------------------------------------------------------
  // Seed rows and dialects

  /** The (label, rank) pairs `generate_schema` inserts into `event_type`. */
  const SeedList: seq<(string, int)> :=
    [("Final", 1), ("Bronze", 2), ("Semifinal", 3), ("Quarterfinal", 4), ("Repechage", 5), ("Preliminary", 6), ("N/A", 99)]

  /** The emitted seed rows are the store's default event types, in order. */
  lemma SeedListIsDefault()
    ensures |SeedList| == |DefaultEventTypes()|
    ensures forall i :: 0 <= i < |SeedList| ==>
              SeedList[i] == (DefaultEventTypes()[i].typeName, DefaultEventTypes()[i].rank)
  {
  }

  /** The engine `generate_schema` compiles the DDL for. */
  datatype Engine = SqliteMemory | PostgresMock

  datatype SchemaResult = Accepted(engine: Engine) | Unsupported(message: string)

  /** The dialect test at the head of `generate_schema`. */
  function SchemaEngine(dialect: string): (r: SchemaResult)
    ensures r.Accepted? <==> dialect in {"sqlite", "postgresql", "postgres"}
    ensures r == Accepted(SqliteMemory) <==> dialect == "sqlite"
    ensures r.Unsupported? ==> r.message == "Unsupported dialect: " + dialect
  {
    if dialect == "sqlite" then Accepted(SqliteMemory)
    else if dialect in {"postgresql", "postgres"} then Accepted(PostgresMock)
    else Unsupported("Unsupported dialect: " + dialect)
  }

  /** `Dialects.SQLITE` and `Dialects.POSTGRES`. */
  const Sqlite := "sqlite"
  const Postgres := "postgres"

  /** Both named dialects are accepted: `generate_postgres_schema` passes
      "postgres", which the test admits next to "postgresql". */
  lemma NamedDialectsAccepted()
    ensures SchemaEngine(Sqlite) == Accepted(SqliteMemory)
    ensures SchemaEngine(Postgres) == Accepted(PostgresMock)
    ensures SchemaEngine("postgresql") == Accepted(PostgresMock)
  {
  }
}
