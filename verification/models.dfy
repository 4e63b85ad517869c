/** The entities of the schedule store (src/la28/models.py): natural-key
    records for zones, venues, sports, event types and days, the
    sport-venue link, sessions and events with their numbering counters,
    the seeded event types and the session duration. */
module Models {
  import opened Text

  /** The two time zones the schedule uses: the host city's and the one of
      the secondary city, Oklahoma City. */
  datatype Tz = Pacific | Central

  /** The IANA key stored in `Session.timezone`. */
  function TzKey(tz: Tz): string {
    match tz
    case Pacific => "America/Los_Angeles"
    case Central => "America/Chicago"
  }

  type Minute = m: int | 0 <= m < 1440

  /** A wall-clock instant as the store keeps it: a calendar day ordinal and
      the minute of that day. Instants are compared as stored; nothing is
      converted to UTC. */
  datatype Stamp = Stamp(date: int, minute: Minute)

  /** Minutes since the start of day 0; orders stamps chronologically. */
  function Ordinal(s: Stamp): int {
    s.date * 1440 + s.minute
  }

  predicate StampLe(a: Stamp, b: Stamp) {
    Ordinal(a) <= Ordinal(b)
  }

  predicate StampLt(a: Stamp, b: Stamp) {
    Ordinal(a) < Ordinal(b)
  }

  /** `start <= t <= end`, both ends included, as SQL's `>=` and `<=`. */
  predicate Within(start: Stamp, end: Stamp, t: Stamp) {
    StampLe(start, t) && StampLe(t, end)
  }

  /** The first and the last minute of a day: `datetime.combine` with the
      smallest and the largest time. Stamps count whole minutes, so the
      last one stands for every instant up to the end of the day. */
  function DayStart(d: int): Stamp { Stamp(d, 0) }

  function DayEnd(d: int): Stamp { Stamp(d, 1439) }

  /** The ordinal order is the lexicographic order on (date, minute). */
  lemma StampLtLexicographic(a: Stamp, b: Stamp)
    ensures StampLt(a, b) <==> a.date < b.date || (a.date == b.date && a.minute < b.minute)
  {
  }

  datatype Zone = Zone(zone: string, description: Option<string>)

  datatype Venue = Venue(
    venue: string,
    zone: string,
    address: Option<string>,
    capacity: Option<int>,
    latitude: Option<real>,
    longitude: Option<real>,
    inOkc: bool)

  datatype Sport = Sport(sport: string, description: Option<string>, icon: Option<string>)

  datatype EventType = EventType(typeName: string, rank: int)

  datatype SportVenueLink = SportVenueLink(sport: string, venue: string, isPrimary: bool)

  datatype Session = Session(
    code: string,
    day: int,
    sport: string,
    venue: string,
    sessionType: Option<string>,
    startsAt: Stamp,
    endsAt: Stamp,
    timezone: Tz,
    ticketed: bool,
    sessionNumber: Option<int>,
    totalSessions: Option<int>,
    sportSessionNumber: Option<int>,
    totalSportSessions: Option<int>)

  datatype Event = Event(
    id: int,
    code: string,
    sex: string,
    description: string,
    eventType: Option<string>,
    orderInSession: int,
    totalInSession: int,
    eventNumber: Option<int>,
    totalEvents: Option<int>,
    sportEventNumber: Option<int>,
    totalSportEvents: Option<int>)

  /** The whole store. Zones, venues, sports and event types are keyed by
      their natural key, links by (sport, venue), days are their own key;
      sessions and events are kept in insertion order. */
  datatype Store = Store(
    days: set<int>,
    zones: map<string, Zone>,
    venues: map<string, Venue>,
    sports: map<string, Sport>,
    eventTypes: map<string, EventType>,
    links: map<(string, string), SportVenueLink>,
    sessions: seq<Session>,
    events: seq<Event>)

  const EmptyStore := Store({}, map[], map[], map[], map[], map[], [], [])

  /** Every keyed record sits under its own natural key. */
  ghost predicate KeysAreNatural(st: Store) {
    && (forall k :: k in st.zones ==> st.zones[k].zone == k)
    && (forall k :: k in st.venues ==> st.venues[k].venue == k)
    && (forall k :: k in st.sports ==> st.sports[k].sport == k)
    && (forall k :: k in st.eventTypes ==> st.eventTypes[k].typeName == k)
    && (forall k :: k in st.links ==> (st.links[k].sport, st.links[k].venue) == k)
  }

  ghost predicate UniqueCodes(sessions: seq<Session>) {
    forall i, j :: 0 <= i < j < |sessions| ==> sessions[i].code != sessions[j].code
  }

  // Constructors with the defaults the records declare.

  function NewZone(zone: string): (z: Zone)
    ensures z.zone == zone && z.description.None?
  {
    Zone(zone, None)
  }

  /** A venue as first registered: not yet geocoded, `in_okc` false unless given. */
  function NewVenue(venue: string, zone: string, inOkc: bool := false): (v: Venue)
    ensures v.venue == venue && v.zone == zone && v.inOkc == inOkc
    ensures v.address.None? && v.capacity.None? && v.latitude.None? && v.longitude.None?
  {
    Venue(venue, zone, None, None, None, None, inOkc)
  }

  function NewSport(sport: string): (s: Sport)
    ensures s.sport == sport && s.description.None? && s.icon.None?
  {
    Sport(sport, None, None)
  }

  function NewLink(sport: string, venue: string, isPrimary: bool := false): (l: SportVenueLink)
    ensures l == SportVenueLink(sport, venue, isPrimary)
  {
    SportVenueLink(sport, venue, isPrimary)
  }

  /** Sessions carry no numbering until the numbering pass runs. */
  ghost predicate SessionUnnumbered(s: Session) {
    s.sessionNumber.None? && s.totalSessions.None? && s.sportSessionNumber.None? && s.totalSportSessions.None?
  }

  ghost predicate EventUnnumbered(e: Event) {
    e.eventNumber.None? && e.totalEvents.None? && e.sportEventNumber.None? && e.totalSportEvents.None?
  }

  function NewSession(code: string, day: int, sport: string, venue: string, sessionType: Option<string>,
                      startsAt: Stamp, endsAt: Stamp, timezone: Tz, ticketed: bool := true): (s: Session)
    ensures SessionUnnumbered(s)
    ensures s.code == code && s.ticketed == ticketed && s.startsAt == startsAt && s.endsAt == endsAt
  {
    Session(code, day, sport, venue, sessionType, startsAt, endsAt, timezone, ticketed, None, None, None, None)
  }

  function NewEvent(id: int, code: string, sex: string, description: string, eventType: Option<string>,
                    orderInSession: int := 1, totalInSession: int := 1): (e: Event)
    ensures EventUnnumbered(e)
    ensures e.id == id && e.code == code && e.orderInSession == orderInSession && e.totalInSession == totalInSession
  {
    Event(id, code, sex, description, eventType, orderInSession, totalInSession, None, None, None, None)
  }

  /** The defaults declared on the records: a session is ticketed, a venue
      is not in Oklahoma City, a link is not primary, an event is the only
      one of its session, and nothing is numbered. */
  lemma Defaults(code: string, day: int, sport: string, venue: string, zone: string, t: Option<string>,
                 a: Stamp, b: Stamp, tz: Tz, id: int, sex: string, text: string)
    ensures NewSession(code, day, sport, venue, t, a, b, tz).ticketed
    ensures !NewVenue(venue, zone).inOkc
    ensures !NewLink(sport, venue).isPrimary
    ensures NewEvent(id, code, sex, text, t).orderInSession == 1
    ensures NewEvent(id, code, sex, text, t).totalInSession == 1
  {
  }

  /** The seven seeded event types in their declared order. */
  function DefaultEventTypes(): (r: seq<EventType>)
    ensures |r| == 7
    ensures forall i, j :: 0 <= i < j < |r| ==> r[i].typeName != r[j].typeName && r[i].rank < r[j].rank
    ensures forall i :: 0 <= i < |r| ==> r[0].rank <= r[i].rank <= r[6].rank
    ensures r[0] == EventType("Final", 1) && r[6] == EventType("N/A", 99)
  {
    [ EventType("Final", 1),
      EventType("Bronze", 2),
      EventType("Semifinal", 3),
      EventType("Quarterfinal", 4),
      EventType("Repechage", 5),
      EventType("Preliminary", 6),
      EventType("N/A", 99) ]
  }

  function Labels(ts: seq<EventType>): (r: seq<string>)
    ensures |r| == |ts| && forall i :: 0 <= i < |ts| ==> r[i] == ts[i].typeName
  {
    seq(|ts|, i requires 0 <= i < |ts| => ts[i].typeName)
  }

  /** The labels the classifier can produce for a multi-line block. */
  function SeededLabels(): set<string> {
    set t | t in DefaultEventTypes() :: t.typeName
  }

  lemma SeededLabelsAre()
    ensures SeededLabels() == {"Final", "Bronze", "Semifinal", "Quarterfinal", "Repechage", "Preliminary", "N/A"}
  {
    var d := DefaultEventTypes();
    assert d[0] in d && d[1] in d && d[2] in d && d[3] in d && d[4] in d && d[5] in d && d[6] in d;
  }

  /** Session length in whole minutes: the seconds between the two stored
      instants, floor-divided by 60. */
  function DurationMinutes(s: Session): (m: int)
    ensures m * 60 <= (Ordinal(s.endsAt) - Ordinal(s.startsAt)) * 60 < m * 60 + 60
    ensures m < 0 <==> StampLt(s.endsAt, s.startsAt)
    ensures m == 0 <==> Ordinal(s.endsAt) == Ordinal(s.startsAt)
  {
    var seconds := (Ordinal(s.endsAt) - Ordinal(s.startsAt)) * 60;
    FloorDiv(seconds, 60)
  }

  /** Python's `//` for a positive divisor: rounds toward negative infinity. */
  function FloorDiv(a: int, b: int): (q: int)
    requires b > 0
    ensures q * b <= a < q * b + b
  {
    a / b
  }
}
