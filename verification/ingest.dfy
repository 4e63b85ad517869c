/** The row loop of `load_from_json` (src/la28/parsing.py): each row of the
    extracted schedule table is read into get-or-create dimension records,
    a first-writer-wins sport-venue link, one session and one event per
    description line; the whole load is one transaction and is followed by
    the numbering pass. */
module Ingest {
  import opened Text
  import opened Sorting
  import opened Models
  import opened Classify
  import opened Clock
  import opened Numbering

  /** One row of the schedule table; every cell is text. */
  datatype Row = Row(
    date: string,
    startTime: string,
    endTime: string,
    zone: string,
    venue: string,
    sport: string,
    sessionType: string,
    gamesDay: string,
    description: string,
    code: string)

  /** The readers the loop borrows from Python: `strptime` with
      "%A, %B %d %Y" as a day ordinal, and `int()` of a text. Each gives
      None where Python raises. */
  datatype Readers = Readers(date: string -> Option<int>, integer: string -> Option<int>)

  /** Why a load raised; `row` is the position of the offending row. */
  datatype LoadError = BadDate(row: nat) | BadTime(row: nat) | BadGamesDay(row: nat) | DuplicateCode(code: string)

  datatype Outcome<T> = Ok(value: T) | Failed(error: LoadError)

  // ---------------------------------------------------------------------
  // Start and end instants

  /** The two instants of a session and the zone they are stated in. */
  datatype Times = Times(startsAt: Stamp, endsAt: Stamp, tz: Tz)

  /** First line of a cell. */
  function FirstLine(cell: string): string {
    Split(cell, '\n')[0]
  }

  /** The start and end of a row on day `date`: a "TBD" start forces the
      whole day, otherwise the end cell's first line is the end. */
  function ResolveTimes(date: int, startCell: string, endCell: string): (r: Option<Times>)
    ensures r.Some? ==> r.value.startsAt.date == date && r.value.endsAt.date == date
    ensures r.Some? ==>
              (r.value.tz == Central <==> exists k :: 1 <= k < |Split(startCell, '\n')| && Contains(Split(startCell, '\n')[k], CtMarker))
  {
    var start := ParseTimeCell(startCell);
    var endText := if start.endOverride.Some? then start.endOverride.value else ParseTimeCell(endCell).time;
    ReadStamps(date, start.time, endText, if start.isCt then Central else Pacific)
  }

  /** Both times read on day `date`, or None if either does not. */
  function ReadStamps(date: int, a: string, b: string, tz: Tz): (r: Option<Times>)
    ensures r.Some? <==> ParseClock(a).Some? && ParseClock(b).Some?
    ensures r.Some? ==> r.value == Times(Stamp(date, ParseClock(a).value), Stamp(date, ParseClock(b).value), tz)
  {
    match (ParseClock(a), ParseClock(b))
    case (Some(x), Some(y)) => Some(Times(Stamp(date, x), Stamp(date, y), tz))
    case _ => None
  }

  lemma Midnight(a: string)
    requires a == "00:00"
    ensures ParseClock(a) == Some(0)
  {
    assert DropSpace(a) == a;
    assert a == "00" + ":" + "00";
    assert "00" == Pad2(0);
    ParseBareParts("00", "00", 0, 0);
  }

  lemma LastMinute(b: string)
    requires b == "23:59"
    ensures ParseClock(b) == Some(1439)
  {
    assert DropSpace(b) == b;
    assert b == "23" + ":" + "59";
    assert "23" == Pad2(23);
    assert "59" == Pad2(59);
    ParseBareParts("23", "59", 23, 59);
  }

  /** A "TBD" start spans the whole day, whatever the end cell says. */
  lemma TbdStartSpansDay(date: int, startCell: string, endCell: string)
    requires FirstLine(startCell) == TBD
    ensures ResolveTimes(date, startCell, endCell).Some?
    ensures ResolveTimes(date, startCell, endCell).value.startsAt == Stamp(date, 0)
    ensures ResolveTimes(date, startCell, endCell).value.endsAt == Stamp(date, 1439)
  {
    var c := ParseTimeCell(startCell);
    Midnight(c.time);
    LastMinute(c.endOverride.value);
  }

  /** A "TBD" end after a real start reads as midnight of the same day, so
      the session ends before it starts. */
  lemma TbdEndIsMidnight(date: int, startCell: string, endCell: string, m: int)
    requires FirstLine(startCell) != TBD && ParseClock(FirstLine(startCell)) == Some(m)
    requires FirstLine(endCell) == TBD
    ensures ResolveTimes(date, startCell, endCell).Some?
    ensures ResolveTimes(date, startCell, endCell).value.startsAt == Stamp(date, m)
    ensures ResolveTimes(date, startCell, endCell).value.endsAt == Stamp(date, 0)
    ensures m > 0 ==> StampLt(ResolveTimes(date, startCell, endCell).value.endsAt,
                              ResolveTimes(date, startCell, endCell).value.startsAt)
  {
    Midnight(ParseTimeCell(endCell).time);
  }

  /** Only the first line of the end cell matters: its time-zone marker is
      ignored. */
  lemma EndMarkerIgnored(date: int, startCell: string, e1: string, e2: string)
    requires FirstLine(e1) == FirstLine(e2)
    ensures ResolveTimes(date, startCell, e1) == ResolveTimes(date, startCell, e2)
  {
    if FirstLine(e1) == TBD {
      assert ParseTimeCell(e1).time == ParseTimeCell(e2).time;
    }
  }

  lemma ClockTextIsNotTbd(t: string, m: int)
    requires IsClockText(t, m)
    ensures t != TBD
  {
    var a, b :| a in HourTexts(m / 60) && b in MinuteTexts(m % 60) && t == a + ":" + b;
    HourTextStart(a, m / 60);
    assert t[0] == a[0];
  }

  /** Cells whose first lines are times read as those times. */
  lemma ClockCellsRead(date: int, startCell: string, endCell: string, m1: int, m2: int)
    requires IsClockText(FirstLine(startCell), m1) && IsClockText(FirstLine(endCell), m2)
    ensures ResolveTimes(date, startCell, endCell).Some?
    ensures ResolveTimes(date, startCell, endCell).value.startsAt == Stamp(date, m1)
    ensures ResolveTimes(date, startCell, endCell).value.endsAt == Stamp(date, m2)
  {
    ClockTextIsNotTbd(FirstLine(startCell), m1);
    ClockTextIsNotTbd(FirstLine(endCell), m2);
    ParseClockText([], FirstLine(startCell), m1);
    ParseClockText([], FirstLine(endCell), m2);
    assert [] + FirstLine(startCell) == FirstLine(startCell);
    assert [] + FirstLine(endCell) == FirstLine(endCell);
  }

  // ---------------------------------------------------------------------
  // Session description

  const NotTicketed := "Not Ticketed"

  /** A description cell: whether the session is ticketed and the lines
      that become its events. */
  datatype Block = Block(ticketed: bool, lines: seq<string>)

  function ReadDescription(desc: string): (b: Block)
    ensures b.ticketed <==> FirstLine(desc) != NotTicketed
    ensures b.ticketed ==> |b.lines| >= 1
    ensures forall k :: 0 <= k < |b.lines| ==> '\n' !in b.lines[k]
  {
    var lines := Split(desc, '\n');
    if lines[0] == NotTicketed then Block(false, lines[1..]) else Block(true, lines)
  }

  /** The text a block is read from. */
  function BlockText(b: Block): string
    requires b.ticketed ==> |b.lines| >= 1
  {
    Join(if b.ticketed then b.lines else [NotTicketed] + b.lines, '\n')
  }

  /** Reading loses nothing: the marker line and the event lines give back
      the description. */
  lemma {:induction false} DescriptionRoundTrip(desc: string)
    ensures BlockText(ReadDescription(desc)) == desc
  {
    var lines := Split(desc, '\n');
    JoinSplit(desc, '\n');
    if lines[0] == NotTicketed {
      assert [NotTicketed] + lines[1..] == lines;
    }
  }

  /** And every block of lines is read back from its text. */
  lemma {:induction false} BlockRoundTrip(b: Block)
    requires b.ticketed ==> |b.lines| >= 1 && b.lines[0] != NotTicketed
    requires forall k :: 0 <= k < |b.lines| ==> '\n' !in b.lines[k]
    ensures ReadDescription(BlockText(b)) == b
  {
    var pieces := if b.ticketed then b.lines else [NotTicketed] + b.lines;
    assert forall k :: 0 <= k < |pieces| ==> '\n' !in pieces[k] by {
      forall k | 0 <= k < |pieces| ensures '\n' !in pieces[k] {
        if !b.ticketed && k > 0 {
          assert pieces[k] == b.lines[k - 1];
        }
      }
    }
    SplitJoin(pieces, '\n');
    if !b.ticketed {
      assert pieces[1..] == b.lines;
    }
  }

  /** "Not Ticketed" alone leaves a session without events. */
  lemma NotTicketedAlone(desc: string)
    requires desc == NotTicketed
    ensures ReadDescription(desc) == Block(false, [])
  {
    SplitJoin([desc], '\n');
  }

  // ---------------------------------------------------------------------
  // Events of one session

  /** One event per line, in line order, with fresh ids from `firstId`. */
  function MakeEvents(code: string, lines: seq<string>, sessionType: string, firstId: int): (r: seq<Event>)
    ensures |r| == |lines|
    ensures forall k :: 0 <= k < |r| ==> r[k].code == code && r[k].id == firstId + k && EventUnnumbered(r[k])
    ensures forall k :: 0 <= k < |r| ==> r[k].orderInSession == k + 1 && r[k].totalInSession == |lines|
    ensures forall k :: 0 <= k < |r| ==> r[k].description == lines[k]
    ensures forall k :: 0 <= k < |r| ==> r[k].sex in SexLabels && r[k].eventType.Some?
    ensures |lines| > 1 ==> forall k :: 0 <= k < |r| ==> r[k].eventType.value in SeededLabels()
  {
    seq(|lines|, k requires 0 <= k < |lines| => LineEvent(firstId + k, code, lines[k], sessionType, k + 1, |lines|))
  }

  /** The event of line number `order` of `total`. */
  function LineEvent(id: int, code: string, line: string, sessionType: string, order: int, total: int): (e: Event)
    ensures e.code == code && e.id == id && e.description == line && EventUnnumbered(e)
    ensures e.orderInSession == order && e.totalInSession == total
    ensures e.sex in SexLabels && e.eventType.Some?
    ensures total > 1 ==> e.eventType.value in SeededLabels()
    ensures total == 1 ==> e.eventType.value == ReplaceChar(sessionType, '\n', ' ')
  {
    NewEvent(id, code, ParseSex(line), line, Some(ParseEventType(line, sessionType, total == 1)), order, total)
  }

  function Descriptions(es: seq<Event>): (r: seq<string>)
    ensures |r| == |es| && forall k :: 0 <= k < |es| ==> r[k] == es[k].description
  {
    MapSeq((e: Event) => e.description, es)
  }

  /** The events of a session give back its event lines, raw and in order. */
  lemma EventsKeepLines(code: string, lines: seq<string>, sessionType: string, firstId: int)
    ensures Descriptions(MakeEvents(code, lines, sessionType, firstId)) == lines
  {
  }

  /** The events of a ticketed description give back the description. */
  lemma EventsRebuildDescription(code: string, desc: string, sessionType: string, firstId: int)
    requires FirstLine(desc) != NotTicketed
    ensures Join(Descriptions(MakeEvents(code, ReadDescription(desc).lines, sessionType, firstId)), '\n') == desc
  {
    EventsKeepLines(code, ReadDescription(desc).lines, sessionType, firstId);
    DescriptionRoundTrip(desc);
  }

  /** A lone line takes the session type, whatever it says. */
  lemma LoneLineTakesSessionType(code: string, line: string, sessionType: string, firstId: int)
    ensures MakeEvents(code, [line], sessionType, firstId)[0].eventType == Some(ReplaceChar(sessionType, '\n', ' '))
  {
    assert MakeEvents(code, [line], sessionType, firstId)[0] == LineEvent(firstId, code, line, sessionType, 1, 1);
  }

  // ---------------------------------------------------------------------
  // Dimension records and the row

  /** The keys the loop has already handled, and its two counters. The key
      sets spare a store lookup; the summary reports their sizes. */
  datatype Stats = Stats(days: set<int>, zones: set<string>, venues: set<string>, sports: set<string>,
                         sessions: nat, events: nat)

  const NoStats := Stats({}, {}, {}, {}, 0, 0)

  /** Get-or-create of one keyed record: looked up first among the keys
      already handled, then in the store, and added only where absent. */
  function GetOrAdd<K(==), V>(seen: set<K>, m: map<K, V>, k: K, made: V): (r: (set<K>, map<K, V>))
    ensures r.0 == seen + {k}
    ensures forall j :: j in m ==> j in r.1 && r.1[j] == m[j]
    ensures seen <= m.Keys ==> r.1.Keys == m.Keys + {k}
    ensures seen <= m.Keys && k !in m ==> r.1[k] == made
  {
    if k in seen then (seen, m)
    else if k in m then (seen + {k}, m)
    else (seen + {k}, m[k := made])
  }

  /** The same for the day table, whose records are their own key. */
  function GetOrAddDay(seen: set<int>, days: set<int>, d: int): (r: (set<int>, set<int>))
    ensures r.0 == seen + {d}
    ensures days <= r.1
    ensures seen <= days ==> r.1 == days + {d}
  {
    if d in seen then (seen, days)
    else if d in days then (seen + {d}, days)
    else (seen + {d}, days + {d})
  }

  /** The largest event id, 0 when there is none: SQLite gives the next row
      id one more than the largest. */
  function MaxId(es: seq<Event>): (m: int)
    ensures m >= 0
    ensures forall i :: 0 <= i < |es| ==> es[i].id <= m
  {
    if |es| == 0 then 0
    else
      var rest := MaxId(es[1..]);
      assert forall i :: 1 <= i < |es| ==> es[i] == es[1..][i - 1];
      if es[0].id > rest then es[0].id else rest
  }

  datatype Loaded = Loaded(store: Store, stats: Stats)

  /** A row that reads: its date, its times and its day number. */
  ghost predicate RowReads(rd: Readers, row: Row) {
    && rd.date(row.date + " 2028").Some?
    && ResolveTimes(rd.date(row.date + " 2028").value, row.startTime, row.endTime).Some?
    && rd.integer(row.gamesDay).Some?
  }

  predicate CodeTaken(st: Store, code: string) {
    SessionOf(st.sessions, code).Some?
  }

  /** The cells Python parses, in the order it parses them. */
  function ReadRow(rd: Readers, row: Row, n: nat): (r: Outcome<(Times, int)>)
    ensures r.Ok? <==> RowReads(rd, row)
    ensures r.Failed? ==> r.error == BadDate(n) || r.error == BadTime(n) || r.error == BadGamesDay(n)
  {
    match rd.date(row.date + " 2028")
    case None => Failed(BadDate(n))
    case Some(date) =>
      match ResolveTimes(date, row.startTime, row.endTime)
      case None => Failed(BadTime(n))
      case Some(t) =>
        match rd.integer(row.gamesDay)
        case None => Failed(BadGamesDay(n))
        case Some(day) => Ok((t, day))
  }

  /** `l` extends `st` by `k` sessions and their events, and counts them. */
  ghost predicate Grows(st: Store, stats: Stats, l: Loaded, k: nat) {
    && |l.store.sessions| == |st.sessions| + k && l.store.sessions[..|st.sessions|] == st.sessions
    && |l.store.events| >= |st.events| && l.store.events[..|st.events|] == st.events
    && l.stats.sessions == stats.sessions + k
    && l.stats.events == stats.events + |l.store.events| - |st.events|
    && l.store.eventTypes == st.eventTypes
  }

  lemma GrowsTrans(st: Store, stats: Stats, l: Loaded, m: Loaded, j: nat, k: nat)
    requires Grows(st, stats, l, j) && Grows(l.store, l.stats, m, k)
    ensures Grows(st, stats, m, j + k)
  {
    assert m.store.sessions[..|st.sessions|] == m.store.sessions[..|l.store.sessions|][..|st.sessions|];
    assert m.store.events[..|st.events|] == m.store.events[..|l.store.events|][..|st.events|];
  }

  /** One iteration of the row loop; `n` is the row's position. */
  function AddRow(rd: Readers, st: Store, stats: Stats, row: Row, n: nat): (r: Outcome<Loaded>)
    ensures r.Ok? <==> RowReads(rd, row) && !CodeTaken(st, row.code)
    ensures r.Failed? && r.error.DuplicateCode? ==> CodeTaken(st, row.code)
    ensures r.Ok? ==> Grows(st, stats, r.value, 1)
    ensures r.Ok? ==> forall c :: CodeTaken(r.value.store, c) <==> CodeTaken(st, c) || c == row.code
    ensures r.Ok? ==> r.value.stats.zones == stats.zones + {row.zone} && r.value.stats.venues == stats.venues + {row.venue}
    ensures r.Ok? ==> r.value.stats.sports == stats.sports + {SportName(row)}
    ensures r.Ok? ==> r.value.stats.days == stats.days + {rd.integer(row.gamesDay).value}
  {
    match ReadRow(rd, row, n)
    case Failed(e) => Failed(e)
    case Ok((t, day)) =>
      if CodeTaken(st, row.code) then Failed(DuplicateCode(row.code))
      else
        CodesAfter(st, stats, row, t, day);
        Ok(Record(st, stats, row, t, day))
  }

  /** The sport name as stored: line breaks become spaces, every other
      character stays where it was, and no line break is left. */
  function SportName(row: Row): (name: string)
    ensures '\n' !in name && |name| == |row.sport|
    ensures forall i :: 0 <= i < |name| && row.sport[i] != '\n' ==> name[i] == row.sport[i]
  {
    ReplaceCharRemovesAll(row.sport, '\n', ' ');
    ReplaceChar(row.sport, '\n', ' ')
  }

  /** The session type as stored, cleaned the same way as the sport. */
  function SessionTypeName(row: Row): (name: string)
    ensures '\n' !in name && |name| == |row.sessionType|
    ensures forall i :: 0 <= i < |name| && row.sessionType[i] != '\n' ==> name[i] == row.sessionType[i]
  {
    ReplaceCharRemovesAll(row.sessionType, '\n', ' ');
    ReplaceChar(row.sessionType, '\n', ' ')
  }

  /** The session a readable row creates. */
  function RowSession(row: Row, t: Times, day: int): (s: Session)
    ensures SessionUnnumbered(s)
    ensures s.code == row.code && s.day == day && s.venue == row.venue && s.sport == SportName(row)
    ensures s.startsAt == t.startsAt && s.endsAt == t.endsAt && s.timezone == t.tz
    ensures s.ticketed <==> FirstLine(row.description) != NotTicketed
  {
    NewSession(row.code, day, SportName(row), row.venue, Some(SessionTypeName(row)), t.startsAt, t.endsAt, t.tz,
               ReadDescription(row.description).ticketed)
  }

  /** The events a readable row creates, numbered after every stored id. */
  function RowEvents(st: Store, row: Row): (es: seq<Event>)
    ensures |es| == |ReadDescription(row.description).lines|
    ensures forall k :: 0 <= k < |es| ==> es[k].code == row.code && es[k].id > MaxId(st.events)
  {
    MakeEvents(row.code, ReadDescription(row.description).lines, SessionTypeName(row), MaxId(st.events) + 1)
  }

  /** Every key the loop has handled is in the store. */
  ghost predicate Tracked(stats: Stats, st: Store) {
    stats.days <= st.days && stats.zones <= st.zones.Keys && stats.venues <= st.venues.Keys && stats.sports <= st.sports.Keys
  }

  /** The store and the loop state after a readable row with a new code. */
  function Record(st: Store, stats: Stats, row: Row, t: Times, day: int): (r: Loaded)
    ensures r.store.sessions == st.sessions + [RowSession(row, t, day)]
    ensures r.store.events == st.events + RowEvents(st, row)
    ensures r.store.eventTypes == st.eventTypes
    ensures r.stats.sessions == stats.sessions + 1
    ensures r.stats.events == stats.events + |ReadDescription(row.description).lines|
    ensures r.stats.zones == stats.zones + {row.zone} && r.stats.venues == stats.venues + {row.venue}
    ensures r.stats.sports == stats.sports + {SportName(row)} && r.stats.days == stats.days + {day}
    // first writer wins: nothing already stored is overwritten
    ensures st.days <= r.store.days
    ensures forall k :: k in st.zones ==> k in r.store.zones && r.store.zones[k] == st.zones[k]
    ensures forall k :: k in st.venues ==> k in r.store.venues && r.store.venues[k] == st.venues[k]
    ensures forall k :: k in st.sports ==> k in r.store.sports && r.store.sports[k] == st.sports[k]
    ensures forall k :: k in st.links ==> k in r.store.links && r.store.links[k] == st.links[k]
    // what is missing is created, with the defaults and the row's values
    ensures Tracked(stats, st) ==> Tracked(r.stats, r.store)
    ensures Tracked(stats, st) ==>
              && r.store.days == st.days + {day}
              && r.store.zones.Keys == st.zones.Keys + {row.zone}
              && r.store.venues.Keys == st.venues.Keys + {row.venue}
              && r.store.sports.Keys == st.sports.Keys + {SportName(row)}
    ensures Tracked(stats, st) && row.zone !in st.zones ==> r.store.zones[row.zone] == NewZone(row.zone)
    ensures Tracked(stats, st) && row.venue !in st.venues ==>
              r.store.venues[row.venue] == NewVenue(row.venue, row.zone, t.tz == Central)
    ensures Tracked(stats, st) && SportName(row) !in st.sports ==> r.store.sports[SportName(row)] == NewSport(SportName(row))
    ensures r.store.links.Keys == st.links.Keys + {(SportName(row), row.venue)}
    ensures (SportName(row), row.venue) !in st.links ==>
              r.store.links[(SportName(row), row.venue)] == NewLink(SportName(row), row.venue)
  {
    var sport := SportName(row);
    var (zs, zones) := GetOrAdd(stats.zones, st.zones, row.zone, NewZone(row.zone));
    var (vs, venues) := GetOrAdd(stats.venues, st.venues, row.venue, NewVenue(row.venue, row.zone, t.tz == Central));
    var (ss, sports) := GetOrAdd(stats.sports, st.sports, sport, NewSport(sport));
    var (ds, days) := GetOrAddDay(stats.days, st.days, day);
    var links := if (sport, row.venue) in st.links then st.links else st.links[(sport, row.venue) := NewLink(sport, row.venue)];
    var events := RowEvents(st, row);
    Loaded(Store(days, zones, venues, sports, st.eventTypes, links, st.sessions + [RowSession(row, t, day)], st.events + events),
           Stats(ds, zs, vs, ss, stats.sessions + 1, stats.events + |events|))
  }

  // ---------------------------------------------------------------------
  // Integrity

  /** A session's foreign keys resolve. */
  ghost predicate Attached(st: Store, s: Session) {
    s.day in st.days && s.sport in st.sports && s.venue in st.venues && (s.sport, s.venue) in st.links
  }

  /** The integrity the schema's keys demand: records under their natural
      keys, one session per code, foreign keys that resolve and distinct
      event ids. */
  ghost predicate WellFormed(st: Store) {
    && KeysAreNatural(st)
    && UniqueCodes(st.sessions)
    && (forall k :: k in st.venues ==> st.venues[k].zone in st.zones)
    && (forall k :: k in st.links ==> k.0 in st.sports && k.1 in st.venues)
    && (forall i :: 0 <= i < |st.sessions| ==> Attached(st, st.sessions[i]))
    && (forall i :: 0 <= i < |st.events| ==> CodeTaken(st, st.events[i].code))
    && (forall i, j :: 0 <= i < j < |st.events| ==> st.events[i].id != st.events[j].id)
  }

  lemma EmptyStoreWellFormed()
    ensures WellFormed(EmptyStore) && Tracked(NoStats, EmptyStore)
  {
  }

  /** After a row, a code is taken iff it was taken before or is the row's. */
  lemma CodeTakenAfter(st: Store, stats: Stats, row: Row, t: Times, day: int, code: string)
    ensures CodeTaken(Record(st, stats, row, t, day).store, code) <==> CodeTaken(st, code) || code == row.code
  {
    var ss := Record(st, stats, row, t, day).store.sessions;
    if CodeTaken(st, code) {
      var i :| 0 <= i < |st.sessions| && st.sessions[i].code == code;
      assert ss[i].code == code;
    }
    if code == row.code {
      assert ss[|st.sessions|].code == code;
    }
    if CodeTaken(Record(st, stats, row, t, day).store, code) {
      var i :| 0 <= i < |ss| && ss[i].code == code;
      if i < |st.sessions| {
        assert st.sessions[i].code == code;
      }
    }
  }

  lemma CodesAfter(st: Store, stats: Stats, row: Row, t: Times, day: int)
    ensures forall c :: CodeTaken(Record(st, stats, row, t, day).store, c) <==> CodeTaken(st, c) || c == row.code
  {
    forall c ensures CodeTaken(Record(st, stats, row, t, day).store, c) <==> CodeTaken(st, c) || c == row.code {
      CodeTakenAfter(st, stats, row, t, day, c);
    }
  }

  /** Recording a row with a new code keeps the store well formed. */
  lemma RecordWellFormed(st: Store, stats: Stats, row: Row, t: Times, day: int)
    requires WellFormed(st) && Tracked(stats, st) && !CodeTaken(st, row.code)
    ensures WellFormed(Record(st, stats, row, t, day).store)
  {
    var r := Record(st, stats, row, t, day).store;
    RecordKeys(st, stats, row, t, day);
    RecordCodes(st, stats, row, t, day);
    RecordAttached(st, stats, row, t, day);
    EventIdsDistinct(st, row);
  }

  lemma RecordKeys(st: Store, stats: Stats, row: Row, t: Times, day: int)
    requires WellFormed(st) && Tracked(stats, st)
    ensures var r := Record(st, stats, row, t, day).store;
      && KeysAreNatural(r)
      && (forall k :: k in r.venues ==> r.venues[k].zone in r.zones)
      && (forall k :: k in r.links ==> k.0 in r.sports && k.1 in r.venues)
  {
    RecordZones(st, stats, row, t, day);
    RecordVenues(st, stats, row, t, day);
    RecordSports(st, stats, row, t, day);
    RecordLinks(st, stats, row, t, day);
  }

  lemma RecordZones(st: Store, stats: Stats, row: Row, t: Times, day: int)
    requires WellFormed(st) && Tracked(stats, st)
    ensures var r := Record(st, stats, row, t, day).store;
      forall k :: k in r.zones ==> r.zones[k].zone == k
  {
    var r := Record(st, stats, row, t, day).store;
    forall k | k in r.zones ensures r.zones[k].zone == k {
      if k in st.zones {
        assert st.zones[k].zone == k;
      }
    }
  }

  lemma RecordVenues(st: Store, stats: Stats, row: Row, t: Times, day: int)
    requires WellFormed(st) && Tracked(stats, st)
    ensures var r := Record(st, stats, row, t, day).store;
      forall k :: k in r.venues ==> r.venues[k].venue == k && r.venues[k].zone in r.zones
  {
    var r := Record(st, stats, row, t, day).store;
    forall k | k in r.venues ensures r.venues[k].venue == k && r.venues[k].zone in r.zones {
      if k in st.venues {
        assert st.venues[k].venue == k && st.venues[k].zone in st.zones;
      }
    }
  }

  lemma RecordSports(st: Store, stats: Stats, row: Row, t: Times, day: int)
    requires WellFormed(st) && Tracked(stats, st)
    ensures var r := Record(st, stats, row, t, day).store;
      forall k :: k in r.sports ==> r.sports[k].sport == k
  {
    var r := Record(st, stats, row, t, day).store;
    forall k | k in r.sports ensures r.sports[k].sport == k {
      if k in st.sports {
        assert st.sports[k].sport == k;
      }
    }
  }

  lemma RecordLinks(st: Store, stats: Stats, row: Row, t: Times, day: int)
    requires WellFormed(st) && Tracked(stats, st)
    ensures var r := Record(st, stats, row, t, day).store;
      forall k :: k in r.links ==> (r.links[k].sport, r.links[k].venue) == k && k.0 in r.sports && k.1 in r.venues
  {
    var r := Record(st, stats, row, t, day).store;
    forall k | k in r.links ensures (r.links[k].sport, r.links[k].venue) == k && k.0 in r.sports && k.1 in r.venues {
      if k in st.links {
        assert (st.links[k].sport, st.links[k].venue) == k && k.0 in st.sports && k.1 in st.venues;
      }
    }
  }

  lemma RecordCodes(st: Store, stats: Stats, row: Row, t: Times, day: int)
    requires WellFormed(st) && !CodeTaken(st, row.code)
    ensures var r := Record(st, stats, row, t, day).store;
      && UniqueCodes(r.sessions)
      && (forall i :: 0 <= i < |r.events| ==> CodeTaken(r, r.events[i].code))
  {
    var r := Record(st, stats, row, t, day).store;
    forall i | 0 <= i < |st.sessions| ensures st.sessions[i].code != row.code {
      assert SessionOf(st.sessions, st.sessions[i].code).Some?;
    }
    forall i | 0 <= i < |r.events| ensures CodeTaken(r, r.events[i].code) {
      CodeTakenAfter(st, stats, row, t, day, r.events[i].code);
      if i < |st.events| {
        assert r.events[i] == st.events[i];
      }
    }
  }

  lemma RecordAttached(st: Store, stats: Stats, row: Row, t: Times, day: int)
    requires WellFormed(st) && Tracked(stats, st)
    ensures var r := Record(st, stats, row, t, day).store;
      forall i :: 0 <= i < |r.sessions| ==> Attached(r, r.sessions[i])
  {
    var r := Record(st, stats, row, t, day).store;
    forall i | 0 <= i < |r.sessions| ensures Attached(r, r.sessions[i]) {
      if i < |st.sessions| {
        assert Attached(st, st.sessions[i]);
        assert r.sessions[i] == st.sessions[i];
      }
    }
  }

  lemma EventIdsDistinct(st: Store, row: Row)
    requires forall i, j :: 0 <= i < j < |st.events| ==> st.events[i].id != st.events[j].id
    ensures var es := st.events + RowEvents(st, row);
      forall i, j :: 0 <= i < j < |es| ==> es[i].id != es[j].id
  {
    var added := RowEvents(st, row);
    var es := st.events + added;
    forall i, j | 0 <= i < j < |es| ensures es[i].id != es[j].id {
      if j >= |st.events| {
        assert es[j] == added[j - |st.events|];
        if i >= |st.events| {
          assert es[i] == added[i - |st.events|];
        }
      }
    }
  }

  /** The new session owns exactly the new events. */
  lemma NewSessionOwnsNewEvents(st: Store, stats: Stats, row: Row, t: Times, day: int)
    requires WellFormed(st) && !CodeTaken(st, row.code)
    ensures var r := Record(st, stats, row, t, day).store;
      forall i :: 0 <= i < |r.events| ==> (r.events[i].code == row.code <==> i >= |st.events|)
  {
    var r := Record(st, stats, row, t, day).store;
    forall i | 0 <= i < |st.events| ensures r.events[i].code != row.code {
      assert CodeTaken(st, st.events[i].code);
    }
  }

  // ---------------------------------------------------------------------
  // The loop and the load

  /** The row loop from row `n` on; the first failing row fails the load. */
  function LoadRows(rd: Readers, st: Store, stats: Stats, rows: seq<Row>, n: nat): (r: Outcome<Loaded>)
    ensures r.Ok? ==> Grows(st, stats, r.value, |rows|)
    decreases |rows|
  {
    if |rows| == 0 then Ok(Loaded(st, stats))
    else
      match AddRow(rd, st, stats, rows[0], n)
      case Failed(e) => Failed(e)
      case Ok(l) =>
        var r := LoadRows(rd, l.store, l.stats, rows[1..], n + 1);
        if r.Ok? then GrowsTrans(st, stats, l, r.value, 1, |rows| - 1); r else r
  }

  /** The loop keeps the store well formed. */
  lemma {:induction false} LoadRowsWellFormed(rd: Readers, st: Store, stats: Stats, rows: seq<Row>, n: nat)
    requires WellFormed(st) && Tracked(stats, st)
    ensures LoadRows(rd, st, stats, rows, n).Ok? ==>
              WellFormed(LoadRows(rd, st, stats, rows, n).value.store)
              && Tracked(LoadRows(rd, st, stats, rows, n).value.stats, LoadRows(rd, st, stats, rows, n).value.store)
    decreases |rows|
  {
    if |rows| > 0 && AddRow(rd, st, stats, rows[0], n).Ok? {
      var (t, day) := ReadRow(rd, rows[0], n).value;
      RecordWellFormed(st, stats, rows[0], t, day);
      var l := AddRow(rd, st, stats, rows[0], n).value;
      LoadRowsWellFormed(rd, l.store, l.stats, rows[1..], n + 1);
    }
  }

  /** The codes of `rows` are new to `st` and distinct from each other. */
  ghost predicate FreshCodes(st: Store, rows: seq<Row>) {
    && (forall i :: 0 <= i < |rows| ==> !CodeTaken(st, rows[i].code))
    && (forall i, j :: 0 <= i < j < |rows| ==> rows[i].code != rows[j].code)
  }

  /** A load succeeds exactly when every row reads and every session code
      is new: the transaction either takes all rows or none. */
  lemma {:induction false} LoadRowsSucceeds(rd: Readers, st: Store, stats: Stats, rows: seq<Row>, n: nat)
    ensures LoadRows(rd, st, stats, rows, n).Ok? <==> AllRead(rd, rows) && FreshCodes(st, rows)
    decreases |rows|
  {
    if |rows| > 0 {
      AllReadSplit(rd, rows);
      if AddRow(rd, st, stats, rows[0], n).Ok? {
        var l := AddRow(rd, st, stats, rows[0], n).value;
        assert LoadRows(rd, st, stats, rows, n) == LoadRows(rd, l.store, l.stats, rows[1..], n + 1);
        LoadRowsSucceeds(rd, l.store, l.stats, rows[1..], n + 1);
        FreshStep(st, l.store, rows);
      } else if RowReads(rd, rows[0]) {
        assert !FreshCodes(st, rows);
      }
    }
  }

  ghost predicate AllRead(rd: Readers, rows: seq<Row>) {
    forall i :: 0 <= i < |rows| ==> RowReads(rd, rows[i])
  }

  lemma AllReadSplit(rd: Readers, rows: seq<Row>)
    requires |rows| > 0
    ensures AllRead(rd, rows) <==> RowReads(rd, rows[0]) && AllRead(rd, rows[1..])
  {
    var ok := (row: Row) => RowReads(rd, row);
    AllSplit(rows, ok);
  }

  /** `p` holds of every element iff of the head and of every later one. */
  lemma AllSplit<T>(s: seq<T>, p: T -> bool)
    requires |s| > 0
    ensures (forall i :: 0 <= i < |s| ==> p(s[i])) <==> p(s[0]) && forall i :: 0 <= i < |s| - 1 ==> p(s[1..][i])
  {
    assert forall i :: 1 <= i < |s| ==> s[i] == s[1..][i - 1];
  }

  lemma FreshStep(st: Store, l: Store, rows: seq<Row>)
    requires |rows| > 0 && !CodeTaken(st, rows[0].code)
    requires forall c :: CodeTaken(l, c) <==> CodeTaken(st, c) || c == rows[0].code
    ensures FreshCodes(l, rows[1..]) <==> FreshCodes(st, rows)
  {
    var tail := rows[1..];
    assert forall i :: 1 <= i < |rows| ==> rows[i] == tail[i - 1];
    if FreshCodes(l, tail) {
      forall i, j | 0 <= i < j < |rows| ensures rows[i].code != rows[j].code {
        if i == 0 {
          assert !CodeTaken(l, tail[j - 1].code);
        } else {
          assert tail[i - 1].code != tail[j - 1].code;
        }
      }
    }
    if FreshCodes(st, rows) {
      forall i | 0 <= i < |tail| ensures !CodeTaken(l, tail[i].code) {
        assert rows[0].code != rows[i + 1].code;
      }
    }
  }

  /** The zones, venues, sports and days the rows name. */
  function RowZones(rows: seq<Row>): set<string> {
    set i | 0 <= i < |rows| :: rows[i].zone
  }

  function RowVenues(rows: seq<Row>): set<string> {
    set i | 0 <= i < |rows| :: rows[i].venue
  }

  function RowSports(rows: seq<Row>): set<string> {
    set i | 0 <= i < |rows| :: SportName(rows[i])
  }

  function RowDays(rd: Readers, rows: seq<Row>): set<int> {
    set i | 0 <= i < |rows| && rd.integer(rows[i].gamesDay).Some? :: rd.integer(rows[i].gamesDay).value
  }

  lemma RowSetsSplit(rd: Readers, rows: seq<Row>)
    requires |rows| > 0
    ensures RowZones(rows) == {rows[0].zone} + RowZones(rows[1..])
    ensures RowVenues(rows) == {rows[0].venue} + RowVenues(rows[1..])
    ensures RowSports(rows) == {SportName(rows[0])} + RowSports(rows[1..])
    ensures rd.integer(rows[0].gamesDay).Some? ==>
              RowDays(rd, rows) == {rd.integer(rows[0].gamesDay).value} + RowDays(rd, rows[1..])
  {
    var tail := rows[1..];
    assert forall i :: 1 <= i < |rows| ==> rows[i] == tail[i - 1];
    assert forall x :: x in RowZones(tail) ==> x in RowZones(rows) by {
      forall x | x in RowZones(tail) ensures x in RowZones(rows) {
        var i :| 0 <= i < |tail| && tail[i].zone == x;
        assert rows[i + 1].zone == x;
      }
    }
    assert forall x :: x in RowVenues(tail) ==> x in RowVenues(rows) by {
      forall x | x in RowVenues(tail) ensures x in RowVenues(rows) {
        var i :| 0 <= i < |tail| && tail[i].venue == x;
        assert rows[i + 1].venue == x;
      }
    }
    assert forall x :: x in RowSports(tail) ==> x in RowSports(rows) by {
      forall x | x in RowSports(tail) ensures x in RowSports(rows) {
        var i :| 0 <= i < |tail| && SportName(tail[i]) == x;
        assert SportName(rows[i + 1]) == x;
      }
    }
    assert forall x :: x in RowDays(rd, tail) ==> x in RowDays(rd, rows) by {
      forall x | x in RowDays(rd, tail) ensures x in RowDays(rd, rows) {
        var i :| 0 <= i < |tail| && rd.integer(tail[i].gamesDay).Some? && rd.integer(tail[i].gamesDay).value == x;
        assert rd.integer(rows[i + 1].gamesDay).Some? && rd.integer(rows[i + 1].gamesDay).value == x;
      }
    }
  }

  /** The key sets `z` hold the keys of `stats` and those the rows name. */
  ghost predicate KeysFrom(rd: Readers, stats: Stats, z: Stats, rows: seq<Row>) {
    && z.zones == stats.zones + RowZones(rows)
    && z.venues == stats.venues + RowVenues(rows)
    && z.sports == stats.sports + RowSports(rows)
    && z.days == stats.days + RowDays(rd, rows)
  }

  lemma KeysStep(rd: Readers, stats: Stats, l: Stats, z: Stats, rows: seq<Row>)
    requires |rows| > 0 && rd.integer(rows[0].gamesDay).Some?
    requires l.zones == stats.zones + {rows[0].zone} && l.venues == stats.venues + {rows[0].venue}
    requires l.sports == stats.sports + {SportName(rows[0])} && l.days == stats.days + {rd.integer(rows[0].gamesDay).value}
    requires KeysFrom(rd, l, z, rows[1..])
    ensures KeysFrom(rd, stats, z, rows)
  {
    RowSetsSplit(rd, rows);
  }

  /** The loop's key sets end up holding exactly the keys the rows name. */
  lemma {:induction false} LoadRowsKeys(rd: Readers, st: Store, stats: Stats, rows: seq<Row>, n: nat)
    ensures LoadRows(rd, st, stats, rows, n).Ok? ==> KeysFrom(rd, stats, LoadRows(rd, st, stats, rows, n).value.stats, rows)
    decreases |rows|
  {
    if |rows| > 0 && AddRow(rd, st, stats, rows[0], n).Ok? {
      var l := AddRow(rd, st, stats, rows[0], n).value;
      var r := LoadRows(rd, l.store, l.stats, rows[1..], n + 1);
      assert LoadRows(rd, st, stats, rows, n) == r;
      assert rd.integer(rows[0].gamesDay).Some?;
      LoadRowsKeys(rd, l.store, l.stats, rows[1..], n + 1);
      if r.Ok? {
        KeysStep(rd, stats, l.stats, r.value.stats, rows);
      }
    }
  }

  /** What `load_from_json` returns: the size of each key set and the two
      counters. */
  datatype Summary = Summary(days: nat, zones: nat, venues: nat, sports: nat, sessions: nat, events: nat)

  datatype Report = Report(store: Store, summary: Summary)

  /** The whole load: the row loop in one transaction, then the numbering
      pass over the whole store. */
  function LoadFromJson(rd: Readers, st: Store, rows: seq<Row>): (r: Outcome<Report>)
    ensures r.Ok? ==> r.value.summary.sessions == |rows|
    ensures r.Ok? ==> |r.value.store.sessions| == |st.sessions| + |rows|
    ensures r.Ok? ==> r.value.summary.events == |r.value.store.events| - |st.events|
    ensures r.Ok? ==> r.value.store.eventTypes == st.eventTypes
  {
    match LoadRows(rd, st, NoStats, rows, 0)
    case Failed(e) => Failed(e)
    case Ok(l) =>
      Ok(Report(Renumber(l.store),
                Summary(|l.stats.days|, |l.stats.zones|, |l.stats.venues|, |l.stats.sports|, l.stats.sessions, l.stats.events)))
  }

  /** The load succeeds exactly when every row reads and every code is new;
      its summary counts the distinct keys the rows name. */
  lemma LoadFromJsonOutcome(rd: Readers, st: Store, rows: seq<Row>)
    ensures LoadFromJson(rd, st, rows).Ok? <==> AllRead(rd, rows) && FreshCodes(st, rows)
    ensures LoadFromJson(rd, st, rows).Ok? ==>
              LoadFromJson(rd, st, rows).value.summary
              == Summary(|RowDays(rd, rows)|, |RowZones(rows)|, |RowVenues(rows)|, |RowSports(rows)|, |rows|,
                         LoadFromJson(rd, st, rows).value.summary.events)
  {
    LoadRowsSucceeds(rd, st, NoStats, rows, 0);
    LoadRowsKeys(rd, st, NoStats, rows, 0);
  }

  /** Numbering touches no key or foreign key, so it keeps a store well formed. */
  lemma RenumberWellFormed(st: Store)
    requires WellFormed(st)
    ensures WellFormed(Renumber(st))
  {
    var r := Renumber(st);
    ClearedWellFormed(st, r);
  }

  lemma ClearedWellFormed(st: Store, r: Store)
    requires WellFormed(st)
    requires r.(sessions := st.sessions, events := st.events) == st
    requires |r.sessions| == |st.sessions| && forall i :: 0 <= i < |st.sessions| ==> ClearSession(r.sessions[i]) == ClearSession(st.sessions[i])
    requires |r.events| == |st.events| && forall i :: 0 <= i < |st.events| ==> ClearEvent(r.events[i]) == ClearEvent(st.events[i])
    ensures WellFormed(r)
  {
    assert forall i :: 0 <= i < |st.sessions| ==> r.sessions[i].code == st.sessions[i].code && Attached(r, r.sessions[i]) by {
      forall i | 0 <= i < |st.sessions| ensures r.sessions[i].code == st.sessions[i].code && Attached(r, r.sessions[i]) {
        assert ClearSession(r.sessions[i]).code == r.sessions[i].code;
        assert Attached(st, st.sessions[i]);
      }
    }
    forall c ensures CodeTaken(r, c) == CodeTaken(st, c) {
      SessionOfClearedAt(st.sessions, r.sessions, c);
    }
    forall i | 0 <= i < |st.events| ensures r.events[i].code == st.events[i].code && r.events[i].id == st.events[i].id {
      assert ClearEvent(r.events[i]).code == r.events[i].code;
    }
  }

  /** A load keeps a well-formed store well formed. */
  lemma LoadFromJsonWellFormed(rd: Readers, st: Store, rows: seq<Row>)
    requires WellFormed(st)
    ensures LoadFromJson(rd, st, rows).Ok? ==> WellFormed(LoadFromJson(rd, st, rows).value.store)
  {
    LoadRowsWellFormed(rd, st, NoStats, rows, 0);
    if LoadRows(rd, st, NoStats, rows, 0).Ok? {
      RenumberWellFormed(LoadRows(rd, st, NoStats, rows, 0).value.store);
    }
  }

  /** When every event has its session the join drops nothing. */
  lemma {:induction false} JoinedAll(ss: seq<Session>, es: seq<Event>, n: nat)
    requires n <= |es|
    requires forall i :: 0 <= i < n ==> HasSession(ss, es, i)
    ensures |Joined(ss, es, n)| == n
  {
    if n > 0 {
      JoinedAll(ss, es, n - 1);
    }
  }

  /** When every event has its session, the numbering pass numbers every
      session and every event: sessions 1..S and events 1..E, each event
      number given once. */
  lemma NumbersEverything(ss: seq<Session>, es: seq<Event>)
    requires forall i :: 0 <= i < |es| ==> SessionOf(ss, es[i].code).Some?
    ensures forall i :: 0 <= i < |ss| ==>
              NumberSessions(ss)[i].totalSessions == Some(|ss|)
              && NumberSessions(ss)[i].sessionNumber.Some? && 1 <= NumberSessions(ss)[i].sessionNumber.value <= |ss|
    ensures forall i :: 0 <= i < |es| ==>
              NumberEvents(ss, es)[i].totalEvents == Some(|es|) && NumberEvents(ss, es)[i].eventNumber.Some?
              && 1 <= NumberEvents(ss, es)[i].eventNumber.value <= |es|
    ensures forall i, j :: 0 <= i < j < |es| ==> NumberEvents(ss, es)[i].eventNumber != NumberEvents(ss, es)[j].eventNumber
  {
    SessionNumbersInRange(ss);
    EventsAllNumbered(ss, es);
  }

  lemma EventsAllNumbered(ss: seq<Session>, es: seq<Event>)
    requires forall i :: 0 <= i < |es| ==> SessionOf(ss, es[i].code).Some?
    ensures forall i :: 0 <= i < |es| ==>
              NumberEvents(ss, es)[i].totalEvents == Some(|es|) && NumberEvents(ss, es)[i].eventNumber.Some?
              && 1 <= NumberEvents(ss, es)[i].eventNumber.value <= |es|
    ensures forall i, j :: 0 <= i < j < |es| ==> NumberEvents(ss, es)[i].eventNumber != NumberEvents(ss, es)[j].eventNumber
  {
    assert forall i :: 0 <= i < |es| ==> HasSession(ss, es, i);
    JoinedAll(ss, es, |es|);
    EventNumbersInRange(ss, es);
    EventNumbersDistinct(ss, es);
  }

  /** So after a load into a well-formed store every event is numbered. */
  lemma LoadNumbersEverything(rd: Readers, st: Store, rows: seq<Row>)
    requires WellFormed(st)
    ensures var r := LoadFromJson(rd, st, rows);
      r.Ok? ==> forall i :: 0 <= i < |r.value.store.events| ==> r.value.store.events[i].eventNumber.Some?
  {
    LoadRowsWellFormed(rd, st, NoStats, rows, 0);
    var lr := LoadRows(rd, st, NoStats, rows, 0);
    if lr.Ok? {
      var l := lr.value.store;
      assert forall i :: 0 <= i < |l.events| ==> CodeTaken(l, l.events[i].code);
      NumbersEverything(l.sessions, l.events);
    }
  }
}
