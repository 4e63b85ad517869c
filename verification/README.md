# LA28 schedule store, modelled in Dafny

This project models the core of the LA28 schedule tool, which normalises the
Olympic session table into a small relational store and queries it. The
modelled parts are:

- **ingest** (`src/la28/parsing.py`): the cell classifiers and the
  `load_from_json` row loop. Each row becomes get-or-create zone, venue, sport
  and day records, one sport-venue link, one session and one event per
  description line.
- **numbering** (`src/la28/parsing.py`): the `_compute_numbering` pass, which
  gives sessions and events their global and per-sport numbers.
- **store** (`src/la28/database.py`, `src/la28/models.py`):
  - the records and their defaults;
  - seeding of the event-type lookup table;
  - the existing-key branch of the get-or-create helpers;
  - first-writer-wins sport-venue links;
  - the merge of geocoded venue data.
- **queries** (`src/la28/queries/schedule_query.py`,
  `src/la28/queries/event_query.py`): the fluent builders, modelled as a list
  of conditions and a list of sort columns over the stored rows.
- **schema** (`src/la28/schema.py`): the `schedule_view` SQL (its joins, map
  links and order), the seed list and the dialect test.
- **geocoder** (`osm.py`): the pure decisions of the venue geocoder. These are
  query building, the wrong-country test, the choice of the best candidate,
  the ambiguity flag and the branches of `geocode_venue`.

The store is immutable data.
- Dimension tables are maps keyed by their natural key.
- Sessions and events are sequences in insertion order.
- A timestamp is a `Stamp` (day ordinal, minute of day) compared as stored.
- A session's time zone is a separate field, as in the table.

Modules and files:

| file | module | models |
|---|---|---|
| text.dfy | Text | substring search, split/join on a character, replace, Python's lower-casing as far as ASCII text can tell |
| sorting.dfy | Sorting | a stable insertion sort; lexicographic order over sort columns (NULL first) |
| models.dfy | Models | records, defaults, stamps, default event types, `duration_minutes` |
| clock.dfy | Clock | `strptime(..., "%H:%M")` on the time text of a cell |
| classify.dfy | Classify | `_parse_time_cell`, `_parse_sex`, `_parse_event_type` |
| ingest.dfy | Ingest | the row loop of `load_from_json` and its summary |
| numbering.dfy | Numbering | `_compute_numbering` |
| database.dfy | Database | `_seed_event_types`, `get_or_create_*`, `link_sport_venue`, `load_osm_venues` |
| query.dfy | Query | what every builder's `where`/`order_by`/`fetch`/`first` share |
| schedule_query.dfy | ScheduleQuery | the schedule join, its map links, filters and orders |
| event_query.dfy | SessionQuery, EventQuery | the session and event builders |
| schema.dfy | Schema | the view, the seed rows, the dialect test |
| osm.dfy | Osm | the geocoder's pure decisions |

What lies outside the model is passed in as a parameter:
- Python's date reader (`strptime` with "%A, %B %d %Y") and `int()`, in `Ingest.Readers`;
- the Nominatim search;
- the float score of a search result.

## Model

| member | source | states |
|---|---|---|
| Classify.ParseTimeCell | src/la28/parsing.py:20-26 | "TBD" reads as 00:00 with an end of 23:59; any other first line is the time, with no override; the cell is Central exactly when a later line mentions "(CT)" |
| Classify.SingleLineCellIsPacific | src/la28/parsing.py:22-23 | a one-line cell is never Central: the marker is only searched after the first line |
| Classify.CtCellMentionsMarker | src/la28/parsing.py:22-23 | a cell read as Central contains "(CT)" in its text |
| Classify.ParseSex | src/la28/parsing.py:51-63 | the label is one of the five `SexType` values; "or" exactly when "or" occurs but "and/or" does not; "Men" or "Women" exactly when that word occurs without the other and no "or" occurs; "Mixed" and "and/or" in their remaining cases |
| Classify.OrLinesAreNeverSingleSex | src/la28/parsing.py:53-56 | a line containing "or" (such as "Women's Floor Exercise") is never labelled Men, Women or Mixed |
| Classify.FloorEventIsOr | src/la28/parsing.py:55-56 | any line holding "Floor" is labelled "or" unless it says "and/or", a women's floor event included |
| Classify.BothSexesIsAndOr | src/la28/parsing.py:57-63 | a line naming both Men and Women, with no "or" and no "Mixed", falls through to "and/or" |
| Classify.MenEvent | src/la28/parsing.py:57-58 | "Men's " before any event text without "or" or "Women" is labelled "Men" |
| Classify.WomenEvent | src/la28/parsing.py:59-60 | "Women's " before any event text without "or" or "Men" is labelled "Women" |
| Classify.MixedEvent | src/la28/parsing.py:61-62 | "Mixed " before any event text naming neither sex and without "or" is labelled "Mixed" |
| Classify.ParseEventType | src/la28/parsing.py:29-48 | a single-line session takes its session type with newlines turned into spaces; otherwise the label is a seeded event type, "Final" exactly for a final or gold-medal line that is not Final B/C/D, which is "Preliminary"; "Bronze" exactly when no final marker occurs and "Bronze" does; "Semifinal", "Quarterfinal", "Preliminary" (early rounds or a placing final) and "Repechage" each exactly when its marker occurs and no earlier marker of the cascade does; "N/A" exactly when no marker matches |
| Classify.ConsolationFinalIsFinalLike | src/la28/parsing.py:34-36 | the Final B/C/D test is only reached inside the final branch, so a consolation final is never a Semifinal or Bronze |
| Classify.BronzeMedalIsBronze | src/la28/parsing.py:38 | the "Bronze Medal" alternative is subsumed by "Bronze" |
| Classify.SemifinalIsNotFinal | src/la28/parsing.py:34-41 | a semifinal line without a final or bronze marker is a Semifinal |
| Classify.NoCapitalFIsNoFinal | src/la28/parsing.py:34-36 | the final tests are case-sensitive: a line with no capital "F" and no "Gold Medal" (as "semifinal" or a "Quarterfinal" line) is never typed Final |
| Classify.PlacingFinalIsPreliminary | src/la28/parsing.py:34-36 | a line holding "Final B", "Final C" or "Final D" anywhere is a Preliminary event |
| Clock.ParseClock | src/la28/parsing.py:88-92 | a time that parses is a minute of the day, 0..1439 |
| Clock.FormatParseClock | src/la28/parsing.py:88-92 | every minute of the day written as H:MM or HH:MM parses back to itself |
| Clock.ParseClockText | src/la28/parsing.py:88-92 | leading white space followed by any clock text of minute m (one or two hour digits, two minute digits) parses to m |
| Clock.ParseClockSound | src/la28/parsing.py:88-92 | whatever parses is, after its leading white space, a clock text of the minute returned |
| Clock.HourAboveTwentyThree | src/la28/parsing.py:88-92 | after any leading blanks, a time whose hour is 24 to 29 does not parse, whatever follows: hours stop at 23 |
| Clock.MinuteAboveFiftyNine | src/la28/parsing.py:88-92 | after any leading blanks and any valid hour, a minute of 60 to 99 does not parse, whatever follows |
| Ingest.ResolveTimes | src/la28/parsing.py:82-92 | both instants fall on the row's date and carry Central time exactly when the start cell is marked "(CT)" |
| Ingest.ReadStamps | src/la28/parsing.py:88-92 | the instants exist exactly when both times parse, and are those times on the given date |
| Ingest.TbdStartSpansDay | src/la28/parsing.py:83-89 | a TBD start gives a session from 00:00 to 23:59 whatever the end cell says |
| Ingest.TbdEndIsMidnight | src/la28/parsing.py:84-92 | a TBD end under a timed start reads as 00:00 of the same day, so a session starting after midnight ends before it starts |
| Ingest.EndMarkerIgnored | src/la28/parsing.py:84 | only the first line of the end cell matters; its "(CT)" marker is discarded |
| Ingest.ClockCellsRead | src/la28/parsing.py:83-92 | two clock cells give the session those two times on the row's date |
| Ingest.ReadDescription | src/la28/parsing.py:136-140 | the session is ticketed exactly when the first line is not "Not Ticketed"; a ticketed session has at least one line, and no line holds a newline |
| Ingest.DescriptionRoundTrip | src/la28/parsing.py:136-140 | joining the lines back, with the marker line restored, gives the description cell |
| Ingest.BlockRoundTrip | src/la28/parsing.py:136-140 | reading the text of a block gives the block back |
| Ingest.NotTicketedAlone | src/la28/parsing.py:138-140 | a cell holding only "Not Ticketed" yields an unticketed session with no events |
| Ingest.MakeEvents | src/la28/parsing.py:157-168 | one event per line, in order: the session's code, the line as its description, positions 1..n of n, a sex label, a type; with more than one line every type is a seeded one |
| Ingest.LineEvent | src/la28/parsing.py:159-166 | an event of a lone line takes the session type; an event among several gets a seeded type |
| Ingest.EventsKeepLines | src/la28/parsing.py:158-162 | the descriptions of the events are exactly the lines |
| Ingest.EventsRebuildDescription | src/la28/parsing.py:136-162 | for a ticketed session, the event descriptions joined with newlines give the description cell |
| Ingest.LoneLineTakesSessionType | src/la28/parsing.py:163 | a lone line's event type is the session type with its newlines turned into spaces |
| Ingest.GetOrAdd | src/la28/parsing.py:100-116 | the key joins the seen set; existing records are untouched; a key the store lacks gets the new record |
| Ingest.GetOrAddDay | src/la28/parsing.py:118-123 | the day joins the seen set and the store's days, and no day is lost |
| Ingest.MaxId | src/la28/parsing.py:159-167 | no stored event id exceeds it, so new ids are fresh |
| Ingest.ReadRow | src/la28/parsing.py:82-119 | a row reads exactly when its date, both times and its Games Day read; a failure names the row |
| Ingest.AddRow | src/la28/parsing.py:80-168 | a row is added exactly when it reads and its code is new; the store grows by one session, the taken codes gain exactly its code, and the seen sets gain its zone, venue, sport and day |
| Ingest.RowSession | src/la28/parsing.py:143-153 | the session carries the row's code, day, venue, sport name, instants and zone, is unnumbered, and is ticketed exactly without the marker line |
| Ingest.SportName | src/la28/parsing.py:97 | the stored sport name has no line break left, the same length as the cell, and every other character in place |
| Ingest.SessionTypeName | src/la28/parsing.py:98 | the stored session type has no line break left, the same length as the cell, and every other character in place |
| Ingest.RowEvents | src/la28/parsing.py:157-168 | one event per description line, all of the row's session, with ids above every stored one |
| Ingest.Record | src/la28/parsing.py:100-168 | existing zones, venues, sports, links and days are kept; missing ones are created with the model defaults; the link is added only when absent; the stats count one more session and its events |
| Ingest.RecordWellFormed | src/la28/parsing.py:100-168 | a new code keeps the store well formed: natural keys, unique codes, every session's sport, venue, zone and day stored, distinct event ids |
| Ingest.RecordKeys | src/la28/parsing.py:100-133 | after a row, every seen zone, venue, sport and day is in the store, and the row's link is stored |
| Ingest.CodesAfter | src/la28/parsing.py:143-154 | the codes taken after a row are those taken before plus the row's code |
| Ingest.EventIdsDistinct | src/la28/parsing.py:159-167 | distinct stored ids stay distinct after a row's events are appended |
| Ingest.NewSessionOwnsNewEvents | src/la28/parsing.py:143-167 | every appended event finds the appended session by its code |
| Ingest.LoadRows | src/la28/parsing.py:79-170 | a successful loop appends one session per row |
| Ingest.LoadRowsSucceeds | src/la28/parsing.py:79-170 | the loop succeeds exactly when every row reads and every code is new to the store and to the earlier rows |
| Ingest.LoadRowsWellFormed | src/la28/parsing.py:79-170 | the loop keeps a well-formed store well formed |
| Ingest.LoadRowsKeys | src/la28/parsing.py:77-123 | the stats sets are exactly the zones, venues, sports and days the rows name |
| Ingest.LoadFromJson | src/la28/parsing.py:68-182 | on success the summary counts one session per row and the events added; the event types are untouched |
| Ingest.LoadFromJsonOutcome | src/la28/parsing.py:68-182 | the load succeeds exactly when every row reads and every code is fresh; the summary counts the distinct days, zones, venues and sports of the rows |
| Ingest.LoadFromJsonWellFormed | src/la28/parsing.py:68-173 | a load, numbering included, keeps a well-formed store well formed |
| Ingest.NumbersEverything | src/la28/parsing.py:185-243 | when every event has its session, sessions are numbered within 1..S and events within 1..E, with no event number repeated |
| Ingest.LoadNumbersEverything | src/la28/parsing.py:234-236 | after a load into a well-formed store every event carries a number |
| Numbering.OrderBy | src/la28/parsing.py:192-221 | the sorted indices are a permutation of the input indices |
| Numbering.OrderBySorted | src/la28/parsing.py:192-196 | the indices are ordered by the sort key (start, code and, for events, order in session) |
| Numbering.CountersAt | src/la28/parsing.py:198-212 | at position p the number is p+1 of all; the sport number counts the sport's entries up to p and its total counts all of them |
| Numbering.GroupNumberBounds | src/la28/parsing.py:210-212 | a sport number lies between 1 and the sport total |
| Numbering.GroupNumberIncreases | src/la28/parsing.py:210-211 | later entries of the same sport get larger sport numbers |
| Numbering.GroupNumberReached | src/la28/parsing.py:210-211 | every sport number 1..total is given |
| Numbering.TallyCounts | src/la28/parsing.py:203-204 | the running tally of totals per sport is the number of the sport's entries |
| Numbering.SessionOrder | src/la28/parsing.py:192-196 | the ordered session indices are a permutation of 0..S-1 |
| Numbering.NumberSessions | src/la28/parsing.py:206-212 | numbering changes only the four number fields, and every session's total is S |
| Numbering.SessionNumbersArePermutation | src/la28/parsing.py:207-209 | session numbers are 1..S, each given exactly once |
| Numbering.SessionNumbersFollowKey | src/la28/parsing.py:195-208 | a session earlier by (start, code) gets a smaller number |
| Numbering.SessionKeysDistinct | src/la28/parsing.py:195 | with unique codes, no two sessions tie on the sort key, so the order is fully determined |
| Numbering.SportSessionNumbers | src/la28/parsing.py:203-212 | a session's sport total is its sport's session count; its sport number lies in 1..total and grows with the key within a sport |
| Numbering.SportSessionNumbersReached | src/la28/parsing.py:210-211 | every sport session number 1..count is given to a session of that sport |
| Numbering.NumberSessionsIdempotent | src/la28/parsing.py:185-214 | numbering numbered sessions again changes nothing |
| Numbering.SessionOf | src/la28/parsing.py:229-237 | `s.get(Session, code)` finds a session exactly when one has the code |
| Numbering.Joined | src/la28/parsing.py:217-221 | the inner join keeps exactly the events whose session exists, in storage order |
| Numbering.EventOrder | src/la28/parsing.py:217-221 | the ordered event indices are exactly the joined events, each once |
| Numbering.EventOrderSorted | src/la28/parsing.py:220 | the events are ordered by (session start, session code, order in session) |
| Numbering.NumberEvents | src/la28/parsing.py:233-241 | numbering changes only the four number fields, and leaves an event without a session untouched |
| Numbering.EventNumbersArePermutation | src/la28/parsing.py:234-236 | joined events get numbers 1..E, distinct, and every number is given, with E the joined count |
| Numbering.EventNumbersInRange | src/la28/parsing.py:234-236 | a joined event's number lies in 1..E and its total is E |
| Numbering.EventNumbersDistinct | src/la28/parsing.py:234-235 | no two joined events share a number |
| Numbering.EventNumbersReached | src/la28/parsing.py:234-235 | every number 1..E is given to a joined event |
| Numbering.EventNumbersFollowKey | src/la28/parsing.py:220-235 | an event earlier by the key gets a smaller number |
| Numbering.SportEventNumbers | src/la28/parsing.py:228-241 | an event's sport total is the count of its sport's joined events; its sport number lies in 1..total and grows with the key |
| Numbering.SportEventNumbersReached | src/la28/parsing.py:239-240 | every sport event number 1..count is given |
| Numbering.NumberEventsIdempotent | src/la28/parsing.py:216-243 | numbering numbered events again changes nothing |
| Numbering.RenumberIdempotent | src/la28/parsing.py:185-243 | running the whole numbering pass a second time changes nothing |
| Numbering.Renumber | src/la28/parsing.py:185-243 | the pass replaces sessions and events by their numbered forms and touches nothing else |
| Numbering.SessionOfCleared | src/la28/parsing.py:190-243 | the session numbers written in the first half do not change the event numbers of the second |
| Models.NewZone | src/la28/models.py:32-36 | a new zone has no description |
| Models.NewVenue | src/la28/models.py:42-50 | a new venue has no address, capacity or coordinates |
| Models.NewSport | src/la28/models.py:56-61 | a new sport has no description or icon |
| Models.NewLink | src/la28/models.py:20-25 | a link is its sport, venue and primary flag |
| Models.NewSession | src/la28/models.py:87-102 | a new session carries its fields and no numbers |
| Models.NewEvent | src/la28/models.py:118-131 | a new event carries its fields and no numbers |
| Models.Defaults | src/la28/models.py:20-127 | the defaults: sessions ticketed, venues outside OKC, links not primary, events 1 of 1 |
| Models.DefaultEventTypes | src/la28/models.py:140-149 | seven event types with distinct names and strictly increasing ranks, from Final at 1 to N/A at 99 |
| Models.SeededLabelsAre | src/la28/models.py:140-149 | the seeded labels are Final, Bronze, Semifinal, Quarterfinal, Repechage, Preliminary and N/A |
| Models.DurationMinutes | src/la28/models.py:108-114 | the whole minutes between start and end, rounded down; negative exactly when the session ends before it starts |
| Models.StampLtLexicographic | src/la28/models.py:95-96 | instants compare by date, then by time of day |
| Database.SeedEventTypes | src/la28/database.py:46-52 | seeding only touches the event types; stored types are kept; every default label is present afterwards, and a new row is the default of its label |
| Database.SeedKeys | src/la28/database.py:46-52 | afterwards the labels are the stored ones plus the seven defaults |
| Database.SeedIdempotent | src/la28/database.py:46-52 | seeding twice is seeding once |
| Database.SeedEmpty | src/la28/database.py:46-52 | seeding an empty table stores exactly the defaults with their ranks |
| Database.SeedKeepsNaturalKeys | src/la28/database.py:46-52 | every event type stays keyed by its own label |
| Database.GetOrCreateZone | src/la28/database.py:73-77 | the store is unchanged; a stored zone is returned as stored |
| Database.GetOrCreateVenue | src/la28/database.py:96-100 | the store is unchanged; a stored venue is returned as stored |
| Database.GetOrCreateSport | src/la28/database.py:119-123 | the store is unchanged; a stored sport is returned as stored |
| Database.GetOrCreateReturnsKeyed | src/la28/database.py:73-123 | with natural keys, the record returned carries the name asked for |
| Database.LinkSportVenue | src/la28/database.py:150-159 | only the links change; the pair is stored afterwards; existing links are kept; a new link carries the flag given |
| Database.LinkFirstWriterWins | src/la28/database.py:150-159 | linking an existing pair again changes nothing, so the first primary flag stays |
| Database.LinksCommute | src/la28/database.py:150-159 | linking two different pairs gives the same store in either order |
| Database.LinkKeepsNaturalKeys | src/la28/database.py:150-159 | every link stays keyed by its (sport, venue) pair |
| Database.Geocoded | src/la28/database.py:254-256 | a merged venue keeps its name, zone, capacity and OKC flag, and takes the item's address and coordinates, nulls included |
| Database.MergeItem | src/la28/database.py:237-258 | an item fails only when its `lat_lng` is null; otherwise the venue names are kept and exactly one counter grows by one |
| Database.MergeItems | src/la28/database.py:236-260 | the loop fails exactly when some item has a null `lat_lng`; otherwise the counters sum to the number of items |
| Database.LastWriter | src/la28/database.py:237-258 | finds the last item that writes a venue, with no later writer |
| Database.MergeLastWriterWins | src/la28/database.py:237-258 | each venue ends up with the data of the last item that writes it, or as it was if none does |
| Database.MergeCounts | src/la28/database.py:245-258 | skipped counts the unplaced or unnamed items, not_found the named items of unknown venues, updated the rest |
| Database.LoadOsmVenues | src/la28/database.py:215-262 | only venues change and no venue is added or removed; the three counts sum to the number of items |
| Database.SkippedItemsChangeNothing | src/la28/database.py:245-252 | an item that is skipped, or names an unknown venue, leaves the store as it was |
| Database.MergeKeepsNaturalKeys | src/la28/database.py:249-258 | venues stay keyed by their names |
| Query.Where | src/la28/queries/event_query.py:106-135 | a `where` keeps exactly the stored rows meeting the condition, with their multiplicities, in storage order |
| Query.WhereWhere | src/la28/queries/event_query.py:106-135 | two `where` calls in a row keep the rows meeting both |
| Query.Select | src/la28/queries/schedule_query.py:185-218 | the selected rows are those meeting the condition, each as often as stored, sorted by the columns |
| Query.SelectUnordered | src/la28/queries/schedule_query.py:215-218 | without `ORDER BY` the rows keep storage order |
| Query.Run | src/la28/queries/schedule_query.py:108-218 | `fetch` returns the rows meeting every condition added, in column order |
| Query.ConditionsAreASet | src/la28/queries/schedule_query.py:108-183 | only the set of conditions matters, not their order or repetition |
| Query.RunNothing | src/la28/queries/event_query.py:94-146 | a builder with no condition and no order returns the stored rows as they are |
| Query.Head | src/la28/queries/schedule_query.py:224-228 | `first` is None exactly when there are no rows, and is the first row otherwise |
| Query.HeadIsLeast | src/la28/queries/schedule_query.py:224-228 | the first row sorts no later than any row of the result |
| ScheduleQuery.Urls | src/la28/queries/schedule_query.py:21-64 | the four links exist exactly when both coordinates do; each is its fixed prefix, latitude, separator, longitude and suffix; the Apple link ends with the venue name, spaces turned into "+" |
| ScheduleQuery.AppleQueryHasNoSpace | src/la28/queries/schedule_query.py:43-53 | the Apple link's query holds no space |
| ScheduleQuery.RankOf | src/la28/queries/schedule_query.py:94-105 | the outer join gives a rank exactly when the event has a type that is stored, and it is that type's rank |
| ScheduleQuery.JoinEvents | src/la28/queries/schedule_query.py:100-106 | the join keeps, in order, exactly the events whose session, venue, zone and sport all exist, each with its joined row |
| ScheduleQuery.JoinKeepsEveryType | src/la28/queries/schedule_query.py:105 | an event with an unknown or missing type still gets a row: the type join is an outer join |
| ScheduleQuery.JoinRank | src/la28/queries/schedule_query.py:94-105 | a row has a rank exactly when its event's type is stored |
| ScheduleQuery.JoinRowsAreConsistent | src/la28/queries/schedule_query.py:66-106 | each row's session, venue, zone and sport are the stored records its keys name, and its links follow the venue's coordinates |
| ScheduleQuery.Fetch | src/la28/queries/schedule_query.py:108-218 | a row is fetched exactly when it is in the join and meets every filter; rows follow the sort columns |
| ScheduleQuery.Holds | src/la28/queries/schedule_query.py:108-183 | `by_event_type`, `by_event_types`, `finals_only` and `medal_events` match no row whose type is NULL; an empty `IN` list (sports, venues, zones, days, types) matches nothing; `between` with its end before its start matches nothing |
| ScheduleQuery.FirstRow | src/la28/queries/schedule_query.py:224-228 | `first` is None exactly when the count is zero; otherwise it is a matching row that sorts before every fetched row |
| ScheduleQuery.Count | src/la28/queries/schedule_query.py:230-231 | the count is the number of joined rows meeting every condition, independent of the sort columns, and at most the number of joinable stored events |
| ScheduleQuery.FiltersAreASet | src/la28/queries/schedule_query.py:108-183 | builders with the same filters, in any order or repetition, fetch the same rows |
| ScheduleQuery.FiltersCommute | src/la28/queries/schedule_query.py:108-183 | two filter calls can be swapped |
| ScheduleQuery.FreshFetchesJoin | src/la28/queries/schedule_query.py:66-106 | a fresh builder fetches the whole join in storage order |
| ScheduleQuery.MedalFilters | src/la28/queries/schedule_query.py:149-176 | `finals_only` is `by_event_type("Final")`; `medal_events` keeps Final or Bronze rows and equals `by_event_types(["Final", "Bronze"])` |
| ScheduleQuery.ByDateIsTheDay | src/la28/queries/schedule_query.py:140-183 | `by_date(d)` keeps exactly the rows starting on d, and equals `between` midnight and the day's last minute |
| ScheduleQuery.BetweenInclusive | src/la28/queries/schedule_query.py:178-183 | both bounds of `between` are inclusive |
| ScheduleQuery.OrderedByStart | src/la28/queries/schedule_query.py:185-196 | rows come by start, ascending or descending, then by ascending order in session |
| ScheduleQuery.OrderedByEventType | src/la28/queries/schedule_query.py:198-205 | rows come by type rank with unranked rows first, then by start and order in session |
| SessionQuery.Fetch | src/la28/queries/event_query.py:30-82 | a session is fetched exactly when it is stored and meets every filter, in column order |
| SessionQuery.Holds | src/la28/queries/event_query.py:30-68 | `by_zone` matches no session whose venue is not stored (the inner join drops it); `by_type` matches no session whose type is NULL; `by_days([])` and a reversed `between` match nothing |
| SessionQuery.FirstSession | src/la28/queries/event_query.py:84-85 | `first` is None exactly when nothing matches; otherwise it is a matching session that sorts first |
| SessionQuery.Count | src/la28/queries/event_query.py:87-88 | the count is the number of stored sessions meeting every condition, independent of the sort columns |
| SessionQuery.FiltersCommute | src/la28/queries/event_query.py:30-68 | two filter calls can be swapped |
| SessionQuery.FreshFetchesAll | src/la28/queries/event_query.py:16-82 | a fresh builder fetches every stored session in storage order |
| SessionQuery.DateFilters | src/la28/queries/event_query.py:50-68 | `by_date(d)` keeps exactly the sessions starting on d and equals `between` the day's bounds; both bounds are inclusive |
| SessionQuery.OrderedByStart | src/la28/queries/event_query.py:70-75 | sessions come by start, ascending or descending |
| EventQuery.Fetch | src/la28/queries/event_query.py:106-146 | an event is fetched exactly when it is stored and meets every filter, in column order |
| EventQuery.Holds | src/la28/queries/event_query.py:106-135 | `by_sport` and `by_day` match no event whose session is missing (the inner join drops it); `by_type` and `medals` match no event whose type is NULL; `search("")` matches every event |
| EventQuery.FirstEvent | src/la28/queries/event_query.py:148-149 | `first` is None exactly when nothing matches; otherwise it is a matching event that sorts first |
| EventQuery.Count | src/la28/queries/event_query.py:151-152 | the count is the number of stored events meeting every condition, independent of the sort columns |
| EventQuery.FiltersCommute | src/la28/queries/event_query.py:106-135 | two filter calls can be swapped |
| EventQuery.FinalsFilter | src/la28/queries/event_query.py:126-127 | `finals` keeps exactly the events of type Final |
| EventQuery.TypeFilter | src/la28/queries/event_query.py:110-112 | `by_type(t)` keeps exactly the events of type t |
| EventQuery.MedalsFilter | src/la28/queries/event_query.py:129-131 | `medals` keeps exactly what `finals` or `by_type("Bronze")` would keep |
| EventQuery.SessionFilter | src/la28/queries/event_query.py:114-116 | `by_session(code)` keeps exactly the stored events of that session |
| EventQuery.SearchFilter | src/la28/queries/event_query.py:133-135 | `search(term)` keeps exactly the events whose description contains the term |
| EventQuery.EmptySearchKeepsAll | src/la28/queries/event_query.py:133-135 | searching for the empty term removes nothing |
| EventQuery.OrderedByNumber | src/la28/queries/event_query.py:137-139 | events come by number, unnumbered ones first |
| Schema.CaseUrl | src/la28/schema.py:63-85 | a `CASE WHEN` link column is non-NULL exactly when latitude and longitude both are, and then joins its fixed prefix, the latitude, the separator, the longitude and the suffix |
| Schema.ViewUrlsMatchQuery | src/la28/schema.py:63-85 | the view's four link columns equal the query builder's |
| Schema.ViewUrlsPresent | src/la28/schema.py:63-85 | each link column is present exactly when both coordinates are; the Apple link names the venue without spaces |
| Schema.ViewRows | src/la28/schema.py:87-93 | the view holds the joined rows, each as often as the join gives it, ordered by start then order in session |
| Schema.ViewLeIsStartColumns | src/la28/schema.py:93 | the view's ORDER BY is the builder's ascending `order_by_start` |
| Schema.ViewIsOrderByStart | src/la28/schema.py:87-93 | reading the view equals fetching a fresh schedule builder ordered by start, ties included |
| Schema.ViewRowPerEvent | src/la28/schema.py:87-92 | the view has one row per stored event whose session, venue, zone and sport exist, and no others |
| Schema.SeedListIsDefault | src/la28/schema.py:149-157 | the seed rows emitted with the schema are the store's default event types, in order |
| Schema.SchemaEngine | src/la28/schema.py:112-117 | "sqlite", "postgresql" and "postgres" are accepted, only "sqlite" with the SQLite engine; any other dialect is refused with "Unsupported dialect: " and its name |
| Schema.NamedDialectsAccepted | src/la28/schema.py:96-115 | both named dialects, and "postgresql", are accepted |
| Osm.MentionsAny | osm.py:250-253 | some hint occurs in the text |
| Osm.BuildQuery | osm.py:246-256 | the query starts with the lookup; it is the lookup exactly when the lookup, lower-cased as Python's `str.lower()` does, names a Californian or Oklahoma place; otherwise ", Los Angeles, California, USA" is appended |
| Osm.BuildQueryIdempotent | osm.py:246-256 | building a query from a query adds nothing |
| Osm.QueryKeepsHints | osm.py:246-256 | every place hint in the lookup survives into the query |
| Osm.StateKeptAsIs | osm.py:250-251 | any lookup ending in ", CA" is sent unchanged |
| Osm.KelvinSignNamesOkc | osm.py:253-254 | a lookup holding "O", KELVIN SIGN, "C" names Oklahoma City, as Python lower-cases the sign to "k", and is sent unchanged |
| Osm.LooksLikeWrongCountry | osm.py:237-240 | a result is foreign exactly when it has a non-empty country code that is not "us" in any case |
| Osm.BestIndex | osm.py:208-226 | the first candidate of the highest score |
| Osm.ChooseBest | osm.py:208-226 | None exactly for no results; otherwise one of the results, scoring at least as high as every other |
| Osm.ChooseBestFirstOfTies | osm.py:226 | among equal scores the first result wins, as with Python's stable reverse sort |
| Osm.AmbiguityFlag | osm.py:229-234 | fewer than two results are never ambiguous |
| Osm.AmbiguityOfLeadingPair | osm.py:229-234 | only the two leading importances matter, in either order; equal ones are ambiguous |
| Osm.GeocodeVenue | osm.py:259-314 | "unlocatable" exactly for a missing or empty lookup; "not_found" exactly when the search returns nothing or its best result is the empty object `{}`; otherwise the address and coordinates are the best result's; coordinates exactly otherwise; "ok" only when the results are unambiguous, the best one is in the US and it is not at (0, 0); "needs_review" only when one of those fails |
| Text.PyLower | osm.py:247 | `str.lower()` leaves no ASCII capital, and keeps the length unless the text holds U+0130 (which lowers to two characters) |
| Osm.ReviewItem | osm.py:328-329 | the review entry keeps name, status, address and coordinates; the merge skips it exactly when the venue was unlocatable, not found or unnamed |
| Osm.CleanItem | osm.py:330-336 | the clean entry keeps name, address and coordinates but no status, so the merge skips it only when the name is empty |
| Osm.ReviewItemSkips | src/la28/database.py:245-247 | an entry that keeps its status is skipped by the merge exactly when the venue was not placed or has no name |
| Osm.CleanItemOverwrites | osm.py:330-336 | an entry written without its status is never skipped for lack of placement, so an unplaced venue's stored address and coordinates are cleared |

## Left out

- File and JSON I/O, the database session and its commits, and the network calls, caches, retries and sleeps of the geocoder. The data they carry is passed in.
- Python's `strptime` for the "%A, %B %d %Y" date and `int()` for the Games Day. They are the parameters `Ingest.Readers`. The `%H:%M` reader is modelled after `strptime`'s pattern, with ASCII digits only.
- The floating-point score of `choose_best` and `_safe_float`. The score is a parameter, and candidates hold the floats already read. Coordinates are `real`, not IEEE doubles.
- How SQLite writes a float as text in a URL. A link keeps the coordinate as a number between its literal parts.
- Osm.GeocodeVenue: the `debug` block of the result is not modelled.
- The absent-key branch of `get_or_create_zone/venue/sport`. That branch rebinds its argument to the failed lookup before building the record. The model keeps it apart as `NotCreated` and states only the existing-key branch.
- The load's error when several rows are bad. The model reports the first bad row. A repeated session code is a load error (`DuplicateCode`), since the insert fails at commit.
- Ingest.LoadNumbersEverything: states only that every event gets a number. The ranges and distinctness are stated by `Ingest.NumbersEverything`.
- `Event.description.contains(term)` in `search` is modelled as a case-sensitive substring test. SQLite's LIKE folds ASCII case and treats "%" and "_" in the term as wildcards.
- `limit`, `offset` and `with_relations` of the builders. They cut or decorate a fetched list; they do not change which rows match or their order.
- `EventQuery.by_sport`/`by_day` and `SessionQuery.by_zone` join the session table on every call. Two such calls on one builder join it twice; the model joins it once.
- Rows that no sort column separates come in storage order. SQL leaves that order unspecified.
- NULLs sort first, as in SQLite. PostgreSQL sorts them last.
- DDL generation, index text and the header lines of `generate_schema`. The emitted INSERT names a column `name`, but the table's column is `type` (`src/la28/models.py:71`). The seed rows are modelled, not the statement text.
- A `lat_lng` that is JSON null makes `load_osm_venues` raise. The model gives `None` for the whole load.
- Python's `str.lower()` on non-ASCII characters other than KELVIN SIGN (U+212A) and U+0130. The model keeps them unchanged. Python maps each to text with no ASCII character, so the ASCII hints of `build_query` and the "us" test match alike. ASCII characters other than A to Z are kept unchanged by Python and by the model.
- The command-line entry points, `export.py` and `read.py` are not part of this model.

## Observations

These are observations about the code; the behaviour may be intended.

- `osm.py:330-336` writes the file that `load_osm_venues` reads without the `status` key. So the status test at `src/la28/database.py:245` never fires for that file. A venue the geocoder could not place is not skipped: its stored address and coordinates are overwritten with nulls. `Osm.CleanItemOverwrites` states this; `Osm.ReviewItemSkips` states the behaviour when the status is kept.
- The `Dialect` type admits only "sqlite" and "postgresql", but `Dialects.POSTGRES` is "postgres" (`src/la28/schema.py:96-99`). The test at line 114 accepts both spellings (`Schema.NamedDialectsAccepted`).
