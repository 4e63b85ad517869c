/** The store operations of src/la28/database.py that carry logic: seeding
    the event types, the existing-key branch of the get-or-create helpers,
    linking a sport to a venue, and merging geocoded venue data. */
module Database {
  import opened Text
  import opened Models

  // ---------------------------------------------------------------------
  // Seeding the event types

  /** Adds every seed whose label is missing; stored types stay as they are. */
  function SeedFrom(m: map<string, EventType>, seeds: seq<EventType>): (r: map<string, EventType>)
    ensures forall k :: k in m ==> k in r && r[k] == m[k]
    ensures forall i :: 0 <= i < |seeds| ==> seeds[i].typeName in r
    ensures forall k :: k in r ==> k in m || exists i :: 0 <= i < |seeds| && r[k] == seeds[i] && k == seeds[i].typeName
    decreases |seeds|
  {
    if |seeds| == 0 then m
    else
      var t := seeds[0];
      var m' := if t.typeName in m then m else m[t.typeName := t];
      var r := SeedFrom(m', seeds[1..]);
      assert forall i :: 1 <= i < |seeds| ==> seeds[i] == seeds[1..][i - 1];
      r
  }

  /** `_seed_event_types`: the seven defaults, added where missing. */
  function SeedEventTypes(st: Store): (r: Store)
    ensures r.(eventTypes := st.eventTypes) == st
    ensures forall k :: k in st.eventTypes ==> k in r.eventTypes && r.eventTypes[k] == st.eventTypes[k]
    ensures forall i :: 0 <= i < |DefaultEventTypes()| ==> DefaultEventTypes()[i].typeName in r.eventTypes
    ensures forall k :: k in r.eventTypes && k !in st.eventTypes ==>
              exists i :: 0 <= i < |DefaultEventTypes()| && r.eventTypes[k] == DefaultEventTypes()[i] && k == DefaultEventTypes()[i].typeName
  {
    st.(eventTypes := SeedFrom(st.eventTypes, DefaultEventTypes()))
  }

  /** The labels present after seeding are the stored ones and the seven
      default labels, nothing else. */
  lemma SeedKeys(st: Store)
    ensures SeedEventTypes(st).eventTypes.Keys == st.eventTypes.Keys + SeededLabels()
  {
    SeedFromKeys(st.eventTypes, DefaultEventTypes());
  }

  lemma SeedFromKeys(m: map<string, EventType>, seeds: seq<EventType>)
    ensures SeedFrom(m, seeds).Keys == m.Keys + set t | t in seeds :: t.typeName
  {
    var r := SeedFrom(m, seeds);
    forall k | k in r ensures k in m.Keys + set t | t in seeds :: t.typeName {
      if k !in m {
        var i :| 0 <= i < |seeds| && r[k] == seeds[i] && k == seeds[i].typeName;
        assert seeds[i] in seeds;
      }
    }
    forall k | k in (set t | t in seeds :: t.typeName) ensures k in r {
      var t :| t in seeds && t.typeName == k;
      var i :| 0 <= i < |seeds| && seeds[i] == t;
    }
  }

  /** Seeding twice is seeding once. */
  lemma SeedIdempotent(st: Store)
    ensures SeedEventTypes(SeedEventTypes(st)) == SeedEventTypes(st)
  {
    SeedFromTwice(st.eventTypes, DefaultEventTypes());
  }

  lemma SeedFromTwice(m: map<string, EventType>, seeds: seq<EventType>)
    ensures SeedFrom(SeedFrom(m, seeds), seeds) == SeedFrom(m, seeds)
  {
    var once := SeedFrom(m, seeds);
    var twice := SeedFrom(once, seeds);
    SeedFromKeys(m, seeds);
    SeedFromKeys(once, seeds);
    assert twice.Keys == once.Keys;
  }

  /** Seeding a store without event types stores exactly the defaults, each
      under its own label. */
  lemma SeedEmpty(st: Store)
    requires st.eventTypes == map[]
    ensures forall i :: 0 <= i < |DefaultEventTypes()| ==>
              SeedEventTypes(st).eventTypes[DefaultEventTypes()[i].typeName] == DefaultEventTypes()[i]
  {
    SeedFromEmpty(DefaultEventTypes());
  }

  lemma SeedFromEmpty(seeds: seq<EventType>)
    requires forall i, j :: 0 <= i < j < |seeds| ==> seeds[i].typeName != seeds[j].typeName
    ensures forall i :: 0 <= i < |seeds| ==> SeedFrom(map[], seeds)[seeds[i].typeName] == seeds[i]
  {
    var r := SeedFrom(map[], seeds);
    forall i | 0 <= i < |seeds| ensures r[seeds[i].typeName] == seeds[i] {
      var j :| 0 <= j < |seeds| && r[seeds[i].typeName] == seeds[j] && seeds[i].typeName == seeds[j].typeName;
      assert i == j;
    }
  }

  /** Seeding keeps records under their natural keys. */
  lemma SeedKeepsNaturalKeys(st: Store)
    requires KeysAreNatural(st)
    ensures KeysAreNatural(SeedEventTypes(st))
  {
    var r := SeedEventTypes(st);
    forall k | k in r.eventTypes ensures r.eventTypes[k].typeName == k {
      if k !in st.eventTypes {
        var d := DefaultEventTypes();
        var i :| 0 <= i < |d| && r.eventTypes[k] == SeedFrom(st.eventTypes, d)[k] && SeedFrom(st.eventTypes, d)[k] == d[i] && k == d[i].typeName;
      }
    }
  }

  // ---------------------------------------------------------------------
  // Get-or-create, existing key

  /** What a get-or-create call returns. The branch for a missing key
      rebinds its argument to the failed lookup before building the record,
      so it never creates the named row; the model keeps that branch apart
      as `NotCreated`. */
  datatype Fetched<T> = Existing(record: T) | NotCreated

  function Fetch<V>(m: map<string, V>, k: string): (r: Fetched<V>)
    ensures r.Existing? <==> k in m
    ensures r.Existing? ==> r.record == m[k]
  {
    if k in m then Existing(m[k]) else NotCreated
  }

  /** `get_or_create_zone`: a stored zone is returned as it is and the store
      does not change. */
  function GetOrCreateZone(st: Store, zone: string): (r: (Store, Fetched<Zone>))
    ensures r.0 == st
    ensures zone in st.zones ==> r.1 == Existing(st.zones[zone])
    ensures zone !in st.zones ==> r.1.NotCreated?
  {
    (st, Fetch(st.zones, zone))
  }

  /** `get_or_create_venue`: zone and `in_okc` only matter to the branch
      that would create. */
  function GetOrCreateVenue(st: Store, venue: string, zone: string, inOkc: bool := false): (r: (Store, Fetched<Venue>))
    ensures r.0 == st
    ensures venue in st.venues ==> r.1 == Existing(st.venues[venue])
    ensures venue !in st.venues ==> r.1.NotCreated?
  {
    (st, Fetch(st.venues, venue))
  }

  function GetOrCreateSport(st: Store, sport: string): (r: (Store, Fetched<Sport>))
    ensures r.0 == st
    ensures sport in st.sports ==> r.1 == Existing(st.sports[sport])
    ensures sport !in st.sports ==> r.1.NotCreated?
  {
    (st, Fetch(st.sports, sport))
  }

  /** With natural keys, the record returned for a key carries that key,
      and the stored venue's zone wins over the one passed in. */
  lemma GetOrCreateReturnsKeyed(st: Store, zone: string, venue: string, other: string, sport: string)
    requires KeysAreNatural(st)
    ensures GetOrCreateZone(st, zone).1.Existing? ==> GetOrCreateZone(st, zone).1.record.zone == zone
    ensures GetOrCreateVenue(st, venue, other).1.Existing? ==>
              GetOrCreateVenue(st, venue, other).1.record == st.venues[venue]
              && GetOrCreateVenue(st, venue, other).1.record.venue == venue
    ensures GetOrCreateSport(st, sport).1.Existing? ==> GetOrCreateSport(st, sport).1.record.sport == sport
  {
  }

  // ---------------------------------------------------------------------
  // Sport-venue link

  /** `link_sport_venue`: inserted only when no link for the pair exists. */
  function LinkSportVenue(st: Store, sport: string, venue: string, isPrimary: bool := false): (r: Store)
    ensures r.(links := st.links) == st
    ensures r.links.Keys == st.links.Keys + {(sport, venue)}
    ensures forall k :: k in st.links ==> r.links[k] == st.links[k]
    ensures (sport, venue) !in st.links ==> r.links[(sport, venue)] == SportVenueLink(sport, venue, isPrimary)
  {
    if (sport, venue) in st.links then st
    else st.(links := st.links[(sport, venue) := SportVenueLink(sport, venue, isPrimary)])
  }

  /** The first call decides the primary flag: a second call changes
      nothing, whatever flag it passes. */
  lemma LinkFirstWriterWins(st: Store, sport: string, venue: string, p: bool, q: bool)
    ensures LinkSportVenue(LinkSportVenue(st, sport, venue, p), sport, venue, q) == LinkSportVenue(st, sport, venue, p)
    ensures LinkSportVenue(st, sport, venue, p).links[(sport, venue)].isPrimary ==
              if (sport, venue) in st.links then st.links[(sport, venue)].isPrimary else p
  {
  }

  /** Links of different pairs do not interfere: the order of two calls
      does not matter. */
  lemma LinksCommute(st: Store, s1: string, v1: string, p1: bool, s2: string, v2: string, p2: bool)
    requires (s1, v1) != (s2, v2)
    ensures LinkSportVenue(LinkSportVenue(st, s1, v1, p1), s2, v2, p2)
         == LinkSportVenue(LinkSportVenue(st, s2, v2, p2), s1, v1, p1)
  {
    var a := LinkSportVenue(LinkSportVenue(st, s1, v1, p1), s2, v2, p2);
    var b := LinkSportVenue(LinkSportVenue(st, s2, v2, p2), s1, v1, p1);
    assert a.links == b.links;
  }

  /** Linking keeps links under their natural keys. */
  lemma LinkKeepsNaturalKeys(st: Store, sport: string, venue: string, p: bool)
    requires KeysAreNatural(st)
    ensures KeysAreNatural(LinkSportVenue(st, sport, venue, p))
  {
  }

  // ---------------------------------------------------------------------
  // Geocoded venue data

  /** The `lat_lng` entry of an item: missing (read as `{}`), JSON null
      (on which `.get` raises), or an object with two optional values. */
  datatype LatLngCell = Absent | Null | Given(lat: Option<real>, lng: Option<real>)

  /** One entry of the geocoding file; every key may be missing. */
  datatype GeoItem = GeoItem(name: Option<string>, status: Option<string>, address: Option<string>, latLng: LatLngCell)

  datatype OsmCounts = OsmCounts(updated: nat, skipped: nat, notFound: nat)

  /** Items the merge passes over: marked unlocatable or not found, or
      without a (non-empty) name. */
  predicate Skips(item: GeoItem) {
    item.status == Some("unlocatable") || item.status == Some("not_found") || item.name.None? || item.name == Some("")
  }

  function Lat(c: LatLngCell): Option<real> {
    if c.Given? then c.lat else None
  }

  function Lng(c: LatLngCell): Option<real> {
    if c.Given? then c.lng else None
  }

  /** `v` with the item's address and coordinates, null ones included. */
  function Geocoded(v: Venue, item: GeoItem): (r: Venue)
    ensures r.venue == v.venue && r.zone == v.zone && r.capacity == v.capacity && r.inOkc == v.inOkc
    ensures r.address == item.address && r.latitude == Lat(item.latLng) && r.longitude == Lng(item.latLng)
  {
    v.(address := item.address, latitude := Lat(item.latLng), longitude := Lng(item.latLng))
  }

  /** The item would write to venue `k`. */
  predicate Writes(venues: map<string, Venue>, item: GeoItem, k: string) {
    !Skips(item) && item.name == Some(k) && k in venues
  }

  /** One iteration of the merge loop; None where Python raises. */
  function MergeItem(venues: map<string, Venue>, c: OsmCounts, item: GeoItem): (r: Option<(map<string, Venue>, OsmCounts)>)
    ensures r.Some? <==> !item.latLng.Null?
    ensures r.Some? ==> r.value.0.Keys == venues.Keys
    ensures r.Some? ==> r.value.1.updated + r.value.1.skipped + r.value.1.notFound == c.updated + c.skipped + c.notFound + 1
  {
    if item.latLng.Null? then None
    else if Skips(item) then Some((venues, c.(skipped := c.skipped + 1)))
    else if item.name.value !in venues then Some((venues, c.(notFound := c.notFound + 1)))
    else
      var k := item.name.value;
      Some((venues[k := Geocoded(venues[k], item)], c.(updated := c.updated + 1)))
  }

  /** The merge loop over `items`, in file order. */
  function MergeItems(venues: map<string, Venue>, items: seq<GeoItem>): (r: Option<(map<string, Venue>, OsmCounts)>)
    ensures r.Some? <==> forall i :: 0 <= i < |items| ==> !items[i].latLng.Null?
    ensures r.Some? ==> r.value.0.Keys == venues.Keys
    ensures r.Some? ==> r.value.1.updated + r.value.1.skipped + r.value.1.notFound == |items|
    decreases |items|
  {
    if |items| == 0 then Some((venues, OsmCounts(0, 0, 0)))
    else
      var init := items[..|items| - 1];
      assert forall i :: 0 <= i < |init| ==> init[i] == items[i];
      match MergeItems(venues, init)
      case None => None
      case Some((v, c)) => MergeItem(v, c, items[|items| - 1])
  }

  /** The position of the last item that writes to venue `k`. */
  function LastWriter(venues: map<string, Venue>, items: seq<GeoItem>, k: string): (r: Option<nat>)
    ensures r.Some? ==> r.value < |items| && Writes(venues, items[r.value], k)
    ensures r.Some? ==> forall j :: r.value < j < |items| ==> !Writes(venues, items[j], k)
    ensures r.None? ==> forall j :: 0 <= j < |items| ==> !Writes(venues, items[j], k)
    decreases |items|
  {
    if |items| == 0 then None
    else if Writes(venues, items[|items| - 1], k) then Some(|items| - 1)
    else
      var init := items[..|items| - 1];
      assert forall i :: 0 <= i < |init| ==> init[i] == items[i];
      LastWriter(venues, init, k)
  }

  /** Last write wins: each venue ends with the address and coordinates of
      the last item naming it, or unchanged if none does; nothing but those
      three fields ever changes. */
  lemma {:induction false} MergeLastWriterWins(venues: map<string, Venue>, items: seq<GeoItem>, k: string)
    requires MergeItems(venues, items).Some? && k in venues
    ensures MergeItems(venues, items).value.0[k] ==
              match LastWriter(venues, items, k)
              case None => venues[k]
              case Some(i) => Geocoded(venues[k], items[i])
    decreases |items|
  {
    if |items| > 0 {
      var init := items[..|items| - 1];
      var last := items[|items| - 1];
      assert forall i :: 0 <= i < |init| ==> init[i] == items[i];
      MergeLastWriterWins(venues, init, k);
      var (v, c) := MergeItems(venues, init).value;
      if Writes(venues, last, k) {
        assert Geocoded(v[k], last) == Geocoded(venues[k], last);
      }
    }
  }

  /** How many items satisfy `p`. */
  function CountWhere(items: seq<GeoItem>, p: GeoItem -> bool): (n: nat)
    ensures n <= |items|
    decreases |items|
  {
    if |items| == 0 then 0
    else CountWhere(items[..|items| - 1], p) + (if p(items[|items| - 1]) then 1 else 0)
  }

  /** The three counters classify every item by itself: skipped by its own
      fields, not found when no stored venue has its name, updated
      otherwise. */
  lemma {:induction false} MergeCounts(venues: map<string, Venue>, items: seq<GeoItem>)
    requires MergeItems(venues, items).Some?
    ensures MergeItems(venues, items).value.1.skipped == CountWhere(items, Skips)
    ensures MergeItems(venues, items).value.1.notFound == CountWhere(items, i => !Skips(i) && i.name.value !in venues)
    ensures MergeItems(venues, items).value.1.updated == CountWhere(items, i => !Skips(i) && i.name.value in venues)
    decreases |items|
  {
    if |items| > 0 {
      var init := items[..|items| - 1];
      assert forall i :: 0 <= i < |init| ==> init[i] == items[i];
      MergeCounts(venues, init);
    }
  }

  /** `load_osm_venues`: the merge in one transaction; a raise leaves the
      store as it was. Only venues change, and no venue is created. */
  function LoadOsmVenues(st: Store, items: seq<GeoItem>): (r: Option<(Store, OsmCounts)>)
    ensures r.Some? <==> forall i :: 0 <= i < |items| ==> !items[i].latLng.Null?
    ensures r.Some? ==> r.value.0.(venues := st.venues) == st && r.value.0.venues.Keys == st.venues.Keys
    ensures r.Some? ==> r.value.1.updated + r.value.1.skipped + r.value.1.notFound == |items|
  {
    match MergeItems(st.venues, items)
    case None => None
    case Some((v, c)) => Some((st.(venues := v), c))
  }

  /** Skipped items, and items naming no stored venue, change nothing. */
  lemma SkippedItemsChangeNothing(st: Store, item: GeoItem)
    requires !item.latLng.Null?
    requires Skips(item) || item.name.value !in st.venues
    ensures LoadOsmVenues(st, [item]).Some? && LoadOsmVenues(st, [item]).value.0 == st
  {
    assert [item][..0] == [];
    assert MergeItems(st.venues, []) == Some((st.venues, OsmCounts(0, 0, 0)));
    assert [item][0] == item;
  }

  /** Merging keeps the venues under their natural keys. */
  lemma MergeKeepsNaturalKeys(st: Store, items: seq<GeoItem>)
    requires KeysAreNatural(st) && LoadOsmVenues(st, items).Some?
    ensures KeysAreNatural(LoadOsmVenues(st, items).value.0)
  {
    var r := LoadOsmVenues(st, items).value.0;
    forall k | k in r.venues ensures r.venues[k].venue == k {
      MergeLastWriterWins(st.venues, items, k);
    }
  }
}
