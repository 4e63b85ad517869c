/** The pure helpers of the venue geocoder in osm.py: the query builder,
    the wrong-country test, the choice of the best candidate, the ambiguity
    flag and the branches of `geocode_venue`. The search itself and the
    float scoring of candidates are parameters. */
module Osm {
  import opened Text
  import opened Models
  import opened Database

  const DefaultContext := "Los Angeles, California, USA"

  /** What `build_query` appends to a lookup without its place. */
  const Suffix := ", " + DefaultContext

  /** Fragments that show a lookup already names a Californian place. */
  const CityHints: seq<string> := [", ca", "california", "pasadena", "carson", "inglewood", "long beach", "san clemente"]

  /** Fragments that show a lookup names the Oklahoma City venues. */
  const OklahomaHints: seq<string> := ["okc", "oklahoma", "riversport", "softball hall of fame"]

  /** Some hint occurs in `s` (`any(x in s for x in hints)`). */
  function MentionsAny(s: string, hints: seq<string>): (b: bool)
    ensures b <==> exists k :: 0 <= k < |hints| && Contains(s, hints[k])
    decreases |hints|
  {
    if |hints| == 0 then false
    else if Contains(s, hints[0]) then true
    else
      var r := MentionsAny(s, hints[1..]);
      assert r ==> exists k :: 0 <= k < |hints| && Contains(s, hints[k]) by {
        if r {
          var k :| 0 <= k < |hints[1..]| && Contains(s, hints[1..][k]);
          assert hints[k + 1] == hints[1..][k];
        }
      }
      assert (exists k :: 0 <= k < |hints| && Contains(s, hints[k])) ==> r by {
        if exists k :: 0 <= k < |hints| && Contains(s, hints[k]) {
          var k :| 0 <= k < |hints| && Contains(s, hints[k]);
          assert hints[1..][k - 1] == hints[k];
        }
      }
      r
  }

  /** The lookup already carries its place, in any letter case. */
  predicate HasContext(lookup: string) {
    MentionsAny(PyLower(lookup), CityHints) || MentionsAny(PyLower(lookup), OklahomaHints)
  }

  /** `build_query`: the lookup, with the Los Angeles context appended
      unless it already names its place. */
  function BuildQuery(lookup: string): (q: string)
    ensures |q| >= |lookup| && q[..|lookup|] == lookup
    ensures q == lookup <==> HasContext(lookup)
    ensures !HasContext(lookup) ==> q[|lookup|..] == Suffix
  {
    if HasContext(lookup) then lookup else lookup + Suffix
  }

  /** The appended context mentions California. */
  lemma ContextMentionsCalifornia(sfx: string)
    requires sfx == Suffix
    ensures Contains(PyLower(sfx), "california")
  {
    assert OccursAt(sfx, "California", 15);
    PyLowerKeepsWord(sfx, "California");
    assert Lower("California") == "california";
  }

  lemma {:induction false} AppendedContextMentionsCalifornia(lookup: string, sfx: string)
    requires sfx == Suffix
    ensures Contains(PyLower(lookup + sfx), "california")
  {
    PyLowerConcat(lookup, sfx);
    ContextMentionsCalifornia(sfx);
    ContainsInSuffix(PyLower(lookup), PyLower(sfx), "california");
  }

  /** Any text mentioning California, in any letter case, has its place. */
  lemma CaliforniaIsContext(q: string)
    requires Contains(PyLower(q), "california")
    ensures HasContext(q)
  {
    assert CityHints[1] == "california";
  }

  /** A query is its own query: building twice adds the context once. */
  lemma {:induction false} BuildQueryIdempotent(lookup: string)
    ensures BuildQuery(BuildQuery(lookup)) == BuildQuery(lookup)
  {
    if !HasContext(lookup) {
      AppendedContextMentionsCalifornia(lookup, Suffix);
      CaliforniaIsContext(lookup + Suffix);
    }
  }

  /** A hint found in the lookup's own text is found in its query too: the
      query names the same place markers as the lookup, and never loses one. */
  lemma {:induction false} QueryKeepsHints(lookup: string, hint: string)
    requires Contains(PyLower(lookup), hint)
    ensures Contains(PyLower(BuildQuery(lookup)), hint)
  {
    if !HasContext(lookup) {
      HintInPrefix(lookup, Suffix, hint);
    }
  }

  lemma {:induction false} HintInPrefix(lookup: string, sfx: string, hint: string)
    requires Contains(PyLower(lookup), hint)
    ensures Contains(PyLower(lookup + sfx), hint)
  {
    PyLowerConcat(lookup, sfx);
    ContainsInPrefix(PyLower(lookup), PyLower(sfx), hint);
  }

  /** A lookup ending in ", CA" already names its state and is sent
      unchanged. */
  lemma {:induction false} StateKeptAsIs(name: string)
    ensures BuildQuery(name + ", CA") == name + ", CA"
  {
    var q := name + ", CA";
    assert OccursAt(q, ", CA", |name|);
    PyLowerKeepsWord(q, ", CA");
    assert Lower(", CA") == ", ca";
    assert CityHints[0] == ", ca";
  }

  /** Python lower-cases KELVIN SIGN to "k", so "O\U{212A}C" names the
      Oklahoma City venues wherever it appears. */
  lemma {:induction false} KelvinSignNamesOkc(before: string, after: string)
    ensures BuildQuery(before + "O\U{212A}C" + after) == before + "O\U{212A}C" + after
  {
    var m := "O\U{212A}C";
    assert m[1..][1..][1..] == "";
    assert PyLower(m) == "okc";
    PyLowerConcat(before + m, after);
    PyLowerConcat(before, m);
    assert OccursAt("okc", "okc", 0);
    ContainsInMiddle(PyLower(before), PyLower(m), PyLower(after), "okc");
    assert PyLower(before + m + after) == PyLower(before) + PyLower(m) + PyLower(after);
    assert OklahomaHints[0] == "okc";
  }

  /** One search result, with its numeric fields already read as floats
      (`_safe_float` reads anything unreadable as 0.0). `empty` marks the
      result object `{}`: it has no field at all, and Python's `if not best`
      takes it for no result. */
  datatype Candidate = Candidate(
    empty: bool,
    displayName: Option<string>,
    countryCode: Option<string>,
    importance: real,
    lat: real,
    lon: real)

  /** `looks_like_wrong_country`: the result carries a country code, and it
      is not "us" in any letter case. */
  function LooksLikeWrongCountry(best: Candidate): (b: bool)
    ensures b <==> best.countryCode.Some? && best.countryCode.value !in {"", "us", "uS", "Us", "US"}
  {
    var cc := if best.countryCode.Some? then best.countryCode.value else "";
    LowerIsUs(cc);
    cc != "" && PyLower(cc) != "us"
  }

  /** No character but "u" and "U" lower-cases to "u", and likewise for "s". */
  lemma LowerIsUs(cc: string)
    ensures PyLower(cc) == "us" <==> cc in {"us", "uS", "Us", "US"}
  {
    if PyLower(cc) == "us" {
      assert |cc| > 0;
      var tail := cc[1..];
      assert PyLower(cc) == LowerText(cc[0]) + PyLower(tail);
      var head := LowerText(cc[0]);
      assert (head + PyLower(tail))[0] == head[0];
      assert head[0] == 'u';
      assert head == "u";
      assert PyLower(tail) == "s";
      assert |tail| == 1;
      assert PyLower(tail) == LowerText(tail[0]) + PyLower(tail[1..]);
      assert LowerText(tail[0]) == "s";
      assert cc == [cc[0], tail[0]];
    }
    if cc in {"us", "uS", "Us", "US"} {
      assert cc[1..][1..] == [];
      assert PyLower(cc) == LowerText(cc[0]) + LowerText(cc[1]);
    }
  }

  /** Position of the first candidate of highest score. Python's stable
      `sorted(..., reverse=True)[0]` picks the same one. */
  function BestIndex(results: seq<Candidate>, score: Candidate -> real): (i: nat)
    requires |results| > 0
    ensures i < |results|
    ensures forall k :: 0 <= k < |results| ==> score(results[k]) <= score(results[i])
    ensures forall k :: 0 <= k < i ==> score(results[k]) < score(results[i])
    decreases |results|
  {
    if |results| == 1 then 0
    else
      var init := results[..|results| - 1];
      assert forall k :: 0 <= k < |init| ==> init[k] == results[k];
      var j := BestIndex(init, score);
      if score(results[|results| - 1]) > score(results[j]) then |results| - 1 else j
  }

  /** `choose_best`: none only for an empty result list. */
  function ChooseBest(results: seq<Candidate>, score: Candidate -> real): (r: Option<Candidate>)
    ensures r.None? <==> |results| == 0
    ensures r.Some? ==> r.value in results && forall k :: 0 <= k < |results| ==> score(results[k]) <= score(r.value)
  {
    if |results| == 0 then None else Some(results[BestIndex(results, score)])
  }

  /** The scores of candidates that Python would leave in place. */
  lemma {:induction false} ChooseBestFirstOfTies(results: seq<Candidate>, score: Candidate -> real)
    requires |results| > 0
    requires forall k :: 0 <= k < |results| ==> score(results[k]) == score(results[0])
    ensures ChooseBest(results, score) == Some(results[0])
  {
    var i := BestIndex(results, score);
  }

  /** `ambiguity_flag`: the two leading candidates have importances closer
      than 0.02. */
  function AmbiguityFlag(results: seq<Candidate>): (b: bool)
    ensures |results| < 2 ==> !b
  {
    if |results| < 2 then false
    else
      var d := results[0].importance - results[1].importance;
      -0.02 < d < 0.02
  }

  /** Only the two leading candidates matter, and their order does not. */
  lemma AmbiguityOfLeadingPair(results: seq<Candidate>)
    requires |results| >= 2
    ensures AmbiguityFlag(results) == AmbiguityFlag(results[..2])
    ensures AmbiguityFlag(results) == AmbiguityFlag([results[1], results[0]] + results[2..])
    ensures results[0].importance == results[1].importance ==> AmbiguityFlag(results)
  {
  }

  /** The outcome of geocoding one venue. */
  datatype GeoResult = GeoResult(
    name: string,
    status: string,
    address: Option<string>,
    lat: Option<real>,
    lng: Option<real>,
    query: Option<string>)

  const Statuses: set<string> := {"unlocatable", "not_found", "needs_review", "ok"}

  /** `geocode_venue`, with the search passed in. */
  function GeocodeVenue(scheduleName: string, lookup: Option<string>, search: string -> seq<Candidate>,
                        score: Candidate -> real): (r: GeoResult)
    ensures r.name == scheduleName && r.status in Statuses
    ensures r.status == "unlocatable" <==> lookup.None? || lookup == Some("")
    ensures r.status == "unlocatable" ==> r.query.None?
    ensures r.status != "unlocatable" ==> r.query == Some(BuildQuery(lookup.value))
    ensures r.status == "not_found" <==>
              && r.query.Some?
              && (|search(r.query.value)| == 0 || ChooseBest(search(r.query.value), score).value.empty)
    ensures r.status in {"unlocatable", "not_found"} <==> r.lat.None?
    ensures r.lat.None? ==> r.address.None? && r.lng.None?
    ensures r.lat.Some? <==> r.lng.Some?
    ensures r.lat.Some? ==>
              var best := ChooseBest(search(r.query.value), score).value;
              r.address == best.displayName && r.lat == Some(best.lat) && r.lng == Some(best.lon)
    ensures r.status == "ok" ==>
              && !AmbiguityFlag(search(r.query.value))
              && !LooksLikeWrongCountry(ChooseBest(search(r.query.value), score).value)
              && !(r.lat == Some(0.0) && r.lng == Some(0.0))
    ensures r.status == "needs_review" ==>
              || AmbiguityFlag(search(r.query.value))
              || LooksLikeWrongCountry(ChooseBest(search(r.query.value), score).value)
              || (r.lat == Some(0.0) && r.lng == Some(0.0))
  {
    if lookup.None? || lookup == Some("") then
      GeoResult(scheduleName, "unlocatable", None, None, None, None)
    else
      var query := BuildQuery(lookup.value);
      var results := search(query);
      match ChooseBest(results, score)
      case None => GeoResult(scheduleName, "not_found", None, None, None, Some(query))
      case Some(best) =>
        if best.empty then GeoResult(scheduleName, "not_found", None, None, None, Some(query))
        else
          var review := AmbiguityFlag(results) || LooksLikeWrongCountry(best) || (best.lat == 0.0 && best.lon == 0.0);
          GeoResult(scheduleName, if review then "needs_review" else "ok", best.displayName,
                    Some(best.lat), Some(best.lon), Some(query))
  }

  /** The entry kept in `main`'s `review` list, status included. */
  function ReviewItem(r: GeoResult): (item: GeoItem)
    ensures Skips(item) <==> r.status in {"unlocatable", "not_found"} || r.name == ""
    ensures item.name == Some(r.name) && item.status == Some(r.status) && item.address == r.address
    ensures Lat(item.latLng) == r.lat && Lng(item.latLng) == r.lng
  {
    GeoItem(Some(r.name), Some(r.status), r.address, Given(r.lat, r.lng))
  }

  /** The entry `main` writes to the file the store loads: name, address
      and coordinates, without the status. */
  function CleanItem(r: GeoResult): (item: GeoItem)
    ensures Skips(item) <==> r.name == ""
    ensures item.name == Some(r.name) && item.status.None? && item.address == r.address
    ensures Lat(item.latLng) == r.lat && Lng(item.latLng) == r.lng
  {
    GeoItem(Some(r.name), None, r.address, Given(r.lat, r.lng))
  }

  /** With its status, an entry the geocoder could not place is skipped by
      the merge; an entry it placed is applied. */
  lemma ReviewItemSkips(r: GeoResult)
    requires r.status in Statuses
    ensures Skips(ReviewItem(r)) <==> r.status in {"unlocatable", "not_found"} || r.name == ""
  {
  }

  /** Without its status, nothing but an empty name makes the merge skip an
      entry: an unplaced venue that the store holds gets its address and
      coordinates cleared. */
  lemma CleanItemOverwrites(st: Store, r: GeoResult)
    requires r.name != "" && r.name in st.venues
    requires r.lat.None? && r.lng.None? && r.address.None?
    ensures !Skips(CleanItem(r))
    ensures LoadOsmVenues(st, [CleanItem(r)]).Some?
    ensures var v := LoadOsmVenues(st, [CleanItem(r)]).value.0.venues[r.name];
            v.address.None? && v.latitude.None? && v.longitude.None?
  {
    assert [CleanItem(r)][..0] == [];
    assert [CleanItem(r)][0] == CleanItem(r);
    MergeLastWriterWins(st.venues, [CleanItem(r)], r.name);
  }
}
