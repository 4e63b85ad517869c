/** The text classifiers of src/la28/parsing.py: the time cell reader,
    the round-type classifier and the sex classifier. All three are total:
    unmatched text falls to a fallback value. */
module Classify {
  import opened Text
  import opened Models

  /** Some line of `lines` contains `t` (Python's `any(t in l for l in lines)`). */
  function AnyContains(lines: seq<string>, t: string): (b: bool)
    ensures b <==> exists k :: 0 <= k < |lines| && Contains(lines[k], t)
    decreases |lines|
  {
    if |lines| == 0 then false
    else if Contains(lines[0], t) then true
    else
      var r := AnyContains(lines[1..], t);
      assert r ==> exists k :: 0 <= k < |lines| && Contains(lines[k], t) by {
        if r {
          var k :| 0 <= k < |lines[1..]| && Contains(lines[1..][k], t);
          assert lines[k + 1] == lines[1..][k];
        }
      }
      assert (exists k :: 0 <= k < |lines| && Contains(lines[k], t)) ==> r by {
        if exists k :: 0 <= k < |lines| && Contains(lines[k], t) {
          var k :| 0 <= k < |lines| && Contains(lines[k], t);
          assert k != 0;
          assert lines[1..][k - 1] == lines[k];
        }
      }
      r
  }

  /** What a time cell says: its first line, the end time it forces (only
      for "TBD"), and whether it carries the Central-time marker. */
  datatype TimeCell = TimeCell(time: string, endOverride: Option<string>, isCt: bool)

  const TBD := "TBD"
  const CtMarker := "(CT)"

  /** Reads a multi-line time cell. */
  function ParseTimeCell(s: string): (c: TimeCell)
    ensures c.isCt <==> exists k :: 1 <= k < |Split(s, '\n')| && Contains(Split(s, '\n')[k], CtMarker)
    ensures Split(s, '\n')[0] == TBD ==> c.time == "00:00" && c.endOverride == Some("23:59")
    ensures Split(s, '\n')[0] != TBD ==> c.time == Split(s, '\n')[0] && c.endOverride.None?
  {
    var lines := Split(s, '\n');
    var isCt := AnyContains(lines[1..], CtMarker);
    assert isCt <==> exists k :: 1 <= k < |lines| && Contains(lines[k], CtMarker) by {
      if isCt {
        var k :| 0 <= k < |lines[1..]| && Contains(lines[1..][k], CtMarker);
        assert lines[k + 1] == lines[1..][k];
      }
      if exists k :: 1 <= k < |lines| && Contains(lines[k], CtMarker) {
        var k :| 1 <= k < |lines| && Contains(lines[k], CtMarker);
        assert lines[1..][k - 1] == lines[k];
      }
    }
    if lines[0] == TBD then TimeCell("00:00", Some("23:59"), isCt)
    else TimeCell(lines[0], None, isCt)
  }

  /** The marker counts only after the first line: a one-line cell is never
      Central time, whatever it says. */
  lemma {:induction false} SingleLineCellIsPacific(s: string)
    requires '\n' !in s
    ensures !ParseTimeCell(s).isCt
  {
    SplitJoin([s], '\n');
  }

  /** A Central-time cell does contain the marker somewhere. */
  lemma {:induction false} CtCellMentionsMarker(s: string)
    requires ParseTimeCell(s).isCt
    ensures Contains(s, CtMarker)
  {
    var lines := Split(s, '\n');
    var k :| 1 <= k < |lines| && Contains(lines[k], CtMarker);
    JoinSplit(s, '\n');
    JoinContainsPiece(lines, '\n', k);
    ContainsTransitive(s, lines[k], CtMarker);
  }

  lemma {:induction false} JoinContainsPiece(pieces: seq<string>, sep: char, k: nat)
    requires 0 <= k < |pieces|
    ensures Contains(Join(pieces, sep), pieces[k])
    decreases |pieces|
  {
    if |pieces| == 1 {
      assert OccursAt(pieces[0], pieces[0], 0);
    } else if k == 0 {
      assert OccursAt(pieces[0], pieces[0], 0);
      ContainsInPrefix(pieces[0], [sep] + Join(pieces[1..], sep), pieces[0]);
      assert pieces[0] + [sep] + Join(pieces[1..], sep) == pieces[0] + ([sep] + Join(pieces[1..], sep));
    } else {
      JoinContainsPiece(pieces[1..], sep, k - 1);
      ContainsInSuffix(pieces[0] + [sep], Join(pieces[1..], sep), pieces[1..][k - 1]);
    }
  }

  /** The sex labels the classifier produces. */
  const SexLabels: set<string> := {"and/or", "or", "Men", "Women", "Mixed"}

  /** Sex category of one description line: the first matching rule wins,
      and the tests are case-sensitive substring tests. */
  function ParseSex(line: string): (r: string)
    ensures r in SexLabels
    ensures r == "or" <==> !Contains(line, "and/or") && Contains(line, "or")
    ensures r == "Men" <==> !Contains(line, "or") && Contains(line, "Men") && !Contains(line, "Women")
    ensures r == "Women" <==> !Contains(line, "or") && Contains(line, "Women") && !Contains(line, "Men")
    ensures r == "Mixed" <==>
              !Contains(line, "or") && (Contains(line, "Men") == Contains(line, "Women")) && Contains(line, "Mixed")
  {
    AndOrContainsOr(line);
    if Contains(line, "and/or") then "and/or"
    else if Contains(line, "or") then "or"
    else if Contains(line, "Men") && !Contains(line, "Women") then "Men"
    else if Contains(line, "Women") && !Contains(line, "Men") then "Women"
    else if Contains(line, "Mixed") then "Mixed"
    else "and/or"
  }

  lemma AndOrContainsOr(line: string)
    ensures Contains(line, "and/or") ==> Contains(line, "or")
  {
    if Contains(line, "and/or") {
      assert OccursAt("and/or", "or", 4);
      ContainsTransitive(line, "and/or", "or");
    }
  }

  /** Any line containing "or" (as in "Floor") is classified as "and/or" or
      "or", never as a single sex. */
  lemma {:induction false} OrLinesAreNeverSingleSex(line: string)
    requires Contains(line, "or")
    ensures ParseSex(line) == "and/or" || ParseSex(line) == "or"
  {
  }

  /** Round type of one description line. A session with a single line
      takes the session type (newlines turned into spaces) instead. */
  function ParseEventType(line: string, sessionType: string, isSingle: bool): (r: string)
    ensures isSingle ==> r == ReplaceChar(sessionType, '\n', ' ')
    ensures !isSingle ==> r in SeededLabels()
    ensures !isSingle ==> (r == "Final" <==> FinalLike(line) && !ConsolationFinal(line))
    ensures !isSingle && FinalLike(line) && ConsolationFinal(line) ==> r == "Preliminary"
    ensures !isSingle ==> (r == "Bronze" <==> !FinalLike(line) && Contains(line, "Bronze"))
    ensures !isSingle ==> (r == "N/A" <==> !FinalLike(line) && !MatchesAnyRound(line))
    ensures !isSingle ==>
              (r == "Semifinal" <==> !FinalLike(line) && !Contains(line, "Bronze") && Contains(line, "Semifinal"))
    ensures !isSingle ==>
              (r == "Quarterfinal" <==>
                 && !FinalLike(line) && !Contains(line, "Bronze") && !Contains(line, "Semifinal")
                 && Contains(line, "Quarterfinal"))
    ensures !isSingle ==>
              (r == "Preliminary" <==>
                 || (FinalLike(line) && ConsolationFinal(line))
                 || (&& !FinalLike(line) && !Contains(line, "Bronze") && !Contains(line, "Semifinal")
                     && !Contains(line, "Quarterfinal") && HeatLike(line)))
    ensures !isSingle ==>
              (r == "Repechage" <==>
                 && !FinalLike(line) && !Contains(line, "Bronze") && !Contains(line, "Semifinal")
                 && !Contains(line, "Quarterfinal") && !HeatLike(line) && Contains(line, "Repechage"))
  {
    SeededLabelsAre();
    BronzeMedalIsBronze(line);
    if isSingle then ReplaceChar(sessionType, '\n', ' ')
    else if Contains(line, "Final") || Contains(line, "Gold Medal") then
      if ConsolationFinal(line) then "Preliminary" else "Final"
    else if Contains(line, "Bronze") || Contains(line, "Bronze Medal") then "Bronze"
    else if Contains(line, "Semifinal") then "Semifinal"
    else if Contains(line, "Quarterfinal") then "Quarterfinal"
    else if HeatLike(line) then "Preliminary"
    else if Contains(line, "Repechage") then "Repechage"
    else "N/A"
  }

  predicate FinalLike(line: string) {
    Contains(line, "Final") || Contains(line, "Gold Medal")
  }

  /** An early round: preliminary, qualification, heats or pool play. */
  predicate HeatLike(line: string) {
    Contains(line, "Preliminary") || Contains(line, "Qualification") || Contains(line, "Heats") || Contains(line, "Pool")
  }

  /** A B, C or D final: a placing race, classified as preliminary. */
  predicate ConsolationFinal(line: string) {
    Contains(line, "Final B") || Contains(line, "Final C") || Contains(line, "Final D")
  }

  predicate MatchesAnyRound(line: string) {
    || Contains(line, "Bronze") || Contains(line, "Semifinal") || Contains(line, "Quarterfinal")
    || HeatLike(line) || Contains(line, "Repechage")
  }

  lemma BronzeMedalIsBronze(line: string)
    ensures Contains(line, "Bronze Medal") ==> Contains(line, "Bronze")
  {
    if Contains(line, "Bronze Medal") {
      assert OccursAt("Bronze Medal", "Bronze", 0);
      ContainsTransitive(line, "Bronze Medal", "Bronze");
    }
  }

  /** A B/C/D final always also mentions "Final", so the exception is only
      reachable from inside the Final rule. */
  lemma ConsolationFinalIsFinalLike(line: string)
    requires ConsolationFinal(line)
    ensures FinalLike(line)
  {
    assert OccursAt("Final B", "Final", 0);
    assert OccursAt("Final C", "Final", 0);
    assert OccursAt("Final D", "Final", 0);
    if Contains(line, "Final B") {
      ContainsTransitive(line, "Final B", "Final");
    } else if Contains(line, "Final C") {
      ContainsTransitive(line, "Final C", "Final");
    } else {
      ContainsTransitive(line, "Final D", "Final");
    }
  }

  /** The tests are case-sensitive: "Semifinal" and "Quarterfinal" do not
      contain "Final", so such lines are not finals. */
  lemma {:induction false} SemifinalIsNotFinal(line: string)
    requires Contains(line, "Semifinal") && !FinalLike(line) && !Contains(line, "Bronze")
    ensures ParseEventType(line, "", false) == "Semifinal"
  {
    BronzeMedalIsBronze(line);
  }

  /** The tests are case-sensitive: a line with no capital "F" and no
      "Gold Medal", as "semifinal" or "Quarterfinal" lines often are, is
      never a final. */
  lemma NoCapitalFIsNoFinal(line: string, sessionType: string)
    requires 'F' !in line && !Contains(line, "Gold Medal")
    ensures ParseEventType(line, sessionType, false) != "Final"
  {
    NoCapitalF(line);
  }

  lemma NoCapitalF(s: string)
    requires 'F' !in s
    ensures !Contains(s, "Final")
  {
    NotContainsMissingChar(s, "Final", 0);
  }

  /** A B, C or D final is a placing race, classified as preliminary,
      whatever surrounds it. */
  lemma {:induction false} PlacingFinalIsPreliminary(before: string, letter: char, after: string, sessionType: string)
    requires letter in "BCD"
    ensures ParseEventType(before + ("Final " + [letter]) + after, sessionType, false) == "Preliminary"
  {
    var m := "Final " + [letter];
    var line := before + m + after;
    assert OccursAt(m, m, 0);
    ContainsInMiddle(before, m, after, m);
    assert m == "Final B" || m == "Final C" || m == "Final D";
    ConsolationFinalIsFinalLike(line);
  }

  /** A line naming both Men and Women, with no "or" and no "Mixed",
      falls through to the default "and/or". */
  lemma BothSexesIsAndOr(line: string)
    requires Contains(line, "Men") && Contains(line, "Women")
    requires !Contains(line, "or") && !Contains(line, "Mixed")
    ensures ParseSex(line) == "and/or"
  {
  }

  /** "Men's " followed by an event naming no other sex and no "or". */
  lemma {:induction false} MenEvent(event: string)
    requires !Contains(event, "or") && !Contains(event, "Women")
    ensures ParseSex("Men's " + event) == "Men"
  {
    var p := "Men's ";
    assert OccursAt(p, "Men", 0);
    ContainsInPrefix(p, event, "Men");
    NotContainsMissingChar(p, "or", 0);
    NotContainsAcross(p, event, "or");
    NotContainsMissingChar(p, "Women", 0);
    NotContainsAcross(p, event, "Women");
  }

  /** "Women's " followed by an event naming no other sex and no "or". */
  lemma {:induction false} WomenEvent(event: string)
    requires !Contains(event, "or") && !Contains(event, "Men")
    ensures ParseSex("Women's " + event) == "Women"
  {
    var p := "Women's ";
    assert OccursAt(p, "Women", 0);
    ContainsInPrefix(p, event, "Women");
    NotContainsMissingChar(p, "or", 1);
    NotContainsAcross(p, event, "or");
    NotContainsMissingChar(p, "Men", 0);
    NotContainsAcross(p, event, "Men");
  }

  /** "Mixed " followed by an event naming neither sex and no "or". */
  lemma {:induction false} MixedEvent(event: string)
    requires !Contains(event, "or") && !Contains(event, "Men") && !Contains(event, "Women")
    ensures ParseSex("Mixed " + event) == "Mixed"
  {
    var p := "Mixed ";
    assert OccursAt(p, "Mixed", 0);
    ContainsInPrefix(p, event, "Mixed");
    NotContainsMissingChar(p, "or", 0);
    NotContainsAcross(p, event, "or");
    NotContainsMissingChar(p, "Men", 2);
    NotContainsAcross(p, event, "Men");
    NotContainsMissingChar(p, "Women", 0);
    NotContainsAcross(p, event, "Women");
  }

  /** "Floor" contains "or", so any floor event is classified "or", even a
      women's one, unless the line also says "and/or". */
  lemma {:induction false} FloorEventIsOr(before: string, after: string)
    requires !Contains(before + "Floor" + after, "and/or")
    ensures ParseSex(before + "Floor" + after) == "or"
  {
    assert OccursAt("Floor", "or", 3);
    ContainsInMiddle(before, "Floor", after, "or");
  }
}
