/** The `%H:%M` half of `datetime.strptime(f"{date} {time}", "%Y-%m-%d %H:%M")`
    in src/la28/parsing.py. Python compiles the format to a regular
    expression: the space becomes `\s+`, `%H` is `2[0-3]|[0-1]\d|\d`, `%M` is
    `[0-5]\d|\d`, the first alternative that lets the whole pattern match
    wins, and any text left after the match is an error ("unconverted data
    remains"). The date half is always well formed, so the time text may
    start with white space and must then be exactly hours, colon, minutes. */
module Clock {
  import opened Text

  predicate IsDigit(c: char) { '0' <= c <= '9' }

  function DigitValue(c: char): (d: nat)
    requires IsDigit(c)
    ensures d < 10
  {
    c as int - '0' as int
  }

  function Digit(d: nat): (c: char)
    requires d < 10
    ensures IsDigit(c) && DigitValue(c) == d
  {
    ('0' as int + d) as char
  }

  lemma DigitOfValue(c: char)
    requires IsDigit(c)
    ensures Digit(DigitValue(c)) == c
  {
  }

  /** The characters Python's `\s` matches in a text pattern (those for
      which `str.isspace()` holds). */
  predicate IsSpace(c: char) {
    var n := c as int;
    || n == 0x20 || 0x09 <= n <= 0x0d || 0x1c <= n <= 0x1f || n == 0x85 || n == 0xa0
    || n == 0x1680 || 0x2000 <= n <= 0x200a || n == 0x2028 || n == 0x2029
    || n == 0x202f || n == 0x205f || n == 0x3000
  }

  /** `s` without its leading white space. */
  function DropSpace(s: string): (r: string)
    ensures |r| <= |s| && r == s[|s| - |r|..]
    ensures |r| > 0 ==> !IsSpace(r[0])
    ensures forall i :: 0 <= i < |s| - |r| ==> IsSpace(s[i])
  {
    if |s| > 0 && IsSpace(s[0]) then DropSpace(s[1..]) else s
  }

  lemma {:induction false} DropSpacePrefix(w: string, t: string)
    requires forall i :: 0 <= i < |w| ==> IsSpace(w[i])
    requires |t| > 0 && !IsSpace(t[0])
    ensures DropSpace(w + t) == t
    decreases |w|
  {
    if |w| > 0 {
      assert (w + t)[1..] == w[1..] + t;
      DropSpacePrefix(w[1..], t);
    } else {
      assert w + t == t;
    }
  }

  /** `%H`: the hour and the text after it. */
  function ParseHour(t: string): Option<(nat, string)> {
    if |t| >= 2 && t[0] == '2' && '0' <= t[1] <= '3' then Some((20 + DigitValue(t[1]), t[2..]))
    else if |t| >= 2 && (t[0] == '0' || t[0] == '1') && IsDigit(t[1]) then Some((10 * DigitValue(t[0]) + DigitValue(t[1]), t[2..]))
    else if |t| >= 1 && IsDigit(t[0]) then Some((DigitValue(t[0]), t[1..]))
    else None
  }

  /** `%M`: the minute and the text after it. */
  function ParseMinute(t: string): Option<(nat, string)> {
    if |t| >= 2 && '0' <= t[0] <= '5' && IsDigit(t[1]) then Some((10 * DigitValue(t[0]) + DigitValue(t[1]), t[2..]))
    else if |t| >= 1 && IsDigit(t[0]) then Some((DigitValue(t[0]), t[1..]))
    else None
  }

  /** Minutes since midnight of a time text, or None where Python raises. */
  function ParseClock(s: string): (r: Option<int>)
    ensures r.Some? ==> 0 <= r.value < 1440
  {
    ParseBare(DropSpace(s))
  }

  /** Hours, colon, minutes and nothing else. */
  function ParseBare(t: string): (r: Option<int>)
    ensures r.Some? ==> 0 <= r.value < 1440
  {
    match ParseHour(t)
    case None => None
    case Some((h, rest)) =>
      if |rest| == 0 || rest[0] != ':' then None
      else
        match ParseMinute(rest[1..])
        case None => None
        case Some((m, tail)) => if |tail| == 0 then Some(h * 60 + m) else None
  }

  /** Two digits with a leading zero, as `%02d` writes them. */
  function Pad2(n: nat): (r: string)
    requires n < 100
    ensures |r| == 2 && IsDigit(r[0]) && IsDigit(r[1])
  {
    [Digit(n / 10), Digit(n % 10)]
  }

  /** The texts `%H` accepts for hour `h`: two digits, or one below 10. */
  function HourTexts(h: nat): set<string>
    requires h < 24
  {
    {Pad2(h)} + (if h < 10 then {[Digit(h)]} else {})
  }

  function MinuteTexts(m: nat): set<string>
    requires m < 60
  {
    {Pad2(m)} + (if m < 10 then {[Digit(m)]} else {})
  }

  /** Every text `%H:%M` reads as minute `m` of the day. */
  ghost predicate IsClockText(t: string, m: int) {
    0 <= m < 1440 &&
    exists a, b :: a in HourTexts(m / 60) && b in MinuteTexts(m % 60) && t == a + ":" + b
  }

  /** The canonical `HH:MM` text of minute `m`. */
  function FormatClock(m: int): (t: string)
    requires 0 <= m < 1440
    ensures IsClockText(t, m)
  {
    var t := Pad2(m / 60) + ":" + Pad2(m % 60);
    assert Pad2(m / 60) in HourTexts(m / 60) && Pad2(m % 60) in MinuteTexts(m % 60);
    t
  }

  lemma HourOfText(a: string, h: nat, rest: string)
    requires h < 24 && a in HourTexts(h)
    requires |rest| > 0 && rest[0] == ':'
    ensures ParseHour(a + rest) == Some((h, rest))
  {
    var t := a + rest;
    if a == Pad2(h) {
      assert t[0] == Digit(h / 10) && t[1] == Digit(h % 10);
      assert t[2..] == rest;
    } else {
      assert t[0] == Digit(h) && t[1] == ':';
      assert t[1..] == rest;
    }
  }

  lemma MinuteOfText(b: string, m: nat)
    requires m < 60 && b in MinuteTexts(m)
    ensures ParseMinute(b) == Some((m, []))
  {
    if b == Pad2(m) {
      assert b[2..] == [];
    } else {
      assert b[1..] == [];
    }
  }

  /** Completeness: leading white space, then any accepted form of a time,
      reads back as that time. */
  lemma ParseClockText(w: string, t: string, m: int)
    requires forall i :: 0 <= i < |w| ==> IsSpace(w[i])
    requires IsClockText(t, m)
    ensures ParseClock(w + t) == Some(m)
  {
    var h, mi := m / 60, m % 60;
    var a, b :| a in HourTexts(h) && b in MinuteTexts(mi) && t == a + ":" + b;
    assert DropSpace(w + t) == t by {
      HourTextStart(a, h);
      assert t[0] == a[0];
      DropSpacePrefix(w, t);
    }
    ParseBareOf(a, b, m);
  }

  lemma ParseBareOf(a: string, b: string, m: int)
    requires 0 <= m < 1440 && a in HourTexts(m / 60) && b in MinuteTexts(m % 60)
    ensures ParseBare(a + ":" + b) == Some(m)
  {
    ParseBareParts(a, b, m / 60, m % 60);
  }

  lemma HourTextStart(a: string, h: nat)
    requires h < 24 && a in HourTexts(h)
    ensures |a| > 0 && IsDigit(a[0]) && !IsSpace(a[0])
  {
  }

  lemma ParseBareParts(a: string, b: string, h: nat, mi: nat)
    requires h < 24 && mi < 60 && a in HourTexts(h) && b in MinuteTexts(mi)
    ensures ParseBare(a + ":" + b) == Some(h * 60 + mi)
  {
    assert a + ":" + b == a + (":" + b);
    HourOfText(a, h, ":" + b);
    assert (":" + b)[1..] == b;
    MinuteOfText(b, mi);
  }

  /** Soundness: whatever reads as a time is, after its leading white space,
      one of the accepted forms of that time. */
  lemma ParseClockSound(s: string)
    requires ParseClock(s).Some?
    ensures IsClockText(DropSpace(s), ParseClock(s).value)
  {
    var t := DropSpace(s);
    var (h, rest) := ParseHour(t).value;
    var (mi, tail) := ParseMinute(rest[1..]).value;
    var a := HourText(t);
    var b := MinuteText(rest[1..]);
    assert t == a + rest;
    assert rest == ":" + rest[1..];
    assert rest[1..] == b + tail;
    assert tail == [];
    assert t == a + ":" + b;
    ClockParts(h, mi);
  }

  /** The text `%H` consumed. */
  function HourText(t: string): (a: string)
    requires ParseHour(t).Some?
    ensures t == a + ParseHour(t).value.1
    ensures ParseHour(t).value.0 < 24 && a in HourTexts(ParseHour(t).value.0)
  {
    if |t| >= 2 && t[0] == '2' && '0' <= t[1] <= '3' then
      DigitOfValue(t[1]);
      assert t[..2] == Pad2(ParseHour(t).value.0);
      t[..2]
    else if |t| >= 2 && (t[0] == '0' || t[0] == '1') && IsDigit(t[1]) then
      DigitOfValue(t[0]);
      DigitOfValue(t[1]);
      assert t[..2] == Pad2(ParseHour(t).value.0);
      t[..2]
    else
      DigitOfValue(t[0]);
      assert t[..1] == [Digit(ParseHour(t).value.0)];
      t[..1]
  }

  /** The text `%M` consumed. */
  function MinuteText(t: string): (b: string)
    requires ParseMinute(t).Some?
    ensures t == b + ParseMinute(t).value.1
    ensures ParseMinute(t).value.0 < 60
    ensures |ParseMinute(t).value.1| == 0 ==> b in MinuteTexts(ParseMinute(t).value.0)
  {
    if |t| >= 2 && '0' <= t[0] <= '5' && IsDigit(t[1]) then
      DigitOfValue(t[0]);
      DigitOfValue(t[1]);
      assert t[..2] == Pad2(ParseMinute(t).value.0);
      t[..2]
    else
      DigitOfValue(t[0]);
      assert t[..1] == [Digit(ParseMinute(t).value.0)];
      t[..1]
  }

  lemma ClockParts(h: nat, mi: nat)
    requires mi < 60
    ensures (h * 60 + mi) / 60 == h && (h * 60 + mi) % 60 == mi
  {
  }

  /** The canonical text reads back as the time it was written from. */
  lemma FormatParseClock(m: int)
    requires 0 <= m < 1440
    ensures ParseClock(FormatClock(m)) == Some(m)
  {
    ParseClockText([], FormatClock(m), m);
    assert [] + FormatClock(m) == FormatClock(m);
  }

  /** After white space, the reader sees only the rest of the text. */
  lemma SpaceThenBare(w: string, t: string)
    requires forall i :: 0 <= i < |w| ==> IsSpace(w[i])
    requires |t| > 0 && IsDigit(t[0])
    ensures ParseClock(w + t) == ParseBare(t)
  {
    DropSpacePrefix(w, t);
  }

  /** `%H` stops at 23: after any white space, a "2" followed by a digit
      from 4 to 9 is refused, whatever follows. */
  lemma {:induction false} HourAboveTwentyThree(w: string, d: char, rest: string)
    requires forall i :: 0 <= i < |w| ==> IsSpace(w[i])
    requires '4' <= d <= '9'
    ensures ParseClock(w + ['2', d] + rest).None?
  {
    var t := ['2', d] + rest;
    assert w + ['2', d] + rest == w + t;
    SpaceThenBare(w, t);
    BareHourAboveTwentyThree(t);
  }

  lemma BareHourAboveTwentyThree(t: string)
    requires |t| >= 2 && t[0] == '2' && '4' <= t[1] <= '9'
    ensures ParseBare(t).None?
  {
    assert ParseHour(t) == Some((2, t[1..]));
  }

  /** `%M` stops at 59: after any accepted hour, a minute starting with a
      digit from 6 to 9 reads only that digit and leaves the next one
      unconverted, whatever follows. */
  lemma {:induction false} MinuteAboveFiftyNine(w: string, a: string, h: nat, d: char, e: char, rest: string)
    requires forall i :: 0 <= i < |w| ==> IsSpace(w[i])
    requires h < 24 && a in HourTexts(h)
    requires '6' <= d <= '9' && IsDigit(e)
    ensures ParseClock(w + a + ":" + [d, e] + rest).None?
  {
    var m := ":" + [d, e] + rest;
    var t := a + m;
    assert w + a + ":" + [d, e] + rest == w + t;
    HourTextStart(a, h);
    assert t[0] == a[0];
    SpaceThenBare(w, t);
    HourOfText(a, h, m);
    BareMinuteAboveFiftyNine(m[1..]);
  }

  lemma BareMinuteAboveFiftyNine(t: string)
    requires |t| >= 2 && '6' <= t[0] <= '9' && IsDigit(t[1])
    ensures ParseMinute(t) == Some((DigitValue(t[0]), t[1..])) && |t[1..]| > 0
  {
  }
}
