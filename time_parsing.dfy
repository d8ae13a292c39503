/**
 * The component's parseTime: the first H:MM or HH:MM in a free-form string,
 * corrected by a standalone am/pm marker, placed on the local day `today`
 * plus `dayOffset` days.
 *
 * A point in time is a whole number of minutes on a fixed local epoch; `today`
 * is the minute at which the current local day starts (the date part of the
 * clock reading taken inside parseTime).  A JavaScript Date built from year,
 * month, day + dayOffset, hours and minutes normalises hours and minutes past
 * their range, so the point is today + (dayOffset * 24 + hours) * 60 + minutes
 * for every hour and minute the pattern can read (up to 99 each); daylight
 * saving changes are not modelled.
 */
module TimeParsing {
  import opened Wrappers

  /** The two errors parseTime throws. */
  datatype ParseError = EmptyTime | InvalidFormat

  datatype Meridiem = Am | Pm

  /** The two capture groups of (\d{1,2}):(\d{2}), read as numbers. */
  datatype Clock = Clock(hours: nat, minutes: nat)

  datatype ClockMatch = ClockMatch(pos: nat, clock: Clock)

  datatype MeridiemMatch = MeridiemMatch(pos: nat, meridiem: Meridiem)

  const MinutesPerDay: int := 1440

  // ---------------------------------------------------------------------------
  // Characters

  /** \d of a regular expression without the u flag: ASCII digits only. */
  predicate IsDigit(c: char) {
    '0' <= c <= '9'
  }

  function DigitValue(c: char): nat
    requires IsDigit(c)
  {
    c as int - '0' as int
  }

  function TwoDigitValue(hi: char, lo: char): nat
    requires IsDigit(hi) && IsDigit(lo)
  {
    10 * DigitValue(hi) + DigitValue(lo)
  }

  /** \w of a regular expression without the u flag. */
  predicate IsWordChar(c: char) {
    'a' <= c <= 'z' || 'A' <= c <= 'Z' || IsDigit(c) || c == '_'
  }

  // ---------------------------------------------------------------------------
  // The pattern (\d{1,2}):(\d{2})

  predicate TwoDigitHourAt(s: string, i: nat) {
    i + 5 <= |s| && IsDigit(s[i]) && IsDigit(s[i + 1]) && s[i + 2] == ':'
    && IsDigit(s[i + 3]) && IsDigit(s[i + 4])
  }

  predicate OneDigitHourAt(s: string, i: nat) {
    i + 4 <= |s| && IsDigit(s[i]) && s[i + 1] == ':' && IsDigit(s[i + 2]) && IsDigit(s[i + 3])
  }

  /** The match that starts exactly at i, if any. The greedy \d{1,2} tries two
      hour digits first and falls back to one. */
  function ClockAt(s: string, i: nat): (r: Option<Clock>)
    ensures r.Some? <==> TwoDigitHourAt(s, i) || OneDigitHourAt(s, i)
    ensures r.Some? ==> r.value.hours <= 99 && r.value.minutes <= 99
  {
    if TwoDigitHourAt(s, i) then
      Some(Clock(TwoDigitValue(s[i], s[i + 1]), TwoDigitValue(s[i + 3], s[i + 4])))
    else if OneDigitHourAt(s, i) then
      Some(Clock(DigitValue(s[i]), TwoDigitValue(s[i + 2], s[i + 3])))
    else
      None
  }

  /** The leftmost match at or after `from`, which is what String.match returns. */
  function FindClock(s: string, from: nat): (r: Option<ClockMatch>)
    ensures r.Some? ==> from <= r.value.pos < |s| && ClockAt(s, r.value.pos) == Some(r.value.clock)
    ensures r.Some? ==> forall j :: from <= j < r.value.pos ==> ClockAt(s, j).None?
    ensures r.None? <==> forall j :: from <= j < |s| ==> ClockAt(s, j).None?
    decreases |s| - from
  {
    if from >= |s| then None
    else match ClockAt(s, from)
      case Some(c) => Some(ClockMatch(from, c))
      case None => FindClock(s, from + 1)
  }

  // ---------------------------------------------------------------------------
  // The pattern \b(am|pm)\b with the i flag

  /** ASCII lower-casing, which is all toLowerCase does to the letters of "am" and "pm". */
  function LowerAscii(c: char): char {
    if 'A' <= c <= 'Z' then (c as int + 32) as char else c
  }

  /** Two characters at p with a word boundary before and after them. */
  predicate StandaloneAt(s: string, p: nat) {
    p + 2 <= |s| && (p == 0 || !IsWordChar(s[p - 1])) && (p + 2 == |s| || !IsWordChar(s[p + 2]))
  }

  /** A marker starting exactly at p: "am" or "pm" in any letter case, with a
      word boundary on both sides (a non-word character or the end of the string). */
  function MeridiemAt(s: string, p: nat): (r: Option<Meridiem>)
  {
    if p + 2 <= |s| && (p == 0 || !IsWordChar(s[p - 1]))
       && (s[p + 1] == 'm' || s[p + 1] == 'M')
       && (p + 2 == |s| || !IsWordChar(s[p + 2]))
    then
      if s[p] == 'a' || s[p] == 'A' then Some(Am)
      else if s[p] == 'p' || s[p] == 'P' then Some(Pm)
      else None
    else None
  }

  /** MeridiemAt is the case-insensitive reading: the two characters at p,
      lower-cased, spell "am" or "pm", and neither neighbour is a word character. */
  lemma MeridiemAtIgnoresCase(s: string, p: nat)
    ensures MeridiemAt(s, p) == Some(Am)
            <==> StandaloneAt(s, p) && LowerAscii(s[p]) == 'a' && LowerAscii(s[p + 1]) == 'm'
    ensures MeridiemAt(s, p) == Some(Pm)
            <==> StandaloneAt(s, p) && LowerAscii(s[p]) == 'p' && LowerAscii(s[p + 1]) == 'm'
  {
  }

  /** The leftmost marker at or after `from`. */
  function FindMeridiem(s: string, from: nat): (r: Option<MeridiemMatch>)
    ensures r.Some? ==> from <= r.value.pos < |s| && MeridiemAt(s, r.value.pos) == Some(r.value.meridiem)
    ensures r.Some? ==> forall j :: from <= j < r.value.pos ==> MeridiemAt(s, j).None?
    ensures r.None? <==> forall j :: from <= j < |s| ==> MeridiemAt(s, j).None?
    decreases |s| - from
  {
    if from >= |s| then None
    else match MeridiemAt(s, from)
      case Some(m) => Some(MeridiemMatch(from, m))
      case None => FindMeridiem(s, from + 1)
  }

  /** The first marker of the whole string, lower-cased. */
  function Marker(s: string): (r: Option<Meridiem>)
    ensures r.None? <==> forall j :: 0 <= j < |s| ==> MeridiemAt(s, j).None?
  {
    match FindMeridiem(s, 0)
    case None => None
    case Some(found) => Some(found.meridiem)
  }

  // ---------------------------------------------------------------------------
  // The 12-hour correction and the result

  /** pm adds 12 to an hour below 12; am turns 12 into 0; nothing else changes. */
  function CorrectHour(h: nat, marker: Option<Meridiem>): (r: nat)
    ensures r != h <==> (marker == Some(Pm) && h < 12) || (marker == Some(Am) && h == 12)
    ensures marker == Some(Pm) && h < 12 ==> r == h + 12
    ensures marker == Some(Am) && h == 12 ==> r == 0
  {
    if marker == Some(Pm) && h < 12 then h + 12
    else if marker == Some(Am) && h == 12 then 0
    else h
  }

  /** The minute `dayOffset` days, `hours` hours and `minutes` minutes after `today`. */
  function PointInTime(today: int, dayOffset: int, hours: nat, minutes: nat): int {
    today + dayOffset * 1440 + hours * 60 + minutes
  }

  /** parseTime: the empty string and a string without a match are the two
      exceptions; otherwise the leftmost match, corrected by the marker, on
      the day `dayOffset` days after today. */
  function ParseTime(s: string, dayOffset: int, today: int): Result<int, ParseError> {
    if s == "" then Err(EmptyTime)
    else match FindClock(s, 0)
      case None => Err(InvalidFormat)
      case Some(found) =>
        Ok(PointInTime(today, dayOffset, CorrectHour(found.clock.hours, Marker(s)), found.clock.minutes))
  }

  // ---------------------------------------------------------------------------
  // Properties

  /** The two exceptions and the range of a success: EmptyTime exactly for the
      empty string, InvalidFormat exactly for a non-empty string in which the
      pattern matches nowhere, and otherwise a minute at most 99:99 after the
      start of the offset day. */
  lemma ParseTimeOutcomes(s: string, dayOffset: int, today: int)
    ensures ParseTime(s, dayOffset, today) == Err(EmptyTime) <==> s == ""
    ensures ParseTime(s, dayOffset, today) == Err(InvalidFormat)
            <==> s != "" && forall i :: 0 <= i < |s| ==> ClockAt(s, i).None?
    ensures ParseTime(s, dayOffset, today).Ok? ==>
              0 <= ParseTime(s, dayOffset, today).value - today - dayOffset * MinutesPerDay <= 99 * 60 + 99
  {
    if s != "" {
      var found := FindClock(s, 0);
      if found.Some? {
        assert found.value.clock.hours <= 99 && found.value.clock.minutes <= 99;
      }
    }
  }

  /** The hours and minutes come from the leftmost match of the pattern. */
  lemma ParseTimeReadsLeftmostClock(s: string, dayOffset: int, today: int, i: nat, c: Clock)
    requires ClockAt(s, i) == Some(c)
    requires forall j :: 0 <= j < i ==> ClockAt(s, j).None?
    ensures ParseTime(s, dayOffset, today)
            == Ok(PointInTime(today, dayOffset, CorrectHour(c.hours, Marker(s)), c.minutes))
  {
    var found := FindClock(s, 0);
    assert found.Some? by { assert i < |s|; }
    assert found.value.pos == i;
  }

  /** The marker that counts is the leftmost standalone one. */
  lemma MarkerIsLeftmost(s: string, p: nat, m: Meridiem)
    requires MeridiemAt(s, p) == Some(m)
    requires forall j :: 0 <= j < p ==> MeridiemAt(s, j).None?
    ensures Marker(s) == Some(m)
  {
    var found := FindMeridiem(s, 0);
    assert found.Some? by { assert p < |s|; }
    assert found.value.pos == p;
  }

  /** A marker that is found is the one at the leftmost marker position. */
  lemma MarkerComesFromLeftmostPosition(s: string)
    ensures Marker(s).Some? ==> exists p :: 0 <= p < |s| && MeridiemAt(s, p) == Marker(s)
                                             && forall j :: 0 <= j < p ==> MeridiemAt(s, j).None?
  {
    var found := FindMeridiem(s, 0);
    if found.Some? {
      assert MeridiemAt(s, found.value.pos) == Marker(s);
    }
  }

  /** A string with no standalone marker gets no correction. */
  lemma NoMarkerNoCorrection(s: string, h: nat)
    requires forall j :: 0 <= j < |s| ==> MeridiemAt(s, j).None?
    ensures Marker(s) == None
    ensures CorrectHour(h, Marker(s)) == h
  {
  }

  /** Tomorrow's reading is exactly one day after today's. */
  lemma ParseTimeNextDay(s: string, dayOffset: int, today: int)
    ensures ParseTime(s, dayOffset + 1, today).Ok? <==> ParseTime(s, dayOffset, today).Ok?
    ensures ParseTime(s, dayOffset, today).Ok? ==>
              ParseTime(s, dayOffset + 1, today).value == ParseTime(s, dayOffset, today).value + MinutesPerDay
  {
  }

  /** Whether a string parses does not depend on the day it is placed on. */
  lemma ParseTimeSucceedsOnAnyDay(s: string, d1: int, t1: int, d2: int, t2: int)
    ensures ParseTime(s, d1, t1).Ok? <==> ParseTime(s, d2, t2).Ok?
  {
  }

  // ---------------------------------------------------------------------------
  // Round trips through the usual clock notations

  function Digit(n: nat): (c: char)
    requires n <= 9
    ensures IsDigit(c) && DigitValue(c) == n
  {
    ('0' as int + n) as char
  }

  /** n as two digits, zero-padded. */
  function TwoDigits(n: nat): (s: string)
    requires n <= 99
    ensures |s| == 2 && IsDigit(s[0]) && IsDigit(s[1]) && TwoDigitValue(s[0], s[1]) == n
  {
    [Digit(n / 10), Digit(n % 10)]
  }

  /** "HH:MM" on the 24-hour clock. */
  function Clock24Text(h: nat, m: nat): string
    requires h <= 99 && m <= 99
  {
    TwoDigits(h) + ":" + TwoDigits(m)
  }

  /** "am" or "pm" in any letter case. */
  predicate IsMarkerText(t: string) {
    |t| == 2 && t[0] in "aApP" && t[1] in "mM"
  }

  /** "HH:MM am" or "HH:MM pm" on the 12-hour clock, the marker in any case. */
  function Clock12Text(h: nat, m: nat, marker: string): string
    requires h <= 99 && m <= 99
  {
    Clock24Text(h, m) + " " + marker
  }

  /** The conventional reading of a 12-hour clock face: 12 am is midnight,
      12 pm is noon. */
  function To24Hour(h: nat, pm: bool): nat
    requires 1 <= h <= 12
  {
    h % 12 + (if pm then 12 else 0)
  }

  lemma {:induction false} Clock24RoundTrip(h: nat, m: nat, dayOffset: int, today: int)
    requires h <= 99 && m <= 99
    ensures ParseTime(Clock24Text(h, m), dayOffset, today) == Ok(PointInTime(today, dayOffset, h, m))
  {
    var s := Clock24Text(h, m);
    var hh, mm := TwoDigits(h), TwoDigits(m);
    assert s == [hh[0], hh[1], ':', mm[0], mm[1]];
    assert ClockAt(s, 0) == Some(Clock(h, m));
    forall j | 0 <= j < |s| ensures MeridiemAt(s, j).None? {
      assert IsDigit(s[j]) || s[j] == ':';
    }
    NoMarkerNoCorrection(s, h);
    ParseTimeReadsLeftmostClock(s, dayOffset, today, 0, Clock(h, m));
  }

  lemma {:induction false} Clock12RoundTrip(h: nat, m: nat, marker: string, dayOffset: int, today: int)
    requires 1 <= h <= 12 && m <= 59
    requires IsMarkerText(marker)
    ensures ParseTime(Clock12Text(h, m, marker), dayOffset, today)
            == Ok(PointInTime(today, dayOffset, To24Hour(h, marker[0] in "pP"), m))
  {
    var s := Clock12Text(h, m, marker);
    var hh, mm := TwoDigits(h), TwoDigits(m);
    assert s == [hh[0], hh[1], ':', mm[0], mm[1], ' ', marker[0], marker[1]];
    var mer := if marker[0] in "pP" then Pm else Am;
    assert MeridiemAt(s, 6) == Some(mer);
    forall j | 0 <= j < 6 ensures MeridiemAt(s, j).None? {
      assert IsDigit(s[j]) || s[j] == ':' || s[j] == ' ';
    }
    MarkerIsLeftmost(s, 6, mer);
    assert ClockAt(s, 0) == Some(Clock(h, m));
    ParseTimeReadsLeftmostClock(s, dayOffset, today, 0, Clock(h, m));
    CorrectHourReadsClockFace(h);
    assert CorrectHour(h, Marker(s)) == To24Hour(h, marker[0] in "pP");
  }

  /** The 12-hour correction agrees with the conventional reading of the clock
      face for the hours 1 to 12, and leaves every hour alone without a marker. */
  lemma CorrectHourReadsClockFace(h: nat)
    ensures 1 <= h <= 12 ==> CorrectHour(h, Some(Am)) == To24Hour(h, false)
    ensures 1 <= h <= 12 ==> CorrectHour(h, Some(Pm)) == To24Hour(h, true)
    ensures CorrectHour(h, None) == h
  {
  }

  // "5:30 am", "5:30 pm", "12:00 am" and "12:00 pm" read as the 12-hour clock says.

  lemma MorningExample()
    ensures ParseTime("5:30 am", 0, 0) == Ok(5 * 60 + 30)
  {
    var s := "5:30 am";
    assert MeridiemAt(s, 5) == Some(Am);
    ShortExample(s, Am, Clock(5, 30));
  }

  lemma EveningExample()
    ensures ParseTime("5:30 pm", 0, 0) == Ok(17 * 60 + 30)
  {
    var s := "5:30 pm";
    assert MeridiemAt(s, 5) == Some(Pm);
    ShortExample(s, Pm, Clock(5, 30));
  }

  lemma MidnightExample()
    ensures ParseTime("12:00 am", 0, 0) == Ok(0)
  {
    var s := "12:00 am";
    assert MeridiemAt(s, 6) == Some(Am);
    LongExample(s, Am, Clock(12, 0));
  }

  lemma NoonExample()
    ensures ParseTime("12:00 pm", 0, 0) == Ok(12 * 60)
  {
    var s := "12:00 pm";
    assert MeridiemAt(s, 6) == Some(Pm);
    LongExample(s, Pm, Clock(12, 0));
  }

  /** A reading of "H:MM" followed by a space and a marker. */
  lemma ShortExample(s: string, m: Meridiem, c: Clock)
    requires |s| == 7 && IsDigit(s[0]) && s[1] == ':' && IsDigit(s[2]) && IsDigit(s[3]) && s[4] == ' '
    requires MeridiemAt(s, 5) == Some(m)
    requires c == Clock(DigitValue(s[0]), TwoDigitValue(s[2], s[3]))
    ensures ParseTime(s, 0, 0) == Ok(PointInTime(0, 0, CorrectHour(c.hours, Some(m)), c.minutes))
  {
    forall j | 0 <= j < 5 ensures MeridiemAt(s, j).None? {
      assert IsDigit(s[j]) || s[j] == ':' || s[j] == ' ';
    }
    MarkerIsLeftmost(s, 5, m);
    ParseTimeReadsLeftmostClock(s, 0, 0, 0, c);
  }

  /** A reading of "HH:MM" followed by a space and a marker. */
  lemma LongExample(s: string, m: Meridiem, c: Clock)
    requires |s| == 8 && IsDigit(s[0]) && IsDigit(s[1]) && s[2] == ':' && IsDigit(s[3]) && IsDigit(s[4]) && s[5] == ' '
    requires MeridiemAt(s, 6) == Some(m)
    requires c == Clock(TwoDigitValue(s[0], s[1]), TwoDigitValue(s[3], s[4]))
    ensures ParseTime(s, 0, 0) == Ok(PointInTime(0, 0, CorrectHour(c.hours, Some(m)), c.minutes))
  {
    forall j | 0 <= j < 6 ensures MeridiemAt(s, j).None? {
      assert IsDigit(s[j]) || s[j] == ':' || s[j] == ' ';
    }
    MarkerIsLeftmost(s, 6, m);
    ParseTimeReadsLeftmostClock(s, 0, 0, 0, c);
  }

  /** A marker glued to the digits is not standalone, so "5:30pm" stays 5:30. */
  lemma GluedMarkerExample()
    ensures ParseTime("5:30pm", 0, 0) == Ok(5 * 60 + 30)
  {
    var s := "5:30pm";
    forall j | 0 <= j < |s| ensures MeridiemAt(s, j).None? {
      if j == 4 { assert IsWordChar(s[3]); }
      else { assert s[j] != 'a' && s[j] != 'A' && s[j] != 'p' && s[j] != 'P'; }
    }
    NoMarkerNoCorrection(s, 5);
    ParseTimeReadsLeftmostClock(s, 0, 0, 0, Clock(5, 30));
  }

  /** In "123:45" no match starts at the first digit; the leftmost one reads 23:45. */
  lemma LeftmostMatchExample()
    ensures ParseTime("123:45", 0, 0) == Ok(23 * 60 + 45)
  {
    var s := "123:45";
    assert ClockAt(s, 0).None?;
    forall j | 0 <= j < |s| ensures MeridiemAt(s, j).None? {
      assert IsDigit(s[j]) || s[j] == ':';
    }
    NoMarkerNoCorrection(s, 23);
    ParseTimeReadsLeftmostClock(s, 0, 0, 1, Clock(23, 45));
  }

  /** The two error cases. */
  lemma ErrorExamples()
    ensures ParseTime("", 0, 0) == Err(EmptyTime)
    ensures ParseTime("no time here", 0, 0) == Err(InvalidFormat)
  {
    var s := "no time here";
    forall j | 0 <= j < |s| ensures ClockAt(s, j).None? {
      assert !IsDigit(s[j]);
    }
  }
}
