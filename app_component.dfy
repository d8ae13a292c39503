/**
 * AppComponent: the fields the prayer-time page shows, and the callbacks that
 * write them.  The clock is not read here: every callback that the source
 * runs at some wall-clock moment takes that moment as parameters (`now`, the
 * current minute, and `today`, the minute at which the current local day
 * starts; see TimeParsing).
 */
module App {
  import opened Wrappers
  import opened TimeParsing
  import PrayerPeriods
  import Display

  /** The body of the timings response: one free-form time string per prayer. */
  datatype Timings = Timings(Fajr: string, Dhuhr: string, Asr: string, Maghrib: string, Isha: string)

  /** The time string of the prayer with the given name. */
  function Field(t: Timings, name: string): string {
    if name == "Fajr" then t.Fajr
    else if name == "Dhuhr" then t.Dhuhr
    else if name == "Asr" then t.Asr
    else if name == "Maghrib" then t.Maghrib
    else t.Isha
  }

  /** parseTime on the five strings, in the order updatePrayerTimesFromTimings
      calls it. */
  function Readings(t: Timings, today: int): seq<Result<int, ParseError>> {
    [ParseTime(t.Fajr, 0, today), ParseTime(t.Dhuhr, 0, today), ParseTime(t.Asr, 0, today),
     ParseTime(t.Maghrib, 0, today), ParseTime(t.Isha, 0, today)]
  }

  /** Reading k is that of the prayer the classifier lists k-th. */
  lemma ReadingsFollowPrayerOrder(t: Timings, today: int)
    ensures |Readings(t, today)| == |PrayerPeriods.PrayerNames|
    ensures forall k :: 0 <= k < 5 ==>
              Readings(t, today)[k] == ParseTime(Field(t, PrayerPeriods.PrayerNames[k]), 0, today)
  {
  }

  /** The index of the first failed reading, or 5 when all five succeed. */
  function FirstError(rs: seq<Result<int, ParseError>>): (k: nat)
    requires |rs| == 5
    ensures k <= 5
    ensures forall j :: 0 <= j < k ==> rs[j].Ok?
    ensures k < 5 ==> rs[k].Err?
  {
    if rs[0].Err? then 0
    else if rs[1].Err? then 1
    else if rs[2].Err? then 2
    else if rs[3].Err? then 3
    else if rs[4].Err? then 4
    else 5
  }

  /** The five starts after storing the readings one by one over `prev`,
      stopping at the first failure: that start and the later ones keep
      `prev`. */
  function Stored(prev: seq<Option<int>>, rs: seq<Result<int, ParseError>>): seq<Option<int>>
    requires |prev| == 5 && |rs| == 5
  {
    var k := FirstError(rs);
    [if 0 < k then Some(rs[0].value) else prev[0],
     if 1 < k then Some(rs[1].value) else prev[1],
     if 2 < k then Some(rs[2].value) else prev[2],
     if 3 < k then Some(rs[3].value) else prev[3],
     if 4 < k then Some(rs[4].value) else prev[4]]
  }

  /** Start j takes reading j exactly when readings 0 to j all succeed; a
      failure at or before j leaves it as it was. */
  lemma StoresReadablePrefix(prev: seq<Option<int>>, rs: seq<Result<int, ParseError>>)
    requires |prev| == 5 && |rs| == 5
    ensures forall j :: 0 <= j < 5 && (forall i :: 0 <= i <= j ==> rs[i].Ok?) ==>
              Stored(prev, rs)[j] == Some(rs[j].value)
    ensures forall j :: 0 <= j < 5 && (exists i :: 0 <= i <= j && rs[i].Err?) ==>
              Stored(prev, rs)[j] == prev[j]
  {
    var k := FirstError(rs);
    var starts := Stored(prev, rs);
    assert forall j :: 0 <= j < 5 ==> starts[j] == if j < k then Some(rs[j].value) else prev[j];
    forall j | 0 <= j < 5 && (exists i :: 0 <= i <= j && rs[i].Err?)
      ensures starts[j] == prev[j]
    {
      var i :| 0 <= i <= j && rs[i].Err?;
      assert k <= i;
    }
  }

  /** An unreadable Fajr string stops the parsing before anything is stored. */
  lemma FajrFailureStoresNothing(prev: seq<Option<int>>, t: Timings, today: int)
    requires |prev| == 5
    requires ParseTime(t.Fajr, 0, today).Err?
    ensures Stored(prev, Readings(t, today)) == prev
  {
  }

  /** When all five strings are readable, what was stored before does not matter. */
  lemma ReadableTimingsReplaceAllStarts(prev: seq<Option<int>>, t: Timings, today: int)
    requires |prev| == 5
    requires forall j :: 0 <= j < 5 ==> Readings(t, today)[j].Ok?
    ensures forall j :: 0 <= j < 5 ==> Stored(prev, Readings(t, today))[j] == Some(Readings(t, today)[j].value)
  {
    StoresReadablePrefix(prev, Readings(t, today));
  }

  /** The placeholder currentPrayer holds until the first classification. */
  const Unclassified := "—"

  class AppComponent {
    var currentTime: int
    var tickCount: nat
    var fajrTime: Option<int>
    var dhuhrTime: Option<int>
    var asrTime: Option<int>
    var maghribTime: Option<int>
    var ishaTime: Option<int>
    var timings: Option<Timings>
    var ramadanDay: Option<string>
    var ramadanLoading: bool
    var currentPrayer: string
    var isFasting: bool
    var loading: bool

    /** The starts are only ever parsed from a stored timings record, and the
        current prayer is the placeholder or one of the five names. */
    ghost predicate Valid()
      reads this
    {
      ((fajrTime.Some? || dhuhrTime.Some? || asrTime.Some? || maghribTime.Some? || ishaTime.Some?)
         ==> timings.Some?)
      && (currentPrayer == Unclassified || currentPrayer in PrayerPeriods.PrayerNames)
    }

    /** The five starts in prayer order. */
    function Starts(): seq<Option<int>>
      reads this
    {
      [fajrTime, dhuhrTime, asrTime, maghribTime, ishaTime]
    }

    predicate AllStartsSet()
      reads this
    {
      fajrTime.Some? && dhuhrTime.Some? && asrTime.Some? && maghribTime.Some? && ishaTime.Some?
    }

    /** parseTime(timings.Fajr, 1): where the Isha period ends. */
    function FajrTomorrow(today: int): Result<int, ParseError>
      reads this
      requires Valid() && AllStartsSet()
    {
      ParseTime(timings.value.Fajr, 1, today)
    }

    /** What updatePrayerState leaves behind, given the values it started from:
        with all five starts and a readable tomorrow's Fajr, the period of
        currentTime and whether currentTime lies in [Fajr, Maghrib); otherwise
        the previous values. */
    ghost predicate Classified(today: int, prevPrayer: string, prevFasting: bool)
      reads this
      requires Valid()
    {
      if AllStartsSet() && FajrTomorrow(today).Ok? then
        currentPrayer == PrayerPeriods.PeriodAt(
                           PrayerPeriods.DayPeriods(fajrTime.value, dhuhrTime.value, asrTime.value,
                                                    maghribTime.value, ishaTime.value),
                           FajrTomorrow(today).value, currentTime)
        && isFasting == (fajrTime.value <= currentTime < maghribTime.value)
      else
        currentPrayer == prevPrayer && isFasting == prevFasting
    }

    /** The field initialisers; `clock` is the moment the component is created. */
    constructor (clock: int)
      ensures Valid()
      ensures currentTime == clock && tickCount == 0
      ensures Starts() == [None, None, None, None, None] && timings == None
      ensures ramadanDay == None && ramadanLoading && loading
      ensures currentPrayer == Unclassified && !isFasting
    {
      currentTime := clock;
      tickCount := 0;
      fajrTime, dhuhrTime, asrTime, maghribTime, ishaTime := None, None, None, None, None;
      timings := None;
      ramadanDay := None;
      ramadanLoading := true;
      currentPrayer := Unclassified;
      isFasting := false;
      loading := true;
    }

    /** Parses the five strings in prayer order and stores each start as soon
        as it is read; the first string that fails ends the method with its
        error, leaving that start and the later ones as they were. */
    method UpdatePrayerTimesFromTimings(t: Timings, today: int) returns (err: Option<ParseError>)
      requires Valid() && timings.Some?
      modifies this`fajrTime, this`dhuhrTime, this`asrTime, this`maghribTime, this`ishaTime
      ensures Valid()
      ensures Starts() == Stored(old(Starts()), Readings(t, today))
      ensures var rs := Readings(t, today);
              var k := FirstError(rs);
              err == if k < 5 then Some(rs[k].error) else None
    {
      var r := ParseTime(t.Fajr, 0, today);
      if r.Err? { return Some(r.error); }
      fajrTime := Some(r.value);
      r := ParseTime(t.Dhuhr, 0, today);
      if r.Err? { return Some(r.error); }
      dhuhrTime := Some(r.value);
      r := ParseTime(t.Asr, 0, today);
      if r.Err? { return Some(r.error); }
      asrTime := Some(r.value);
      r := ParseTime(t.Maghrib, 0, today);
      if r.Err? { return Some(r.error); }
      maghribTime := Some(r.value);
      r := ParseTime(t.Isha, 0, today);
      if r.Err? { return Some(r.error); }
      ishaTime := Some(r.value);
      return None;
    }

    /** Does nothing until all five starts are set; then reads tomorrow's Fajr
        (whose error escapes, as parseTime's exception does, before anything is
        written), classifies currentTime and writes the fasting flag. */
    method UpdatePrayerState(today: int) returns (err: Option<ParseError>)
      requires Valid()
      modifies this`currentPrayer, this`isFasting
      ensures Valid()
      ensures Classified(today, old(currentPrayer), old(isFasting))
      ensures err.Some? <==> AllStartsSet() && FajrTomorrow(today).Err?
      ensures AllStartsSet() && FajrTomorrow(today).Ok? ==> currentPrayer in PrayerPeriods.PrayerNames
    {
      if fajrTime.None? || dhuhrTime.None? || asrTime.None? || maghribTime.None? || ishaTime.None? {
        return None;
      }
      var now := currentTime;
      var fajrTomorrow := ParseTime(timings.value.Fajr, 1, today);
      if fajrTomorrow.Err? { return Some(fajrTomorrow.error); }
      var periods := PrayerPeriods.DayPeriods(fajrTime.value, dhuhrTime.value, asrTime.value,
                                               maghribTime.value, ishaTime.value);
      var found := PrayerPeriods.FindPeriod(periods, fajrTomorrow.value, now);
      PrayerPeriods.PeriodAtIsPrayerName(fajrTime.value, dhuhrTime.value, asrTime.value,
                                         maghribTime.value, ishaTime.value, fajrTomorrow.value, now);
      currentPrayer := found;
      isFasting := now >= fajrTime.value && now < maghribTime.value;
      return None;
    }

    /** The `next` callback of the timings request: store the record, parse it
        (a parse error is caught and only logged), clear `loading` whatever
        happened, then classify.  The result is the error that escapes the
        final classification, if any. */
    method OnTimingsReceived(data: Timings, today: int) returns (escaped: Option<ParseError>)
      requires Valid()
      modifies this`timings, this`fajrTime, this`dhuhrTime, this`asrTime, this`maghribTime, this`ishaTime,
               this`loading, this`currentPrayer, this`isFasting
      ensures Valid()
      ensures timings == Some(data) && !loading
      ensures Starts() == Stored(old(Starts()), Readings(data, today))
      ensures Classified(today, old(currentPrayer), old(isFasting))
      ensures escaped.Some? <==> AllStartsSet() && FajrTomorrow(today).Err?
    {
      timings := Some(data);
      var parseError := UpdatePrayerTimesFromTimings(data, today);
      loading := false;
      escaped := UpdatePrayerState(today);
    }

    /** The `error` callback of the timings request. */
    method OnTimingsFailed()
      requires Valid()
      modifies this`loading
      ensures Valid()
      ensures !loading
    {
      loading := false;
    }

    /** The `next` callback of the day-label request. */
    method OnRamadanDayReceived(d: string)
      requires Valid()
      modifies this`ramadanDay, this`ramadanLoading
      ensures Valid()
      ensures ramadanDay == Some(d) && !ramadanLoading
    {
      ramadanDay := Some(d);
      ramadanLoading := false;
    }

    /** The `error` callback of the day-label request. */
    method OnRamadanDayFailed()
      requires Valid()
      modifies this`ramadanLoading
      ensures Valid()
      ensures !ramadanLoading
    {
      ramadanLoading := false;
    }

    /** One timer tick: take the clock, count the tick, classify. */
    method Tick(now: int, today: int) returns (escaped: Option<ParseError>)
      requires Valid()
      modifies this`currentTime, this`tickCount, this`currentPrayer, this`isFasting
      ensures Valid()
      ensures currentTime == now && tickCount == old(tickCount) + 1
      ensures Classified(today, old(currentPrayer), old(isFasting))
      ensures escaped.Some? <==> AllStartsSet() && FajrTomorrow(today).Err?
    {
      currentTime := now;
      tickCount := tickCount + 1;
      escaped := UpdatePrayerState(today);
    }

    function GetBackgroundColor(): (color: string)
      reads this
      ensures color == Display.DefaultColor <==> currentPrayer !in Display.ColoredNames
    {
      Display.BackgroundColor(currentPrayer)
    }

    /** Checks only the timings request's flag, not ramadanLoading. */
    function GetStatus(): (status: string)
      reads this
      ensures status == Display.LoadingText <==> loading
      ensures !loading ==> status == Display.StatusLine(currentPrayer)
    {
      Display.Status(loading, currentPrayer)
    }
  }

  /** The timings 05:00, 12:30, 16:00, 19:00 and 20:30. */
  const ExampleTimings := Timings(Clock24Text(5, 0), Clock24Text(12, 30), Clock24Text(16, 0),
                                  Clock24Text(19, 0), Clock24Text(20, 30))

  lemma ExampleTimingsText()
    ensures ExampleTimings == Timings("05:00", "12:30", "16:00", "19:00", "20:30")
  {
  }

  /** Five readable strings are all stored, whatever was stored before. */
  lemma StoreReadings(t: Timings, today: int, fajr: int, dhuhr: int, asr: int, maghrib: int, isha: int)
    requires ParseTime(t.Fajr, 0, today) == Ok(fajr) && ParseTime(t.Dhuhr, 0, today) == Ok(dhuhr)
    requires ParseTime(t.Asr, 0, today) == Ok(asr) && ParseTime(t.Maghrib, 0, today) == Ok(maghrib)
    requires ParseTime(t.Isha, 0, today) == Ok(isha)
    ensures FirstError(Readings(t, today)) == 5
    ensures forall prev | |prev| == 5 :: Stored(prev, Readings(t, today)) == [Some(fajr), Some(dhuhr), Some(asr), Some(maghrib), Some(isha)]
  {
  }

  /** Five readable strings replace the five starts with their readings;
      tomorrow's Fajr is one day after today's. */
  lemma ReadTimings(t: Timings, today: int, fajr: int, dhuhr: int, asr: int, maghrib: int, isha: int)
    requires ParseTime(t.Fajr, 0, today) == Ok(fajr) && ParseTime(t.Dhuhr, 0, today) == Ok(dhuhr)
    requires ParseTime(t.Asr, 0, today) == Ok(asr) && ParseTime(t.Maghrib, 0, today) == Ok(maghrib)
    requires ParseTime(t.Isha, 0, today) == Ok(isha)
    ensures FirstError(Readings(t, today)) == 5
    ensures forall prev | |prev| == 5 :: Stored(prev, Readings(t, today)) == [Some(fajr), Some(dhuhr), Some(asr), Some(maghrib), Some(isha)]
    ensures ParseTime(t.Fajr, 1, today) == Ok(fajr + TimeParsing.MinutesPerDay)
  {
    StoreReadings(t, today, fajr, dhuhr, asr, maghrib, isha);
    ParseTimeNextDay(t.Fajr, 0, today);
  }

  /** The example timings read as 05:00, 12:30, 16:00, 19:00 and 20:30 of the
      day starting at minute 0, with tomorrow's Fajr at 29:00. */
  lemma ExampleTimingsRead()
    ensures ParseTime(ExampleTimings.Fajr, 0, 0) == Ok(300)
    ensures ParseTime(ExampleTimings.Dhuhr, 0, 0) == Ok(750)
    ensures ParseTime(ExampleTimings.Asr, 0, 0) == Ok(960)
    ensures ParseTime(ExampleTimings.Maghrib, 0, 0) == Ok(1140)
    ensures ParseTime(ExampleTimings.Isha, 0, 0) == Ok(1230)
  {
    Clock24RoundTrip(5, 0, 0, 0);
    Clock24RoundTrip(12, 30, 0, 0);
    Clock24RoundTrip(16, 0, 0, 0);
    Clock24RoundTrip(19, 0, 0, 0);
    Clock24RoundTrip(20, 30, 0, 0);
  }

  /** Timings that read as the example ones, received while the clock shows
      `now`: the component classifies `now` against them. */
  method ExampleAt(t: Timings, now: int) returns (c: AppComponent)
    requires ParseTime(t.Fajr, 0, 0) == Ok(300) && ParseTime(t.Dhuhr, 0, 0) == Ok(750)
    requires ParseTime(t.Asr, 0, 0) == Ok(960) && ParseTime(t.Maghrib, 0, 0) == Ok(1140)
    requires ParseTime(t.Isha, 0, 0) == Ok(1230)
    ensures fresh(c) && c.Valid() && !c.loading
    ensures c.currentPrayer == PrayerPeriods.PeriodAt(PrayerPeriods.DayPeriods(300, 750, 960, 1140, 1230), 1740, now)
    ensures c.isFasting == (300 <= now < 1140)
  {
    c := new AppComponent(now);
    assert c.GetStatus() == Display.LoadingText;
    ReadTimings(t, 0, 300, 750, 960, 1140, 1230);
    var escaped := c.OnTimingsReceived(t, 0);
    assert c.Starts() == [Some(300), Some(750), Some(960), Some(1140), Some(1230)];
  }

  /** At 13:00 it is Dhuhr and a fasting time, at 21:00 Isha, and at 03:00,
      before Fajr, still Isha; neither of the last two is a fasting time. */
  method ExampleDay(t: Timings) returns (afternoon: AppComponent, evening: AppComponent, night: AppComponent)
    requires ParseTime(t.Fajr, 0, 0) == Ok(300) && ParseTime(t.Dhuhr, 0, 0) == Ok(750)
    requires ParseTime(t.Asr, 0, 0) == Ok(960) && ParseTime(t.Maghrib, 0, 0) == Ok(1140)
    requires ParseTime(t.Isha, 0, 0) == Ok(1230)
    ensures afternoon.currentPrayer == "Dhuhr" && afternoon.isFasting
    ensures afternoon.GetStatus() == Display.StatusLine("Dhuhr")
    ensures evening.currentPrayer == "Isha" && !evening.isFasting
    ensures night.currentPrayer == "Isha" && !night.isFasting
  {
    afternoon := ExampleAt(t, 13 * 60);
    PrayerPeriods.DayTimetable(300, 750, 960, 1140, 1230, 1740, 13 * 60);
    evening := ExampleAt(t, 21 * 60);
    PrayerPeriods.DayTimetable(300, 750, 960, 1140, 1230, 1740, 21 * 60);
    night := ExampleAt(t, 3 * 60);
    PrayerPeriods.DayTimetable(300, 750, 960, 1140, 1230, 1740, 3 * 60);
  }
}
