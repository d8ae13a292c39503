/**
 * The period classifier of updatePrayerState: a list of named starts, each
 * period running from its own start to the next one's, the last one to
 * tomorrow's Fajr; the current period is the first whose interval holds now,
 * and 'Isha' when none does.
 */
module PrayerPeriods {

  datatype Period = Period(name: string, start: int)

  const PrayerNames: seq<string> := ["Fajr", "Dhuhr", "Asr", "Maghrib", "Isha"]

  /** The list updatePrayerState builds, in prayer order. */
  function DayPeriods(fajr: int, dhuhr: int, asr: int, maghrib: int, isha: int): (ps: seq<Period>)
    ensures |ps| == |PrayerNames|
    ensures forall k :: 0 <= k < |ps| ==> ps[k].name == PrayerNames[k]
  {
    [Period("Fajr", fajr), Period("Dhuhr", dhuhr), Period("Asr", asr),
     Period("Maghrib", maghrib), Period("Isha", isha)]
  }

  /** Where period i ends: the next start, or tomorrow's Fajr after the last one. */
  function NextStart(periods: seq<Period>, fajrTomorrow: int, i: nat): int
    requires i < |periods|
  {
    if i < |periods| - 1 then periods[i + 1].start else fajrTomorrow
  }

  /** now lies in [start, nextStart) of period i. */
  predicate Covers(periods: seq<Period>, fajrTomorrow: int, now: int, i: nat)
    requires i < |periods|
  {
    periods[i].start <= now < NextStart(periods, fajrTomorrow, i)
  }

  /** The first period at or after `from` whose interval holds now, or |periods|. */
  function FirstCovering(periods: seq<Period>, fajrTomorrow: int, now: int, from: nat): (k: nat)
    requires from <= |periods|
    ensures from <= k <= |periods|
    ensures k < |periods| ==> Covers(periods, fajrTomorrow, now, k)
    ensures forall j :: from <= j < k ==> !Covers(periods, fajrTomorrow, now, j)
    decreases |periods| - from
  {
    if from == |periods| then from
    else if Covers(periods, fajrTomorrow, now, from) then from
    else FirstCovering(periods, fajrTomorrow, now, from + 1)
  }

  /** The name the loop of updatePrayerState settles on. */
  function PeriodAt(periods: seq<Period>, fajrTomorrow: int, now: int): string {
    var k := FirstCovering(periods, fajrTomorrow, now, 0);
    if k < |periods| then periods[k].name else "Isha"
  }

  /** For any starts, the result names a period whose interval holds now, or
      is 'Isha' when no interval holds now. */
  lemma PeriodAtNamesCoveringPeriod(periods: seq<Period>, fajrTomorrow: int, now: int)
    ensures (exists k :: 0 <= k < |periods| && Covers(periods, fajrTomorrow, now, k)
                         && PeriodAt(periods, fajrTomorrow, now) == periods[k].name)
            || (PeriodAt(periods, fajrTomorrow, now) == "Isha"
                && forall k :: 0 <= k < |periods| ==> !Covers(periods, fajrTomorrow, now, k))
  {
    var k := FirstCovering(periods, fajrTomorrow, now, 0);
    if k < |periods| {
      assert Covers(periods, fajrTomorrow, now, k);
    }
  }

  /** The loop of updatePrayerState: start from 'Isha', take the first period
      whose interval holds now and stop. */
  method FindPeriod(periods: seq<Period>, fajrTomorrow: int, now: int) returns (found: string)
    ensures found == PeriodAt(periods, fajrTomorrow, now)
  {
    found := "Isha";
    var i := 0;
    while i < |periods|
      invariant 0 <= i <= |periods|
      invariant found == "Isha"
      invariant forall j :: 0 <= j < i ==> !Covers(periods, fajrTomorrow, now, j)
    {
      var start := periods[i].start;
      var nextStart := if i < |periods| - 1 then periods[i + 1].start else fajrTomorrow;
      if now >= start && now < nextStart {
        assert Covers(periods, fajrTomorrow, now, i);
        found := periods[i].name;
        break;
      }
      i := i + 1;
    }
  }

  // ---------------------------------------------------------------------------
  // Properties

  /** Starts that never decrease along the list. */
  predicate Ascending(periods: seq<Period>) {
    forall i, j :: 0 <= i < j < |periods| ==> periods[i].start <= periods[j].start
  }

  /** With ascending starts the intervals are disjoint: when one holds now, no
      other does. */
  lemma CoveringPeriodIsUnique(periods: seq<Period>, fajrTomorrow: int, now: int, i: nat, j: nat)
    requires Ascending(periods)
    requires i < |periods| && j < |periods| && i != j
    requires Covers(periods, fajrTomorrow, now, i)
    ensures !Covers(periods, fajrTomorrow, now, j)
  {
    if i < j {
      assert NextStart(periods, fajrTomorrow, i) == periods[i + 1].start <= periods[j].start;
    } else {
      assert NextStart(periods, fajrTomorrow, j) <= periods[i].start by {
        assert NextStart(periods, fajrTomorrow, j) == periods[j + 1].start;
      }
    }
  }

  /** With ascending starts the current period is the one whose interval holds
      now, and 'Isha' when there is none (before today's Fajr, or from
      tomorrow's Fajr on). */
  lemma PeriodAtIsCoveringPeriod(periods: seq<Period>, fajrTomorrow: int, now: int)
    requires Ascending(periods)
    ensures forall k :: 0 <= k < |periods| && Covers(periods, fajrTomorrow, now, k) ==>
              PeriodAt(periods, fajrTomorrow, now) == periods[k].name
    ensures (forall k :: 0 <= k < |periods| ==> !Covers(periods, fajrTomorrow, now, k)) ==>
              PeriodAt(periods, fajrTomorrow, now) == "Isha"
  {
    var first := FirstCovering(periods, fajrTomorrow, now, 0);
    forall k | 0 <= k < |periods| && Covers(periods, fajrTomorrow, now, k)
      ensures PeriodAt(periods, fajrTomorrow, now) == periods[k].name
    {
      if first != k {
        CoveringPeriodIsUnique(periods, fajrTomorrow, now, k, first);
      }
    }
  }

  /** The five periods of a day with ordered starts, read as a timetable. */
  lemma DayTimetable(fajr: int, dhuhr: int, asr: int, maghrib: int, isha: int, fajrTomorrow: int, now: int)
    requires fajr <= dhuhr <= asr <= maghrib <= isha
    ensures PeriodAt(DayPeriods(fajr, dhuhr, asr, maghrib, isha), fajrTomorrow, now)
            == if now < fajr then "Isha"
               else if now < dhuhr then "Fajr"
               else if now < asr then "Dhuhr"
               else if now < maghrib then "Asr"
               else if now < isha then "Maghrib"
               else "Isha"
  {
    var ps := DayPeriods(fajr, dhuhr, asr, maghrib, isha);
    PeriodAtIsCoveringPeriod(ps, fajrTomorrow, now);
    if fajr <= now < dhuhr { assert Covers(ps, fajrTomorrow, now, 0); }
    else if dhuhr <= now < asr { assert Covers(ps, fajrTomorrow, now, 1); }
    else if asr <= now < maghrib { assert Covers(ps, fajrTomorrow, now, 2); }
    else if maghrib <= now < isha { assert Covers(ps, fajrTomorrow, now, 3); }
  }

  /** Whatever the starts, the result is one of the five prayer names. */
  lemma PeriodAtIsPrayerName(fajr: int, dhuhr: int, asr: int, maghrib: int, isha: int, fajrTomorrow: int, now: int)
    ensures PeriodAt(DayPeriods(fajr, dhuhr, asr, maghrib, isha), fajrTomorrow, now) in PrayerNames
  {
  }

  /** The fasting window [Fajr, Maghrib) is exactly the time of the three
      daytime periods, when the starts are ordered. */
  lemma FastingIsDaytime(fajr: int, dhuhr: int, asr: int, maghrib: int, isha: int, fajrTomorrow: int, now: int)
    requires fajr <= dhuhr <= asr <= maghrib <= isha
    ensures (fajr <= now < maghrib)
            <==> PeriodAt(DayPeriods(fajr, dhuhr, asr, maghrib, isha), fajrTomorrow, now) in ["Fajr", "Dhuhr", "Asr"]
  {
    DayTimetable(fajr, dhuhr, asr, maghrib, isha, fajrTomorrow, now);
  }
}
