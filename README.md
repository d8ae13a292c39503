# Prayer-time display: a Dafny model of `AppComponent`

The page shows one day's five prayer times. A backend supplies them as free-form strings such as `"05:12"` or `"5:12 pm"`. `AppComponent` parses each string into a point in time. Once a second it works out which prayer period is current (Fajr, Dhuhr, Asr, Maghrib or Isha) and whether it is a fasting time. From the period it picks a status message and a background colour.

The model has five modules:

- `Wrappers` (`wrappers.dfy`): `Option` and `Result`.
- `TimeParsing` (`time_parsing.dfy`): `parseTime`. The two regular expressions become functions over `seq<char>`:
  - `ClockAt` and `FindClock` model `(\d{1,2}):(\d{2})`: the leftmost match wins, and two hour digits are tried before one.
  - `MeridiemAt` and `FindMeridiem` model `\b(am|pm)\b` with the `i` flag.
  - `CorrectHour` is the 12-hour correction. `ParseTime` returns `Ok(minute)` or `Err(EmptyTime | InvalidFormat)`, the two exceptions the source throws.
- `PrayerPeriods` (`prayer_periods.dfy`): the classification in `updatePrayerState`.
  - `FindPeriod` is its `for` loop with `break`, proved against the function `PeriodAt`.
  - The lemmas say what `PeriodAt` means when the starts are in order.
- `Display` (`display.dfy`): the `getBackgroundColor` and `getStatus` lookups.
- `App` (`app_component.dfy`): the class `AppComponent`, with the component's fields and the callbacks that set them.
  - The methods say exactly which fields change, and how.
  - `Readings`, `FirstError` and `Stored` describe `updatePrayerTimesFromTimings`: the five parse results, the first that fails, and the starts once the assignments up to that failure have run.
  - `Valid()` is the invariant they keep: the starts are only set once a timings record has been stored, and `currentPrayer` is `"—"` or one of the five names.
  - `ExampleAt` and `ExampleDay` run the five-timestamp day through the component at 13:00, 21:00 and 03:00.

Time is a whole number of minutes on a fixed local epoch, and the clock is never read.
- `today` is the minute at which the current local day starts. It stands for the date part of the `new Date()` read inside `parseTime`.
- `now` is the reading taken on a timer tick, truncated to the minute.
- A parsed time is `PointInTime`: `today + dayOffset * 1440 + hours * 60 + minutes`. JavaScript's `Date` gives the same point, because its constructor carries hours and minutes over, up to the 99 that two digits allow.
- Every start is a whole minute, so comparing the truncated `now` with a start gives the same answer as the source's comparison in milliseconds.

## Model

| member | source | states |
|---|---|---|
| `TimeParsing.ClockAt` | src/app/app.component.ts:89 | a match starts at i exactly when two hour digits, `:`, and two minute digits appear there, or one hour digit does; hours and minutes are at most 99 |
| `TimeParsing.FindClock` | src/app/app.component.ts:89-90 | the result is the leftmost position with a match, with no match before it; no result iff no position has a match |
| `TimeParsing.MeridiemAtIgnoresCase` | src/app/app.component.ts:93 | `MeridiemAt` finds am (pm) at p exactly when the two characters there, lower-cased, spell "am" ("pm") and word boundaries surround them |
| `TimeParsing.Marker` | src/app/app.component.ts:93 | no marker iff no position of the string holds a standalone am/pm |
| `TimeParsing.MarkerComesFromLeftmostPosition` | src/app/app.component.ts:93 | a marker that is found is the one at a marker position with no marker before it |
| `TimeParsing.FindMeridiem` | src/app/app.component.ts:93 | the result is the leftmost standalone am/pm marker (any case, word boundary on both sides); no result iff there is none |
| `TimeParsing.CorrectHour` | src/app/app.component.ts:94-95 | pm adds 12 to an hour below 12, am turns 12 into 0, and the hour changes in no other case |
| `TimeParsing.ParseTimeOutcomes` | src/app/app.component.ts:86-98 | `ParseTime`, the model of parseTime: EmptyTime exactly for the empty string; InvalidFormat exactly for a non-empty string with no match anywhere; a success lies 0 to 99:99 after the start of the offset day; the success value is `PointInTime`, today plus dayOffset days plus the hours and minutes (lines 96-97) |
| `TimeParsing.ParseTimeReadsLeftmostClock` | src/app/app.component.ts:89-97 | when i is the leftmost match, the result is built from that match's hours and minutes, corrected by the string's marker |
| `TimeParsing.MarkerIsLeftmost` | src/app/app.component.ts:93 | the leftmost standalone marker decides the correction |
| `TimeParsing.NoMarkerNoCorrection` | src/app/app.component.ts:93-95 | a string with no standalone marker gets no correction |
| `TimeParsing.ParseTimeNextDay` | src/app/app.component.ts:96-97 | a string parses with offset d+1 iff it parses with offset d, and the result is exactly 1440 minutes later |
| `TimeParsing.ParseTimeSucceedsOnAnyDay` | src/app/app.component.ts:86-97 | whether a string parses does not depend on the day offset or on today |
| `TimeParsing.Clock24RoundTrip` | src/app/app.component.ts:89-97 | "HH:MM" written with any two-digit hours and minutes parses back to those hours and minutes |
| `TimeParsing.Clock12RoundTrip` | src/app/app.component.ts:89-97 | "HH:MM am/pm" (1 to 12 o'clock, marker in any case) parses to the conventional 24-hour reading: 12 am is midnight and 12 pm is noon |
| `TimeParsing.CorrectHourReadsClockFace` | src/app/app.component.ts:94-95 | for 1 to 12 o'clock the correction equals the conventional 24-hour reading; without a marker every hour is kept |
| `TimeParsing.MorningExample` | src/app/app.component.ts:86-97 | "5:30 am" is 05:30 |
| `TimeParsing.EveningExample` | src/app/app.component.ts:86-97 | "5:30 pm" is 17:30 |
| `TimeParsing.MidnightExample` | src/app/app.component.ts:86-97 | "12:00 am" is 00:00 |
| `TimeParsing.NoonExample` | src/app/app.component.ts:86-97 | "12:00 pm" is 12:00 |
| `TimeParsing.GluedMarkerExample` | src/app/app.component.ts:93 | "5:30pm" is 05:30: a marker glued to a digit is not standalone |
| `TimeParsing.LeftmostMatchExample` | src/app/app.component.ts:89 | "123:45" is 23:45: the leftmost match starts at the second digit |
| `TimeParsing.ErrorExamples` | src/app/app.component.ts:87-90 | "" fails with EmptyTime, "no time here" with InvalidFormat |
| `PrayerPeriods.DayPeriods` | src/app/app.component.ts:117-123 | the five periods, named in prayer order |
| `PrayerPeriods.PeriodAtNamesCoveringPeriod` | src/app/app.component.ts:126-134 | `PeriodAt`, the name the loop settles on: for any starts, the result is the name of a period whose [start, nextStart) holds now, or 'Isha' when no interval holds now |
| `PrayerPeriods.FirstCovering` | src/app/app.component.ts:127-134 | the first index whose [start, nextStart) holds now, with none before it, or the length when no index does |
| `PrayerPeriods.FindPeriod` | src/app/app.component.ts:126-134 | the loop starting from 'Isha' and breaking at the first interval that holds now returns PeriodAt |
| `PrayerPeriods.CoveringPeriodIsUnique` | src/app/app.component.ts:127-130 | with ascending starts, an interval that holds now excludes every other |
| `PrayerPeriods.PeriodAtIsCoveringPeriod` | src/app/app.component.ts:126-134 | with ascending starts, the result is the name of the one interval that holds now, and 'Isha' when none does |
| `PrayerPeriods.DayTimetable` | src/app/app.component.ts:114-134 | with ordered starts: Isha before Fajr, then Fajr, Dhuhr, Asr and Maghrib up to the next start, then Isha from the Isha start on |
| `PrayerPeriods.PeriodAtIsPrayerName` | src/app/app.component.ts:117-136 | whatever the starts, the current prayer is one of the five names |
| `PrayerPeriods.FastingIsDaytime` | src/app/app.component.ts:126-139 | with ordered starts, now is in [Fajr, Maghrib) iff the current period is Fajr, Dhuhr or Asr |
| `Display.BackgroundColor` | src/app/app.component.ts:142-156 | the colour is #000000 exactly for the names other than Fajr, Dhuhr, Asr and Maghrib (Isha and every unknown name) |
| `Display.Message` | src/app/app.component.ts:161-180 | the message is 'Awaiting the next prayer.' exactly for names other than the five prayers, the initial '—' included |
| `Display.StatusLine` | src/app/app.component.ts:182-183 | the ready text is never 'Loading...'; it is the prayer's message, then " — current prayer: ", then the prayer name |
| `Display.Status` | src/app/app.component.ts:158-184 | 'Loading...' iff the timings flag is set; otherwise message, " — current prayer: " and name |
| `Display.ColorsTellPeriodsApart` | src/app/app.component.ts:142-156 | two names with the same colour are equal, or both fall to the default |
| `App.ReadingsFollowPrayerOrder` | src/app/app.component.ts:101-105 | `Readings`, parseTime on the five strings in the order they are parsed: reading k is that of the prayer the classifier lists k-th (Fajr, Dhuhr, Asr, Maghrib, Isha) |
| `App.FirstError` | src/app/app.component.ts:100-106 | every reading before the index succeeds and the reading at the index fails; 5 when all succeed |
| `App.StoresReadablePrefix` | src/app/app.component.ts:100-106 | `Stored`, the five starts after the sequential assignments, for any five readings: start j becomes reading j when readings 0 to j all succeed, and keeps its old value when any of them fails |
| `App.FajrFailureStoresNothing` | src/app/app.component.ts:100-101 | an unreadable Fajr string leaves all five starts as they were |
| `App.ReadableTimingsReplaceAllStarts` | src/app/app.component.ts:100-106 | when all five strings parse, each start is its string's reading, whatever was stored before |
| `App.ReadTimings` | src/app/app.component.ts:100-114 | five readable strings store their five readings, and tomorrow's Fajr is one day after today's |
| `App.ExampleTimingsText` | src/app/app.component.ts:100-106 | the example record is "05:00", "12:30", "16:00", "19:00", "20:30" |
| `App.ExampleTimingsRead` | src/app/app.component.ts:100-106 | the example strings read as 05:00, 12:30, 16:00, 19:00 and 20:30 |
| `App.ExampleAt` | src/app/app.component.ts:36-47 | timings received while the clock shows now give the period and fasting flag of now |
| `App.ExampleDay` | src/app/app.component.ts:108-184 | with the starts 05:00, 12:30, 16:00, 19:00 and 20:30: at 13:00 it is Dhuhr, a fasting time, with Dhuhr's status line; at 21:00 and at 03:00 it is Isha and not a fasting time |
| `App.AppComponent.constructor` | src/app/app.component.ts:19-32 | the initial values: no starts, no timings, both loading flags set, '—', not fasting, tick count 0 |
| `App.AppComponent.UpdatePrayerTimesFromTimings` | src/app/app.component.ts:100-106 | the starts before the first unreadable string get their readings; that one and the later ones keep their values; the error is that string's |
| `App.AppComponent.UpdatePrayerState` | src/app/app.component.ts:108-140 | nothing changes while a start is missing, or when tomorrow's Fajr fails (the error escapes); otherwise currentPrayer is PeriodAt of currentTime, one of the five names, and isFasting is fajr <= now < maghrib |
| `App.AppComponent.OnTimingsReceived` | src/app/app.component.ts:36-47 | the record is stored, the starts are set as UpdatePrayerTimesFromTimings says, loading is false whatever failed, and the state is then classified |
| `App.AppComponent.OnTimingsFailed` | src/app/app.component.ts:48-51 | loading is cleared and nothing else changes |
| `App.AppComponent.OnRamadanDayReceived` | src/app/app.component.ts:56-60 | the day text is stored and ramadanLoading is cleared |
| `App.AppComponent.OnRamadanDayFailed` | src/app/app.component.ts:61-64 | ramadanLoading is cleared and nothing else changes |
| `App.AppComponent.Tick` | src/app/app.component.ts:68-75 | currentTime is the given now, the tick count goes up by one, and the state is classified |
| `App.AppComponent.GetBackgroundColor` | src/app/app.component.ts:142-156 | the default colour exactly when currentPrayer is not Fajr, Dhuhr, Asr or Maghrib |
| `App.AppComponent.GetStatus` | src/app/app.component.ts:158-184 | 'Loading...' iff loading, whatever ramadanLoading is; otherwise the status line of currentPrayer |

Two consequences of the code that the model keeps:
- `getStatus` tests only `loading`, the timings flag (app.component.ts:159). 'Loading...' therefore disappears once the timings request finishes, even while the day-label request is still pending.
- `updatePrayerState` parses tomorrow's Fajr from the stored record every time it runs (app.component.ts:114). The request in services/prayer.ts:13-17 is a single `HttpClient.get`, which emits once, so the `next` callback runs once as the source is wired. The model lets it run again. If a later record's Fajr string is unreadable, the start parses fail at Fajr and change nothing, and the parse of tomorrow's Fajr then throws before anything is written. The model returns that escaping error. If the later record's Fajr reads but a later field does not, nothing throws: the starts become the new Fajr and so on up to the failing field, the rest keep the old record's values, and the component is classified against that mixed set of starts.

## Left out

- src/app/services/prayer.ts (the two HTTP GET calls) is not part of this model. The model starts at the callbacks that receive their results.
- `ngOnInit`'s subscriptions and `window.setInterval` are not modelled; the model's methods are the callbacks they register. Nor are `ngOnDestroy`, `clearInterval`, or the never-assigned `clockSubscription`. The timer is an ambient scheduler with no logic of its own.
- `console.log`, `console.error` and `ChangeDetectorRef.detectChanges` are left out. They are output only.
- Reading the clock (`new Date()`), calendar dates, time zones and daylight saving time are left out. The clock readings are the parameters `now` and `today`, and the model assumes every day is 1440 minutes long.
- One call of a callback uses a single `today` for all its `parseTime` calls. The source reads the clock for each call, so the model does not capture a callback that straddles midnight.
- `now` is modelled to the minute, not the millisecond. The comparisons with whole-minute starts give the same result either way.
- Timings fields are modelled as strings. A field the JSON body lacks would be `undefined` in the source and fail the `!timeStr` test like the empty string.
- `Number` on the captured digits is modelled as the decimal value of the digits. That is exact for one or two ASCII digits.
- The template, styles, Angular dependency injection and the `Timings` model file are not part of this model.
