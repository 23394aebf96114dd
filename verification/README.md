# Praise FM player: schedule, progress and now-playing model

A Dafny model of the logic core of `ToucanPlayer.js`, the web-radio player widget
of the Praise FM station. It covers these parts:

- **Schedule resolver** (`getCurrentAndNext`). From the weekly schedule, the day of the
  week and the minute of the day, it finds the program on air. Where slots overlap, it
  takes the slot ending latest, and the earliest declared slot wins a tie. It also gives
  the next two programs: today's later programs, or tomorrow's (moved one day later) when
  nothing is left today. The list is sorted by start, with positional fallbacks to the
  first two declared slots.
- **Progress** (`updateProgramProgress`). The integer arithmetic: the program's length,
  the minutes it has run, and the two "M:SS" labels.
- **Display helpers**. `timeToMins`, `formatTime`, `formatRange` and `formatProgramName`.
- **Now playing** (`processMetadata` and the metadata listener). Splitting the stream
  title into artist and title, the advertisement test, and the recently-played list. The
  list keeps at most four distinct tracks, newest first.

Modules, one per file:

| file | module | contents |
|---|---|---|
| `text.dfy` | `Text` | decimal texts, substring search, "H:M" clock texts, `toLowerCase`, `trim`, `split`/`join` |
| `schedule.dfy` | `Schedule` | slots, the resolver, the stable sort of the upcoming list |
| `format.dfy` | `Format` | `formatTime`, `formatRange`, `formatProgramName` |
| `progress.dfy` | `Progress` | the progress arithmetic and its labels |
| `metadata.dfy` | `Metadata` | advertisement test, recently-played list, stream-title split |
| `station.dfy` | `Station` | the station's twelve-slot schedule and the resolver's answers at a few moments |

The clock is a parameter everywhere. `Day` is 0 (Sunday) to 6. `Minute` is 0 to 1439,
the minute that `timeToMins(now.toTimeString().slice(0,5))` yields (`Text.ClockTextRoundTrip`).

A slot's start and end are held as `TimeText`:

- `Blank` stands for a missing or empty text.
- `Clock(HourMinute(h, m))` holds the two numbers that `split(":").map(Number)` reads
  from an "H:M" text.
- `Schedule.ReadTimeText` ties strings to this form.

Some consequences of the code are worth spelling out:

- **Wrapping slots after midnight.** The comments at `ToucanPlayer.js:110` and `:158`
  say the code handles programs that pass midnight. Yet a slot whose end is not after its
  start is never current after midnight: the minute never reaches 1440, so only the part
  before midnight can match (`Schedule.WrapSlotBeforeMidnightOnly`).
- **Elapsed time.** The code counts elapsed minutes from the start only inside
  `[start, effective end)`, and as `n + 1440 - start` otherwise. For a wrapping slot the
  effective end lies beyond every minute of the day, so the test reduces to
  `n >= start` (`Progress.WrappingElapsed`). For a slot that does not wrap, a minute at
  or after its end also takes the second formula; the resolver never hands such a slot
  over at such a minute, but the second clock reading can (see "## Findings").
- **Zero-length slots.** The length is never 0: an end equal to the start moves a whole
  day on (`Progress.ArithmeticBounds`).
- **The `Live` branch.** The placeholder program carries "00:00" times, so the `Live`
  branch of the progress code is never taken (`Progress.ProgressNow`).

## Model

| member | source | states |
|---|---|---|
| Text.ClockTextRoundTrip | ToucanPlayer.js:102 | the "HH:MM" text of a clock minute reads back through `timeToMins` as that minute, so the resolver's minute is in 0..1439 |
| Text.NatTextRoundTrip | ToucanPlayer.js:72 | the decimal text of a number reads back as the number |
| Text.Pad2RoundTrip | ToucanPlayer.js:72 | `padStart(2, '0')` of a number reads back as the number |
| Text.ParseJoined | ToucanPlayer.js:63-66 | digits, a colon and digits read as the two numbers `split(":").map(Number)` gives |
| Text.Trim | ToucanPlayer.js:78 | `trim` keeps a contiguous middle part of the text, and the dropped ends are white space |
| Text.JoinSplit | ToucanPlayer.js:347-349 | joining the pieces of a split with the same separator gives the text back |
| Schedule.ReadTimeText | ToucanPlayer.js:63-66 | only the empty text reads as `Blank`, and a text that reads as a clock is digits, a colon and digits |
| Schedule.ReadTimeTextJoined | ToucanPlayer.js:63-66 | digits, a colon and digits read as the clock of the two numbers, and `timeToMins` of the text is `h * 60 + m` |
| Schedule.Winner | ToucanPlayer.js:106-119 | the loop's `current` is None exactly when no slot is on air; otherwise it is on air, no slot on air ends later, and every earlier declared slot on air ends strictly earlier |
| Schedule.CurrentIsUnique | ToucanPlayer.js:106-119 | the loop picks slot `k` if and only if `k` is the latest-ending slot on air, the first declared among equal ends |
| Schedule.Resolve | ToucanPlayer.js:99-142 | `current` is the placeholder or the slot `IsCurrent` describes, and the placeholder whenever no slot is on air |
| Schedule.CurrentIsResolved | ToucanPlayer.js:106-137 | when slot `k` is the one `IsCurrent` describes, `current` is that slot |
| Schedule.OnAirGivesSlot | ToucanPlayer.js:106-137 | when any slot is on air, `current` is a slot of the schedule that `IsCurrent` describes, not the placeholder |
| Schedule.DayFilter | ToucanPlayer.js:107 | a slot whose day list leaves out today is never current and never among today's upcoming programs; tomorrow's entries all play tomorrow |
| Schedule.WrapSlotBeforeMidnightOnly | ToucanPlayer.js:108-114 | a slot with end not after start is on air exactly from its start to the end of the day |
| Schedule.Today | ToucanPlayer.js:122 | today's entries are exactly the slots playing today that start after the minute, with their start |
| Schedule.Tomorrow | ToucanPlayer.js:126-131 | tomorrow's entries are exactly the slots playing on the next day, with their start plus 1440 |
| Schedule.Insert | ToucanPlayer.js:134 | inserting into a sorted list keeps it sorted and adds exactly the one entry |
| Schedule.SortByStart | ToucanPlayer.js:134 | the sorted list is ordered by start and a permutation of the input |
| Schedule.SortIsStable | ToucanPlayer.js:134 | entries with equal starts keep their relative order, as the stable JavaScript sort keeps them |
| Schedule.UpcomingShape | ToucanPlayer.js:121-134 | the `future` list is sorted; it is a permutation of today's later programs when there are any, otherwise of all of tomorrow's |
| Schedule.NextIsEarliestToday | ToucanPlayer.js:121-139 | when a program of today starts later, `next1` is such a program and none of them starts earlier |
| Schedule.NextIsEarliestTomorrow | ToucanPlayer.js:125-139 | when none of today's programs starts later, `next1` is a program of tomorrow and none of tomorrow's starts earlier |
| Schedule.NextPair | ToucanPlayer.js:134-140 | `next1` and `next2` are the first two entries of the `future` list, the earliest and the earliest of the rest; with one entry only `next2` falls back to the second declared slot, with none both fall back to the first two |
| Schedule.NextTwoEarliest | ToucanPlayer.js:134-140 | with one entry `next2` is the second declared slot; with two or more, `next1` starts no later than any entry and `next2` no later than any entry but the first |
| Schedule.NoneLeft | ToucanPlayer.js:124-140 | with no program later today and none tomorrow, the `future` list is empty and `next1`, `next2` are the first two declared slots |
| Schedule.NextInOrder | ToucanPlayer.js:134-140 | with two entries in the `future` list, `next1` and `next2` are programs with times and `next1` starts no later than `next2` |
| Format.FormatTimeRoundTrip | ToucanPlayer.js:69-73 | "M:SS" of a number of seconds reads back as those seconds |
| Format.FormatTimeExample | ToucanPlayer.js:69-73 | 125 seconds show as "2:05" |
| Format.TwelveHourClock | ToucanPlayer.js:90-94 | the 12-hour hour is in 1..12, "PM" exactly from noon, and the pair gives the 24-hour hour back |
| Format.Clock12Value | ToucanPlayer.js:88-95 | the hour and minute read back from the 12-hour hour text, the padded minute text and the suffix give the minute of the day |
| Format.Clock12RoundTrip | ToucanPlayer.js:88-95 | one end of the range reads back as its minute of the day |
| Format.FormatRangeRoundTrip | ToucanPlayer.js:87-96 | the range splits at " - " into two ends reading back as the slot's start and end |
| Format.FormatRangeExample | ToucanPlayer.js:87-96 | 13:05 to 01:00 shows as "1:05 PM - 1:00 AM" |
| Format.TagFrom | ToucanPlayer.js:78 | the regular expression matches at the leftmost position where a parenthesised tag runs to the end of the name |
| Format.UntaggedKept | ToucanPlayer.js:78 | a name not ending with ")" loses nothing to the tag removal |
| Format.ProgramNameShape | ToucanPlayer.js:76-84 | the shown name starts with the base name; it is exactly the base name iff that is in the own-name list; otherwise the host is credited, or the station without one |
| Format.MissingProgramName | ToucanPlayer.js:77 | a missing program shows "Praise FM" |
| Format.FallbackProgramName | ToucanPlayer.js:77-83 | the placeholder program shows "Praise FM With Praise FM" |
| Progress.ArithmeticBounds | ToucanPlayer.js:154-162 | for times within the day the length is 1..1440 minutes, elapsed is never negative, and elapsed is below the length exactly inside the span or after midnight in a wrapping slot |
| Progress.ProgressBounds | ToucanPlayer.js:153-162 | the same, stated for a slot: the length is the span to the resolver's effective end, so `total > 0` always holds |
| Progress.WrappingElapsed | ToucanPlayer.js:157-161 | for a span past midnight the minutes run are `n - start` exactly when `n` is not before the start, and `n + 1440 - start` otherwise |
| Progress.FallbackProgress | ToucanPlayer.js:153-162 | the placeholder at minute `n` has run `n` of 1440 minutes |
| Progress.OnAirProgress | ToucanPlayer.js:153-162 | a program on air has run the minutes since its start, of its whole span |
| Progress.ProgressNow | ToucanPlayer.js:145-162 | with one reading of the clock, elapsed is in `[0, total)` and the `Live` branch is never taken |
| Progress.ProgressTwoReads | ToucanPlayer.js:145-162 | the code as written, with two readings of the clock, agrees with the single-reading progress when both read the same minute |
| Progress.TwoReadsOverrun | ToucanPlayer.js:145-162 | a minute turning between the two readings at the end of Midday Grace yields 1680 minutes run of 240 |
| Progress.ProgressLabels | ToucanPlayer.js:169-170 | the two labels read back as elapsed and total times 60 seconds; "--:--" and "Live" on the `Live` branch |
| Metadata.Remember | ToucanPlayer.js:217-218 | the new entry goes first, the old entries follow in order, and a list of at most four stays at most four |
| Metadata.ProcessMetadata | ToucanPlayer.js:203-218 | an advertisement clears the track and keeps the list; any other track is shown and afterwards listed; a listed key leaves the list unchanged; a new key goes first and the oldest falls off beyond four |
| Metadata.RecentsStayWellKept | ToucanPlayer.js:213-218 | at most four entries, each keyed by its own artist and title, with distinct keys, stays so |
| Metadata.NewestStep | ToucanPlayer.js:216-218 | one more announcement puts its entry first and keeps the newest three before it |
| Metadata.FeedKeepsNewest | ToucanPlayer.js:203-218 | from an empty list, distinct non-advertisement tracks leave exactly the newest four, newest first |
| Metadata.RepeatKeepsOrder | ToucanPlayer.js:213-216 | announcing a listed track again leaves the list as it was |
| Metadata.KeyCollision | ToucanPlayer.js:213 | "a-b" by "c" and "a" by "b-c" share one key |
| Metadata.AdInsideWord | ToucanPlayer.js:206 | "Made A Way" is taken for an advertisement |
| Metadata.IsAdMeans | ToucanPlayer.js:206 | a title is an advertisement exactly when it spells "commercial" or "ad" at some position in any letter case |
| Metadata.CommercialAnyCase | ToucanPlayer.js:206 | a title holding "commercial" in any letter case is an advertisement |
| Text.ContainsMeans | ToucanPlayer.js:206 | `includes` holds exactly when the pattern occurs at some position |
| Metadata.StreamTitleParts | ToucanPlayer.js:347-349 | the artist is the text before the first " - " and the title all after it; without one the title is empty |
| Metadata.SplitTail | ToucanPlayer.js:347-349 | the pieces after the first join back into the text after the first separator |
| Metadata.StreamTitleRoundTrip | ToucanPlayer.js:347-349 | artist, separator and title give the stream title back, and the artist holds no separator |
| Metadata.OnStreamTitle | ToucanPlayer.js:346-349 | an empty stream title changes nothing; otherwise, unless the title part is an advertisement, the shown artist and title rebuild it; an advertisement title clears the track and keeps the list |
| Station.WeekIsValid | ToucanPlayer.js:37-50 | every slot of the station's schedule has clock times |
| Station.PaddedTimeText | ToucanPlayer.js:38-49 | a time written as two digits, a colon and two digits, as every time of the table is, reads as `At` of its two numbers |
| Station.OnlyOnAir | ToucanPlayer.js:106-119 | when exactly one slot is on air, it is the current program |
| Station.SundayEvening | ToucanPlayer.js:47-48 | at 20:30 on Sunday the one-minute magazine is current |
| Station.MondayEvening | ToucanPlayer.js:47-48 | at 20:30 on Monday the non-stop hour is current |
| Station.OnlyNextToday | ToucanPlayer.js:121-139 | the only later slot of the day with the earliest start is `next1` |
| Station.SundayMorningNext | ToucanPlayer.js:40-41 | at 06:30 on Sunday the next program is Sunday With Christ, not the weekday Morning Show |
| Station.WednesdayLate | ToucanPlayer.js:49 | at 21:40 on Wednesday the slot running to midnight is current |
| Station.OnlyNextTomorrow | ToucanPlayer.js:125-139 | with nothing left today, the only earliest slot of tomorrow is `next1` |
| Station.WednesdayLateNext | ToucanPlayer.js:125-139 | at 21:40 on Wednesday the next program is Thursday's Midnight Grace |
| Station.LateWorshipRange | ToucanPlayer.js:87-96 | the 21:30 to 00:00 slot shows as "9:30 PM - 12:00 AM" |

## Left out

- The clock: `getTime` and its time-zone conversion are left out. The day and the minute are parameters.
- `Date.now()` is left out. The track's start time is a parameter.
- `fetchAlbumCover` is left out, because it is a network lookup. Its result is the `cover` parameter.
- Timers, the `EventSource` connection and JSON parsing are left out. So are the DOM updates, audio playback and volume.
- The progress percentage and the styles built from it are left out, because they are floating point.
- Schedule texts other than digits, a colon and digits are left out. JavaScript reads some of them as numbers (":30" as 30) and others as NaN; `Schedule.ValidSchedule` excludes them.
- Stream-title values that are not strings are left out.
- The interleaving of concurrent `processMetadata` calls across the `await` of the cover lookup is left out. Each call is modelled as atomic.
- Host-name lookups of inherited object properties (a program named "toString") are left out. `hosts` is a map.
- Text.Lower: lower-cases A to Z only. No other character lower-cases to a letter of "commercial" or "ad" alone; "İ" becomes "i" followed by a combining dot, which cannot complete either word.
- The placeholder program has no description, and the model gives it "".

## Findings

| source | as written | input that shows it | evidently intended | confidence | as-written member | corrected member |
|---|---|---|---|---|---|---|
| ToucanPlayer.js:146-162 | The current program comes from one clock reading inside `getCurrentAndNext`, and the minute `n` comes from a second reading. | Midday Grace (12:00 to 16:00): the first reading is 15:59 and the second is 16:00, which gives elapsed 1680 of total 240 (a 700% bar) | one reading of the clock for both, so elapsed stays in `[0, total)` | low, not executed | Progress.ProgressTwoReads (shown by Progress.TwoReadsOverrun) | Progress.ProgressNow |
