# Nalla Neram: the time-classification core, in Dafny

A model of the pure core of the Nalla Neram day table, which lists auspicious
times for a Tamil day (`scripts/functions.js`). Three parts are modelled:

- **Clock utilities.** These cover parsing `"H"` / `"H:M"` clock strings, the
  zero-padded 24-hour and 12-hour labels, and the weekday shift for times
  before 06:00. They are in `clock.dfy`, module `Clock`.
- **The interval resolver.** `getOrai`, `getGowriPanchangam` and
  `getAsubhaKaalam` are one algorithm over three tables, so it is written
  once (`resolver.dfy`, module `Resolver`). The algorithm:
  - select the day or night bucket of the Tamil day;
  - reduce the time by 12 hours when it is past 12;
  - return the first interval key, in stored order, that covers the time.

  A key whose start lies after its end wraps round the 12-hour boundary.
- **The table pass of `prepareTable`, without its DOM.** This is in
  `runs.dfy` (module `Runs`) and `timeline.dfy` (module `Timeline`).
  - There are 48 half-hour slots from 06:00.
  - Each slot is resolved against the three tables.
  - Each column becomes row-spanning cells: a new cell opens whenever the
    name changes.
  - The returned list holds the slots whose Orai, Gowri Panchangam and
    Asubha Kaalam types are all subham.
  - `LayoutOf` states the table as whole-sequence pieces: classify every
    slot, run-length each column, filter the slots.
  - `PrepareTable` is the single pass of the original. It carries the
    previous names, the open cells and the Asubha Kaalam type from slot to
    slot, and it is proved to compute `LayoutOf`.

`wrappers.dfy` holds `Option` and `Result`. `None` stands for JavaScript
`null`; `Err` stands for the exception the original raises.

All times are integer minutes. `Math.floor(time)` in hours is `t / 60`, and
the test `time > 12` is `t > 720`.

Integer minutes lose nothing here:
- Slot starts are multiples of 30 minutes, which are exact in binary
  floating point.
- Table endpoints differ from slot starts by whole minutes.
- An hour-and-minute value computed the same way on both sides of a
  comparison rounds the same way.

So every comparison and the 12-hour reduction decide as they do on fractional
hours.

### Behaviour of the code worth knowing

- **Orai and Gowri Panchangam with no match.** The code dereferences a
  `null` Orai or Gowri Panchangam result without a check
  (`scripts/functions.js:251-252`, `265-266`), so the whole table throws.
  The model returns `Err` with the first failing slot.
- **Asubha Kaalam with no match.** The code shows a `null` result as `'-'`
  and counts it as subham (`scripts/functions.js:279`, `283`). Any match
  counts as asubham, whatever the entry's own type.
- **When the Asubha Kaalam type changes.** The type is recomputed only when
  its column opens a new cell. A matched entry that is itself named `'-'`
  therefore joins a preceding no-match cell and keeps the subham type.
  `Timeline.DashNamedEntryKeepsSubham` exhibits this.

## Model

| member | source | states |
|---|---|---|
| Clock.Decimal | scripts/functions.js:73 | `String(n)` of a non-negative integer is a digit string whose decimal value is `n`; it has one digit exactly when `n < 10` and two for `10..99` |
| Clock.Pad2 | scripts/functions.js:73 | `String(n).padStart(2, 0)` for `n < 100` is exactly two digits whose value is `n` |
| Clock.Split | scripts/functions.js:61 | `split(':')` yields at least one piece and no piece contains the separator |
| Clock.JoinSplit | scripts/functions.js:61 | joining the pieces of `split` with the separator restores the original string |
| Clock.HourOnly | scripts/functions.js:60-63 | an hour-only string parses to that many whole hours (minute defaults to 0) and a non-numeric hour makes the result unparsable |
| Clock.TimeToMinutes | scripts/functions.js:60-63 | the time parses exactly when the hour field, and the minute field when present, are digit strings (otherwise `Number` gives NaN); a parsed time is never negative |
| Clock.HourMinute | scripts/functions.js:60-63 | `"H:M"` with numeric fields parses to `60*H + M` minutes |
| Clock.ClockTextParses | scripts/functions.js:60-74 | the zero-padded `"HH:MM"` text of an hour and minute parses back to `60*hour + minute` |
| Clock.Format24 | scripts/functions.js:70-74 | the 24-hour label is five characters `HH:MM` whose hour digits read `(t div 60) mod 24` and minute digits read `t mod 60` |
| Clock.Format24RoundTrip | scripts/functions.js:60-74 | parsing the 24-hour label of `t` back gives exactly `t mod 1440` minutes |
| Clock.Format12 | scripts/functions.js:81-90 | the 12-hour hour is in 1..12 and agrees with `hour24 mod 12` (0 shown as 12), the minute is `t mod 60`, and the period is day iff `6 <= hour24 < 18` |
| Clock.Label12 | scripts/functions.js:85-89 | the label is the period word, a space, two digits reading the 12-hour hour, `:`, and two digits reading the minute; the clock part parses back to `60*hour + minute` |
| Clock.Hour24 | scripts/functions.js:82-85 | period and 12-hour hour determine a unique 24-hour hour in 0..23 with that period and residue mod 12 |
| Clock.Format12RoundTrip | scripts/functions.js:81-90 | period, 12-hour hour and minute recover the minute of the day `t mod 1440` |
| Clock.Format12Injective | scripts/functions.js:81-90 | two minute counts with the same 12-hour label fall on the same minute of the day |
| Clock.TamilDayIndex | scripts/functions.js:48-53 | for weekday index 0..6 the result stays in 0..6; it is unchanged from 06:00 on, and before 06:00 it is the previous weekday with 0 wrapping to 6 |
| Resolver.Reduce12 | scripts/functions.js:114 | 12 hours are subtracted exactly when the time is strictly past 12 hours, otherwise the time is unchanged; a time in 0..24 hours lands in 0..12 hours |
| Resolver.PeriodAt | scripts/functions.js:102-105 | the day bucket is chosen exactly for times from 06:00 up to but excluding 18:00 (minutes 360..1079), the night bucket otherwise |
| Resolver.Covers | scripts/functions.js:117-119 | an ordinary key covers the half-open interval from its start to its end; a wraparound key covers every time outside the gap from its end up to its start |
| Resolver.ScanFrom | scripts/functions.js:109-120 | the key loop returns the first position from its start whose key covers the reduced time, or no position when none covers it (times up to 24 hours) |
| Resolver.Resolve | scripts/functions.js:98-125 | `null` when the day or the day/night bucket chosen by `6 <= floor(hour) < 18` is absent; otherwise the entry of the first covering key, and `null` iff no key covers the reduced time |
| Resolver.ResolveTheOnlyCover | scripts/functions.js:109-124 | when exactly one key of the chosen bucket covers the time, that key's entry is returned regardless of stored order |
| Resolver.WraparoundExample | scripts/functions.js:117-118 | a wraparound key 10:00-4:00 in a night bucket matches 23:30 and 02:00 but not 21:00 |
| Resolver.ReductionRepeatsPastOneDay | scripts/functions.js:114 | because the reduction sits inside the loop, a time past 24 hours is reduced again at each key (from 30:00 the second key is compared with 06:00) |
| Runs.RunStart | scripts/functions.js:253 | the slot opening the cell of slot `i` is a slot at or before `i` where the name changed (or slot 0), and every slot from it to `i` carries the same name |
| Runs.Place | scripts/functions.js:253-261 | one column step ends with a cell of the slot's name; a repeated name keeps the open cell's class, a new name takes the slot's class; the total span grows by one and neighbouring cells stay distinct |
| Runs.RunLength | scripts/functions.js:250-261 | the cells of a column are non-empty iff the column is, spans are positive and sum to the slot count, neighbouring cells differ in name, and the last cell carries the last name with the class of its opening slot |
| Runs.ExpandRunLength | scripts/functions.js:250-289 | expanding each cell over its row span restores every slot's name in order, each with the class of the slot that opened its cell |
| Runs.CellsAreMaximalRuns | scripts/functions.js:250-289 | each cell is a maximal run of equal names: spans sum to the slot count, neighbours differ, and slot `i` lies in a cell of its own name |
| Timeline.SlotsTileTheDay | scripts/functions.js:235-236 | the 48 half-hour slots from 06:00 cover every minute of 06:00 to 06:00 next day, no other minute, and no minute twice |
| Timeline.SlotStartsDistinct | scripts/functions.js:236 | different slots start at different minutes of the day |
| Timeline.SlotTimeFromLabel | scripts/functions.js:237-239 | printing a slot start as a 24-hour label and parsing it back yields the slot's minute of the day |
| Timeline.SlotPeriods | scripts/functions.js:235-239 | slot times lie within one day; slots 0..23 read the day buckets and 24..47 the night buckets |
| Timeline.ClassifySlot | scripts/functions.js:250-266 | a slot fails exactly when its Orai or Gowri Panchangam lookup is `null`; the failure names the slot, and it is an Orai failure exactly when the Orai lookup is `null` (Orai is looked up first) |
| Timeline.Collect | scripts/functions.js:235-266 | the slots are collected iff every lookup succeeded, in order and one per slot; otherwise the failure is that of the first failing slot |
| Timeline.CollectErrPersists | scripts/functions.js:235-266 | once a slot throws, later slots do not change the outcome |
| Timeline.LayoutWhenAllResolve | scripts/functions.js:250-266 | the table is built when every slot's Orai and Gowri Panchangam lookups succeed |
| Timeline.NoLayoutWhenOneFails | scripts/functions.js:250-266 | a single slot with a `null` Orai or Gowri Panchangam result makes the whole table fail |
| Timeline.LayoutFailsAtFirstUnresolved | scripts/functions.js:250-266 | the reported failure is the first slot whose lookups fail, with every earlier slot resolved |
| Timeline.AsubhaName | scripts/functions.js:279 | a `null` Asubha Kaalam result shows as `'-'`, and a name is `'-'` only for `null` or an entry itself named `'-'` |
| Timeline.AsubhaColumn | scripts/functions.js:279-283 | one entry per slot; a slot whose Asubha Kaalam lookup counts as subham always shows `'-'` |
| Timeline.Auspicious | scripts/functions.js:295 | an auspicious slot has subham Orai and Gowri Panchangam entries and always shows `'-'` in the Asubha Kaalam column |
| Timeline.Windows | scripts/functions.js:294-303 | the list never has more entries than slots walked |
| Timeline.WindowsMembers | scripts/functions.js:294-303 | an entry is in the returned list iff it is the entry of some auspicious slot |
| Timeline.WindowsIff | scripts/functions.js:294-303 | a slot's entry (its 12-hour start and end and three names) is listed iff its current Orai and Gowri types are subham and the Asubha Kaalam type of its cell is subham |
| Timeline.WindowsCount | scripts/functions.js:294-303 | the list has exactly as many entries as there are auspicious slots |
| Timeline.WindowsPrefix | scripts/functions.js:294-303 | the entries are in slot order: the entries of the first `n` slots form a prefix of the list |
| Timeline.AsubhaTypeWithoutDashNames | scripts/functions.js:279-283 | when no Asubha Kaalam entry is named `'-'`, a slot's Asubha type is subham exactly when its own lookup returned `null` |
| Timeline.DashNamedEntryKeepsSubham | scripts/functions.js:279-289 | an entry named `'-'` after a no-match slot joins its cell and keeps the subham type although it matched |
| Timeline.LayoutOf | scripts/functions.js:235-303 | the table is built exactly when the slots classify (every lookup result is collected, see `Timeline.Collect`); in a built table each column's row spans sum to 48 and the list has at most 48 entries |
| Timeline.PlaceCell | scripts/functions.js:253-261 | the column step of the loop performs the walk step: a new cell iff the name differs from the previous slot's (or there is none), otherwise the open cell's row span grows by one |
| Timeline.PlaceColumn | scripts/functions.js:250-275 | an Orai or Gowri Panchangam column step keeps the cells and previous name equal to those of the slots walked so far |
| Timeline.PlaceAsubha | scripts/functions.js:278-289 | the Asubha Kaalam step, recomputing the type only on a new cell, leaves the type of the slot that opened the current cell |
| Timeline.ResolveSlot | scripts/functions.js:237-279 | the three lookups at the time read back from the slot's 24-hour label give the slot's classification, failing on a `null` Orai or Gowri result |
| Timeline.StepCells | scripts/functions.js:250-289 | placing one slot in all three columns keeps the carried cells, names and Asubha type in line with the slots walked |
| Timeline.Step | scripts/functions.js:250-303 | one loop body keeps the carried state, including the list, in line with the slots walked |
| Timeline.Advance | scripts/functions.js:235-303 | one loop iteration either fails with the failure that decides the whole table or extends the walk by one slot |
| Timeline.PrepareTable | scripts/functions.js:202-308 | the single pass computes exactly the whole-sequence table: the three run-length columns and the auspicious list, or the first slot's failure |

## Left out

- The DOM work of `prepareTable` is not modelled: creating rows and cells,
  setting text and CSS classes, clearing the body. Each cell's text and class
  are kept as data in `Runs.Cell`.
- `prepareAuspiciousTimeSlots` is not modelled: it only renders the list.
- `scripts/main.js` is not modelled: it binds events, picks the initial day
  from the clock and toggles classes.
- `convertMixedUnicodeToText` is not modelled. It is the identity on every
  literal it is applied to, so the tables are taken as already decoded text.
- The data tables are not part of this model. They are taken as parameters:
  - `oraiData`, `gowriPanchangamData` and `asubhaKaalamData` as `Timeline.Tables`;
  - `tamilDays` is replaced by the weekday index.
- The model takes each interval key as already split at `-` and read as
  minutes (`Resolver.Entry`). Keys that do not parse are out of scope.
- The entry type string is modelled as a two-valued kind. Any string other
  than the subham word counts as asubham, as the comparison in the code
  does.
- The `interval` field of a resolver result is carried as the entry's start
  and end, not as the key text.
- Bucket order: a JavaScript `for ... in` visits these non-numeric keys in
  insertion order. Buckets are therefore sequences in stored order.
- `tEnd` (`scripts/functions.js:238`) is computed and never used. It has no
  counterpart in the model.
- Resolver.Resolve: the first-match characterisation is stated only for
  times up to 24 hours. Beyond that the original's reduction inside the loop
  subtracts 12 hours again at every key; `Resolver.ReductionRepeatsPastOneDay`
  shows this. The table loop only asks for times within one day.
- Resolver.ScanFrom: its contract likewise covers times up to 24 hours only.
- Clock.TimeToMinutes: it reads only digit strings, with the empty string as
  0 as in JavaScript. Other spellings that `Number` accepts are reported as
  unparsable instead of read: whitespace, signs, fractions, exponents, hex.
  None of them occurs in clock labels.
- Clock.Format24 and Clock.Format12: they take non-negative minute counts
  (`nat`). JavaScript's `%` on a negative count gives a negative hour that
  is not modelled.
- Clock.TamilDayIndex: it returns the weekday index, not the name looked up
  in `tamilDays`. For an index outside 0..6 it only promises the unchanged
  index from 06:00 on.
- Clock.Label12: it renders the 12-hour label from the structured
  `Clock12`. The windows keep the structured form.
