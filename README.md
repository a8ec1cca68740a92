# Analytics state: opportunity windows and last-sent days

This project models the analytics gating state of the Immuni iOS app
(`App/State/AnalyticsState.swift`). The app can send two analytics signals, an
event *with* exposure and an event *without* exposure. Each may be sent at most
once per calendar day. The signal without exposure may also be sent only
inside an *opportunity window*. That window is a half-open span of time that
opens at the first UTC midnight of a month plus a signed shift and lasts a
given number of seconds.

Three files make up the model:

- `Calendar.dfy` holds the collaborators the core uses but does not define.
  - `CalendarMonth` and `CalendarDay` are opaque types.
  - The `CalendarOps` datatype carries the month-start function
    (`utcTimeIntervalSince1970`), `calendarDay`, `utcCalendarMonth` and the
    instant `Date.distantPast`. Every operation that needs them takes one as a
    parameter.
- `SwiftRange.dfy` (module `SwiftRange`) models Swift's half-open `start ..< finish`. It is a
  subset type whose lower bound is at most its upper bound, because Swift
  traps when asked to build any other range.
- `AnalyticsState.dfy` (module `Analytics`) models the source file itself.
  - `OpportunityWindow` is a datatype whose duration defaults to
    `SecondsInDay` (86400).
  - `Contains` is the window's `contains`.
  - `DistantPastWindow` is the `distantPast` sentinel.
  - `AnalyticsState` is the record, and `DefaultState` builds it with its
    default values.
  - The rest of the module is lemmas about these.

Timestamps are seconds since 1970-01-01 UTC, modelled as exact `real`s.

`contains` (lines 53-58) declares no error. Line 57, however, builds
`start ..< finish`, and Swift traps there when `windowDuration` is negative.
`Contains` therefore requires `windowDuration >= 0`. The initializer still
accepts any duration.

Nothing in the file tiles, stretches or splits a window. `SplitAt`,
`StretchedIsUnionOfTiles` and `TilesDisjoint` are derived consequences of the
half-open test at lines 55-57. They show that back-to-back windows, such as the
one-day windows of consecutive days, cover a longer window exactly and never
share an instant: the closing instant of one belongs only to the next.
`Tile`, `Stretched`, `StretchedEndsWithTile`, `NonNegativeProduct` and
`ProductStep` are helpers for those proofs.

## Model

| member | source | states |
|---|---|---|
| `Analytics.Contains` | App/State/AnalyticsState.swift:53-58 | the window contains `date` exactly when month start + shift <= date < month start + shift + duration; a positive duration is needed for any date to be contained; defined only for duration >= 0, since Swift's `..<` traps otherwise |
| `Analytics.DistantPastWindow` | App/State/AnalyticsState.swift:64-66 | the sentinel is anchored at the UTC month of `Date.distantPast`, with shift 0 and duration 0, and contains no instant, `Date.distantPast` included |
| `Analytics.DefaultState` | App/State/AnalyticsState.swift:20-29 | a default state has both last-sent days equal to the calendar day of `Date.distantPast`; its window is the sentinel, is safe to query and contains no possible "now" |
| `Analytics.InitStoresArguments` | App/State/AnalyticsState.swift:35-50 | the initializer stores month, shift and duration verbatim; an omitted duration is 86400 seconds; the window then opens at month start + shift |
| `Analytics.NegativeShiftOpensBeforeMonth` | App/State/AnalyticsState.swift:46-57 | a negative shift is not clamped: the one-day window opens before its month starts and contains that opening instant |
| `Analytics.ContainsOwnStart` | App/State/AnalyticsState.swift:55-57 | the lower bound is inclusive: a window of positive duration contains its own opening instant |
| `Analytics.ContainsUpToFinish` | App/State/AnalyticsState.swift:55-57 | a window of positive duration D contains start + D - e for every e with 0 < e <= D, however close to the closing instant |
| `Analytics.ExcludesFinishAndEarlier` | App/State/AnalyticsState.swift:56-57 | the upper bound is exclusive: no window contains start + duration, or any instant before start |
| `Analytics.ZeroDurationIsEmpty` | App/State/AnalyticsState.swift:56-57 | a window of duration 0 contains no instant |
| `Analytics.InhabitedIffPositiveDuration` | App/State/AnalyticsState.swift:55-57 | some instant lies in a window if and only if its duration is positive |
| `Analytics.TranslationInvariant` | App/State/AnalyticsState.swift:55-57 | adding k to the shift and k to the date leaves the result of `contains` unchanged |
| `Analytics.SplitAt` | App/State/AnalyticsState.swift:55-57 | cutting a window a seconds after it opens gives a head and a tail whose union is the window and which share no instant |
| `Analytics.StretchedIsUnionOfTiles` | App/State/AnalyticsState.swift:55-57 | a window n durations long contains a date exactly when one of the n back-to-back windows of the original duration does (proved by induction on n) |
| `Analytics.TilesDisjoint` | App/State/AnalyticsState.swift:55-57 | two different back-to-back windows of the same duration never contain the same instant |
| `Analytics.HourShiftScenario` | App/State/AnalyticsState.swift:53-58 | with shift 3600 and duration 7200, month start + 3600 and + 5000 are in, and month start and + 10800 are out |
| `Analytics.NegativeShiftScenario` | App/State/AnalyticsState.swift:46-57 | with shift -100 and duration 86400, month start - 50 is in, and the closing instant is out |

## Left out

- `Codable` encoding and decoding of both types (lines 20 and 34): the compiler synthesises it, so there is no visible code to model, and the encodings of `CalendarDay` and `CalendarMonth` are defined in the `Models` module, which is not part of this model.
- `Equatable` on `OpportunityWindow` (line 34): Dafny's structural datatype equality plays its role. The model states no property of it.
- The computation of `CalendarDay`, `CalendarMonth`, `calendarDay`, `utcCalendarMonth` and `utcTimeIntervalSince1970` from wall-clock time: this is calendar and timezone logic in the `Models` module. These are uninterpreted values of the `CalendarOps` datatype.
- The numeric value of `Date.distantPast`: it is a Foundation constant and not in the source. It is a field of `CalendarOps`, and no property depends on its value.
- `Double` rounding of `TimeInterval` arithmetic, NaN and infinities: timestamps are exact reals, so `start + windowDuration` never rounds.
- The scheduler that reads the state and assigns its fields, the random choice of new windows, and the network submission of analytics: none of them is in this file. Replacing a field is a datatype update, and nothing in the file constrains it.
- Analytics.DistantPastWindow: line 65 declares `distantPast` as a `static var`, a mutable global initialised on first use, and `AnalyticsState()` (line 28) reads whatever it holds then. The model treats it as the constant its initializer gives, assuming no code reassigns it; the guarantees of `DefaultState` that its window contains nothing rely on that.
