# WPMonitor typing statistics, modelled in Dafny

WPMonitor is a macOS menu-bar app that watches global key-down events and
shows typing statistics. This project models its core in two parts.

The first part is the statistics engine, `StatsManager` (module `Stats`). It
keeps:

- the lifetime keystroke and word counters;
- two one-minute windows of keystroke and word timestamps, pruned on every
  insert;
- the per-tick words-per-minute (WPM) and characters-per-minute readings;
- the day's WPM history, highest WPM, running average and consistency score;
- the session and active-time bookkeeping;
- persistence to a string-keyed store, with a lazy "new day" reset.

The second part is word-boundary detection, `KeyboardMonitor` (module
`Keyboard`). Every key-down counts as one keystroke. Letter and digit
characters accumulate in a word buffer. Space, return or tab (virtual key
codes 49, 36 and 48) closes the buffered word, if there is one, as one word.

Both are classes whose methods update fields in place, as in the Swift code.
Each method's contract states the whole new state, except
`HandleKeyEvent`, which leaves the engine-side effects of the keystroke to
`IncrementKeystroke` (see "Left out"). Where the new state is a
function of the old one, the contract names a pure specification function:

- `Pruned` and `CountAfter` for the timestamp windows;
- `RecordSample` for one tick's effect on the day's aggregates;
- `Step` for one key-down in the word detection.

The properties of the engine are proved as lemmas about these functions. The
central invariant is `DailyInvariant`:

- every WPM sample in the history is positive and at most the day's highest;
- the average is the mean of the history, and at least 1 once the history is
  non-empty;
- the consistency score is the formula applied to the history.

So the division by the mean in the consistency formula never sees a zero mean.

Modelling choices:

- Times are integer milliseconds. `Date()` inside one operation is that
  operation's `now` parameter. The rate window is 60000 ms and the
  inactivity threshold 5000 ms.
- The average and the consistency score are exact `real`s. The square root is
  an abstract function that is only known to be non-negative on non-negative
  inputs.
- "Is this date today?" is an abstract reflexive relation `sameDay`.
- The store is the class `Defaults`: a map from key to integer, plus the
  optional date of the last save.
- Unicode `isLetter || isNumber` is an abstract predicate `isWordChar`.
- Swift's `Int(_:)`, `/` and `%` truncate toward zero. `Quot` and `Rem` write
  that out explicitly.

Three consequences of the code are worth stating outright:

- A tick is not idempotent. A second tick at the same instant appends the
  WPM reading to the history again whenever it is positive
  (`DailyStats.RepeatedTickGrowsHistory`).
- The consistency formula needs no zero-mean guard. The mean of a non-empty
  history of positive samples is at least 1 (`DailyStats.DailyBounds`,
  `Statistics.AverageBounds`).
- A key-down with no characters still counts as a keystroke, as every
  key-down does (`Keyboard.KeyboardMonitor.HandleKeyEvent`).

## Model

| member | source | states |
|---|---|---|
| Seqs.Filter | WPMonitor/WPMonitor/SwiftManager.swift:47 | keeping the elements that satisfy a predicate gives no more elements than the input, and every element kept satisfies it |
| Seqs.FilterIsSubsequence | WPMonitor/WPMonitor/SwiftManager.swift:47 | the kept elements appear in the input in the same order |
| Seqs.FilterOccurrences | WPMonitor/WPMonitor/SwiftManager.swift:47 | each value occurs in the result as often as in the input if it satisfies the predicate, and not at all otherwise |
| Seqs.FilterAppend | WPMonitor/WPMonitor/KeyboardMonitor.swift:127-131 | filtering a concatenation is the concatenation of the filtered parts |
| Seqs.FilterKeepsAll | WPMonitor/WPMonitor/SwiftManager.swift:85 | when every element satisfies the predicate, the filter returns its input unchanged |
| Seqs.FilterDropsAll | WPMonitor/WPMonitor/SwiftManager.swift:85 | when no element satisfies the predicate, the filter returns the empty sequence |
| Seqs.FilterOfFilter | WPMonitor/WPMonitor/SwiftManager.swift:47 | filtering by a weaker predicate first changes nothing for a stronger one |
| Seqs.FilterIdempotent | WPMonitor/WPMonitor/SwiftManager.swift:47 | filtering twice by the same predicate is filtering once |
| TimeWindow.Pruned | WPMonitor/WPMonitor/SwiftManager.swift:46-47 | after `removeAll { $0 < cutoff }` no entry is older than the cutoff |
| TimeWindow.CountAfter | WPMonitor/WPMonitor/SwiftManager.swift:84-90 | the number of timestamps strictly after the window start is at most the buffer's length |
| TimeWindow.InsertThenPrune | WPMonitor/WPMonitor/SwiftManager.swift:38-47 | after appending `now` and pruning to the window, the buffer is non-empty, ends with `now`, and every entry is at least `now - 60 s` |
| TimeWindow.PrunedOccurrences | WPMonitor/WPMonitor/SwiftManager.swift:47 | pruning keeps every occurrence of a timestamp inside the window and drops every one outside it |
| TimeWindow.PrunedKeepsOrder | WPMonitor/WPMonitor/SwiftManager.swift:47 | the surviving entries keep their original order |
| TimeWindow.PrunedKeepsSorted | WPMonitor/WPMonitor/SwiftManager.swift:47 | pruning a non-decreasing buffer leaves it non-decreasing |
| TimeWindow.PruneInvisibleToCount | WPMonitor/WPMonitor/SwiftManager.swift:46-47 | pruning at a cutoff never changes a later count that starts at or after the cutoff minus 1 ms |
| TimeWindow.CountAfterAppend | WPMonitor/WPMonitor/SwiftManager.swift:85 | an appended timestamp adds one to the count exactly when it is strictly after the window start |
| TimeWindow.CountAfterAntitone | WPMonitor/WPMonitor/SwiftManager.swift:84-85 | a later window start never counts more timestamps |
| TimeWindow.CountAfterExtremes | WPMonitor/WPMonitor/SwiftManager.swift:85 | a buffer entirely at or before the start counts 0, and one entirely after it counts its full length |
| Statistics.Sum | WPMonitor/WPMonitor/SwiftManager.swift:102 | `reduce(0, +)` over the WPM history; its left-fold reading is `Statistics.SumAppend` |
| Statistics.SumAppend | WPMonitor/WPMonitor/SwiftManager.swift:94-102 | appending a sample adds exactly that sample to the sum, so the recursive sum agrees with the left fold of `reduce` |
| Statistics.Average | WPMonitor/WPMonitor/SwiftManager.swift:102 | the average of a non-empty history, times the number of samples, is the sum of the samples |
| Statistics.SquaredDeviations | WPMonitor/WPMonitor/SwiftManager.swift:108 | the sum of squared deviations from the mean is non-negative |
| Statistics.Variance | WPMonitor/WPMonitor/SwiftManager.swift:108 | the variance of a non-empty history is non-negative |
| Statistics.Consistency | WPMonitor/WPMonitor/SwiftManager.swift:106-111 | for a positive mean the score is at least 0 (the `max(0, …)`), and at most 100 whenever the square root is non-negative |
| Statistics.SumBounds | WPMonitor/WPMonitor/SwiftManager.swift:102 | positive samples bounded by `b` sum to at least their count and at most count × `b` |
| Statistics.AverageBounds | WPMonitor/WPMonitor/SwiftManager.swift:101-103 | the average of positive samples bounded by `b` lies in [1, `b`], so it is positive |
| Statistics.ConstantHistoryNoDeviation | WPMonitor/WPMonitor/SwiftManager.swift:108 | a history of identical samples has no deviation from that sample |
| Statistics.ConstantHistorySum | WPMonitor/WPMonitor/SwiftManager.swift:102 | the sum of `n` copies of `x` is `n × x` |
| Statistics.ConstantHistoryFullConsistency | WPMonitor/WPMonitor/SwiftManager.swift:101-111 | typing at a perfectly steady rate gives that rate as the average and a consistency of 100 |
| DailyStats.RecordSample | WPMonitor/WPMonitor/SwiftManager.swift:93-111 | one tick's reading keeps `DailyInvariant` (every sample is positive and at most the highest; the average and consistency are those of the history). The history grows by exactly the reading iff it is positive, and its old prefix is kept. The highest becomes max(old highest, reading) for a positive reading: at least both, and equal to one of them. A reading ≤ 0 changes nothing |
| DailyStats.DailyBounds | WPMonitor/WPMonitor/SwiftManager.swift:101-111 | under the invariant, a non-empty history has an average in (0, highest], and the consistency is in [0, 100] |
| DailyStats.RepeatedTickGrowsHistory | WPMonitor/WPMonitor/SwiftManager.swift:93-94 | two ticks with the same positive reading append it twice, so the tick is not idempotent |
| ActiveTime.Quot | WPMonitor/WPMonitor/SwiftManager.swift:149-151 | Swift's `/` on `Int` truncates toward zero: the multiple of the divisor it picks lies between 0 and the dividend, less than one divisor away from it, for either sign of the dividend |
| ActiveTime.Rem | WPMonitor/WPMonitor/SwiftManager.swift:150-151 | Swift's `%` on `Int` is what truncating division leaves over: dividend minus quotient × divisor, with the sign of the dividend and magnitude below the divisor |
| ActiveTime.WholeSeconds | WPMonitor/WPMonitor/SwiftManager.swift:149 | for a non-negative interval, `Int(activeTime)` is the whole number of seconds: non-negative, with the interval in [s × 1000, s × 1000 + 1000) ms |
| ActiveTime.ClockFields | WPMonitor/WPMonitor/SwiftManager.swift:149-151 | hours × 3600 + minutes × 60 + seconds recomposes `t`; for `t ≥ 0` the hours are non-negative and the minutes and seconds are in 0..59 |
| ActiveTime.Decimal | WPMonitor/WPMonitor/SwiftManager.swift:152 | a natural number prints as a non-empty string of digits, which is one digit exactly when the number is below 10, and two digits from 10 to 99; a number of at least 1 prints with no leading zero |
| ActiveTime.DecimalRoundTrip | WPMonitor/WPMonitor/SwiftManager.swift:152 | reading back the printed digits of `n` gives `n` |
| ActiveTime.Pad2 | WPMonitor/WPMonitor/SwiftManager.swift:152 | `%02d` prints at least two characters. A non-negative value prints as digits that read back as the value: exactly two of them below 100 (zero-padded), and with no leading zero from 100 up. A negative value prints as '-' followed by digits that read back as its magnitude |
| ActiveTime.FormatClock | WPMonitor/WPMonitor/SwiftManager.swift:149-152 | for `t ≥ 0` the "HH:MM:SS" string is hour digits, ':', two minute digits, ':', two second digits. The hour field is exactly two digits below 100 hours and has no leading zero from 100 hours up. Minutes and seconds read back below 60, and the three fields recompose `t` |
| ActiveTime.OneHourDisplay | WPMonitor/WPMonitor/SwiftManager.swift:148-152 | 3600 seconds display as "01:00:00" |
| ActiveTime.DecimalOfValue | WPMonitor/WPMonitor/SwiftManager.swift:152 | a digit string with no leading zero (or a single digit) is exactly what printing the number it spells produces |
| ActiveTime.TwoDigitsUnique | WPMonitor/WPMonitor/SwiftManager.swift:152 | two two-digit strings that read back as the same number are equal |
| ActiveTime.HourFieldIsPad2 | WPMonitor/WPMonitor/SwiftManager.swift:152 | an hour field of two digits, or of more digits with no leading zero, is exactly the `%02d` of the number it spells |
| ActiveTime.ClockDisplayUnique | WPMonitor/WPMonitor/SwiftManager.swift:149-152 | any string of the display's shape that reads back as `t` seconds is `FormatClock(t)`: each number of seconds has exactly one display |
| Stats.IsNewDay | WPMonitor/WPMonitor/SwiftManager.swift:129-130 | `!isDateInToday(lastSaveDate ?? now)`: on a calendar where each instant shares its own day, the check fires iff a save date is stored and lies on another day; a missing date never resets |
| Stats.Defaults.Integer | WPMonitor/WPMonitor/SwiftManager.swift:137-139 | `integer(forKey:)` reads a stored key as its value and a missing key as 0 |
| Stats.Defaults.SetInteger | WPMonitor/WPMonitor/SwiftManager.swift:124-126 | storing an integer under a key overwrites that key only, so it reads back as the stored value while every other key reads as before. The save date is left alone |
| Stats.Defaults.SetLastSaveDate | WPMonitor/WPMonitor/SwiftManager.swift:133 | stamping the save date leaves the integers alone |
| Stats.StatsManager.constructor | WPMonitor/WPMonitor/SwiftManager.swift:26-27 | starting from zeroed fields and loading the store gives the stored counters and the invariant. The highest WPM is the stored one, or 0 on a new day |
| Stats.StatsManager.IncrementKeystroke | WPMonitor/WPMonitor/SwiftManager.swift:35-49 | totalKeystrokes + 1; the keystroke buffer is the old buffer plus `now`, pruned to the window; lastActivityTime is `now`. A session starts at `now` only if none was open. Then the save: the store gets the three counters and the date `now`, and on a new day the day's aggregates are cleared and the session closed. The word side is unchanged |
| Stats.StatsManager.AddWord | WPMonitor/WPMonitor/SwiftManager.swift:56-63 | totalWords + 1; the word buffer is the old buffer plus `time`, pruned to the window. The keystroke count, keystroke buffer, activity time, session, day's aggregates and rates are unchanged, and nothing is saved |
| Stats.StatsManager.UpdateStats | WPMonitor/WPMonitor/SwiftManager.swift:70-112 | the session ends iff the last activity is more than 5 s before `now`; activeTime becomes `now - start` while a session exists and is otherwise kept. WPM and CPM are the counts of word and keystroke timestamps strictly within the last minute. The day's aggregates are `RecordSample` of the old ones for the new WPM. The invariant is kept |
| Stats.StatsManager.UpdateDailyStats | WPMonitor/WPMonitor/SwiftManager.swift:92-111 | the history, highest, average and consistency steps turn the day's aggregates into `RecordSample` of the old ones for the current WPM, keeping the invariant |
| Stats.StatsManager.ResetDailyStats | WPMonitor/WPMonitor/SwiftManager.swift:114-121 | highest, average, consistency and active time become 0, the history empties and the session closes. Counters, activity time, both timestamp buffers and rates are unchanged |
| Stats.StatsManager.SaveStats | WPMonitor/WPMonitor/SwiftManager.swift:123-134 | the store gets the three counters as they were before the day check (so on a new day the stored highest is the pre-reset one), then the date `now`. The day's aggregates are cleared and the session closed iff the day check fires; nothing else changes |
| Stats.StatsManager.LoadStats | WPMonitor/WPMonitor/SwiftManager.swift:136-146 | the counters and the highest WPM are read from the store (missing keys read as 0); on a new day, under the same rule as the save, the day's aggregates are cleared and the session closed |
| Stats.StatsManager.FormattedActiveTime | WPMonitor/WPMonitor/SwiftManager.swift:148-153 | for a non-negative active time the display is "H…H:MM:SS" in digits, with the hours two digits below 100 hours and unpadded from 100 hours up, minutes and seconds below 60, and its fields read back as the whole seconds of the active time |
| Keyboard.WordChars | WPMonitor/WPMonitor/KeyboardMonitor.swift:127-131 | the characters taken from a key event are all letters or numbers |
| Keyboard.IsBoundaryKey | WPMonitor/WPMonitor/KeyboardMonitor.swift:116 | the word-ending keys are the virtual key codes 49 (space), 36 (return) and 48 (tab) |
| Keyboard.Step | WPMonitor/WPMonitor/KeyboardMonitor.swift:111-121 | one key-down, characters first: a boundary key always leaves the buffer empty, and completes a word iff the buffer or the key's own characters hold a word character. Any other key completes no word and only appends its word characters |
| Keyboard.StepKeepsWordChars | WPMonitor/WPMonitor/KeyboardMonitor.swift:126-131 | a buffer of word characters stays one after any key-down |
| Keyboard.RunAppend | WPMonitor/WPMonitor/KeyboardMonitor.swift:98-124 | handling two stretches of key-downs in turn is handling them together: the buffers chain and the word counts add up |
| Keyboard.RunWithoutBoundary | WPMonitor/WPMonitor/KeyboardMonitor.swift:116-121 | without a boundary key no word is completed, and the buffer grows by exactly the word characters of all the events, in order |
| Keyboard.RunCountsClosedWords | WPMonitor/WPMonitor/KeyboardMonitor.swift:116-121 | over any event sequence, the number of words added is the number of boundary keys that found a non-empty buffer, counted independently piece by piece |
| Keyboard.RunWordsAtMostBoundaries | WPMonitor/WPMonitor/KeyboardMonitor.swift:116-121 | a sequence of key-downs adds at most one word per boundary key |
| Keyboard.RunKeepsWordChars | WPMonitor/WPMonitor/KeyboardMonitor.swift:126-131 | over any sequence of key-downs the buffer holds only letters and numbers |
| Keyboard.KeyboardMonitor.constructor | WPMonitor/WPMonitor/KeyboardMonitor.swift:9-15 | a new monitor has an empty buffer and the given engine |
| Keyboard.KeyboardMonitor.HandleKeyEvent | WPMonitor/WPMonitor/KeyboardMonitor.swift:98-124 | every key-down counts exactly one keystroke, whatever its key code (totalKeystrokes + 1, keystroke window, activity time). The buffer and the word added follow `Step`: characters first, then the boundary check. A word adds one to totalWords and stamps `now` into the word window; no word leaves both unchanged. lastKeyTime becomes `now`, and the invariants are kept |
| Keyboard.KeyboardMonitor.ProcessCharacters | WPMonitor/WPMonitor/KeyboardMonitor.swift:126-132 | the buffer becomes the old buffer followed by exactly the letter and number characters of `chars`, in order |

## Left out

- Event-tap creation, accessibility-permission polling, run-loop wiring and re-enabling the tap (WPMonitor/WPMonitor/KeyboardMonitor.swift:17-96) are operating-system I/O.
- `CGEvent.getCharacters` (WPMonitor/WPMonitor/KeyboardMonitor.swift:135-145) reads a UTF-16 buffer through a foreign call. Its result is the `chars` parameter of `HandleKeyEvent`. That function always returns a string, so the `if let` never skips.
- Reading the key code from the event (WPMonitor/WPMonitor/KeyboardMonitor.swift:99) is a foreign call. The key code is a parameter.
- The debug log of the first keystrokes (WPMonitor/WPMonitor/KeyboardMonitor.swift:102-105) and all other `os.log` output are logging with no effect on state.
- The one-second timer and `DispatchQueue.main.async` (WPMonitor/WPMonitor/SwiftManager.swift:28-32, 36, 57) are threading. Each dispatched block is one synchronous call, taken in queue order, so a key-down's keystroke is counted before its word. In Swift the keystroke's own timestamp and the cutoff for pruning are `Date()` read when the queued block runs (WPMonitor/WPMonitor/SwiftManager.swift:37-46), which is at or after the key's `currentTime` (WPMonitor/WPMonitor/KeyboardMonitor.swift:100); the model stamps both with the single `now` that `HandleKeyEvent` receives.
- `objectWillChange.send()` (WPMonitor/WPMonitor/SwiftManager.swift:52, 66) is a UI notification with no effect on state.
- Double arithmetic, `pow` and `sqrt`: the average and consistency are exact reals, and `sqrt` is an abstract non-negative function. Rounding and the actual square root values are not modelled.
- Statistics.Consistency: its upper bound of 100 is proved only under the assumption that `sqrt` is non-negative.
- `Calendar.current.isDateInToday` becomes the abstract relation `sameDay`; time zones and calendars are not modelled.
- `UserDefaults` persistence across launches is not modelled; only the in-memory map of the store is.
- Date precision: times are whole milliseconds rather than Double seconds.
- Integer width: Swift's `Int` is 64-bit, and `+= 1` on the counters (WPMonitor/WPMonitor/SwiftManager.swift:37, 58) traps on overflow. `Int(activeTime)` (WPMonitor/WPMonitor/SwiftManager.swift:149) traps on NaN or an out-of-range value. The model's integers are unbounded, so neither trap is modelled.
- Characters: the model uses Dafny `char`s rather than Swift grapheme clusters.
- Stats.StatsManager.LoadStats: requires an empty WPM history. Its only caller is the initializer, which runs before any tick.
- Stats.StatsManager.UpdateStats: its contract states the invariant and the `RecordSample` relation. The numeric bounds on the average and consistency come from `DailyStats.DailyBounds` applied to the invariant, not from the method's own `ensures`.
- Keyboard.KeyboardMonitor.HandleKeyEvent: its contract does not repeat the session, day-reset and store effects of the keystroke; those are stated by `Stats.StatsManager.IncrementKeystroke`.
- The `static let shared` singleton is not modelled; the monitor is handed its engine explicitly.
- WPMonitor/WPMonitor/StatsView.swift, WPMonitor/WPMonitor/WPMonitor.swift and WPMonitor/WPMonitor/LaunchHelper.swift are not part of this model. They are SwiftUI layout, the menu-bar app delegate and a login-item wrapper.
