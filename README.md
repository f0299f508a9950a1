# Pomodoro interval timer, modelled in Dafny

The page is a Pomodoro countdown. It has a fixed playlist of named intervals, each lasting some whole number of seconds. Three globals hold the timer state: the position in the playlist, the seconds left, and the handle of the one-second tick source. The handle is either set or null, so in effect it is a "running" flag.

Five handlers change that state:

- `loadInterval` loads the current interval's full duration.
- `startTimer` toggles between running and paused.
- `updateTimer` is the tick. It takes one second off, or, when nothing is left, stops the tick source and moves on.
- `moveToNextInterval` steps the position, going back to the first interval after the last. It then loads that interval and starts the timer again.
- `resetTimer` stops the timer at the first interval.

Two pure helpers sit beside them:

- the `mm:ss` formatter of the display;
- the work/break classifier. It matches the lower-cased interval name against "break" as a substring, and its result picks the ring colour.

The project has four modules:

- `ClockFormat` (`clock_format.dfy`): the `mm:ss` formatter, and a parser for the same text so that the formatter can be proved to lose no information.
- `IntervalCategory` (`interval_category.dfy`): lower-casing, substring search and the classifier.
- `TimerModel` (`timer_model.dfy`): the state machine as values. It has a `TimerState` datatype, one function per handler, and multi-tick lemmas: countdown, completion, running through `n` intervals and the cycle repeating. It also holds the stock playlist.
- `IntervalTimer` (`interval_timer.dfy`): class `PomodoroTimer`. Its fields are the three globals and it has one method per handler. Each method is proved to move `State()` exactly as the matching `TimerModel` function does, and to keep the invariant `Valid()`:
  - `0 <= index < |intervals|`;
  - `0 <= timeLeft <= intervals[index].duration`.

The constructor takes the playlist. It requires the playlist to be non-empty with positive durations; the page's own playlist is one such value (`TimerModel.StockPlaylist()`).

Points of the code's behaviour that the model keeps exactly:

- `loadInterval` leaves the running flag as it was. Only `startTimer` (when the timer is running), `resetTimer`, and `updateTimer` just before it moves on, clear it.
- `startTimer` has no "time left > 0" guard. Starting at zero just means the next tick completes the interval.
- Completion is detected at the start of a tick. An interval of `d` seconds takes `d` ticks to reach zero, and tick `d + 1` moves on (`TimerModel.Completion`).
- Minutes are not clamped to two digits: 6000 seconds show as `100:00`.
- After the last interval the playlist wraps round to the first and the timer keeps running. No step asks for confirmation, and no dialog is shown at the end of the playlist.

## Model

| member | source | states |
|---|---|---|
| ClockFormat.Decimal | script.js:168-169 | the decimal text of a whole number is a non-empty digit string without superfluous leading zeros; it starts with '0' exactly for zero, has more than one digit exactly from ten on, and more than two from 100 on |
| ClockFormat.DecimalRoundTrip | script.js:168-169 | reading the decimal text of `n` back gives `n` |
| ClockFormat.DecimalOfParse | script.js:168-169 | every canonical numeral is the decimal text of its value, so decimal rendering is a bijection onto canonical numerals |
| ClockFormat.Pad2 | script.js:168-169 | a clock field is all digits and reads back as the number it was made from; it is exactly two long below 100 and longer from 100 on; below ten it starts with "0", from ten on it is a canonical numeral with no leading zero (so, by `DecimalOfParse`, the plain decimal) |
| ClockFormat.FormatClock | script.js:165-170 | the clock text has a ':' three characters from its end with digits on both sides; it is five characters below 6000 seconds and longer from 6000 on (never clamped); below ten minutes it starts with '0', from ten minutes on the minutes are a canonical numeral with no leading zero |
| ClockFormat.FormatClockRoundTrip | script.js:165-170 | parsing the `mm:ss` text gives back `minutes * 60 + seconds`, the seconds it was made from |
| ClockFormat.FormatClockInjective | script.js:165-170 | two different numbers of seconds never show the same text |
| ClockFormat.FormatClockExamples | script.js:165-170 | 0 gives "00:00", 59 "00:59", 60 "01:00" and 65 "01:05" |
| ClockFormat.FormatClockLongExamples | script.js:165-170 | 600 gives "10:00" and 6000 gives "100:00": minutes are not clamped |
| IntervalCategory.LowerChar | script.js:68 | letters A to Z become the matching letters a to z; every other character is left alone (narrower than `toLowerCase`, see Left out) |
| IntervalCategory.Lower | script.js:68 | lower-casing keeps the length of the name |
| IntervalCategory.Contains | script.js:68 | the left-to-right substring scan (`includes`) succeeds exactly when the pattern occurs at some position |
| IntervalCategory.Classify | script.js:68-74 | a name is a break exactly when "break" occurs somewhere in its lower-cased form, and work otherwise |
| IntervalCategory.LowerIdempotent | script.js:68 | lower-casing twice is lower-casing once |
| IntervalCategory.ClassifyIgnoresCase | script.js:68 | a name and its lower-cased form have the same category |
| IntervalCategory.BreakFoundAt | script.js:68-70 | a name whose letters at some position read "break" in any case is a break |
| IntervalCategory.ClassifyBreakExamples | script.js:68-70 | "Short Break", "Long Break", "BREAK" and "Breakfast" are breaks |
| IntervalCategory.NoBIsWork | script.js:68-74 | a name with no letter b, in either case, is work |
| IntervalCategory.WorkNameIsWork | script.js:71-74 | each of "Work 1" to "Work 4" is work |
| IntervalCategory.BrakeIsWork | script.js:68-74 | "Brake", which has the letters of "break" out of order, is work |
| IntervalCategory.ClassifyWorkExamples | script.js:71-74 | "Work 1", "Work 2", "Work 3", "Work 4" and "Brake" are work |
| TimerModel.Load | script.js:55-57 | loading sets the time left to the current interval's full duration and leaves the position and the running flag as they were; the invariant then holds |
| TimerModel.Toggle | script.js:84-102 | the running flag flips and the position and time left are unchanged, with no guard on the time left |
| TimerModel.NextIndex | script.js:144-153 | the next position is `(i + 1) mod length`, always in bounds |
| TimerModel.Advance | script.js:143-159 | moving on gives position `(i + 1) mod length`, that interval's full duration and the running flag flipped; the invariant is kept |
| TimerModel.Tick | script.js:110-121 | with time left, a tick takes exactly one second off and changes nothing else; with nothing left, it moves to the next position with its full duration and the timer running, and does not decrement; the invariant is kept |
| TimerModel.Reset | script.js:127-131 | from any state: position 0, the first interval's full duration, not running |
| TimerModel.Initial | script.js:26-40 | start-up gives position 0, the first interval's full duration, not running |
| TimerModel.Ticks | script.js:110-121 | any number of ticks in a row keeps the invariant |
| TimerModel.TicksAdd | script.js:110-121 | `a` ticks followed by `b` ticks are `a + b` ticks |
| TimerModel.Countdown | script.js:111-118 | for `k` up to the time left, `k` ticks take exactly `k` seconds off and change nothing else |
| TimerModel.Completion | script.js:110-121 | `t` ticks from `t` seconds left reach zero without moving on; tick `t + 1` moves to the next interval, loaded in full and running |
| TimerModel.NoEarlyCompletion | script.js:110-121 | over the first `timeLeft` ticks the position and the running flag do not change, and the time left reaches zero only at the last of them |
| TimerModel.RunIntervals | script.js:110-159 | from a freshly loaded, running interval at position `i`, `Span(p, i, n)` ticks (each interval's duration plus its completion tick) lead to position `(i + n) mod length`, freshly loaded and running |
| TimerModel.CycleRepeats | script.js:143-153 | once started from start-up, one full cycle of ticks returns the timer to the first interval, full and running: the playlist loops |
| TimerModel.StockPlaylist | script.js:12-21 | the page's playlist has eight intervals, each of 10 seconds, so it is a valid playlist |
| TimerModel.SpanUniform | script.js:110-159 | when every interval lasts `d` seconds, `n` intervals take `n * (d + 1)` ticks: each interval's duration plus its completion tick |
| TimerModel.StockCycle | script.js:12-21 | on the page's playlist, once started, a whole cycle takes 88 ticks and returns the timer to the first interval, full and running |
| TimerModel.StockPlaylistNames | script.js:12-21 | the page's playlist has eight intervals: work names at even positions and break names at odd ones |
| TimerModel.StockPlaylistAlternates | script.js:12-21 | in the page's playlist, intervals at even positions classify as work and those at odd positions as break |
| TimerModel.WorkBreakScenario | script.js:110-159 | with a playlist of 10 s work and 10 s break, started from start-up: 10 ticks give work at 0, still running; tick 11 gives the break with 10 s, running |
| IntervalTimer.PomodoroTimer.constructor | script.js:26-40 | the object starts at the first interval with its full duration, stopped, and satisfies the invariant |
| IntervalTimer.PomodoroTimer.LoadInterval | script.js:55-57 | the time left becomes the current interval's duration; the position and the running flag are unchanged |
| IntervalTimer.PomodoroTimer.StartTimer | script.js:84-102 | the running flag flips; the position and the time left are unchanged |
| IntervalTimer.PomodoroTimer.MoveToNextInterval | script.js:143-159 | the position becomes `(i + 1) mod length` and the time left becomes its duration; the flag flips, so it ends up running when called from a tick |
| IntervalTimer.PomodoroTimer.UpdateTimer | script.js:110-121 | a tick follows `TimerModel.Tick`: one second off with time left; otherwise the next interval, full and running |
| IntervalTimer.PomodoroTimer.ResetTimer | script.js:127-131 | from any state: position 0, the first interval's full duration, stopped |
| IntervalTimer.PomodoroTimer.DisplayText | script.js:165-170 | the display text is exactly `FormatClock` of the seconds left; it reads back as those seconds and is five characters long below 6000 seconds |
| IntervalTimer.PomodoroTimer.CurrentLabel | script.js:62-74 | the label is the current interval's name, and the category is break exactly when the lower-cased name contains "break" |
| IntervalTimer.PomodoroTimer.Progress | script.js:182-184 | the ring's fraction, as the exact pair (seconds left, duration), has `0 <= remaining <= total` and `total > 0` |
| IntervalTimer.WorkBreakRun | script.js:84-159 | on the object: construct, start, 10 ticks give state (0, 0, running); one more gives (1, 10, running) |

## Left out

- DOM access is left out: element lookups, text and class changes on the button, and stroke colours. Event-listener binding is left out too. The label and the category are modelled as return values of `CurrentLabel`.
- `setInterval`/`clearInterval` and real one-second timing are left out. The tick source is the `running` flag, and ticks are explicit calls to `UpdateTimer`. Wall-clock behaviour, missed ticks and drift are outside the model.
- `UpdateTimer` does not require `running`. On the page only the active tick source calls it; the model allows the call in either state.
- The progress ring's floating-point percentage is left out. `Progress` returns the exact pair it is computed from. On load the pair is (duration, duration), which matches the "100, 100" reset case.
- IntervalCategory.LowerChar and IntervalCategory.Lower: lower-case only the letters A to Z. JavaScript's `toLowerCase` also maps other Unicode characters; for example, the Kelvin sign U+212A becomes 'k'. `toLowerCase` can also change the length of a name: U+0130 becomes two UTF-16 code units. The model's lower-casing always keeps the length.
- ClockFormat.Decimal: renders any whole number in plain decimal. JavaScript switches to exponent notation from 10^21 on, far beyond any playlist duration.
- ClockFormat.FormatClock: takes a non-negative number of seconds. The display is only ever given the time left, which the invariant keeps non-negative, so JavaScript's behaviour for negative operands is not modelled.
- Not live code, so not modelled: the commented-out alternative playlist and the commented-out "stop instead of loop" branch.
