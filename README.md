# Countdown timer engine

A Dafny model of the countdown engine inside the `CountdownTimerApp`
component of the timer app (`timer-app-/App.js`). The component keeps a
configured duration (hours, minutes, seconds), a mode (normal, exam timer,
repeating beep), an exam warning offset and a repeating-beep interval, and a
run state: `timeLeft`, `isRunning`, `isPaused`, `warningTriggered` and
`nextBeepTime`. Four commands (`startTimer`, `pauseTimer`, `stopTimer`,
`resetTimer`) change that state. While the timer runs, a one-second interval
timer applies the `setTimeLeft` updater, which counts down and sounds the
warning, the interval beeps and the end alarm. `formatTime` renders seconds
as `HH:MM:SS`, and the number pickers step their values with wrap-around.

The project has five modules:

- `Clock` (`clock.dfy`) holds the pure arithmetic:
  - the hours/minutes/seconds total;
  - JavaScript's `%`, `toString` and `padStart`;
  - `formatTime`;
  - the picker '+' and '-' rules.
- `Countdown` (`countdown.dfy`) models the engine as values. `Settings`, `Run` and `Engine` are datatypes, and each command and the tick is a function returning the next engine and the sounds it asks for (`Cue`: `Start`, `Warning`, `Interval`, `End`). It also defines the invariant that every reachable state keeps.
- `Schedule` (`schedule.dfy`) covers many ticks in a row: when and how often the end alarm, the warning and the interval beeps sound.
- `Scenarios` (`scenarios.dfy`) gives concrete runs.
- `TimerComponent` (`component.dfy`) is the component itself: a class `TimerEngine` with one field per piece of React state and a log `cues` of the sounds requested. Its methods are the button handlers and the tick. Each method is proved to produce exactly the state and sounds of the matching `Countdown` function, so every property proved about those functions holds of the component.

Each `playBeep(type)` call becomes one cue appended to the log.

## Behaviour kept as the code has it

- `startTimer` with no time left and a zero configured total returns before doing anything. It plays no start sound and does not set the timer running (`Countdown.StartTimer`, second ensures).
- `startTimer` and `resetTimer` set `nextBeepTime` only in repeating mode with an interval strictly between 0 and the total. Otherwise `nextBeepTime` keeps whatever value it had (`Countdown.FirstBeep`).
- `startTimer` with time left resumes. It ignores the configured duration and the interval even if they changed after a reset, so a beep scheduled earlier can sound although the interval now exceeds the duration (`Scenarios.StaleBeep`).
- `pauseTimer` acts in every state. It sets the paused flag even when the timer was not running (`Countdown.PauseTimer`).
- The mode buttons stay on screen while the timer runs, so the tick reads the mode as it is at that second (`TimerComponent.TimerEngine.SelectMode` is allowed in every state).
- Switching to repeating mode during a run does not schedule a beep. The tick compares the time left with whatever `nextBeepTime` holds, which may be left over from an earlier run, so `Schedule.IntervalSchedule` and `Schedule.IntervalTiming` are stated for a beep time below the time left.
- The warning and the interval beep fire on exact equality only. A warning time at or above the starting time, or a beep time that is skipped, never fires later.
- `formatTime` is given a negative value by the repeating-beep status line once `nextBeepTime` has gone below zero. With JavaScript's truncating `%`, the hours field is then negative, and the minutes and seconds fields carry a minus sign unless their remainder is zero (`Clock.FormatTimeOfNegative`, `Clock.FormatTimeOfNegativeMinute`). A 70-second repeating run with a 65-second interval reaches -60 after its beep, while still running.

## Model

| member | source | states |
|---|---|---|
| Clock.TotalSecondsValue | timer-app-/App.js:200 | The total of h hours, m minutes and s seconds is h * 3600 + m * 60 + s |
| Clock.TotalSecondsBounded | timer-app-/App.js:334-336 | Values within the pickers' ranges (hours up to 23, minutes and seconds up to 59) total at most 86399 |
| Clock.TotalSeconds | timer-app-/App.js:200-201 | The total of hours, minutes and seconds is zero exactly when all three are (the test before a fresh start) |
| Clock.JsRem | timer-app-/App.js:253-254 | JavaScript's `%` for a positive divisor: the remainder is strictly between -d and d, has the sign of the dividend, and differs from the dividend by a multiple of d, which fixes it |
| Clock.NatToString | timer-app-/App.js:255 | `toString` of a non-negative integer: a non-empty string of digits whose decimal value is the number, with no leading zero for a positive number; one digit below 10, two below 100 |
| Clock.IntToString | timer-app-/App.js:255 | `toString` of any integer: for a non-negative value, digits that read back as the value; for a negative one, '-' followed by digits that read back as its magnitude |
| Clock.PadStart | timer-app-/App.js:255 | `padStart`: the result has the larger of the two lengths, ends with the input and is filled with the fill character before it |
| Clock.ClockFields | timer-app-/App.js:252-254 | For a non-negative total the three fields recombine to it, with minutes and seconds below 60; totals up to 86399 give hours up to 23 |
| Clock.FieldsOfTotal | timer-app-/App.js:322 | Splitting the total of picker values (minutes and seconds below 60) gives back the hours, minutes and seconds set |
| Clock.Pad2Digits | timer-app-/App.js:255 | A field below 100 pads to exactly two digits that read back as the field |
| Clock.FormatTime | timer-app-/App.js:251-256 | The clock text is at least 8 characters; below one hundred hours exactly 8, with ':' at positions 2 and 5 |
| Clock.ClockLayout | timer-app-/App.js:255 | Below one hundred hours the three padded fields joined by ':' are 8 characters with ':' at positions 2 and 5 |
| Clock.FormatTimeReadsBack | timer-app-/App.js:251-256 | Below one hundred hours the clock text is 8 characters with ':' at positions 2 and 5, and its three two-digit fields read back as hours, minutes below 60 and seconds below 60 of the same total |
| Clock.JoinedFields | timer-app-/App.js:255 | Three two-character fields joined by ':' sit at positions 0-1, 3-4 and 6-7 |
| Clock.FormatTimeOfNegative | timer-app-/App.js:413 | `formatTime(-4)` is "-1:-1:-4" |
| Clock.FormatTimeOfNegativeMinute | timer-app-/App.js:413 | `formatTime(-60)` is "-1:-1:00": a zero remainder shows no minus sign |
| Clock.PickerInc | timer-app-/App.js:264 | The '+' button keeps a value of [0, max] in range, and its result is 0 or the value plus one |
| Clock.PickerDec | timer-app-/App.js:273 | The '-' button keeps a value of [0, max] in range, and its result is max or the value minus one |
| Clock.PickerButtonsInverse | timer-app-/App.js:262-276 | On [0, max] each button undoes the other |
| Clock.PressInc | timer-app-/App.js:264 | n presses of the '+' button (`PickerInc`, applied n times) leave a picker showing (value + n) mod (max + 1): it cycles through the whole range |
| Clock.PressStep | timer-app-/App.js:264 | From the value (n mod (max + 1)) one press of '+' shows (n + 1) mod (max + 1) |
| Countdown.InRangeByPicker | timer-app-/App.js:334-360 | The settings are in range exactly when every one of the nine pickers shows a value up to its maximum |
| Countdown.Initial | timer-app-/App.js:16-35 | The state as first rendered: normal mode, every picker 0, no time left, not running, not paused, warning not given, next beep time 0 (a definition; `Countdown.InitialIdle` states its properties) |
| Countdown.PickerShown | timer-app-/App.js:330-363 | A picker is on screen exactly when the timer is neither running nor paused, the warning pickers only in exam mode and the interval pickers only in repeating mode (a definition, used as the precondition of a press) |
| Countdown.InitialIdle | timer-app-/App.js:16-35 | The initial state keeps the invariant and has nothing configured, and a start there changes nothing and plays nothing |
| Countdown.PressPicker | timer-app-/App.js:334-360 | A picker press steps that picker's value by the '+' or '-' rule and leaves the other pickers, the mode and the run state alone; it keeps the invariant |
| Countdown.SelectMode | timer-app-/App.js:301 | A mode button sets the mode and leaves every picker and the run state alone; it keeps the invariant |
| Countdown.FirstBeep | timer-app-/App.js:206-211 | The next beep time is the old one, or in repeating mode the total minus one interval (the remaining time one interval into the run); the latter whenever the interval is strictly between 0 and the total |
| Countdown.Armed | timer-app-/App.js:199-214 | With time left the run state is kept; with none the full duration is loaded, the warning re-armed and the first beep scheduled; either way the running and paused flags are left as they were |
| Countdown.StartTimer | timer-app-/App.js:198-221 | No time left and a zero duration: nothing changes and nothing sounds. Otherwise one start sound and the timer runs unpaused; a resume keeps the time, the warning latch and the beep time; a fresh start loads the duration, re-arms the warning and schedules the first beep |
| Countdown.StartKeepsInv | timer-app-/App.js:198-221 | A start keeps the invariant: a running timer has time left |
| Countdown.PauseTimer | timer-app-/App.js:223-226 | Not running, paused, time, warning latch and beep time kept, no sound; keeps the invariant |
| Countdown.StopTimer | timer-app-/App.js:228-234 | Zero time, not running, not paused, warning cleared, beep time 0, no sound; keeps the invariant |
| Countdown.ResetTimer | timer-app-/App.js:236-249 | The full duration, not running, not paused, warning re-armed, beep time as a fresh start sets it, no sound; keeps the invariant |
| Countdown.WarningDue | timer-app-/App.js:162-164 | The warning rule of a tick: exam mode, warning not given yet, and the new time equal to the warning time (a definition; `Countdown.TickStep` and `Countdown.TickStepCues` state its effect) |
| Countdown.IntervalDue | timer-app-/App.js:171-173 | The beep rule of a tick: repeating mode, new time above 0, a nonzero interval, and the new time equal to the next beep time (a definition; `Countdown.TickStep` and `Countdown.TickStepCues` state its effect) |
| Countdown.TickCueCount | timer-app-/App.js:161-185 | A tick's log holds each sound once when its rule fires and not otherwise |
| Countdown.TickCuesCount | timer-app-/App.js:161-185 | The warning, the interval beep and the end alarm each sound once exactly when due, never a start sound, the end alarm last |
| Countdown.TickStep | timer-app-/App.js:158-188 | A tick takes one second off; the timer keeps running exactly while time is left, and the pause flag is cleared when it runs out; the warning latches when due; the beep time moves one interval down when a beep is due |
| Countdown.TickStepCues | timer-app-/App.js:161-185 | A tick sounds the end alarm exactly on its last second, and then last; it sounds the warning and the interval beep exactly when due; it never sounds a start |
| Countdown.TickKeepsInv | timer-app-/App.js:180-187 | A tick keeps the invariant: the timer stops when the time runs out |
| Countdown.PauseThenStart | timer-app-/App.js:198-226 | Pausing a running timer and starting it again restores exactly its state and adds only a start sound |
| Countdown.StopThenStart | timer-app-/App.js:198-234 | After a stop the timer is not running, and a start loads the full duration with the warning re-armed |
| Schedule.Ticks | timer-app-/App.js:155-196 | k ticks in a row keep the settings, take k seconds off, and keep the running flag while time is still left |
| Schedule.TicksRun | timer-app-/App.js:180-187 | Ticks before the last keep the pause flag and sound no end alarm; the tick taking the last second stops the timer, clears the pause flag and sounds the one end alarm, last; no tick sounds a start |
| Schedule.RunsOut | timer-app-/App.js:180-187 | As many ticks as seconds left stop the timer at zero with exactly one end alarm, last; no earlier tick sounds it |
| Schedule.RunsOutAfter | timer-app-/App.js:180-187 | Ticking to the end after an earlier log stops the timer at zero, unpaused, with the end alarm the last entry of the whole log |
| Schedule.WarningSchedule | timer-app-/App.js:162-168 | Over k ticks the warning sounds once if the remaining time passes the warning time (exam mode, not yet given) and never otherwise, and the latch is set exactly then |
| Schedule.WarningTiming | timer-app-/App.js:162-168 | The warning sounds on the tick that leaves exactly the warning time, and on no other |
| Schedule.NextBelow | timer-app-/App.js:171-177 | The first of n, n - i, n - 2i, ... below a bound is below it and within one interval of it |
| Schedule.Hits | timer-app-/App.js:171-177 | The number of those values at or above the bound is zero exactly when n is below it |
| Schedule.Visits | timer-app-/App.js:171-177 | The schedule reaches v exactly when v is at most n and a whole number of intervals below it |
| Schedule.HitsAboveZero | timer-app-/App.js:171-177 | A schedule from n reaches (n - 1) / i + 1 positive values |
| Schedule.IntervalSchedule | timer-app-/App.js:171-177 | In repeating mode with a nonzero interval and a beep time below the time left, over k ticks one beep sounds for every scheduled time the remaining time reaches above zero, and the beep time ends at the first scheduled time below what is left |
| Schedule.IntervalNeverDue | timer-app-/App.js:171-177 | Outside repeating mode, with a zero interval, or with a beep time the remaining time cannot meet above zero, no beep sounds and the beep time stays |
| Schedule.IntervalTiming | timer-app-/App.js:171-177 | In repeating mode with a nonzero interval and a beep time below the time left, a beep sounds on the tick that leaves a positive time a whole number of intervals below the beep time, and on no other |
| Schedule.BeepsInDuration | timer-app-/App.js:208-209 | A schedule seeded one interval below a duration d reaches (d - 1) / i positive times |
| Schedule.FreshRunEnds | timer-app-/App.js:155-221 | A fresh start left to run out sounds one start and one end alarm, the end alarm last, and stops the timer at zero |
| Schedule.FreshRunWarnings | timer-app-/App.js:162-168 | Such a run sounds one warning in exam mode with a warning time below the duration, and none otherwise |
| Schedule.FreshRunBeeps | timer-app-/App.js:171-177 | Such a run from a non-positive beep time sounds (d - 1) / i beeps in repeating mode with 0 < i < d, and none otherwise |
| Schedule.FreshRunHits | timer-app-/App.js:206-211 | With 0 < interval < duration the beeps of such a run are the visits of the schedule seeded one interval below the duration |
| Schedule.FreshRunSilent | timer-app-/App.js:171-177 | Without such an interval, and from a non-positive beep time, such a run sounds no beep |
| Scenarios.TwentyByFiveTiming | timer-app-/App.js:171-177 | Running 20 seconds with the beep at 15 and a 5-second interval, beeps sound with 15, 10 and 5 seconds left and on no other tick, not at 0 |
| Scenarios.TwentyByFiveBeeps | timer-app-/App.js:198-221 | A fresh 20-second start with a 5-second interval, whatever beep time was left over, schedules the beep at 15 and sounds three beeps, on the 5th, 10th and 15th tick |
| Scenarios.StaleResume | timer-app-/App.js:236-249 | Reset, a raised interval and a start resume 20 seconds with the beep still at 15 |
| Scenarios.StaleBeep | timer-app-/App.js:171-177 | After that the beep sounds on the 5th tick although the 65-second interval exceeds the 20-second duration |
| Scenarios.TenWarnThreeWarns | timer-app-/App.js:162-168 | A fresh 10-second exam countdown with a 3-second warning warns on the 7th tick only, once in the run |
| TimerComponent.TimerEngine.constructor | timer-app-/App.js:16-35 | The component starts in the initial state with no sound requested, and keeps the invariant |
| TimerComponent.TimerEngine.SelectMode | timer-app-/App.js:301 | The fields become those of `Countdown.SelectMode`; no sound |
| TimerComponent.TimerEngine.Press | timer-app-/App.js:262-276 | On a picker shown on screen, the fields become those of `Countdown.PressPicker`; no sound |
| TimerComponent.TimerEngine.Start | timer-app-/App.js:198-221 | The fields and the sounds become those of `Countdown.StartTimer`, and the invariant is kept |
| TimerComponent.TimerEngine.Pause | timer-app-/App.js:223-226 | The fields become those of `Countdown.PauseTimer`; no sound |
| TimerComponent.TimerEngine.Stop | timer-app-/App.js:228-234 | The fields become those of `Countdown.StopTimer`; no sound |
| TimerComponent.TimerEngine.Reset | timer-app-/App.js:236-249 | The fields become those of `Countdown.ResetTimer`; no sound |
| TimerComponent.TimerEngine.Tick | timer-app-/App.js:155-196 | Under the effect's guard (running, time left) the fields and the sounds become those of `Countdown.TickStep`, and the invariant is kept |
| TimerComponent.TimerEngine.RunOut | timer-app-/App.js:155-196 | Ticking while the guard holds ends after exactly the seconds that were left, in the state of `Schedule.Ticks`, at zero, stopped, unpaused, with the end alarm the last sound |
| TimerComponent.TickUpdater | timer-app-/App.js:158-188 | The `setTimeLeft` updater computes exactly the state and sounds of `Countdown.TickStep` |

## Left out

- Audio through `expo-av` is not modelled: setting the audio mode, loading, replaying and unloading the sounds. Each `playBeep` call is one cue in the log. The `soundsLoaded` gate, which drops sounds and disables the start button until loading ends, is not modelled either.
- The `setInterval`/`clearInterval` plumbing and the effect's re-subscription on every change of its dependencies are not modelled. A tick is one atomic call under the effect's guard (running with time left). The dependency list makes the updater see the current mode, warning and interval settings, `warningTriggered` and `nextBeepTime`, and the model reads those fields directly.
- React's batching of state setters and any re-run of the updater are not modelled. The fields change immediately and in order.
- Rendering is not modelled: the status text, styles, the screen-width lookup, and which of `timeLeft` and the configured total the clock shows. Only `formatTime` and the picker arithmetic are modelled.
- The commented-out triple-beep warning sequence is dead code.
- Button visibility is not enforced. The Start button shows only while not running, Pause only while running, and Reset only when paused or with time left. The model's commands are total, so their contracts cover every state, including the states the screen never offers.
- JavaScript numbers are modelled as unbounded integers. Every value the engine handles is a small integer, so this is exact.
- Clock.FormatTimeReadsBack: stated only below one hundred hours. Every total the pickers can produce is at most 86399. Above one hundred hours the hours field has more than two digits.
- Schedule.FreshRunBeeps: assumes a beep time that is not positive before the start, as it is initially and after a stop. A positive one survives a repeating run that is switched to another mode before its first beep and left to run out; a later fresh start in repeating mode with a nonzero interval at or above the duration keeps it, and when it is below the duration it still sounds.
- TimerComponent.TimerEngine.Press: requires the picker to be on screen. The pickers are hidden while the timer runs or is paused.
