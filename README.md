# pompom timer core in Dafny

pompom is a Pomodoro timer written in Go with the Fyne toolkit. This project models its timer
logic: the `PomodoroTimer` fields, the `start`, `pause` and `reset` button handlers, the
`runTimer` polling loop and the phase sequencing in `handleTimerEnd` and `startBreak`. The Fyne
widgets and the audio are not part of the model.

- `clock.dfy` (module `Clock`): time in integer nanoseconds. It has the whole seconds left
  (`int(d.Seconds())`), the `remaining / 60`, `remaining % 60` split, and the `%02d:%02d` timer
  text. The text has a parser and a round-trip proof.
- `signals.dfy` (module `Signals`): the stop, pause and resume channels. Each is a buffered
  channel of capacity 1, so it is modelled as a slot that is `Empty` or `Full`. A non-blocking send
  fills an empty slot and drops the value when the slot is full.
- `pomodoro.dfy` (module `Pomodoro`): the whole program as a state machine over a `Timer` value.
  - The value holds every timer field and the three slots. It also holds the parsed minutes entry,
    the timer and status texts, and one `Loop` per live `runTimer` goroutine. A `Loop` records
    where the goroutine stands and its local `lastSec`.
  - Each button handler is one step. So is each stretch of a goroutine between two blocking
    points: `Poll` runs from the top of the `for` to the outer `select`, or out of the loop on expiry.
    `Select` is the outer `select`, and `AwaitResume` is the inner one that waits after a pause.
  - Which `select` case fires is a parameter. It must be ready: a receive needs a full slot, and
    the ticker is always ready.
  - `Valid` is the invariant. `Run` plays a schedule of events.
  - `TickRun` runs one goroutine's `for` over a list of clock readings when only the ticker fires.
- `properties.dfy` (module `TimerProperties`): what each step guarantees, and that every reachable
  state is `Valid`.
- `timer.dfy` (module `PomodoroApp`): class `PomodoroTimer`, with the source's fields and methods
  updating them in place. Each method is proved to take `old(Model())` to the matching
  `Pomodoro` step and to keep `Valid()`.
- `findings.dfy` (module `Findings`): two places where the code as written departs from its
  evident intent.

Time is a parameter `now` in nanoseconds; no clock is read. Break→work re-entry into `start` is
an explicit step (`EndBreak` calls `Start`), not recursion. Several goroutines can be live at once,
as in the source. For example, after `reset` an old loop may not yet have taken its stop signal
when `start` launches a new one. The model therefore keeps a sequence of loops rather than one.

## Model

| member | source | states |
|---|---|---|
| `Pomodoro.Init` | main.go:59-79 | the state `NewPomodoroTimer` builds; `InitValid` and the constructor state what it is |
| `PomodoroApp.PomodoroTimer.constructor` | main.go:59-79 | the initial state: 25 work minutes, 5 break minutes, entry "25", text "25:00", Ready, no goroutine, and it satisfies the invariant |
| `TimerProperties.InitValid` | main.go:59-79 | the initial state is Ready, not running, has no loop and satisfies the invariant |
| `Pomodoro.Verdict` | main.go:104-113 | which way `start` goes (AlreadyRunning, InvalidMinutes or Started with the parsed minutes); `StartRefusals` and `StartEntersWork` state it |
| `Pomodoro.Start` | main.go:104-129 | the `start` step; `StartRefusals`, `StartEntersWork`, `FirstPollShowsFullDuration` and `StartKeepsValid` state its contract |
| `TimerProperties.StartRefusals` | main.go:104-113 | `start` returns AlreadyRunning while running and InvalidMinutes for an unparsable or non-positive entry; it changes no state (launches no loop) exactly when it does not start |
| `TimerProperties.StartEntersWork` | main.go:114-128 | a successful `start(m)`: workMinutes = m, remaining = m*60, running, not paused, work phase, status Working, endTime = now + m minutes, one fresh loop appended, everything else unchanged |
| `TimerProperties.FirstPollShowsFullDuration` | main.go:196-211 | the loop `start` launches, polled at the start instant, does not expire and shows m*60 seconds as the same "MM:00" text `reset` shows |
| `PomodoroApp.PomodoroTimer.Start` | main.go:104-129 | the in-place `start` returns the verdict and reaches exactly the state of the `start` step; it keeps the invariant |
| `TimerProperties.StartKeepsValid` | main.go:104-129 | `start` keeps the invariant |
| `Pomodoro.Pause` | main.go:131-162 | the `pause` step; `PauseToggles`, `PauseResumeKeepsTimeLeft` and `PauseKeepsValid` state its contract |
| `TimerProperties.PauseToggles` | main.go:131-162 | `pause` does nothing when not running. Otherwise it flips isPaused. Pausing records pauseTime = now and fills the pause slot. Resuming moves endTime by now - pauseTime and fills the resume slot |
| `TimerProperties.PauseResumeKeepsTimeLeft` | main.go:135-152 | pausing at p and resuming at q leaves endTime - q equal to the time left at p; nothing changes except endTime, pauseTime and the two slots |
| `PomodoroApp.PomodoroTimer.Pause` | main.go:131-162 | the in-place `pause` reaches exactly the state of the `pause` step and keeps the invariant |
| `TimerProperties.PauseKeepsValid` | main.go:131-162 | `pause` keeps the invariant |
| `Pomodoro.Reset` | main.go:164-188 | the `reset` step; `ResetReturnsToReady`, `ResetIdempotent` and `ResetKeepsValid` state its contract |
| `TimerProperties.ResetReturnsToReady` | main.go:164-188 | `reset` always ends not running, not paused, Ready, with remaining = workMinutes*60 and the text reading workMinutes:00. workMinutes, isWorkTime, endTime, the loops and the other slots are unchanged. Stop is sent only when running, and a full stop slot stays full |
| `TimerProperties.ResetIdempotent` | main.go:164-177 | resetting twice gives the same state as resetting once |
| `PomodoroApp.PomodoroTimer.Reset` | main.go:164-188 | the in-place `reset` reaches exactly the state of the `reset` step and keeps the invariant |
| `TimerProperties.ResetKeepsValid` | main.go:164-188 | `reset` keeps the invariant |
| `Pomodoro.EditEntry` | main.go:186 | typing into the entry while it is enabled; `PomodoroTimer.EditEntry` and the `EntryEdited` case of `NextKeepsValid` state its contract |
| `PomodoroApp.PomodoroTimer.EditEntry` | main.go:186 | typing into the minutes entry, possible only while it is enabled (not running), changes only the entry and keeps the invariant |
| `Pomodoro.Poll` | main.go:196-233 | one stretch of the `for` from its top to the outer `select`, or to `handleTimerEnd` once the end time has passed; `PollCountsDown`, `PollNeverCountsUp`, `WorkExpiryStartsBreak`, `BreakExpiryRestartsWork` and `PollKeepsValid` state its contract |
| `TimerProperties.PollCountsDown` | main.go:196-211 | before the end time an iteration stores the truncated whole seconds left. It refreshes the text only when they differ from lastSec, and the new text reads back as minutes and seconds (below 60) adding up to them. The loop moves to its select with lastSec = remaining; nothing else changes |
| `TimerProperties.PollNeverCountsUp` | main.go:197-204 | a later iteration of the same loop never shows more time left |
| `PomodoroApp.PomodoroTimer.Poll` | main.go:196-211 | the in-place loop iteration (with the `/ 60`, `% 60` split) reaches exactly the state of the `Poll` step and keeps the invariant |
| `TimerProperties.PollKeepsValid` | main.go:196-234 | an iteration, including the expiry hand-off, keeps the invariant |
| `Pomodoro.Select` | main.go:221-231 | the outer `select` for a ready case; `StopEndsLoop` and `PauseSignalParksLoop` state its contract |
| `Pomodoro.AwaitResume` | main.go:225-229 | the inner `select` for a ready case; `ResumeSignalUnparksLoop` and `StopEndsLoop` state its contract |
| `TimerProperties.ResumeSignalUnparksLoop` | main.go:225-226 | a resume signal sends the parked loop back to the top of its `for` with its lastSec kept, so its next step is a poll; only the resume slot and that loop's position change |
| `Pomodoro.CanSelect` | main.go:221-231 | which outer `select` case can fire: stop or pause when its slot is full, the ticker always; `StopEndsLoop` and `PauseSignalParksLoop` state what each case does |
| `Pomodoro.CanUnblock` | main.go:225-229 | which inner `select` case can fire: resume or stop when its slot is full; `ResumeSignalUnparksLoop` and `StopEndsLoop` state what each case does |
| `TimerProperties.StopEndsLoop` | main.go:221-229 | a stop signal taken in either select ends that loop: only the stop slot and the loop list change, and no phase transition happens |
| `TimerProperties.PauseSignalParksLoop` | main.go:224-229 | a pause signal parks the loop in the inner select. There it can neither poll nor take a tick; only the pause slot and the loop's position change |
| `PomodoroApp.PomodoroTimer.Select` | main.go:221-231 | the in-place outer `select` reaches exactly the state of the `Select` step and keeps the invariant |
| `PomodoroApp.PomodoroTimer.AwaitResume` | main.go:225-229 | the in-place inner `select` reaches exactly the state of the `AwaitResume` step and keeps the invariant |
| `Pomodoro.TickRun` | main.go:196-234 | the `for` driven by ticks alone over a list of clock readings; `TickRunCountsDown`, `TickRunExpiresOnce`, `OneMinuteWorkThenBreak` and `PomodoroTimer.RunTicks` state its contract |
| `TimerProperties.TickRunCountsDown` | main.go:196-231 | when every tick comes before the end time, the run ends back at the top of the `for`. Remaining and the text show the whole seconds left at the last tick, lastSec equals them, and nothing else changes |
| `TimerProperties.TickRunExpiresOnce` | main.go:196-234 | a tick run hands over exactly once. That happens at the first reading at or past the end time, after a countdown through every earlier tick that leaves the end time and the phase unchanged |
| `TimerProperties.OneMinuteWorkThenBreak` | main.go:190-234 | `start` with 1 minute at time 0, then sixty one-second ticks. The first 59 ticks only count down; the 60th starts a five-minute break with remaining 0 and one fresh loop |
| `PomodoroApp.PomodoroTimer.RunTicks` | main.go:196-234 | the in-place `for` driven by ticks alone reaches exactly the state of `TickRun`. It reports a hand-off exactly when some reading is at or past the end time, and keeps the invariant |
| `Pomodoro.HandleTimerEnd` | main.go:237-276 | the expiry hand-off, with `startBreak` as written; `WorkExpiryStartsBreak`, `BreakExpiryRestartsWork` and `HandleTimerEndKeepsValid` state its contract |
| `Pomodoro.StartBreakAsWritten` | main.go:300-323 | `startBreak` as the source writes it; `WorkExpiryStartsBreak`, `StartBreakKeepsValid` and `Findings.StalePauseParksBreakLoop` state its contract |
| `TimerProperties.WorkExpiryStartsBreak` | main.go:237-241 | at the end of a work phase: break phase, not paused, status OnBreak, endTime = now + breakMinutes, remaining 0, text 00:00, one fresh loop replaces the old one. The pause and resume slots keep what they held; the stop slot, running flag and work minutes are unchanged |
| `TimerProperties.BreakExpiryRestartsWork` | main.go:242-273 | at the end of a break on a running timer, all three slots are emptied and a new work phase starts. It has the configured work minutes, remaining = workMinutes*60, endTime = now + workMinutes, is not paused and has one fresh loop |
| `Pomodoro.EndBreak` | main.go:245-274 | the break-over closure; `BreakExpiryRestartsWork` and `EndBreakKeepsValid` state its contract |
| `TimerProperties.StartBreakKeepsValid` | main.go:300-323 | `startBreak` as written keeps the invariant |
| `TimerProperties.HandleTimerEndKeepsValid` | main.go:237-276 | the expiry hand-off keeps the invariant |
| `TimerProperties.EndBreakKeepsValid` | main.go:245-274 | the break-over branch keeps the invariant |
| `PomodoroApp.PomodoroTimer.HandleTimerEnd` | main.go:237-276 | the in-place `handleTimerEnd` reaches exactly the state of the `HandleTimerEnd` step and keeps the invariant |
| `PomodoroApp.PomodoroTimer.StartBreak` | main.go:300-323 | the in-place `startBreak` reaches exactly the state of `StartBreakAsWritten`: the pause and resume slots are not drained. It keeps the invariant |
| `PomodoroApp.PomodoroTimer.EndBreak` | main.go:245-274 | the in-place break-over closure reaches exactly the state of the `EndBreak` step (drain, Ready, `start`) and keeps the invariant |
| `Pomodoro.Enabled` | main.go:104-323 | which handler call or loop step can happen next: a button handler at any time (the entry only while not running), a loop step only for a loop at the matching point whose `select` case is ready; `NextKeepsValid` and `RunKeepsValid` quantify over it |
| `Pomodoro.Next` | main.go:104-323 | one handler call or loop step, dispatched to `Start`, `Pause`, `Reset`, `EditEntry`, `Poll`, `Select` or `AwaitResume`; `NextKeepsValid` states its contract |
| `Pomodoro.Run` | main.go:104-323 | an interleaving of handler calls and loop steps, in order, skipping a step that cannot happen; `RunKeepsValid` and `ReachableStatesValid` state its contract |
| `TimerProperties.NextKeepsValid` | main.go:104-323 | every enabled step of the program keeps the invariant |
| `TimerProperties.RunKeepsValid` | main.go:104-323 | every schedule of steps from a valid state ends in a valid state |
| `TimerProperties.ReachableStatesValid` | main.go:104-323 | in every reachable state a paused timer is running, and a running timer's entry holds its work minutes. Its status matches the phase and pause flag, and the display reads as MM:SS |
| `Signals.TrySend` | main.go:139-142 | a non-blocking send leaves the slot full; into a full slot the value is dropped and the slot is unchanged |
| `Signals.TrySendIdempotent` | main.go:166-169 | sending twice leaves the slot as sending once, and a receive can then go ahead |
| `Signals.CanReceive` | main.go:221-230 | a receive in a `select` can fire exactly when the slot is full; `TrySendIdempotent` states it together with `TrySend` |
| `Clock.MinutesToNanos` | main.go:127 | a positive minute count gives a positive duration of exactly m*60 whole seconds |
| `Clock.WholeSeconds` | main.go:204 | the truncated seconds s satisfy s*10^9 <= d < (s+1)*10^9 |
| `Clock.WholeSecondsMonotone` | main.go:204 | fewer nanoseconds never give more whole seconds |
| `Clock.Split` | main.go:205-206 | seconds are below 60 and minutes*60 + seconds is the input |
| `Clock.SplitUnique` | main.go:205-206 | no other minutes/seconds pair with seconds below 60 adds up to the same count |
| `Clock.Decimal` | main.go:209 | `%d` gives digits only, one digit exactly below 10, at most two below 100, and no leading zero for a positive number |
| `Clock.Pad2` | main.go:209 | `%02d` gives at least two digits (exactly two below 100) whose value is the number, with no leading zero from 10 on; together these fix the text |
| `Clock.Format` | main.go:209 | `fmt.Sprintf("%02d:%02d", minutes, seconds)`; `ClockTextRoundTrip` and `ClockTextInjective` state its contract |
| `Clock.ClockText` | main.go:205-209 | the `/ 60`, `% 60` split of a second count followed by that text; `ClockTextRoundTrip` and `ClockTextInjective` state its contract |
| `Clock.ClockTextRoundTrip` | main.go:209 | the MM:SS text parses back to the split it was formatted from |
| `Clock.ClockTextInjective` | main.go:208-211 | two second counts give the same text exactly when they are equal, so the text changes exactly when the second does |
| `Clock.ResetText` | main.go:179 | `fmt.Sprintf("%02d:00", workMinutes)`, also at main.go line 270; `ResetTextIsClockText` states its contract |
| `Clock.ResetTextIsClockText` | main.go:179 | the `%02d:00` reset text is the timer text for workMinutes*60 seconds and reads back as (workMinutes, 0) |
| `Findings.StalePauseParksBreakLoop` | main.go:300-304 | as written, a pause pressed just before the work phase ends parks the break loop while isPaused is false, and keeps the pause button working backwards |
| `Pomodoro.StartBreak` | main.go:300-304 | `startBreak` with the pause and resume slots drained, as evidently intended; `Findings.BreakLoopStartsUnparked` states its contract |
| `Findings.BreakLoopStartsUnparked` | main.go:300-304 | corrected (`Pomodoro.StartBreak`), the same late pause leaves the break loop with empty pause and resume slots, so it cannot park before the next pause |
| `Findings.WrapInt64` | main.go:127 | Go's int64 wrap-around: the result is in range, congruent to the input modulo 2^64, and equal to an in-range input |
| `Findings.MinutesToNanosAsWritten` | main.go:127 | the int64 duration as Go computes it; `AsWrittenAgreesUpToLimit` and `HugeMinutesExpireAtOnce` state its contract |
| `Findings.AsWrittenAgreesUpToLimit` | main.go:127 | up to 153722867 minutes the int64 duration equals the intended one |
| `Findings.HugeMinutesExpireAtOnce` | main.go:127 | as written, 153722868 minutes wraps to a negative duration and the first iteration starts the break at once |

## Left out

- Fyne: widgets, bindings other than the timer and status texts, and button enabling and disabling. Also left out: the progress fraction and arc (floating point), `buildUI`, `CircularProgress`, `orangeButton`, the break dialog and `main`. They only display state.
- The status line is an enumeration (Ready, Working, Paused, OnBreak), not the emoji strings.
- Audio (`playSound`, the volume slider) and desktop notifications: foreign library I/O.
- `strconv.Atoi` and `dialog.ShowError`: the entry is already parsed (`Unparsable` or `Minutes(n)`), and the error dialog is the `InvalidMinutes` verdict. The entry widget is enabled exactly when no timer runs, so `EditEntry` requires that.
- The one-second `time.Sleep` in `handleTimerEnd` and the asynchrony of `fyne.Do`: expiry handling is one atomic step at the same `now`.
- Goroutine scheduling and data races: the program is a sequence of atomic steps, one per handler call or per loop stretch between blocking points. Each step sees the state the previous one left. The 50 ms ticker is the always-ready `Tick` case.
- Clock.WholeSeconds: exact integer division; the float64 rounding of `Seconds()` is not modelled.
- `min * 60` for `remaining` uses unbounded integers. Go's 64-bit `int` overflows there only far beyond the duration wrap in Findings.
- `time.Time` is an integer nanosecond count, and the zero `time.Time` is 0. The monotonic-clock details of `time.Until` and `time.Since` are not modelled.
- The unused field `totalTasks`.
- Clock.MinutesToNanos: unbounded, where the source wraps around at 64 bits (see Findings).

## Findings

| source | as written | input that shows it | evidently intended | confidence | as-written member | corrected member |
|---|---|---|---|---|---|---|
| main.go:300-304 | `startBreak` sets `isPaused = false` but does not drain `pauseChan` and `resumeChan` | Pause pressed after the work loop's last tick and before it reads the clock past `endTime` (a window that also covers the one-second sleep in `handleTimerEnd`) | the break starts unpaused and counts down | not executed | Findings.StalePauseParksBreakLoop | Findings.BreakLoopStartsUnparked |
| main.go:127 | `time.Duration(p.workMinutes) * time.Minute` wraps around in int64 | minutes entry 153722868 | a countdown of the entered length | not executed | Findings.HugeMinutesExpireAtOnce | TimerProperties.FirstPollShowsFullDuration |

For the first row, `Pomodoro.StartBreakAsWritten` models the source's `startBreak`, and the
transition system and the class use it. `Pomodoro.StartBreak` is the corrected hand-off that adds
the drain. For the second row, `Findings.MinutesToNanosAsWritten` is
the source's 64-bit duration. The model uses `Clock.MinutesToNanos`.
