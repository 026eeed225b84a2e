/**
 * The Pomodoro timer of main.go as a state machine over values.
 *
 * A `Timer` holds every field of `PomodoroTimer` that the timer logic reads or writes, the three
 * single-slot signal channels, the parsed content of the minutes entry, the timer and status texts,
 * and one `Loop` per live `runTimer` goroutine. Each function below is one atomic step of the
 * program: a button handler (`start`, `pause`, `reset`), an edit of the minutes entry, or one
 * stretch of a `runTimer` goroutine between two blocking points. Time is an integer count of
 * nanoseconds and the current time `now` is a parameter of the steps that read the clock.
 */
module Pomodoro {
  import opened Clock
  import opened Signals

  const DefaultWorkMinutes: nat := 25
  const DefaultBreakMinutes: nat := 5

  /** What `strconv.Atoi` makes of the minutes entry: an error or a number. */
  datatype Entry = Unparsable | Minutes(n: int)

  /** The status line: "Ready to start", "Work Time", "Paused" or "Break Time". */
  datatype Status = Ready | Working | Paused | OnBreak

  /** Where a `runTimer` goroutine stands: at the top of its `for`, blocked in its outer `select`,
      or blocked in the inner `select` that waits for resume or stop after a pause. */
  datatype Where = Polling | Selecting | AwaitingResume

  /** One live `runTimer` goroutine: where it stands and its local `lastSec`. */
  datatype Loop = Loop(at: Where, lastSec: int)

  /** A goroutine just launched by `go p.runTimer()`, with `lastSec := -1`. */
  const FreshLoop: Loop := Loop(Polling, -1)

  /** The cases of the outer `select`: the stop channel, the pause channel, the 50 ms ticker. */
  datatype OuterCase = StopSignal | PauseSignal | Tick

  /** The cases of the inner `select`: the resume channel or the stop channel. */
  datatype InnerCase = ResumeSignal | StopWhilePaused

  /** How `start` treats the current entry. */
  datatype StartVerdict = AlreadyRunning | InvalidMinutes | Started(minutes: nat)

  datatype Timer = Timer(
    workMinutes: nat,
    breakMinutes: nat,
    remaining: nat,
    isRunning: bool,
    isPaused: bool,
    isWorkTime: bool,
    endTime: int,
    pauseTime: int,
    stopSlot: Slot,
    pauseSlot: Slot,
    resumeSlot: Slot,
    entry: Entry,
    timerText: string,
    status: Status,
    loops: seq<Loop>)

  /** The goroutine list with goroutine i gone. */
  function Without(loops: seq<Loop>, i: nat): (r: seq<Loop>)
    requires i < |loops|
    ensures |r| == |loops| - 1
    ensures forall k :: 0 <= k < i ==> r[k] == loops[k]
    ensures forall k :: i <= k < |r| ==> r[k] == loops[k + 1]
  {
    loops[..i] + loops[i + 1..]
  }

  /** `NewPomodoroTimer`: 25 work minutes, 5 break minutes, the entry reading "25", no goroutine. */
  function Init(): Timer {
    Timer(DefaultWorkMinutes, DefaultBreakMinutes, 0, false, false, false, 0, 0,
          Empty, Empty, Empty, Minutes(DefaultWorkMinutes), ResetText(DefaultWorkMinutes), Ready, [])
  }

  // ---------------------------------------------------------------------------------------------
  // Button handlers

  /** The checks at the head of `start`. */
  function Verdict(t: Timer): StartVerdict {
    if t.isRunning then AlreadyRunning
    else match t.entry
      case Unparsable => InvalidMinutes
      case Minutes(m) => if m <= 0 then InvalidMinutes else Started(m)
  }

  /** `start`: enter the work phase for the entered minutes and launch a timer loop. */
  function Start(t: Timer, now: int): Timer {
    match Verdict(t)
    case Started(m) =>
      t.(workMinutes := m, remaining := m * SecondsPerMinute,
         isRunning := true, isPaused := false, isWorkTime := true, status := Working,
         endTime := now + MinutesToNanos(m), loops := t.loops + [FreshLoop])
    case _ => t
  }

  /** `pause`: toggles between pausing and resuming while the timer runs. */
  function Pause(t: Timer, now: int): Timer {
    if !t.isRunning then t
    else if t.isPaused then
      t.(isPaused := false, endTime := t.endTime + (now - t.pauseTime),
         resumeSlot := TrySend(t.resumeSlot),
         status := if t.isWorkTime then Working else OnBreak)
    else
      t.(isPaused := true, pauseTime := now, pauseSlot := TrySend(t.pauseSlot), status := Paused)
  }

  /** `reset`: signal stop if running, and return to the Ready state showing the work minutes. */
  function Reset(t: Timer): Timer {
    t.(stopSlot := if t.isRunning then TrySend(t.stopSlot) else t.stopSlot,
       isRunning := false, isPaused := false,
       remaining := t.workMinutes * SecondsPerMinute,
       timerText := ResetText(t.workMinutes), status := Ready)
  }

  /** The user edits the minutes entry; the widget is disabled, so this cannot happen, while running. */
  function EditEntry(t: Timer, e: Entry): Timer
    requires !t.isRunning
  {
    t.(entry := e)
  }

  // ---------------------------------------------------------------------------------------------
  // The runTimer goroutines

  predicate At(t: Timer, i: nat, w: Where) {
    i < |t.loops| && t.loops[i].at == w
  }

  /** Goroutine i runs from the top of its `for` to its outer `select`, or out of the loop on expiry. */
  function Poll(t: Timer, i: nat, now: int): Timer
    requires At(t, i, Polling)
  {
    var left := t.endTime - now;
    if left <= 0 then
      HandleTimerEnd(t.(remaining := 0), i, now)
    else
      var secs := WholeSeconds(left);
      var last := t.loops[i].lastSec;
      if secs != last then
        t.(remaining := secs, timerText := ClockText(secs), loops := t.loops[i := Loop(Selecting, secs)])
      else
        t.(remaining := secs, loops := t.loops[i := Loop(Selecting, last)])
  }

  predicate CanSelect(t: Timer, c: OuterCase) {
    match c
    case StopSignal => CanReceive(t.stopSlot)
    case PauseSignal => CanReceive(t.pauseSlot)
    case Tick => true
  }

  /** Goroutine i leaves its outer `select` through case c. */
  function Select(t: Timer, i: nat, c: OuterCase): Timer
    requires At(t, i, Selecting) && CanSelect(t, c)
  {
    match c
    case StopSignal => t.(stopSlot := Empty, loops := Without(t.loops, i))
    case PauseSignal => t.(pauseSlot := Empty, loops := t.loops[i := t.loops[i].(at := AwaitingResume)])
    case Tick => t.(loops := t.loops[i := t.loops[i].(at := Polling)])
  }

  /** Goroutine i runs its `for` with no signal arriving: at each clock reading it polls, and while
      the end time has not passed it takes the ticker case. The run stops at the first reading at
      or past the end time, after the phase hand-off, or when the readings run out. */
  function TickRun(t: Timer, i: nat, readings: seq<int>): Timer
    requires At(t, i, Polling)
    decreases |readings|
  {
    if readings == [] then t
    else if t.endTime - readings[0] <= 0 then Poll(t, i, readings[0])
    else TickRun(Select(Poll(t, i, readings[0]), i, Tick), i, readings[1..])
  }

  predicate CanUnblock(t: Timer, c: InnerCase) {
    match c
    case ResumeSignal => CanReceive(t.resumeSlot)
    case StopWhilePaused => CanReceive(t.stopSlot)
  }

  /** Goroutine i leaves the inner `select` it entered after a pause signal. */
  function AwaitResume(t: Timer, i: nat, c: InnerCase): Timer
    requires At(t, i, AwaitingResume) && CanUnblock(t, c)
  {
    match c
    case ResumeSignal => t.(resumeSlot := Empty, loops := t.loops[i := t.loops[i].(at := Polling)])
    case StopWhilePaused => t.(stopSlot := Empty, loops := Without(t.loops, i))
  }

  // ---------------------------------------------------------------------------------------------
  // Phase sequencing

  /** `handleTimerEnd`, run by goroutine i after its loop saw the end time pass. */
  function HandleTimerEnd(t: Timer, i: nat, now: int): Timer
    requires i < |t.loops|
  {
    var shown := t.(timerText := ClockText(0));
    if t.isWorkTime then StartBreakAsWritten(shown, i, now) else EndBreak(shown, i, now)
  }

  /** `startBreak` as the source writes it: goroutine i hands over to a fresh break loop. */
  function StartBreakAsWritten(t: Timer, i: nat, now: int): Timer
    requires i < |t.loops|
  {
    t.(endTime := now + MinutesToNanos(t.breakMinutes), isWorkTime := false, isPaused := false,
       status := OnBreak, loops := Without(t.loops, i) + [FreshLoop])
  }

  /** `startBreak` as evidently intended: it also empties the pause and resume slots as it clears
      `isPaused` (see Findings). `HandleTimerEnd` keeps the code as written. */
  function StartBreak(t: Timer, i: nat, now: int): Timer
    requires i < |t.loops|
  {
    StartBreakAsWritten(t, i, now).(pauseSlot := Empty, resumeSlot := Empty)
  }

  /** The break-over branch of `handleTimerEnd`: drain the slots, go back to Ready, then `start`. */
  function EndBreak(t: Timer, i: nat, now: int): Timer
    requires i < |t.loops|
  {
    var ready := t.(stopSlot := Empty, pauseSlot := Empty, resumeSlot := Empty,
                    isRunning := false, isPaused := false,
                    timerText := ResetText(t.workMinutes), status := Ready,
                    loops := Without(t.loops, i));
    Start(ready, now)
  }

  // ---------------------------------------------------------------------------------------------
  // The whole program as a transition system

  datatype Event =
    | StartPressed(now: int)
    | PausePressed(now: int)
    | ResetPressed
    | EntryEdited(entry: Entry)
    | Polled(loop: nat, now: int)
    | Selected(loop: nat, outer: OuterCase)
    | Unblocked(loop: nat, inner: InnerCase)

  predicate Enabled(t: Timer, ev: Event) {
    match ev
    case StartPressed(_) => true
    case PausePressed(_) => true
    case ResetPressed => true
    case EntryEdited(_) => !t.isRunning
    case Polled(i, _) => At(t, i, Polling)
    case Selected(i, c) => At(t, i, Selecting) && CanSelect(t, c)
    case Unblocked(i, c) => At(t, i, AwaitingResume) && CanUnblock(t, c)
  }

  function Next(t: Timer, ev: Event): Timer
    requires Enabled(t, ev)
  {
    match ev
    case StartPressed(now) => Start(t, now)
    case PausePressed(now) => Pause(t, now)
    case ResetPressed => Reset(t)
    case EntryEdited(e) => EditEntry(t, e)
    case Polled(i, now) => Poll(t, i, now)
    case Selected(i, c) => Select(t, i, c)
    case Unblocked(i, c) => AwaitResume(t, i, c)
  }

  /** Runs a schedule of events; an event that cannot happen in the current state is skipped. */
  function Run(t: Timer, evs: seq<Event>): Timer
    decreases |evs|
  {
    if evs == [] then t
    else Run(if Enabled(t, evs[0]) then Next(t, evs[0]) else t, evs[1..])
  }

  /** What holds in every state the program can reach. */
  predicate Valid(t: Timer) {
    && t.workMinutes > 0
    && t.breakMinutes == DefaultBreakMinutes
    && (t.isPaused ==> t.isRunning)
    && (t.isRunning ==> t.entry == Minutes(t.workMinutes) && t.status != Ready)
    && (t.isPaused <==> t.status == Paused)
    && (t.status == Working ==> t.isWorkTime)
    && (t.status == OnBreak ==> !t.isWorkTime)
    && ParseClock(t.timerText).Some?
  }
}
