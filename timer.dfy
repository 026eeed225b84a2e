/**
 * `PomodoroTimer` as an object whose methods update its fields in place, as main.go does.
 * Each method is proved to move the object from `old(Model())` to the state the matching
 * function of module Pomodoro describes, and to keep the invariant `Valid()`.
 */
module PomodoroApp {
  import opened Clock
  import opened Signals
  import opened Pomodoro
  import TimerProperties

  class PomodoroTimer {
    var workMinutes: nat
    var breakMinutes: nat
    var remaining: nat
    var isRunning: bool
    var isPaused: bool
    var isWorkTime: bool
    var endTime: int
    var pauseTime: int

    /** The three buffered channels of capacity 1. */
    var stopChan: Slot
    var pauseChan: Slot
    var resumeChan: Slot

    /** What `strconv.Atoi` makes of the minutes entry's text. */
    var entry: Entry
    var timerText: string
    var status: Status

    /** The live `runTimer` goroutines, each with its position and its `lastSec`. */
    var loops: seq<Loop>

    function Model(): Timer
      reads this
    {
      Timer(workMinutes, breakMinutes, remaining, isRunning, isPaused, isWorkTime, endTime, pauseTime,
            stopChan, pauseChan, resumeChan, entry, timerText, status, loops)
    }

    ghost predicate Valid()
      reads this
    {
      Pomodoro.Valid(Model())
    }

    /** `NewPomodoroTimer`. */
    constructor ()
      ensures Model() == Init() && Valid()
    {
      workMinutes := DefaultWorkMinutes;
      breakMinutes := DefaultBreakMinutes;
      remaining := 0;
      isRunning, isPaused, isWorkTime := false, false, false;
      endTime, pauseTime := 0, 0;
      stopChan, pauseChan, resumeChan := Empty, Empty, Empty;
      entry := Minutes(DefaultWorkMinutes);
      timerText := "25:00";
      status := Ready;
      loops := [];
      TimerProperties.InitValid();
    }

    /** `start`. The verdict says whether it started or why not (an error dialog for bad minutes). */
    method Start(now: int) returns (verdict: StartVerdict)
      modifies this
      ensures verdict == Verdict(old(Model()))
      ensures Model() == Pomodoro.Start(old(Model()), now)
      ensures old(Valid()) ==> Valid()
    {
      ghost var before := Model();
      if isRunning {
        verdict := AlreadyRunning;
      } else if entry.Unparsable? || entry.n <= 0 {
        verdict := InvalidMinutes;
      } else {
        var min := entry.n;
        workMinutes := min;
        remaining := min * SecondsPerMinute;
        isRunning := true;
        isPaused := false;
        isWorkTime := true;
        status := Working;
        endTime := now + MinutesToNanos(workMinutes);
        loops := loops + [FreshLoop];
        verdict := Started(min);
      }
      assert Model() == Pomodoro.Start(before, now);
      if Pomodoro.Valid(before) {
        TimerProperties.StartKeepsValid(before, now);
      }
    }

    /** `pause`: pauses a running timer, or resumes a paused one. */
    method Pause(now: int)
      modifies this
      ensures Model() == Pomodoro.Pause(old(Model()), now)
      ensures old(Valid()) ==> Valid()
    {
      ghost var before := Model();
      if isRunning {
        if isPaused {
          isPaused := false;
          endTime := endTime + (now - pauseTime);
          if resumeChan == Empty {
            resumeChan := Full;
          }
          status := if isWorkTime then Working else OnBreak;
        } else {
          isPaused := true;
          pauseTime := now;
          if pauseChan == Empty {
            pauseChan := Full;
          }
          status := Paused;
        }
      }
      assert Model() == Pomodoro.Pause(before, now);
      if Pomodoro.Valid(before) {
        TimerProperties.PauseKeepsValid(before, now);
      }
    }

    /** `reset`. */
    method Reset()
      modifies this
      ensures Model() == Pomodoro.Reset(old(Model()))
      ensures old(Valid()) ==> Valid()
    {
      ghost var before := Model();
      if isRunning && stopChan == Empty {
        stopChan := Full;
      }
      isRunning := false;
      isPaused := false;
      remaining := workMinutes * SecondsPerMinute;
      timerText := ResetText(workMinutes);
      status := Ready;
      assert Model() == Pomodoro.Reset(before);
      if Pomodoro.Valid(before) {
        TimerProperties.ResetKeepsValid(before);
      }
    }

    /** The user types into the minutes entry, which is enabled only while no timer runs. */
    method EditEntry(e: Entry)
      requires !isRunning
      modifies this
      ensures Model() == Pomodoro.EditEntry(old(Model()), e)
      ensures old(Valid()) ==> Valid()
    {
      entry := e;
    }

    /** Goroutine i runs one pass from the top of the `for` of `runTimer`. */
    method Poll(i: nat, now: int)
      requires At(Model(), i, Polling)
      modifies this
      ensures Model() == Pomodoro.Poll(old(Model()), i, now)
      ensures old(Valid()) ==> Valid()
    {
      ghost var before := Model();
      var left := endTime - now;
      if left <= 0 {
        remaining := 0;
        HandleTimerEnd(i, now);
      } else {
        remaining := WholeSeconds(left);
        var minutes := remaining / SecondsPerMinute;
        var seconds := remaining % SecondsPerMinute;
        var lastSec := loops[i].lastSec;
        if remaining != lastSec {
          timerText := Format(MinSec(minutes, seconds));
          lastSec := remaining;
        }
        loops := loops[i := Loop(Selecting, lastSec)];
      }
      assert Model() == Pomodoro.Poll(before, i, now);
      if Pomodoro.Valid(before) {
        TimerProperties.PollKeepsValid(before, i, now);
      }
    }

    /** Goroutine i leaves the outer `select` of `runTimer` through case c. */
    method Select(i: nat, c: OuterCase)
      requires At(Model(), i, Selecting) && CanSelect(Model(), c)
      modifies this
      ensures Model() == Pomodoro.Select(old(Model()), i, c)
      ensures old(Valid()) ==> Valid()
    {
      match c
      case StopSignal =>
        stopChan := Empty;
        loops := Without(loops, i);
      case PauseSignal =>
        pauseChan := Empty;
        loops := loops[i := loops[i].(at := AwaitingResume)];
      case Tick =>
        loops := loops[i := loops[i].(at := Polling)];
    }

    /** Goroutine i runs its `for` while only the ticker fires: poll at each reading, take the
        tick, and stop after the hand-off at the first reading at or past the end time. */
    method RunTicks(i: nat, readings: seq<int>) returns (handedOver: bool)
      requires At(Model(), i, Polling)
      modifies this
      ensures Model() == TickRun(old(Model()), i, readings)
      ensures handedOver <==> exists k :: 0 <= k < |readings| && readings[k] >= old(endTime)
      ensures old(Valid()) ==> Valid()
    {
      var k := 0;
      while k < |readings|
        invariant k <= |readings| && At(Model(), i, Polling)
        invariant TickRun(old(Model()), i, readings) == TickRun(Model(), i, readings[k..])
        invariant endTime == old(endTime)
        invariant forall j :: 0 <= j < k ==> readings[j] < endTime
        invariant old(Valid()) ==> Valid()
      {
        var now := readings[k];
        if endTime - now <= 0 {
          Poll(i, now);
          return true;
        }
        Poll(i, now);
        Select(i, Tick);
        assert readings[k..][1..] == readings[k + 1..];
        k := k + 1;
      }
      assert readings[k..] == [];
      return false;
    }

    /** Goroutine i leaves the inner `select` it waits in after a pause signal. */
    method AwaitResume(i: nat, c: InnerCase)
      requires At(Model(), i, AwaitingResume) && CanUnblock(Model(), c)
      modifies this
      ensures Model() == Pomodoro.AwaitResume(old(Model()), i, c)
      ensures old(Valid()) ==> Valid()
    {
      match c
      case ResumeSignal =>
        resumeChan := Empty;
        loops := loops[i := loops[i].(at := Polling)];
      case StopWhilePaused =>
        stopChan := Empty;
        loops := Without(loops, i);
    }

    /** `handleTimerEnd`, run by goroutine i once its loop has seen the end time pass. */
    method HandleTimerEnd(i: nat, now: int)
      requires i < |loops|
      modifies this
      ensures Model() == Pomodoro.HandleTimerEnd(old(Model()), i, now)
      ensures old(Valid()) ==> Valid()
    {
      ghost var before := Model();
      timerText := "00:00";
      assert timerText == ClockText(0);
      if isWorkTime {
        StartBreak(i, now);
      } else {
        EndBreak(i, now);
      }
      if Pomodoro.Valid(before) {
        TimerProperties.HandleTimerEndKeepsValid(before, i, now);
      }
    }

    /** `startBreak`: goroutine i hands over to a fresh loop for the break. */
    method StartBreak(i: nat, now: int)
      requires i < |loops|
      modifies this
      ensures Model() == StartBreakAsWritten(old(Model()), i, now)
      ensures old(Valid()) ==> Valid()
    {
      ghost var before := Model();
      endTime := now + MinutesToNanos(breakMinutes);
      isWorkTime := false;
      isPaused := false;
      status := OnBreak;
      loops := Without(loops, i) + [FreshLoop];
      assert Model() == StartBreakAsWritten(before, i, now);
      if Pomodoro.Valid(before) {
        TimerProperties.StartBreakKeepsValid(before, i, now);
      }
    }

    /** The break-over branch of `handleTimerEnd`: drain, return to Ready, and `start` again. */
    method EndBreak(i: nat, now: int)
      requires i < |loops|
      modifies this
      ensures Model() == Pomodoro.EndBreak(old(Model()), i, now)
      ensures old(Valid()) ==> Valid()
    {
      ghost var before := Model();
      stopChan := Empty;
      pauseChan := Empty;
      resumeChan := Empty;
      isRunning := false;
      isPaused := false;
      timerText := ResetText(workMinutes);
      status := Ready;
      loops := Without(loops, i);
      ghost var ready := Model();
      assert ready.timerText == ResetText(before.workMinutes);
      assert ready.loops == Without(before.loops, i);
      assert ready == before.(stopSlot := Empty, pauseSlot := Empty, resumeSlot := Empty,
                              isRunning := false, isPaused := false,
                              timerText := ResetText(before.workMinutes), status := Ready,
                              loops := Without(before.loops, i));
      var verdict := Start(now);
      assert Model() == Pomodoro.Start(ready, now);
      if Pomodoro.Valid(before) {
        TimerProperties.EndBreakKeepsValid(before, i, now);
      }
    }
  }
}
