/** What the Pomodoro state machine guarantees, step by step and over whole runs. */
module TimerProperties {
  import opened Optional
  import opened Clock
  import opened Signals
  import opened Pomodoro

  // ---------------------------------------------------------------------------------------------
  // start

  /** `start` does nothing when a timer runs, or when the entry is not a positive number;
      otherwise it always changes the state. */
  lemma StartRefusals(t: Timer, now: int)
    ensures t.isRunning ==> Verdict(t) == AlreadyRunning
    ensures !t.isRunning && !(t.entry.Minutes? && t.entry.n > 0) ==> Verdict(t) == InvalidMinutes
    ensures Start(t, now) == t <==> !Verdict(t).Started?
  {
    if Verdict(t).Started? {
      assert |Start(t, now).loops| == |t.loops| + 1;
    }
  }

  /** A successful `start(m)` enters the work phase with m*60 seconds left, ending m minutes from
      now, launches one fresh loop, and changes nothing else. */
  lemma StartEntersWork(t: Timer, now: int)
    requires !t.isRunning && t.entry.Minutes? && t.entry.n > 0
    ensures var s, m := Start(t, now), t.entry.n;
      && Verdict(t) == Started(m)
      && s.workMinutes == m && s.remaining == m * 60
      && s.isRunning && !s.isPaused && s.isWorkTime && s.status == Working
      && s.endTime - now == m * 60 * 1_000_000_000
      && s.loops == t.loops + [FreshLoop]
      && s.breakMinutes == t.breakMinutes && s.pauseTime == t.pauseTime
      && s.stopSlot == t.stopSlot && s.pauseSlot == t.pauseSlot && s.resumeSlot == t.resumeSlot
      && s.entry == t.entry && s.timerText == t.timerText
  {
  }

  /** The first iteration of the loop launched by `start(m)`, at the same instant, does not expire:
      it counts m*60 seconds and shows the text "MM:00" that `reset` shows for m minutes. */
  lemma FirstPollShowsFullDuration(t: Timer, now: int)
    requires !t.isRunning && t.entry.Minutes? && t.entry.n > 0
    ensures var s := Start(t, now); var j := |s.loops| - 1;
      && At(s, j, Polling)
      && Poll(s, j, now).remaining == t.entry.n * 60
      && Poll(s, j, now).timerText == ResetText(t.entry.n)
      && Poll(s, j, now).isWorkTime
  {
    var m := t.entry.n;
    var s := Start(t, now);
    var j := |s.loops| - 1;
    assert s.loops[j] == FreshLoop && s.isWorkTime;
    assert s.endTime - now == MinutesToNanos(m);
    var secs := WholeSeconds(MinutesToNanos(m));
    assert secs == m * SecondsPerMinute;
    var polled := Poll(s, j, now);
    assert polled.remaining == secs && polled.timerText == ClockText(secs);
    ResetTextIsClockText(m);
  }

  // ---------------------------------------------------------------------------------------------
  // pause

  /** `pause` ignores a timer that is not running; on a running one it flips `isPaused`,
      recording the pause instant when pausing and shifting the end time when resuming. */
  lemma PauseToggles(t: Timer, now: int)
    ensures !t.isRunning ==> Pause(t, now) == t
    ensures t.isRunning ==> var s := Pause(t, now);
      && s.isRunning && s.isPaused == !t.isPaused
      && (s.isPaused ==> s.pauseTime == now && s.endTime == t.endTime && CanReceive(s.pauseSlot)
                         && s.status == Paused)
      && (!s.isPaused ==> s.endTime == t.endTime + (now - t.pauseTime) && CanReceive(s.resumeSlot)
                          && s.pauseTime == t.pauseTime)
  {
  }

  /** Pausing at p and resuming at q leaves exactly the time that was left at p: the pair changes
      nothing but the end time (shifted by q - p), the recorded pause instant and the two slots. */
  lemma PauseResumeKeepsTimeLeft(t: Timer, p: int, q: int)
    requires Valid(t) && t.isRunning && !t.isPaused
    ensures var s := Pause(Pause(t, p), q);
      && s.endTime - q == t.endTime - p
      && s == t.(endTime := t.endTime + (q - p), pauseTime := p,
                 pauseSlot := TrySend(t.pauseSlot), resumeSlot := TrySend(t.resumeSlot))
  {
    assert t.status == (if t.isWorkTime then Working else OnBreak);
  }

  // ---------------------------------------------------------------------------------------------
  // reset

  /** `reset` always ends in the Ready state showing the work minutes; it leaves the phase and the
      work minutes alone, sends stop only if running, and never empties a full stop slot. */
  lemma ResetReturnsToReady(t: Timer)
    ensures var r := Reset(t);
      && !r.isRunning && !r.isPaused && r.status == Ready
      && r.remaining == t.workMinutes * 60
      && r.workMinutes == t.workMinutes && r.isWorkTime == t.isWorkTime
      && ParseClock(r.timerText) == Some(MinSec(t.workMinutes, 0))
      && (t.isRunning ==> CanReceive(r.stopSlot))
      && (!t.isRunning ==> r.stopSlot == t.stopSlot)
      && (CanReceive(t.stopSlot) ==> CanReceive(r.stopSlot))
      && r.pauseSlot == t.pauseSlot && r.resumeSlot == t.resumeSlot
      && r.endTime == t.endTime && r.loops == t.loops && r.entry == t.entry
  {
    ResetTextIsClockText(t.workMinutes);
  }

  /** Resetting twice is resetting once. */
  lemma ResetIdempotent(t: Timer)
    ensures Reset(Reset(t)) == Reset(t)
  {
  }

  // ---------------------------------------------------------------------------------------------
  // One iteration of runTimer

  /** Before the end time, an iteration records the whole seconds left, shows them as a text that
      reads back as minutes and seconds below 60 adding up to them, refreshes the text only when the
      second differs from `lastSec`, and then waits in its outer select; nothing else changes. */
  lemma PollCountsDown(t: Timer, i: nat, now: int)
    requires At(t, i, Polling) && t.endTime - now > 0
    ensures var s := Poll(t, i, now); var left := t.endTime - now;
      && s.remaining * 1_000_000_000 <= left < (s.remaining + 1) * 1_000_000_000
      && s.loops == t.loops[i := Loop(Selecting, s.remaining)]
      && (s.remaining != t.loops[i].lastSec ==>
            exists mm: nat, ss: nat :: ParseClock(s.timerText) == Some(MinSec(mm, ss))
                                      && ss < 60 && mm * 60 + ss == s.remaining)
      && (s.remaining == t.loops[i].lastSec ==> s.timerText == t.timerText)
      && s.(remaining := t.remaining, timerText := t.timerText, loops := t.loops) == t
  {
    var s := Poll(t, i, now);
    ClockTextRoundTrip(s.remaining);
    var u := Split(s.remaining);
    if s.remaining != t.loops[i].lastSec {
      assert ParseClock(s.timerText) == Some(MinSec(u.minutes, u.seconds));
    }
  }

  /** Two iterations of the same loop, the later one reading the clock no earlier, never show more
      time left. */
  lemma PollNeverCountsUp(t: Timer, i: nat, now1: int, now2: int)
    requires At(t, i, Polling) && now1 <= now2 < t.endTime
    ensures Poll(t, i, now2).remaining <= Poll(t, i, now1).remaining
  {
    WholeSecondsMonotone(t.endTime - now1, t.endTime - now2);
  }

  /** A stop signal taken by loop i, in its outer select or while paused, ends that loop without any
      phase transition: only the stop slot and the loop list change. */
  lemma StopEndsLoop(t: Timer, i: nat)
    requires i < |t.loops| && CanReceive(t.stopSlot)
    requires t.loops[i].at != Polling
    ensures var s := if t.loops[i].at == Selecting then Select(t, i, StopSignal)
                     else AwaitResume(t, i, StopWhilePaused);
      && s.loops == Without(t.loops, i)
      && s.stopSlot == Empty
      && s.(stopSlot := t.stopSlot, loops := t.loops) == t
  {
  }

  /** A pause signal parks loop i in the inner select: it can no longer poll or take a tick, and can
      only leave on resume or stop; nothing but the pause slot and the loop's position changes. */
  lemma PauseSignalParksLoop(t: Timer, i: nat)
    requires At(t, i, Selecting) && CanReceive(t.pauseSlot)
    ensures var s := Select(t, i, PauseSignal);
      && At(s, i, AwaitingResume)
      && (forall now :: !Enabled(s, Polled(i, now)))
      && !Enabled(s, Selected(i, Tick))
      && s.pauseSlot == Empty
      && s.(pauseSlot := t.pauseSlot, loops := t.loops) == t
  {
  }

  /** A resume signal sends a parked loop back to the top of its `for`, keeping its `lastSec`, so
      its next step is a poll; nothing but the resume slot and that loop's position changes. */
  lemma ResumeSignalUnparksLoop(t: Timer, i: nat)
    requires At(t, i, AwaitingResume) && CanReceive(t.resumeSlot)
    ensures var s := AwaitResume(t, i, ResumeSignal);
      && At(s, i, Polling) && s.loops[i].lastSec == t.loops[i].lastSec
      && (forall now :: Enabled(s, Polled(i, now)))
      && s.resumeSlot == Empty
      && |s.loops| == |t.loops|
      && (forall k :: 0 <= k < |t.loops| && k != i ==> s.loops[k] == t.loops[k])
      && s.(resumeSlot := t.resumeSlot, loops := t.loops) == t
  {
  }

  /** The text shows the second the loop last recorded, or the loop has not recorded one yet. */
  predicate ShowsLastSecond(t: Timer, i: nat)
    requires i < |t.loops|
  {
    t.loops[i].lastSec < 0 || t.timerText == ClockText(t.loops[i].lastSec)
  }

  /** Ticks that all come before the end time only count down: afterwards the loop is back at the
      top of its `for`, remaining and the text show the whole seconds left at the last reading, and
      nothing else has changed. */
  lemma {:induction false} TickRunCountsDown(t: Timer, i: nat, readings: seq<int>)
    requires At(t, i, Polling) && ShowsLastSecond(t, i) && |readings| > 0
    requires forall k :: 0 <= k < |readings| ==> readings[k] < t.endTime
    ensures var s := TickRun(t, i, readings);
      var secs := WholeSeconds(t.endTime - readings[|readings| - 1]);
      && s.remaining == secs && s.timerText == ClockText(secs)
      && s.loops == t.loops[i := Loop(Polling, secs)]
      && s.(remaining := t.remaining, timerText := t.timerText, loops := t.loops) == t
    decreases |readings|
  {
    var secs := WholeSeconds(t.endTime - readings[0]);
    var next := Select(Poll(t, i, readings[0]), i, Tick);
    assert next.loops == t.loops[i := Loop(Polling, secs)];
    assert next.timerText == ClockText(secs);
    if |readings| > 1 {
      TickRunCountsDown(next, i, readings[1..]);
    }
  }

  /** A tick run expires exactly once: at the first reading at or past the end time, after counting
      down through every earlier reading. */
  lemma {:induction false} TickRunExpiresOnce(t: Timer, i: nat, readings: seq<int>, k: nat)
    requires At(t, i, Polling) && k < |readings|
    requires forall j :: 0 <= j < k ==> readings[j] < t.endTime
    requires readings[k] >= t.endTime
    ensures var before := TickRun(t, i, readings[..k]);
      && At(before, i, Polling) && before.endTime == t.endTime && before.isWorkTime == t.isWorkTime
      && TickRun(t, i, readings) == Poll(before, i, readings[k])
    decreases k
  {
    if k > 0 {
      var next := Select(Poll(t, i, readings[0]), i, Tick);
      assert readings[1..][..k - 1] == readings[..k][1..];
      TickRunExpiresOnce(next, i, readings[1..], k - 1);
    }
  }

  /** `Start(1)` at time 0 followed by sixty one-second ticks: the loop counts down through the
      first 59 ticks and the 60th starts the break, which ends five minutes later. */
  lemma OneMinuteWorkThenBreak(t: Timer)
    requires Valid(t) && !t.isRunning && t.entry == Minutes(1)
    ensures var s := Start(t, 0);
      var j := |s.loops| - 1;
      var readings := seq(60, k => (k + 1) * NanosPerSecond);
      && At(s, j, Polling)
      && var r := TickRun(s, j, readings);
      && !r.isWorkTime && r.status == OnBreak && r.remaining == 0
      && r.endTime == 60 * NanosPerSecond + MinutesToNanos(DefaultBreakMinutes)
      && r.loops == Without(s.loops, j) + [FreshLoop]
  {
    var s := Start(t, 0);
    var j := |s.loops| - 1;
    var readings := seq(60, k => (k + 1) * NanosPerSecond);
    assert s.endTime == 60 * NanosPerSecond;
    TickRunExpiresOnce(s, j, readings, 59);
    var before := TickRun(s, j, readings[..59]);
    TickRunCountsDown(s, j, readings[..59]);
    assert Without(before.loops, j) == Without(s.loops, j);
    WorkExpiryStartsBreak(before, j, readings[59]);
  }

  // ---------------------------------------------------------------------------------------------
  // Phase sequencing

  /** When a work phase runs out, the loop hands over to a fresh break loop: the break ends
      breakMinutes from now, `isPaused` is cleared, and the display reads 00:00. The pause and
      resume slots keep whatever they held (see Findings). */
  lemma WorkExpiryStartsBreak(t: Timer, i: nat, now: int)
    requires At(t, i, Polling) && t.isWorkTime && t.endTime - now <= 0
    ensures var s := Poll(t, i, now);
      && !s.isWorkTime && !s.isPaused && s.status == OnBreak
      && s.endTime == now + t.breakMinutes * 60 * 1_000_000_000
      && s.remaining == 0 && ParseClock(s.timerText) == Some(MinSec(0, 0))
      && s.loops == Without(t.loops, i) + [FreshLoop]
      && s.pauseSlot == t.pauseSlot && s.resumeSlot == t.resumeSlot && s.stopSlot == t.stopSlot
      && s.isRunning == t.isRunning && s.workMinutes == t.workMinutes
  {
    ClockTextRoundTrip(0);
  }

  /** When a break runs out on a running timer, the loop empties all three slots and `start`
      begins a new work phase with the configured work minutes. */
  lemma BreakExpiryRestartsWork(t: Timer, i: nat, now: int)
    requires Valid(t) && t.isRunning
    requires At(t, i, Polling) && !t.isWorkTime && t.endTime - now <= 0
    ensures var s := Poll(t, i, now);
      && s.stopSlot == Empty && s.pauseSlot == Empty && s.resumeSlot == Empty
      && s.isRunning && !s.isPaused && s.isWorkTime && s.status == Working
      && s.workMinutes == t.workMinutes
      && s.remaining == t.workMinutes * 60
      && s.endTime == now + t.workMinutes * 60 * 1_000_000_000
      && s.loops == Without(t.loops, i) + [FreshLoop]
  {
  }

  // ---------------------------------------------------------------------------------------------
  // The invariant

  lemma InitValid()
    ensures Valid(Init())
    ensures Init().status == Ready && !Init().isRunning && Init().loops == []
  {
    ResetTextIsClockText(DefaultWorkMinutes);
  }

  lemma StartKeepsValid(t: Timer, now: int)
    requires Valid(t)
    ensures Valid(Start(t, now))
  {
  }

  lemma PauseKeepsValid(t: Timer, now: int)
    requires Valid(t)
    ensures Valid(Pause(t, now))
  {
  }

  lemma ResetKeepsValid(t: Timer)
    requires Valid(t)
    ensures Valid(Reset(t))
  {
    ResetTextIsClockText(t.workMinutes);
  }

  lemma PollKeepsValid(t: Timer, i: nat, now: int)
    requires Valid(t) && At(t, i, Polling)
    ensures Valid(Poll(t, i, now))
  {
    if t.endTime - now > 0 {
      var secs := WholeSeconds(t.endTime - now);
      ClockTextRoundTrip(secs);
      var s := Poll(t, i, now);
      assert s.timerText == ClockText(secs) || s.timerText == t.timerText;
      assert s.(remaining := t.remaining, timerText := t.timerText, loops := t.loops) == t;
    } else {
      assert Poll(t, i, now) == HandleTimerEnd(t.(remaining := 0), i, now);
      HandleTimerEndKeepsValid(t.(remaining := 0), i, now);
    }
  }

  /** `startBreak` as written keeps the invariant: it clears `isPaused` and says OnBreak. */
  lemma StartBreakKeepsValid(t: Timer, i: nat, now: int)
    requires Valid(t) && i < |t.loops|
    ensures Valid(StartBreakAsWritten(t, i, now))
  {
  }

  lemma HandleTimerEndKeepsValid(t: Timer, i: nat, now: int)
    requires Valid(t) && i < |t.loops|
    ensures Valid(HandleTimerEnd(t, i, now))
  {
    var ended := t.(timerText := ClockText(0));
    ClockTextRoundTrip(0);
    assert Valid(ended);
    if !t.isWorkTime {
      EndBreakKeepsValid(ended, i, now);
    }
  }

  lemma EndBreakKeepsValid(t: Timer, i: nat, now: int)
    requires Valid(t) && i < |t.loops|
    ensures Valid(EndBreak(t, i, now))
  {
    var ready := t.(stopSlot := Empty, pauseSlot := Empty, resumeSlot := Empty,
                    isRunning := false, isPaused := false,
                    timerText := ResetText(t.workMinutes), status := Ready,
                    loops := Without(t.loops, i));
    ResetTextIsClockText(t.workMinutes);
    assert Valid(ready);
    StartKeepsValid(ready, now);
  }

  lemma {:induction false} NextKeepsValid(t: Timer, ev: Event)
    requires Valid(t) && Enabled(t, ev)
    ensures Valid(Next(t, ev))
  {
    match ev
    case StartPressed(now) => StartKeepsValid(t, now);
    case PausePressed(now) => PauseKeepsValid(t, now);
    case ResetPressed => ResetKeepsValid(t);
    case EntryEdited(e) =>
    case Polled(i, now) => PollKeepsValid(t, i, now);
    case Selected(i, c) =>
    case Unblocked(i, c) =>
  }

  /** Every schedule of button presses, entry edits and loop steps keeps the invariant. */
  lemma {:induction false} RunKeepsValid(t: Timer, evs: seq<Event>)
    requires Valid(t)
    ensures Valid(Run(t, evs))
    decreases |evs|
  {
    if evs != [] {
      var t' := if Enabled(t, evs[0]) then Next(t, evs[0]) else t;
      if Enabled(t, evs[0]) {
        NextKeepsValid(t, evs[0]);
      }
      RunKeepsValid(t', evs[1..]);
    }
  }

  /** In every reachable state a paused timer is running, a running timer's entry holds its work
      minutes, and the display reads as MM:SS. */
  lemma ReachableStatesValid(evs: seq<Event>)
    ensures Valid(Run(Init(), evs))
  {
    InitValid();
    RunKeepsValid(Init(), evs);
  }
}
