/**
 * Two places where main.go, as written, departs from what it evidently intends. Each is shown on
 * the as-written definition next to a corrected one whose intended property is proved. The
 * transition system keeps `startBreak` as written; durations use the unbounded `MinutesToNanos`.
 */
module Findings {
  import opened Clock
  import opened Signals
  import opened Pomodoro

  // ---------------------------------------------------------------------------------------------
  // 1. startBreak keeps a stale pause signal.

  /** As written, a Pause pressed after the work loop's last tick but before it sees the end time
      leaves a value in the pause slot that `startBreak` does not drain although it clears
      `isPaused`. The new break loop takes it and parks in its inner select, so the break does not
      count down while the status says "Break Time"; the user's next pause and resume only unpark
      it with a fresh pause signal waiting, so the pause button keeps working backwards. */
  lemma StalePauseParksBreakLoop(t: Timer, i: nat, now: int, a: int, b: int)
    requires Valid(t) && t.isRunning && t.isWorkTime && !t.isPaused
    requires At(t, i, Polling) && t.pauseSlot == Empty && t.resumeSlot == Empty
    requires t.endTime <= now
    ensures
      var pressed := Pause(t, now);
      var brk := Poll(pressed, i, now);
      var j := |brk.loops| - 1;
      var polled := Poll(brk, j, now);
      && !brk.isPaused && brk.status == OnBreak && CanReceive(brk.pauseSlot)
      && At(polled, j, Selecting) && CanSelect(polled, PauseSignal)
      && var parked := Select(polled, j, PauseSignal);
      && At(parked, j, AwaitingResume) && !parked.isPaused && parked.status == OnBreak
      && var resumed := Pause(Pause(parked, a), b);
      && CanUnblock(resumed, ResumeSignal)
      && var unparked := AwaitResume(resumed, j, ResumeSignal);
      && At(unparked, j, Polling) && !unparked.isPaused && CanReceive(unparked.pauseSlot)
  {
    var pressed := Pause(t, now);
    var brk := Poll(pressed, i, now);
    assert brk == StartBreakAsWritten(pressed.(remaining := 0, timerText := ClockText(0)), i, now);
    assert brk.endTime - now == MinutesToNanos(DefaultBreakMinutes) > 0;
  }

  /** Corrected: with the draining `StartBreak`, the same late Pause leaves nothing behind. The
      break loop starts with empty pause and resume slots, so it cannot park until Pause is
      pressed again, which also sets `isPaused`. */
  lemma BreakLoopStartsUnparked(t: Timer, i: nat, now: int)
    requires Valid(t) && t.isRunning && t.isWorkTime && !t.isPaused
    requires At(t, i, Polling) && t.endTime <= now
    ensures
      var pressed := Pause(t, now);
      var brk := StartBreak(pressed.(remaining := 0, timerText := ClockText(0)), i, now);
      var j := |brk.loops| - 1;
      var polled := Poll(brk, j, now);
      && !brk.isPaused && brk.status == OnBreak && At(brk, j, Polling)
      && !CanReceive(brk.pauseSlot) && !CanReceive(brk.resumeSlot)
      && At(polled, j, Selecting) && !CanSelect(polled, PauseSignal)
  {
    var pressed := Pause(t, now);
    var brk := StartBreak(pressed.(remaining := 0, timerText := ClockText(0)), i, now);
    assert brk.endTime - now == MinutesToNanos(DefaultBreakMinutes) > 0;
  }

  // ---------------------------------------------------------------------------------------------
  // 2. time.Duration(minutes) * time.Minute wraps around.

  const MinInt64: int := -0x8000_0000_0000_0000
  const MaxInt64: int := 0x7FFF_FFFF_FFFF_FFFF
  const TwoTo64: int := 0x1_0000_0000_0000_0000

  /** The largest minute count whose duration in nanoseconds fits in an int64. */
  const LargestSafeMinutes: int := 153_722_867

  /** Two's complement wrap-around of Go's int64 arithmetic. */
  function WrapInt64(x: int): (w: int)
    ensures MinInt64 <= w <= MaxInt64
    ensures (x - w) % TwoTo64 == 0
    ensures MinInt64 <= x <= MaxInt64 ==> w == x
  {
    (x - MinInt64) % TwoTo64 + MinInt64
  }

  /** `time.Duration(m) * time.Minute` as Go computes it. */
  function MinutesToNanosAsWritten(m: int): int {
    WrapInt64(m * NanosPerMinute)
  }

  /** Up to LargestSafeMinutes the source's duration is the intended one. */
  lemma AsWrittenAgreesUpToLimit(m: int)
    requires 0 < m <= LargestSafeMinutes
    ensures MinutesToNanosAsWritten(m) == MinutesToNanos(m)
  {
  }

  /** One minute more, which `strconv.Atoi` accepts and `start` admits as positive, wraps to a
      negative duration: the end time lies in the past and the first iteration of the loop ends the
      work phase at once and starts the break. */
  lemma HugeMinutesExpireAtOnce(t: Timer, now: int)
    requires Valid(t) && !t.isRunning && t.entry == Minutes(LargestSafeMinutes + 1)
    ensures
      var s := Start(t, now);
      var asWritten := s.(endTime := now + MinutesToNanosAsWritten(LargestSafeMinutes + 1));
      var j := |s.loops| - 1;
      && MinutesToNanosAsWritten(LargestSafeMinutes + 1) < 0
      && At(asWritten, j, Polling) && asWritten.isWorkTime
      && !Poll(asWritten, j, now).isWorkTime && Poll(asWritten, j, now).status == OnBreak
  {
    assert (LargestSafeMinutes + 1) * NanosPerMinute == 9_223_372_080_000_000_000;
    assert MinutesToNanosAsWritten(LargestSafeMinutes + 1) == -9_223_371_993_709_551_616;
  }
}
