/** Concrete runs of the timer: the repeating beeps of a twenty-second
    countdown with a five-second interval, and a beep scheduled by an
    earlier configuration that still sounds after the interval has been
    changed. */
module Scenarios {
  import opened Clock
  import opened Countdown
  import opened Schedule

  /** Repeating mode, 20 seconds, a beep every 5 seconds. */
  function TwentyByFive(): Settings {
    Settings(Repeating, 0, 0, 20, 0, 0, 0, 0, 0, 5)
  }

  /** Running with 20 seconds left and the next beep at 15, a 5-second
      interval beeps on the ticks that leave 15, 10 and 5 seconds, and on
      no other, in particular not on the last. */
  lemma TwentyByFiveTiming(s: Engine)
    requires s.settings == TwentyByFive()
    requires s.run.isRunning && s.run.timeLeft == 20 && s.run.nextBeepTime == 15
    ensures forall j :: 1 <= j <= 20 ==>
      (Interval in CuesOfTick(s, j) <==> 20 - j == 15 || 20 - j == 10 || 20 - j == 5)
  {
    TotalSecondsValue(0, 0, 5);
    assert IntervalTime(s.settings) == 5;
    forall j | 1 <= j <= 20
      ensures Interval in CuesOfTick(s, j) <==> 20 - j == 15 || 20 - j == 10 || 20 - j == 5
    {
      IntervalTiming(s, j);
    }
  }

  /** Started with no time left, whatever beep time was left over, a 20-second countdown
      with a 5-second interval beeps with 15, 10 and 5 seconds left, so on
      the 5th, 10th and 15th tick, three times in all, and not at 0. */
  lemma TwentyByFiveBeeps(e: Engine)
    requires e.settings == TwentyByFive()
    requires e.run.timeLeft == 0
    ensures var s := StartTimer(e).next;
      s.run.isRunning && s.run.timeLeft == 20 && s.run.nextBeepTime == 15
      && (forall j :: 1 <= j <= 20 ==>
            (Interval in CuesOfTick(s, j) <==> 20 - j == 15 || 20 - j == 10 || 20 - j == 5))
      && Count(StartTimer(e).cues + Ticks(s, 20).cues, Interval) == 3
  {
    TotalSecondsValue(0, 0, 20);
    TotalSecondsValue(0, 0, 5);
    assert Duration(e.settings) == 20 && IntervalTime(e.settings) == 5;
    var s := StartTimer(e).next;
    assert s.run.timeLeft == 20 && s.run.nextBeepTime == 15;
    TwentyByFiveTiming(s);
    FreshRunHits(e);
    BeepsInDuration(20, 5);
  }

  /** A paused 20-second countdown with a 5-second interval, reset, its
      interval minutes picker pressed up once, and started: the start
      resumes the 20 seconds the reset put back, with the beep the reset
      scheduled for 15 seconds left. */
  lemma StaleResume(e: Engine)
    requires e.settings == TwentyByFive()
    requires !e.run.isRunning && e.run.isPaused
    ensures var r := ResetTimer(e).next;
      var p := PressPicker(r, IntervalMinutes, true);
      var s := StartTimer(p).next;
      s.settings == Settings(Repeating, 0, 0, 20, 0, 0, 0, 0, 1, 5)
      && s.run == Run(20, true, false, false, 15)
  {
    TotalSecondsValue(0, 0, 20);
    TotalSecondsValue(0, 0, 5);
    var r := ResetTimer(e).next;
    assert r.run == Run(20, false, false, false, 15);
    var p := PressPicker(r, IntervalMinutes, true);
    assert p.run == r.run;
    assert p.settings == Settings(Repeating, 0, 0, 20, 0, 0, 0, 0, 1, 5);
  }

  /** So after the interval has been raised to 65 seconds, more than the
      duration, the stale beep still sounds on the 5th tick. */
  lemma StaleBeep(e: Engine)
    requires e.settings == TwentyByFive()
    requires !e.run.isRunning && e.run.isPaused
    ensures var r := ResetTimer(e).next;
      var p := PressPicker(r, IntervalMinutes, true);
      var s := StartTimer(p).next;
      IntervalTime(s.settings) == 65 && Duration(s.settings) == 20
      && s.run.isRunning && s.run.timeLeft == 20
      && Interval in CuesOfTick(s, 5)
  {
    StaleResume(e);
    var s := StartTimer(PressPicker(ResetTimer(e).next, IntervalMinutes, true)).next;
    TotalSecondsValue(0, 0, 20);
    TotalSecondsValue(0, 1, 5);
    IntervalTiming(s, 5);
  }

  /** Exam mode, 10 seconds, the warning 3 seconds before the end. */
  function TenWarnThree(): Settings {
    Settings(Exam, 0, 0, 10, 0, 0, 3, 0, 0, 0)
  }

  /** Started with no time left, a 10-second exam countdown with a 3-second
      warning sounds the warning on the 7th tick, when 3 seconds are left,
      and on no other: once in the whole run. */
  lemma TenWarnThreeWarns(e: Engine)
    requires e.settings == TenWarnThree() && e.run.timeLeft == 0
    ensures var s := StartTimer(e).next;
      s.run.isRunning && s.run.timeLeft == 10
      && (forall j :: 1 <= j <= 10 ==> (Warning in CuesOfTick(s, j) <==> j == 7))
      && Count(StartTimer(e).cues + Ticks(s, 10).cues, Warning) == 1
  {
    TotalSecondsValue(0, 0, 10);
    TotalSecondsValue(0, 0, 3);
    assert Duration(e.settings) == 10 && WarningTime(e.settings) == 3;
    var s := StartTimer(e).next;
    assert s.run.timeLeft == 10 && !s.run.warningTriggered;
    forall j | 1 <= j <= 10
      ensures Warning in CuesOfTick(s, j) <==> j == 7
    {
      WarningTiming(s, j);
    }
    FreshRunWarnings(e);
  }
}
