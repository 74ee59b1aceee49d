/** What a countdown does over many ticks: when the end alarm, the exam
    warning and the repeating beeps sound, and how many of each. The ticks
    are the driver's one-second pulses applied back to back while the timer
    runs, with no command in between. */
module Schedule {
  import opened Clock
  import opened Countdown

  /** A timer that may receive `k` ticks in a row: none at all, or running
      with at least `k` seconds left. */
  predicate CanTick(e: Engine, k: nat) {
    k == 0 || (e.run.isRunning && k <= e.run.timeLeft)
  }

  /** The engine and the cues after `k` ticks. */
  function Ticks(e: Engine, k: nat): (o: Outcome)
    requires CanTick(e, k)
    ensures o.next.settings == e.settings
    ensures o.next.run.timeLeft == e.run.timeLeft - k
    ensures k < e.run.timeLeft ==> o.next.run.isRunning == e.run.isRunning
    decreases k
  {
    if k == 0 then Outcome(e, [])
    else
      var before := Ticks(e, k - 1);
      var step := TickStep(before.next);
      Outcome(step.next, before.cues + step.cues)
  }

  /** `k` ticks are the `k - 1` ticks before them followed by one more:
      the cues of the last tick come after those before. */
  lemma LastTick(e: Engine, k: nat)
    requires 0 < k && CanTick(e, k)
    ensures CanTick(e, k - 1)
    ensures var before := Ticks(e, k - 1); var step := TickStep(before.next);
      Ticks(e, k).next == step.next && Ticks(e, k).cues == before.cues + step.cues
  {
  }

  /** The same step seen from the `k` ticks already taken. */
  lemma NextTick(e: Engine, k: nat)
    requires CanTick(e, k + 1)
    ensures CanTick(e, k)
    ensures var before := Ticks(e, k); var step := TickStep(before.next);
      Ticks(e, k + 1).next == step.next && Ticks(e, k + 1).cues == before.cues + step.cues
  {
    LastTick(e, k + 1);
  }

  /** The cues of the `j`-th tick alone. */
  function CuesOfTick(e: Engine, j: nat): seq<Cue>
    requires 1 <= j && CanTick(e, j)
  {
    TickStep(Ticks(e, j - 1).next).cues
  }

  /** While time is left the ticks keep the timer running and its pause
      flag; the tick that takes the last second stops it, clears the pause
      flag and sounds the one end alarm, last. No tick sounds a start. */
  lemma {:induction false} TicksRun(e: Engine, k: nat)
    requires CanTick(e, k)
    ensures var o := Ticks(e, k);
      (k < e.run.timeLeft ==> o.next.run.isPaused == e.run.isPaused)
      && Count(o.cues, End) == (if 0 < k == e.run.timeLeft then 1 else 0)
      && Count(o.cues, Start) == 0
      && (0 < k == e.run.timeLeft ==>
            !o.next.run.isRunning && !o.next.run.isPaused && |o.cues| > 0 && o.cues[|o.cues| - 1] == End)
    decreases k
  {
    if k > 0 {
      TicksRun(e, k - 1);
      LastTick(e, k);
      var before := Ticks(e, k - 1);
      TickStepCues(before.next);
      CountAppend(before.cues, TickStep(before.next).cues, End);
      CountAppend(before.cues, TickStep(before.next).cues, Start);
    }
  }

  /** Running a countdown to its end: every tick the driver delivers brings
      the time down by one second, and after as many ticks as there were
      seconds the timer is stopped at zero with exactly one end alarm, the
      last cue. No earlier tick sounds the end alarm. */
  lemma RunsOut(e: Engine)
    requires e.run.isRunning && e.run.timeLeft > 0
    ensures var o := Ticks(e, e.run.timeLeft);
      o.next.run.timeLeft == 0 && !o.next.run.isRunning && !o.next.run.isPaused
      && Count(o.cues, End) == 1 && o.cues[|o.cues| - 1] == End
    ensures forall j :: 1 <= j < e.run.timeLeft ==> End !in CuesOfTick(e, j)
  {
    TicksRun(e, e.run.timeLeft);
    forall j | 1 <= j < e.run.timeLeft
      ensures End !in CuesOfTick(e, j)
    {
      TickStepCues(Ticks(e, j - 1).next);
      CountIn(CuesOfTick(e, j), End);
    }
  }

  /** The same for a run whose cues are appended to an earlier log: the
      end alarm is the last entry of the whole log. */
  lemma RunsOutAfter(e: Engine, log: seq<Cue>)
    requires e.run.isRunning && e.run.timeLeft > 0
    ensures var o := Ticks(e, e.run.timeLeft); var all := log + o.cues;
      o.next.run.timeLeft == 0 && !o.next.run.isRunning && !o.next.run.isPaused
      && |all| > 0 && all[|all| - 1] == End
  {
    RunsOut(e);
    var o := Ticks(e, e.run.timeLeft);
    var all := log + o.cues;
    assert all[|all| - 1] == o.cues[|o.cues| - 1];
  }

  // ---------------------------------------------------------------------
  // The exam warning

  /** Whether `k` ticks from `e` pass the warning time: exam mode, warning
      not given yet, and the warning time among the values the remaining
      time takes on those ticks. */
  predicate WarningPassed(e: Engine, k: nat) {
    e.settings.mode == Exam && !e.run.warningTriggered
    && e.run.timeLeft - k <= WarningTime(e.settings) < e.run.timeLeft
  }

  /** Over `k` ticks the warning sounds once if the remaining time reaches
      the warning time exactly, and otherwise not at all; it is latched
      exactly when it has sounded (or already was). */
  lemma {:induction false} WarningSchedule(e: Engine, k: nat)
    requires CanTick(e, k)
    ensures Count(Ticks(e, k).cues, Warning) == if WarningPassed(e, k) then 1 else 0
    ensures Ticks(e, k).next.run.warningTriggered <==> e.run.warningTriggered || WarningPassed(e, k)
    decreases k
  {
    if k > 0 {
      WarningSchedule(e, k - 1);
      LastTick(e, k);
      var before := Ticks(e, k - 1);
      TickStepCues(before.next);
      CountAppend(before.cues, TickStep(before.next).cues, Warning);
    }
  }

  /** The warning sounds on the tick that brings the remaining time to the
      warning time, and on no other tick. */
  lemma {:induction false} WarningTiming(e: Engine, j: nat)
    requires 1 <= j && CanTick(e, j)
    ensures Warning in CuesOfTick(e, j) <==>
      e.settings.mode == Exam && !e.run.warningTriggered
      && e.run.timeLeft - j == WarningTime(e.settings)
  {
    WarningSchedule(e, j - 1);
    TickStepCues(Ticks(e, j - 1).next);
    CountIn(CuesOfTick(e, j), Warning);
  }

  // ---------------------------------------------------------------------
  // The repeating beeps

  /** The beep times a schedule that starts at next beep time `n` visits,
      one `i` apart: the first of n, n - i, n - 2i, ... below `c`. */
  function NextBelow(n: int, i: nat, c: int): (r: int)
    requires i > 0
    ensures r < c && r <= n
    ensures n >= c ==> c - i <= r
    decreases if n < c then 0 else n - c + 1
  {
    if n < c then n else NextBelow(n - i, i, c)
  }

  /** How many of n, n - i, n - 2i, ... are at least `c`. */
  function Hits(n: int, i: nat, c: int): (k: nat)
    requires i > 0
    ensures k == 0 <==> n < c
    decreases if n < c then 0 else n - c + 1
  {
    if n < c then 0 else 1 + Hits(n - i, i, c)
  }

  /** Lowering the bound by one adds the value just below the old bound, if
      the schedule visits it, and moves past it. */
  lemma {:induction false} LowerBound(n: int, i: nat, c: int)
    requires i > 0
    ensures NextBelow(n, i, c - 1) == if NextBelow(n, i, c) == c - 1 then c - 1 - i else NextBelow(n, i, c)
    ensures Hits(n, i, c - 1) == Hits(n, i, c) + if NextBelow(n, i, c) == c - 1 then 1 else 0
    decreases if n < c then 0 else n - c + 1
  {
    if n >= c {
      LowerBound(n - i, i, c);
    }
  }

  /** The schedule visits `v` exactly when `v` is at most `n` and a whole
      number of intervals below it. */
  lemma {:induction false} Visits(n: int, i: nat, v: int)
    requires i > 0
    ensures NextBelow(n, i, v + 1) == v <==> v <= n && (n - v) % i == 0
    decreases if n < v + 1 then 0 else n - v
  {
    if n > v {
      Visits(n - i, i, v);
      ModDown(n - v, i);
    }
  }

  lemma ModDown(a: int, i: nat)
    requires i > 0 && a > 0
    ensures a % i == 0 <==> a >= i && (a - i) % i == 0
  {
    if a < i {
      DivModUnique(a, i, 0, a);
    } else {
      DivModUnique(a, i, (a - i) / i + 1, (a - i) % i);
    }
  }

  /** A schedule starting at `n` visits (n - 1) / i + 1 positive times. */
  lemma {:induction false} HitsAboveZero(n: int, i: nat)
    requires i > 0 && n >= 1
    ensures Hits(n, i, 1) == (n - 1) / i + 1
    decreases n
  {
    if n - i >= 1 {
      HitsAboveZero(n - i, i);
      DivModUnique(n - 1, i, (n - 1 - i) / i + 1, (n - 1 - i) % i);
    } else {
      DivModUnique(n - 1, i, 0, n - 1);
    }
  }

  /** The lowest remaining time whose tick can still sound an interval beep
      after `k` ticks: beeps never sound at zero. */
  function Floor(e: Engine, k: nat): int {
    if e.run.timeLeft - k > 1 then e.run.timeLeft - k else 1
  }

  /** In repeating mode with a nonzero interval and a next beep time below
      the remaining time, `k` ticks sound one beep for every time n, n - i,
      n - 2i, ... that the remaining time reaches above zero, and leave the
      next beep time at the first of those below what is left. */
  lemma {:induction false} IntervalSchedule(e: Engine, k: nat)
    requires CanTick(e, k)
    requires e.settings.mode == Repeating && IntervalTime(e.settings) > 0
    requires e.run.nextBeepTime < e.run.timeLeft
    ensures var n, i := e.run.nextBeepTime, IntervalTime(e.settings);
      Ticks(e, k).next.run.nextBeepTime == NextBelow(n, i, Floor(e, k))
      && Count(Ticks(e, k).cues, Interval) == Hits(n, i, Floor(e, k))
    decreases k
  {
    var n, i := e.run.nextBeepTime, IntervalTime(e.settings);
    if k > 0 {
      IntervalSchedule(e, k - 1);
      LastTick(e, k);
      var before := Ticks(e, k - 1);
      var b := before.next;
      TickStepCues(b);
      CountAppend(before.cues, TickStep(b).cues, Interval);
      var c := b.run.timeLeft;
      var f := Floor(e, k - 1);
      if c > 1 {
        assert f == c && Floor(e, k) == c - 1;
        LowerBound(n, i, c);
        assert IntervalDue(b) <==> NextBelow(n, i, c) == c - 1;
      } else {
        assert f == 1 && Floor(e, k) == 1;
        assert !IntervalDue(b);
      }
    }
  }

  /** Outside repeating mode, with a zero interval, or with a next beep time
      that no later tick can meet (not below the remaining time, or not
      above zero, where beeps never sound), no interval beep sounds and the
      next beep time stays. */
  lemma {:induction false} IntervalNeverDue(e: Engine, k: nat)
    requires CanTick(e, k)
    requires e.settings.mode != Repeating || IntervalTime(e.settings) == 0
      || e.run.nextBeepTime >= e.run.timeLeft || e.run.nextBeepTime <= 0
    ensures Count(Ticks(e, k).cues, Interval) == 0
    ensures Ticks(e, k).next.run.nextBeepTime == e.run.nextBeepTime
    decreases k
  {
    if k > 0 {
      IntervalNeverDue(e, k - 1);
      LastTick(e, k);
      var before := Ticks(e, k - 1);
      TickStepCues(before.next);
      CountAppend(before.cues, TickStep(before.next).cues, Interval);
    }
  }

  /** In repeating mode with a nonzero interval and a next beep time below
      the remaining time, an interval beep sounds on the tick that brings the
      remaining time to a positive value a whole number of intervals below
      the scheduled next beep time, and on no other tick. */
  lemma {:induction false} IntervalTiming(e: Engine, j: nat)
    requires 1 <= j && CanTick(e, j)
    requires e.settings.mode == Repeating && IntervalTime(e.settings) > 0
    requires e.run.nextBeepTime < e.run.timeLeft
    ensures var n, i, v := e.run.nextBeepTime, IntervalTime(e.settings), e.run.timeLeft - j;
      Interval in CuesOfTick(e, j) <==> 0 < v <= n && (n - v) % i == 0
  {
    var n, i, v := e.run.nextBeepTime, IntervalTime(e.settings), e.run.timeLeft - j;
    IntervalSchedule(e, j - 1);
    var b := Ticks(e, j - 1).next;
    TickStepCues(b);
    assert b.run.timeLeft == v + 1;
    if v > 0 {
      assert Floor(e, j - 1) == v + 1;
      Visits(n, i, v);
    }
    CountIn(CuesOfTick(e, j), Interval);
  }

  // ---------------------------------------------------------------------
  // Whole runs

  /** A schedule of interval `i` started one interval below a duration `d`
      visits (d - 1) / i positive times. */
  lemma BeepsInDuration(d: nat, i: nat)
    requires 0 < i < d
    ensures Hits(d - i, i, 1) == (d - 1) / i
  {
    HitsAboveZero(d - i, i);
    DivModUnique(d - 1, i, (d - 1 - i) / i + 1, (d - 1 - i) % i);
  }

  /** A fresh countdown, started with no time left and a nonzero duration
      and then left to run out, sounds exactly one start and one end alarm,
      the end alarm last. */
  lemma FreshRunEnds(e: Engine)
    requires e.run.timeLeft == 0 && Duration(e.settings) > 0
    ensures var s := StartTimer(e); var o := Ticks(s.next, Duration(e.settings));
      var log := s.cues + o.cues;
      o.next.run.timeLeft == 0 && !o.next.run.isRunning && !o.next.run.isPaused
      && Count(log, Start) == 1 && Count(log, End) == 1 && log[|log| - 1] == End
  {
    var s := StartTimer(e);
    var o := Ticks(s.next, Duration(e.settings));
    TicksRun(s.next, Duration(e.settings));
    assert s.cues == [Start];
    assert Count(s.cues, Start) == 1 && Count(s.cues, End) == 0;
    CountAppend(s.cues, o.cues, Start);
    CountAppend(s.cues, o.cues, End);
    var log := s.cues + o.cues;
    assert log[|log| - 1] == o.cues[|o.cues| - 1];
  }

  /** Such a run sounds one warning in exam mode when the warning time is
      below the duration, and none otherwise. */
  lemma {:induction false} FreshRunWarnings(e: Engine)
    requires e.run.timeLeft == 0 && Duration(e.settings) > 0
    ensures var s := StartTimer(e); var o := Ticks(s.next, Duration(e.settings));
      Count(s.cues + o.cues, Warning) ==
        if e.settings.mode == Exam && WarningTime(e.settings) < Duration(e.settings) then 1 else 0
  {
    var s := StartTimer(e);
    var o := Ticks(s.next, Duration(e.settings));
    WarningSchedule(s.next, Duration(e.settings));
    assert s.next.run.timeLeft == Duration(e.settings) && !s.next.run.warningTriggered;
    assert WarningPassed(s.next, Duration(e.settings))
      <==> e.settings.mode == Exam && WarningTime(e.settings) < Duration(e.settings);
    assert s.cues == [Start] && Count(s.cues, Warning) == 0;
    CountAppend(s.cues, o.cues, Warning);
  }

  /** Such a run sounds (duration - 1) / interval beeps in repeating mode
      with an interval strictly between 0 and the duration, and none
      otherwise, provided the next beep time is not positive beforehand, as
      it is initially and after a stop. */
  lemma FreshRunBeeps(e: Engine)
    requires e.run.timeLeft == 0 && Duration(e.settings) > 0
    requires e.run.nextBeepTime <= 0
    ensures var s := StartTimer(e); var d := Duration(e.settings); var o := Ticks(s.next, d);
      Count(s.cues + o.cues, Interval) ==
        if e.settings.mode == Repeating && 0 < IntervalTime(e.settings) < d
        then (d - 1) / IntervalTime(e.settings) else 0
  {
    var d, i := Duration(e.settings), IntervalTime(e.settings);
    if e.settings.mode == Repeating && 0 < i < d {
      FreshRunHits(e);
      BeepsInDuration(d, i);
    } else {
      FreshRunSilent(e);
    }
  }

  /** With an interval strictly between 0 and the duration the count is the
      number of visits of the schedule seeded one interval below the
      duration. */
  lemma FreshRunHits(e: Engine)
    requires e.run.timeLeft == 0 && 0 < IntervalTime(e.settings) < Duration(e.settings)
    requires e.settings.mode == Repeating
    ensures var s := StartTimer(e); var d := Duration(e.settings); var o := Ticks(s.next, d);
      var i := IntervalTime(e.settings);
      Count(s.cues + o.cues, Interval) == Hits(d - i, i, 1)
  {
    var s := StartTimer(e);
    var d := Duration(e.settings);
    var o := Ticks(s.next, d);
    assert s.cues == [Start] && Count(s.cues, Interval) == 0;
    CountAppend(s.cues, o.cues, Interval);
    assert Floor(s.next, d) == 1;
    IntervalSchedule(s.next, d);
  }

  /** Otherwise no interval beep sounds at all. */
  lemma FreshRunSilent(e: Engine)
    requires e.run.timeLeft == 0 && Duration(e.settings) > 0
    requires e.run.nextBeepTime <= 0
    requires e.settings.mode != Repeating || IntervalTime(e.settings) == 0
      || IntervalTime(e.settings) >= Duration(e.settings)
    ensures var s := StartTimer(e); var o := Ticks(s.next, Duration(e.settings));
      Count(s.cues + o.cues, Interval) == 0
  {
    var s := StartTimer(e);
    var d := Duration(e.settings);
    var o := Ticks(s.next, d);
    assert s.cues == [Start] && Count(s.cues, Interval) == 0;
    CountAppend(s.cues, o.cues, Interval);
    assert s.next.run.nextBeepTime <= 0;
    IntervalNeverDue(s.next, d);
  }
}
