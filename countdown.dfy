/** The countdown engine of the timer component as values: its settings,
    its run state, and what each command and each one-second tick does to
    them. Every transition yields the new engine together with the audio cues
    it asks for, in the order it asks for them. */
module Countdown {
  import opened Clock

  datatype Mode = Normal | Exam | Repeating

  /** The sounds the engine asks the audio layer to play. */
  datatype Cue = Start | Warning | Interval | End

  /** How many times `c` occurs in a cue log. */
  function Count(log: seq<Cue>, c: Cue): (n: nat)
    ensures n <= |log|
  {
    if log == [] then 0 else Count(log[..|log| - 1], c) + (if log[|log| - 1] == c then 1 else 0)
  }

  /** Counting a log made of two parts counts each part. */
  lemma {:induction false} CountAppend(a: seq<Cue>, b: seq<Cue>, c: Cue)
    ensures Count(a + b, c) == Count(a, c) + Count(b, c)
    decreases |b|
  {
    if b == [] {
      assert a + b == a;
    } else {
      var b' := b[..|b| - 1];
      assert (a + b)[..|a + b| - 1] == a + b';
      assert (a + b)[|a + b| - 1] == b[|b| - 1];
      CountAppend(a, b', c);
    }
  }

  lemma CountThree(a: seq<Cue>, b: seq<Cue>, d: seq<Cue>, c: Cue)
    ensures Count(a + b + d, c) == Count(a, c) + Count(b, c) + Count(d, c)
  {
    CountAppend(a + b, d, c);
    CountAppend(a, b, c);
  }

  /** A cue is in the log exactly when it is counted there. */
  lemma {:induction false} CountIn(log: seq<Cue>, c: Cue)
    ensures c in log <==> Count(log, c) > 0
    decreases |log|
  {
    if log != [] {
      var front := log[..|log| - 1];
      assert log == front + [log[|log| - 1]];
      CountIn(front, c);
    }
  }

  /** The nine number pickers of the settings screen. */
  datatype Picker =
    | Hours | Minutes | Seconds
    | WarningHours | WarningMinutes | WarningSeconds
    | IntervalHours | IntervalMinutes | IntervalSeconds

  datatype Settings = Settings(
    mode: Mode,
    hours: nat, minutes: nat, seconds: nat,
    warningHours: nat, warningMinutes: nat, warningSeconds: nat,
    intervalHours: nat, intervalMinutes: nat, intervalSeconds: nat)

  /** The countdown length. */
  function Duration(s: Settings): nat {
    TotalSeconds(s.hours, s.minutes, s.seconds)
  }

  /** How many seconds before the end the exam warning sounds. */
  function WarningTime(s: Settings): nat {
    TotalSeconds(s.warningHours, s.warningMinutes, s.warningSeconds)
  }

  /** The spacing of the repeating beeps. */
  function IntervalTime(s: Settings): nat {
    TotalSeconds(s.intervalHours, s.intervalMinutes, s.intervalSeconds)
  }

  datatype Run = Run(
    timeLeft: nat,
    isRunning: bool,
    isPaused: bool,
    warningTriggered: bool,
    nextBeepTime: int)

  datatype Engine = Engine(settings: Settings, run: Run)

  datatype Outcome = Outcome(next: Engine, cues: seq<Cue>)

  function PickerMax(p: Picker): nat {
    match p
    case Hours | WarningHours | IntervalHours => MaxHours
    case _ => MaxSixty
  }

  function PickerValue(s: Settings, p: Picker): nat {
    match p
    case Hours => s.hours
    case Minutes => s.minutes
    case Seconds => s.seconds
    case WarningHours => s.warningHours
    case WarningMinutes => s.warningMinutes
    case WarningSeconds => s.warningSeconds
    case IntervalHours => s.intervalHours
    case IntervalMinutes => s.intervalMinutes
    case IntervalSeconds => s.intervalSeconds
  }

  /** Every picker shows a value of its range. */
  predicate InRange(s: Settings) {
    s.hours <= MaxHours && s.minutes <= MaxSixty && s.seconds <= MaxSixty
    && s.warningHours <= MaxHours && s.warningMinutes <= MaxSixty && s.warningSeconds <= MaxSixty
    && s.intervalHours <= MaxHours && s.intervalMinutes <= MaxSixty && s.intervalSeconds <= MaxSixty
  }

  lemma InRangeByPicker(s: Settings)
    ensures InRange(s) <==> forall p :: PickerValue(s, p) <= PickerMax(p)
  {
    if forall p :: PickerValue(s, p) <= PickerMax(p) {
      assert PickerValue(s, Hours) <= PickerMax(Hours);
      assert PickerValue(s, Minutes) <= PickerMax(Minutes);
      assert PickerValue(s, Seconds) <= PickerMax(Seconds);
      assert PickerValue(s, WarningHours) <= PickerMax(WarningHours);
      assert PickerValue(s, WarningMinutes) <= PickerMax(WarningMinutes);
      assert PickerValue(s, WarningSeconds) <= PickerMax(WarningSeconds);
      assert PickerValue(s, IntervalHours) <= PickerMax(IntervalHours);
      assert PickerValue(s, IntervalMinutes) <= PickerMax(IntervalMinutes);
      assert PickerValue(s, IntervalSeconds) <= PickerMax(IntervalSeconds);
    }
  }

  /** What every reachable engine satisfies: the pickers are in range, the
      remaining time fits the largest configurable total, and a running
      timer has time left and is not paused. */
  predicate Inv(e: Engine) {
    InRange(e.settings)
    && e.run.timeLeft <= MaxTotal
    && (e.run.isRunning ==> e.run.timeLeft > 0 && !e.run.isPaused)
  }

  lemma DurationBounded(s: Settings)
    ensures InRange(s) ==> Duration(s) <= MaxTotal
  {
    if InRange(s) {
      TotalSecondsBounded(s.hours, s.minutes, s.seconds);
    }
  }

  /** The component's initial state: normal mode, every picker at zero,
      nothing running, next beep time zero. */
  function Initial(): Engine {
    Engine(Settings(Normal, 0, 0, 0, 0, 0, 0, 0, 0, 0), Run(0, false, false, false, 0))
  }

  /** The initial state satisfies the invariant, has nothing configured to
      count down, and a start there does nothing. */
  lemma InitialIdle()
    ensures Inv(Initial()) && Duration(Initial().settings) == 0
    ensures StartTimer(Initial()) == Outcome(Initial(), [])
  {
  }

  /** A picker is on screen only while the timer is neither running nor
      paused; the warning pickers only in exam mode, the interval pickers
      only in repeating mode. */
  predicate PickerShown(e: Engine, p: Picker) {
    !e.run.isRunning && !e.run.isPaused
    && match p
       case WarningHours | WarningMinutes | WarningSeconds => e.settings.mode == Exam
       case IntervalHours | IntervalMinutes | IntervalSeconds => e.settings.mode == Repeating
       case _ => true
  }

  function WithPicker(s: Settings, p: Picker, v: nat): (r: Settings)
    ensures PickerValue(r, p) == v && r.mode == s.mode
    ensures forall q :: q != p ==> PickerValue(r, q) == PickerValue(s, q)
  {
    match p
    case Hours => s.(hours := v)
    case Minutes => s.(minutes := v)
    case Seconds => s.(seconds := v)
    case WarningHours => s.(warningHours := v)
    case WarningMinutes => s.(warningMinutes := v)
    case WarningSeconds => s.(warningSeconds := v)
    case IntervalHours => s.(intervalHours := v)
    case IntervalMinutes => s.(intervalMinutes := v)
    case IntervalSeconds => s.(intervalSeconds := v)
  }

  /** A press of a picker's '+' (`up`) or '-' button: the picker's value
      steps with wrap-around, nothing else changes. */
  function PressPicker(e: Engine, p: Picker, up: bool): (r: Engine)
    requires PickerShown(e, p)
    ensures r.run == e.run && r.settings.mode == e.settings.mode
    ensures PickerValue(r.settings, p) ==
      if up then PickerInc(PickerValue(e.settings, p), PickerMax(p))
      else PickerDec(PickerValue(e.settings, p), PickerMax(p))
    ensures forall q :: q != p ==> PickerValue(r.settings, q) == PickerValue(e.settings, q)
    ensures Inv(e) ==> Inv(r)
  {
    var current := PickerValue(e.settings, p);
    var v := if up then PickerInc(current, PickerMax(p)) else PickerDec(current, PickerMax(p));
    InRangeByPicker(e.settings);
    InRangeByPicker(WithPicker(e.settings, p, v));
    e.(settings := WithPicker(e.settings, p, v))
  }

  /** The mode buttons stay on screen while the timer runs, so the mode can
      change at any time; nothing else does. */
  function SelectMode(e: Engine, m: Mode): (r: Engine)
    ensures r.settings.mode == m && r.run == e.run
    ensures forall q :: PickerValue(r.settings, q) == PickerValue(e.settings, q)
    ensures Inv(e) ==> Inv(r)
  {
    e.(settings := e.settings.(mode := m))
  }

  /** The next beep time a fresh countdown of `total` seconds gets: in
      repeating mode with an interval strictly between 0 and `total`, the
      total minus one interval (the remaining time one interval into the
      run); otherwise the old value stays. */
  function FirstBeep(s: Settings, total: nat, current: int): (r: int)
    ensures r == current || (s.mode == Repeating && 0 < r < total && r + IntervalTime(s) == total)
    ensures s.mode == Repeating && 0 < IntervalTime(s) < total ==> r + IntervalTime(s) == total
  {
    if s.mode == Repeating && 0 < IntervalTime(s) < total then total - IntervalTime(s) else current
  }

  /** The run state `startTimer` prepares before it sets the timer running:
      with no time left, a fresh countdown of the full duration with the
      warning re-armed and the first beep scheduled; with time left, the run
      state as it was. */
  function Armed(e: Engine): (r: Run)
    ensures e.run.timeLeft > 0 ==> r == e.run
    ensures r.isRunning == e.run.isRunning && r.isPaused == e.run.isPaused
    ensures e.run.timeLeft == 0 ==>
      r.timeLeft == Duration(e.settings) && !r.warningTriggered
      && r.nextBeepTime == FirstBeep(e.settings, Duration(e.settings), e.run.nextBeepTime)
    ensures Inv(e) ==> r.timeLeft <= MaxTotal
    ensures r.timeLeft == 0 ==> e.run.timeLeft == 0 && Duration(e.settings) == 0
  {
    var total := Duration(e.settings);
    DurationBounded(e.settings);
    if e.run.timeLeft == 0 then
      e.run.(timeLeft := total, warningTriggered := false,
             nextBeepTime := FirstBeep(e.settings, total, e.run.nextBeepTime))
    else e.run
  }

  /** `startTimer`: with no time left and a zero duration nothing happens.
      With no time left it seeds a fresh countdown; with time left it
      resumes. Either way it plays the start sound and runs. */
  function StartTimer(e: Engine): (o: Outcome)
    ensures o.next.settings == e.settings
    ensures e.run.timeLeft == 0 && Duration(e.settings) == 0 ==> o == Outcome(e, [])
    ensures e.run.timeLeft > 0 || Duration(e.settings) > 0 ==>
      o.cues == [Start] && o.next.run.isRunning && !o.next.run.isPaused
    ensures e.run.timeLeft > 0 ==>
      o.next.run.timeLeft == e.run.timeLeft
      && o.next.run.warningTriggered == e.run.warningTriggered
      && o.next.run.nextBeepTime == e.run.nextBeepTime
    ensures e.run.timeLeft == 0 && Duration(e.settings) > 0 ==>
      o.next.run.timeLeft == Duration(e.settings)
      && !o.next.run.warningTriggered
      && o.next.run.nextBeepTime == FirstBeep(e.settings, Duration(e.settings), e.run.nextBeepTime)
  {
    if e.run.timeLeft == 0 && Duration(e.settings) == 0 then Outcome(e, [])
    else Outcome(e.(run := Armed(e).(isRunning := true, isPaused := false)), [Start])
  }

  /** A start keeps the engine invariant: a running timer always has time
      left, because a start with nothing to count down does nothing. */
  lemma StartKeepsInv(e: Engine)
    requires Inv(e)
    ensures Inv(StartTimer(e).next)
  {
    var o := StartTimer(e);
    if e.run.timeLeft == 0 && Duration(e.settings) == 0 {
      assert o.next == e;
    } else {
      assert o.next.settings == e.settings;
      assert o.next.run.isRunning && !o.next.run.isPaused;
      assert o.next.run.timeLeft > 0 && o.next.run.timeLeft <= MaxTotal;
    }
  }

  /** `pauseTimer`: stops the ticks and marks the timer paused; the
      remaining time and the schedule are kept for a later start. */
  function PauseTimer(e: Engine): (o: Outcome)
    ensures o.cues == [] && o.next.settings == e.settings
    ensures !o.next.run.isRunning && o.next.run.isPaused
    ensures o.next.run.timeLeft == e.run.timeLeft
    ensures o.next.run.warningTriggered == e.run.warningTriggered
    ensures o.next.run.nextBeepTime == e.run.nextBeepTime
    ensures Inv(e) ==> Inv(o.next)
  {
    Outcome(e.(run := e.run.(isRunning := false, isPaused := true)), [])
  }

  /** `stopTimer`: back to idle with nothing left and every schedule
      cleared, silently. */
  function StopTimer(e: Engine): (o: Outcome)
    ensures o.cues == [] && o.next.settings == e.settings
    ensures o.next.run == Run(0, false, false, false, 0)
    ensures Inv(e) ==> Inv(o.next)
  {
    Outcome(e.(run := Run(0, false, false, false, 0)), [])
  }

  /** `resetTimer`: the full duration again, not running, not paused, the
      warning re-armed, the next beep recomputed as a fresh start would;
      silently. */
  function ResetTimer(e: Engine): (o: Outcome)
    ensures o.cues == [] && o.next.settings == e.settings
    ensures o.next.run.timeLeft == Duration(e.settings)
    ensures !o.next.run.isRunning && !o.next.run.isPaused && !o.next.run.warningTriggered
    ensures o.next.run.nextBeepTime == FirstBeep(e.settings, Duration(e.settings), e.run.nextBeepTime)
    ensures Inv(e) ==> Inv(o.next)
  {
    var total := Duration(e.settings);
    DurationBounded(e.settings);
    Outcome(e.(run := Run(total, false, false, false, FirstBeep(e.settings, total, e.run.nextBeepTime))), [])
  }

  /** The exam rule of a tick: in exam mode, the warning not yet given, the
      new remaining time equals the warning time exactly. */
  predicate WarningDue(e: Engine)
    requires e.run.timeLeft > 0
  {
    e.settings.mode == Exam && !e.run.warningTriggered
    && e.run.timeLeft - 1 == WarningTime(e.settings)
  }

  /** The repeating rule of a tick: in repeating mode, time still left after
      the tick, a nonzero interval, and the new remaining time equal to the
      next beep time exactly. */
  predicate IntervalDue(e: Engine)
    requires e.run.timeLeft > 0
  {
    e.settings.mode == Repeating && e.run.timeLeft - 1 > 0
    && IntervalTime(e.settings) > 0 && e.run.timeLeft - 1 == e.run.nextBeepTime
  }

  /** The cues of one tick, in the order the tick asks for them. */
  function TickCues(warn: bool, beep: bool, expired: bool): (c: seq<Cue>)
    ensures |c| <= 3
  {
    (if warn then [Warning] else []) + (if beep then [Interval] else []) + (if expired then [End] else [])
  }

  /** How often `c` occurs in a tick's cues: once for each condition that
      asks for it. */
  lemma TickCueCount(warn: bool, beep: bool, expired: bool, c: Cue)
    ensures Count(TickCues(warn, beep, expired), c) ==
      (if warn && c == Warning then 1 else 0) + (if beep && c == Interval then 1 else 0)
      + (if expired && c == End then 1 else 0)
  {
    var w: seq<Cue> := if warn then [Warning] else [];
    var b: seq<Cue> := if beep then [Interval] else [];
    var x: seq<Cue> := if expired then [End] else [];
    CountThree(w, b, x, c);
  }

  /** Each cue of a tick occurs once when its condition holds and not at
      all otherwise; the end alarm comes last. */
  lemma TickCuesCount(warn: bool, beep: bool, expired: bool)
    ensures var c := TickCues(warn, beep, expired);
      Count(c, Warning) == (if warn then 1 else 0)
      && Count(c, Interval) == (if beep then 1 else 0)
      && Count(c, End) == (if expired then 1 else 0)
      && Count(c, Start) == 0
      && (expired ==> c[|c| - 1] == End)
  {
    TickCueCount(warn, beep, expired, Warning);
    TickCueCount(warn, beep, expired, Interval);
    TickCueCount(warn, beep, expired, End);
    TickCueCount(warn, beep, expired, Start);
  }

  /** One second of a running countdown: the remaining time drops by one;
      the warning sounds and latches when due; an interval beep sounds when
      due and moves the next beep one interval further; when the time runs
      out the end alarm sounds and the timer is neither running nor paused.
      The cues come in that order. */
  function TickStep(e: Engine): (o: Outcome)
    requires e.run.isRunning && e.run.timeLeft > 0
    ensures o.next.settings == e.settings
    ensures o.next.run.timeLeft == e.run.timeLeft - 1
    ensures o.next.run.isRunning <==> e.run.timeLeft > 1
    ensures o.next.run.isPaused <==> e.run.isPaused && e.run.timeLeft > 1
    ensures o.next.run.warningTriggered <==> e.run.warningTriggered || WarningDue(e)
    ensures o.next.run.nextBeepTime ==
      if IntervalDue(e) then e.run.nextBeepTime - IntervalTime(e.settings) else e.run.nextBeepTime
  {
    var newTime := e.run.timeLeft - 1;
    var warn := WarningDue(e);
    var beep := IntervalDue(e);
    var run := e.run.(
      timeLeft := newTime,
      warningTriggered := e.run.warningTriggered || warn,
      nextBeepTime := if beep then newTime - IntervalTime(e.settings) else e.run.nextBeepTime);
    var cues := TickCues(warn, beep, newTime == 0);
    if newTime == 0 then
      Outcome(e.(run := run.(isRunning := false, isPaused := false)), cues)
    else
      Outcome(e.(run := run), cues)
  }

  /** The cues of one tick: the end alarm exactly when the time runs out,
      and then last; the warning and the interval beep exactly when due;
      never a start sound. */
  lemma TickStepCues(e: Engine)
    requires e.run.isRunning && e.run.timeLeft > 0
    ensures var c := TickStep(e).cues;
      Count(c, End) == (if e.run.timeLeft == 1 then 1 else 0)
      && Count(c, Warning) == (if WarningDue(e) then 1 else 0)
      && Count(c, Interval) == (if IntervalDue(e) then 1 else 0)
      && Count(c, Start) == 0
      && (e.run.timeLeft == 1 ==> c[|c| - 1] == End)
  {
    TickCuesCount(WarningDue(e), IntervalDue(e), e.run.timeLeft == 1);
    assert TickStep(e).cues == TickCues(WarningDue(e), IntervalDue(e), e.run.timeLeft == 1);
  }

  /** A tick keeps the engine invariant: the timer stops exactly when the
      time runs out. */
  lemma TickKeepsInv(e: Engine)
    requires Inv(e) && e.run.isRunning && e.run.timeLeft > 0
    ensures Inv(TickStep(e).next)
  {
    var o := TickStep(e);
    assert o.next.settings == e.settings;
    assert o.next.run.timeLeft < e.run.timeLeft;
  }

  /** Pausing a running timer and starting it again puts back exactly the
      state it had, so no threshold already passed can fire again and the
      countdown is not re-seeded; only a start sound is added. */
  lemma PauseThenStart(e: Engine)
    requires e.run.isRunning && !e.run.isPaused && e.run.timeLeft > 0
    ensures StartTimer(PauseTimer(e).next) == Outcome(e, [Start])
  {
  }

  /** After a stop no tick can run, and a start seeds a fresh countdown. */
  lemma StopThenStart(e: Engine)
    requires Duration(e.settings) > 0
    ensures var s := StopTimer(e).next;
      !s.run.isRunning && StartTimer(s).next.run.timeLeft == Duration(e.settings)
      && !StartTimer(s).next.run.warningTriggered
  {
  }
}
