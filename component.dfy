/** The timer component itself: its state fields, updated in place by the
    button handlers and by the one-second tick, and the sounds it has asked
    for so far. Each handler is proved to do what the matching transition of
    `Countdown` says, so every property proved there holds of the component. */
module TimerComponent {
  import opened Clock
  import opened Countdown
  import opened Schedule

  class TimerEngine {
    var mode: Mode
    var hours: nat
    var minutes: nat
    var seconds: nat
    var warningHours: nat
    var warningMinutes: nat
    var warningSeconds: nat
    var intervalHours: nat
    var intervalMinutes: nat
    var intervalSeconds: nat
    var timeLeft: nat
    var isRunning: bool
    var isPaused: bool
    var warningTriggered: bool
    var nextBeepTime: int
    /** Every sound requested so far, oldest first. */
    var cues: seq<Cue>

    /** The settings the fields hold. */
    function Config(): Settings
      reads this`mode, this`hours, this`minutes, this`seconds
      reads this`warningHours, this`warningMinutes, this`warningSeconds
      reads this`intervalHours, this`intervalMinutes, this`intervalSeconds
    {
      Settings(mode, hours, minutes, seconds, warningHours, warningMinutes, warningSeconds,
               intervalHours, intervalMinutes, intervalSeconds)
    }

    /** The engine the fields hold. */
    function Current(): Engine
      reads this
    {
      Engine(Config(), Run(timeLeft, isRunning, isPaused, warningTriggered, nextBeepTime))
    }

    predicate Valid()
      reads this
    {
      Inv(Current())
    }

    /** The component as first rendered: normal mode, all pickers at zero,
        idle, and no sound requested. */
    constructor ()
      ensures Current() == Initial() && cues == []
      ensures Valid()
    {
      mode := Normal;
      hours, minutes, seconds := 0, 0, 0;
      warningHours, warningMinutes, warningSeconds := 0, 0, 0;
      intervalHours, intervalMinutes, intervalSeconds := 0, 0, 0;
      timeLeft := 0;
      isRunning, isPaused, warningTriggered := false, false, false;
      nextBeepTime := 0;
      cues := [];
    }

    /** A press of one of the mode buttons, shown at all times. */
    method SelectMode(m: Mode)
      modifies this
      ensures Current() == Countdown.SelectMode(old(Current()), m) && cues == old(cues)
      ensures old(Valid()) ==> Valid()
    {
      mode := m;
    }

    /** A press of the '+' (`up`) or '-' button of a picker on screen. */
    method Press(p: Picker, up: bool)
      requires PickerShown(Current(), p)
      modifies this
      ensures Current() == PressPicker(old(Current()), p, up) && cues == old(cues)
      ensures old(Valid()) ==> Valid()
    {
      var max := PickerMax(p);
      var value := PickerValue(Config(), p);
      var v := if up then PickerInc(value, max) else PickerDec(value, max);
      match p
      case Hours => hours := v;
      case Minutes => minutes := v;
      case Seconds => seconds := v;
      case WarningHours => warningHours := v;
      case WarningMinutes => warningMinutes := v;
      case WarningSeconds => warningSeconds := v;
      case IntervalHours => intervalHours := v;
      case IntervalMinutes => intervalMinutes := v;
      case IntervalSeconds => intervalSeconds := v;
    }

    /** `startTimer`. */
    method Start()
      modifies this
      ensures Current() == StartTimer(old(Current())).next
      ensures cues == old(cues) + StartTimer(old(Current())).cues
      ensures old(Valid()) ==> Valid()
    {
      ghost var cfg := Config();
      ghost var before := Current();
      if timeLeft == 0 {
        var totalSeconds := TotalSeconds(hours, minutes, seconds);
        if totalSeconds == 0 {
          return;
        }
        timeLeft := totalSeconds;
        if mode == Repeating {
          var intervalTime := TotalSeconds(intervalHours, intervalMinutes, intervalSeconds);
          if intervalTime > 0 && intervalTime < totalSeconds {
            nextBeepTime := totalSeconds - intervalTime;
          }
        }
        warningTriggered := false;
      }
      cues := cues + [Cue.Start];
      isRunning := true;
      isPaused := false;
      assert Config() == cfg;
      if Inv(before) {
        StartKeepsInv(before);
      }
    }

    /** `pauseTimer`. */
    method Pause()
      modifies this
      ensures Current() == PauseTimer(old(Current())).next && cues == old(cues)
      ensures old(Valid()) ==> Valid()
    {
      isRunning := false;
      isPaused := true;
    }

    /** `stopTimer`. */
    method Stop()
      modifies this
      ensures Current() == StopTimer(old(Current())).next && cues == old(cues)
      ensures old(Valid()) ==> Valid()
    {
      isRunning := false;
      isPaused := false;
      timeLeft := 0;
      warningTriggered := false;
      nextBeepTime := 0;
    }

    /** `resetTimer`. */
    method Reset()
      modifies this
      ensures Current() == ResetTimer(old(Current())).next && cues == old(cues)
      ensures old(Valid()) ==> Valid()
    {
      var totalSeconds := TotalSeconds(hours, minutes, seconds);
      timeLeft := totalSeconds;
      isRunning := false;
      isPaused := false;
      warningTriggered := false;
      if mode == Repeating {
        var intervalTime := TotalSeconds(intervalHours, intervalMinutes, intervalSeconds);
        if intervalTime > 0 && intervalTime < totalSeconds {
          nextBeepTime := totalSeconds - intervalTime;
        }
      }
    }

    /** One firing of the one-second interval timer while the timer runs
        with time left: the updater's result becomes the component's state
        and its sounds are requested. */
    method Tick()
      requires isRunning && timeLeft > 0
      modifies this
      ensures Current() == TickStep(old(Current())).next
      ensures cues == old(cues) + TickStep(old(Current())).cues
      ensures old(Valid()) ==> Valid()
    {
      ghost var cfg := Config();
      ghost var before := Current();
      var r, sounds := TickUpdater(Current());
      timeLeft, isRunning, isPaused := r.timeLeft, r.isRunning, r.isPaused;
      warningTriggered, nextBeepTime := r.warningTriggered, r.nextBeepTime;
      cues := cues + sounds;
      assert Config() == cfg;
      assert Current() == Engine(cfg, r);
      if Inv(before) {
        TickKeepsInv(before);
      }
    }

    /** The interval timer left alone until the countdown is over: it fires
        as long as the timer runs with time left, and it stops after exactly
        as many ticks as there were seconds, with the end alarm last. */
    method RunOut()
      requires isRunning && timeLeft > 0
      modifies this
      ensures Current() == Ticks(old(Current()), old(timeLeft)).next
      ensures cues == old(cues) + Ticks(old(Current()), old(timeLeft)).cues
      ensures timeLeft == 0 && !isRunning && !isPaused && cues[|cues| - 1] == End
      ensures old(Valid()) ==> Valid()
    {
      ghost var start := Current();
      ghost var log := cues;
      ghost var k: nat := 0;
      while isRunning && timeLeft > 0
        invariant k <= start.run.timeLeft
        invariant Current() == Ticks(start, k).next
        invariant cues == log + Ticks(start, k).cues
        invariant Inv(start) ==> Valid()
        decreases timeLeft
      {
        NextTick(start, k);
        Tick();
        k := k + 1;
      }
      assert k == start.run.timeLeft;
      RunsOutAfter(start, log);
    }
  }

  /** The `setTimeLeft` updater the interval timer runs every second: from
      the state it sees it computes the next one, sounding the warning, the
      interval beep and the end alarm as they fall due. */
  method TickUpdater(e: Engine) returns (next: Run, sounds: seq<Cue>)
    requires e.run.isRunning && e.run.timeLeft > 0
    ensures TickStep(e) == Outcome(Engine(e.settings, next), sounds)
  {
    var s, r := e.settings, e.run;
    var log: seq<Cue> := [];
    var triggered, beepAt := r.warningTriggered, r.nextBeepTime;
    var running, paused := r.isRunning, r.isPaused;
    var newTime := r.timeLeft - 1;
    if s.mode == Exam && !r.warningTriggered {
      var warningTime := TotalSeconds(s.warningHours, s.warningMinutes, s.warningSeconds);
      if newTime == warningTime {
        log := log + [Warning];
        triggered := true;
      }
    }
    if s.mode == Repeating && newTime > 0 {
      var intervalTime := TotalSeconds(s.intervalHours, s.intervalMinutes, s.intervalSeconds);
      if intervalTime > 0 && newTime == beepAt {
        log := log + [Interval];
        beepAt := newTime - intervalTime;
      }
    }
    var remaining: nat := newTime;
    if newTime <= 0 {
      log := log + [End];
      running, paused := false, false;
      remaining := 0;
    }
    assert log == TickCues(WarningDue(e), IntervalDue(e), newTime == 0);
    next, sounds := Run(remaining, running, paused, triggered, beepAt), log;
  }
}
