/** Concrete runs of the sleep timer, one per behaviour the widget is meant to show. */
module TimerScenarios {
  import opened Options
  import opened SleepTimer
  import opened TimerProperties
  import Countdown

  /** Start is pressed with the field at "0": nothing happens, the input screen stays. */
  lemma ZeroFieldIsIgnored()
    ensures Step(Init, Submit(Some(0.0))) == Init
    ensures Step(Init, Submit(None)) == Init
    ensures Step(Init, Submit(Some(-3.0))) == Init
    ensures Init.screen == InputScreen
  {
  }

  /**
   * A ten-minute timer, `k` ticks (`k` seconds), then Escape: the
   * countdown has moved by `k` seconds, the input screen is back, and the video is
   * never paused afterwards unless a new timer is started.
   */
  lemma EscapeAfterSomeSeconds(k: nat, later: seq<Event>)
    requires k < 600
    requires forall i :: 0 <= i < |later| ==> !Starts(later[i])
    ensures var started := Step(Init, Submit(Some(10.0)));
            var ticked := Ticks(started, 2, k);
            var escaped := Step(ticked, Escape);
            && started.remainingMs == 600000.0
            && ticked.remainingMs == 600000.0 - 1000.0 * k as real
            && ticked.timerRunning
            && !escaped.timerRunning && escaped.screen == InputScreen
            && Run(escaped, later).pauseCalls == 0
  {
    var started := Step(Init, Submit(Some(10.0)));
    assert started.remainingMs == 600000.0;
    assert started.intervalId == Some(2) && 2 in started.liveIntervals;
    assert started.timerRunning;
    TicksCountDown(started, 2, k);
    var ticked := Ticks(started, 2, k);
    assert ticked.timerRunning;
    assert HandlesHeld(started);
    NoPauseAfterCancel(ReopenCorrected, ticked, later);
  }

  /**
   * A timer of 0.0167 minutes (1002 ms): the one-shot fires and pauses the video once,
   * the countdown screen stays up, and no later event pauses it again without a start.
   */
  lemma ShortTimerPausesOnce(later: seq<Event>)
    requires forall i :: 0 <= i < |later| ==> !Starts(later[i])
    ensures var started := Step(Init, Submit(Some(0.0167)));
            var expired := Step(started, Expire(1, true));
            && started.remainingMs == 1002.0
            && expired.pauseCalls == 1
            && expired.timerRunning && expired.screen == CountdownScreen
            && Run(expired, later).pauseCalls == 1
  {
    var started := Step(Init, Submit(Some(0.0167)));
    var expired := Step(started, Expire(1, true));
    assert expired.liveTimeouts == {};
    PausesBounded(ReopenCorrected, expired, later);
  }
}
