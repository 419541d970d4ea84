/**
 * Re-running the "Open Sleep Timer" menu command while a timer runs. As written,
 * `createPanel` builds a fresh panel and calls `renderInputScreen`, which clears the
 * running flag, but it never calls `clearTimers`: the one-shot and the interval stay live.
 * The pause still fires, Escape no longer cancels, the Cancel button is hidden, and the
 * ticks keep writing the countdown onto the input screen. The corrected reopen cancels
 * the timer and keeps every invariant of the machine.
 */
module ReopenFinding {
  import opened Options
  import opened SleepTimer
  import opened TimerProperties
  import Countdown

  /**
   * From any running state with a pending pause, the as-written reopen shows the input
   * screen with the flag cleared while the pause is still scheduled; Escape then does
   * nothing and the scheduled pause still pauses the video.
   */
  lemma OpenAsWrittenOrphansPause(s: State, videoPresent: bool)
    requires Inv(s) && s.timerRunning && s.liveTimeouts != {}
    ensures var t := OpenPanelAsWritten(s);
            && !t.timerRunning && t.screen == InputScreen
            && t.timeoutId.Some? && t.timeoutId.value in t.liveTimeouts
            && EscapePressed(t) == t
            && ExpireStep(t, t.timeoutId.value, true).pauseCalls == t.pauseCalls + 1
            && !Inv(t)
  {
  }

  /**
   * The concrete run: a ten-minute timer, the menu command, then the interval's next
   * tick writes "9:59" under the input screen and the one-shot pauses the video.
   */
  lemma OpenAsWrittenCounterexample()
    ensures var started := StartFromInput(Init, Some(10.0));
            var reopened := OpenPanelAsWritten(started);
            var ticked := TickStep(reopened, 2);
            && started.timeoutId == Some(1) && started.intervalId == Some(2)
            && reopened.screen == InputScreen && !reopened.timerRunning
            && EscapePressed(reopened) == reopened
            && ticked.screen == InputScreen && DisplayText(ticked.display) == "9:59"
            && ExpireStep(reopened, 1, true).pauseCalls == 1
  {
    Countdown.FormatExample(599000.0, 9, 59, "9:59");
  }

  /**
   * The corrected reopen: from any reachable state the new panel shows the input screen,
   * nothing is left scheduled, and no later event pauses the video without a new start.
   */
  lemma OpenCorrectedCancels(s: State, later: seq<Event>)
    requires Inv(s)
    requires forall i :: 0 <= i < |later| ==> !Starts(later[i])
    ensures var t := OpenPanelCorrected(s);
            && Inv(t)
            && !t.timerRunning && t.screen == InputScreen
            && t.liveTimeouts == {} && t.liveIntervals == {}
            && Run(t, later).pauseCalls == s.pauseCalls
  {
    var t := OpenPanelCorrected(s);
    StepPreservesInv(s, OpenPanel);
    PausesBounded(ReopenCorrected, t, later);
  }
}
