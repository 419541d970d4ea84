/** Properties of the sleep timer that relate several states or several events. */
module TimerProperties {
  import opened Options
  import opened SleepTimer
  import Countdown

  /**
   * Every live schedule is one whose handle is held, so `clearTimers` can reach it, and
   * the held handles were all handed out before the host's next one.
   */
  predicate HandlesHeld(s: State) {
    && s.liveTimeouts <= Held(s.timeoutId)
    && s.liveIntervals <= Held(s.intervalId)
    && (s.timeoutId.Some? ==> s.timeoutId.value < s.nextHandle)
    && (s.intervalId.Some? ==> s.intervalId.value < s.nextHandle)
  }

  /** What holds of every state the timer reaches. */
  predicate Inv(s: State) {
    && s.lastMinutes > 0.0
    && s.remainingMs <= MinutesToMs(s.lastMinutes)
    && HandlesHeld(s)
    && (!s.timerRunning ==> s.liveTimeouts == {} && s.liveIntervals == {})
    && (s.timerRunning <==> s.screen == CountdownScreen)
    && (s.screen == InputScreen ==> s.display == Blank)
    && (s.screen == CountdownScreen ==> s.display == Showing(s.remainingMs))
    && (s.liveIntervals != {} ==> s.remainingMs > 0.0)
  }

  lemma InitSatisfiesInv()
    ensures Inv(Init)
  {
  }

  /** Each event, on a state satisfying the invariant, yields a state satisfying it. */
  lemma StepPreservesInv(s: State, e: Event)
    requires Inv(s)
    ensures Inv(Step(s, e))
  {
  }

  /** The invariant holds after any sequence of events. */
  lemma {:induction false} RunPreservesInv(s: State, events: seq<Event>)
    requires Inv(s)
    ensures Inv(Run(s, events))
    decreases |events|
  {
    if |events| > 0 {
      StepPreservesInv(s, events[0]);
      RunPreservesInv(Step(s, events[0]), events[1..]);
    }
  }

  lemma ReachableSatisfiesInv(events: seq<Event>)
    ensures Inv(Run(Init, events))
  {
    RunPreservesInv(Init, events);
  }

  // ---------------------------------------------------------------- starting

  /**
   * An accepted start cancels every schedule it held before and leaves exactly one
   * one-shot and one interval live, both held; so a restart never leaves two of either.
   */
  lemma StartArmsExactlyOneOfEach(s: State, input: Option<real>)
    requires HandlesHeld(s) && Accepts(input)
    ensures var t := StartFromInput(s, input);
            && t.liveTimeouts == {t.timeoutId.value}
            && t.liveIntervals == {t.intervalId.value}
            && |t.liveTimeouts| == 1 && |t.liveIntervals| == 1
            && (forall h :: h in s.liveTimeouts ==> h !in t.liveTimeouts)
            && (forall h :: h in s.liveIntervals ==> h !in t.liveIntervals)
  {
  }

  // ---------------------------------------------------------------- ticking

  /** `k` deliveries of the tick for handle `h`. */
  function Ticks(s: State, h: Handle, k: nat): State
    decreases k
  {
    if k == 0 then s else Ticks(TickStep(s, h), h, k - 1)
  }

  function Max0(x: real): real {
    if x <= 0.0 then 0.0 else x
  }

  /** One tick lowers the remaining time by a second and never below zero. */
  lemma TickCountsDownOneSecond(s: State, h: Handle)
    requires h in s.liveIntervals
    ensures TickStep(s, h).remainingMs == Max0(s.remainingMs - 1000.0)
    ensures TickStep(s, h).remainingMs < s.remainingMs || s.remainingMs == 0.0
  {
  }

  /**
   * After `k` ticks of the held interval the remaining time is max(0, d - 1000 k);
   * the flag, the screen, the one-shot schedule and the pause count are untouched.
   */
  lemma {:induction false} TicksCountDown(s: State, h: Handle, k: nat)
    requires s.intervalId == Some(h)
    requires h in s.liveIntervals || s.remainingMs == 0.0
    ensures Ticks(s, h, k).remainingMs == Max0(s.remainingMs - 1000.0 * k as real)
    ensures Ticks(s, h, k).timerRunning == s.timerRunning
    ensures Ticks(s, h, k).screen == s.screen
    ensures Ticks(s, h, k).liveTimeouts == s.liveTimeouts
    ensures Ticks(s, h, k).pauseCalls == s.pauseCalls
    ensures Ticks(s, h, k).timeoutId == s.timeoutId && Ticks(s, h, k).intervalId == s.intervalId
    ensures Ticks(s, h, k).nextHandle == s.nextHandle
    ensures Ticks(s, h, k).liveIntervals <= s.liveIntervals
    decreases k
  {
    if k > 0 {
      var t := TickStep(s, h);
      assert t.intervalId == Some(h);
      assert h in t.liveIntervals || t.remainingMs == 0.0;
      TicksCountDown(t, h, k - 1);
      assert Max0(t.remainingMs - 1000.0 * (k - 1) as real) == Max0(s.remainingMs - 1000.0 * k as real);
    }
  }

  /** Once the remaining time is zero it stays zero, whatever the host delivers. */
  lemma {:induction false} ZeroStaysZero(s: State, h: Handle, k: nat)
    requires s.remainingMs == 0.0
    ensures Ticks(s, h, k).remainingMs == 0.0
    ensures Ticks(s, h, k).display in {s.display, Showing(0.0)}
    decreases k
  {
    if k > 0 {
      var t := TickStep(s, h);
      ZeroStaysZero(t, h, k - 1);
    }
  }

  /**
   * Only the cancel paths stop the timer: neither the tick reaching zero nor the expiry
   * clears the flag or leaves the countdown screen.
   */
  lemma OnlyCancelStops(s: State, e: Event)
    requires s.timerRunning && !Step(s, e).timerRunning
    ensures e.CancelClick? || e.Escape? || e.OpenPanel?
  {
  }

  /** The interval callback, even when it reaches zero, leaves the flag and the screen alone. */
  lemma TickKeepsScreen(s: State, h: Handle)
    ensures TickStep(s, h).timerRunning == s.timerRunning
    ensures TickStep(s, h).screen == s.screen
  {
  }

  /** The expiry pauses the video and leaves the flag, the screen and the countdown alone. */
  lemma ExpireKeepsScreen(s: State, h: Handle, videoPresent: bool)
    ensures ExpireStep(s, h, videoPresent).timerRunning == s.timerRunning
    ensures ExpireStep(s, h, videoPresent).screen == s.screen
    ensures ExpireStep(s, h, videoPresent).remainingMs == s.remainingMs
    ensures ExpireStep(s, h, videoPresent).display == s.display
  {
  }

  // ---------------------------------------------------------------- cancelling

  /** Cancel, from any state whose schedules are held, leaves nothing scheduled. */
  lemma CancelStopsEverything(s: State)
    requires HandlesHeld(s)
    ensures CancelTimer(s).liveTimeouts == {} && CancelTimer(s).liveIntervals == {}
    ensures forall h :: TickStep(CancelTimer(s), h) == CancelTimer(s)
    ensures forall h, v :: ExpireStep(CancelTimer(s), h, v) == CancelTimer(s)
  {
  }

  lemma CancelIdempotent(s: State)
    ensures CancelTimer(CancelTimer(s)) == CancelTimer(s)
  {
  }

  // ---------------------------------------------------------------- pausing

  /**
   * Every event keeps the live schedules held, whichever way the menu command is
   * handled: the as-written reopen leaves the schedules and their handles alone.
   */
  lemma StepWithKeepsHandlesHeld(reopen: Reopen, s: State, e: Event)
    requires HandlesHeld(s)
    ensures HandlesHeld(StepWith(reopen, s, e))
  {
  }

  lemma {:induction false} RunWithKeepsHandlesHeld(reopen: Reopen, s: State, events: seq<Event>)
    requires HandlesHeld(s)
    ensures HandlesHeld(RunWith(reopen, s, events))
    decreases |events|
  {
    if |events| > 0 {
      StepWithKeepsHandlesHeld(reopen, s, events[0]);
      RunWithKeepsHandlesHeld(reopen, StepWith(reopen, s, events[0]), events[1..]);
    }
  }

  /** Every state reachable from the first panel, with either reopen, holds its schedules. */
  lemma ReachableHandlesHeld(reopen: Reopen, events: seq<Event>)
    ensures HandlesHeld(RunWith(reopen, Init, events))
  {
    InitSatisfiesInv();
    RunWithKeepsHandlesHeld(reopen, Init, events);
  }

  /**
   * Pauses already made plus one-shot schedules still to run never grow without a start,
   * whichever way the menu command is handled.
   */
  lemma StepPausePotential(reopen: Reopen, s: State, e: Event)
    requires !Starts(e)
    ensures var t := StepWith(reopen, s, e);
            t.pauseCalls + |t.liveTimeouts| <= s.pauseCalls + |s.liveTimeouts|
  {
  }

  /** Without a new start, the video is paused at most once per live one-shot schedule. */
  lemma {:induction false} PausesBounded(reopen: Reopen, s: State, events: seq<Event>)
    requires forall i :: 0 <= i < |events| ==> !Starts(events[i])
    ensures s.pauseCalls <= RunWith(reopen, s, events).pauseCalls <= s.pauseCalls + |s.liveTimeouts|
    decreases |events|
  {
    if |events| > 0 {
      StepPausePotential(reopen, s, events[0]);
      PausesBounded(reopen, StepWith(reopen, s, events[0]), events[1..]);
    }
  }

  /**
   * Each start pauses the video at most once, however the host interleaves events, and
   * whether the menu command reopens the panel as written or as corrected.
   */
  lemma PauseAtMostOncePerStart(reopen: Reopen, s: State, events: seq<Event>)
    requires HandlesHeld(s)
    requires forall i :: 0 <= i < |events| ==> !Starts(events[i])
    ensures RunWith(reopen, s, events).pauseCalls <= s.pauseCalls + 1
  {
    PausesBounded(reopen, s, events);
    if s.liveTimeouts != {} {
      var h :| h in s.liveTimeouts;
      assert s.liveTimeouts == {h};
    }
  }

  /**
   * From any reachable state, with the script's own reopen as much as with the corrected
   * one, the video is paused at most once until the next start.
   */
  lemma ReachablePausesAtMostOnce(reopen: Reopen, before: seq<Event>, after: seq<Event>)
    requires forall i :: 0 <= i < |after| ==> !Starts(after[i])
    ensures var s := RunWith(reopen, Init, before);
            RunWith(reopen, s, after).pauseCalls <= s.pauseCalls + 1
  {
    ReachableHandlesHeld(reopen, before);
    PauseAtMostOncePerStart(reopen, RunWith(reopen, Init, before), after);
  }

  /** After a cancel the video is never paused again until the next start. */
  lemma NoPauseAfterCancel(reopen: Reopen, s: State, events: seq<Event>)
    requires HandlesHeld(s)
    requires forall i :: 0 <= i < |events| ==> !Starts(events[i])
    ensures RunWith(reopen, CancelTimer(s), events).pauseCalls == s.pauseCalls
  {
    PausesBounded(reopen, CancelTimer(s), events);
  }

  /**
   * Without a start nothing new is ever scheduled, no handle is handed out and the
   * remaining time never rises.
   */
  lemma {:induction false} NoStartSchedulesNothing(reopen: Reopen, s: State, events: seq<Event>)
    requires forall i :: 0 <= i < |events| ==> !Starts(events[i])
    ensures var t := RunWith(reopen, s, events);
            && t.liveTimeouts <= s.liveTimeouts && t.liveIntervals <= s.liveIntervals
            && t.nextHandle == s.nextHandle && t.remainingMs <= s.remainingMs
    decreases |events|
  {
    if |events| > 0 {
      NoStartSchedulesNothing(reopen, StepWith(reopen, s, events[0]), events[1..]);
    }
  }
}
