/**
 * The sleep timer's state machine. The page's scheduler is abstracted into events:
 * the host delivers `Tick(h)` when the repeating one-second schedule `h` comes due and
 * `Expire(h, _)` when the one-shot schedule `h` does; the user delivers `Submit` (Start
 * button or Enter), `CancelClick`, `Escape` and `OpenPanel` (the menu command).
 * Schedules are identified by handles, as `setTimeout`/`setInterval` return them, so a
 * schedule left running without its handle being held would be visible in the state.
 */
module SleepTimer {
  import opened Options
  import Countdown

  /** A scheduler handle, as returned by `setTimeout` and `setInterval`. */
  type Handle = nat

  /** Which of the panel's two screens is displayed. */
  datatype Screen = InputScreen | CountdownScreen

  /**
   * What the countdown element holds: nothing, or the display of a remaining time as
   * `updateCountdown` last wrote it.
   */
  datatype Display = Blank | Showing(ms: Countdown.Millis)

  /** The element's text content. */
  function DisplayText(d: Display): string {
    match d
    case Blank => ""
    case Showing(ms) => Countdown.Format(ms)
  }

  datatype State = State(
    timerRunning: bool,
    remainingMs: Countdown.Millis,
    lastMinutes: real,
    timeoutId: Option<Handle>,      // handle held for the one-shot pause schedule
    intervalId: Option<Handle>,     // handle held for the repeating tick schedule
    liveTimeouts: set<Handle>,      // one-shot schedules the host will still run
    liveIntervals: set<Handle>,     // repeating schedules the host will still run
    nextHandle: Handle,             // the handle the host hands out next
    screen: Screen,
    display: Display,               // content of the countdown element
    pauseCalls: nat)                // times the page's video has been paused

  datatype Event =
    | Submit(input: Option<real>)   // the minutes field as parsed; None when unparsable
    | Tick(handle: Handle)
    | Expire(handle: Handle, videoPresent: bool)
    | CancelClick
    | Escape
    | OpenPanel

  /** The state once the panel is first shown: 55 minutes offered, nothing scheduled. */
  const Init := State(false, 0.0, 55.0, None, None, {}, {}, 1, InputScreen, Blank, 0)

  function Held(id: Option<Handle>): set<Handle> {
    if id.Some? then {id.value} else {}
  }

  /** The duration in milliseconds of a minute count. */
  function MinutesToMs(minutes: real): real {
    minutes * 60.0 * 1000.0
  }

  // ---------------------------------------------------------------- screens

  /** `renderInputScreen`: the input screen is shown and the timer counts as stopped. */
  function RenderInputScreen(s: State): (t: State)
    ensures !t.timerRunning && t.screen == InputScreen && t.display == Blank
    ensures t.liveTimeouts == s.liveTimeouts && t.liveIntervals == s.liveIntervals
    ensures t.timeoutId == s.timeoutId && t.intervalId == s.intervalId
    ensures t.remainingMs == s.remainingMs && t.lastMinutes == s.lastMinutes
    ensures t.pauseCalls == s.pauseCalls && t.nextHandle == s.nextHandle
  {
    s.(timerRunning := false, display := Blank, screen := InputScreen)
  }

  /** `renderCountdown`: the countdown screen is shown; the timer flag is left alone. */
  function RenderCountdown(s: State): (t: State)
    ensures t.screen == CountdownScreen && t.timerRunning == s.timerRunning
    ensures t.(screen := s.screen) == s
  {
    s.(screen := CountdownScreen)
  }

  /** `updateCountdown`: the countdown element shows the remaining time. */
  function UpdateCountdown(s: State): (t: State)
    ensures t.display == Showing(s.remainingMs)
    ensures t.(display := s.display) == s
  {
    s.(display := Showing(s.remainingMs))
  }

  // ---------------------------------------------------------------- schedules

  /** `clearTimers`: cancels the two held schedules and forgets their handles. */
  function ClearTimers(s: State): (t: State)
    ensures !t.timerRunning && t.timeoutId == None && t.intervalId == None
    ensures t.liveTimeouts == s.liveTimeouts - Held(s.timeoutId)
    ensures t.liveIntervals == s.liveIntervals - Held(s.intervalId)
    ensures t.screen == s.screen && t.display == s.display
    ensures t.remainingMs == s.remainingMs && t.lastMinutes == s.lastMinutes
    ensures t.pauseCalls == s.pauseCalls && t.nextHandle == s.nextHandle
  {
    s.(timerRunning := false,
       liveTimeouts := s.liveTimeouts - Held(s.timeoutId),
       liveIntervals := s.liveIntervals - Held(s.intervalId),
       timeoutId := None,
       intervalId := None)
  }

  /** `startTimer`: replaces any held schedules by a fresh one-shot and a fresh interval. */
  function StartTimer(s: State): (t: State)
    ensures t.timerRunning && t.screen == CountdownScreen
    ensures t.remainingMs == s.remainingMs && t.lastMinutes == s.lastMinutes
    ensures t.display == Showing(s.remainingMs)
    ensures t.timeoutId.Some? && t.intervalId.Some?
    ensures s.nextHandle <= t.timeoutId.value < t.intervalId.value < t.nextHandle
    ensures t.liveTimeouts == (s.liveTimeouts - Held(s.timeoutId)) + Held(t.timeoutId)
    ensures t.liveIntervals == (s.liveIntervals - Held(s.intervalId)) + Held(t.intervalId)
    ensures t.pauseCalls == s.pauseCalls
  {
    var cleared := ClearTimers(s);
    var shown := UpdateCountdown(RenderCountdown(cleared.(timerRunning := true)));
    var timeout := shown.nextHandle;
    var interval := timeout + 1;
    shown.(timeoutId := Some(timeout),
           liveTimeouts := shown.liveTimeouts + {timeout},
           intervalId := Some(interval),
           liveIntervals := shown.liveIntervals + {interval},
           nextHandle := interval + 1)
  }

  // ---------------------------------------------------------------- handlers

  /** JavaScript truthiness of the parsed field: NaN (`None`) and zero are falsy. */
  predicate Falsy(input: Option<real>) {
    input.None? || input.value == 0.0
  }

  /**
   * The validation `!minutes || minutes <= 0`, negated: the start goes ahead exactly when
   * the field holds a positive number, so NaN, zero and negative counts are refused.
   */
  predicate Accepts(input: Option<real>)
    ensures Accepts(input) <==> input.Some? && input.value > 0.0
  {
    !(Falsy(input) || input.value <= 0.0)
  }

  /** `startFromInput`: a refused input changes nothing; an accepted one starts the timer. */
  function StartFromInput(s: State, input: Option<real>): (t: State)
    ensures !Accepts(input) ==> t == s
    ensures Accepts(input) ==>
              && t.lastMinutes == input.value
              && t.remainingMs == input.value * 60000.0
              && t.timerRunning && t.screen == CountdownScreen
              && t.display == Showing(t.remainingMs)
              && t.pauseCalls == s.pauseCalls
  {
    if !Accepts(input) then s
    else
      var minutes := input.value;
      StartTimer(s.(lastMinutes := minutes, remainingMs := MinutesToMs(minutes)))
  }

  /**
   * The interval callback: one second less, never below zero; on reaching zero the
   * held interval is cleared. The timer flag and the screen are not touched.
   */
  function IntervalFires(s: State): (t: State)
    ensures t.remainingMs == if s.remainingMs - 1000.0 <= 0.0 then 0.0 else s.remainingMs - 1000.0
    ensures t.display == Showing(t.remainingMs)
    ensures t.remainingMs == 0.0 ==> t.liveIntervals == s.liveIntervals - Held(s.intervalId)
    ensures t.remainingMs > 0.0 ==> t.liveIntervals == s.liveIntervals
    ensures t.timerRunning == s.timerRunning && t.screen == s.screen
    ensures t.lastMinutes == s.lastMinutes && t.pauseCalls == s.pauseCalls
    ensures t.timeoutId == s.timeoutId && t.intervalId == s.intervalId
    ensures t.liveTimeouts == s.liveTimeouts && t.nextHandle == s.nextHandle
  {
    var r := s.remainingMs - 1000.0;
    if r <= 0.0 then
      var shown := UpdateCountdown(s.(remainingMs := 0.0));
      shown.(liveIntervals := shown.liveIntervals - Held(shown.intervalId))
    else
      UpdateCountdown(s.(remainingMs := r))
  }

  /** The host runs the interval callback only for a live interval. */
  function TickStep(s: State, h: Handle): (t: State)
    ensures h !in s.liveIntervals ==> t == s
    ensures h in s.liveIntervals ==> t == IntervalFires(s)
  {
    if h in s.liveIntervals then IntervalFires(s) else s
  }

  /** `pauseVideo`: pauses the page's video if there is one; the timer state is untouched. */
  function PauseVideo(s: State, videoPresent: bool): (t: State)
    ensures t.pauseCalls == if videoPresent then s.pauseCalls + 1 else s.pauseCalls
    ensures t.(pauseCalls := s.pauseCalls) == s
  {
    if videoPresent then s.(pauseCalls := s.pauseCalls + 1) else s
  }

  /** The one-shot schedule runs once, for a live handle only, and is then spent. */
  function ExpireStep(s: State, h: Handle, videoPresent: bool): (t: State)
    ensures h !in s.liveTimeouts ==> t == s
    ensures h in s.liveTimeouts ==>
              && t.liveTimeouts == s.liveTimeouts - {h}
              && t.pauseCalls == (if videoPresent then s.pauseCalls + 1 else s.pauseCalls)
              && t.timerRunning == s.timerRunning && t.lastMinutes == s.lastMinutes
              && t.timeoutId == s.timeoutId && t.nextHandle == s.nextHandle
              && t.remainingMs == s.remainingMs
              && t.screen == s.screen && t.display == s.display
              && t.liveIntervals == s.liveIntervals && t.intervalId == s.intervalId
  {
    if h in s.liveTimeouts then PauseVideo(s.(liveTimeouts := s.liveTimeouts - {h}), videoPresent)
    else s
  }

  /** `cancelTimer`: clears the schedules and goes back to the input screen. */
  function CancelTimer(s: State): (t: State)
    ensures !t.timerRunning && t.screen == InputScreen && t.display == Blank
    ensures t.timeoutId == None && t.intervalId == None
    ensures t.liveTimeouts == s.liveTimeouts - Held(s.timeoutId)
    ensures t.liveIntervals == s.liveIntervals - Held(s.intervalId)
    ensures t.remainingMs == s.remainingMs && t.lastMinutes == s.lastMinutes
    ensures t.pauseCalls == s.pauseCalls && t.nextHandle == s.nextHandle
  {
    RenderInputScreen(ClearTimers(s))
  }

  /** The document's keydown handler for Escape: cancels only while the timer runs. */
  function EscapePressed(s: State): (t: State)
    ensures t == s <==> !s.timerRunning
    ensures !t.timerRunning
    ensures s.timerRunning ==> t == CancelTimer(s)
  {
    if s.timerRunning then CancelTimer(s) else s
  }

  /**
   * `createPanel` as written, for the menu command re-run while a panel is up: the new
   * panel starts on the input screen (`renderInputScreen`), but the schedules are kept.
   */
  function OpenPanelAsWritten(s: State): (t: State)
    ensures !t.timerRunning && t.screen == InputScreen && t.display == Blank
    ensures t.liveTimeouts == s.liveTimeouts && t.liveIntervals == s.liveIntervals
    ensures t.timeoutId == s.timeoutId && t.intervalId == s.intervalId
    ensures t.remainingMs == s.remainingMs && t.lastMinutes == s.lastMinutes
    ensures t.pauseCalls == s.pauseCalls && t.nextHandle == s.nextHandle
  {
    RenderInputScreen(s)
  }

  /**
   * `createPanel` as intended: a reopened panel discards the running timer with it, so
   * the held schedules are cancelled along with the flag.
   */
  function OpenPanelCorrected(s: State): (t: State)
    ensures !t.timerRunning && t.screen == InputScreen && t.display == Blank
    ensures t.liveTimeouts == s.liveTimeouts - Held(s.timeoutId)
    ensures t.liveIntervals == s.liveIntervals - Held(s.intervalId)
    ensures t.lastMinutes == s.lastMinutes && t.pauseCalls == s.pauseCalls
  {
    CancelTimer(s)
  }

  /** How the menu command treats a panel that is already up. */
  datatype Reopen = ReopenAsWritten | ReopenCorrected

  /** An accepted Start: the only event that schedules anything. */
  predicate Starts(e: Event) {
    e.Submit? && Accepts(e.input)
  }

  /**
   * One event, with `OpenPanel` handled as `reopen` says. The pause count never goes
   * down, and any event other than an accepted start schedules nothing, hands out no
   * handle and never raises the remaining time.
   */
  function StepWith(reopen: Reopen, s: State, e: Event): (t: State)
    ensures s.pauseCalls <= t.pauseCalls
    ensures !Starts(e) ==>
              && t.liveTimeouts <= s.liveTimeouts && t.liveIntervals <= s.liveIntervals
              && t.nextHandle == s.nextHandle && t.lastMinutes == s.lastMinutes
              && t.remainingMs <= s.remainingMs
  {
    match e
    case Submit(input) => StartFromInput(s, input)
    case Tick(h) => TickStep(s, h)
    case Expire(h, videoPresent) => ExpireStep(s, h, videoPresent)
    case CancelClick => CancelTimer(s)
    case Escape => EscapePressed(s)
    case OpenPanel =>
      if reopen == ReopenAsWritten then OpenPanelAsWritten(s) else OpenPanelCorrected(s)
  }

  /** Events applied in order; the pause count and the handle counter never go down. */
  function RunWith(reopen: Reopen, s: State, events: seq<Event>): (t: State)
    ensures s.pauseCalls <= t.pauseCalls && s.nextHandle <= t.nextHandle
    decreases |events|
  {
    if |events| == 0 then s else RunWith(reopen, StepWith(reopen, s, events[0]), events[1..])
  }

  /** The machine with the corrected reopen, on which the invariant is proved. */
  function Step(s: State, e: Event): State {
    StepWith(ReopenCorrected, s, e)
  }

  function Run(s: State, events: seq<Event>): State {
    RunWith(ReopenCorrected, s, events)
  }
}
