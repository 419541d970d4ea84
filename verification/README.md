# Cozy YouTube Sleep Timer — a verified model of the countdown core

The user script `sleep-timer.user.js` puts a small panel on a YouTube page. You type a
number of minutes and press Start (or Enter). The panel then counts down as `M:SS`. When
the time is up, it pauses the page's `<video>`. Cancel, or Escape while the timer runs,
brings back the input screen.

This project models the script's timer logic in Dafny and proves properties about it. The
logic has two parts.

- **The timer state machine** (`timer.dfy`, module `SleepTimer`). The script's module-level
  variables become one immutable `State` record: `timerRunning`, `remainingMs`,
  `lastMinutes`, the held `timeoutId`/`intervalId`, and the countdown element's content
  (`Display`). The record also covers what the host page does. It tracks which schedules
  are still live, the next scheduler handle, which screen is shown, and how many times the
  video was paused. The scheduler is reduced to events. `Tick(h)` and `Expire(h, videoPresent)`
  are the host running the interval or one-shot callback with handle `h`, and a handle that
  is no longer live is never run. `Submit(input)` is the Start button or the Enter key with
  the field already parsed, `None` standing for `NaN`. `CancelClick`, `Escape` and
  `OpenPanel` (the menu command) complete the events.
  Each script function is a pure function on `State`: `StartFromInput`, `StartTimer`,
  `IntervalFires` (the interval callback), `ClearTimers`, `CancelTimer`,
  `RenderInputScreen`, `RenderCountdown`, `UpdateCountdown`, `PauseVideo`,
  `EscapePressed`. `StepWith`/`RunWith` apply events in order. Their `Reopen` argument
  says whether `OpenPanel` behaves as the script does (`ReopenAsWritten`) or with the
  correction described under Findings (`ReopenCorrected`). `Step`/`Run` are the corrected
  machine, on which the invariant is proved. Both machines keep every live schedule held
  (`RunWithKeepsHandlesHeld`), so the pause theorems apply to the states either one reaches.
- **The `M:SS` formatter** (`countdown.dfy`, module `Countdown`, built on the decimal
  helpers in `decimal.dfy`). `Format` follows `updateCountdown`: whole seconds by
  `Math.floor`, then minutes and seconds by division and remainder, then the template with
  `padStart(2, "0")`. `ParseClock` reads a display back. It is proved to be the exact
  inverse of the template `Render`, in both directions. `Format` itself is many-to-one,
  because 1000 ms and 1999 ms both show "0:01". A text is the display of `ms` exactly when
  `ParseClock` reads it as the whole seconds in `ms`.

Properties that span several events are in `timer_properties.dfy`, concrete runs are in
`scenarios.dfy`, and the one defect found is in `reopen_finding.dfy`.

Four behaviours of the code worth noting:

- Cancel leaves `remainingMs` as it was (sleep-timer.user.js:250-261). It is not reset to 0.
- A start stores `minutes * 60 * 1000` without rounding (sleep-timer.user.js:226).
- Expiry changes neither the running flag nor the screen (sleep-timer.user.js:272-275).
  Only Cancel, Escape or reopening the panel returns to the input screen.
- "Not running implies nothing scheduled" is not kept by the code as written. It holds only
  with the correction described under Findings.

## Model

| member | source | states |
|---|---|---|
| SleepTimer.RenderInputScreen | sleep-timer.user.js:204-210 | The input screen is shown with an empty countdown and the running flag cleared. No schedule, handle, remaining time, `lastMinutes` or pause count changes. |
| SleepTimer.RenderCountdown | sleep-timer.user.js:212-216 | The countdown screen is shown. The running flag and everything else stay as they were. |
| SleepTimer.UpdateCountdown | sleep-timer.user.js:263-270 | The countdown element shows the current remaining time. Nothing else changes. |
| SleepTimer.ClearTimers | sleep-timer.user.js:255-261 | The flag is cleared, both handles are dropped, and exactly the held one-shot and interval stop being live. Other schedules, the screen, the display, the remaining time, `lastMinutes`, the pause count and the handle counter are kept. |
| SleepTimer.Accepts | sleep-timer.user.js:223 | The negated check `!minutes \|\| minutes <= 0`, with NaN and 0 falsy, passes exactly when the field holds a positive number. NaN (`None`), zero and negative input are refused. |
| SleepTimer.StartFromInput | sleep-timer.user.js:221-228 | Refused input changes nothing: NaN, zero or negative leaves the whole state as it was. Accepted input sets `lastMinutes` to it, `remainingMs` to minutes × 60000, the running flag and the countdown screen. The display shows the new remaining time and the pause count is untouched. |
| SleepTimer.StartTimer | sleep-timer.user.js:230-248 | Live schedules are the old ones minus the held handles, plus one new one-shot and one new interval. Their handles are fresh: both are at least the old handle counter, the one-shot's is below the interval's, and both are below the new counter. Running, countdown screen, display of the remaining time. |
| SleepTimer.TickStep | sleep-timer.user.js:238-247 | The host runs the interval callback only for a live interval. A tick for a cleared interval changes nothing. |
| SleepTimer.IntervalFires | sleep-timer.user.js:238-247 | Remaining time drops by 1000 ms and is clamped at 0. At 0 the held interval is removed from the live set, otherwise the live set is unchanged. The display is refreshed. The flag, the screen, the one-shot, the held handles and the pause count are untouched. |
| SleepTimer.PauseVideo | sleep-timer.user.js:272-275 | The pause count goes up by one exactly when a video is present. Nothing else changes. |
| SleepTimer.ExpireStep | sleep-timer.user.js:236 | The one-shot runs only if its handle is live, and it is then spent. It pauses at most once. Remaining time, flag, screen, display and interval are untouched. |
| SleepTimer.CancelTimer | sleep-timer.user.js:250-253 | From any state: not running, input screen, blank display, both held handles dropped and their schedules no longer live. Remaining time, `lastMinutes` and the pause count are kept. |
| SleepTimer.EscapePressed | sleep-timer.user.js:280-285 | The state is unchanged if and only if the timer was not running. When it was running the result is exactly `CancelTimer`. Afterwards the timer never runs. |
| SleepTimer.OpenPanelAsWritten | sleep-timer.user.js:157-187 | Reopening the panel shows the input screen with an empty countdown and clears the running flag. Every live schedule stays live, and both handles, the remaining time, `lastMinutes`, the pause count and the handle counter stay as they were. |
| SleepTimer.OpenPanelCorrected | sleep-timer.user.js:157-187 | Reopening the panel clears the flag, shows the input screen with a blank display and cancels the held schedules. |
| SleepTimer.StepWith | sleep-timer.user.js:221-285 | One event, with either reopen. The pause count never goes down. Any event other than an accepted start schedules nothing new, hands out no handle, keeps `lastMinutes` and never raises the remaining time. |
| SleepTimer.RunWith | sleep-timer.user.js:221-285 | Events applied in order, with either reopen. The pause count and the handle counter never go down. |
| Countdown.WholeSeconds | sleep-timer.user.js:264 | The result n is the floor: n·1000 ≤ ms < (n+1)·1000. |
| Countdown.Split | sleep-timer.user.js:265-266 | Seconds are below 60 and minutes·60 + seconds equals the total. |
| Countdown.Render | sleep-timer.user.js:267-269 | The template writes the minutes' digits followed by exactly three characters. Their content is `RenderSpelled`, and `ParseRender`/`RenderParse` invert it. |
| Countdown.RenderSpelled | sleep-timer.user.js:267-269 | The template gives the minutes' decimal digits, a colon, then the tens and units digit of the seconds. |
| Countdown.FormatShape | sleep-timer.user.js:263-270 | Every display is canonical decimal minutes (no leading zero), a colon, and exactly two digits. |
| Countdown.Format | sleep-timer.user.js:263-270 | Every display parses, and it reads back as M and SS with SS < 60 and M·60 + SS = ⌊ms/1000⌋. The converse, that only such a text is the display, is `FormatCharacterized`. |
| Countdown.ParseClock | sleep-timer.user.js:267-269 | The independent reader of a display: canonical minutes, a colon and two digits worth less than 60. Anything it accepts has seconds below 60. Its round trips with `Render` are `ParseRender` and `RenderParse`. |
| Countdown.FormatCharacterized | sleep-timer.user.js:263-270 | A text is the display for `ms` if and only if it parses and its M·60 + SS equals ⌊ms/1000⌋. |
| Countdown.FormatSameText | sleep-timer.user.js:263-270 | Two durations show the same text if and only if they hold the same whole seconds. |
| Countdown.ParseRender | sleep-timer.user.js:267-269 | Parsing a rendered display returns the minutes and seconds it was rendered from. |
| Countdown.RenderParse | sleep-timer.user.js:267-269 | Any text that parses is exactly the rendering of what it parses to. |
| Countdown.FormatExamples | sleep-timer.user.js:263-270 | 125000 → "2:05", 5000 → "0:05", 0 → "0:00", 59999 → "0:59". |
| Decimal.Digits | sleep-timer.user.js:267 | The decimal text of a non-negative integer is never empty, and it starts with '0' exactly when the number is 0. |
| Decimal.ValueOf | sleep-timer.user.js:267 | The reader that inverts `toString`: a string of k digits denotes a number below 10^k. Its round trips with `Digits` are `ValueOfDigits` and `DigitsOfValue`. |
| Decimal.PadStart | sleep-timer.user.js:268-269 | The result's length is the larger of the string's length and the width, and a string already that wide is returned unchanged. Its content is `PadStartKeepsSuffix`. |
| Decimal.DigitsCanonical | sleep-timer.user.js:267 | `toString` of a non-negative integer is digits only, with no leading zero except for 0. |
| Decimal.ValueOfDigits | sleep-timer.user.js:267 | Reading back the decimal text of n gives n. |
| Decimal.DigitsOfValue | sleep-timer.user.js:267 | Writing out the value of a canonical digit string gives the same string. |
| Decimal.PadStartKeepsSuffix | sleep-timer.user.js:268-269 | `padStart` ends with the original string and everything before it is the fill character. Its length is the larger of the two lengths. |
| Decimal.TwoPlaces | sleep-timer.user.js:268-269 | A number below 100 padded to two places is its tens digit followed by its units digit. |
| TimerProperties.StepPreservesInv | sleep-timer.user.js:204-261 | Every event keeps the invariant: `lastMinutes` > 0, remaining ≤ `lastMinutes`·60000, live schedules held, nothing live unless running, running iff countdown screen, display blank on the input screen and showing the remaining time on the countdown screen, an interval live only while time remains. |
| TimerProperties.RunPreservesInv | sleep-timer.user.js:204-261 | The invariant holds after any sequence of events. |
| TimerProperties.StartArmsExactlyOneOfEach | sleep-timer.user.js:230-236 | An accepted start, from any state whose schedules are held, leaves exactly one one-shot and one interval live. Both are held, and none of the earlier live schedules survives. |
| TimerProperties.TickCountsDownOneSecond | sleep-timer.user.js:239-241 | One tick gives max(0, remaining − 1000), strictly lower unless already 0. |
| TimerProperties.TicksCountDown | sleep-timer.user.js:238-247 | After k ticks the remaining time is max(0, d − 1000·k). Flag, screen, one-shot, pause count and held handles are unchanged, and no interval is added. |
| TimerProperties.ZeroStaysZero | sleep-timer.user.js:240-243 | Once the remaining time is 0, any number of ticks keeps it 0. |
| TimerProperties.OnlyCancelStops | sleep-timer.user.js:250-253 | If an event takes a running timer to not running, that event is CancelClick, Escape or OpenPanel. |
| TimerProperties.TickKeepsScreen | sleep-timer.user.js:238-247 | A tick, including the one that reaches zero, changes neither the running flag nor the screen. |
| TimerProperties.ExpireKeepsScreen | sleep-timer.user.js:272-275 | The expiry changes neither the running flag, the screen, the remaining time nor the display. |
| TimerProperties.CancelStopsEverything | sleep-timer.user.js:250-261 | After Cancel nothing is live, and any later tick or expiry is a no-op. |
| TimerProperties.CancelIdempotent | sleep-timer.user.js:250-261 | Cancelling twice is the same as cancelling once. |
| TimerProperties.StepPausePotential | sleep-timer.user.js:236 | For either reopen, any event other than an accepted start never raises pauses + live one-shots. |
| TimerProperties.PausesBounded | sleep-timer.user.js:236 | For either reopen, without a start the pause count grows by at most the number of live one-shots. |
| TimerProperties.StepWithKeepsHandlesHeld | sleep-timer.user.js:157-261 | For either reopen, every event keeps each live schedule's handle held and below the handle counter. The script's own reopen leaves schedules and handles alone. |
| TimerProperties.RunWithKeepsHandlesHeld | sleep-timer.user.js:157-261 | For either reopen, any sequence of events keeps the live schedules held. |
| TimerProperties.ReachableHandlesHeld | sleep-timer.user.js:157-261 | Every state reached from the first panel, with either reopen, holds its live schedules. |
| TimerProperties.ReachablePausesAtMostOnce | sleep-timer.user.js:157-261 | From any reachable state the video is paused at most once until the next start. This holds with the script's own reopen as well as the corrected one. |
| TimerProperties.PauseAtMostOncePerStart | sleep-timer.user.js:230-261 | Without a new start the video is paused at most once, in any interleaving of events, for either reopen, from any state whose live schedules are held. |
| TimerProperties.NoPauseAfterCancel | sleep-timer.user.js:250-261 | For either reopen, after Cancel the video is never paused again until the next start. |
| TimerProperties.NoStartSchedulesNothing | sleep-timer.user.js:221-285 | For either reopen, a run without an accepted start adds no live schedule, hands out no handle and never raises the remaining time. |
| TimerScenarios.ZeroFieldIsIgnored | sleep-timer.user.js:222-223 | Start with 0, an unparsable field, or −3 leaves the initial state unchanged. |
| TimerScenarios.EscapeAfterSomeSeconds | sleep-timer.user.js:280-285 | A 10-minute start gives 600000 ms, and k < 600 ticks give 600000 − 1000k while still running. Escape then shows the input screen, and no later event without a start pauses the video. |
| TimerScenarios.ShortTimerPausesOnce | sleep-timer.user.js:272-275 | A 0.0167-minute start gives 1002 ms. Its expiry pauses once and keeps the countdown screen, and nothing later without a start pauses again. |
| ReopenFinding.OpenAsWrittenOrphansPause | sleep-timer.user.js:157-210 | From any reachable running state with a pending pause, the as-written reopen breaks the invariant. The flag is cleared and the input screen shown, yet the pause is still live. Escape is then a no-op and the pending expiry still pauses the video. |
| ReopenFinding.OpenAsWrittenCounterexample | sleep-timer.user.js:157-210 | Start 10 minutes, then reopen. The input screen shows, Escape does nothing, the next tick writes "9:59" onto the input screen, and the one-shot still pauses the video. |
| ReopenFinding.OpenCorrectedCancels | sleep-timer.user.js:157-210 | The corrected reopen keeps the invariant and leaves nothing live. No later event without a start pauses the video. |

## Findings

| source | as written | input that shows it | evidently intended | confidence | as-written member | corrected member |
|---|---|---|---|---|---|---|
| sleep-timer.user.js:157-187 | When a panel already exists, `createPanel` replaces it and calls `renderInputScreen`, which sets `timerRunning = false`. It never calls `clearTimers`, so the running one-shot and interval stay scheduled. | Start 10 minutes, then choose "Open Sleep Timer" from the menu again. The input screen appears, Escape is ignored and Cancel is hidden. The ticks keep writing "9:59", "9:58", … above the field, and the video is still paused at the end. | A reopened panel discards the running timer, i.e. it cancels it (`cancelTimer`), so that "not running" again means "nothing scheduled". | medium; not executed | SleepTimer.OpenPanelAsWritten (shown by ReopenFinding.OpenAsWrittenCounterexample and ReopenFinding.OpenAsWrittenOrphansPause) | SleepTimer.OpenPanelCorrected (ReopenFinding.OpenCorrectedCancels); `Step` uses it for `OpenPanel` |

## Left out

- Floating point: `parseFloat`, and IEEE rounding in `minutes * 60 * 1000` (sleep-timer.user.js:222, 226). The field arrives already parsed as `Option<real>`, and arithmetic on minutes and milliseconds is exact real arithmetic. An input of `Infinity` and timers long enough to lose precision are not modelled.
- Timing and ordering: when the host delivers `Tick` and `Expire`, and in which order, is left open. Any interleaving is allowed. The delay given to `setTimeout` is not recorded, so neither is the host's treatment of delays above 2^31−1 ms.
- Handle values: the host's numbering is modelled as a counter that starts at 1 and is shared by both kinds of schedule.
- DOM and CSS: the style injection (sleep-timer.user.js:33-117), dragging (122-152), element creation and wiring (157-199), the focus handler that empties the field, and pre-filling the field with `lastMinutes` are presentation only. The Enter key and the Start button are the same `Submit` event. `preventDefault` on Escape is omitted.
- The model lets `Submit` occur on either screen, because `startFromInput` has no guard. The page only offers it on the input screen.
- `document.querySelector("video")` becomes the event's `videoPresent` flag, and `video.pause()` becomes an increment of `pauseCalls`.
- Menu registration and the immediate fallback (sleep-timer.user.js:290-294): `Init` is the state right after the first `createPanel`. Before that, the only handler present is Escape, and it does nothing because the timer is not running.
- `Number.prototype.toString` switches to exponent notation at 10^21. `Decimal.Digits` always writes positional digits, which matters only once the minute count reaches 10^21.
