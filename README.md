# Swipe navigation: gesture recogniser and navigation dispatcher

A Dafny model of the core of the Obsidian "Swipe Navigation" plugin
(`SwipeNavigationPlugin` in `src/main.ts`). The plugin turns horizontal
trackpad swipes into "go back" / "go forward" commands. It has two input
adapters:

- **Two-finger adapter.** It listens to wheel events. Each event is
  filtered: the plugin may be disabled, vertical motion may dominate
  (`|dy| * 2.5 > |dx|`), or the motion may be sub-pixel noise
  (`|dx| < 1`). An event that passes re-arms a 200 ms idle timer. A
  gesture only starts with one event of at least 25 px. After that the
  deltas are summed, and the direction is the sign of the sum. When the
  sum changes sign, the gesture restarts from the current delta. The
  indicator for the current direction shows `|sum| / (sensitivity * 3)`,
  clamped to [0, 1]. The navigation is armed once that ratio reaches 1.
  It only fires when the idle timer expires ("finger lifted").
- **Three-finger adapter.** It takes the window's `swipe` event:
  'left' means back, 'right' means forward. There is no accumulation.

Both adapters go through one dispatcher. It drops a request that comes
less than 300 ms after the last dispatched one, in either direction.
Otherwise it records the time and executes the host command. A mode
selector tears down the current adapter and installs exactly one new one.
It falls back to two-finger mode when the window cannot be reached.

Layout:

- `types.dfy` (`SwipeTypes`): directions, settings, the tuning constants
  and the outcome of a navigation request.
- `indicators.dfy` (`Indicators`): each indicator reduced to
  `(progress, ready)`, and the clamp.
- `navigation.dfy` (`Navigation`): `canNavigate`, the command names and
  the cooldown test.
- `recognizer.dfy` (`Recognizer`): the plugin's fields as one value
  (`State`) and each event handler as a function on it. It also holds the
  invariant `Inv`: the direction is the sign of the sum, the lock is
  never left set, nothing accumulates before activation, a reached
  threshold has an active gesture with a direction, at most one listener
  (wheel or window) is attached in all, and both indicators are well
  formed. The listeners are counted, so a setup that left an old
  listener attached would show as a count of two.
- `recognizer_lemmas.dfy` (`RecognizerLemmas`): what each handler
  promises for one event.
- `traces.dfy` (`Traces`): whole runs. The host delivers wheel events,
  window swipes, due idle timeouts, edits of the settings and
  re-selections of the adapter. The settings tab writes `enabled` and
  `sensitivity` at any moment (`src/SettingsTab.ts:24`, `:36`), so a run
  carries the settings in force and every handler reads them as they are
  when its event arrives. The run records every navigation requested.
  Lemmas cover every run.
- `scenarios.dfy` (`Scenarios`): concrete runs with the default settings.
- `plugin.dfy` (`Plugin`): the class `SwipeNavigationPlugin`. Its fields
  are updated in place, with one method per handler. Each method is
  proved to reach the state the matching `Recognizer` function describes.
  Each public handler keeps `Valid()`.

Behaviour of the code that is easy to miss:

- A reversal restarts the gesture only when the *sum* changes sign. So
  -100 followed by +40 leaves a sum of -60, still going back
  (`Scenarios.PartialReturnKeepsSum`).
- When the sum does change sign, the gesture restarts from the current
  delta alone. It is then armed in the new direction exactly when that
  delta alone reaches the threshold and the history allows the new
  direction, whether or not it was armed before
  (`RecognizerLemmas.ReversalArmsOnDeltaAlone`). From a sum that had
  reached the threshold, the crossing delta always does
  (`RecognizerLemmas.ReversalPastThresholdArmsOpposite`,
  `Scenarios.CrossingZeroFromArmedNavigatesForward`).
- Tearing down an adapter does not cancel the pending idle timer. Only
  unloading does. A stale firing finds the gesture at rest and navigates
  nothing (`RecognizerLemmas.StaleTimerAfterTeardown`,
  `Scenarios.ModeSwitchDropsArmedGesture`).
- Switching recognition off does not cancel a gesture that is already
  armed. `onGestureEnd` (`src/main.ts:381-396`) never reads `enabled`, so
  the pending release still navigates (`Scenarios.DisablingKeepsArmedRelease`).
  With no armed release pending, nothing navigates while recognition stays
  off (`Traces.DisabledRunNavigatesNothing`).
- `navigationLocked` is set and cleared within the same `onGestureEnd`
  call. No later event ever sees it set, so the lock branch of the wheel
  handler is dead (`Traces.RunKeepsInv`).
- The cooldown clock is set before the host command runs, whether or not
  the command succeeds.

## Model

| member | source | states |
|---|---|---|
| `Indicators.Clamp` | src/main.ts:104 | the result lies in [0, 1]; it equals the input inside that range, is 0 below it and 1 above it |
| `Indicators.Show` | src/main.ts:100-117 | the drawn indicator is well formed; its progress is the clamped value; its "ready" arrow shows exactly when the raw progress is at least 1 |
| `RecognizerLemmas.ProgressReachesOne` | src/main.ts:336-345 | for a positive threshold, `distance / threshold >= 1` exactly when `distance >= threshold`, and the ratio is never negative |
| `RecognizerLemmas.InitialState` | src/main.ts:39-58 | the field initialisers satisfy the invariant: the gesture is at rest, no timer is pending and no listener is attached |
| `RecognizerLemmas.WheelFilter` | src/main.ts:256-288 | a disabled, vertical-dominant or sub-pixel event changes no field, not even the timer; any other event re-arms the timer to now + 200 |
| `RecognizerLemmas.SlowEventOnlyRearms` | src/main.ts:297-310 | before activation, an event slower than 25 only moves the idle deadline to now + 200; every other field stays as it was |
| `RecognizerLemmas.WheelFrame` | src/main.ts:256-346 | the wheel handler never changes the cooldown clock, the lock or the listener counts |
| `RecognizerLemmas.TrackFrame` | src/main.ts:329-345 | the progress step changes only the threshold flag and the indicators |
| `RecognizerLemmas.AccumulateSign` | src/main.ts:312-327 | the sum grows by the delta, except on a sign change, where it becomes the delta alone and the threshold flag is cleared; the gesture is active; the direction is the sign of the new sum; nothing else changes |
| `RecognizerLemmas.TrackMeaning` | src/main.ts:329-345 | a direction the history rules out changes nothing; otherwise the threshold flag equals `|sum| >= sensitivity * 3`, the current direction's indicator shows the clamped progress with its arrow exactly when the flag is set, and the other indicator is untouched |
| `RecognizerLemmas.WheelAccumulates` | src/main.ts:301-327 | for an event that reaches accumulation: the timer is re-armed, the gesture is active, the sum is the old sum plus the delta or, on a reversal, the delta alone, and the direction is the sign of the old sum plus the delta |
| `RecognizerLemmas.WheelReversal` | src/main.ts:320-325 | on a reversal, the sum becomes exactly the current delta, not the stale sum; the gesture stays active; the new direction is the opposite one, and the delta has that direction's sign |
| `RecognizerLemmas.WheelProgress` | src/main.ts:329-345 | after one event: if the history rules out the direction, the threshold flag is only cleared by a reversal and no indicator changes; otherwise the flag equals `|sum| >= sensitivity * 3` and the direction's indicator shows the clamped progress, ready exactly when the flag is set |
| `RecognizerLemmas.ReversalArmsOnDeltaAlone` | src/main.ts:320-345 | when a delta changes the sign of the sum, the direction flips to the delta's own, and the threshold flag is set exactly when the delta alone reaches `sensitivity * 3` and the history allows the new direction; the flag before the event plays no part |
| `RecognizerLemmas.ReversalPastThresholdArmsOpposite` | src/main.ts:320-345 | when a gesture whose sum is at least the threshold receives a delta that changes the sign of the sum, the direction flips, and the flag is set exactly when the history allows the new direction |
| `RecognizerLemmas.WheelKeepsInv` | src/main.ts:313-353 | the wheel handler keeps the invariant, including "direction is back iff the sum is negative, forward iff positive, none iff zero" |
| `RecognizerLemmas.ResetSwipeStateAtRest` | src/main.ts:348-353 | resetting zeroes the sum, direction, activation and threshold flag, keeps the invariant, and changes nothing else |
| `RecognizerLemmas.CooldownBlocksSecondRequest` | src/main.ts:421-454 | after a request that executed its command at t1, the clock holds t1 and nothing else changed; a second request at t2, in either direction, is blocked and changes nothing when t2 - t1 < 300, and otherwise executes its direction's command at t2 as if the first had only moved the clock |
| `RecognizerLemmas.GestureEndNavigatesOnRelease` | src/main.ts:381-403 | gesture end calls navigate at most once, exactly when the threshold is reached and a direction is set, and in that direction; afterwards the gesture is at rest, the lock is released, both indicators are hidden, and the clock changed only if a command was executed |
| `RecognizerLemmas.GestureEndDispatches` | src/main.ts:389-396 | an armed gesture released after the cooldown executes its direction's command at the release time |
| `RecognizerLemmas.IdleTimerFiredKeepsInv` | src/main.ts:362-403 | the idle timer's firing keeps the invariant and leaves no timer pending |
| `RecognizerLemmas.FlashThenNavigate` | src/main.ts:216-221 | flashing and navigating in a direction requests exactly that direction, leaves both indicators hidden, touches no gesture field, and keeps the invariant |
| `RecognizerLemmas.ThreeFingerMapping` | src/main.ts:207-222 | the window handler does nothing when disabled or for any direction other than 'left' and 'right'; 'left' navigates back and 'right' forward; the flash leaves both indicators hidden; the gesture fields are untouched |
| `RecognizerLemmas.ThreeFingerKeepsInv` | src/main.ts:207-222 | the window handler keeps the invariant |
| `RecognizerLemmas.SetupInstallsOneAdapter` | src/main.ts:161-183 | mode selection resets the gesture and leaves exactly one listener attached in all, because the teardown removes the one attached before; it is the window's swipe handler exactly when three-finger mode was asked for and the probe succeeded; the pending timer and the clock are untouched |
| `RecognizerLemmas.SetupIdempotent` | src/main.ts:161-183 | selecting the mode twice gives the same state as selecting it once, and that state still has exactly one listener attached: no second listener is left behind |
| `RecognizerLemmas.StaleTimerAfterTeardown` | src/main.ts:175-183 | a timer left pending by a teardown that fires later navigates nothing and leaves the clock alone |
| `RecognizerLemmas.UnloadLeavesNothing` | src/main.ts:70-75 | after unloading, no listener is attached, no timer is pending and the gesture is at rest |
| `Traces.RunKeepsInv` | src/main.ts:290-295 | every state a run of events reaches satisfies the invariant; in particular no event ever finds the navigation lock set |
| `Traces.NavigationsBoundedByReleases` | src/main.ts:389-396 | a run requests no more navigations than it has idle timeouts and window swipes; wheel events and mode changes never navigate |
| `Traces.DroppedEventsAreInert` | src/main.ts:256-285 | a run of only filtered wheel events, or only window swipes while disabled, changes no field and navigates nothing |
| `Traces.DeliverKeepsInv` | src/main.ts:256-403 | each delivered event keeps the invariant |
| `Traces.DeliverClock` | src/main.ts:421-454 | each delivered event executes at most one command, at least 300 ms after the clock it found; the clock then holds that command's time |
| `Traces.DispatchesRespectCooldown` | src/main.ts:421-454 | in any run, consecutive executed commands are at least 300 ms apart, across both directions and both adapters; the first is at least 300 ms after the starting clock; the final clock is the time of the last one |
| `Traces.DisabledRunNavigatesNothing` | src/main.ts:256-259 | while recognition stays switched off, a run from a state with no armed release pending requests no navigation at all, whatever wheel events, window swipes, timeouts and re-selections arrive |
| `Traces.RuledOutDirectionNeverNavigated` | src/main.ts:329-332 | if every wheel event's history rules out direction d and no window swipe arrives, a run from a state not armed toward d never requests a navigation toward d |
| `Scenarios.OneFastEventStartsBelowThreshold` | src/main.ts:297-345 | one event of -26 starts a back swipe with sum -26 and arms nothing |
| `Scenarios.SlowPanningNeverStarts` | src/main.ts:297-310 | events of -20 only keep the timer alive; the gesture stays at rest |
| `Scenarios.BackwardRun` | src/main.ts:312-345 | any run of backward wheel events (each moving left by at least 1 px with no vertical motion and no history; the first at least 25 px unless a gesture is already active) sums its deltas, keeps the direction back, sets the threshold flag exactly when the sum reaches -150, re-arms the timer 200 ms after the last event, and navigates nothing |
| `Scenarios.SixEventsArmBack` | src/main.ts:312-345 | six events of -30 give sum -180, direction back, the threshold reached and the timer due at 1250, with no navigation and the settings unchanged |
| `Scenarios.SixEventsThenReleaseNavigateOnce` | src/main.ts:381-403 | after those six events and two more small ones, the release navigates back exactly once, and the gesture ends at rest |
| `Scenarios.BackStep` | src/main.ts:312-345 | delivering one more backward event to a gesture that is going back navigates nothing and adds its delta; the threshold flag tells whether the sum reached -150 |
| `Scenarios.EarlyTimeoutIgnored` | src/main.ts:362-367 | a timeout before the deadline does nothing |
| `Scenarios.PartialReturnKeepsSum` | src/main.ts:320-327 | -50, -50, +40 gives -60, still going back |
| `Scenarios.CrossingZeroRestarts` | src/main.ts:320-325 | -50 then +80 restarts at +80 going forward, not at the sum +30 |
| `Scenarios.PartialReturnCancelsArmedSwipe` | src/main.ts:389-391 | -100, -100, +120 moves an armed swipe back below the threshold without crossing zero, so the release navigates nothing |
| `Scenarios.CrossingZeroFromArmedNavigatesForward` | src/main.ts:320-325 | -100, -100, +250 crosses zero from an armed back swipe; the gesture restarts at +250, and the release navigates forward once |
| `Scenarios.CooldownDropsSecondSwipe` | src/main.ts:442-454 | two window swipes 100 ms apart: 'left' navigates back; the later 'right' is blocked by the cooldown |
| `Scenarios.ModeSwitchDropsArmedGesture` | src/main.ts:161-183 | an armed two-finger gesture, then a settings edit to three-finger mode and re-selection: the wheel listener is replaced by the window subscription, the gesture is dropped, later wheel events are not delivered, and the old timer navigates nothing |
| `Scenarios.DisablingKeepsArmedRelease` | src/main.ts:381-396 | switching recognition off after six events armed a back swipe does not stop its release: the timer still navigates back once |
| `Plugin.SwipeNavigationPlugin.constructor` | src/main.ts:39-58 | the fields start at their declared initial values, and the invariant holds |
| `Plugin.SwipeNavigationPlugin.UpdateIndicator` | src/main.ts:100-117 | the direction's indicator becomes the clamped progress, with its ready flag; the other one is unchanged |
| `Plugin.SwipeNavigationPlugin.ResetIndicators` | src/main.ts:119-130 | both indicators go back to zero and not ready |
| `Plugin.SwipeNavigationPlugin.FlashIndicator` | src/main.ts:150-153 | a full indicator, then at once the reset |
| `Plugin.SwipeNavigationPlugin.SetupSwipeListener` | src/main.ts:161-173 | tears down, then attaches one listener, the same as `Recognizer.Setup`; exactly one listener is attached afterwards; keeps `Valid()` |
| `Plugin.SwipeNavigationPlugin.TeardownListeners` | src/main.ts:175-183 | aborts the wheel listener and removes the window's swipe handler, each only if one is attached, and resets the gesture; keeps `Valid()` |
| `Plugin.SwipeNavigationPlugin.SetupThreeFingerSwipe` | src/main.ts:195-233 | reports the probe's answer, and adds one swipe handler to the window exactly when it succeeds; nothing else changes |
| `Plugin.SwipeNavigationPlugin.RemoveThreeFingerSwipe` | src/main.ts:235-241 | the swipe handler the plugin holds, if any, is removed from the window; nothing else changes |
| `Plugin.SwipeNavigationPlugin.SetupTwoFingerSwipe` | src/main.ts:245-254 | one more wheel listener is attached to the document; nothing else changes |
| `Plugin.SwipeNavigationPlugin.OnThreeFingerSwipe` | src/main.ts:207-222 | the window handler performed in place, equal to `Recognizer.ThreeFingerSwipe`; keeps `Valid()` |
| `Plugin.SwipeNavigationPlugin.HandleWheelEvent` | src/main.ts:256-346 | the wheel handler performed in place, equal to `Recognizer.Wheel`; keeps `Valid()` |
| `Plugin.SwipeNavigationPlugin.AccumulateDelta` | src/main.ts:312-327 | the accumulation step in place, equal to `Recognizer.Accumulate` |
| `Plugin.SwipeNavigationPlugin.TrackProgress` | src/main.ts:329-345 | the progress step in place, equal to `Recognizer.Track`, whose meaning `RecognizerLemmas.TrackMeaning` states |
| `Plugin.SwipeNavigationPlugin.ResetSwipeState` | src/main.ts:348-353 | the four gesture fields return to zero; nothing else changes |
| `Plugin.SwipeNavigationPlugin.ResetGestureIdleTimer` | src/main.ts:362-367 | the single pending deadline becomes now + 200, replacing any earlier one |
| `Plugin.SwipeNavigationPlugin.ClearGestureIdleTimer` | src/main.ts:369-374 | no timer is pending afterwards |
| `Plugin.SwipeNavigationPlugin.OnIdleTimerFired` | src/main.ts:364-366 | a due timer is consumed and gesture end runs; keeps `Valid()` |
| `Plugin.SwipeNavigationPlugin.OnGestureEnd` | src/main.ts:381-403 | gesture end performed in place, equal to `Recognizer.GestureEnd`; the lock is clear on exit; keeps `Valid()` |
| `Plugin.SwipeNavigationPlugin.Navigate` | src/main.ts:421-440 | the dispatcher performed in place, equal to `Recognizer.Navigate`: the clock is set before the command, and only outside the cooldown |
| `Plugin.SwipeNavigationPlugin.ChangeSettings` | src/SettingsTab.ts:21-38 | the settings tab writes the settings in place; no other field changes; keeps `Valid()` |
| `Plugin.SwipeNavigationPlugin.OnUnload` | src/main.ts:70-75 | tears down and cancels the pending timer |

## Left out

- Rendering: widths, opacities, CSS classes, the arrow element, and the
  `animating` class with its `DECAY_ANIMATION_DURATION` timeout. Only
  `(progress, ready)` per indicator is kept. `createIndicators` and
  `removeIndicators` are not modelled. The indicators are assumed to
  exist, so the null checks in `updateIndicator`/`resetIndicators` are
  not modelled.
- Reaching the window through `require('electron').remote` is a boolean
  probe result. If subscribing throws after the handler was assigned,
  the source leaves a handler reference behind; that case is folded into
  "probe failed".
- `document.addEventListener` and `win.on` add one to a listener count;
  `abort()` and `removeListener` remove one. The abort controller and
  the handler reference are not kept as fields of their own: the model
  assumes a teardown finds the handle of a listener whenever one is
  attached. With at most one listener attached, which every run keeps
  (`Traces.RunKeepsInv`), that is what the source does.
- A wheel event or window swipe reaches the plugin's handler once when
  a listener of that kind is attached. Two attached listeners would run
  the handler twice in the source; runs never reach that state.
- `Date.now()` is the `now` parameter. `setTimeout` is a deadline field.
  The host fires a due timer through `OnIdleTimerFired`. The source keeps
  the fired timer's handle in its field until the next clear, which has
  no observable effect; the model drops it when the timer fires.
- `executeCommandById` is a boolean parameter (the host's answer). The
  `Notice` shown on failure is the `succeeded = false` field of the
  outcome. The active leaf's history is a parameter of the wheel handler.
- `navigate` and `checkCooldown` each read the clock. The model uses
  one instant for both reads.
- Console and debug logging never affects control flow.
- Asynchronous `loadSettings`/`saveSettings` and `onload` are not
  modelled. The constructor takes the loaded settings, and the host then
  calls `SetupSwipeListener`. Of the settings tab, only its writes to
  the settings are modelled (`ChangeSettings`, the `SettingsChanged`
  event); its widgets and the saving are not. Its slider (20 to 100) is
  why settings must have a positive sensitivity.
- `ChangeSettings` and the `SettingsChanged` event accept any settings
  with a positive sensitivity, which is wider than what the tab can do.
  The tab writes only `enabled` and `sensitivity`, and no code in
  `src/` writes `swipeMode` or `debugMode` after loading. The `swipeMode`
  edit in `Scenarios.ModeSwitchDropsArmedGesture` has no counterpart in
  the source's own settings tab. It stands for a change made outside the
  plugin's code, which `setupSwipeListener` is documented to react to
  (`src/main.ts:156-160`).
- The settings tab offers no control for `swipeMode`, and nothing in the
  source re-runs `setupSwipeListener` after a settings edit. A run
  therefore delivers the edit and the re-selection as two separate
  events (`SettingsChanged`, `Reconfigure`).
- `swipeMode` is not in the settings record of `src/types.ts`, so it is
  an extra enum field here. `DIRECTION_RATIO`, `MIN_VELOCITY_TO_ACTIVATE`,
  `SWIPE_THRESHOLD_MULTIPLIER` and `GESTURE_IDLE_TIMEOUT` are not defined
  there either. They take the values the code's comments give: 2.5, 25,
  3 and 200.
- Floating point: deltas and sensitivity are exact reals, so rounding is
  not modelled.
- `Plugin.SwipeNavigationPlugin.HandleWheelEvent`: the source does this in
  one method. Here the accumulation and progress steps are separate
  methods (`AccumulateDelta`, `TrackProgress`), to keep each proof small.
