/** The plugin object itself: the fields the event handlers update in place
    and one method per handler. Each method performs the handler's steps on
    the fields and is proved to reach the state the matching function of
    module Recognizer describes; the class invariant Valid() is kept by
    every public handler. The clock, the host's answers (history, command
    result, window probe) and the timer are parameters. */
module Plugin {
  import opened SwipeTypes
  import opened Indicators
  import opened Navigation
  import Recognizer
  import RecognizerLemmas

  class SwipeNavigationPlugin {
    var settings: Settings
    var lastSwipeTime: int

    // Two-finger swipe state
    var wheelListeners: nat
    var accumulatedDelta: real
    var currentDirection: Option<Direction>
    var swipeActive: bool
    var thresholdReached: bool
    var navigationLocked: bool
    var gestureIdleTimer: Option<int>

    // Three-finger swipe state
    var swipeListeners: nat

    // Visual indicators (left = back, right = forward)
    var indicatorLeft: Indicator
    var indicatorRight: Indicator

    /** The fields as one value. */
    function Snapshot(): Recognizer.State
      reads this
    {
      Recognizer.State(accumulatedDelta, currentDirection, swipeActive, thresholdReached,
        navigationLocked, lastSwipeTime, gestureIdleTimer, indicatorLeft, indicatorRight,
        wheelListeners, swipeListeners)
    }

    ghost predicate Valid()
      reads this
    {
      ValidSettings(settings) && Recognizer.Inv(Snapshot())
    }

    constructor (loaded: Settings)
      requires ValidSettings(loaded)
      ensures Valid() && settings == loaded
      ensures Snapshot() == Recognizer.Initial
    {
      settings := loaded;
      lastSwipeTime := 0;
      wheelListeners := 0;
      accumulatedDelta := 0.0;
      currentDirection := None;
      swipeActive := false;
      thresholdReached := false;
      navigationLocked := false;
      gestureIdleTimer := None;
      swipeListeners := 0;
      indicatorLeft := Hidden;
      indicatorRight := Hidden;
    }

    /** The settings tab writes a setting in place. Nothing else changes;
        each handler reads the new value when its next event arrives. */
    method ChangeSettings(next: Settings)
      requires Valid() && ValidSettings(next)
      modifies this
      ensures Valid() && settings == next
      ensures Snapshot() == old(Snapshot())
    {
      settings := next;
    }

    // === Visual indicators ===

    method UpdateIndicator(direction: Direction, progress: real)
      modifies this
      ensures settings == old(settings)
      ensures Snapshot() == Recognizer.UpdateIndicator(old(Snapshot()), direction, progress)
    {
      var clampedProgress := Clamp(progress);
      var shown := Indicator(clampedProgress, clampedProgress >= 1.0);
      if direction == Back {
        indicatorLeft := shown;
      } else {
        indicatorRight := shown;
      }
    }

    method ResetIndicators()
      modifies this
      ensures settings == old(settings)
      ensures Snapshot() == Recognizer.ResetIndicators(old(Snapshot()))
    {
      indicatorLeft := Hidden;
      indicatorRight := Hidden;
    }

    method FlashIndicator(direction: Direction)
      modifies this
      ensures settings == old(settings)
      ensures Snapshot() == Recognizer.FlashIndicator(old(Snapshot()), direction)
    {
      UpdateIndicator(direction, 1.0);
      ResetIndicators();
    }

    // === Swipe listener setup ===

    /** Installs the adapter the settings ask for, falling back to the
        two-finger adapter when the window cannot be reached. */
    method SetupSwipeListener(probeOk: bool)
      requires Valid()
      modifies this
      ensures Valid() && settings == old(settings)
      ensures Snapshot() == Recognizer.Setup(old(Snapshot()), settings, probeOk)
      ensures wheelListeners + swipeListeners == 1
    {
      TeardownListeners();
      if settings.swipeMode == ThreeFinger {
        var success := SetupThreeFingerSwipe(probeOk);
        if !success {
          SetupTwoFingerSwipe();
        }
      } else {
        SetupTwoFingerSwipe();
      }
    }

    method TeardownListeners()
      requires Valid()
      modifies this
      ensures Valid() && settings == old(settings)
      ensures Snapshot() == Recognizer.Teardown(old(Snapshot()))
    {
      if wheelListeners > 0 {
        wheelListeners := wheelListeners - 1;
      }
      ResetSwipeState();
      RemoveThreeFingerSwipe();
    }

    /** Subscribes to the window's swipe event when the probe reaches the
        window; reports whether it did. */
    method SetupThreeFingerSwipe(probeOk: bool) returns (success: bool)
      modifies this
      ensures settings == old(settings)
      ensures success == probeOk
      ensures Snapshot() == if probeOk then old(Snapshot()).(swipeListeners := old(swipeListeners) + 1) else old(Snapshot())
    {
      if !probeOk {
        return false;
      }
      swipeListeners := swipeListeners + 1;
      return true;
    }

    method RemoveThreeFingerSwipe()
      modifies this
      ensures settings == old(settings)
      ensures Snapshot() == old(Snapshot()).(swipeListeners := Recognizer.Detach(old(swipeListeners)))
    {
      if swipeListeners > 0 {
        swipeListeners := swipeListeners - 1;
      }
    }

    method SetupTwoFingerSwipe()
      modifies this
      ensures settings == old(settings)
      ensures Snapshot() == old(Snapshot()).(wheelListeners := old(wheelListeners) + 1)
    {
      wheelListeners := wheelListeners + 1;
    }

    // === Three-finger swipe ===

    /** The window's swipe handler. */
    method OnThreeFingerSwipe(direction: string, now: int, commandOk: bool) returns (nav: Option<NavOutcome>)
      requires Valid()
      modifies this
      ensures Valid() && settings == old(settings)
      ensures Recognizer.Step(Snapshot(), nav)
           == Recognizer.ThreeFingerSwipe(old(Snapshot()), settings, direction, now, commandOk)
    {
      nav := None;
      if !settings.enabled {
        return;
      }
      if direction == "left" {
        FlashIndicator(Back);
        var outcome := Navigate(Back, now, commandOk);
        nav := Some(outcome);
      } else if direction == "right" {
        FlashIndicator(Forward);
        var outcome := Navigate(Forward, now, commandOk);
        nav := Some(outcome);
      }
    }

    // === Two-finger swipe detection ===

    method HandleWheelEvent(deltaX: real, deltaY: real, history: Option<LeafHistory>, now: int)
      requires Valid()
      modifies this
      ensures Valid() && settings == old(settings)
      ensures Snapshot() == Recognizer.Wheel(old(Snapshot()), settings, deltaX, deltaY, history, now)
    {
      RecognizerLemmas.WheelKeepsInv(Snapshot(), settings, deltaX, deltaY, history, now);
      if !settings.enabled {
        return;
      }
      var horizontalDelta := deltaX;
      var verticalDelta := Abs(deltaY);
      if verticalDelta * DIRECTION_RATIO > Abs(horizontalDelta) {
        return;
      }
      if Abs(horizontalDelta) < 1.0 {
        return;
      }
      ResetGestureIdleTimer(now);
      if navigationLocked {
        return;
      }
      if !swipeActive && Abs(horizontalDelta) < MIN_VELOCITY_TO_ACTIVATE {
        return;
      }
      AccumulateDelta(horizontalDelta);
      TrackProgress(history);
    }

    /** The accumulation part of the wheel handler: activate, add the
        delta, take the direction from the sign, restart on a reversal. */
    method AccumulateDelta(horizontalDelta: real)
      modifies this
      ensures settings == old(settings)
      ensures Snapshot() == Recognizer.Accumulate(old(Snapshot()), horizontalDelta)
    {
      swipeActive := true;
      accumulatedDelta := accumulatedDelta + horizontalDelta;
      var newDirection := DirectionOf(accumulatedDelta);
      if currentDirection.Some? && newDirection.Some? && currentDirection != newDirection {
        ResetSwipeState();
        swipeActive := true;
        accumulatedDelta := horizontalDelta;
      }
      currentDirection := newDirection;
    }

    /** The progress part of the wheel handler: unless the history rules
        the direction out, update its indicator and the threshold flag. */
    method TrackProgress(history: Option<LeafHistory>)
      requires ValidSettings(settings)
      modifies this
      ensures settings == old(settings)
      ensures Snapshot() == Recognizer.Track(old(Snapshot()), settings, history)
    {
      if currentDirection.Some? && !CanNavigate(history, currentDirection.value) {
        return;
      }
      ghost var before := Snapshot();
      var threshold := settings.sensitivity * SWIPE_THRESHOLD_MULTIPLIER;
      var progress := Abs(accumulatedDelta) / threshold;
      assert progress == Recognizer.Progress(before, settings);
      ghost var shown := before;
      if currentDirection.Some? {
        UpdateIndicator(currentDirection.value, progress);
        shown := Recognizer.UpdateIndicator(before, before.currentDirection.value, progress);
      }
      assert Snapshot() == shown;
      thresholdReached := progress >= 1.0;
      assert Snapshot() == shown.(thresholdReached := progress >= 1.0);
    }

    method ResetSwipeState()
      modifies this
      ensures settings == old(settings)
      ensures Snapshot() == Recognizer.ResetSwipeState(old(Snapshot()))
    {
      accumulatedDelta := 0.0;
      currentDirection := None;
      swipeActive := false;
      thresholdReached := false;
    }

    // === Gesture idle detection ===

    /** Re-arms the single idle timer to fire GESTURE_IDLE_TIMEOUT ms from
        now, replacing any pending one. */
    method ResetGestureIdleTimer(now: int)
      modifies this
      ensures settings == old(settings)
      ensures Snapshot() == Recognizer.ResetGestureIdleTimer(old(Snapshot()), now)
    {
      ClearGestureIdleTimer();
      gestureIdleTimer := Some(now + GESTURE_IDLE_TIMEOUT);
    }

    method ClearGestureIdleTimer()
      modifies this
      ensures settings == old(settings)
      ensures Snapshot() == Recognizer.ClearGestureIdleTimer(old(Snapshot()))
    {
      if gestureIdleTimer.Some? {
        gestureIdleTimer := None;
      }
    }

    /** The pending idle timer fires at time `now`: it is consumed and its
        callback runs. */
    method OnIdleTimerFired(now: int, commandOk: bool) returns (nav: Option<NavOutcome>)
      requires Valid()
      requires gestureIdleTimer.Some? && gestureIdleTimer.value <= now
      modifies this
      ensures Valid() && settings == old(settings)
      ensures Recognizer.Step(Snapshot(), nav) == Recognizer.IdleTimerFired(old(Snapshot()), now, commandOk)
    {
      gestureIdleTimer := None;
      nav := OnGestureEnd(now, commandOk);
    }

    /** Navigate on release, then return to the zero state. */
    method OnGestureEnd(now: int, commandOk: bool) returns (nav: Option<NavOutcome>)
      requires Valid()
      modifies this
      ensures Valid() && settings == old(settings)
      ensures Recognizer.Step(Snapshot(), nav) == Recognizer.GestureEnd(old(Snapshot()), now, commandOk)
      ensures !navigationLocked
    {
      nav := None;
      if thresholdReached && currentDirection.Some? {
        var outcome := Navigate(currentDirection.value, now, commandOk);
        nav := Some(outcome);
        navigationLocked := true;
      }
      ResetIndicators();
      ResetSwipeState();
      navigationLocked := false;
    }

    // === Navigation ===

    /** Dispatches a navigation unless the cooldown blocks it. The time is
        recorded before the host command runs; `commandOk` is the host's
        answer, and a failure means a notice is shown. */
    method Navigate(direction: Direction, now: int, commandOk: bool) returns (outcome: NavOutcome)
      modifies this
      ensures settings == old(settings)
      ensures Recognizer.Step(Snapshot(), Some(outcome)) == Recognizer.Navigate(old(Snapshot()), direction, now, commandOk)
    {
      var allowed := CheckCooldown(now);
      if !allowed {
        return CooldownBlocked(direction);
      }
      lastSwipeTime := now;
      var command := Command(direction);
      outcome := Executed(direction, command, now, commandOk);
    }

    method CheckCooldown(now: int) returns (allowed: bool)
      ensures allowed <==> now - lastSwipeTime >= SWIPE_COOLDOWN
    {
      var timeSinceLastSwipe := now - lastSwipeTime;
      if timeSinceLastSwipe < SWIPE_COOLDOWN {
        return false;
      }
      return true;
    }

    // === Lifecycle ===

    method OnUnload()
      requires Valid()
      modifies this
      ensures Valid() && settings == old(settings)
      ensures Snapshot() == Recognizer.Unload(old(Snapshot()))
    {
      TeardownListeners();
      ClearGestureIdleTimer();
    }
  }
}
