/** What each event handler of module Recognizer promises, one event at a
    time. */
module RecognizerLemmas {
  import opened SwipeTypes
  import opened Indicators
  import opened Navigation
  import opened Recognizer

  /** progress = distance / threshold reaches 1 exactly when the distance
      reaches the threshold, so the plugin's division can be read as a
      comparison. */
  lemma ProgressReachesOne(distance: real, threshold: real)
    requires distance >= 0.0 && threshold > 0.0
    ensures distance / threshold >= 1.0 <==> distance >= threshold
    ensures distance / threshold >= 0.0
  {
    var p := distance / threshold;
    assert p * threshold == distance;
    if p >= 1.0 {
      var excess := p - 1.0;
      assert excess * threshold >= 0.0;
      assert distance == threshold + excess * threshold;
    } else {
      assert p * threshold < 1.0 * threshold;
    }
  }

  /** The zero state satisfies the invariant and is at rest. */
  lemma InitialState()
    ensures Inv(Initial) && AtRest(Initial)
    ensures Initial.wheelListeners == 0 && Initial.swipeListeners == 0 && Initial.idleDeadline == None
  {
  }

  /** A filtered event changes no field at all, not even the idle timer;
      every other event re-arms the timer to now + GESTURE_IDLE_TIMEOUT. */
  lemma WheelFilter(s: State, cfg: Settings, dx: real, dy: real, history: Option<LeafHistory>, now: int)
    requires ValidSettings(cfg)
    ensures Ignored(cfg, dx, dy) ==> Wheel(s, cfg, dx, dy, history, now) == s
    ensures !Ignored(cfg, dx, dy) ==> Wheel(s, cfg, dx, dy, history, now).idleDeadline == Some(now + GESTURE_IDLE_TIMEOUT)
  {
  }

  /** Before activation, a slow event only keeps the gesture alive. */
  lemma SlowEventOnlyRearms(s: State, cfg: Settings, dx: real, dy: real, history: Option<LeafHistory>, now: int)
    requires ValidSettings(cfg) && !Ignored(cfg, dx, dy)
    requires !s.swipeActive && Abs(dx) < MIN_VELOCITY_TO_ACTIVATE
    ensures Wheel(s, cfg, dx, dy, history, now) == s.(idleDeadline := Some(now + GESTURE_IDLE_TIMEOUT))
  {
  }

  /** handleWheelEvent never touches the cooldown clock or the adapters. */
  lemma WheelFrame(s: State, cfg: Settings, dx: real, dy: real, history: Option<LeafHistory>, now: int)
    requires ValidSettings(cfg)
    ensures var r := Wheel(s, cfg, dx, dy, history, now);
      r.lastSwipeTime == s.lastSwipeTime && r.navigationLocked == s.navigationLocked
      && r.wheelListeners == s.wheelListeners && r.swipeListeners == s.swipeListeners
  {
    if Accumulates(s, cfg, dx, dy) {
      var accumulated := Accumulate(ResetGestureIdleTimer(s, now), dx);
      assert accumulated.lastSwipeTime == s.lastSwipeTime && accumulated.navigationLocked == s.navigationLocked;
      assert accumulated.wheelListeners == s.wheelListeners && accumulated.swipeListeners == s.swipeListeners;
      TrackFrame(accumulated, cfg, history);
    }
  }

  /** The progress step changes only the threshold flag and the indicators. */
  lemma TrackFrame(s: State, cfg: Settings, history: Option<LeafHistory>)
    requires ValidSettings(cfg)
    ensures var r := Track(s, cfg, history);
      r == s.(thresholdReached := r.thresholdReached, back := r.back, forward := r.forward)
  {
    if !(s.currentDirection.Some? && !CanNavigate(history, s.currentDirection.value)) {
      var progress := Progress(s, cfg);
      if s.currentDirection.Some? {
        var shown := UpdateIndicator(s, s.currentDirection.value, progress);
        assert shown == s.(back := shown.back, forward := shown.forward);
      }
    }
  }

  /** Accumulation on its own: the event's delta is added to the running
      distance, except on a reversal, where the distance restarts from the
      event's delta alone and the threshold flag is cleared; the gesture is
      active and its direction is the sign of the new distance. */
  lemma AccumulateSign(s: State, dx: real)
    requires Inv(s)
    ensures var r := Accumulate(s, dx);
      && r.swipeActive
      && r.accumulatedDelta == (if Reverses(s, dx) then dx else s.accumulatedDelta + dx)
      && r.currentDirection == DirectionOf(r.accumulatedDelta)
      && r.currentDirection == DirectionOf(s.accumulatedDelta + dx)
      && r.thresholdReached == (s.thresholdReached && !Reverses(s, dx))
      && r == s.(accumulatedDelta := r.accumulatedDelta, currentDirection := r.currentDirection,
                 swipeActive := true, thresholdReached := r.thresholdReached)
  {
    var sum := s.accumulatedDelta + dx;
    if Reverses(s, dx) {
      if s.accumulatedDelta < 0.0 {
        assert sum > 0.0;
      } else {
        assert s.accumulatedDelta > 0.0 && sum < 0.0;
      }
    }
  }

  /** The progress step on its own. When the direction is blocked by the
      history nothing changes. Otherwise the threshold flag says whether the
      distance has reached sensitivity * 3, and the indicator of the current
      direction shows the clamped progress, its arrow exactly when the flag
      is set; the other indicator is left as it was. */
  lemma TrackMeaning(s: State, cfg: Settings, history: Option<LeafHistory>)
    requires ValidSettings(cfg) && s.currentDirection == DirectionOf(s.accumulatedDelta)
    ensures var r := Track(s, cfg, history);
      var d := s.currentDirection;
      if d.Some? && !CanNavigate(history, d.value) then r == s
      else
        && r == s.(thresholdReached := r.thresholdReached, back := r.back, forward := r.forward)
        && r.thresholdReached == (Abs(s.accumulatedDelta) >= Threshold(cfg))
        && (r.thresholdReached ==> d.Some?)
        && (d.Some? ==>
              && IndicatorOf(r, d.value) == Show(Abs(s.accumulatedDelta) / Threshold(cfg))
              && IndicatorOf(r, d.value).ready == r.thresholdReached
              && (d.value == Back ==> r.forward == s.forward)
              && (d.value == Forward ==> r.back == s.back))
        && (d.None? ==> r.back == s.back && r.forward == s.forward)
  {
    ProgressReachesOne(Abs(s.accumulatedDelta), Threshold(cfg));
  }

  /** The whole wheel handler, for an event that reaches accumulation:
      the new distance and direction as AccumulateSign says, then the
      progress step as TrackMeaning says. */
  lemma WheelAccumulates(s: State, cfg: Settings, dx: real, dy: real, history: Option<LeafHistory>, now: int)
    requires ValidSettings(cfg) && Inv(s) && Accumulates(s, cfg, dx, dy)
    ensures Wheel(s, cfg, dx, dy, history, now)
         == Track(Accumulate(ResetGestureIdleTimer(s, now), dx), cfg, history)
    ensures var r := Wheel(s, cfg, dx, dy, history, now);
      && r.swipeActive
      && r.accumulatedDelta == (if Reverses(s, dx) then dx else s.accumulatedDelta + dx)
      && r.currentDirection == DirectionOf(s.accumulatedDelta + dx)
      && r.idleDeadline == Some(now + GESTURE_IDLE_TIMEOUT)
  {
    var armed := ResetGestureIdleTimer(s, now);
    AccumulateSign(armed, dx);
    TrackMeaning(Accumulate(armed, dx), cfg, history);
  }

  /** A reversal discards the stale sum: the new distance is exactly the
      event's delta, in the direction opposite to the old one. */
  lemma WheelReversal(s: State, cfg: Settings, dx: real, dy: real, history: Option<LeafHistory>, now: int)
    requires ValidSettings(cfg) && Inv(s) && Accumulates(s, cfg, dx, dy) && Reverses(s, dx)
    ensures var r := Wheel(s, cfg, dx, dy, history, now);
      && r.accumulatedDelta == dx
      && r.swipeActive
      && r.currentDirection.Some? && r.currentDirection != s.currentDirection
      && (s.currentDirection == Some(Back) ==> dx > 0.0)
      && (s.currentDirection == Some(Forward) ==> dx < 0.0)
  {
    WheelAccumulates(s, cfg, dx, dy, history, now);
    AccumulateSign(ResetGestureIdleTimer(s, now), dx);
  }

  /** The progress step of handleWheelEvent. When the new direction is
      blocked by the history, neither the threshold flag (beyond a
      reversal's reset) nor any indicator changes. Otherwise the flag says
      whether the distance has reached sensitivity * 3, and the indicator of
      the current direction shows the clamped progress, its arrow exactly
      when the flag is set. */
  lemma WheelProgress(s: State, cfg: Settings, dx: real, dy: real, history: Option<LeafHistory>, now: int)
    requires ValidSettings(cfg) && Inv(s) && Accumulates(s, cfg, dx, dy)
    ensures var r := Wheel(s, cfg, dx, dy, history, now);
      var d := r.currentDirection;
      if d.Some? && !CanNavigate(history, d.value) then
        && r.thresholdReached == (s.thresholdReached && !Reverses(s, dx))
        && r.back == s.back && r.forward == s.forward
      else
        && r.thresholdReached == (Abs(r.accumulatedDelta) >= Threshold(cfg))
        && (d.Some? ==>
              && IndicatorOf(r, d.value) == Show(Abs(r.accumulatedDelta) / Threshold(cfg))
              && IndicatorOf(r, d.value).ready == r.thresholdReached
              && (d.value == Back ==> r.forward == s.forward)
              && (d.value == Forward ==> r.back == s.back))
        && (d.None? ==> r.back == s.back && r.forward == s.forward)
  {
    var armed := ResetGestureIdleTimer(s, now);
    WheelAccumulates(s, cfg, dx, dy, history, now);
    AccumulateSign(armed, dx);
    TrackMeaning(Accumulate(armed, dx), cfg, history);
  }

  /** handleWheelEvent keeps the invariant. */
  lemma WheelKeepsInv(s: State, cfg: Settings, dx: real, dy: real, history: Option<LeafHistory>, now: int)
    requires ValidSettings(cfg) && Inv(s)
    ensures Inv(Wheel(s, cfg, dx, dy, history, now))
  {
    if Accumulates(s, cfg, dx, dy) {
      var armed := ResetGestureIdleTimer(s, now);
      WheelAccumulates(s, cfg, dx, dy, history, now);
      AccumulateSign(armed, dx);
      TrackMeaning(Accumulate(armed, dx), cfg, history);
    }
  }

  /** After a change of sign the gesture is judged by the current event
      alone: the direction flips to the event's own, and the gesture is
      armed exactly when that event's distance reaches the threshold and
      the history allows the new direction. Whatever was armed before is
      forgotten. */
  lemma ReversalArmsOnDeltaAlone(s: State, cfg: Settings, dx: real, dy: real, history: Option<LeafHistory>, now: int)
    requires ValidSettings(cfg) && Inv(s) && Accumulates(s, cfg, dx, dy) && Reverses(s, dx)
    ensures var r := Wheel(s, cfg, dx, dy, history, now);
      && r.currentDirection == DirectionOf(dx)
      && r.currentDirection.Some? && r.currentDirection != s.currentDirection
      && (r.thresholdReached <==> Abs(dx) >= Threshold(cfg) && CanNavigate(history, r.currentDirection.value))
  {
    WheelReversal(s, cfg, dx, dy, history, now);
    WheelProgress(s, cfg, dx, dy, history, now);
    var r := Wheel(s, cfg, dx, dy, history, now);
    if CanNavigate(history, r.currentDirection.value) {
      ProgressReachesOne(Abs(dx), Threshold(cfg));
    }
  }

  /** Crossing zero from a gesture whose sum had reached the threshold does
      not cancel it: the event must outweigh the distance already covered,
      so the gesture restarted from that event is at once armed in the
      opposite direction, unless the history rules that direction out. */
  lemma ReversalPastThresholdArmsOpposite(s: State, cfg: Settings, dx: real, dy: real, history: Option<LeafHistory>, now: int)
    requires ValidSettings(cfg) && Inv(s) && Accumulates(s, cfg, dx, dy) && Reverses(s, dx)
    requires Abs(s.accumulatedDelta) >= Threshold(cfg)
    ensures var r := Wheel(s, cfg, dx, dy, history, now);
      && r.currentDirection.Some? && r.currentDirection != s.currentDirection
      && (r.thresholdReached <==> CanNavigate(history, r.currentDirection.value))
  {
    ReversalArmsOnDeltaAlone(s, cfg, dx, dy, history, now);
    if s.accumulatedDelta < 0.0 {
      assert s.accumulatedDelta + dx > 0.0;
    } else {
      assert s.accumulatedDelta + dx < 0.0;
    }
    assert Abs(dx) > Abs(s.accumulatedDelta);
  }

  /** resetSwipeState puts the gesture at rest and keeps the invariant. */
  lemma ResetSwipeStateAtRest(s: State)
    requires Inv(s)
    ensures var r := ResetSwipeState(s);
      Inv(r) && AtRest(r)
      && r == s.(accumulatedDelta := 0.0, currentDirection := None, swipeActive := false, thresholdReached := false)
  {
  }

  /** Two requests to navigate: once the first has executed a command, a
      second one less than SWIPE_COOLDOWN later is dropped and changes
      nothing, whichever direction either asks for; a second one at least
      SWIPE_COOLDOWN later executes its own command at its own time. The
      first request's time is recorded whether or not its command
      succeeded. */
  lemma CooldownBlocksSecondRequest(s: State, d1: Direction, t1: int, ok1: bool, d2: Direction, t2: int, ok2: bool)
    requires Navigate(s, d1, t1, ok1).nav.value.Executed?
    ensures var first := Navigate(s, d1, t1, ok1).state;
      var second := Navigate(first, d2, t2, ok2);
      && first == s.(lastSwipeTime := t1)
      && (t2 - t1 < SWIPE_COOLDOWN ==> second == Step(first, Some(CooldownBlocked(d2))))
      && (t2 - t1 >= SWIPE_COOLDOWN ==>
            second == Step(s.(lastSwipeTime := t2), Some(Executed(d2, Command(d2), t2, ok2))))
  {
  }

  /** Gesture end navigates at most once, only when the threshold is still
      reached and there is a direction, and in that direction; afterwards
      the gesture is at rest with the lock released and both indicators
      hidden. Only the cooldown clock survives, as navigate left it. */
  lemma GestureEndNavigatesOnRelease(s: State, now: int, commandOk: bool)
    ensures var e := GestureEnd(s, now, commandOk);
      && (e.nav.Some? <==> s.thresholdReached && s.currentDirection.Some?)
      && (e.nav.Some? ==> e.nav.value.dir == s.currentDirection.value)
      && AtRest(e.state)
      && e.state.back == Hidden && e.state.forward == Hidden
      && e.state.lastSwipeTime == (if e.nav.Some? && e.nav.value.Executed? then now else s.lastSwipeTime)
      && e.state.idleDeadline == s.idleDeadline
      && e.state.wheelListeners == s.wheelListeners
      && e.state.swipeListeners == s.swipeListeners
  {
  }

  /** An armed gesture whose cooldown has passed dispatches its direction's
      command at release. */
  lemma GestureEndDispatches(s: State, now: int, commandOk: bool)
    requires s.thresholdReached && s.currentDirection.Some?
    requires now - s.lastSwipeTime >= SWIPE_COOLDOWN
    ensures GestureEnd(s, now, commandOk).nav
         == Some(Executed(s.currentDirection.value, Command(s.currentDirection.value), now, commandOk))
  {
  }

  /** The timer's firing keeps the invariant and leaves no timer pending. */
  lemma IdleTimerFiredKeepsInv(s: State, now: int, commandOk: bool)
    requires Inv(s)
    ensures Inv(IdleTimerFired(s, now, commandOk).state)
    ensures IdleTimerFired(s, now, commandOk).state.idleDeadline == None
  {
    HiddenWellFormed();
  }

  lemma HiddenWellFormed()
    ensures WellFormed(Hidden)
  {
  }

  /** Three-finger handler: nothing when disabled or for any direction
      other than 'left' and 'right'; otherwise one navigate call, 'left'
      meaning back and 'right' forward. The gesture fields are not
      involved, and the flash leaves both indicators hidden. */
  lemma ThreeFingerMapping(s: State, cfg: Settings, direction: string, now: int, commandOk: bool)
    ensures var t := ThreeFingerSwipe(s, cfg, direction, now, commandOk);
      && (!cfg.enabled || (direction != "left" && direction != "right") ==> t == Step(s, None))
      && (cfg.enabled && direction == "left" ==> t.nav.Some? && t.nav.value.dir == Back)
      && (cfg.enabled && direction == "right" ==> t.nav.Some? && t.nav.value.dir == Forward)
      && (t.nav.Some? ==>
            && t.state.back == Hidden && t.state.forward == Hidden
            && t.state == Navigate(ResetIndicators(s), t.nav.value.dir, now, commandOk).state)
      && t.state.accumulatedDelta == s.accumulatedDelta && t.state.currentDirection == s.currentDirection
      && t.state.swipeActive == s.swipeActive && t.state.thresholdReached == s.thresholdReached
  {
    if cfg.enabled && direction == "left" {
      FlashThenNavigate(s, Back, now, commandOk);
    } else if cfg.enabled && direction == "right" {
      FlashThenNavigate(s, Forward, now, commandOk);
    }
  }

  /** A discrete gesture: the flash ends with both indicators hidden, and
      navigate then runs on that state; the gesture fields are untouched
      and the invariant is kept. */
  lemma FlashThenNavigate(s: State, d: Direction, now: int, commandOk: bool)
    ensures var t := Navigate(FlashIndicator(s, d), d, now, commandOk);
      && t.nav.Some? && t.nav.value.dir == d
      && t.state == Navigate(ResetIndicators(s), d, now, commandOk).state
      && t.state.back == Hidden && t.state.forward == Hidden
      && t.state.accumulatedDelta == s.accumulatedDelta && t.state.currentDirection == s.currentDirection
      && t.state.swipeActive == s.swipeActive && t.state.thresholdReached == s.thresholdReached
      && (Inv(s) ==> Inv(t.state))
  {
    assert FlashIndicator(s, d) == ResetIndicators(s);
    HiddenWellFormed();
  }

  lemma ThreeFingerKeepsInv(s: State, cfg: Settings, direction: string, now: int, commandOk: bool)
    requires Inv(s)
    ensures Inv(ThreeFingerSwipe(s, cfg, direction, now, commandOk).state)
  {
    if cfg.enabled && direction == "left" {
      FlashThenNavigate(s, Back, now, commandOk);
    } else if cfg.enabled && direction == "right" {
      FlashThenNavigate(s, Forward, now, commandOk);
    }
  }

  /** Mode selection resets the gesture and leaves exactly one listener
      attached in all, because the teardown removes the one attached
      before: the window's swipe handler exactly when three-finger mode was
      asked for and the window could be reached, otherwise a wheel
      listener. The pending idle timer is not cancelled. */
  lemma SetupInstallsOneAdapter(s: State, cfg: Settings, probeOk: bool)
    requires Inv(s)
    ensures var t := Setup(s, cfg, probeOk);
      && Inv(t) && AtRest(t)
      && t.wheelListeners + t.swipeListeners == 1
      && (t.swipeListeners == 1 <==> cfg.swipeMode == ThreeFinger && probeOk)
      && t.idleDeadline == s.idleDeadline && t.lastSwipeTime == s.lastSwipeTime
  {
  }

  /** Calling setup twice is the same as calling it once: the second
      teardown removes the listener the first setup attached, so no second
      listener is left behind. */
  lemma SetupIdempotent(s: State, cfg: Settings, probeOk: bool)
    requires Inv(s)
    ensures Setup(Setup(s, cfg, probeOk), cfg, probeOk) == Setup(s, cfg, probeOk)
    ensures var t := Setup(Setup(s, cfg, probeOk), cfg, probeOk);
      t.wheelListeners + t.swipeListeners == 1
  {
  }

  /** A timer left pending by a teardown may still fire; it finds the
      gesture at rest and navigates nothing. */
  lemma StaleTimerAfterTeardown(s: State, now: int, commandOk: bool)
    ensures IdleTimerFired(Teardown(s), now, commandOk).nav == None
    ensures IdleTimerFired(Teardown(s), now, commandOk).state.lastSwipeTime == s.lastSwipeTime
  {
  }

  /** Unloading removes every listener and the pending timer. */
  lemma UnloadLeavesNothing(s: State)
    requires Inv(s)
    ensures var u := Unload(s);
      Inv(u) && AtRest(u) && u.wheelListeners == 0 && u.swipeListeners == 0 && u.idleDeadline == None
  {
  }
}
