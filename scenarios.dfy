/** Concrete runs with the default settings (sensitivity 50, so the
    navigation threshold is 150 and the activation speed 25). */
module Scenarios {
  import opened SwipeTypes
  import opened Indicators
  import opened Navigation
  import opened Recognizer
  import opened Traces

  /** The plugin after loading with the default settings: two-finger mode. */
  const Loaded: State := Setup(Initial, DEFAULT_SETTINGS, false)

  function Swipe(dx: real, time: int): Event
  {
    WheelEvent(dx, 0.0, None, time)
  }

  /** The default settings with recognition switched off. */
  const Disabled: ValidConfig := DEFAULT_SETTINGS.(enabled := false)

  /** The default settings asking for the three-finger adapter. */
  const ThreeFingerMode: ValidConfig := DEFAULT_SETTINGS.(swipeMode := ThreeFinger)

  /** One event of -26 starts a back swipe but stays below the threshold. */
  lemma OneFastEventStartsBelowThreshold()
    ensures var r := Run(Loaded, DEFAULT_SETTINGS, [Swipe(-26.0, 1000)]);
      && r.navs == []
      && r.state.swipeActive && r.state.accumulatedDelta == -26.0
      && r.state.currentDirection == Some(Back)
      && !r.state.thresholdReached && !r.state.back.ready
      && r.state.idleDeadline == Some(1200)
  {
  }

  /** Slow horizontal panning never starts a swipe. */
  lemma SlowPanningNeverStarts()
    ensures var r := Run(Loaded, DEFAULT_SETTINGS, [Swipe(-20.0, 1000), Swipe(-20.0, 1010), Swipe(-20.0, 1020)]);
      && r.navs == [] && AtRest(r.state) && r.state.idleDeadline == Some(1220)
  {
  }

  const SixBack: seq<Event> :=
    [Swipe(-30.0, 1000), Swipe(-30.0, 1010), Swipe(-30.0, 1020),
     Swipe(-30.0, 1030), Swipe(-30.0, 1040), Swipe(-30.0, 1050)]

  const TrailingThenRelease: seq<Event> :=
    [Swipe(-5.0, 1060), Swipe(-5.0, 1070), IdleTimeout(1270, true)]

  /** Six events of -30 (180 in all) arm a back navigation without
      navigating. */
  lemma SixEventsArmBack()
    ensures var r := Run(Loaded, DEFAULT_SETTINGS, SixBack);
      && r.navs == [] && Inv(r.state) && TwoFingerInstalled(r.state)
      && r.state.accumulatedDelta == -180.0 && r.state.currentDirection == Some(Back)
      && r.state.thresholdReached && r.state.lastSwipeTime == 0
      && r.state.idleDeadline == Some(1250) && r.settings == DEFAULT_SETTINGS
  {
    RecognizerLemmas.InitialState();
    RecognizerLemmas.SetupInstallsOneAdapter(Initial, DEFAULT_SETTINGS, false);
    assert forall i :: 0 <= i < |SixBack| ==> BackwardSwipe(SixBack[i]);
    BackwardRun(Loaded, SixBack);
    assert DeltaSum(SixBack) == -180.0 by {
      assert DeltaSum(SixBack[5..]) == -30.0;
      assert DeltaSum(SixBack[4..]) == -60.0;
      assert DeltaSum(SixBack[3..]) == -90.0;
      assert DeltaSum(SixBack[2..]) == -120.0;
      assert DeltaSum(SixBack[1..]) == -150.0;
    }
  }

  /** A backward wheel event with no vertical motion and no leaf history. */
  predicate BackwardSwipe(e: Event)
  {
    e.WheelEvent? && e.deltaY == 0.0 && e.history == None && e.deltaX <= -1.0
  }

  /** The horizontal distance the wheel events of a run cover. */
  function DeltaSum(events: seq<Event>): real
  {
    if events == [] then 0.0
    else (if events[0].WheelEvent? then events[0].deltaX else 0.0) + DeltaSum(events[1..])
  }

  /** A run of backward wheel events, the first fast enough to start the
      gesture (or the gesture already running), navigates nothing and adds
      up the events' deltas; the gesture goes back and is armed exactly when
      the total reaches 150, and the idle deadline follows the last event. */
  lemma {:induction false} BackwardRun(s: State, events: seq<Event>)
    requires Inv(s) && TwoFingerInstalled(s) && s.accumulatedDelta <= 0.0
    requires forall i :: 0 <= i < |events| ==> BackwardSwipe(events[i])
    requires events != [] ==> s.swipeActive || (events[0].WheelEvent? && events[0].deltaX <= -MIN_VELOCITY_TO_ACTIVATE)
    ensures var r := Run(s, DEFAULT_SETTINGS, events);
      && r.navs == [] && r.settings == DEFAULT_SETTINGS
      && Inv(r.state) && TwoFingerInstalled(r.state)
      && r.state.accumulatedDelta == s.accumulatedDelta + DeltaSum(events)
      && r.state.lastSwipeTime == s.lastSwipeTime
      && (events != [] ==>
            && r.state.swipeActive && r.state.currentDirection == Some(Back)
            && r.state.thresholdReached == (r.state.accumulatedDelta <= -150.0)
            && events[|events| - 1].WheelEvent?
            && r.state.idleDeadline == Some(events[|events| - 1].time + GESTURE_IDLE_TIMEOUT))
    decreases |events|
  {
    if events != [] {
      var e := events[0];
      assert BackwardSwipe(e);
      assert e == Swipe(e.deltaX, e.time);
      var s1 := BackStep(s, e.deltaX, e.time);
      var tail := events[1..];
      assert forall i :: 0 <= i < |tail| ==> BackwardSwipe(tail[i]) by {
        forall i | 0 <= i < |tail| ensures BackwardSwipe(tail[i]) {
          assert tail[i] == events[i + 1];
        }
      }
      BackwardRun(s1, tail);
      assert tail != [] ==> tail[|tail| - 1] == events[|events| - 1];
    }
  }

  /** Further events before the release add no navigation; the release
      navigates back exactly once and the gesture ends at rest. */
  lemma SixEventsThenReleaseNavigateOnce()
    ensures var r := Run(Loaded, DEFAULT_SETTINGS, SixBack + TrailingThenRelease);
      && r.navs == [Executed(Back, "app:go-back", 1270, true)]
      && AtRest(r.state) && r.state.lastSwipeTime == 1270
  {
    SixEventsArmBack();
    RunAppend(Loaded, DEFAULT_SETTINGS, SixBack, TrailingThenRelease);
    TrailingThenReleaseFrom(Run(Loaded, DEFAULT_SETTINGS, SixBack).state);
  }

  /** The tail of the run above, from any state armed back at -180. */
  lemma TrailingThenReleaseFrom(s6: State)
    requires Inv(s6) && TwoFingerInstalled(s6) && s6.accumulatedDelta == -180.0
    requires s6.swipeActive && s6.lastSwipeTime == 0
    ensures var r := Run(s6, DEFAULT_SETTINGS, TrailingThenRelease);
      && r.navs == [Executed(Back, "app:go-back", 1270, true)]
      && AtRest(r.state) && r.state.lastSwipeTime == 1270
  {
    var cfg := DEFAULT_SETTINGS;
    var events := TrailingThenRelease;
    var s7 := BackStep(s6, -5.0, 1060);
    var s8 := BackStep(s7, -5.0, 1070);
    RecognizerLemmas.GestureEndNavigatesOnRelease(ClearGestureIdleTimer(s8), 1270, true);
    RunFrom(s8, cfg, events, 2);
    assert events[3..] == [];
    RunFrom(s7, cfg, events, 1);
    RunFrom(s6, cfg, events, 0);
    assert events[0..] == events;
  }

  /** One more backward event in a two-finger gesture that is going back
      (or has not started): no reversal, the distance grows, and the
      threshold is reached once it is 150 or more. */
  lemma BackStep(s: State, dx: real, time: int) returns (r: State)
    requires Inv(s) && TwoFingerInstalled(s) && s.accumulatedDelta <= 0.0
    requires dx <= -1.0 && (s.swipeActive || dx <= -MIN_VELOCITY_TO_ACTIVATE)
    ensures Deliver(s, DEFAULT_SETTINGS, Swipe(dx, time)) == Step(r, None)
    ensures Inv(r) && TwoFingerInstalled(r) && r.swipeActive
    ensures r.accumulatedDelta == s.accumulatedDelta + dx && r.currentDirection == Some(Back)
    ensures r.thresholdReached == (s.accumulatedDelta + dx <= -150.0)
    ensures r.idleDeadline == Some(time + GESTURE_IDLE_TIMEOUT) && r.lastSwipeTime == s.lastSwipeTime
  {
    var cfg := DEFAULT_SETTINGS;
    r := Wheel(s, cfg, dx, 0.0, None, time);
    assert Accumulates(s, cfg, dx, 0.0);
    assert !Reverses(s, dx);
    RecognizerLemmas.WheelAccumulates(s, cfg, dx, 0.0, None, time);
    RecognizerLemmas.WheelProgress(s, cfg, dx, 0.0, None, time);
    RecognizerLemmas.WheelKeepsInv(s, cfg, dx, 0.0, None, time);
    RecognizerLemmas.WheelFrame(s, cfg, dx, 0.0, None, time);
  }

  /** A timeout that comes before the timer is due does nothing. */
  lemma EarlyTimeoutIgnored()
    ensures var r := Run(Loaded, DEFAULT_SETTINGS, [Swipe(-30.0, 1000), IdleTimeout(1100, true)]);
      r.navs == [] && r.state.swipeActive
  {
  }

  /** Going back 100 and then forward 40 does not reverse: the sum is still
      negative, so it becomes -60 and the direction stays back. */
  lemma PartialReturnKeepsSum()
    ensures var r := Run(Loaded, DEFAULT_SETTINGS, [Swipe(-50.0, 1000), Swipe(-50.0, 1010), Swipe(40.0, 1020)]);
      r.state.accumulatedDelta == -60.0 && r.state.currentDirection == Some(Back)
  {
  }

  /** Crossing zero reverses: after -50, an event of +80 restarts the
      gesture at +80 going forward, not at the sum +30. */
  lemma CrossingZeroRestarts()
    ensures var r := Run(Loaded, DEFAULT_SETTINGS, [Swipe(-50.0, 1000), Swipe(80.0, 1010)]);
      r.state.accumulatedDelta == 80.0 && r.state.currentDirection == Some(Forward) && r.state.swipeActive
  {
  }

  /** Moving an armed gesture back below the threshold, without crossing
      zero, before release cancels it. */
  lemma PartialReturnCancelsArmedSwipe()
    ensures var events := [Swipe(-100.0, 1000), Swipe(-100.0, 1010), Swipe(120.0, 1020), IdleTimeout(1220, true)];
      var r := Run(Loaded, DEFAULT_SETTINGS, events);
      r.navs == [] && AtRest(r.state)
  {
  }

  /** In three-finger mode, two swipes 100 ms apart navigate once: the
      second is blocked by the cooldown whatever its direction. */
  lemma CooldownDropsSecondSwipe()
    ensures var mode := DEFAULT_SETTINGS.(swipeMode := ThreeFinger);
      var r := Run(Initial, mode, [Reconfigure(true), WindowSwipe("left", 1000, true), WindowSwipe("right", 1100, true)]);
      r.navs == [Executed(Back, "app:go-back", 1000, true), CooldownBlocked(Forward)]
  {
  }

  /** Crossing zero from an armed back swipe does not cancel it: the
      gesture restarts from the +250 event, which is past the threshold on
      its own, so the release navigates forward. */
  lemma CrossingZeroFromArmedNavigatesForward()
    ensures var events := [Swipe(-100.0, 1000), Swipe(-100.0, 1010), Swipe(250.0, 1020), IdleTimeout(1220, true)];
      var r := Run(Loaded, DEFAULT_SETTINGS, events);
      r.navs == [Executed(Forward, "app:go-forward", 1220, true)] && AtRest(r.state)
  {
  }

  /** Switching from two-finger to three-finger mode while a gesture is
      armed drops it: the wheel listener is gone, later wheel events are not
      delivered, and the old timer firing later navigates nothing. */
  lemma ModeSwitchDropsArmedGesture()
    ensures var events := [Swipe(-100.0, 1000), Swipe(-100.0, 1010), SettingsChanged(ThreeFingerMode),
                           Reconfigure(true), Swipe(-100.0, 1020), IdleTimeout(1300, true)];
      var r := Run(Loaded, DEFAULT_SETTINGS, events);
      && r.navs == [] && AtRest(r.state) && r.settings == ThreeFingerMode
      && ThreeFingerInstalled(r.state) && !TwoFingerInstalled(r.state)
  {
    var armed := [Swipe(-100.0, 1000), Swipe(-100.0, 1010)];
    var switched := [SettingsChanged(ThreeFingerMode), Reconfigure(true), Swipe(-100.0, 1020), IdleTimeout(1300, true)];
    assert armed + switched == [Swipe(-100.0, 1000), Swipe(-100.0, 1010), SettingsChanged(ThreeFingerMode),
                                Reconfigure(true), Swipe(-100.0, 1020), IdleTimeout(1300, true)];
    RunAppend(Loaded, DEFAULT_SETTINGS, armed, switched);
    var ra := Run(Loaded, DEFAULT_SETTINGS, armed);
    assert ra.navs == [] && ra.settings == DEFAULT_SETTINGS && ra.state.thresholdReached;
    RecognizerLemmas.InitialState();
    RecognizerLemmas.SetupInstallsOneAdapter(Initial, DEFAULT_SETTINGS, false);
    RunKeepsInv(Loaded, DEFAULT_SETTINGS, armed);
    SwitchThenReleaseFrom(ra.state);
  }

  /** The tail of the run above, from any state: the re-selection resets
      the gesture, so nothing is left for the old timer to release. */
  lemma SwitchThenReleaseFrom(s: State)
    requires Inv(s)
    ensures var r := Run(s, DEFAULT_SETTINGS, [SettingsChanged(ThreeFingerMode), Reconfigure(true), Swipe(-100.0, 1020), IdleTimeout(1300, true)]);
      && r.navs == [] && AtRest(r.state) && r.settings == ThreeFingerMode
      && ThreeFingerInstalled(r.state) && !TwoFingerInstalled(r.state)
  {
    var cfg := ThreeFingerMode;
    var t := Setup(s, cfg, true);
    RecognizerLemmas.SetupInstallsOneAdapter(s, cfg, true);
    RecognizerLemmas.GestureEndNavigatesOnRelease(ClearGestureIdleTimer(t), 1300, true);
    var r := Deliver(t, cfg, IdleTimeout(1300, true)).state;
    assert Run(t, cfg, [IdleTimeout(1300, true)]) == Trace(r, cfg, []);
    assert Run(t, cfg, [Swipe(-100.0, 1020), IdleTimeout(1300, true)]) == Trace(r, cfg, []);
    assert Run(s, cfg, [Reconfigure(true), Swipe(-100.0, 1020), IdleTimeout(1300, true)]) == Trace(r, cfg, []);
  }

  /** Switching recognition off does not cancel a gesture that is already
      armed: the gesture-end callback does not look at the setting, so the
      pending release still navigates back. */
  lemma DisablingKeepsArmedRelease()
    ensures var r := Run(Loaded, DEFAULT_SETTINGS, SixBack + [SettingsChanged(Disabled), IdleTimeout(1250, true)]);
      r.navs == [Executed(Back, "app:go-back", 1250, true)] && r.settings == Disabled
  {
    SixEventsArmBack();
    RunAppend(Loaded, DEFAULT_SETTINGS, SixBack, [SettingsChanged(Disabled), IdleTimeout(1250, true)]);
    DisableThenReleaseFrom(Run(Loaded, DEFAULT_SETTINGS, SixBack).state);
  }

  lemma DisableThenReleaseFrom(s6: State)
    requires s6.thresholdReached && s6.currentDirection == Some(Back)
    requires s6.idleDeadline == Some(1250) && s6.lastSwipeTime == 0
    ensures var r := Run(s6, DEFAULT_SETTINGS, [SettingsChanged(Disabled), IdleTimeout(1250, true)]);
      r.navs == [Executed(Back, "app:go-back", 1250, true)] && r.settings == Disabled
  {
    var tail := [SettingsChanged(Disabled), IdleTimeout(1250, true)];
    RecognizerLemmas.GestureEndDispatches(ClearGestureIdleTimer(s6), 1250, true);
    RunFrom(s6, Disabled, tail, 1);
    assert tail[2..] == [];
    RunFrom(s6, DEFAULT_SETTINGS, tail, 0);
    assert tail[0..] == tail;
  }
}
