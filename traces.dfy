/** Whole runs of the plugin: the host delivers a sequence of events (wheel
    events while the wheel listener is installed, window swipes while the
    window subscription is installed, the idle timer once it is due, edits
    of the settings, and re-selection of the adapter), and the plugin
    answers with the navigations it requests. The handlers read the
    settings as they are when each event arrives. The lemmas are about
    every such run. */
module Traces {
  import opened SwipeTypes
  import opened Indicators
  import opened Navigation
  import opened Recognizer
  import opened RecognizerLemmas

  datatype Event =
    | WheelEvent(deltaX: real, deltaY: real, history: Option<LeafHistory>, time: int)
    | IdleTimeout(time: int, commandOk: bool)
    | WindowSwipe(direction: string, time: int, commandOk: bool)
    | SettingsChanged(next: ValidConfig)
    | Reconfigure(probeOk: bool)

  /** The final state, the settings in force at the end, and every
      navigation requested, in order. */
  datatype Trace = Trace(state: State, settings: Settings, navs: seq<NavOutcome>)

  function NavSeq(nav: Option<NavOutcome>): seq<NavOutcome>
  {
    if nav.Some? then [nav.value] else []
  }

  /** One event as the host delivers it. */
  function Deliver(s: State, cfg: Settings, e: Event): Step
    requires ValidSettings(cfg)
  {
    match e
    case WheelEvent(dx, dy, history, time) =>
      if TwoFingerInstalled(s) then Step(Wheel(s, cfg, dx, dy, history, time), None) else Step(s, None)
    case IdleTimeout(time, commandOk) =>
      if s.idleDeadline.Some? && s.idleDeadline.value <= time then IdleTimerFired(s, time, commandOk)
      else Step(s, None)
    case WindowSwipe(direction, time, commandOk) =>
      if ThreeFingerInstalled(s) then ThreeFingerSwipe(s, cfg, direction, time, commandOk) else Step(s, None)
    case SettingsChanged(_) =>
      Step(s, None)
    case Reconfigure(probeOk) =>
      Step(Setup(s, cfg, probeOk), None)
  }

  /** The settings in force after an event: the settings tab writes them
      without touching the plugin's other fields. */
  function SettingsAfter(cfg: Settings, e: Event): Settings
  {
    if e.SettingsChanged? then e.next else cfg
  }

  function Run(s: State, cfg: Settings, events: seq<Event>): (r: Trace)
    requires ValidSettings(cfg)
    ensures ValidSettings(r.settings)
    decreases |events|
  {
    if events == [] then Trace(s, cfg, [])
    else
      var first := Deliver(s, cfg, events[0]);
      var rest := Run(first.state, SettingsAfter(cfg, events[0]), events[1..]);
      Trace(rest.state, rest.settings, NavSeq(first.nav) + rest.navs)
  }

  /** Running from the i-th event on: that event, then the rest. */
  lemma RunFrom(s: State, cfg: Settings, events: seq<Event>, i: nat)
    requires ValidSettings(cfg) && i < |events|
    ensures var first := Deliver(s, cfg, events[i]);
      var rest := Run(first.state, SettingsAfter(cfg, events[i]), events[i + 1..]);
      Run(s, cfg, events[i..]) == Trace(rest.state, rest.settings, NavSeq(first.nav) + rest.navs)
  {
    assert events[i..][1..] == events[i + 1..];
  }

  /** Running two event sequences one after the other is running their
      concatenation. */
  lemma {:induction false} RunAppend(s: State, cfg: Settings, a: seq<Event>, b: seq<Event>)
    requires ValidSettings(cfg)
    ensures var ra := Run(s, cfg, a);
      var rb := Run(ra.state, ra.settings, b);
      Run(s, cfg, a + b) == Trace(rb.state, rb.settings, ra.navs + rb.navs)
    decreases |a|
  {
    if a == [] {
      assert a + b == b;
    } else {
      var first := Deliver(s, cfg, a[0]);
      var next := SettingsAfter(cfg, a[0]);
      ConcatSplit(a, b);
      RunAppend(first.state, next, a[1..], b);
      var ra := Run(first.state, next, a[1..]);
      var rb := Run(ra.state, ra.settings, b);
      assert Run(s, cfg, a) == Trace(ra.state, ra.settings, NavSeq(first.nav) + ra.navs);
      assert Run(s, cfg, a + b) == Trace(rb.state, rb.settings, NavSeq(first.nav) + (ra.navs + rb.navs));
      assert NavSeq(first.nav) + (ra.navs + rb.navs) == (NavSeq(first.nav) + ra.navs) + rb.navs;
    }
  }

  lemma ConcatSplit<T>(a: seq<T>, b: seq<T>)
    requires a != []
    ensures a + b != [] && (a + b)[0] == a[0] && (a + b)[1..] == a[1..] + b
  {
  }

  /** The events after which a navigation may be requested. */
  predicate IsRelease(e: Event)
  {
    e.IdleTimeout? || e.WindowSwipe?
  }

  function Releases(events: seq<Event>): nat
  {
    if events == [] then 0 else (if IsRelease(events[0]) then 1 else 0) + Releases(events[1..])
  }

  /** Times of the navigations that actually executed a command. */
  function ExecutedTimes(navs: seq<NavOutcome>): seq<int>
  {
    if navs == [] then []
    else (if navs[0].Executed? then [navs[0].at] else []) + ExecutedTimes(navs[1..])
  }

  lemma DeliverKeepsInv(s: State, cfg: Settings, e: Event)
    requires ValidSettings(cfg) && Inv(s)
    ensures Inv(Deliver(s, cfg, e).state)
  {
    match e
    case WheelEvent(dx, dy, history, time) =>
      WheelKeepsInv(s, cfg, dx, dy, history, time);
    case IdleTimeout(time, commandOk) =>
      IdleTimerFiredKeepsInv(s, time, commandOk);
    case WindowSwipe(direction, time, commandOk) =>
      ThreeFingerKeepsInv(s, cfg, direction, time, commandOk);
    case SettingsChanged(_) =>
    case Reconfigure(probeOk) =>
      SetupInstallsOneAdapter(s, cfg, probeOk);
  }

  /** Every state a run reaches satisfies the invariant; in particular the
      navigation lock is never found set by a later event. */
  lemma {:induction false} RunKeepsInv(s: State, cfg: Settings, events: seq<Event>)
    requires ValidSettings(cfg) && Inv(s)
    ensures Inv(Run(s, cfg, events).state)
    ensures !Run(s, cfg, events).state.navigationLocked
    decreases |events|
  {
    if events != [] {
      DeliverKeepsInv(s, cfg, events[0]);
      RunKeepsInv(Deliver(s, cfg, events[0]).state, SettingsAfter(cfg, events[0]), events[1..]);
    }
  }

  /** Wheel events, settings edits and mode changes never navigate: each navigation is
      requested by an idle timeout or a window swipe, and each of those
      requests at most one. */
  lemma {:induction false} NavigationsBoundedByReleases(s: State, cfg: Settings, events: seq<Event>)
    requires ValidSettings(cfg)
    ensures |Run(s, cfg, events).navs| <= Releases(events)
    decreases |events|
  {
    if events != [] {
      var first := Deliver(s, cfg, events[0]);
      assert !IsRelease(events[0]) ==> first.nav == None;
      NavigationsBoundedByReleases(first.state, SettingsAfter(cfg, events[0]), events[1..]);
    }
  }

  /** Events the plugin drops: wheel events it filters out, and window
      swipes while recognition is disabled. */
  predicate Dropped(cfg: Settings, e: Event)
  {
    || (e.WheelEvent? && Ignored(cfg, e.deltaX, e.deltaY))
    || (e.WindowSwipe? && !cfg.enabled)
  }

  /** A run made only of dropped events changes no field and navigates
      nothing: with recognition disabled, or with vertical motion dominant
      on every event, the plugin is inert. */
  lemma {:induction false} DroppedEventsAreInert(s: State, cfg: Settings, events: seq<Event>)
    requires ValidSettings(cfg)
    requires forall i :: 0 <= i < |events| ==> Dropped(cfg, events[i])
    ensures Run(s, cfg, events) == Trace(s, cfg, [])
    decreases |events|
  {
    if events != [] {
      assert Dropped(cfg, events[0]);
      WheelFilterOn(s, cfg, events[0]);
      DroppedEventsAreInert(s, cfg, events[1..]);
    }
  }

  lemma WheelFilterOn(s: State, cfg: Settings, e: Event)
    requires ValidSettings(cfg) && Dropped(cfg, e)
    ensures Deliver(s, cfg, e) == Step(s, None)
  {
    if e.WheelEvent? {
      WheelFilter(s, cfg, e.deltaX, e.deltaY, e.history, e.time);
    }
  }

  lemma {:induction false} ExecutedTimesAppend(a: seq<NavOutcome>, b: seq<NavOutcome>)
    ensures ExecutedTimes(a + b) == ExecutedTimes(a) + ExecutedTimes(b)
    decreases |a|
  {
    if a == [] {
      assert a + b == b;
    } else {
      assert (a + b)[0] == a[0];
      assert (a + b)[1..] == a[1..] + b;
      ExecutedTimesAppend(a[1..], b);
      var h := if a[0].Executed? then [a[0].at] else [];
      assert ExecutedTimes(a + b) == h + ExecutedTimes(a[1..] + b);
      assert ExecutedTimes(a) == h + ExecutedTimes(a[1..]);
    }
  }

  /** Consecutive executed navigations are at least SWIPE_COOLDOWN apart,
      and the first is at least that far from the clock the run started
      with; the clock afterwards is the time of the last one. This holds in
      both directions and across both adapters, whatever the host's clock
      does. */
  predicate SpacedByCooldown(start: int, times: seq<int>)
  {
    && (|times| > 0 ==> times[0] - start >= SWIPE_COOLDOWN)
    && (forall i :: 0 < i < |times| ==> times[i] - times[i - 1] >= SWIPE_COOLDOWN)
  }

  /** A handler's effect on the cooldown clock: any command it executed is
      at least SWIPE_COOLDOWN after the clock it started from, and the clock
      afterwards is the time of that command, or unchanged. */
  predicate ClockStep(before: int, st: Step)
  {
    var times := ExecutedTimes(NavSeq(st.nav));
    SpacedByCooldown(before, times) && st.state.lastSwipeTime == (if times == [] then before else times[0])
  }

  lemma NavigateClock(s: State, d: Direction, now: int, commandOk: bool)
    ensures ClockStep(s.lastSwipeTime, Navigate(s, d, now, commandOk))
  {
  }

  lemma DeliverClock(s: State, cfg: Settings, e: Event)
    requires ValidSettings(cfg)
    ensures ClockStep(s.lastSwipeTime, Deliver(s, cfg, e))
  {
    match e
    case WheelEvent(dx, dy, history, time) =>
      WheelFrame(s, cfg, dx, dy, history, time);
      assert ExecutedTimes(NavSeq(None)) == [];
    case IdleTimeout(time, commandOk) =>
      var cleared := ClearGestureIdleTimer(s);
      if s.idleDeadline.Some? && s.idleDeadline.value <= time && cleared.thresholdReached && cleared.currentDirection.Some? {
        NavigateClock(cleared, cleared.currentDirection.value, time, commandOk);
      }
      GestureEndNavigatesOnRelease(cleared, time, commandOk);
    case WindowSwipe(direction, time, commandOk) =>
      if ThreeFingerInstalled(s) && cfg.enabled && direction == "left" {
        NavigateClock(FlashIndicator(s, Back), Back, time, commandOk);
      } else if ThreeFingerInstalled(s) && cfg.enabled && direction == "right" {
        NavigateClock(FlashIndicator(s, Forward), Forward, time, commandOk);
      }
    case SettingsChanged(_) =>
    case Reconfigure(probeOk) =>
  }

  lemma {:induction false} DispatchesRespectCooldown(s: State, cfg: Settings, events: seq<Event>)
    requires ValidSettings(cfg)
    ensures var r := Run(s, cfg, events);
      var times := ExecutedTimes(r.navs);
      && SpacedByCooldown(s.lastSwipeTime, times)
      && r.state.lastSwipeTime == (if times == [] then s.lastSwipeTime else times[|times| - 1])
    decreases |events|
  {
    if events != [] {
      var first := Deliver(s, cfg, events[0]);
      var rest := Run(first.state, SettingsAfter(cfg, events[0]), events[1..]);
      DeliverClock(s, cfg, events[0]);
      DispatchesRespectCooldown(first.state, SettingsAfter(cfg, events[0]), events[1..]);
      ExecutedTimesAppend(NavSeq(first.nav), rest.navs);
      assert Run(s, cfg, events).navs == NavSeq(first.nav) + rest.navs;
      assert |ExecutedTimes(NavSeq(first.nav))| <= 1;
      SpacedAppend(s.lastSwipeTime, ExecutedTimes(NavSeq(first.nav)), ExecutedTimes(rest.navs));
    }
  }

  /** At most one time, spaced from `start`, followed by times spaced from
      it (or from `start` when there is none), are spaced from `start`. */
  lemma SpacedAppend(start: int, head: seq<int>, tail: seq<int>)
    requires |head| <= 1 && SpacedByCooldown(start, head)
    requires SpacedByCooldown(if head == [] then start else head[0], tail)
    ensures SpacedByCooldown(start, head + tail)
    ensures head + tail != [] ==> (head + tail)[|head + tail| - 1] == (if tail == [] then head[0] else tail[|tail| - 1])
  {
    var times := head + tail;
    forall i | 0 < i < |times|
      ensures times[i] - times[i - 1] >= SWIPE_COOLDOWN
    {
      if i == |head| {
        assert times[i] == tail[0] && times[i - 1] == head[0];
      } else {
        assert times[i] == tail[i - |head|] && times[i - 1] == tail[i - 1 - |head|];
      }
    }
  }

  /** No armed gesture is waiting for its release: either nothing is armed
      or no idle timer is pending. */
  predicate Quiet(s: State)
  {
    !s.thresholdReached || s.idleDeadline == None
  }

  /** Settings edits that leave recognition switched off. */
  predicate KeepsDisabled(e: Event)
  {
    e.SettingsChanged? ==> !e.next.enabled
  }

  lemma DisabledStep(s: State, cfg: Settings, e: Event)
    requires ValidSettings(cfg) && !cfg.enabled && Quiet(s)
    ensures Deliver(s, cfg, e).nav == None && Quiet(Deliver(s, cfg, e).state)
  {
    match e
    case WheelEvent(dx, dy, history, time) =>
      WheelFilter(s, cfg, dx, dy, history, time);
    case IdleTimeout(time, commandOk) =>
      GestureEndNavigatesOnRelease(ClearGestureIdleTimer(s), time, commandOk);
    case WindowSwipe(direction, time, commandOk) =>
    case SettingsChanged(_) =>
    case Reconfigure(probeOk) =>
  }

  /** While recognition stays switched off, no navigation is requested,
      provided no armed gesture is still waiting for its idle timer: the
      wheel and window handlers drop every event, while the gesture-end
      callback does not look at the setting at all. */
  lemma {:induction false} DisabledRunNavigatesNothing(s: State, cfg: Settings, events: seq<Event>)
    requires ValidSettings(cfg) && !cfg.enabled && Quiet(s)
    requires forall i :: 0 <= i < |events| ==> KeepsDisabled(events[i])
    ensures Run(s, cfg, events).navs == []
    decreases |events|
  {
    if events != [] {
      DisabledStep(s, cfg, events[0]);
      assert KeepsDisabled(events[0]);
      DisabledRunNavigatesNothing(Deliver(s, cfg, events[0]).state, SettingsAfter(cfg, events[0]), events[1..]);
    }
  }

  /** The gesture is armed for a release in direction `d`. */
  predicate ArmedToward(s: State, d: Direction)
  {
    s.thresholdReached && s.currentDirection == Some(d)
  }

  /** Events that give a gesture in direction `d` no way to be armed: every
      wheel event comes with a history that rules `d` out, and no window
      swipe (which does not consult the history) arrives. */
  predicate RulesOut(d: Direction, e: Event)
  {
    && !e.WindowSwipe?
    && (e.WheelEvent? ==> !CanNavigate(e.history, d))
  }

  predicate NoneToward(navs: seq<NavOutcome>, d: Direction)
  {
    forall i :: 0 <= i < |navs| ==> navs[i].dir != d
  }

  lemma RuledOutStep(s: State, cfg: Settings, d: Direction, e: Event)
    requires ValidSettings(cfg) && Inv(s) && !ArmedToward(s, d) && RulesOut(d, e)
    ensures var st := Deliver(s, cfg, e);
      !ArmedToward(st.state, d) && (st.nav.Some? ==> st.nav.value.dir != d)
  {
    match e
    case WheelEvent(dx, dy, history, time) =>
      if TwoFingerInstalled(s) && Accumulates(s, cfg, dx, dy) {
        WheelProgress(s, cfg, dx, dy, history, time);
        WheelAccumulates(s, cfg, dx, dy, history, time);
      } else if TwoFingerInstalled(s) && !Ignored(cfg, dx, dy) {
        SlowEventOnlyRearms(s, cfg, dx, dy, history, time);
      }
    case IdleTimeout(time, commandOk) =>
      GestureEndNavigatesOnRelease(ClearGestureIdleTimer(s), time, commandOk);
    case WindowSwipe(direction, time, commandOk) =>
    case SettingsChanged(_) =>
    case Reconfigure(probeOk) =>
      SetupInstallsOneAdapter(s, cfg, probeOk);
  }

  /** A direction the history rules out on every wheel event is never
      navigated to: the progress step leaves the threshold flag alone for
      it, so a gesture in that direction is never armed and its release
      requests nothing. */
  lemma {:induction false} RuledOutDirectionNeverNavigated(s: State, cfg: Settings, d: Direction, events: seq<Event>)
    requires ValidSettings(cfg) && Inv(s) && !ArmedToward(s, d)
    requires forall i :: 0 <= i < |events| ==> RulesOut(d, events[i])
    ensures NoneToward(Run(s, cfg, events).navs, d)
    decreases |events|
  {
    if events != [] {
      var first := Deliver(s, cfg, events[0]);
      var next := SettingsAfter(cfg, events[0]);
      assert RulesOut(d, events[0]);
      RuledOutStep(s, cfg, d, events[0]);
      DeliverKeepsInv(s, cfg, events[0]);
      RuledOutDirectionNeverNavigated(first.state, next, d, events[1..]);
      var rest := Run(first.state, next, events[1..]).navs;
      assert Run(s, cfg, events).navs == NavSeq(first.nav) + rest;
      forall i | 0 <= i < |NavSeq(first.nav) + rest|
        ensures (NavSeq(first.nav) + rest)[i].dir != d
      {
        if i >= |NavSeq(first.nav)| {
          assert (NavSeq(first.nav) + rest)[i] == rest[i - |NavSeq(first.nav)|];
        }
      }
    }
  }
}
