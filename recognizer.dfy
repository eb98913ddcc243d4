/** The two-finger gesture recogniser, the navigation dispatcher and the mode
    selector as functions on a value that holds every field of the plugin
    they read or write. Each function is one event handler of the plugin;
    the class in module Plugin performs the same steps in place and is
    proved equal to these functions. The lemmas below state what each
    handler promises. */
module Recognizer {
  import opened SwipeTypes
  import opened Indicators
  import opened Navigation

  /** The plugin's mutable fields. `idleDeadline` is the pending idle timer
      (the time it will fire). The two counts are the wheel listeners
      attached to the document and the swipe handlers subscribed on the
      window: a setup that skipped its teardown would leave two. */
  datatype State = State(
    accumulatedDelta: real,
    currentDirection: Option<Direction>,
    swipeActive: bool,
    thresholdReached: bool,
    navigationLocked: bool,
    lastSwipeTime: int,
    idleDeadline: Option<int>,
    back: Indicator,
    forward: Indicator,
    wheelListeners: nat,
    swipeListeners: nat)

  /** The field initialisers: no gesture, no timer, no listener yet. */
  const Initial: State :=
    State(0.0, None, false, false, false, 0, None, Hidden, Hidden, 0, 0)

  /** The two-finger adapter receives wheel events. */
  predicate TwoFingerInstalled(s: State)
  {
    s.wheelListeners > 0
  }

  /** The three-finger adapter receives the window's swipe events. */
  predicate ThreeFingerInstalled(s: State)
  {
    s.swipeListeners > 0
  }

  /** A new state and, when the handler called navigate, what it did. */
  datatype Step = Step(state: State, nav: Option<NavOutcome>)

  /** The invariant every handler keeps: the direction is the sign of the
      accumulated distance, the navigation lock is never left set, nothing
      accumulates before activation, a reached threshold belongs to an
      active gesture with a direction, at most one listener is attached in
      all, and both indicators are well formed. */
  predicate Inv(s: State)
  {
    && s.currentDirection == DirectionOf(s.accumulatedDelta)
    && !s.navigationLocked
    && (!s.swipeActive ==> s.accumulatedDelta == 0.0)
    && (s.thresholdReached ==> s.swipeActive && s.currentDirection.Some?)
    && s.wheelListeners + s.swipeListeners <= 1
    && WellFormed(s.back) && WellFormed(s.forward)
  }

  /** The gesture fields are at their zero value. */
  predicate AtRest(s: State)
  {
    && s.accumulatedDelta == 0.0
    && s.currentDirection == None
    && !s.swipeActive
    && !s.thresholdReached
    && !s.navigationLocked
  }

  // ---- Indicator controller ----

  function IndicatorOf(s: State, d: Direction): Indicator
  {
    if d == Back then s.back else s.forward
  }

  function UpdateIndicator(s: State, d: Direction, progress: real): State
  {
    if d == Back then s.(back := Show(progress)) else s.(forward := Show(progress))
  }

  function ResetIndicators(s: State): State
  {
    s.(back := Hidden, forward := Hidden)
  }

  /** A discrete gesture shows a full indicator and lets it decay at once. */
  function FlashIndicator(s: State, d: Direction): State
  {
    ResetIndicators(UpdateIndicator(s, d, 1.0))
  }

  // ---- Gesture accumulator ----

  function ResetSwipeState(s: State): State
  {
    s.(accumulatedDelta := 0.0, currentDirection := None, swipeActive := false, thresholdReached := false)
  }

  function ResetGestureIdleTimer(s: State, now: int): State
  {
    s.(idleDeadline := Some(now + GESTURE_IDLE_TIMEOUT))
  }

  function ClearGestureIdleTimer(s: State): State
  {
    s.(idleDeadline := None)
  }

  /** Events dropped before anything happens: recognition is off, vertical
      motion dominates, or the horizontal motion is sub-pixel noise. */
  predicate Ignored(cfg: Settings, dx: real, dy: real)
  {
    !cfg.enabled || Abs(dy) * DIRECTION_RATIO > Abs(dx) || Abs(dx) < 1.0
  }

  /** Events that reach the accumulation step. */
  predicate Accumulates(s: State, cfg: Settings, dx: real, dy: real)
  {
    !Ignored(cfg, dx, dy) && !s.navigationLocked && (s.swipeActive || Abs(dx) >= MIN_VELOCITY_TO_ACTIVATE)
  }

  /** Adding `dx` flips the sign of a gesture that already had a direction. */
  predicate Reverses(s: State, dx: real)
  {
    var newDirection := DirectionOf(s.accumulatedDelta + dx);
    s.currentDirection.Some? && newDirection.Some? && s.currentDirection != newDirection
  }

  /** The distance at which a gesture is armed. */
  function Threshold(cfg: Settings): real
  {
    cfg.sensitivity * SWIPE_THRESHOLD_MULTIPLIER
  }

  /** handleWheelEvent: filter, keep the gesture alive, gate activation,
      then accumulate and track progress. */
  function Wheel(s: State, cfg: Settings, dx: real, dy: real, history: Option<LeafHistory>, now: int): State
    requires ValidSettings(cfg)
  {
    if Ignored(cfg, dx, dy) then s
    else
      var armed := ResetGestureIdleTimer(s, now);
      if armed.navigationLocked then armed
      else if !armed.swipeActive && Abs(dx) < MIN_VELOCITY_TO_ACTIVATE then armed
      else Track(Accumulate(armed, dx), cfg, history)
  }

  /** Add the delta to an active gesture and take the direction from the
      sign of the sum; a reversal restarts the gesture from the delta. */
  function Accumulate(s: State, dx: real): State
  {
    var newDirection := DirectionOf(s.accumulatedDelta + dx);
    var seeded :=
      if Reverses(s, dx)
      then ResetSwipeState(s).(swipeActive := true, accumulatedDelta := dx)
      else s.(swipeActive := true, accumulatedDelta := s.accumulatedDelta + dx);
    seeded.(currentDirection := newDirection)
  }

  /** How far the gesture has come towards the threshold. */
  function Progress(s: State, cfg: Settings): real
    requires ValidSettings(cfg)
  {
    Abs(s.accumulatedDelta) / Threshold(cfg)
  }

  /** Unless the history rules the direction out, show the progress towards
      the threshold and record whether it has been reached. */
  function Track(s: State, cfg: Settings, history: Option<LeafHistory>): State
    requires ValidSettings(cfg)
  {
    if s.currentDirection.Some? && !CanNavigate(history, s.currentDirection.value) then s
    else
      var progress := Progress(s, cfg);
      var shown :=
        if s.currentDirection.Some? then UpdateIndicator(s, s.currentDirection.value, progress) else s;
      shown.(thresholdReached := progress >= 1.0)
  }

  // ---- Navigation dispatcher ----

  /** navigate: inside the cooldown nothing happens; otherwise the time is
      recorded first and then the host command is executed. */
  function Navigate(s: State, d: Direction, now: int, commandOk: bool): Step
  {
    if !CooldownElapsed(s.lastSwipeTime, now) then Step(s, Some(CooldownBlocked(d)))
    else Step(s.(lastSwipeTime := now), Some(Executed(d, Command(d), now, commandOk)))
  }

  // ---- Idle timer: gesture end ----

  /** onGestureEnd: navigate on release if the threshold is still reached,
      then let the indicators decay and return to the zero state. */
  function GestureEnd(s: State, now: int, commandOk: bool): Step
  {
    var fired :=
      if s.thresholdReached && s.currentDirection.Some?
      then var n := Navigate(s, s.currentDirection.value, now, commandOk);
           Step(n.state.(navigationLocked := true), n.nav)
      else Step(s, None);
    var done := ResetSwipeState(ResetIndicators(fired.state)).(navigationLocked := false);
    Step(done, fired.nav)
  }

  /** The pending idle timer fires: it is no longer pending, and its
      callback runs onGestureEnd. */
  function IdleTimerFired(s: State, now: int, commandOk: bool): Step
  {
    GestureEnd(ClearGestureIdleTimer(s), now, commandOk)
  }

  // ---- Discrete (three-finger) adapter ----

  /** The window's swipe handler: 'left' navigates back, 'right' forward. */
  function ThreeFingerSwipe(s: State, cfg: Settings, direction: string, now: int, commandOk: bool): Step
  {
    if !cfg.enabled then Step(s, None)
    else if direction == "left" then Navigate(FlashIndicator(s, Back), Back, now, commandOk)
    else if direction == "right" then Navigate(FlashIndicator(s, Forward), Forward, now, commandOk)
    else Step(s, None)
  }

  // ---- Mode selector ----

  /** Removing the listener the plugin holds a handle to, if any: the abort
      controller or the window's handler reference names only the one
      attached last. */
  function Detach(listeners: nat): nat
  {
    if listeners > 0 then listeners - 1 else 0
  }

  /** teardownListeners: abort the wheel listener, reset the gesture and
      unsubscribe from the window. The idle timer is left pending. */
  function Teardown(s: State): State
  {
    ResetSwipeState(s.(wheelListeners := Detach(s.wheelListeners))).(swipeListeners := Detach(s.swipeListeners))
  }

  /** setupSwipeListener: tear down, then install the three-finger adapter
      when it was asked for and the window could be reached, otherwise the
      two-finger adapter. */
  function Setup(s: State, cfg: Settings, probeOk: bool): State
  {
    var t := Teardown(s);
    if cfg.swipeMode == ThreeFinger && probeOk then t.(swipeListeners := t.swipeListeners + 1)
    else t.(wheelListeners := t.wheelListeners + 1)
  }

  /** onunload: tear down and cancel the pending idle timer. */
  function Unload(s: State): State
  {
    ClearGestureIdleTimer(Teardown(s))
  }
}
