/** Shared vocabulary of the swipe-navigation plugin: directions, settings,
    the constants that tune the recogniser, and the outcome of a navigation
    request. */
module SwipeTypes {

  datatype Option<+T> = None | Some(value: T)

  /** The two navigation directions; `null` in the source is `None`. */
  datatype Direction = Back | Forward

  /** Which input adapter the user asked for. */
  datatype SwipeMode = TwoFinger | ThreeFinger

  /** The settings record, re-read on every event. */
  datatype Settings = Settings(enabled: bool, sensitivity: real, debugMode: bool, swipeMode: SwipeMode)

  /** Settings the recogniser can work with: the settings slider only offers
      sensitivities from 20 to 100, so the threshold is never zero. */
  predicate ValidSettings(cfg: Settings)
  {
    cfg.sensitivity > 0.0
  }

  const DEFAULT_SETTINGS: Settings := Settings(true, 50.0, false, TwoFinger)

  /** Settings as the settings tab can leave them. */
  type ValidConfig = cfg: Settings | ValidSettings(cfg) witness DEFAULT_SETTINGS

  /** Minimum time between two dispatched navigations, in milliseconds. */
  const SWIPE_COOLDOWN: int := 300
  /** Horizontal motion must exceed vertical motion by this factor. */
  const DIRECTION_RATIO: real := 2.5
  /** A single event must move at least this far to start a swipe. */
  const MIN_VELOCITY_TO_ACTIVATE: real := 25.0
  /** The navigation threshold is sensitivity times this factor. */
  const SWIPE_THRESHOLD_MULTIPLIER: real := 3.0
  /** No qualifying event for this long ends the gesture, in milliseconds. */
  const GESTURE_IDLE_TIMEOUT: int := 200

  /** What a call to navigate did: nothing because of the cooldown, or it
      executed the host command (a notice is shown when that failed). */
  datatype NavOutcome =
    | CooldownBlocked(dir: Direction)
    | Executed(dir: Direction, command: string, at: int, succeeded: bool)

  function Abs(x: real): (r: real)
    ensures r >= 0.0 && (r == x || r == -x)
  {
    if x < 0.0 then -x else x
  }

  /** The direction of an accumulated horizontal distance. */
  function DirectionOf(acc: real): Option<Direction>
  {
    if acc < 0.0 then Some(Back) else if acc > 0.0 then Some(Forward) else None
  }
}
