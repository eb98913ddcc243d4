/** The navigation dispatcher's pure pieces: the feasibility check against
    the active leaf's history, the host command for each direction, and the
    cooldown test. */
module Navigation {
  import opened SwipeTypes

  /** The part of the active leaf's history the plugin looks at. */
  datatype LeafHistory = LeafHistory(backLength: nat, forwardLength: nat)

  /** Whether the host could move in direction `d`. When there is no active
      leaf, or it has no history, the plugin assumes it can. */
  function CanNavigate(history: Option<LeafHistory>, d: Direction): (r: bool)
    ensures history.None? ==> r
    ensures history.Some? && d == Back ==> (r <==> history.value.backLength > 0)
    ensures history.Some? && d == Forward ==> (r <==> history.value.forwardLength > 0)
  {
    match history
    case None => true
    case Some(h) => if d == Back then h.backLength > 0 else h.forwardLength > 0
  }

  /** The host command that performs a navigation. */
  function Command(d: Direction): string
  {
    match d
    case Back => "app:go-back"
    case Forward => "app:go-forward"
  }

  /** checkCooldown: true when at least SWIPE_COOLDOWN ms have passed since
      the last dispatched navigation. */
  function CooldownElapsed(lastSwipeTime: int, now: int): bool
  {
    now - lastSwipeTime >= SWIPE_COOLDOWN
  }
}
