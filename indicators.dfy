/** The two on-screen indicators, reduced to what the gesture logic decides
    about them: how far each has grown and whether it shows the "ready"
    arrow. Width, opacity and animation classes are rendering only. */
module Indicators {
  import opened SwipeTypes

  datatype Indicator = Indicator(progress: real, ready: bool)

  const Hidden: Indicator := Indicator(0.0, false)

  /** A well-formed indicator: progress within [0, 1] and the arrow shown
      exactly when the indicator is full. */
  predicate WellFormed(ind: Indicator)
  {
    0.0 <= ind.progress <= 1.0 && ind.ready == (ind.progress >= 1.0)
  }

  /** min(max(p, 0), 1). */
  function Clamp(p: real): (r: real)
    ensures 0.0 <= r <= 1.0
    ensures 0.0 <= p <= 1.0 ==> r == p
    ensures p <= 0.0 ==> r == 0.0
    ensures p >= 1.0 ==> r == 1.0
  {
    if p < 0.0 then 0.0 else if p > 1.0 then 1.0 else p
  }

  /** The indicator drawn for a given raw progress value. */
  function Show(progress: real): (ind: Indicator)
    ensures WellFormed(ind)
    ensures ind.ready <==> progress >= 1.0
    ensures ind.progress == Clamp(progress)
  {
    var c := Clamp(progress);
    Indicator(c, c >= 1.0)
  }
}
