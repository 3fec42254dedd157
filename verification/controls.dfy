/** The capture-region drag and the start/stop controls, identical in the
    three application files. */
module Controls {
  import opened Fen
  import opened Wrappers
  import opened State

  function Min(a: int, b: int): int { if a <= b then a else b }
  function Abs(a: int): nat { if a >= 0 then a else -a }

  /** The rectangle `(min(x1, x2), min(y1, y2), abs(x2 - x1), abs(y2 - y1))`
      spanned by a drag from `(x1, y1)` to `(x2, y2)`: its size is never
      negative and both drag end points lie on its border. */
  function RegionOf(x1: int, y1: int, x2: int, y2: int): (r: Region)
    ensures r.w >= 0 && r.h >= 0
    ensures r.x <= x1 <= r.x + r.w && r.x <= x2 <= r.x + r.w
    ensures r.y <= y1 <= r.y + r.h && r.y <= y2 <= r.y + r.h
    ensures (r.x == x1 && r.x + r.w == x2) || (r.x == x2 && r.x + r.w == x1)
    ensures (r.y == y1 && r.y + r.h == y2) || (r.y == y2 && r.y + r.h == y1)
  {
    Region(Min(x1, x2), Min(y1, y2), Abs(x2 - x1), Abs(y2 - y1))
  }

  /** The region does not depend on the drag direction. */
  lemma RegionSymmetric(x1: int, y1: int, x2: int, y2: int)
    ensures RegionOf(x1, y1, x2, y2) == RegionOf(x2, y2, x1, y1)
    ensures RegionOf(x1, y1, x2, y2) == RegionOf(x1, y2, x2, y1)
  {
  }

  /** `on_mouse_up`: the button is released at `(x2, y2)`. Without a prior
      button press `region_start` is None, unpacking it raises inside the
      callback, and the region is left as it was. */
  function OnMouseUp<I>(s: AppState<I>, start: Option<(int, int)>, x2: int, y2: int): (r: AppState<I>)
    ensures start.Some? ==> r == s.(regionBox := Some(RegionOf(start.value.0, start.value.1, x2, y2)))
    ensures start.None? ==> r == s
  {
    match start
    case Some((x1, y1)) => s.(regionBox := Some(RegionOf(x1, y1, x2, y2)))
    case None => s
  }

  /** `start_analysis`: refuses only when no region was ever set (a region
      tuple, even of zero size, is truthy). Otherwise it sets the flag and
      starts an analysis thread, whether or not one is already running. */
  function StartAnalysis<I>(s: AppState<I>): (r: (AppState<I>, bool))
    ensures r.1 <==> s.regionBox.Some?
    ensures r.1 ==> r.0 == s.(analysisActive := true)
    ensures !r.1 ==> r.0 == s
  {
    if s.regionBox.None? then (s, false) else (s.(analysisActive := true), true)
  }

  /** `stop_analysis`: clears the flag the loop checks once per cycle. */
  function StopAnalysis<I>(s: AppState<I>): (r: AppState<I>)
    ensures !r.analysisActive
    ensures r.(analysisActive := s.analysisActive) == s
  {
    s.(analysisActive := false)
  }

  /** `on_color_change`: stop, then start again. Afterwards the loop runs iff
      a region is set, and a fresh thread was started iff a region is set. */
  lemma ColorChangeRestarts<I>(s: AppState<I>)
    ensures var (r, started) := StartAnalysis(StopAnalysis(s));
      && (r.analysisActive <==> s.regionBox.Some?)
      && (started <==> s.regionBox.Some?)
      && r.(analysisActive := s.analysisActive) == s
  {
  }

  /** A zero-size region is accepted. */
  lemma ZeroRegionStarts<I>(s: AppState<I>, x: int, y: int)
    ensures StartAnalysis(OnMouseUp(s, Some((x, y)), x, y)).1
    ensures OnMouseUp(s, Some((x, y)), x, y).regionBox == Some(Region(x, y, 0, 0))
  {
  }
}
