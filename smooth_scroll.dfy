/**
 * SmoothScroll: where an in-page link scrolls to. The animation itself is
 * not modelled, only the scroll position it heads for.
 */
module SmoothScroll {
  import opened Wrappers
  import opened Config

  /** `$('.header').outerHeight() || 80`: the measured header height, or 80
      when there is no header (None) or it measures zero. */
  function HeaderHeight(measured: Option<nat>): (h: nat)
    ensures h > 0
    ensures measured.Some? && measured.value > 0 ==> h == measured.value
    ensures measured == None || measured == Some(0) ==> h == DefaultHeaderHeight
  {
    match measured
    case Some(m) => if m != 0 then m else DefaultHeaderHeight
    case None => DefaultHeaderHeight
  }

  /** `scrollTo`: the target's document offset less the header height, so the
      target ends up just below the fixed header. */
  function ScrollOffset(targetTop: int, measured: Option<nat>): (offset: int)
    ensures offset < targetTop
    ensures targetTop - offset == HeaderHeight(measured)
  {
    targetTop - HeaderHeight(measured)
  }

  /** `scrollToElement` and the link handler: no scrolling when the selector
      finds nothing, otherwise the offset of the element found. */
  function ScrollToElement(target: Option<int>, measured: Option<nat>): (offset: Option<int>)
    ensures offset.Some? <==> target.Some?
    ensures target.Some? ==> offset.value + HeaderHeight(measured) == target.value
  {
    match target
    case Some(top) => Some(ScrollOffset(top, measured))
    case None => None
  }

  /** A target at 500 below an 80-pixel header is scrolled to 420; with no
      measurable header the default 80 gives the same. */
  lemma ScrollOffsetExample()
    ensures ScrollOffset(500, Some(80)) == 420
    ensures ScrollOffset(500, None) == 420
    ensures ScrollOffset(500, Some(0)) == 420
  {
  }
}
