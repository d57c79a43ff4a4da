/**
 * Utils: the viewport test shared by lazy loading and the counters. Element
 * geometry comes from `getBoundingClientRect` and the window's size from the
 * browser; both are taken here as plain integers.
 */
module Utils {

  /** An element's bounding rectangle relative to the viewport. */
  datatype Rect = Rect(top: int, left: int, bottom: int, right: int)

  /** `window.innerWidth/innerHeight` and `document.documentElement.clientWidth/clientHeight`. */
  datatype Window = Window(innerWidth: int, innerHeight: int, clientWidth: int, clientHeight: int)

  /** A number `x || fallback`: zero counts as absent. */
  function OrElse(x: int, fallback: int): int {
    if x != 0 then x else fallback
  }

  /** `isInViewport`: the whole rectangle lies inside the visible area. */
  predicate IsInViewport(r: Rect, w: Window): (inside: bool)
    ensures inside ==> r.top >= 0 && r.left >= 0
    ensures inside && w.innerHeight != 0 ==> r.bottom <= w.innerHeight
    ensures inside && w.innerHeight == 0 ==> r.bottom <= w.clientHeight
    ensures inside && w.innerWidth != 0 ==> r.right <= w.innerWidth
    ensures inside && w.innerWidth == 0 ==> r.right <= w.clientWidth
  {
    r.top >= 0 && r.left >= 0
    && r.bottom <= OrElse(w.innerHeight, w.clientHeight)
    && r.right <= OrElse(w.innerWidth, w.clientWidth)
  }
}
