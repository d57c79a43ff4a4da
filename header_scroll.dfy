/**
 * HeaderScroll: the header is either `header--scrolled` or
 * `header--transparent`, chosen from the scroll position on every scroll.
 */
module HeaderScroll {
  import opened Config

  /** Whether the header counts as scrolled at this scroll position. */
  predicate IsScrolled(scrollTop: int) {
    scrollTop > CONFIG.headerScrollThreshold
  }

  /** The header element's two markers. */
  class Header {
    var scrolled: bool
    var transparent: bool

    constructor (scrolled: bool, transparent: bool)
      ensures this.scrolled == scrolled && this.transparent == transparent
    {
      this.scrolled := scrolled;
      this.transparent := transparent;
    }

    /** `checkScroll`: one marker removed and the other added, so afterwards
        the header carries exactly one of the two, whatever it had before. */
    method CheckScroll(scrollTop: int)
      modifies this
      ensures scrolled <==> scrollTop > 100
      ensures scrolled != transparent
    {
      if IsScrolled(scrollTop) {
        transparent := false;
        scrolled := true;
      } else {
        scrolled := false;
        transparent := true;
      }
    }
  }
}
