/**
 * BackToTop: a floating button injected once and shown only when the page is
 * scrolled far enough down.
 */
module BackToTop {
  import opened Config

  /** The `.back-to-top` buttons on the page and whether they are shown
      (opacity 1 and visibility visible) or hidden. */
  class Button {
    var buttons: nat
    var shown: bool

    constructor (buttons: nat, shown: bool)
      ensures this.buttons == buttons && this.shown == shown
    {
      this.buttons := buttons;
      this.shown := shown;
    }

    /** `createButton`: a hidden button is appended only when the page has none,
        so repeated start-up never adds a second one. */
    method CreateButton()
      modifies this
      ensures buttons == if old(buttons) == 0 then 1 else old(buttons)
      ensures shown == (old(buttons) != 0 && old(shown))
    {
      if buttons == 0 {
        buttons := 1;
        shown := false;
      }
    }

    /** The scroll listener: shown exactly when the page is scrolled past 300. */
    method OnScroll(scrollTop: int)
      modifies this
      ensures shown <==> scrollTop > 300
      ensures buttons == old(buttons)
    {
      shown := scrollTop > BackToTopThreshold;
    }
  }

  /** Start-up run twice leaves one button, as running it once does. */
  method CreateTwice(b: Button)
    requires b.buttons == 0
    modifies b
    ensures b.buttons == 1 && !b.shown
  {
    b.CreateButton();
    b.CreateButton();
  }
}
