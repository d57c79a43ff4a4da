/**
 * The page script's shared configuration record and the other literal
 * thresholds its components compare against.
 */
module Config {

  /** The `CONFIG` record, created once at start-up and never changed. */
  datatype Settings = Settings(
    headerScrollThreshold: int,
    animationOffset: int,
    smoothScrollDuration: nat,
    sliderAutoplayTimeout: nat)

  const CONFIG := Settings(100, 100, 800, 5000)

  /** Scroll position past which the back-to-top button is shown. */
  const BackToTopThreshold := 300

  /** Widest viewport, in pixels, still treated as mobile by the menu. */
  const DesktopBreakpoint := 991

  /** Header height assumed by smooth scrolling when none can be measured. */
  const DefaultHeaderHeight := 80
}
