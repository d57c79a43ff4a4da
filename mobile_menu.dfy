/**
 * MobileMenu: the toggle button, the navigation panel and the page body each
 * carry one marker (`active`, `active`, `menu-open`); a click on the button
 * flips all three, and several other events clear them.
 */
module MobileMenu {
  import opened Config

  /** The three markers, in the order toggle button, panel, body. */
  datatype Markers = Markers(toggleActive: bool, navActive: bool, bodyMenuOpen: bool)

  /** What the menu listens to. A click anywhere is one `DocumentClick`
      unless it lands on the toggle button or on a link of the panel. */
  datatype Event =
    | ToggleClick
    | NavLinkClick
    | Resize(width: int)
    | DocumentClick(insideMenu: bool)

  /** All three markers cleared. */
  const Closed := Markers(false, false, false)

  /** `toggleMenu`: each marker flipped. */
  function Toggled(m: Markers): (r: Markers)
    ensures r.toggleActive != m.toggleActive && r.navActive != m.navActive && r.bodyMenuOpen != m.bodyMenuOpen
  {
    Markers(!m.toggleActive, !m.navActive, !m.bodyMenuOpen)
  }

  /** Toggling is its own inverse. */
  lemma ToggleInvolution(m: Markers)
    ensures Toggled(Toggled(m)) == m
  {
  }

  /** The three markers say the same thing: the menu is either open or closed. */
  predicate Agree(m: Markers) {
    m.toggleActive == m.navActive && m.navActive == m.bodyMenuOpen
  }

  /** The effect of one event. A button click also bubbles to the document,
      but there it started inside the menu, so it closes nothing; likewise a
      link click, which closes the menu through its own listener. */
  function Step(m: Markers, e: Event): (r: Markers)
    ensures e != ToggleClick ==> r == m || r == Closed
    ensures e == ToggleClick ==> r == Toggled(m)
    ensures e.Resize? && e.width > DesktopBreakpoint ==> r == Closed
    ensures e == NavLinkClick || e == DocumentClick(false) ==> r == Closed
    ensures e.Resize? && e.width <= DesktopBreakpoint ==> r == m
    ensures e == DocumentClick(true) ==> r == m
  {
    match e
    case ToggleClick => Toggled(m)
    case NavLinkClick => Closed
    case Resize(width) => if width > DesktopBreakpoint then Closed else m
    case DocumentClick(inside) => if inside then m else Closed
  }

  /** The markers after a sequence of events. */
  function Run(m: Markers, es: seq<Event>): Markers
    decreases |es|
  {
    if es == [] then m else Run(Step(m, es[0]), es[1..])
  }

  /** Starting from agreeing markers, no sequence of events makes them disagree. */
  lemma {:induction false} RunKeepsAgreement(m: Markers, es: seq<Event>)
    requires Agree(m)
    ensures Agree(Run(m, es))
    decreases |es|
  {
    if es != [] {
      RunKeepsAgreement(Step(m, es[0]), es[1..]);
    }
  }

  /** Without a click on the toggle button the menu can only stay as it is or
      close: nothing else opens it. */
  lemma {:induction false} RunWithoutToggle(m: Markers, es: seq<Event>)
    requires forall k :: 0 <= k < |es| ==> es[k] != ToggleClick
    ensures Run(m, es) == m || Run(m, es) == Closed
    decreases |es|
  {
    if es != [] {
      var n := Step(m, es[0]);
      RunWithoutToggle(n, es[1..]);
      if n == Closed {
        ClosedStaysClosed(es[1..]);
      }
    }
  }

  /** A closed menu stays closed under any events other than the toggle click. */
  lemma {:induction false} ClosedStaysClosed(es: seq<Event>)
    requires forall k :: 0 <= k < |es| ==> es[k] != ToggleClick
    ensures Run(Closed, es) == Closed
    decreases |es|
  {
    if es != [] {
      ClosedStaysClosed(es[1..]);
    }
  }

  /** The element handles the menu holds, as their marker state. */
  class Menu {
    var toggleActive: bool
    var navActive: bool
    var bodyMenuOpen: bool

    function State(): Markers
      reads this
    {
      Markers(toggleActive, navActive, bodyMenuOpen)
    }

    constructor (initial: Markers)
      ensures State() == initial
    {
      toggleActive := initial.toggleActive;
      navActive := initial.navActive;
      bodyMenuOpen := initial.bodyMenuOpen;
    }

    /** `toggleMenu`: `toggleClass` on each of the three elements. */
    method ToggleMenu()
      modifies this
      ensures State() == Toggled(old(State()))
    {
      toggleActive := !toggleActive;
      navActive := !navActive;
      bodyMenuOpen := !bodyMenuOpen;
    }

    /** `closeMenu`: `removeClass` on each of the three elements. */
    method CloseMenu()
      modifies this
      ensures State() == Closed
    {
      toggleActive := false;
      navActive := false;
      bodyMenuOpen := false;
    }

    /** The listeners bound by `bindEvents`, dispatched on one event. */
    method Handle(e: Event)
      modifies this
      ensures State() == Step(old(State()), e)
    {
      match e
      case ToggleClick =>
        ToggleMenu();
      case NavLinkClick =>
        CloseMenu();
      case Resize(width) =>
        if width > DesktopBreakpoint {
          CloseMenu();
        }
      case DocumentClick(inside) =>
        if !inside {
          CloseMenu();
        }
    }
  }

  /** Two clicks on the toggle button bring the menu back to where it was. */
  method ToggleTwiceRestores(menu: Menu)
    modifies menu
    ensures menu.State() == old(menu.State())
  {
    menu.ToggleMenu();
    menu.ToggleMenu();
  }

  /** Closing twice is closing once. */
  method CloseIdempotent(menu: Menu)
    modifies menu
    ensures menu.State() == Closed
  {
    menu.CloseMenu();
    menu.CloseMenu();
  }
}
