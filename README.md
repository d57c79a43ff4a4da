# Hospital site page script, modelled in Dafny

This project models the behaviour layer of a static hospital website
(`js/main.js`). The script wires browser events to small UI effects:
- a mobile menu;
- a sticky header;
- scroll-triggered fade-in animations;
- a back-to-top button;
- lazily loaded images;
- statistics counters;
- smooth in-page scrolling;
- a submit-time check of contact-form fields.

The model keeps the parts of these effects that are logic rather than
library calls: the marker classes each component adds and removes, the
thresholds it compares against, and the two regular expressions of the form
check.

Layout, one module per file:

- `config.dfy` (`Config`): the `CONFIG` record (header threshold 100,
  animation offset 100, scroll duration 800, autoplay 5000), plus the other
  literals: back-to-top threshold 300, desktop breakpoint 991, default
  header height 80.
- `wrappers.dfy` (`Wrappers`): `Option`.
- `text.dfy` (`Text`): the white-space class of the script engine
  (`\s`, which is also what `trim` removes), trimming, and the length of a
  run of characters of one class.
- `patterns.dfy` (`Patterns`): the email pattern `^[^\s@]+@[^\s@]+\.[^\s@]+$`
  and the Korean phone pattern `^[0-9]{2,3}-?[0-9]{3,4}-?[0-9]{4}$`. Each is
  written twice: once as what the expression means (some way of cutting the
  string into the pieces the expression names), and once as a hand-written
  recogniser that scans runs of characters. The two are proved equal.
- `form_validation.dfy` (`FormValidation`): the form is an array of field
  records `(required, kind, value, invalid)`. `ValidateForm` updates it in
  place, and is proved against the functions `Validated` and `FormPasses`.
- `utils.dfy` (`Utils`): `isInViewport` over integer rectangles and window
  sizes. `x || fallback` is modelled with zero as the falsy value.
- `mobile_menu.dfy` (`MobileMenu`): the three markers. The class `Menu`
  holds them, a function `Step` gives the effect of each event, and lemmas
  cover runs of events.
- `header_scroll.dfy` (`HeaderScroll`): the class `Header` with its two
  exclusive markers.
- `scroll_animations.dfy` (`ScrollAnimations`): the class `AnimatedElements`,
  with one `visible` marker per element in an array.
- `back_to_top.dfy` (`BackToTop`): the class `Button`.
- `lazy_load.dfy` (`LazyLoad`): image records in an array, with the
  fallback pass and the native path.
- `counter_animation.dfy` (`CounterAnimation`): the class `Counters`,
  holding the `counted` markers.
- `smooth_scroll.dfy` (`SmoothScroll`): the scroll offset formula.

Element geometry is a parameter of each operation, never something the
model measures. This covers document offsets, outer heights, bounding
rectangles, the scroll position, window sizes and the header height. A
component that the script runs again on many events is modelled as one
pass. Lemmas then relate any sequence of passes to the starting state.

The scroll-animation test is strict: an element counts as in view when
`elementTop + 100 < windowBottom` and its bottom edge is below the window's
top. So an element at offset 1000, 50 pixels high, needs a window bottom
beyond 1100 and a window top above 1050 (`ScrollAnimations.InViewExample`).

## Model

| member | source | states |
|---|---|---|
| `Text.IsSpace` | js/main.js:479 | the class `\s` of the email expression, which is also what `trim()` at line 468 removes: space, tab, newline and carriage return are in it, and no visible ASCII character is |
| `Text.PrefixLen` | js/main.js:479 | the run matched by a `[...]+` piece: every character in it has the class, and the character after it does not |
| `Text.TrimStart` | js/main.js:468 | what is dropped from the front is all white space, and the result does not start with white space |
| `Text.TrimStartIsSuffix` | js/main.js:468 | trimming the front keeps a suffix of the value |
| `Text.TrimEnd` | js/main.js:468 | a prefix of the value is kept, what is dropped is all white space, and the result does not end with white space |
| `Text.Trim` | js/main.js:468 | `trim()` gives a value no longer than the input that neither starts nor ends with white space |
| `Text.TrimIsPiece` | js/main.js:468 | the trimmed value is a contiguous piece of the input, flanked only by white space |
| `Text.TrimEmptyIffAllSpace` | js/main.js:468-470 | the trimmed value is empty exactly when the input is white space only, so such a value counts as empty |
| `Text.TrimIdempotent` | js/main.js:468 | trimming twice is trimming once |
| `Patterns.IsEmail` | js/main.js:479-480 | the email recogniser: an accepted address has at least five characters, does not start with '@' and contains one |
| `Patterns.EmailSound` | js/main.js:479-480 | every string the email recogniser accepts matches `^[^\s@]+@[^\s@]+\.[^\s@]+$` |
| `Patterns.EmailComplete` | js/main.js:479-480 | every string that expression matches, however it is cut at its '.', is accepted by the recogniser |
| `Patterns.EmailMatchesPattern` | js/main.js:479-480 | the recogniser accepts exactly the strings `^[^\s@]+@[^\s@]+\.[^\s@]+$` matches: a non-empty local part, '@', and a domain without white space or '@' that has a '.' with a character on each side |
| `Patterns.EmailHasOneAt` | js/main.js:479 | an accepted address has no white space and exactly one '@' |
| `Patterns.EmailExamples` | js/main.js:479-480 | "a@b" is refused and "a@b.com" accepted |
| `Patterns.IsPhone` | js/main.js:488-489 | the phone recogniser: every accepted number is 9 to 13 characters long |
| `Patterns.PhoneSound` | js/main.js:488-489 | everything the phone recogniser accepts is 2-3 digits, optional '-', 3-4 digits, optional '-', 4 digits |
| `Patterns.PhoneComplete` | js/main.js:488-489 | every string of that shape is accepted, whichever way its digit groups are cut |
| `Patterns.PhoneMatchesPattern` | js/main.js:488-489 | the phone recogniser accepts exactly what `^[0-9]{2,3}-?[0-9]{3,4}-?[0-9]{4}$` matches |
| `Patterns.PhoneDigitEnds` | js/main.js:488 | an accepted phone number starts and ends with a digit |
| `Patterns.PhoneAcceptsMobile` | js/main.js:488-489 | "010-1234-5678" is accepted |
| `Patterns.PhoneRejectsShort` | js/main.js:488-489 | "12345" is refused |
| `FormValidation.Passes` | js/main.js:468-493 | the per-field verdict of `validateForm`: a passing field is never white space only |
| `FormValidation.Validated` | js/main.js:466-494 | after a pass each required field carries `is-invalid` exactly when its trimmed value is empty or, for email and tel fields, fails the pattern; other fields, and every value, are unchanged |
| `FormValidation.ValidateForm` | js/main.js:463-497 | returns true exactly when every required field passes, and leaves the form as `Validated` describes |
| `FormValidation.CheckField` | js/main.js:467-493 | one required field: the verdict is "passes", and the marker ends up set exactly when it does not |
| `FormValidation.OnSubmit` | js/main.js:452-460 | submission is blocked exactly when the form does not pass |
| `FormValidation.BlankRequiredFieldFails` | js/main.js:468-472 | a required field holding only white space fails and is marked, whatever its type |
| `FormValidation.ValidatedIdempotent` | js/main.js:463-497 | validating again changes no marker and gives the same verdict |
| `FormValidation.PassesIffPattern` | js/main.js:466-493 | a required field passes exactly when its trimmed value matches the expression of its type (email, tel) or, for any other type, is non-empty |
| `FormValidation.EmailFieldPasses` | js/main.js:477-484 | an email field whose value the email expression accepts passes: there is nothing to trim |
| `FormValidation.TelFieldPasses` | js/main.js:486-493 | a tel field whose value the phone expression accepts passes: there is nothing to trim |
| `MobileMenu.Toggled` | js/main.js:70-74 | `toggleMenu` flips each of the three markers |
| `MobileMenu.ToggleInvolution` | js/main.js:70-74 | toggling twice restores the markers |
| `MobileMenu.Step` | js/main.js:41-68 | the toggle click flips the markers; a link click, a click outside the toggle and panel, or a resize wider than 991 closes the menu; a resize to 991 or less and a click inside leave the markers as they are |
| `MobileMenu.RunKeepsAgreement` | js/main.js:70-80 | if the three markers agree, they agree after any sequence of events |
| `MobileMenu.RunWithoutToggle` | js/main.js:41-68 | without a toggle click the menu only stays as it is or closes |
| `MobileMenu.ClosedStaysClosed` | js/main.js:50-67 | a closed menu stays closed until the toggle is clicked |
| `MobileMenu.Menu.ToggleMenu` | js/main.js:70-74 | the three markers after the call are the old ones flipped |
| `MobileMenu.Menu.CloseMenu` | js/main.js:76-80 | all three markers are cleared |
| `MobileMenu.Menu.Handle` | js/main.js:41-68 | the listeners change the markers as `Step` says |
| `MobileMenu.ToggleTwiceRestores` | js/main.js:70-74 | two clicks on the toggle leave the menu object as it was |
| `MobileMenu.CloseIdempotent` | js/main.js:76-80 | closing twice leaves all markers cleared, as closing once does |
| `HeaderScroll.Header.CheckScroll` | js/main.js:267-275 | afterwards the header has exactly one of `header--scrolled` / `header--transparent`, and it is `header--scrolled` exactly when the scroll position exceeds 100 |
| `ScrollAnimations.InView` | js/main.js:226-227 | an element is in view exactly when its top lies strictly between the window top less its height and the window bottom less the 100-pixel offset |
| `ScrollAnimations.Marked` | js/main.js:215-236 | a check never removes `visible`, and adds it to an unmarked element exactly when the element is in view (top + 100 below the window bottom, bottom below the window top) |
| `ScrollAnimations.AfterChecksMarks` | js/main.js:215-236 | after any sequence of checks an element is marked exactly when it was marked before or was in view during one of them |
| `ScrollAnimations.InViewExample` | js/main.js:226-227 | an element at 1000, 50 high, is in view exactly when the window bottom is past 1100 and the window top above 1050 |
| `ScrollAnimations.AnimatedElements.CheckVisibility` | js/main.js:215-236 | the markers after the call are `Marked` of the markers before |
| `ScrollAnimations.AnimatedElements.Reset` | js/main.js:239-241 | `visible` is removed from every animated element |
| `BackToTop.Button.CreateButton` | js/main.js:360-375 | a hidden button is added only when there is none, so start-up never makes a second one |
| `BackToTop.Button.OnScroll` | js/main.js:380-393 | the button is shown exactly when the scroll position exceeds 300 |
| `BackToTop.CreateTwice` | js/main.js:360-375 | creating twice on an empty page leaves one hidden button |
| `Utils.IsInViewport` | js/main.js:333-341 | a rectangle is in the viewport only when its top and left are not negative and its bottom and right are within the window's inner size, or within the document's client size when the inner size is 0 |
| `LazyLoad.Loaded` | js/main.js:433-438 | an image out of view, or already promoted, is unchanged; one in view with a `data-src` gets that address as `src` and loses the attribute |
| `LazyLoad.PromotedOnce` | js/main.js:430-443 | over any sequence of passes an image with a `data-src` that was ever in view ends up promoted from its original `data-src`, so its `src` changes at most once; any other image is untouched and keeps its attribute |
| `LazyLoad.LoadImages` | js/main.js:432-439 | the images after a fallback pass are each `Loaded` |
| `LazyLoad.PromoteAllNative` | js/main.js:418-422 | with native support every image with a `data-src` gets that address and `loading="lazy"` at once and keeps the attribute; others are unchanged |
| `LazyLoad.Init` | js/main.js:416-427 | the native path gives every image with a `data-src` that address and `loading="lazy"`, keeps the attribute and leaves other images untouched; the fallback runs one pass |
| `CounterAnimation.StartedAmong` | js/main.js:516-523 | a scroll starts exactly the counters that are in view and not yet `counted`, each once, in page order |
| `CounterAnimation.StartedAtMostOnce` | js/main.js:516-528 | whatever the scrolls, a counter is started at most once, and never if it was already counted |
| `CounterAnimation.Counters.OnScroll` | js/main.js:516-523 | the counters started are `StartedAmong`, and a counter is `counted` afterwards exactly when it was before or is in view |
| `CounterAnimation.Counters.AnimateCounter` | js/main.js:526-527 | starting a counter marks it `counted` |
| `SmoothScroll.HeaderHeight` | js/main.js:170 | the measured header height, or 80 when there is no header or it measures 0; never zero |
| `SmoothScroll.ScrollOffset` | js/main.js:169-171 | the scroll target is the element's offset less the header height, so always above the element |
| `SmoothScroll.ScrollToElement` | js/main.js:179-184 | no scroll when the selector finds nothing, otherwise the offset that puts the element just below the header |
| `SmoothScroll.ScrollOffsetExample` | js/main.js:170-171 | a target at 500 with an 80-pixel header, or no measurable header, is scrolled to 420 |

## Left out

- Utils.IsInViewport: its contract lists the conditions a rectangle in the viewport meets, one direction only; the converse is the definition itself, used as such by `LazyLoad.Loaded` and `CounterAnimation.Starts`.
- The hero carousel (js/main.js:87-144). Its set-up only hands a configuration to an external carousel library. The slide-change fade computes `30 - opacity*30` on floating-point animation steps.
- The scrolling animation itself, for smooth scroll and back-to-top, including the back-to-top click handler that scrolls to 0. This is jQuery's `animate`, driven by timers. Only the target offset is modelled.
- `Utils.debounce` and `Utils.throttle`. They are timers and clock readings. The lemmas about sequences of passes hold for any subsequence of scroll events, so they also cover the throttled lazy-load listener.
- `Utils.getUrlParam`: a thin wrapper over the browser's query-string parser.
- `ScrollAnimations.AnimatedElements.CheckVisibility`: the marker is added at once. The real code adds it after the element's `data-delay` milliseconds (default 0) through `setTimeout`. The pending callback is never cancelled, so the marker always arrives eventually, but the model does not show the delay.
- `CounterAnimation.Counters.AnimateCounter`: only the `counted` marker is modelled. Left out are parsing the target, the duration default of 2000, the floating-point increment `target / (duration / 16)` per 16 ms tick, `Math.floor`, locale-grouped display, and stopping the interval.
- The lazy-load choice of strategy (`'loading' in HTMLImageElement.prototype`) is an environment check. `LazyLoad.Init` takes its outcome as a boolean. The model does not capture the order in which the native path sets `src` and `loading`.
- Geometry sources: `offset()`, `outerHeight()`, `getBoundingClientRect()`, `scrollTop()`, `$(window).height()/width()`. They are integer parameters. The browser may report fractional pixels.
- The back-to-top button's markup and inline style, the hover translation, event binding, the document-ready sequence, the `page-loaded` body class and the start-up `console.log`.
- The header's commented-out hide-on-scroll code and its unused `lastScrollTop` field.
- Strings are sequences of Unicode scalar values, while the script engine works on UTF-16 code units. The two patterns behave the same on either, since every character they name is in the Basic Multilingual Plane. Lone surrogates cannot be represented.
- `FormValidation`: a field's kind stands for its `type` attribute being exactly `email` or `tel`. A `val()` of `null`, which would make `trim()` throw, is not modelled.
- `LazyLoad.Loaded`: jQuery's `.data('src')` converts attribute text that looks like a number or JSON into a value. The model treats the address as text.
