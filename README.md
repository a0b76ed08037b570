# Explore Wonders page behaviour, modelled in Dafny

The page script of the Explore Wonders tour site (`script.js`) wires DOM
events to a handful of small state machines. This project models those state
machines over an abstract page, one module per component, and proves what
each of them promises:

- `Carousel`: the testimonial slider. A current index over N slides and N
  pagination dots, each with an `active` flag; `showSlide`, `resetInterval`,
  the dot click and the autoplay tick. The browser's live intervals are a set
  of handles, and a timer firing is an explicit `Tick` event.
- `Counter`: the "why us" counters. The 15 ms `setTimeout` recursion is a
  `while` loop, one iteration per tick; a per-element `animated` flag makes
  the animation run once.
- `Filter`: the tour filter buttons (one `active`) and the cards' `hidden`
  flags.
- `Theme`: the start-up theme choice, `setTheme` and the switch.
- `Faq`: the accordion questions' `aria-expanded` and answer heights.
- `Nav`: the mobile menu toggle and close-on-link.
- `Scroll`: the two scroll thresholds.
- `Modal`: the tour dialog, its field formatting, the three ways to close
  it and the 400 ms hide timer.
- `Flags` (rows of on/off class flags and the "exactly one on" discipline),
  `Page` (the body scroll lock that the menu and the dialog share) and
  `Wrappers` (`Option`) are shared helpers.

Browser services are inputs: the saved theme, the colour-scheme preference,
the scroll offset, an answer's natural height, the element a click landed on
and the key pressed are parameters. Timers are events, not wall-clock time.

Behaviour of `script.js` worth knowing, all of it modelled as written:

- The filter handler removes `active` from the first active button only
  (`querySelector`). "Exactly one active" is kept only when it held before.
  With no active button the lookup is `null` and the handler throws before
  changing anything.
- While it climbs, the counter never passes its target: each step is clamped
  with `min`.
- With more than one slide, `initTestimonialSlider` never un-hides the
  pagination; it only leaves it as it was.
- With one slide or none, `resetInterval` clears the interval but leaves
  the stale handle in `state.testimonialInterval`.

## Model

| member | source | states |
|---|---|---|
| `Carousel.JsRem` | script.js:229 | JavaScript's `%` with a positive divisor: in `[0, b)` for a non-negative dividend, in `(-b, 0]` for a negative one |
| `Carousel.JsRemOdd` | script.js:229 | the JavaScript remainder is odd in the dividend (truncation), unlike Dafny's Euclidean `%` |
| `Carousel.SlideIndex` | script.js:229 | the new index `(n + N) % N` lies strictly between `-N` and `N` for every integer `n` |
| `Carousel.SlideIndexInRange` | script.js:229 | for `n >= -N`, `(n + N) % N` is in `[0, N)` and equals the mathematical residue of `n` |
| `Carousel.SlideIndexNegative` | script.js:226-231 | below `-N`, and off multiples of N, the index is negative, so `slides[...]` would be undefined |
| `Carousel.DotIndexKept` | script.js:214 | a dot click's index `i < N` is kept unchanged by the normalisation |
| `Carousel.TickIndexWraps` | script.js:238 | the tick's `current + 1` advances by one and wraps to 0 after the last slide |
| `Carousel.Slider.AtMostOneLive` | script.js:234-239 | under the slider invariant at most one autoplay interval is live |
| `Carousel.Slider.constructor` | script.js:35-38 | the initial state: index 0, no interval handle, no dots |
| `Carousel.Slider.ShowSlide` | script.js:221-233 | no slides or no dots: nothing changes; otherwise the old slide and dot lose `active`, the index becomes `(n + N) % N`, the new slide and dot gain `active`, nothing else changes, and exactly one slide and one dot are active, at the index |
| `Carousel.Slider.ResetInterval` | script.js:234-240 | the stored interval is cleared first, and a new one is added to the live intervals and stored only when N > 1; because of the clear, afterwards exactly the new interval is live (none when N ≤ 1) |
| `Carousel.Slider.Init` | script.js:201-220 | N ≤ 1: a single slide is marked active, the pagination is hidden, no timer is live, and the stored handle and handle counter are kept; N > 1: N dots, slide and dot 0 active, one live interval stored under the next handle, and the counter advanced by one |
| `Carousel.Slider.DotClick` | script.js:214 | dot `i` moves `active` from the old slide and dot to slide and dot `i`, the only active ones; the autoplay restarts with one fresh live interval; the pagination flag is unchanged |
| `Carousel.Slider.Tick` | script.js:238 | a live interval firing moves `active` to the next slide and dot, wrapping to 0 (nothing changes while there are no dots); the timers and the pagination flag are unchanged |
| `Counter.Increment` | script.js:312 | the step is `ceil(target / 100)`: `100 * (step - 1) < target <= 100 * step` |
| `Counter.Step` | script.js:315 | one tick writes `min(current + step, target)`: never above the target, either the target or a full step, and above `current` when `0 <= current < target` |
| `Counter.Climb` | script.js:310-316 | the values the ticks write; empty exactly when the display is already at or above the target |
| `Counter.Frames` | script.js:308-318 | everything written to the text: it starts at 0 and ends at the target |
| `Counter.IncrementPositive` | script.js:312-316 | a positive target gives a step between 1 and the target, so each tick makes progress |
| `Counter.ClimbBounded` | script.js:314-315 | every value written while climbing is above the start and never exceeds the target |
| `Counter.ClimbEndsAtTarget` | script.js:314-319 | from below the target the climb is non-empty and its last value is exactly the target |
| `Counter.ClimbSteps` | script.js:311-316 | the climb rises strictly, by at most the step, by exactly the step on every tick but the last, and starts at `min(current + step, target)` |
| `Counter.ClimbLength` | script.js:310-320 | after `k` ticks, `k - 1` full steps are still short of the distance to the target |
| `Counter.AtMostHundredTicks` | script.js:312-316 | from 0 the climb takes at most 100 ticks, whatever the target |
| `Counter.Run` | script.js:307-321 | the values written are `0`, the climb, then the target; the first is 0, the last is the target, none exceeds the larger of 0 and the target, and for a positive target the climb itself ends at the target |
| `Counter.CounterElement.Animate` | script.js:304-321 | an already animated counter is left untouched; otherwise it is marked animated and shows its target |
| `Counter.AnimateCounters` | script.js:301-323 | every counter ends up marked; those not marked before show their target, the others are unchanged, even when listed twice |
| `Flags.Count` | script.js:174-175 | how many buttons are active, at most their number |
| `Flags.FirstOn` | script.js:174 | the first active button in document order, or none exactly when no button is active |
| `Flags.Move` | script.js:174-175 | `active` removed at one position and added at another, every other flag unchanged |
| `Flags.MoveKeepsExactlyOne` | script.js:226-232 | if at most the old position was active, exactly the new one is active after the move |
| `Flags.ExactlyAtCount` | script.js:174-175 | "only the flag at k is on" implies that exactly one flag is on |
| `Flags.CountOneExactlyAt` | script.js:174-175 | exactly one flag on implies that it is the first one on and the only one |
| `Filter.Hidden` | script.js:180 | the definition of a card's `hidden` condition: the filter is not `all` and differs from the card's category. Its properties are stated by `Filter.ShownUnderOneFilter` and `Filter.TourFilters.Click` |
| `Filter.ShownUnderOneFilter` | script.js:180 | under two different filters other than `all`, no card shows under both |
| `Filter.TourFilters.HideCards` | script.js:178-181 | every card's `hidden` is set from the filter and its own category |
| `Filter.TourFilters.Click` | script.js:170-182 | a click off the buttons, or with no active button, changes nothing; otherwise the first active button loses `active`, the clicked one gains it, every card is hidden iff the filter excludes it, a card is shown exactly when the filter is `all` or its category (so under `all` none is hidden), and exactly one active before means exactly the clicked one after |
| `Theme.InitialTheme` | script.js:88 | the start-up theme is never empty and is the saved value or `light` or `dark`; a non-empty saved value is kept |
| `Theme.SavedThemeWins` | script.js:88 | a non-empty saved value decides the start-up theme whatever the system preference |
| `Theme.PreferenceDecidesUnsaved` | script.js:88 | with nothing usable saved, the system preference decides: `dark` when it prefers dark, `light` otherwise |
| `Theme.InitialThemeKnown` | script.js:88 | without a usable saved value, or with a saved `light`/`dark`, the start-up theme is `light` or `dark` |
| `Theme.Toggled` | script.js:90 | a click asks for `dark` exactly when the current theme is `light`, otherwise `light` |
| `Theme.ToggleTwice` | script.js:90 | two clicks restore `light`; from any other value they lead to `dark` |
| `Theme.ThemeSwitch.SetTheme` | script.js:92-96 | the attribute and the stored value become the theme; `aria-checked` is true exactly for `dark` |
| `Theme.ThemeSwitch.Init` | script.js:87-89 | the start-up choice is applied and persisted, and the stored value is non-empty; a usable saved value is kept |
| `Theme.ThemeSwitch.Click` | script.js:90 | the theme flips `light` to `dark` and anything else to `light`, and the stored value follows and is `light` or `dark` |
| `Theme.Reload` | script.js:87-95 | a new page over the same storage shows the start-up choice for the stored value; when that is non-empty it is exactly the theme the previous page showed, whatever the system preference |
| `Theme.ClickThenReload` | script.js:90-95 | after a click, a reload shows the theme the click chose: the preference is saved |
| `Nav.MobileNav.ToggleClick` | script.js:101-108 | `nav-open` flips; `aria-expanded` and the icon follow it; the body is scroll-locked exactly while open |
| `Nav.MobileNav.LinksClick` | script.js:111-115 | a link click while open closes the menu and unlocks the body; any other click changes nothing |
| `Nav.ToggleTwice` | script.js:101-108 | two toggle clicks bring the menu back to where it was |
| `Scroll.NavScrolled` | script.js:121 | the definition of the bar's `nav-scrolled` condition: an offset past 50 px. Its properties are stated by `Scroll.ThresholdsMonotone` and `Scroll.BackToTopVisible` |
| `Scroll.BackToTopVisible` | script.js:122 | the button shows past 300 px, and never on an unstyled bar: whenever it shows, the bar is styled too |
| `Scroll.ThresholdsMonotone` | script.js:121-122 | scrolling further down never removes either class |
| `Scroll.ScrollEffects.OnScroll` | script.js:120-123 | `nav-scrolled` iff offset > 50, back-to-top `visible` iff offset > 300 |
| `Faq.Accordion.Click` | script.js:188-197 | a click outside a question changes nothing; a question flips its `aria-expanded`, its answer gets height 0 when collapsing and its natural height when expanding, and no other question or answer changes |
| `Faq.ClickTwice` | script.js:192-196 | two clicks restore the question's state; its answer ends at 0 or at its natural height according to that state, which restores the height when it matched; no other answer changes |
| `Faq.OpenTwo` | script.js:188-197 | opening question A then question B leaves both open |
| `Modal.PriceLine` | script.js:138 | the price line is location, ` · `, price; given the location's length both parts can be read back from it |
| `Modal.AltText` | script.js:136 | the image text is `Photo of ` followed by the title, which can be read back |
| `Modal.PriceLineInjective` | script.js:138 | for one location, equal price lines mean equal prices |
| `Modal.DesertSafariExample` | script.js:136-138 | `Dubai` at `$199` reads `Dubai · $199`; the image text is `Photo of Desert Safari` |
| `Modal.TourModal.Open` | script.js:131-144 | the fields come from the card, the overlay is un-hidden and marked `is-open`, and the body is locked |
| `Modal.TourModal.Close` | script.js:146-154 | `is-open` goes, the body is unlocked and one hide is scheduled; the overlay stays visible until it fires |
| `Modal.TourModal.HideTimerFires` | script.js:151-153 | a scheduled hide hides the overlay whether or not it has been reopened |
| `Modal.TourModal.GridClick` | script.js:156-159 | a click inside a card fills every field from it, shows the overlay, marks it open and locks the body; elsewhere nothing changes |
| `Modal.TourModal.OverlayClick` | script.js:161 | a click on the backdrop itself removes `is-open`, unlocks the body and schedules one hide, keeping the fields and `hidden`; a click on the dialog changes nothing |
| `Modal.TourModal.KeyDown` | script.js:164 | `Escape` while open removes `is-open`, unlocks the body and schedules one hide, keeping the fields and `hidden`; any other key, or Escape while closed, changes nothing |
| `Modal.ReopenBeforeHide` | script.js:141-153 | reopening within the 400 ms leaves an overlay marked open but hidden, with the body still scroll-locked, because nothing cancels the earlier hide |

## Left out

- The parallax header (script.js:56-84): floating-point rotation driven by mouse position, written out as CSS strings.
- The intersection observers (script.js:264-298): asynchronous browser callbacks in an unspecified order. `animateCounters` is modelled as called directly.
- The contact form handler (script.js:243-261): a simulated send made only of timer-sequenced text and label changes.
- Wall-clock timers: the 6000 ms autoplay period, the 400 ms hide, the 15 ms counter tick. They are events (`Tick`, `HideTimerFires`, loop iterations), and their relative order is not modelled.
- `localStorage`, `matchMedia`, `scrollTo` and DOM queries are foreign calls. Their results are parameters or fields. The back-to-top click, which only calls `scrollTo`, is not modelled.
- `toLocaleString` digit grouping: the final counter text is the integer target.
- Icon class names beyond the two menu glyphs, `innerHTML` resets, dot creation and the dots' `aria-label`s are cosmetic. Dots are a row of N flags.
- Non-numeric or fractional `data-target` values and fractional scroll offsets: targets and offsets are integers.
- Missing `data-*` attributes (`undefined`) are not modelled: filters, categories and card fields are strings.
- Carousel.Slider.ShowSlide: when the dots exist, the precondition excludes an index that JavaScript's `%` leaves negative (below `-N` and off multiples of N). There the source clears the old flags, stores the negative index in `state.currentSlide`, and then throws; every later `showSlide` would then throw when it clears the flags at that index. No caller passes such an index (`Carousel.SlideIndexInRange`, `Carousel.DotIndexKept`, `Carousel.TickIndexWraps`).
- The carousel invariant (at most one active slide, at `currentSlide`) assumes the page markup marks no slide active except possibly the first. `initTestimonialSlider` only clears `active` at `currentSlide`, so a slide marked active elsewhere in the markup would stay active; the model starts from a page with no slide active.
- Filter.TourFilters.Click: clicks on non-button elements are a single `Elsewhere` case; the selector match itself is not modelled.
