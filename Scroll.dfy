/**
 * The scroll reactions (`initScrollEffects`): the navigation bar's
 * `nav-scrolled` class and the back-to-top button's `visible` class follow
 * the vertical scroll offset, which is a parameter.
 */
module Scroll {

  /** Offset in pixels past which the navigation bar is styled as scrolled. */
  const NAV_THRESHOLD := 50
  /** Offset in pixels past which the back-to-top button shows. */
  const BACK_TO_TOP_THRESHOLD := 300

  /** `nav-scrolled` for an offset. */
  predicate NavScrolled(scrollY: int)
  {
    scrollY > NAV_THRESHOLD
  }

  /**
   * The back-to-top button's `visible` for an offset. The second threshold
   * lies past the first, so the button never shows on an unstyled bar.
   */
  predicate BackToTopVisible(scrollY: int)
    ensures BackToTopVisible(scrollY) ==> NavScrolled(scrollY)
  {
    scrollY > BACK_TO_TOP_THRESHOLD
  }

  /** Scrolling further down never removes either class. */
  lemma ThresholdsMonotone(y1: int, y2: int)
    requires y1 <= y2
    ensures NavScrolled(y1) ==> NavScrolled(y2)
    ensures BackToTopVisible(y1) ==> BackToTopVisible(y2)
  {
  }

  class ScrollEffects {
    /** `nav-scrolled` on `#main-nav`. */
    var navScrolled: bool
    /** `visible` on `#back-to-top`. */
    var backToTopVisible: bool

    constructor ()
      ensures !navScrolled && !backToTopVisible
    {
      navScrolled := false;
      backToTopVisible := false;
    }

    /** The `scroll` listener: both classes are set from the offset alone. */
    method OnScroll(scrollY: int)
      modifies this
      ensures navScrolled == NavScrolled(scrollY)
      ensures backToTopVisible == BackToTopVisible(scrollY)
      ensures backToTopVisible ==> navScrolled
    {
      navScrolled := scrollY > NAV_THRESHOLD;
      backToTopVisible := scrollY > BACK_TO_TOP_THRESHOLD;
    }
  }
}
