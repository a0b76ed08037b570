/** Page-wide state that more than one component writes. */
module Page {

  /**
   * `document.body`: its inline `overflow` style is `'hidden'` while the
   * mobile menu or the tour modal locks scrolling and `''` otherwise.
   */
  class Body {
    /** `document.body.style.overflow == 'hidden'`. */
    var scrollLocked: bool

    constructor ()
      ensures !scrollLocked
    {
      scrollLocked := false;
    }
  }
}
