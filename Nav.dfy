/**
 * The mobile navigation menu (`initMobileNav`): the `nav-open` class on the
 * link list, the toggle's `aria-expanded` and icon, and the body scroll lock.
 */
module Nav {
  import opened Page

  class MobileNav {
    const body: Body
    /** `nav-open` on `#nav-links`. */
    var open: bool
    /** `aria-expanded` on the toggle button. */
    var ariaExpanded: bool
    /** The icon's `fa-bars` class (the "open menu" glyph). */
    var iconBars: bool
    /** The icon's `fa-xmark` class (the "close menu" glyph). */
    var iconXmark: bool

    /** Attribute and icon agree with the menu: expanded and a cross while open, bars while closed. */
    ghost predicate Valid()
      reads this
    {
      ariaExpanded == open && iconBars == !open && iconXmark == open
    }

    /** A closed menu, as the page is loaded. */
    constructor (body: Body)
      ensures this.body == body && Valid() && !open
    {
      this.body := body;
      open := false;
      ariaExpanded := false;
      iconBars := true;
      iconXmark := false;
    }

    /**
     * A click on the toggle: `nav-open` flips, the attribute and icon follow
     * it, and the body is scroll-locked exactly while the menu is open.
     */
    method ToggleClick()
      modifies this, body
      ensures Valid()
      ensures open == !old(open)
      ensures body.scrollLocked == open
    {
      open := !open;
      ariaExpanded := open;
      iconBars := !open;
      iconXmark := open;
      body.scrollLocked := open;
    }

    /**
     * A click inside the link list: on a link (`<a>`) while the menu is
     * open it goes through the toggle, which closes the menu and unlocks the
     * body; any other click changes nothing.
     */
    method LinksClick(onLink: bool)
      requires Valid()
      modifies this, body
      ensures Valid()
      ensures !(onLink && old(open)) ==> open == old(open) && body.scrollLocked == old(body.scrollLocked)
      ensures onLink ==> !open
      ensures onLink && old(open) ==> !body.scrollLocked
    {
      if onLink && open {
        ToggleClick();
      }
    }
  }

  /** Two clicks on the toggle bring the menu back to where it was. */
  method ToggleTwice(nav: MobileNav)
    requires nav.Valid()
    modifies nav, nav.body
    ensures nav.Valid() && nav.open == old(nav.open)
    ensures nav.body.scrollLocked == nav.open
  {
    nav.ToggleClick();
    nav.ToggleClick();
  }
}
