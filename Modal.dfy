/**
 * The tour details dialog (`initTourModal`, `openModal`, `closeModal`).
 * The 400 ms delay after which a closed dialog gets `hidden` is not
 * wall-clock: scheduled hides are counted and `HideTimerFires` is the
 * event of one of them running.
 */
module Modal {
  import opened Wrappers
  import opened Page

  /** The `data-*` attributes of a `.tour-card`. */
  datatype CardData = CardData(title: string, location: string, price: string, img: string, description: string)

  /** Between location and price: a space, U+00B7 MIDDLE DOT, a space. */
  const SEPARATOR := " \U{00B7} "
  /** Before the title in the image's alternative text. */
  const ALT_PREFIX := "Photo of "

  /** The price line `${location} · ${price}`: location and price can be read back from it. */
  function PriceLine(location: string, price: string): (line: string)
    ensures |line| == |location| + |SEPARATOR| + |price|
    ensures line[..|location|] == location
    ensures line[|location|..|location| + |SEPARATOR|] == SEPARATOR
    ensures line[|location| + |SEPARATOR|..] == price
  {
    location + SEPARATOR + price
  }

  /** The alternative text `Photo of ${title}`: the title can be read back from it. */
  function AltText(title: string): (alt: string)
    ensures |alt| == |ALT_PREFIX| + |title|
    ensures alt[..|ALT_PREFIX|] == ALT_PREFIX && alt[|ALT_PREFIX|..] == title
  {
    ALT_PREFIX + title
  }

  /** Different cards never show the same price line for the same location. */
  lemma PriceLineInjective(location: string, p1: string, p2: string)
    requires PriceLine(location, p1) == PriceLine(location, p2)
    ensures p1 == p2
  {
    assert p1 == PriceLine(location, p1)[|location| + |SEPARATOR|..];
  }

  /** The card `Desert Safari` in `Dubai` at `$199` reads `Dubai · $199`. */
  lemma DesertSafariExample()
    ensures PriceLine("Dubai", "$199") == "Dubai \U{00B7} $199"
    ensures AltText("Desert Safari") == "Photo of Desert Safari"
  {
  }

  class TourModal {
    const body: Body
    /** `src` and `alt` of `#modal-img`. */
    var imgSrc: string
    var imgAlt: string
    /** Text of `#modal-title`, `#modal-price` and `#modal-description`. */
    var title: string
    var priceText: string
    var description: string
    /** The `hidden` property of the overlay. */
    var hidden: bool
    /** The overlay's `is-open` class. */
    var isOpen: bool
    /** 400 ms hide timers scheduled by `closeModal` that have not fired; nothing cancels them. */
    var pendingHides: nat

    /** Once every hide timer has fired, a dialog that is not open is hidden. */
    ghost predicate Valid()
      reads this
    {
      !isOpen && pendingHides == 0 ==> hidden
    }

    /** The overlay as the page is loaded: hidden, not open, empty fields. */
    constructor (body: Body)
      ensures Valid() && this.body == body && hidden && !isOpen && pendingHides == 0
    {
      this.body := body;
      imgSrc, imgAlt, title, priceText, description := "", "", "", "", "";
      hidden := true;
      isOpen := false;
      pendingHides := 0;
    }

    /**
     * `openModal(card)`: the fields are filled from the card, the overlay is
     * shown and marked open, and the body is scroll-locked. Pending hide
     * timers stay pending.
     */
    method Open(card: CardData)
      modifies this, body
      ensures Valid()
      ensures title == card.title && description == card.description && imgSrc == card.img
      ensures priceText == PriceLine(card.location, card.price) && imgAlt == AltText(card.title)
      ensures !hidden && isOpen && body.scrollLocked
      ensures pendingHides == old(pendingHides)
    {
      imgSrc := card.img;
      imgAlt := AltText(card.title);
      title := card.title;
      priceText := PriceLine(card.location, card.price);
      description := card.description;
      hidden := false;
      isOpen := true;
      body.scrollLocked := true;
    }

    /**
     * `closeModal()`, run by the close button and the book button alike:
     * `is-open` goes, the body is unlocked and one more hide is scheduled;
     * the overlay stays visible until that hide fires.
     */
    method Close()
      modifies this, body
      ensures Valid()
      ensures !isOpen && !body.scrollLocked
      ensures pendingHides == old(pendingHides) + 1
      ensures hidden == old(hidden)
      ensures title == old(title) && priceText == old(priceText) && description == old(description)
      ensures imgSrc == old(imgSrc) && imgAlt == old(imgAlt)
    {
      isOpen := false;
      body.scrollLocked := false;
      pendingHides := pendingHides + 1;
    }

    /** One scheduled hide runs: the overlay becomes hidden, whether or not it was opened again since. */
    method HideTimerFires()
      requires Valid()
      requires pendingHides > 0
      modifies this
      ensures Valid()
      ensures hidden && pendingHides == old(pendingHides) - 1 && isOpen == old(isOpen)
      ensures title == old(title) && priceText == old(priceText) && description == old(description)
      ensures imgSrc == old(imgSrc) && imgAlt == old(imgAlt)
    {
      hidden := true;
      pendingHides := pendingHides - 1;
    }

    /** A click in the tour grid: inside a card it opens the dialog for that card, elsewhere nothing changes. */
    method GridClick(card: Option<CardData>)
      requires Valid()
      modifies this, body
      ensures Valid()
      ensures card.Some? ==>
        && title == card.value.title && description == card.value.description && imgSrc == card.value.img
        && priceText == PriceLine(card.value.location, card.value.price) && imgAlt == AltText(card.value.title)
        && !hidden && isOpen && body.scrollLocked && pendingHides == old(pendingHides)
      ensures card.None? ==> unchanged(this) && unchanged(body)
    {
      if card.Some? {
        Open(card.value);
      }
    }

    /**
     * A click on the overlay closes only when it landed on the backdrop
     * itself, not on the dialog; a click on the dialog changes nothing.
     */
    method OverlayClick(onBackdrop: bool)
      requires Valid()
      modifies this, body
      ensures Valid()
      ensures onBackdrop ==>
        && !isOpen && !body.scrollLocked && pendingHides == old(pendingHides) + 1 && hidden == old(hidden)
        && title == old(title) && priceText == old(priceText) && description == old(description)
        && imgSrc == old(imgSrc) && imgAlt == old(imgAlt)
      ensures !onBackdrop ==> unchanged(this) && unchanged(body)
    {
      if onBackdrop {
        Close();
      }
    }

    /** A key press closes the dialog only when it is `Escape` and the dialog is open; otherwise nothing changes. */
    method KeyDown(key: string)
      requires Valid()
      modifies this, body
      ensures Valid()
      ensures key == "Escape" ==> !isOpen
      ensures key == "Escape" && old(isOpen) ==>
        && !body.scrollLocked && pendingHides == old(pendingHides) + 1 && hidden == old(hidden)
        && title == old(title) && priceText == old(priceText) && description == old(description)
        && imgSrc == old(imgSrc) && imgAlt == old(imgAlt)
      ensures !(key == "Escape" && old(isOpen)) ==> unchanged(this) && unchanged(body)
    {
      if key == "Escape" && isOpen {
        Close();
      }
    }
  }

  /**
   * Opening a card again within 400 ms of closing: the earlier hide timer
   * still fires and leaves an overlay marked open but hidden, while the
   * body stays scroll-locked.
   */
  method ReopenBeforeHide(modal: TourModal, first: CardData, second: CardData)
    requires modal.Valid() && modal.pendingHides == 0
    modifies modal, modal.body
    ensures modal.isOpen && modal.hidden && modal.title == second.title
    ensures modal.body.scrollLocked
  {
    modal.Open(first);
    modal.Close();
    modal.Open(second);
    modal.HideTimerFires();
  }
}
