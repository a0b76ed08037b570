/**
 * The testimonial carousel (`initTestimonialSlider`, `showSlide`,
 * `resetInterval`): a current slide index over N slides and N pagination
 * dots, each with an `active` flag, and the handle of one repeating autoplay
 * timer. Timers are not wall-clock: the browser's set of live intervals is a
 * field, and a timer firing is the event `Tick`.
 */
module Carousel {
  import opened Wrappers
  import opened Flags

  /**
   * JavaScript's `%` for a positive divisor: the result takes the sign of the
   * dividend (truncating division), unlike Dafny's Euclidean `%`.
   */
  function JsRem(a: int, b: int): (r: int)
    requires b > 0
    ensures a >= 0 ==> 0 <= r < b
    ensures a < 0 ==> -b < r <= 0
  {
    if a >= 0 then a % b else -((-a) % b)
  }

  /** Truncation makes JavaScript's remainder odd in the dividend; the Euclidean one is not. */
  lemma JsRemOdd(a: int, b: int)
    requires b > 0
    ensures JsRem(-a, b) == -JsRem(a, b)
  {
  }

  /** The index `showSlide(n)` moves to over `count` slides: `(n + count) % count`. */
  function SlideIndex(n: int, count: nat): (index: int)
    requires count > 0
    ensures 0 < index + count && index < count
  {
    JsRem(n + count, count)
  }

  /** For every `n >= -count` the index is in range and is the mathematical residue of `n`. */
  lemma SlideIndexInRange(n: int, count: nat)
    requires count > 0 && n + count >= 0
    ensures 0 <= SlideIndex(n, count) < count
    ensures SlideIndex(n, count) == n % count
  {
    ModShift(n, count);
  }

  /**
   * Below `-count` the JavaScript remainder is negative unless `n` is a
   * multiple of `count`: `slides[...]` would then be `undefined`.
   */
  lemma SlideIndexNegative(n: int, count: nat)
    requires count > 0 && n + count < 0 && n % count != 0
    ensures SlideIndex(n, count) < 0
  {
    var m := -(n + count);
    if m % count == 0 {
      var k := m / count;
      assert m == count * k;
      ModUnique(n, count, -k - 1, 0);
      assert false;
    }
  }

  /** A dot click passes its own index, which is kept as it is. */
  lemma DotIndexKept(i: nat, count: nat)
    requires i < count
    ensures SlideIndex(i, count) == i
  {
    ModUnique(i + count, count, 1, i);
  }

  /** A timer tick passes `current + 1`, which wraps to 0 after the last slide. */
  lemma TickIndexWraps(current: nat, count: nat)
    requires current < count
    ensures SlideIndex(current + 1, count) == if current + 1 == count then 0 else current + 1
  {
    if current + 1 == count {
      ModUnique(current + 1 + count, count, 2, 0);
    } else {
      ModUnique(current + 1 + count, count, 1, current + 1);
    }
  }

  /** Euclidean division is determined by quotient and remainder. */
  lemma ModUnique(x: int, b: int, q: int, r: int)
    requires b > 0 && 0 <= r < b && x == b * q + r
    ensures x / b == q && x % b == r
  {
    var q' := x / b;
    if q' > q {
      MulStep(b, q, q');
      assert false;
    } else if q' < q {
      MulStep(b, q', q);
      assert false;
    }
  }

  /** Adding the divisor does not change the Euclidean remainder. */
  lemma ModShift(x: int, b: int)
    requires b > 0
    ensures (x + b) % b == x % b
  {
    ModUnique(x + b, b, x / b + 1, x % b);
  }

  lemma MulStep(b: int, lo: int, hi: int)
    requires b > 0 && lo < hi
    ensures b * lo + b <= b * hi
  {
    var d := hi - lo;
    assert b * hi == b * lo + b * d;
    MulAtLeast(b, d);
  }

  lemma {:induction false} MulAtLeast(b: int, d: int)
    requires b > 0 && d >= 1
    ensures b * d >= b
    decreases d
  {
    if d > 1 {
      MulAtLeast(b, d - 1);
      assert b * d == b * (d - 1) + b;
    }
  }

  class Slider {
    /** The `active` class on each `.testimonial-slide`; their number is fixed by the page. */
    const slides: array<bool>
    /** The `active` class on each `.dot` button; empty until `Init` creates one per slide. */
    var dots: seq<bool>
    /** `state.currentSlide`. */
    var current: nat
    /** `state.testimonialInterval`: the last handle stored, `null` at first. */
    var interval: Option<nat>
    /** The carousel's intervals that the browser would still fire. */
    var live: set<nat>
    /** The handle the next `setInterval` returns. */
    var nextHandle: nat
    /** The `hidden` property of `#pagination-dots`. */
    var paginationHidden: bool

    /**
     * At most one slide and one dot are active, only ever at `current`;
     * at most one interval is live and it is the stored handle.
     */
    ghost predicate Valid()
      reads this, slides
    {
      (|dots| == 0 || |dots| == slides.Length > 1) &&
      (slides.Length > 0 ==> current < slides.Length) &&
      OnlyAt(slides[..], current) &&
      OnlyAt(dots, current) &&
      (forall h :: h in live ==> interval == Some(h)) &&
      (forall h :: h in live ==> h < nextHandle) &&
      (live != {} ==> slides.Length > 1)
    }

    /** The autoplay discipline: never two carousel intervals live at once. */
    lemma AtMostOneLive()
      requires Valid()
      ensures |live| <= 1
    {
      if live != {} {
        var h :| h in live;
        assert live == {h};
      }
    }

    /** A page with `count` slides, none marked active, and no dots yet. */
    constructor (count: nat)
      ensures Valid()
      ensures slides.Length == count && fresh(slides)
      ensures forall i :: 0 <= i < count ==> !slides[i]
      ensures dots == [] && current == 0 && interval == None && live == {} && !paginationHidden
    {
      slides := new bool[count](_ => false);
      dots := [];
      current := 0;
      interval := None;
      live := {};
      nextHandle := 0;
      paginationHidden := false;
    }

    /**
     * `showSlide(n)`: with no slides or no dots nothing happens; otherwise the
     * old slide and dot lose `active`, `current` becomes `(n + N) % N` and the
     * new slide and dot gain `active`. The timer fields are untouched.
     */
    method ShowSlide(n: int)
      requires Valid()
      requires slides.Length > 0 && |dots| > 0 ==> 0 <= SlideIndex(n, slides.Length)
      modifies this, slides
      ensures Valid()
      ensures interval == old(interval) && live == old(live) && nextHandle == old(nextHandle)
      ensures paginationHidden == old(paginationHidden)
      ensures slides.Length == 0 || old(dots) == [] ==>
        current == old(current) && dots == old(dots) && slides[..] == old(slides[..])
      ensures slides.Length > 0 && old(dots) != [] ==>
        && current == SlideIndex(n, slides.Length)
        && slides[..] == Move(old(slides[..]), old(current), current)
        && dots == Move(old(dots), old(current), current)
        && ExactlyAt(slides[..], current)
        && ExactlyAt(dots, current)
    {
      if slides.Length == 0 || |dots| == 0 {
        return;
      }
      var count := slides.Length;
      ghost var before := slides[..];
      slides[current] := false;
      dots := dots[current := false];
      var next := SlideIndex(n, count);
      slides[next] := true;
      dots := dots[next := true];
      assert slides[..] == Move(before, current, next);
      MoveKeepsExactlyOne(before, current, next);
      MoveKeepsExactlyOne(old(dots), current, next);
      current := next;
    }

    /**
     * `resetInterval()`: the stored handle is cleared first; then, with more
     * than one slide, a fresh interval is created and stored. Afterwards
     * exactly one interval is live if N > 1 and none otherwise. With N <= 1
     * the stale handle stays in `interval`, as the source never resets it.
     */
    method ResetInterval()
      requires Valid()
      modifies this
      ensures Valid()
      ensures current == old(current) && dots == old(dots) && paginationHidden == old(paginationHidden)
      ensures slides.Length > 1 ==>
        interval == Some(old(nextHandle)) && live == {old(nextHandle)} && nextHandle == old(nextHandle) + 1
      ensures slides.Length <= 1 ==>
        interval == old(interval) && live == {} && nextHandle == old(nextHandle)
      ensures |live| <= 1
    {
      if interval.Some? {
        live := live - {interval.value};
      }
      assert live == {};
      if slides.Length > 1 {
        interval := Some(nextHandle);
        live := live + {nextHandle};
        nextHandle := nextHandle + 1;
      }
    }

    /**
     * `initTestimonialSlider()`: with at most one slide the single slide (if
     * any) is marked active and the pagination is hidden, with no timer; with
     * more, one dot per slide is created, slide 0 is shown and the autoplay
     * interval is started.
     */
    method Init()
      requires Valid()
      modifies this, slides
      ensures Valid()
      ensures slides.Length <= 1 ==>
        && paginationHidden && live == {} && dots == old(dots) && current == old(current)
        && interval == old(interval) && nextHandle == old(nextHandle)
        && (slides.Length == 1 ==> slides[0])
      ensures slides.Length > 1 ==>
        && paginationHidden == old(paginationHidden) && current == 0
        && ExactlyAt(slides[..], 0) && ExactlyAt(dots, 0) && |dots| == slides.Length
        && interval == Some(old(nextHandle)) && live == {old(nextHandle)} && nextHandle == old(nextHandle) + 1
    {
      if slides.Length <= 1 {
        if slides.Length == 1 {
          slides[0] := true;
        }
        paginationHidden := true;
        return;
      }
      dots := seq(slides.Length, _ => false);
      DotIndexKept(0, slides.Length);
      ShowSlide(0);
      ResetInterval();
    }

    /** A click on dot `i`: `showSlide(i)` then `resetInterval()`, which restarts the autoplay clock. */
    method DotClick(i: nat)
      requires Valid()
      requires i < |dots|
      modifies this, slides
      ensures Valid()
      ensures current == i && ExactlyAt(slides[..], i) && ExactlyAt(dots, i)
      ensures slides[..] == Move(old(slides[..]), old(current), i) && dots == Move(old(dots), old(current), i)
      ensures interval == Some(old(nextHandle)) && live == {old(nextHandle)} && nextHandle == old(nextHandle) + 1
      ensures paginationHidden == old(paginationHidden)
    {
      DotIndexKept(i, slides.Length);
      ShowSlide(i);
      ResetInterval();
    }

    /** The live interval `h` fires: `showSlide(current + 1)`, with no change to the timers. */
    method Tick(h: nat)
      requires Valid()
      requires h in live
      modifies this, slides
      ensures Valid()
      ensures interval == old(interval) && live == old(live) && nextHandle == old(nextHandle)
      ensures paginationHidden == old(paginationHidden)
      ensures old(dots) == [] ==> current == old(current) && slides[..] == old(slides[..]) && dots == old(dots)
      ensures old(dots) != [] ==>
        && current == (if old(current) + 1 == slides.Length then 0 else old(current) + 1)
        && slides[..] == Move(old(slides[..]), old(current), current)
        && dots == Move(old(dots), old(current), current)
        && ExactlyAt(slides[..], current) && ExactlyAt(dots, current)
    {
      TickIndexWraps(current, slides.Length);
      ShowSlide(current + 1);
    }
  }
}
