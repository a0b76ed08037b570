/**
 * The FAQ accordion (`initFaqAccordion`): each question button carries
 * `aria-expanded`, and the answer right after it an inline `max-height`
 * that a click sets to 0 or to the answer's natural height. Questions are
 * independent: several answers may be open at once.
 */
module Faq {
  import opened Wrappers

  class Accordion {
    /** `aria-expanded === 'true'` on each `.faq-question` (a missing attribute reads as false). */
    const expanded: array<bool>
    /** The inline `style.maxHeight` of each answer in pixels; `None` while not set. */
    const maxHeight: array<Option<nat>>

    ghost predicate Valid()
      reads this
    {
      expanded.Length == maxHeight.Length
    }

    /** `count` collapsed questions whose answers carry no inline height yet. */
    constructor (count: nat)
      ensures Valid() && expanded.Length == count && fresh(expanded) && fresh(maxHeight)
      ensures forall i :: 0 <= i < count ==> !expanded[i] && maxHeight[i] == None
    {
      expanded := new bool[count](_ => false);
      maxHeight := new Option<nat>[count](_ => None);
    }

    /**
     * A click in the container. `question` is the question button the click
     * landed in (`closest('.faq-question')`), `None` if none, and
     * `scrollHeight` the natural height of its answer at that moment. The
     * question flips; its answer collapses to 0 or opens to `scrollHeight`;
     * every other question and answer is left as it was.
     */
    method Click(question: Option<nat>, scrollHeight: nat)
      requires Valid()
      requires question.Some? ==> question.value < expanded.Length
      modifies expanded, maxHeight
      ensures question.None? ==> expanded[..] == old(expanded[..]) && maxHeight[..] == old(maxHeight[..])
      ensures question.Some? ==>
        && expanded[question.value] == !old(expanded[question.value])
        && maxHeight[question.value] == Some(if old(expanded[question.value]) then 0 else scrollHeight)
      ensures forall j :: 0 <= j < expanded.Length && question != Some(j) ==>
        expanded[j] == old(expanded[j]) && maxHeight[j] == old(maxHeight[j])
    {
      if question.None? {
        return;
      }
      var i := question.value;
      var wasExpanded := expanded[i];
      expanded[i] := !wasExpanded;
      maxHeight[i] := Some(if wasExpanded then 0 else scrollHeight);
    }
  }

  /**
   * Two clicks on the same question restore its `aria-expanded`, and its
   * height too when that already matched the state and the answer's height
   * did not change in between.
   */
  method ClickTwice(faq: Accordion, i: nat, height: nat)
    requires faq.Valid() && i < faq.expanded.Length
    modifies faq.expanded, faq.maxHeight
    ensures faq.expanded[..] == old(faq.expanded[..])
    ensures faq.maxHeight[i] == Some(if old(faq.expanded[i]) then height else 0)
    ensures forall j :: 0 <= j < faq.maxHeight.Length && j != i ==> faq.maxHeight[j] == old(faq.maxHeight[j])
    ensures old(faq.maxHeight[i]) == Some(if old(faq.expanded[i]) then height else 0) ==>
      faq.maxHeight[..] == old(faq.maxHeight[..])
  {
    faq.Click(Some(i), height);
    faq.Click(Some(i), height);
  }

  /** Opening question `a` and then question `b` leaves both open: no single-open rule. */
  method OpenTwo(faq: Accordion, a: nat, b: nat, ha: nat, hb: nat)
    requires faq.Valid() && a < faq.expanded.Length && b < faq.expanded.Length && a != b
    requires !faq.expanded[a] && !faq.expanded[b]
    modifies faq.expanded, faq.maxHeight
    ensures faq.expanded[a] && faq.expanded[b]
    ensures faq.maxHeight[a] == Some(ha) && faq.maxHeight[b] == Some(hb)
  {
    faq.Click(Some(a), ha);
    faq.Click(Some(b), hb);
  }
}
