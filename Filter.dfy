/**
 * The tour filter (`initTourFilters`): a row of filter buttons of which one
 * carries `active`, and a grid of tour cards each of which carries `hidden`
 * when the chosen filter excludes its category.
 */
module Filter {
  import opened Flags

  /** The filter value that shows every card. */
  const ALL := "all"

  /** The `hidden` class of a card of `category` under `filter`. */
  predicate Hidden(filter: string, category: string)
  {
    filter != ALL && filter != category
  }

  /** Under two different filters other than `all`, a card shows under at most one of them. */
  lemma ShownUnderOneFilter(f1: string, f2: string, category: string)
    requires f1 != ALL && f2 != ALL && f1 != f2
    ensures Hidden(f1, category) || Hidden(f2, category)
  {
  }

  /** Where a click in `#tour-filters` landed. */
  datatype ClickTarget = FilterButton(index: nat) | Elsewhere

  class TourFilters {
    /** `active` on each `.filter-btn`. */
    const buttons: array<bool>
    /** `data-filter` of each button. */
    const filters: seq<string>
    /** `hidden` on each `.tour-card`. */
    const cards: array<bool>
    /** `data-category` of each card. */
    const categories: seq<string>

    ghost predicate Valid()
      reads this
    {
      buttons != cards && |filters| == buttons.Length && |categories| == cards.Length
    }

    constructor (active: seq<bool>, filters: seq<string>, categories: seq<string>)
      requires |active| == |filters|
      ensures Valid() && fresh(buttons) && fresh(cards)
      ensures buttons[..] == active && this.filters == filters && this.categories == categories
      ensures forall j :: 0 <= j < cards.Length ==> !cards[j]
    {
      buttons := new bool[|active|](i requires 0 <= i < |active| => active[i]);
      this.filters := filters;
      cards := new bool[|categories|](_ => false);
      this.categories := categories;
    }

    /** The `forEach` over the cards: each card's `hidden` is set from its category alone. */
    method HideCards(filter: string)
      requires Valid()
      modifies cards
      ensures forall j :: 0 <= j < cards.Length ==> cards[j] == Hidden(filter, categories[j])
    {
      var j := 0;
      while j < cards.Length
        invariant 0 <= j <= cards.Length
        invariant forall k :: 0 <= k < j ==> cards[k] == Hidden(filter, categories[k])
      {
        cards[j] := Hidden(filter, categories[j]);
        j := j + 1;
      }
    }

    /**
     * The click handler. A click off the buttons changes nothing. Otherwise
     * the first active button (`querySelector` order) loses `active`, the
     * clicked one gains it, and every card is hidden or shown by the
     * clicked button's filter. With no active button the lookup yields
     * `null` and the handler throws before changing anything.
     */
    method Click(target: ClickTarget) returns (applied: bool)
      requires Valid()
      requires target.FilterButton? ==> target.index < buttons.Length
      modifies buttons, cards
      ensures applied <==> target.FilterButton? && FirstOn(old(buttons[..])).Some?
      ensures !applied ==> buttons[..] == old(buttons[..]) && cards[..] == old(cards[..])
      ensures applied ==>
        && buttons[..] == Move(old(buttons[..]), FirstOn(old(buttons[..])).value, target.index)
        && forall j :: 0 <= j < cards.Length ==> cards[j] == Hidden(filters[target.index], categories[j])
      ensures applied ==> forall j :: 0 <= j < cards.Length ==>
        (!cards[j] <==> filters[target.index] == ALL || categories[j] == filters[target.index])
      ensures applied && filters[target.index] == ALL ==> forall j :: 0 <= j < cards.Length ==> !cards[j]
      ensures applied && Count(old(buttons[..])) == 1 ==>
        ExactlyAt(buttons[..], target.index) && Count(buttons[..]) == 1
    {
      if target.Elsewhere? {
        return false;
      }
      var active := FirstOn(buttons[..]);
      if active.None? {
        return false;
      }
      ghost var before := buttons[..];
      buttons[active.value] := false;
      buttons[target.index] := true;
      assert buttons[..] == Move(before, active.value, target.index);
      HideCards(filters[target.index]);
      if Count(before) == 1 {
        CountOneExactlyAt(before);
        MoveKeepsExactlyOne(before, active.value, target.index);
        ExactlyAtCount(buttons[..], target.index);
      }
      return true;
    }
  }
}
