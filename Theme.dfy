/**
 * The light/dark theme switch (`initTheme`, `setTheme`). The browser's
 * storage and colour-scheme query are inputs: the saved value is a field,
 * the operating-system preference a parameter.
 */
module Theme {
  import opened Wrappers

  const LIGHT := "light"
  const DARK := "dark"

  /**
   * The theme chosen at start-up: the saved value unless it is missing or
   * empty (both falsy for `||`), else `dark` when the system prefers dark,
   * else `light`. The result is never empty, and it is the saved value or
   * one of the two known themes.
   */
  function InitialTheme(saved: Option<string>, prefersDark: bool): (theme: string)
    ensures theme != ""
    ensures saved == Some(theme) || theme == LIGHT || theme == DARK
    ensures saved.Some? && saved.value != "" ==> theme == saved.value
  {
    if saved.Some? && saved.value != "" then saved.value
    else if prefersDark then DARK else LIGHT
  }

  /** A non-empty saved value decides the start-up theme whatever the system preference. */
  lemma SavedThemeWins(saved: string, prefersDark1: bool, prefersDark2: bool)
    requires saved != ""
    ensures InitialTheme(Some(saved), prefersDark1) == InitialTheme(Some(saved), prefersDark2) == saved
  {
  }

  /** Without a saved value, the system preference alone decides, and the two preferences give different themes. */
  lemma PreferenceDecidesUnsaved(saved: Option<string>)
    requires saved.None? || saved.value == ""
    ensures InitialTheme(saved, true) == DARK && InitialTheme(saved, false) == LIGHT
  {
  }

  /** Without a usable saved value, or with a saved `light` or `dark`, the start-up theme is one of the two known themes. */
  lemma InitialThemeKnown(saved: Option<string>, prefersDark: bool)
    requires saved.None? || saved.value == "" || saved.value == LIGHT || saved.value == DARK
    ensures InitialTheme(saved, prefersDark) in {LIGHT, DARK}
  {
  }

  /**
   * What a click on the switch asks for: `dark` when the current
   * `data-theme` is `light`, and `light` for anything else, a missing
   * attribute included.
   */
  function Toggled(current: Option<string>): (theme: string)
    ensures theme == LIGHT || theme == DARK
    ensures theme == DARK <==> current == Some(LIGHT)
  {
    if current == Some(LIGHT) then DARK else LIGHT
  }

  /** Two clicks restore `light` and `dark`; any other value becomes `dark`. */
  lemma ToggleTwice(current: Option<string>)
    ensures Toggled(Some(Toggled(current))) == if current == Some(LIGHT) then LIGHT else DARK
  {
  }

  class ThemeSwitch {
    /** The `data-theme` attribute of the root element; `None` until first set. */
    var dataTheme: Option<string>
    /** `localStorage['theme']`. */
    var stored: Option<string>
    /** The switch's `aria-checked` attribute. */
    var ariaChecked: bool

    /** The page shows the stored theme, and the switch is checked exactly in dark mode. */
    ghost predicate Valid()
      reads this
    {
      dataTheme.Some? && stored == dataTheme && (ariaChecked <==> dataTheme == Some(DARK))
    }

    /** A page whose storage holds `stored`, before `initTheme` runs. */
    constructor (stored: Option<string>)
      ensures this.stored == stored && dataTheme == None && !ariaChecked
    {
      this.stored := stored;
      dataTheme := None;
      ariaChecked := false;
    }

    /** `setTheme(theme)`: the attribute and the stored value become `theme`. */
    method SetTheme(theme: string)
      modifies this
      ensures Valid()
      ensures dataTheme == Some(theme) && stored == Some(theme)
      ensures ariaChecked == (theme == DARK)
    {
      dataTheme := Some(theme);
      stored := Some(theme);
      ariaChecked := theme == DARK;
    }

    /** `initTheme()`: apply the start-up choice; a usable saved value is kept as it was. */
    method Init(prefersDark: bool)
      modifies this
      ensures Valid()
      ensures dataTheme == Some(InitialTheme(old(stored), prefersDark))
      ensures stored.Some? && stored.value != ""
      ensures old(stored).Some? && old(stored).value != "" ==> stored == old(stored)
    {
      SetTheme(InitialTheme(stored, prefersDark));
    }

    /** A click on the switch: the theme flips and the new value is persisted. */
    method Click()
      requires Valid()
      modifies this
      ensures Valid()
      ensures dataTheme == Some(Toggled(old(dataTheme))) && stored == dataTheme
      ensures stored == Some(LIGHT) || stored == Some(DARK)
      ensures old(dataTheme) == Some(LIGHT) <==> dataTheme == Some(DARK)
    {
      SetTheme(Toggled(dataTheme));
    }
  }

  /**
   * Loading the page again: a fresh switch over the same storage, then
   * `initTheme`. Whatever the system preference, the page shows the theme
   * the previous page last showed and persisted, unless that was empty.
   */
  method Reload(previous: ThemeSwitch, prefersDark: bool) returns (page: ThemeSwitch)
    requires previous.Valid()
    ensures fresh(page) && page.Valid()
    ensures page.dataTheme == Some(InitialTheme(previous.stored, prefersDark))
    ensures previous.stored.value != "" ==> page.dataTheme == previous.dataTheme && page.stored == previous.stored
  {
    page := new ThemeSwitch(previous.stored);
    page.Init(prefersDark);
  }

  /** A click, then a reload: the new page shows the theme the click chose. */
  method ClickThenReload(sw: ThemeSwitch, prefersDark: bool) returns (page: ThemeSwitch)
    requires sw.Valid()
    modifies sw
    ensures fresh(page) && page.dataTheme == Some(Toggled(old(sw.dataTheme)))
  {
    sw.Click();
    page := Reload(sw, prefersDark);
  }
}
