/** The theme controller (assets/js/modules/theme.js): a theme taken from a
    list that starts as light and dark and only grows, the light/dark toggle,
    the initial choice (stored, then system preference), the rule that a
    system change applies only while nothing is stored, and the one-time
    deferred initialization. */
module Theme {
  import opened Wrappers
  import opened Storage

  const StorageKey := "portfolio-theme"

  /** The target of `toggle`, and also the `previousTheme` that
      `dispatchThemeChange` reports (it reads `currentTheme` after the update):
      light goes to dark, anything else to light. */
  function Toggled(theme: string): string {
    if theme == "light" then "dark" else "light"
  }

  /** Repeated toggles alternate strictly between light and dark, whatever
      theme they start from: the first lands on dark exactly when starting
      from light. */
  lemma {:induction false} ToggleAlternates(theme: string, n: nat)
    requires n > 0
    ensures Toggles(theme, n) == if (n % 2 == 1) == (theme == "light") then "dark" else "light"
  {
    if n > 1 {
      ToggleAlternates(theme, n - 1);
      assert (n - 1) % 2 == 1 <==> n % 2 == 0;
    }
  }

  /** The theme after `n` toggles. */
  function Toggles(theme: string, n: nat): string {
    if n == 0 then theme else Toggled(Toggles(theme, n - 1))
  }

  /** `getSystemTheme`, with the `prefers-color-scheme: dark` query as input. */
  function SystemTheme(prefersDark: bool): (r: string)
    ensures r == "light" || r == "dark"
    ensures r == "dark" <==> prefersDark
  {
    if prefersDark then "dark" else "light"
  }

  /** `loadTheme`'s choice: a truthy stored name that is a known theme,
      otherwise the system's. */
  function InitialTheme(saved: Option<string>, themes: seq<string>, prefersDark: bool): (r: string)
    ensures r in themes || r == SystemTheme(prefersDark)
    ensures r == SystemTheme(prefersDark) || saved == Some(r)
  {
    if Truthy(saved) && saved.value in themes then saved.value else SystemTheme(prefersDark)
  }

  /** The precedence rule: the stored theme wins exactly when it is a known,
      non-empty name; otherwise dark follows the system preference. */
  lemma InitialThemePrecedence(saved: Option<string>, themes: seq<string>, prefersDark: bool)
    requires "light" in themes && "dark" in themes
    ensures InitialTheme(saved, themes, prefersDark) in themes
    ensures Truthy(saved) && saved.value in themes ==> InitialTheme(saved, themes, prefersDark) == saved.value
    ensures !(Truthy(saved) && saved.value in themes) ==>
              (InitialTheme(saved, themes, prefersDark) == "dark" <==> prefersDark)
  {
  }

  /** The list after `addTheme(name)`. */
  function WithTheme(themes: seq<string>, name: string): seq<string> {
    if name in themes then themes else themes + [name]
  }

  predicate Distinct(s: seq<string>) {
    forall i, j :: 0 <= i < j < |s| ==> s[i] != s[j]
  }

  /** `addTheme` keeps the list duplicate-free, keeps every earlier entry in
      place, and makes the name available. */
  lemma WithThemeDistinct(themes: seq<string>, name: string)
    requires Distinct(themes)
    ensures var r := WithTheme(themes, name);
      Distinct(r) && name in r && themes <= r && |r| <= |themes| + 1
  {
  }

  /** `updateMetaThemeColor`'s colour. */
  function MetaColor(theme: string): (r: string)
    ensures r == "#0f172a" <==> theme == "dark"
    ensures r != "#0f172a" ==> r == "#0066cc"
  {
    if theme == "dark" then "#0f172a" else "#0066cc"
  }

  /** `updateToggleButton`'s aria-label: for either known theme, it names
      the theme a click on the button switches to. */
  function ButtonLabel(theme: string): (r: string)
    ensures theme == "light" || theme == "dark" ==> r == "Switch to " + Toggled(theme) + " theme"
  {
    if theme == "dark" then "Switch to light theme" else "Switch to dark theme"
  }

  /** The Chinese names of the two themes used in the button title. */
  function ChineseName(theme: string): string {
    if theme == "light" then "淺色" else "深色"
  }

  /** `updateToggleButton`'s title: for either known theme, it names, in
      Chinese, the theme a click on the button switches to. */
  function ButtonTitle(theme: string): (r: string)
    ensures theme == "light" || theme == "dark" ==> r == "切換至" + ChineseName(Toggled(theme)) + "模式"
  {
    if theme == "dark" then "切換至淺色模式" else "切換至深色模式"
  }

  /** The two attributes `updateToggleButton` writes on the button. */
  datatype ToggleText = ToggleText(ariaLabel: string, title: string)

  function ButtonText(theme: string): ToggleText {
    ToggleText(ButtonLabel(theme), ButtonTitle(theme))
  }

  /** The `theme:changed` payload. */
  datatype ThemeChanged = ThemeChanged(theme: string, previousTheme: string)

  class ThemeManager {
    var themes: seq<string>
    var currentTheme: string
    var store: Store
    /** The `data-theme` attribute of the document element. */
    var dataTheme: Option<string>
    var initialized: bool
    /** Whether `document.getElementById('theme-toggle')` found the button. */
    var hasButton: bool
    var buttonText: Option<ToggleText>
    const hasMeta: bool
    var metaColor: Option<string>
    /** Every `theme:changed` event dispatched, in order. */
    var events: seq<ThemeChanged>
    /** The system-preference listener has been registered. */
    var watching: bool
    /** 500 ms initialization attempts scheduled and not yet fired. */
    var pendingInit: nat
    /** 1000 ms retries scheduled and not yet fired. */
    var pendingRetries: nat
    /** `applyTheme` has run at least once. */
    ghost var applied: bool

    /** Light and dark are always available, the list has no duplicates, and
        once a theme was applied to working storage the stored value is the
        current theme. */
    ghost predicate Valid()
      reads this
    {
      && "light" in themes && "dark" in themes && Distinct(themes)
      && (applied && store.writable ==> StorageKey in store.items && store.items[StorageKey] == currentTheme)
      && (watching ==> initialized && applied)
    }

    /** The constructor, up to and including `init`'s call of
        `initializeElements`, which schedules the first attempt. */
    constructor (store: Store, hasMeta: bool)
      ensures Valid()
      ensures themes == ["light", "dark"] && currentTheme == "light" && !initialized
      ensures this.store == store && this.hasMeta == hasMeta && events == []
      ensures pendingInit == 1 && pendingRetries == 0
    {
      themes := ["light", "dark"];
      currentTheme := "light";
      this.store := store;
      dataTheme := None;
      initialized := false;
      hasButton := false;
      buttonText := None;
      this.hasMeta := hasMeta;
      metaColor := None;
      events := [];
      watching := false;
      pendingInit := 1;
      pendingRetries := 0;
      applied := false;
    }

    /** `initializeElements`: nothing once initialized; otherwise one more
        500 ms attempt is scheduled. */
    method InitializeElements()
      requires Valid()
      modifies this`pendingInit
      ensures Valid()
      ensures pendingInit == if old(initialized) then old(pendingInit) else old(pendingInit) + 1
    {
      if initialized {
        return;
      }
      pendingInit := pendingInit + 1;
    }

    /** The 500 ms callback of `initializeElements`. It does not look at
        `initialized` again. Without the button it schedules a retry; with it,
        it sets `initialized`, loads the theme and starts watching the system
        preference. */
    method InitializeTimerFires(buttonFound: bool, prefersDark: bool)
      requires Valid() && pendingInit > 0
      modifies this
      ensures Valid()
      ensures hasButton == buttonFound && themes == old(themes) && pendingInit == old(pendingInit) - 1
      ensures !buttonFound ==>
                && pendingRetries == old(pendingRetries) + 1 && initialized == old(initialized)
                && watching == old(watching) && currentTheme == old(currentTheme)
                && events == old(events) && store == old(store) && dataTheme == old(dataTheme)
                && buttonText == old(buttonText) && metaColor == old(metaColor)
      ensures buttonFound ==>
                && initialized && watching && pendingRetries == old(pendingRetries)
                && currentTheme == InitialTheme(old(store).Get(StorageKey), old(themes), prefersDark)
                && currentTheme in themes && dataTheme == Some(currentTheme)
                && store == old(store).Set(StorageKey, currentTheme)
                && buttonText == Some(ButtonText(currentTheme))
                && metaColor == (if hasMeta then Some(MetaColor(currentTheme)) else old(metaColor))
                && events == old(events) + [ThemeChanged(currentTheme, Toggled(currentTheme))]
    {
      pendingInit := pendingInit - 1;
      hasButton := buttonFound;
      if !buttonFound {
        pendingRetries := pendingRetries + 1;
        return;
      }
      FoundButton(prefersDark);
    }

    /** The found-button branch of the 500 ms callback: initialised, the
        theme loaded and applied, the system preference watched, and the
        button updated once more. */
    method FoundButton(prefersDark: bool)
      requires Valid() && hasButton
      modifies this
      ensures Valid() && hasButton && themes == old(themes) && pendingInit == old(pendingInit)
      ensures initialized && watching && pendingRetries == old(pendingRetries)
      ensures currentTheme == InitialTheme(old(store).Get(StorageKey), old(themes), prefersDark)
      ensures currentTheme in themes && dataTheme == Some(currentTheme)
      ensures store == old(store).Set(StorageKey, currentTheme)
      ensures buttonText == Some(ButtonText(currentTheme))
      ensures metaColor == if hasMeta then Some(MetaColor(currentTheme)) else old(metaColor)
      ensures events == old(events) + [ThemeChanged(currentTheme, Toggled(currentTheme))]
    {
      initialized := true;
      LoadTheme(prefersDark);
      watching := true;
      UpdateToggleButton();
    }

    /** The 1000 ms retry: `initializeElements` again. */
    method RetryTimerFires()
      requires Valid() && pendingRetries > 0
      modifies this`pendingInit, this`pendingRetries
      ensures Valid() && pendingRetries == old(pendingRetries) - 1
      ensures pendingInit == if initialized then old(pendingInit) else old(pendingInit) + 1
    {
      pendingRetries := pendingRetries - 1;
      InitializeElements();
    }

    /** `loadTheme`. */
    method LoadTheme(prefersDark: bool)
      requires Valid()
      modifies this
      ensures Valid()
      ensures currentTheme == InitialTheme(old(store).Get(StorageKey), themes, prefersDark)
      ensures currentTheme in themes
      ensures dataTheme == Some(currentTheme)
      ensures store == old(store).Set(StorageKey, currentTheme)
      ensures buttonText == if hasButton then Some(ButtonText(currentTheme)) else old(buttonText)
      ensures metaColor == if hasMeta then Some(MetaColor(currentTheme)) else old(metaColor)
      ensures events == old(events) + [ThemeChanged(currentTheme, Toggled(currentTheme))]
      ensures applied && themes == old(themes) && initialized == old(initialized) && watching == old(watching)
      ensures hasButton == old(hasButton) && pendingInit == old(pendingInit) && pendingRetries == old(pendingRetries)
    {
      InitialThemePrecedence(store.Get(StorageKey), themes, prefersDark);
      // the source assigns `currentTheme` here and again inside applyTheme
      var saved := store.Get(StorageKey);
      var chosen := if Truthy(saved) && saved.value in themes then saved.value else SystemTheme(prefersDark);
      ApplyTheme(chosen);
    }

    /** The first half of `applyTheme`: the `data-theme` attribute, the
        current theme and the stored preference. */
    method RecordTheme(theme: string)
      requires Valid()
      modifies this`dataTheme, this`currentTheme, this`store, this`applied
      ensures Valid() && applied
      ensures dataTheme == Some(theme) && currentTheme == theme
      ensures store == old(store).Set(StorageKey, theme)
    {
      dataTheme := Some(theme);
      currentTheme := theme;
      store := store.Set(StorageKey, theme);
      applied := true;
    }

    /** `applyTheme`: attribute, current theme, storage, button, event, meta
        colour, in that order. */
    method ApplyTheme(theme: string)
      requires Valid()
      modifies this
      ensures Valid() && applied
      ensures dataTheme == Some(theme) && currentTheme == theme
      ensures store == old(store).Set(StorageKey, theme)
      ensures buttonText == if hasButton then Some(ButtonText(theme)) else old(buttonText)
      ensures events == old(events) + [ThemeChanged(theme, Toggled(theme))]
      ensures metaColor == if hasMeta then Some(MetaColor(theme)) else old(metaColor)
      ensures themes == old(themes) && initialized == old(initialized) && watching == old(watching)
      ensures hasButton == old(hasButton) && pendingInit == old(pendingInit) && pendingRetries == old(pendingRetries)
    {
      RecordTheme(theme);
      UpdateToggleButton();
      events := events + [ThemeChanged(theme, Toggled(theme))];
      if hasMeta {
        metaColor := Some(MetaColor(theme));
      }
    }

    /** `updateToggleButton`: sets the aria-label and the title for the
        current theme; a no-op without the button. */
    method UpdateToggleButton()
      modifies this`buttonText
      ensures buttonText == if hasButton then Some(ToggleText(ButtonLabel(currentTheme), ButtonTitle(currentTheme)))
                            else old(buttonText)
    {
      if !hasButton {
        return;
      }
      buttonText := Some(ButtonText(currentTheme));
    }

    /** `toggle`: light to dark, anything else to light; returns the new theme. */
    method Toggle() returns (next: string)
      requires Valid()
      modifies this
      ensures Valid()
      ensures next == Toggled(old(currentTheme)) && currentTheme == next && dataTheme == Some(next)
      ensures next != old(currentTheme)
      ensures store == old(store).Set(StorageKey, next)
      ensures buttonText == if hasButton then Some(ButtonText(next)) else old(buttonText)
      ensures metaColor == if hasMeta then Some(MetaColor(next)) else old(metaColor)
      ensures events == old(events) + [ThemeChanged(next, Toggled(next))]
      ensures themes == old(themes) && initialized == old(initialized) && watching == old(watching)
      ensures hasButton == old(hasButton) && pendingInit == old(pendingInit) && pendingRetries == old(pendingRetries)
    {
      next := Toggled(currentTheme);
      ApplyTheme(next);
    }

    /** `setTheme`: a known theme is applied; an unknown name changes nothing. */
    method SetTheme(theme: string)
      requires Valid()
      modifies this
      ensures Valid() && themes == old(themes)
      ensures theme !in old(themes) ==> unchanged(this)
      ensures theme in old(themes) ==>
                && currentTheme == theme && dataTheme == Some(theme)
                && store == old(store).Set(StorageKey, theme)
                && buttonText == (if hasButton then Some(ButtonText(theme)) else old(buttonText))
                && metaColor == (if hasMeta then Some(MetaColor(theme)) else old(metaColor))
                && events == old(events) + [ThemeChanged(theme, Toggled(theme))]
      ensures initialized == old(initialized) && watching == old(watching) && hasButton == old(hasButton)
      ensures pendingInit == old(pendingInit) && pendingRetries == old(pendingRetries)
    {
      if theme in themes {
        ApplyTheme(theme);
      }
    }

    /** `addTheme`: only a new name is appended. */
    method AddTheme(name: string)
      requires Valid()
      modifies this`themes
      ensures Valid()
      ensures themes == WithTheme(old(themes), name)
    {
      WithThemeDistinct(themes, name);
      if name !in themes {
        themes := themes + [name];
      }
    }

    /** The `change` listener on the colour-scheme query: the new system theme
        is applied only when nothing truthy is stored. */
    method SystemThemeChanged(prefersDark: bool)
      requires Valid()
      modifies this
      ensures Valid() && themes == old(themes)
      ensures !old(watching) || Truthy(old(store).Get(StorageKey)) ==> unchanged(this)
      ensures old(watching) && !Truthy(old(store).Get(StorageKey)) ==>
                currentTheme == SystemTheme(prefersDark) && dataTheme == Some(currentTheme)
                && store == old(store).Set(StorageKey, currentTheme)
                && buttonText == (if hasButton then Some(ButtonText(currentTheme)) else old(buttonText))
                && metaColor == (if hasMeta then Some(MetaColor(currentTheme)) else old(metaColor))
                && events == old(events) + [ThemeChanged(currentTheme, Toggled(currentTheme))]
      ensures initialized == old(initialized) && watching == old(watching) && hasButton == old(hasButton)
      ensures pendingInit == old(pendingInit) && pendingRetries == old(pendingRetries)
    {
      if !watching {
        return;
      }
      var saved := store.Get(StorageKey);
      if !Truthy(saved) {
        ApplyTheme(SystemTheme(prefersDark));
      }
    }

    /** Once the controller is watching and storage works in both directions,
        the stored value is the (non-empty) current theme, so no system change
        is applied any more. */
    method SystemChangeIgnoredOnceStored(prefersDark: bool)
      requires Valid() && watching && store.readable && store.writable && currentTheme != ""
      modifies this
      ensures unchanged(this)
    {
      SystemThemeChanged(prefersDark);
    }
  }
}
