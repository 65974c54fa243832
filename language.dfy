/** The language controller (assets/js/modules/language.js): a locale chosen
    from the keys of a translation table, lookup with fallback to the key,
    merging extra strings into a locale, the initial choice (stored, then
    browser), and the rewrite of every marked element on a change. */
module Language {
  import opened Wrappers
  import opened Storage

  /** locale -> (key -> localized text) */
  type Table = map<string, map<string, string>>

  const StorageKey := "portfolio-language"

  /** A few entries of the table that `fetchTranslations` installs; the model
      depends only on its two locales. */
  const BuiltinTable: Table := map[
    "en" := map["nav.home" := "Home", "nav.contact" := "Contact", "lang.switch" := "Switch language"],
    "zh" := map["nav.home" := "首頁", "nav.contact" := "聯絡方式", "lang.switch" := "切換語言"]
  ]

  /** `isValidLanguage`: a locale of the table. */
  predicate IsValidLanguage(t: Table, lang: string) {
    lang in t
  }

  /** Once the built-in table is installed the valid codes are exactly en and zh. */
  lemma BuiltinLanguages(lang: string)
    ensures IsValidLanguage(BuiltinTable, lang) <==> lang == "en" || lang == "zh"
  {
  }

  /** The target of `toggle`, and also the `previousLanguage` that
      `dispatchLanguageChange` reports: en goes to zh, anything else to en. */
  function Toggled(lang: string): string {
    if lang == "en" then "zh" else "en"
  }

  /** On the two locales, toggling is an involution that always changes the locale. */
  lemma ToggledInvolution(lang: string)
    requires lang == "en" || lang == "zh"
    ensures Toggled(Toggled(lang)) == lang && Toggled(lang) != lang
  {
  }

  /** `translations[key]` read as a truth value: a stored, non-empty string. */
  function Lookup(strings: map<string, string>, key: string): Option<string> {
    if key in strings && strings[key] != "" then Some(strings[key]) else None
  }

  /** `getTranslation(key, lang)`: the stored string when there is a non-empty
      one, otherwise the key itself (also for an unknown locale). */
  function Translation(t: Table, key: string, lang: string): (r: string)
    ensures lang in t && key in t[lang] && t[lang][key] != "" ==> r == t[lang][key]
    ensures !(lang in t && key in t[lang] && t[lang][key] != "") ==> r == key
  {
    if lang in t then Lookup(t[lang], key).GetOr(key) else key
  }

  /** `addTranslations(lang, strings)`: the locale is created if absent and
      the new strings are assigned over it. */
  function Merged(t: Table, lang: string, strings: map<string, string>): (r: Table)
    ensures r.Keys == t.Keys + {lang}
    ensures forall l :: l in t && l != lang ==> r[l] == t[l]
    ensures r[lang].Keys == strings.Keys + (if lang in t then t[lang].Keys else {})
    ensures forall k :: k in strings ==> r[lang][k] == strings[k]
    ensures forall k :: lang in t && k in t[lang] && k !in strings ==> r[lang][k] == t[lang][k]
  {
    t[lang := (if lang in t then t[lang] else map[]) + strings]
  }

  /** Lookup after a merge: a merged key now answers with its new string (or
      falls back to the key when that string is empty); every other key and
      every other locale answers as before. */
  lemma TranslationAfterMerge(t: Table, lang: string, strings: map<string, string>, key: string, asked: string)
    ensures Translation(Merged(t, lang, strings), key, asked) ==
              if asked == lang && key in strings then
                (if strings[key] != "" then strings[key] else key)
              else Translation(t, key, asked)
  {
    var r := Merged(t, lang, strings);
    if asked == lang && key !in strings {
      assert lang in t && key in t[lang] ==> r[lang][key] == t[lang][key];
    }
  }

  /** `detectBrowserLanguage`: the first truthy of `navigator.language`,
      `navigator.userLanguage` and "en"; zh when it starts with "zh". */
  function DetectBrowserLanguage(language: Option<string>, userLanguage: Option<string>): (r: string)
    ensures r == "zh" || r == "en"
    ensures r == "zh" <==>
              if Truthy(language) then StartsWithZh(language.value)
              else Truthy(userLanguage) && StartsWithZh(userLanguage.value)
  {
    var browser := if Truthy(language) then language.value
                   else if Truthy(userLanguage) then userLanguage.value
                   else "en";
    assert "en"[..2] == "en";
    if StartsWithZh(browser) then "zh" else "en"
  }

  predicate StartsWithZh(s: string) {
    |s| >= 2 && s[..2] == "zh"
  }

  /** `loadLanguage`'s choice: a truthy stored code that is a locale of the
      table, otherwise the browser's. */
  function InitialLanguage(t: Table, saved: Option<string>, language: Option<string>, userLanguage: Option<string>): (r: string)
    ensures Truthy(saved) && IsValidLanguage(t, saved.value) ==> r == saved.value
    ensures r == "en" || r == "zh" || (Truthy(saved) && IsValidLanguage(t, r) && r == saved.value)
  {
    if Truthy(saved) && IsValidLanguage(t, saved.value) then saved.value
    else DetectBrowserLanguage(language, userLanguage)
  }

  /** With the built-in table installed the initial choice is always a valid
      locale, it is the stored one whenever that is en or zh, and otherwise
      it follows the browser. */
  lemma InitialLanguageValid(saved: Option<string>, language: Option<string>, userLanguage: Option<string>)
    ensures var l := InitialLanguage(BuiltinTable, saved, language, userLanguage);
      && IsValidLanguage(BuiltinTable, l)
      && (saved == Some("en") || saved == Some("zh") ==> l == saved.value)
      && (!(saved == Some("en") || saved == Some("zh")) ==> l == DetectBrowserLanguage(language, userLanguage))
  {
  }

  // ---------------------------------------------------------------------------
  // updateContent

  /** An element of the page: its tag name, its `data-i18n` and
      `data-i18n-aria` keys when marked, and the parts a rewrite can set. */
  datatype Element = Element(
    tag: string,
    textKey: Option<string>,
    ariaKey: Option<string>,
    text: string,
    placeholder: string,
    ariaLabel: Option<string>,
    title: Option<string>)

  predicate IsFormField(e: Element) {
    e.tag == "INPUT" || e.tag == "TEXTAREA"
  }

  /** The first loop of `updateContent` on one element: a truthy string for its
      key goes to the placeholder of a form field, to the text of anything else. */
  function RewriteText(e: Element, strings: map<string, string>): Element {
    if e.textKey.None? then e
    else match Lookup(strings, e.textKey.value)
      case None => e
      case Some(s) => if IsFormField(e) then e.(placeholder := s) else e.(text := s)
  }

  /** The second loop: a truthy string for its aria key becomes both the
      aria-label and the title. */
  function RewriteAria(e: Element, strings: map<string, string>): Element {
    if e.ariaKey.None? then e
    else match Lookup(strings, e.ariaKey.value)
      case None => e
      case Some(s) => e.(ariaLabel := Some(s), title := Some(s))
  }

  /** What `updateContent` does to one element. */
  function Rewritten(e: Element, strings: map<string, string>): (r: Element)
    ensures r.tag == e.tag && r.textKey == e.textKey && r.ariaKey == e.ariaKey
    ensures e.textKey.None? && e.ariaKey.None? ==> r == e
    ensures strings == map[] ==> r == e
  {
    RewriteAria(RewriteText(e, strings), strings)
  }

  /** The rewrite rule: only the targeted part changes, only for a key with a
      non-empty string, and the element's marks and tag never change. */
  lemma RewrittenParts(e: Element, strings: map<string, string>)
    ensures var r := Rewritten(e, strings);
      && r.tag == e.tag && r.textKey == e.textKey && r.ariaKey == e.ariaKey
      && r.text == (if e.textKey.Some? && Lookup(strings, e.textKey.value).Some? && !IsFormField(e)
                    then strings[e.textKey.value] else e.text)
      && r.placeholder == (if e.textKey.Some? && Lookup(strings, e.textKey.value).Some? && IsFormField(e)
                           then strings[e.textKey.value] else e.placeholder)
      && r.ariaLabel == (if e.ariaKey.Some? && Lookup(strings, e.ariaKey.value).Some?
                         then Some(strings[e.ariaKey.value]) else e.ariaLabel)
      && r.title == (if e.ariaKey.Some? && Lookup(strings, e.ariaKey.value).Some?
                     then Some(strings[e.ariaKey.value]) else e.title)
  {
  }

  /** Switching locales leaves no trace of the earlier one on an element whose
      keys the new locale translates: rewriting for `a` and then for `b` is the
      same as rewriting for `b` alone. */
  lemma RewriteLastLocaleWins(e: Element, a: map<string, string>, b: map<string, string>)
    requires e.textKey.Some? ==> Lookup(b, e.textKey.value).Some?
    requires e.ariaKey.Some? ==> Lookup(b, e.ariaKey.value).Some?
    ensures Rewritten(Rewritten(e, a), b) == Rewritten(e, b)
  {
  }

  // ---------------------------------------------------------------------------
  // The controller

  /** The `language:changed` payload. */
  datatype LanguageChanged = LanguageChanged(language: string, previousLanguage: string, strings: map<string, string>)

  class LanguageManager {
    var currentLanguage: string
    var translations: Table
    /** `loadingPromise` has been set: the table load has started. */
    var loadStarted: bool
    var store: Store
    /** The `lang` attribute of the document element. */
    var documentLang: string
    var hasToggle: bool
    /** aria-label and title of the language toggle button. */
    var toggleLabel: Option<string>
    /** Every `language:changed` event dispatched, in order. */
    var events: seq<LanguageChanged>
    /** The page's elements, in document order. */
    const page: array<Element>

    constructor (store: Store, page: array<Element>)
      ensures this.store == store && this.page == page
      ensures currentLanguage == "en" && translations == map[] && !loadStarted
      ensures events == [] && !hasToggle && toggleLabel == None
    {
      this.store := store;
      this.page := page;
      currentLanguage := "en";
      translations := map[];
      loadStarted := false;
      documentLang := "";
      hasToggle := false;
      toggleLabel := None;
      events := [];
    }

    /** `loadTranslations`: the first call installs the table; later calls
        return the same promise and change nothing, so strings merged in
        meanwhile survive. */
    method LoadTranslations()
      modifies this`loadStarted, this`translations
      ensures loadStarted
      ensures translations == if old(loadStarted) then old(translations) else BuiltinTable
    {
      if loadStarted {
        return;
      }
      loadStarted := true;
      translations := BuiltinTable;
    }

    /** `updateContent`: two passes over the page, the text pass over the
        `data-i18n` elements and the aria pass over the `data-i18n-aria` ones. */
    method UpdateContent()
      requires currentLanguage in translations
      modifies page
      ensures forall i :: 0 <= i < page.Length ==>
                page[i] == Rewritten(old(page[i]), translations[currentLanguage])
    {
      var strings := translations[currentLanguage];
      var i := 0;
      while i < page.Length
        invariant 0 <= i <= page.Length
        invariant forall j :: 0 <= j < i ==> page[j] == RewriteText(old(page[j]), strings)
        invariant forall j :: i <= j < page.Length ==> page[j] == old(page[j])
      {
        if page[i].textKey.Some? {
          page[i] := RewriteText(page[i], strings);
        }
        i := i + 1;
      }
      i := 0;
      while i < page.Length
        invariant 0 <= i <= page.Length
        invariant forall j :: 0 <= j < i ==> page[j] == Rewritten(old(page[j]), strings)
        invariant forall j :: i <= j < page.Length ==> page[j] == RewriteText(old(page[j]), strings)
      {
        if page[i].ariaKey.Some? {
          page[i] := RewriteAria(page[i], strings);
        }
        i := i + 1;
      }
    }

    /** `applyLanguage`: an unknown code changes nothing; a known one becomes
        current, is stored, rewrites the page, the toggle and the document
        language, and is announced with the opposite code as "previous". */
    method ApplyLanguage(lang: string)
      modifies this, page
      ensures translations == old(translations) && loadStarted == old(loadStarted)
      ensures hasToggle == old(hasToggle)
      ensures !IsValidLanguage(old(translations), lang) ==> unchanged(this) && unchanged(page)
      ensures IsValidLanguage(old(translations), lang) ==>
        && currentLanguage == lang
        && store == old(store).Set(StorageKey, lang)
        && documentLang == lang
        && toggleLabel == (if hasToggle then Some(ToggleLabel(lang)) else old(toggleLabel))
        && events == old(events) + [LanguageChanged(lang, Toggled(lang), translations[lang])]
        && forall i :: 0 <= i < page.Length ==> page[i] == Rewritten(old(page[i]), translations[lang])
    {
      if !IsValidLanguage(translations, lang) {
        return;
      }
      currentLanguage := lang;
      store := store.Set(StorageKey, lang);
      UpdateContent();
      if hasToggle {
        toggleLabel := Some(ToggleLabel(lang));
      }
      documentLang := lang;
      events := events + [LanguageChanged(lang, Toggled(lang), translations[lang])];
    }

    /** `setLanguage`: validates and applies; an unknown code only warns. */
    method SetLanguage(lang: string)
      modifies this, page
      ensures translations == old(translations)
      ensures !IsValidLanguage(old(translations), lang) ==> unchanged(this) && unchanged(page)
      ensures IsValidLanguage(old(translations), lang) ==>
        && currentLanguage == lang && store == old(store).Set(StorageKey, lang)
        && documentLang == lang
        && toggleLabel == (if hasToggle then Some(ToggleLabel(lang)) else old(toggleLabel))
        && events == old(events) + [LanguageChanged(lang, Toggled(lang), translations[lang])]
        && forall i :: 0 <= i < page.Length ==> page[i] == Rewritten(old(page[i]), translations[lang])
    {
      if IsValidLanguage(translations, lang) {
        ApplyLanguage(lang);
      }
    }

    /** `toggle`: applies the other locale and returns it (even when the table
        is not loaded yet and nothing changes). */
    method Toggle() returns (next: string)
      modifies this, page
      ensures translations == old(translations) && hasToggle == old(hasToggle)
      ensures next == Toggled(old(currentLanguage))
      ensures IsValidLanguage(old(translations), next) ==>
        && currentLanguage == next && store == old(store).Set(StorageKey, next)
        && documentLang == next
        && toggleLabel == (if hasToggle then Some(ToggleLabel(next)) else old(toggleLabel))
        && events == old(events) + [LanguageChanged(next, Toggled(next), translations[next])]
        && forall i :: 0 <= i < page.Length ==> page[i] == Rewritten(old(page[i]), translations[next])
      ensures !IsValidLanguage(old(translations), next) ==> unchanged(this) && unchanged(page)
    {
      next := Toggled(currentLanguage);
      ApplyLanguage(next);
    }

    /** Two toggles from en or zh, with both locales loaded, come back to the
        starting locale and announce the two changes in order. */
    method ToggleTwice() returns (first: string, second: string)
      requires currentLanguage == "en" || currentLanguage == "zh"
      requires "en" in translations && "zh" in translations
      modifies this, page
      ensures first == Toggled(old(currentLanguage)) && first != old(currentLanguage)
      ensures second == old(currentLanguage) && currentLanguage == second
      ensures |events| == |old(events)| + 2
      ensures events[|events| - 2].language == first && events[|events| - 1].language == second
      ensures events[|events| - 1].previousLanguage == first
    {
      first := Toggle();
      second := Toggle();
    }

    /** `addTranslations`. */
    method AddTranslations(lang: string, strings: map<string, string>)
      modifies this`translations
      ensures translations == Merged(old(translations), lang, strings)
    {
      translations := Merged(translations, lang, strings);
    }

    /** `loadLanguage`: the stored code when it is a truthy locale, the
        browser's otherwise, becomes current and is then applied. */
    method LoadLanguage(language: Option<string>, userLanguage: Option<string>)
      modifies this, page
      ensures translations == old(translations) && loadStarted == old(loadStarted)
      ensures hasToggle == old(hasToggle)
      ensures var l := InitialLanguage(old(translations), old(store).Get(StorageKey), language, userLanguage);
        && currentLanguage == l
        && (IsValidLanguage(old(translations), l) ==>
              && store == old(store).Set(StorageKey, l) && documentLang == l
              && toggleLabel == (if hasToggle then Some(ToggleLabel(l)) else old(toggleLabel))
              && events == old(events) + [LanguageChanged(l, Toggled(l), translations[l])]
              && forall i :: 0 <= i < page.Length ==> page[i] == Rewritten(old(page[i]), translations[l]))
        && (!IsValidLanguage(old(translations), l) ==>
              && store == old(store) && documentLang == old(documentLang)
              && toggleLabel == old(toggleLabel) && events == old(events) && unchanged(page))
    {
      var saved := store.Get(StorageKey);
      if Truthy(saved) && IsValidLanguage(translations, saved.value) {
        currentLanguage := saved.value;
      } else {
        currentLanguage := DetectBrowserLanguage(language, userLanguage);
      }
      ApplyLanguage(currentLanguage);
    }

    /** `start`: load the table, find the toggle, pick and apply the initial
        locale. With the built-in table that locale is always en or zh. */
    method Start(toggleFound: bool, language: Option<string>, userLanguage: Option<string>)
      requires !loadStarted
      modifies this, page
      ensures translations == BuiltinTable && loadStarted && hasToggle == toggleFound
      ensures currentLanguage == InitialLanguage(BuiltinTable, old(store).Get(StorageKey), language, userLanguage)
      ensures currentLanguage == "en" || currentLanguage == "zh"
      ensures store == old(store).Set(StorageKey, currentLanguage) && documentLang == currentLanguage
      ensures toggleLabel == (if toggleFound then Some(ToggleLabel(currentLanguage)) else old(toggleLabel))
      ensures events == old(events) + [LanguageChanged(currentLanguage, Toggled(currentLanguage), BuiltinTable[currentLanguage])]
      ensures forall i :: 0 <= i < page.Length ==>
                page[i] == Rewritten(old(page[i]), BuiltinTable[currentLanguage])
    {
      LoadTranslations();
      hasToggle := toggleFound;
      InitialLanguageValid(store.Get(StorageKey), language, userLanguage);
      LoadLanguage(language, userLanguage);
    }
  }

  /** `updateLanguageToggle`'s label: it offers the other language. */
  function ToggleLabel(lang: string): string {
    if lang == "en" then "切換為中文" else "Switch to English"
  }
}
