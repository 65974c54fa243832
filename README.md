# Portfolio site front end, modelled in Dafny

This project models the browser-side logic of a personal portfolio web
site. That logic is a set of ES modules, each a "manager" class wired to the
page and driven by events:

- the contact form validator (`ContactManager`);
- the two-locale language switcher and its translation table (`LanguageManager`);
- the light/dark theme switcher (`ThemeManager`);
- the GitHub profile loader with its 15-minute response cache (`GitHubManager`);
- the portfolio category filter and tab switching (`PortfolioManager`);
- the typewriter and the one-shot counters (`AnimationManager`);
- the mobile menu, its focus trap and the scroll spy (`NavigationManager`);
- the loading screen's progress sequence (`LoadingManager`);
- the application shell that registers the managers, starts and initialises
  them with per-manager failure isolation, and offers `utils.storage`
  (`PortfolioApp`, `utils`).

One Dafny module per source file:

| module | file | source |
|---|---|---|
| `Contact` | contact.dfy | assets/js/modules/contact.js |
| `Language` | language.dfy | assets/js/modules/language.js |
| `Theme` | theme.dfy | assets/js/modules/theme.js |
| `GitHub` | github.dfy | assets/js/modules/github.js |
| `Portfolio` | portfolio.dfy | assets/js/modules/portfolio.js |
| `Animations` | animations.dfy | assets/js/modules/animations.js |
| `Navigation` | navigation.dfy | assets/js/modules/navigation.js |
| `Loading` | loading.dfy | assets/js/modules/loading.js |
| `App` | app.dfy | assets/js/main.js |
| `Storage` | storage.dfy | `localStorage`, as each module reaches it |
| `Wrappers` | wrappers.dfy | `Option` |

The surroundings are modelled as follows:

- A manager whose methods update its fields is a Dafny `class`. It has those
  fields, and its methods carry `modifies` clauses.
- The page is represented only as far as a manager reads or writes it:
  - whether an element exists is a `const bool`;
  - an attribute or text it writes is an `Option` field;
  - a list of elements it rewrites in a `forEach` loop is an `array` of
    value records, rewritten in place by a `while` loop.
- `localStorage` is a value (`Storage.Store`): a map plus two flags saying
  whether reads and writes currently succeed. The modules wrap every access
  in `try`/`catch`, so a failing read yields nothing and a failing write
  changes nothing.
- Timers are discrete transitions. Each `setTimeout` callback is its own
  method, and the pending callbacks are recorded in the state where the
  source inspects them later.
- The clock is a `nat`/`int` parameter.
- `fetch` is a parameter (`Reply<T> = Ok | HttpError | NetworkError | MalformedBody`).
- Events dispatched on `document` are appended to an `events` log field.

## Model

| member | source | states |
|---|---|---|
| Contact.IsValidEmail | assets/js/modules/contact.js:68-70 | The character-level rule: some `@` splits the address into a non-empty local part without whitespace or `@` and a domain of the same characters with a dot strictly inside it. |
| Contact.EmailPatternEquivalence | assets/js/modules/contact.js:68-70 | The character-level email check holds exactly when the address matches `^[^\s@]+@[^\s@]+\.[^\s@]+$`. The regex is stated as: the address splits as local@host.tld into non-empty parts that contain no whitespace and no `@`. |
| Contact.ValidEmailMatches | assets/js/modules/contact.js:68-70 | Every address the check accepts has such a local@host.tld split. |
| Contact.PatternPartsValid | assets/js/modules/contact.js:68-70 | Every local@host.tld built from non-empty parts free of whitespace and `@` is accepted. |
| Contact.ValidEmailShape | assets/js/modules/contact.js:68-70 | An accepted address contains exactly one `@` and no whitespace, and trimming leaves it unchanged. |
| Contact.EmailExamples | assets/js/modules/contact.js:69 | "foo", "foo@" and "foo@bar" are rejected; "a@b.co" is accepted. |
| Contact.TrimStart | assets/js/modules/contact.js:50-60 | The result is no longer than the input and does not start with whitespace. |
| Contact.TrimEnd | assets/js/modules/contact.js:50-60 | The result is no longer than the input and does not end with whitespace. A first visible character of the input is kept. |
| Contact.Trim | assets/js/modules/contact.js:50-60 | `trim()`: the result is no longer than the input and neither starts nor ends with whitespace. |
| Contact.TrimStartDrops | assets/js/modules/contact.js:50-60 | Trimming the front yields a suffix of the input, and every character it dropped is whitespace. |
| Contact.TrimEndDrops | assets/js/modules/contact.js:50-60 | Trimming the end yields a prefix of the input, and every character it dropped is whitespace. |
| Contact.TrimCuts | assets/js/modules/contact.js:50-60 | `trim()` yields a contiguous slice of the input with only whitespace before and after it. |
| Contact.TrimEmptyIffBlank | assets/js/modules/contact.js:50-60 | A trimmed field is empty exactly when the field has no visible character. So whitespace-only fields are rejected. |
| Contact.TrimStartBlank | assets/js/modules/contact.js:50-60 | Trimming the front empties a string exactly when it has no visible character. |
| Contact.ValidateForm | assets/js/modules/contact.js:49-66 | Acceptance holds iff the name is visible, the email is valid and the message is visible. Otherwise the rejection carries the message of the first failing rule, in the order name, email, message: each rejection holds iff the earlier rules pass and its own rule fails. |
| Contact.ValidationExamples | assets/js/modules/contact.js:49-66 | An empty or blank name, an invalid email and a blank message each get their own message; a good form is accepted. |
| Contact.ContactForm.constructor | assets/js/modules/contact.js:1-12 | Empty fields, nothing sent, button neither loading nor disabled, no inline display styles, message hidden with class `form-message`. Which of the message element, submit button, label and spinner exist is fixed. |
| Contact.ContactForm.ShowMessage | assets/js/modules/contact.js:90-100 | With a message element: sets its text, class `form-message <type>` and makes it visible. Without one: changes nothing. |
| Contact.ContactForm.HideMessage | assets/js/modules/contact.js:102-107 | With a message element: hidden, class reset. Without one: nothing changes. |
| Contact.ContactForm.SetLoadingState | assets/js/modules/contact.js:72-88 | With a submit button, its `loading` class and `disabled` attribute follow the argument. A present label is hidden while loading and shown inline after, and a present spinner the reverse (flex, then none). Without the button nothing on the page changes. Every call is logged. |
| Contact.ContactForm.SendAccepted | assets/js/modules/contact.js:34-46 | The `try`/`finally` part: one submission sent between loading on and off, then the success message and a cleared form, or the failure message and the form kept. |
| Contact.ContactForm.HandleSubmit | assets/js/modules/contact.js:23-47 | On a rejected form, nothing is sent, the button is untouched and the rule's message is shown as an error. On an accepted form, exactly one submission is made between a loading-on and a loading-off call, so a present button ends enabled, not loading, label inline and spinner hidden. On success the form is reset and the success message shown; on failure the form is kept and the failure message shown. |
| Language.IsValidLanguage | assets/js/modules/language.js:315-317 | A code is valid iff it is a locale of the loaded table. |
| Language.BuiltinLanguages | assets/js/modules/language.js:315-317 | With the built-in table, a language is valid iff it is "en" or "zh". |
| Language.ToggledInvolution | assets/js/modules/language.js:401-409 | On en/zh, toggling always changes the language, and toggling twice returns to it. |
| Language.Translation | assets/js/modules/language.js:445-447 | The stored string when the locale has a non-empty entry for the key. Otherwise the key itself, including for an unknown locale. |
| Language.Merged | assets/js/modules/language.js:449-455 | The locale is created if absent. Its keys are the old keys plus the new ones, and new strings win on clashes. Old keys not overridden and all other locales are unchanged. |
| Language.TranslationAfterMerge | assets/js/modules/language.js:449-455 | After a merge, a lookup in the merged locale of a merged key yields the new string (or the key if it is empty). Every other lookup is as before. |
| Language.DetectBrowserLanguage | assets/js/modules/language.js:310-313 | Always "en" or "zh". The result is "zh" iff the first truthy of `navigator.language` and `navigator.userLanguage` starts with "zh". |
| Language.InitialLanguage | assets/js/modules/language.js:288-300 | A truthy stored code that is a locale of the table wins. Otherwise the result is "en" or "zh" from the browser. |
| Language.InitialLanguageValid | assets/js/modules/language.js:288-300 | The initial language is valid. A stored "en"/"zh" wins; otherwise the browser locale decides. |
| Language.Rewritten | assets/js/modules/language.js:341-365 | A rewrite keeps the tag and both marks; an unmarked element, or any element under an empty locale, is unchanged. |
| Language.RewrittenParts | assets/js/modules/language.js:341-365 | An element whose key is missing or maps to "" keeps its content. A present key sets the placeholder of INPUT/TEXTAREA and the text of anything else. An aria key with a non-empty string sets aria-label and title. Tags and keys never change. |
| Language.RewriteLastLocaleWins | assets/js/modules/language.js:341-365 | Rewriting with one locale and then with another that has a non-empty string for each of the element's keys gives the same result as the second alone. |
| Language.LanguageManager.constructor | assets/js/modules/language.js:6-14 | Starts in "en" with no translations, nothing loaded and no events. |
| Language.LanguageManager.LoadTranslations | assets/js/modules/language.js:35-40 | The first call loads the built-in table. Later calls keep the loaded translations, which is the memoised promise. |
| Language.LanguageManager.UpdateContent | assets/js/modules/language.js:341-365 | Every page element is rewritten in place by the current locale's rule (two loops). |
| Language.LanguageManager.ApplyLanguage | assets/js/modules/language.js:319-331 | An invalid code changes nothing, neither the manager nor the page. A valid one sets the language, stores it, sets `lang`, updates the toggle label when there is a toggle, and rewrites every element. It also logs `language:changed` with `previousLanguage` equal to the opposite of the new language. |
| Language.LanguageManager.SetLanguage | assets/js/modules/language.js:437-443 | An invalid code changes nothing. A valid one becomes current and is stored; `lang` on the document and the toggle label follow it; every page element is rewritten by its strings; the change is announced with the other locale as previous. |
| Language.LanguageManager.Toggle | assets/js/modules/language.js:401-409 | Returns en→zh, anything else→en. When the returned language is valid it is applied with the same effects as `SetLanguage`; otherwise nothing changes. |
| Language.LanguageManager.ToggleTwice | assets/js/modules/language.js:401-409 | From en or zh, two toggles return to the original language and report first the other language, then the original. |
| Language.LanguageManager.AddTranslations | assets/js/modules/language.js:449-455 | The translations become `Merged` of the old ones. |
| Language.LanguageManager.LoadLanguage | assets/js/modules/language.js:288-300 | The current language becomes the initial language chosen from storage and browser. When valid it is stored, set on the document and the toggle, applied to every page element and announced; otherwise nothing else changes. |
| Language.LanguageManager.Start | assets/js/modules/language.js:21-33 | Loads the built-in table and applies the initial language, which is "en" or "zh". That language is stored, set on the document and the found toggle, applied to every page element and announced once. |
| Theme.ToggleAlternates | assets/js/modules/theme.js:147-155 | After n ≥ 1 toggles, the theme is dark or light by the parity of n and whether it started light. So toggling alternates strictly. |
| Theme.SystemTheme | assets/js/modules/theme.js:77-82 | Always "light" or "dark", and "dark" iff the system prefers dark. |
| Theme.MetaColor | assets/js/modules/theme.js:139-145 | The meta colour is #0f172a iff the theme is dark, and #0066cc otherwise. |
| Theme.ButtonLabel | assets/js/modules/theme.js:130-133 | For light or dark, the aria-label is "Switch to " followed by the theme a toggle leads to. |
| Theme.ButtonTitle | assets/js/modules/theme.js:135-136 | For light or dark, the title is 切換至, the Chinese name of the theme a toggle leads to, then 模式. |
| Theme.InitialTheme | assets/js/modules/theme.js:55-67 | The initial theme is either the stored theme or the system theme, and it is a known theme unless it is the system one. |
| Theme.InitialThemePrecedence | assets/js/modules/theme.js:55-82 | A stored known theme wins. Otherwise the theme is dark iff the system prefers dark. |
| Theme.WithThemeDistinct | assets/js/modules/theme.js:231-237 | `addTheme` keeps the list duplicate-free, contains the name afterwards, and keeps every old theme. |
| Theme.ThemeManager.constructor | assets/js/modules/theme.js:6-25 | Themes are ["light", "dark"] and the current theme is "light". The manager is not initialised, and one element lookup timer is pending. |
| Theme.ThemeManager.InitializeElements | assets/js/modules/theme.js:27-35 | Returns at once when initialised; otherwise schedules one more lookup. |
| Theme.ThemeManager.InitializeTimerFires | assets/js/modules/theme.js:31-52 | Records whether the button exists. Without it, a retry is scheduled and the theme, storage, `data-theme`, button text, meta colour and events are unchanged. With it, the manager is initialised and watches the system; the initial theme is current, in `data-theme` and stored, the button text and meta colour follow it, and it is announced once. |
| Theme.ThemeManager.FoundButton | assets/js/modules/theme.js:34-47 | With the button found: initialised and watching, with no timer added. The initial theme of the stored value and the system preference is current, in `data-theme` and stored; the button text and (with a meta tag) the meta colour follow it; exactly one `theme:changed` is logged. |
| Theme.ThemeManager.RetryTimerFires | assets/js/modules/theme.js:50 | A retry schedules a lookup only while not initialised. |
| Theme.ThemeManager.LoadTheme | assets/js/modules/theme.js:55-67 | Applies `InitialTheme` of the stored value and the system preference: it is current, in `data-theme` and stored, the button text and meta colour follow it, and it is announced. |
| Theme.ThemeManager.RecordTheme | assets/js/modules/theme.js:84-94 | The first half of `applyTheme`: `data-theme`, the current theme and the stored preference are the theme. |
| Theme.ThemeManager.ApplyTheme | assets/js/modules/theme.js:84-104 | Sets the current theme and `data-theme` and stores the theme. It updates the button's aria-label and title and the meta colour when those elements exist, and logs `theme:changed` with the opposite as previous theme. |
| Theme.ThemeManager.UpdateToggleButton | assets/js/modules/theme.js:114-137 | With a button, its aria-label and its title both follow the current theme. Without one, nothing changes. |
| Theme.ThemeManager.Toggle | assets/js/modules/theme.js:147-155 | light→dark, anything else→light, so the new theme always differs from the old. It becomes current, in `data-theme` and stored; the button text and meta colour follow it; it is announced. The initialised, watching and button flags and the timers are unchanged. |
| Theme.ThemeManager.SetTheme | assets/js/modules/theme.js:214-220 | A known theme becomes current, in `data-theme` and stored, with the button text and meta colour following it, and is announced. An unknown one changes nothing. The flags and timers are unchanged in both cases. |
| Theme.ThemeManager.AddTheme | assets/js/modules/theme.js:231-237 | The theme list becomes `WithTheme` of the old list. |
| Theme.ThemeManager.SystemThemeChanged | assets/js/modules/theme.js:183-196 | Only while watching and with no theme stored, the system theme becomes current, in `data-theme` and stored, with the button text and meta colour following it. Otherwise nothing changes. The flags and timers are unchanged. |
| Theme.ThemeManager.SystemChangeIgnoredOnceStored | assets/js/modules/theme.js:183-196 | With working storage, after any theme has been applied a system change is ignored. |
| GitHub.CacheLookup | assets/js/modules/github.js:123-129 | An entry is served iff it exists and is younger than 15 minutes, and then its data is served. |
| GitHub.Cached | assets/js/modules/github.js:131-136 | The key holds the data stamped with the time; every other key is kept. |
| GitHub.CacheRoundTrip | assets/js/modules/github.js:123-136 | Reading back a key just cached yields the data iff less than 15 minutes have passed. Every other key reads as before. |
| GitHub.ExpiredAtFifteenMinutes | assets/js/modules/github.js:123-129 | An entry exactly 900000 ms old is absent; one 899999 ms old is present. |
| GitHub.NonForks | assets/js/modules/github.js:53 | Exactly the non-fork repositories are kept, and never more than the input. |
| GitHub.NonForksAppend | assets/js/modules/github.js:53 | The filter distributes over concatenation, so the original order is kept. |
| GitHub.NonForksIdempotent | assets/js/modules/github.js:53 | Filtering twice is filtering once. |
| GitHub.NonForksOfForkFree | assets/js/modules/github.js:53 | A fork-free list is left exactly as it is. |
| GitHub.DisplayName | assets/js/modules/github.js:72 | The name when it is truthy, else the login. |
| GitHub.DisplayBio | assets/js/modules/github.js:73 | The bio when it is truthy, else "Passionate Software Engineer". |
| GitHub.RepoCard | assets/js/modules/github.js:90-112 | A card copies name, link, stars and forks. It shows the repository's language iff that is truthy. The description is the repository's when truthy, else "No description available". |
| GitHub.UserOutcome | assets/js/modules/github.js:31-42 | The fetch resolves iff a fresh cache entry exists or the reply is a 2xx that parsed. A fresh entry wins over the network. |
| GitHub.AfterUserFetch | assets/js/modules/github.js:31-42 | Only the user entry can change, and only on a cache miss with a good reply, which is then stored with its arrival time. |
| GitHub.ReposOutcome | assets/js/modules/github.js:44-56 | As for the user; a network answer is reduced to its non-forks. |
| GitHub.AfterReposFetch | assets/js/modules/github.js:44-56 | Only the repositories entry can change, and only on a cache miss with a good reply, whose non-forks are then stored. |
| GitHub.ReposOutcomeForkFree | assets/js/modules/github.js:44-56 | If the cached repositories are fork-free, so is every fetched list and the cache afterwards. |
| GitHub.RefetchServedFromCache | assets/js/modules/github.js:44-56 | Within 15 minutes of a successful fetch, the next fetch returns the same list from the cache and leaves the cache unchanged, whatever the server would answer. |
| GitHub.GitHubManager.constructor | assets/js/modules/github.js:6-11 | Empty cache, no requests, nothing shown. |
| GitHub.GitHubManager.SetCache | assets/js/modules/github.js:131-136 | Only the given key is overwritten, with the data and the time. |
| GitHub.GitHubManager.FetchUserData | assets/js/modules/github.js:31-42 | A cache hit returns the cached data without a request. Otherwise one request is made, and only an ok, well-formed reply is cached and returned. |
| GitHub.GitHubManager.FetchRepositories | assets/js/modules/github.js:44-56 | As for the user, with the returned and cached list fork-free. |
| GitHub.GitHubManager.UpdateUserInfo | assets/js/modules/github.js:63-77 | Each profile element that exists shows its field, using the name and bio fallbacks. |
| GitHub.GitHubManager.UpdateRepositories | assets/js/modules/github.js:79-88 | With a grid, one card per repository in order; without one, nothing changes. |
| GitHub.GitHubManager.ShowErrorState | assets/js/modules/github.js:114-120 | With a bio element, it shows the error text with the error style. |
| GitHub.GitHubManager.FetchBoth | assets/js/modules/github.js:19-22 | Each fetch is answered as if alone: the outcomes are `UserOutcome` and `ReposOutcome` of the old cache, the cache is both updates, and the request log gains exactly the two missed URLs in order. |
| GitHub.GitHubManager.UpdateUI | assets/js/modules/github.js:58-61 | Each present profile element shows its field of the user and absent ones are untouched; a present grid holds one card per repository in order, none a fork, and without a grid the cards are untouched. |
| GitHub.GitHubManager.LoadGitHubData | assets/js/modules/github.js:17-29 | Both fetches are issued, and the cache is the result of both. The request log gains the user URL, then the repositories URL, each only on a cache miss. When both succeed, each present profile element shows its field, a present grid holds one fork-free card per repository, and absent elements keep their old state. Otherwise only a present bio changes, to the error text; the profile, counts and cards are untouched. |
| Portfolio.SplitFrom | assets/js/modules/portfolio.js:34 | `split(' ')` always yields at least one part. |
| Portfolio.JoinSplit | assets/js/modules/portfolio.js:34 | Splitting on spaces yields space-free parts that join back to the input. |
| Portfolio.SplitJoin | assets/js/modules/portfolio.js:34 | Joining space-free parts and splitting gives the parts back. |
| Portfolio.Shows | assets/js/modules/portfolio.js:34-35 | An item shows iff the filter is "all" or one of the space-separated tokens of its `data-category`. |
| Portfolio.ShowsIffAmongWords | assets/js/modules/portfolio.js:34-35 | An item with categories w1 … wn is shown iff the filter is "all" or one of the wi. |
| Portfolio.ShowsEdgeCases | assets/js/modules/portfolio.js:34-35 | An item without `data-category` is shown only for "all"; "all" shows everything; a filter containing a space shows nothing. |
| Portfolio.Filtered | assets/js/modules/portfolio.js:37-46 | One item after filtering; its contract is stated by `FilteredMarks`. |
| Portfolio.FilteredMarks | assets/js/modules/portfolio.js:37-46 | A shown item loses `filtered-out` and becomes display block. A hidden one gains `filtered-out` and keeps its display for now. |
| Portfolio.HiddenBelow | assets/js/modules/portfolio.js:41-46 | The hide timers scheduled among the first n items are increasing indices below n. |
| Portfolio.HiddenBelowExactly | assets/js/modules/portfolio.js:41-46 | An index has a hide timer iff it is below n and its item is not shown. |
| Portfolio.PortfolioManager.constructor | assets/js/modules/portfolio.js:1-14 | The filter starts as "all", with no hide timers pending. |
| Portfolio.PortfolioManager.SetActiveFilter | assets/js/modules/portfolio.js:26-30 | Exactly the clicked button is active, and the current filter is set. |
| Portfolio.PortfolioManager.FilterItem | assets/js/modules/portfolio.js:33-47 | One item is marked by the filter and the rest are untouched. It reports whether a hide timer is needed. |
| Portfolio.PortfolioManager.FilterPortfolio | assets/js/modules/portfolio.js:32-49 | Every item is marked by the filter, and hide timers are scheduled for exactly the hidden items, in order. |
| Portfolio.PortfolioManager.ClickFilter | assets/js/modules/portfolio.js:16-24 | A filter click activates the button, sets the filter and filters every item. |
| Portfolio.PortfolioManager.HideTimerFires | assets/js/modules/portfolio.js:42-46 | A hide timer sets display none only if the item is still `filtered-out`, and touches nothing else. |
| Portfolio.TabId | assets/js/modules/portfolio.js:57-66 | The id is the target followed by "-tab", with "null" for a missing `data-tab`; dropping "-tab" gives the target back. |
| Portfolio.PortfolioManager.ClickTab | assets/js/modules/portfolio.js:55-70 | Exactly the clicked tab is active, and exactly the contents whose id is its `data-tab` plus "-tab". |
| Portfolio.ReshowCancelsHide | assets/js/modules/portfolio.js:41-46 | Hiding an item and re-showing it before the timer fires leaves it shown after the timer fires. |
| Animations.Prefix | assets/js/modules/animations.js:55-61 | `substring(0, k)`: a prefix of the text whose length is k clamped to the text's bounds. |
| Animations.TypeStep | assets/js/modules/animations.js:51-76 | One step shows the prefix one longer (typing) or one shorter (deleting). At the full phrase it switches to deleting after 1500 ms. At 0 it switches to typing and moves to the next phrase modulo the count, after 500 ms. Otherwise the delay is 100 or 50 ms. The phrase index stays in bounds. |
| Animations.StepKeepsInvariant | assets/js/modules/animations.js:51-76 | With non-empty phrases, a step keeps 0 ≤ chars ≤ phrase length, and the text shown is the prefix of that length. |
| Animations.Steps | assets/js/modules/animations.js:51-76 | After any number of steps the phrase index is in bounds. |
| Animations.StepsAdd | assets/js/modules/animations.js:75 | Running a+b steps is running a steps, then b. |
| Animations.StepsKeepInvariant | assets/js/modules/animations.js:51-76 | The invariant holds after any number of steps. |
| Animations.TypingRun | assets/js/modules/animations.js:65-67 | From a typing state, the remaining characters are typed and the typewriter then switches to deleting. |
| Animations.DeletingRun | assets/js/modules/animations.js:68-72 | From a deleting state, the text is erased and the next phrase begins. |
| Animations.FullCycle | assets/js/modules/animations.js:51-76 | From an empty phrase p, 2·|p| steps reach the empty next phrase. |
| Animations.SitePhrases | assets/js/modules/animations.js:4-7 | Both phrase lists have four non-empty phrases, and the start state satisfies the invariant. |
| Animations.PastEndTypesForever | assets/js/modules/animations.js:51-76 | A typing state past the end of its phrase never deletes. It shows the whole phrase every 100 ms forever. |
| Animations.SwitchWhileTypingSticks | assets/js/modules/animations.js:145-151 | A switch to zh after 10 characters of the first en phrase leaves a state past the end of the zh phrase. That state types forever. |
| Animations.Typewriter.constructor | assets/js/modules/animations.js:43-49 | "en", the start state, not running, nothing shown. |
| Animations.Typewriter.LoadingComplete | assets/js/modules/animations.js:78-81 | With the element, `loading:complete` starts the loop from the start state. |
| Animations.Typewriter.Type | assets/js/modules/animations.js:51-76 | Callable on any running loop with an in-range phrase index, also after a language switch broke the invariant. A step advances by `TypeStep` on the current language's phrases, and it keeps the invariant when that held. A language without phrases throws, which ends the loop. |
| Animations.Typewriter.LanguageChangedAsWritten | assets/js/modules/animations.js:145-162 | The listener switches the language and blanks the element but leaves the running state alone. |
| Animations.Typewriter.LanguageChanged | assets/js/modules/animations.js:145-162 | The corrected listener also restarts the state, so the invariant holds for the new phrases. |
| Animations.SwitchMidPhraseAsWritten | assets/js/modules/animations.js:145-162 | A switch to zh 10 characters into the first en phrase, followed by one run of `type`, leaves 11 characters of the 8-character zh phrase, shows it whole, types on after 100 ms and breaks the invariant. |
| Animations.CounterObserver.constructor | assets/js/modules/animations.js:110-126 | Every counter is observed and none is animated. |
| Animations.CounterObserver.Deliver | assets/js/modules/animations.js:113-120 | An intersecting counter is animated and unobserved; a non-intersecting one changes nothing. |
| Animations.AnimatedAtMostOnce | assets/js/modules/animations.js:115-118 | Each counter is animated at most once. |
| Navigation.HrefTarget | assets/js/modules/navigation.js:242-246 | Only hrefs starting with `#` scroll, to the href without its first character. |
| Navigation.IsActiveLink | assets/js/modules/navigation.js:228-237 | A link is active iff its href is `#` followed by the current section. |
| Navigation.ActiveIffTarget | assets/js/modules/navigation.js:228-237 | A link is active iff its href is `#` + the current section. |
| Navigation.ScrollTarget | assets/js/modules/navigation.js:252-257 | No target without the section. Otherwise the target is offsetTop − navHeight − 20, with navHeight 0 without a nav. |
| Navigation.TrapKey | assets/js/modules/navigation.js:139-153 | Focus moves iff the key is Tab and either Shift is held on the first item or Shift is not held on the last. It moves to the last item or the first, respectively. |
| Navigation.TrapWraps | assets/js/modules/navigation.js:139-153 | Shift+Tab on the first wraps to the last, and Tab on the last wraps to the first. Every other key or position is left alone. |
| Navigation.NavigationManager.constructor | assets/js/modules/navigation.js:6-31 | Menu closed, section "header", no trap, no scrolls. No section id is empty, because `getElementById("")` finds nothing. |
| Navigation.NavigationManager.OpenMenu | assets/js/modules/navigation.js:89-107 | Without a menu, nothing changes. With one, the menu opens, body scroll is blocked, ARIA is updated, and the first item is focused and trapped when there is one. |
| Navigation.NavigationManager.Opened | assets/js/modules/navigation.js:89-107 | The menu state after opening: open and active, `aria-hidden` "false", body overflow "hidden", toggle `aria-expanded` "true" when the toggle exists, and the first item focused and trapped when there is one. |
| Navigation.NavigationManager.CloseMenuAsWritten | assets/js/modules/navigation.js:109-124 | Only an existing open menu closes, restoring ARIA and scroll. The focus trap is left installed. |
| Navigation.NavigationManager.CloseMenu | assets/js/modules/navigation.js:109-124 | As above, and the trap is removed, so the trap never outlives the menu. |
| Navigation.NavigationManager.Closed | assets/js/modules/navigation.js:109-124 | The menu state after closing: closed and inactive, `aria-hidden` "true", body overflow "", toggle `aria-expanded` "false" and focus on the toggle when it exists, and no trap. |
| Navigation.NavigationManager.ToggleMenu | assets/js/modules/navigation.js:81-87 | With a menu, an open menu ends in `Closed` and a closed one in `Opened` of the old state; without one, nothing changes. Links, section and scrolls are unchanged. |
| Navigation.NavigationManager.KeyDown | assets/js/modules/navigation.js:57-61 | Escape on an open menu ends in `Closed` and moves no focus. Otherwise only focus changes, and an installed trap moves it exactly as `TrapKey` says. With the corrected close, a trap is installed only while the menu is open. |
| Navigation.NavigationManager.DocumentClick | assets/js/modules/navigation.js:48-54 | A click outside the menu and the toggle turns an open menu into `Closed`. Any other click changes nothing. |
| Navigation.NavigationManager.HandleResize | assets/js/modules/navigation.js:198-203 | The menu ends in `Closed` iff the width exceeds 768 and it was open. Otherwise nothing changes. |
| Navigation.NavigationManager.UpdateActiveLink | assets/js/modules/navigation.js:228-237 | Every link is active iff its href is `#` + the current section. |
| Navigation.NavigationManager.HandleScroll | assets/js/modules/navigation.js:182-196 | With a nav, `scrolled` iff scrollY > 100. Each link keeps its href, and it is active iff the href is `#` + the current section. The menu state is unchanged. |
| Navigation.NavigationManager.SectionIntersects | assets/js/modules/navigation.js:210-217 | The intersecting section becomes current and the links follow it. |
| Navigation.NavigationManager.ScrollToSection | assets/js/modules/navigation.js:252-268 | An unknown id does nothing. A known id scrolls to `ScrollTarget` and pushes its hash. |
| Navigation.NavigationManager.ClickLink | assets/js/modules/navigation.js:239-249 | A click turns an open menu into `Closed`, through the listener at lines 63-68. When the href is a known `#` id, the page scrolls to `ScrollTarget` and the href is pushed as the hash. Otherwise no scroll and no hash. |
| Navigation.TrapOutlivesMenuAsWritten | assets/js/modules/navigation.js:126-164 | With the as-written close, Tab on the last item still moves focus after the menu has closed. |
| Navigation.ClosedMenuTrapsNothing | assets/js/modules/navigation.js:126-164 | With the corrected close, no key moves focus after the menu has closed. |
| Loading.StepsClimbToHundred | assets/js/modules/loading.js:12-18 | The step progress values strictly increase within (0, 100], and each step has text. The last step is 100 "Almost ready...". |
| Loading.LoadingManager.constructor | assets/js/modules/loading.js:6-20 | Loading, progress 0, no elements, no events. |
| Loading.LoadingManager.InitElements | assets/js/modules/loading.js:28-32 | Records which elements exist. |
| Loading.LoadingManager.UpdateProgress | assets/js/modules/loading.js:41-55 | Progress is set whether or not the bar exists. The bar follows when present, and the text changes only with a text element and non-empty text. |
| Loading.LoadingManager.SimulateLoading | assets/js/modules/loading.js:34-39 | The progress values observed are the steps' values in order, ending at 100. The bar and text end at the last step when present. |
| Loading.LoadingManager.HideLoadingScreen | assets/js/modules/loading.js:57-78 | Without the screen, nothing changes. With it, the screen is hidden, scrolling restored, loading ended and `loading:complete` sent once. |
| Loading.LoadingManager.Start | assets/js/modules/loading.js:22-26 | Progress is observed as 20, 40, 60, 80, 100. A present bar ends at width 100 and a present text at "Almost ready...". Iff the screen exists, it is hidden, body overflow is "auto", loading ends and `loading:complete` is sent once. |
| App.NameLeadsBack | assets/js/main.js:50-60 | The name a manager is registered under leads back to it. |
| App.KeyInjective | assets/js/main.js:50-60 | Distinct managers have distinct names. |
| App.Lookup | assets/js/main.js:90-92 | A manager is found iff its name is registered, and it is the registered one with that name. |
| App.Names | assets/js/main.js:121 | The registered names, in registration order. |
| App.InitCallsMembers | assets/js/main.js:79-87 | The second loop of `start` calls `init` on exactly the registered, non-async managers that have one, and starts nothing. |
| App.FailuresMembers | assets/js/main.js:67-87 | A warning is logged exactly for each call that throws. |
| App.StartOrder | assets/js/main.js:65-76 | The async managers are started in the order github, loading, language. |
| App.InitOrder | assets/js/main.js:79-87 | Then theme, navigation, scroll, animations, portfolio and contact are initialised, in that order. |
| App.FullRun | assets/js/main.js:63-88 | `start` makes exactly those nine calls, in that order. |
| App.RegistrationNames | assets/js/main.js:48-61 | The nine names in registration order. |
| App.KeyLookup | assets/js/main.js:90-92 | Looking up a manager's name yields it iff it is registered. |
| App.PortfolioApp.constructor | assets/js/main.js:17-22 | Nothing registered, not initialised, no calls, warnings or events. |
| App.PortfolioApp.GetManager | assets/js/main.js:90-92 | The manager registered under the name, if any. |
| App.PortfolioApp.Debug | assets/js/main.js:118-124 | The registered names in order, the initialised flag and version "2.0.0". |
| App.PortfolioApp.ManagerFor | assets/js/main.js:68 | `managers.get`: the manager iff it is registered. |
| App.PortfolioApp.InitializeManagers | assets/js/main.js:48-61 | All nine managers are registered in order, unless a constructor throws. Then only those before it are registered, and the failure is reported. |
| App.PortfolioApp.StartAsyncManagers | assets/js/main.js:67-76 | Each registered async manager is started in order. A throwing start is logged and the rest still run. |
| App.PortfolioApp.InitRemainingManagers | assets/js/main.js:79-87 | `init` is called on each registered non-async manager that has one, in order. A throwing init is logged and the rest still run. |
| App.PortfolioApp.Start | assets/js/main.js:63-88 | The starts, then the inits. The warnings are the failures of both. |
| App.PortfolioApp.Launch | assets/js/main.js:37 | From no calls, `start`'s calls are recorded, and the warnings are exactly their failures. |
| App.PortfolioApp.Init | assets/js/main.js:24-61 | The app is initialised iff no constructor throws, whatever `start` or `init` calls throw. Then all nine managers are registered, `start` has run in full and `app:initialized` is sent. Otherwise the managers registered before the failing one stay registered, and `debug()` lists them. Nothing has started and the fallback is shown iff the loading screen exists. |
| Storage.Store.Get | assets/js/modules/theme.js:68-74 | A read yields a value iff storage is readable and holds the key, and then the stored value. |
| Storage.Store.Set | assets/js/modules/theme.js:106-112 | A write keeps both flags. When writable, the key holds the value and no other key appears; otherwise nothing changes. |
| App.StorageGet | assets/js/main.js:197-204 | The default when the item is missing, empty or unreadable, or fails to parse. Otherwise the parsed value. |
| App.StorageSet | assets/js/main.js:206-213 | Succeeds iff storage is writable, storing the serialised value. |
| App.StorageRemove | assets/js/main.js:215-222 | Succeeds iff storage is writable, removing exactly that key and keeping every other item and both flags. A failure changes nothing. |
| App.StorageRoundTrip | assets/js/main.js:196-223 | With working storage, a stored value is read back, and after removal the default is read. |

## Left out

- `assets/js/modules/scroll.js` is not part of this model. Its only computation is a floating-point scroll percentage; the rest is CSS class toggling.
- Network and rendering are left out: `fetch`, JSON decoding, the HTML template strings of the repository cards and `toLocaleDateString`. A fetch is a `Reply` parameter, and a card is the record of the values the template shows.
- Timer pacing is left out: delays, the random 400–600 ms loading delay, `throttle` and `debounce`. Each callback is a separate transition, and the delays are reported as values where the source computes them (the typewriter).
- Promise interleaving is left out. `Promise.all` in `loadGitHubData` is modelled as the user fetch followed by the repositories fetch. Both run to completion, as in the source, so the repositories can be cached even when the user fetch fails.
- `animateCounter` is left out: a floating-point increment and `Math.floor` whose only effect is the digits shown while counting up. The model records which counters were animated.
- Element reveal animations are left out: the scroll-reveal and skill-card observers, `animateMenuItems`, and CSS transitions. They only set inline styles.
- IntersectionObserver geometry, `matchMedia`, `focus()` and `history.pushState` are inputs or logs. Which section intersects, whether the system prefers dark, which element is focused, and which hash was pushed are parameters or fields.
- Console output is left out: every `console.*` call, and the `trackThemeUsage` log.
- The debug helpers `testTheme` and `forceThemeInit` are left out, as are the read-only getters `getLanguageStats`, `isLoadingState`, `getProgress`, `getCurrentSection`, `isMenuOpenState`, `getCurrentTheme`, `isDark` and `isLight`.
- `utils.debounce`, `throttle`, `$`, `$$`, `animate`, `delegate`, `createObserver`, `measurePerformance` and `lazyLoad` in `assets/js/main.js` are left out. They are DOM and timing helpers that none of the modelled rules use.
- The listeners a second `init()` call adds are left out. `PortfolioApp.start` calls `init` again on managers whose constructors already called it. The model records those calls, and the theme manager's second element lookup timer, but each page event reaches one handler. In the source the duplicates are not harmless:
  - the nav toggle's click listener (`assets/js/modules/navigation.js:36`) runs `toggleMenu` twice, so a click opens and at once closes the menu;
  - the form's submit listener (`assets/js/modules/contact.js:17`) runs `handleSubmit` twice, so an accepted form is sent twice;
  - the smooth-scroll link listeners (`assets/js/modules/navigation.js:239-249`) scroll and push the hash twice;
  - `setupCounters` (`assets/js/modules/animations.js:110`) creates a second observer, which animates each counter again.
- Animations.AnimatedAtMostOnce: holds per observer. With the second `init()`, a counter can be animated once by each of the two observers.
- The keyboard shortcuts are left out: the wiring that calls `toggle` for the theme and language switches on a key combination. `Toggle` itself is modelled.
- Waiting for `DOMContentLoaded` is left out; the model starts from a ready document.
- Language.BuiltinTable: the translation table holds only a few entries of each locale. Its keys (en, zh) and the lookup rules are exact, but the full text is not copied.
- Language.ToggleLabel: the toggle's label is one string per language. The markup details of `updateLanguageToggle` are not modelled.
- Animations.Typewriter.LoadingComplete: requires that the loop is not yet running. A second `loading:complete` would start a second loop in the source; the model keeps one loop.
- Animations.CounterObserver.Deliver: the observer is delivered one entry at a time. A batch of entries is a sequence of these calls.
- Contact.ContactForm.HandleSubmit: the simulated 1.5-second submission (`simulateSubmission`, contact.js:108-116) always succeeds as written. The model takes a parameter saying whether it throws. The throwing case is one the current source cannot produce, but its `catch` path (contact.js:41-43) is written for it. The delay is not modelled.
- Contact.FormData: the form is taken to have the three named fields. On a form without one, `formData.get` returns `null` and `trim()` (contact.js:50) throws outside the `try`, so no message is shown; the model's fields are strings and cannot be missing.
- App.PortfolioApp.Init: requires a freshly constructed app. A throwing constructor is a parameter saying which registration fails; the thrown error itself is not modelled.
- App.PortfolioApp.InitializeManagers: records the registered names, not the manager objects. Each manager's own construction is modelled in its own module.
- Navigation.NavigationManager.ToggleMenu: closes through the corrected `CloseMenu`, which also removes the focus trap; the source's close keeps it (see Findings).
- Navigation.NavigationManager.KeyDown: closes through the corrected `CloseMenu`. With the source's close, a trap installed by an earlier open still moves focus after the menu has closed.
- Navigation.NavigationManager.DocumentClick: closes through the corrected `CloseMenu`.
- Navigation.NavigationManager.HandleResize: closes through the corrected `CloseMenu`.
- Navigation.NavigationManager.ClickLink: closes through the corrected `CloseMenu`.
- Language.Translation: a locale table is a map of its own keys. The source's `translations[language]?.[key]` also finds names inherited from `Object.prototype`, so `getTranslation('constructor')` yields a function rather than the key.
- Language.Merged: for the same reason, `addTranslations('constructor', …)` in the source finds an existing "locale" and assigns the strings onto the `Object` function; the model creates a new locale.
- Theme.ThemeManager.UpdateToggleButton: the reset of the icons' inline `opacity` and `transform` styles (lines 122-128) is not modelled; those only hand the transition to CSS.
- Storage values are strings, and `JSON.parse`/`JSON.stringify` in `utils.storage` are function parameters (`parse`, `serialise`). A parse failure is `None`.

## Findings

| source | as written | input that shows it | evidently intended | confidence | as-written member | corrected member |
|---|---|---|---|---|---|---|
| assets/js/modules/animations.js:145-162 | The `language:changed` listener switches `currentLanguage` and blanks the element. The running `type` loop keeps its character count and phrase index. `restartTypewriter` only registers another `loading:complete` listener, which never fires again. The next step reads the new phrase with the old count, and `currentChar === text.length` can then never become true. | While "Chen From Taiwan" is typed up to 10 characters, switch to zh. The zh phrase "來自台灣的陳韻帆" has 8 characters, so the count goes 11, 12, … The typewriter shows the whole phrase every 100 ms and never deletes or moves on. | A language switch restarts the typewriter from the first phrase with nothing shown. | not executed | Animations.Typewriter.LanguageChangedAsWritten, Animations.SwitchMidPhraseAsWritten, Animations.SwitchWhileTypingSticks, Animations.PastEndTypesForever | Animations.Typewriter.LanguageChanged |
| assets/js/modules/navigation.js:126-164 | `trapFocus` removes its Tab handler only on a `menu:closed` event. `closeMenu` (lines 109-124) never dispatches that event, and nothing else does either, so every handler installed by `openMenu` stays after the menu closes. | Open the menu, close it with Escape, focus the last menu link and press Tab. Focus jumps to the first link of the closed, hidden menu. | The focus trap ends when the menu closes. | not executed | Navigation.NavigationManager.CloseMenuAsWritten, Navigation.TrapOutlivesMenuAsWritten | Navigation.NavigationManager.CloseMenu, Navigation.ClosedMenuTrapsNothing |
