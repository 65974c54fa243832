/** The application shell (assets/js/main.js): managers are registered in a
    fixed order, the asynchronous ones are started one after another, the
    others are initialised, and a failure of one manager does not stop the
    rest. Also the `utils.storage` helpers. */
module App {
  import opened Wrappers
  import opened Storage

  /** The managers the application registers, one per class. */
  datatype Kind = LoadingKind | ThemeKind | LanguageKind | NavigationKind | ScrollKind
                | AnimationKind | PortfolioKind | GitHubKind | ContactKind

  /** The name each manager is registered under. */
  function Key(k: Kind): string {
    match k
    case LoadingKind => "loading"
    case ThemeKind => "theme"
    case LanguageKind => "language"
    case NavigationKind => "navigation"
    case ScrollKind => "scroll"
    case AnimationKind => "animations"
    case PortfolioKind => "portfolio"
    case GitHubKind => "github"
    case ContactKind => "contact"
  }

  /** The manager registered under a name, by its name alone. */
  function KindNamed(name: string): Option<Kind> {
    if name == "loading" then Some(LoadingKind)
    else if name == "theme" then Some(ThemeKind)
    else if name == "language" then Some(LanguageKind)
    else if name == "navigation" then Some(NavigationKind)
    else if name == "scroll" then Some(ScrollKind)
    else if name == "animations" then Some(AnimationKind)
    else if name == "portfolio" then Some(PortfolioKind)
    else if name == "github" then Some(GitHubKind)
    else if name == "contact" then Some(ContactKind)
    else None
  }

  /** The name of a manager leads back to it. */
  lemma NameLeadsBack(k: Kind)
    ensures KindNamed(Key(k)) == Some(k)
  {
    match k
    case LoadingKind =>
    case ThemeKind =>
    case LanguageKind =>
    case NavigationKind =>
    case ScrollKind =>
    case AnimationKind =>
    case PortfolioKind =>
    case GitHubKind =>
    case ContactKind =>
  }

  /** So names identify managers: comparing names is comparing managers. */
  lemma KeyInjective(a: Kind, b: Kind)
    ensures Key(a) == Key(b) <==> a == b
  {
    NameLeadsBack(a);
    NameLeadsBack(b);
  }

  /** `initializeManagers`: the managers in registration order. */
  const Registration: seq<Kind> := [LoadingKind, ThemeKind, LanguageKind, NavigationKind, ScrollKind,
                                    AnimationKind, PortfolioKind, GitHubKind, ContactKind]

  /** `asyncManagers`: the managers `start` awaits, in this order. */
  const AsyncManagers: seq<Kind> := [GitHubKind, LoadingKind, LanguageKind]

  /** The classes with a `start` method and those with an `init` method. */
  predicate HasStart(k: Kind) {
    k == LoadingKind || k == LanguageKind || k == GitHubKind
  }

  predicate HasInit(k: Kind) {
    k != LoadingKind && k != GitHubKind
  }

  /** `managers.get(name)`: the registered manager with that name. */
  function Lookup(regs: seq<Kind>, name: string): (r: Option<Kind>)
    ensures r.Some? <==> name in Names(regs)
    ensures r.Some? ==> r.value in regs && Key(r.value) == name
  {
    if regs == [] then None
    else if Key(regs[0]) == name then Some(regs[0])
    else Lookup(regs[1..], name)
  }

  /** `Array.from(managers.keys())`. */
  function Names(regs: seq<Kind>): (r: seq<string>)
    ensures |r| == |regs| && forall i :: 0 <= i < |regs| ==> r[i] == Key(regs[i])
  {
    if regs == [] then [] else [Key(regs[0])] + Names(regs[1..])
  }

  /** A call the application makes on a manager. */
  datatype Call = Started(manager: Kind) | Initialised(manager: Kind)

  /** The `start` calls of the first loop over the first `n` names: those
      that are registered and have a `start` method, in the listed order. */
  function StartCalls(regs: seq<Kind>, names: seq<Kind>, n: nat): seq<Call>
    requires n <= |names|
  {
    if n == 0 then []
    else StartCalls(regs, names, n - 1) + (if names[n - 1] in regs && HasStart(names[n - 1]) then [Started(names[n - 1])] else [])
  }

  /** The `init` calls of the second loop over the first `n` registered
      managers: those not in the asynchronous list that have an `init`
      method, in registration order. */
  function InitCalls(regs: seq<Kind>, n: nat): seq<Call>
    requires n <= |regs|
  {
    if n == 0 then []
    else InitCalls(regs, n - 1) + (if regs[n - 1] !in AsyncManagers && HasInit(regs[n - 1]) then [Initialised(regs[n - 1])] else [])
  }

  /** Which registered managers the second loop initialises: exactly those
      outside the asynchronous list with an `init` method, and it starts none. */
  lemma {:induction false} InitCallsMembers(regs: seq<Kind>, n: nat, k: Kind)
    requires n <= |regs|
    ensures Initialised(k) in InitCalls(regs, n) <==> k in regs[..n] && k !in AsyncManagers && HasInit(k)
    ensures Started(k) !in InitCalls(regs, n)
  {
    if n > 0 {
      InitCallsMembers(regs, n - 1, k);
      assert regs[..n] == regs[..n - 1] + [regs[n - 1]];
    }
  }

  /** Whether call `c` throws. */
  predicate Throws(c: Call, startThrows: set<Kind>, initThrows: set<Kind>) {
    (c.Started? && c.manager in startThrows) || (c.Initialised? && c.manager in initThrows)
  }

  /** The managers of the calls among `calls` that throw, in order. */
  function Failures(calls: seq<Call>, startThrows: set<Kind>, initThrows: set<Kind>): seq<Kind> {
    if calls == [] then []
    else
      var c := calls[|calls| - 1];
      Failures(calls[..|calls| - 1], startThrows, initThrows)
      + (if Throws(c, startThrows, initThrows) then [c.manager] else [])
  }

  /** One more call logs one more failure exactly when it throws. */
  lemma FailuresSnoc(calls: seq<Call>, c: Call, startThrows: set<Kind>, initThrows: set<Kind>)
    ensures Failures(calls + [c], startThrows, initThrows)
            == Failures(calls, startThrows, initThrows) + (if Throws(c, startThrows, initThrows) then [c.manager] else [])
  {
    assert (calls + [c])[..|calls|] == calls;
  }

  /** A failure is logged for each call that throws and for nothing else. */
  lemma {:induction false} FailuresMembers(calls: seq<Call>, startThrows: set<Kind>, initThrows: set<Kind>, k: Kind)
    ensures k in Failures(calls, startThrows, initThrows) <==>
              (Started(k) in calls && k in startThrows) || (Initialised(k) in calls && k in initThrows)
  {
    if calls != [] {
      var front := calls[..|calls| - 1];
      FailuresMembers(front, startThrows, initThrows, k);
      assert calls == front + [calls[|calls| - 1]];
    }
  }

  /** With every manager registered, the first loop of `start` starts
      github, loading and language, in that order. */
  lemma StartOrder()
    ensures StartCalls(Registration, AsyncManagers, 3) ==
              [Started(GitHubKind), Started(LoadingKind), Started(LanguageKind)]
  {
  }

  /** With every manager registered, the second loop of `start`
      initialises theme, navigation, scroll, animations, portfolio and
      contact, in registration order. */
  lemma InitOrder()
    ensures InitCalls(Registration, 9) ==
              [Initialised(ThemeKind), Initialised(NavigationKind), Initialised(ScrollKind),
               Initialised(AnimationKind), Initialised(PortfolioKind), Initialised(ContactKind)]
  {
    assert InitCalls(Registration, 3) == [Initialised(ThemeKind)];
    assert InitCalls(Registration, 6) == [Initialised(ThemeKind), Initialised(NavigationKind), Initialised(ScrollKind),
                                          Initialised(AnimationKind)];
  }

  /** With every manager registered, `start` makes these calls, in this order. */
  lemma FullRun()
    ensures StartCalls(Registration, AsyncManagers, |AsyncManagers|) + InitCalls(Registration, |Registration|)
            == [Started(GitHubKind), Started(LoadingKind), Started(LanguageKind),
                Initialised(ThemeKind), Initialised(NavigationKind), Initialised(ScrollKind),
                Initialised(AnimationKind), Initialised(PortfolioKind), Initialised(ContactKind)]
  {
    StartOrder();
    InitOrder();
  }

  /** The names `debug()` reports once every manager is registered. */
  lemma RegistrationNames()
    ensures Names(Registration) == ["loading", "theme", "language", "navigation", "scroll",
                                    "animations", "portfolio", "github", "contact"]
  {
  }

  /** Looking a manager up by its name finds it exactly when it is registered. */
  lemma {:induction false} KeyLookup(regs: seq<Kind>, k: Kind)
    ensures Lookup(regs, Key(k)) == if k in regs then Some(k) else None
  {
    if regs != [] {
      KeyInjective(regs[0], k);
      KeyLookup(regs[1..], k);
    }
  }

  /** What `debug()` returns. */
  datatype DebugInfo = DebugInfo(isInitialized: bool, managers: seq<string>, version: string)

  class PortfolioApp {
    /** The `managers` map, in insertion order. */
    var registered: seq<Kind>
    var isInitialized: bool
    /** Every `start`/`init` call made on a manager, in order. */
    var calls: seq<Call>
    /** The managers whose `start` or `init` threw (and were logged), in order. */
    var warnings: seq<Kind>
    /** Whether the loading screen shows the failure message. */
    var fallbackShown: bool
    /** The events the application dispatched. */
    var events: seq<string>

    /** The constructor; it goes on with `Init`. */
    constructor ()
      ensures registered == [] && !isInitialized && calls == [] && warnings == [] && !fallbackShown && events == []
    {
      registered := [];
      isInitialized := false;
      calls := [];
      warnings := [];
      fallbackShown := false;
      events := [];
    }

    /** `getManager`: the manager registered under `name`, if any. */
    function GetManager(name: string): (r: Option<Kind>)
      reads this
      ensures r.Some? <==> name in Names(registered)
      ensures r.Some? ==> r.value in registered && Key(r.value) == name
    {
      Lookup(registered, name)
    }

    /** `debug()`. */
    function Debug(): (r: DebugInfo)
      reads this
      ensures r.managers == Names(registered) && r.isInitialized == isInitialized && r.version == "2.0.0"
    {
      DebugInfo(isInitialized, Names(registered), "2.0.0")
    }

    /** `this.managers.get(name)` for the name of manager `k`. */
    method ManagerFor(k: Kind) returns (m: Option<Kind>)
      ensures m == if k in registered then Some(k) else None
    {
      m := Lookup(registered, Key(k));
      KeyLookup(registered, k);
    }

    /** `initializeManagers`: the managers are registered in order; when
        the constructor at position `failing` throws, only those before it
        are registered and `ok` is false. */
    method InitializeManagers(failing: Option<nat>) returns (ok: bool)
      modifies this`registered
      ensures ok <==> failing.None? || failing.value >= |Registration|
      ensures registered == if ok then Registration else Registration[..failing.value]
    {
      var i := 0;
      registered := [];
      while i < |Registration|
        invariant 0 <= i <= |Registration|
        invariant failing.Some? ==> i <= failing.value
        invariant registered == Registration[..i]
      {
        if failing == Some(i) {
          return false;
        }
        registered := registered + [Registration[i]];
        i := i + 1;
      }
      ok := true;
    }

    /** The first loop of `start`: each of the asynchronous `names` that is
        registered with a `start` is started and awaited in turn; one that
        throws is logged and the next still starts. */
    method StartAsyncManagers(names: seq<Kind>, startThrows: set<Kind>, initThrows: set<Kind>)
      modifies this`calls, this`warnings
      ensures calls == old(calls) + StartCalls(registered, names, |names|)
      ensures warnings == old(warnings) + Failures(StartCalls(registered, names, |names|), startThrows, initThrows)
    {
      var i := 0;
      var made: seq<Call> := [];
      var failed: seq<Kind> := [];
      while i < |names|
        invariant 0 <= i <= |names|
        invariant made == StartCalls(registered, names, i)
        invariant failed == Failures(made, startThrows, initThrows)
        invariant calls == old(calls) && warnings == old(warnings)
      {
        var m := ManagerFor(names[i]);
        if m.Some? && HasStart(m.value) {
          var call := Started(m.value);
          FailuresSnoc(made, call, startThrows, initThrows);
          made := made + [call];
          if m.value in startThrows {
            failed := failed + [m.value];
          }
        }
        i := i + 1;
      }
      calls := calls + made;
      warnings := warnings + failed;
    }

    /** The second loop of `start`: every registered manager outside the
        asynchronous list that has an `init` is initialised, in
        registration order; one that throws is logged and the next still runs. */
    method InitRemainingManagers(startThrows: set<Kind>, initThrows: set<Kind>)
      modifies this`calls, this`warnings
      ensures calls == old(calls) + InitCalls(registered, |registered|)
      ensures warnings == old(warnings) + Failures(InitCalls(registered, |registered|), startThrows, initThrows)
    {
      var j := 0;
      var made: seq<Call> := [];
      var failed: seq<Kind> := [];
      while j < |registered|
        invariant 0 <= j <= |registered|
        invariant made == InitCalls(registered, j)
        invariant failed == Failures(made, startThrows, initThrows)
        invariant calls == old(calls) && warnings == old(warnings)
      {
        var manager := registered[j];
        if manager !in AsyncManagers && HasInit(manager) {
          var call := Initialised(manager);
          FailuresSnoc(made, call, startThrows, initThrows);
          made := made + [call];
          if manager in initThrows {
            failed := failed + [manager];
          }
        }
        j := j + 1;
      }
      calls := calls + made;
      warnings := warnings + failed;
    }

    /** `start`: the two loops, in this order; the failures logged are
        those of the calls made. */
    method Start(startThrows: set<Kind>, initThrows: set<Kind>)
      modifies this`calls, this`warnings
      ensures calls == old(calls) + StartCalls(registered, AsyncManagers, |AsyncManagers|) + InitCalls(registered, |registered|)
      ensures warnings == old(warnings) + Failures(StartCalls(registered, AsyncManagers, |AsyncManagers|), startThrows, initThrows)
                                        + Failures(InitCalls(registered, |registered|), startThrows, initThrows)
    {
      StartAsyncManagers(AsyncManagers, startThrows, initThrows);
      InitRemainingManagers(startThrows, initThrows);
    }

    /** `init`: register the managers, start them, and only then count as
        initialised and dispatch `app:initialized`; a throwing constructor
        leaves the application uninitialised, having started nothing, with
        the failure message on the loading screen (when the page has one). */
    method Init(failing: Option<nat>, startThrows: set<Kind>, initThrows: set<Kind>, hasScreen: bool)
      requires !isInitialized && calls == [] && warnings == [] && events == [] && !fallbackShown
      modifies this
      ensures isInitialized <==> failing.None? || failing.value >= |Registration|
      ensures isInitialized ==> && registered == Registration
                                && calls == StartCalls(registered, AsyncManagers, |AsyncManagers|)
                                            + InitCalls(registered, |registered|)
                                && warnings == Failures(calls, startThrows, initThrows)
                                && events == ["app:initialized"] && !fallbackShown
      ensures !isInitialized ==> calls == [] && warnings == [] && events == [] && fallbackShown == hasScreen
      ensures !isInitialized ==> registered == Registration[..failing.value]
                                 && Debug().managers == Names(Registration[..failing.value])
    {
      var ok := InitializeManagers(failing);
      if !ok {
        fallbackShown := hasScreen;
        return;
      }
      Launch(startThrows, initThrows);
      isInitialized := true;
      events := events + ["app:initialized"];
    }

    /** `start` on a fresh application: the calls it makes, and a failure
        logged for each of them that throws. */
    method Launch(startThrows: set<Kind>, initThrows: set<Kind>)
      requires calls == [] && warnings == []
      modifies this`calls, this`warnings
      ensures calls == StartCalls(registered, AsyncManagers, |AsyncManagers|) + InitCalls(registered, |registered|)
      ensures warnings == Failures(calls, startThrows, initThrows)
    {
      ghost var started := StartCalls(registered, AsyncManagers, |AsyncManagers|);
      ghost var initialised := InitCalls(registered, |registered|);
      ghost var failedStarts := Failures(started, startThrows, initThrows);
      ghost var failedInits := Failures(initialised, startThrows, initThrows);
      Start(startThrows, initThrows);
      assert [] + started == started && [] + failedStarts == failedStarts;
      FailuresAppend(started, initialised, startThrows, initThrows);
    }
  }

  /** Logging a sequence of calls in two parts logs the parts in order. */
  lemma {:induction false} FailuresAppend(a: seq<Call>, b: seq<Call>, startThrows: set<Kind>, initThrows: set<Kind>)
    ensures Failures(a + b, startThrows, initThrows) == Failures(a, startThrows, initThrows) + Failures(b, startThrows, initThrows)
    decreases |b|
  {
    if b == [] {
      assert a + b == a;
    } else {
      var front := b[..|b| - 1];
      assert (a + b)[..|a + b| - 1] == a + front;
      FailuresAppend(a, front, startThrows, initThrows);
    }
  }

  // ---------------------------------------------------------------------------
  // `utils.storage`, over a value parser and serialiser

  /** `storage.get(key, defaultValue)`: the parsed item, or the default
      when the item is missing or empty or reading or parsing throws
      (`parse` answers `None` for text it rejects). */
  function StorageGet<T>(store: Store, key: string, default: T, parse: string -> Option<T>): (r: T)
    ensures !Truthy(store.Get(key)) ==> r == default
    ensures Truthy(store.Get(key)) && parse(store.Get(key).value).None? ==> r == default
    ensures Truthy(store.Get(key)) && parse(store.Get(key).value).Some? ==> r == parse(store.Get(key).value).value
  {
    var item := store.Get(key);
    if Truthy(item) then parse(item.value).GetOr(default) else default
  }

  /** `storage.set(key, value)`: the serialised value is written, and the
      answer says whether the write succeeded. */
  function StorageSet<T>(store: Store, key: string, value: T, serialise: T -> string): (r: (Store, bool))
    ensures r.1 == store.writable
    ensures r.0 == store.Set(key, serialise(value))
  {
    (store.Set(key, serialise(value)), store.writable)
  }

  /** `storage.remove(key)`. */
  function StorageRemove(store: Store, key: string): (r: (Store, bool))
    ensures r.1 == store.writable
    ensures r.1 ==> key !in r.0.items && forall k :: k in store.items && k != key ==> k in r.0.items && r.0.items[k] == store.items[k]
    ensures r.1 ==> r.0.items.Keys == store.items.Keys - {key}
    ensures r.0.readable == store.readable && r.0.writable == store.writable
    ensures !r.1 ==> r.0 == store
  {
    if store.writable then (store.(items := store.items - {key}), true) else (store, false)
  }

  /** A value written with `set` reads back with `get` whenever storage
      works, the serialisation is non-empty and parsing undoes it; after
      `remove`, `get` answers the default. */
  lemma StorageRoundTrip<T>(store: Store, key: string, value: T, default: T,
                            serialise: T -> string, parse: string -> Option<T>)
    requires store.readable && store.writable
    requires serialise(value) != "" && parse(serialise(value)) == Some(value)
    ensures StorageGet(StorageSet(store, key, value, serialise).0, key, default, parse) == value
    ensures StorageGet(StorageRemove(store, key).0, key, default, parse) == default
  {
    GetAfterSet(store, key, serialise(value), key);
  }
}
