/** The animations of the page (assets/js/modules/animations.js): the
    typewriter in the hero section, driven by the current language, and the
    one-shot statistic counters. */
module Animations {

  /** `typewriterTexts`: the phrases per language, four in each. */
  const EnPhrases: seq<string> := ["Chen From Taiwan", "Software Engineer", "IoT Developer", "Full Stack Developer"]
  const ZhPhrases: seq<string> := ["來自台灣的陳韻帆", "軟體工程師", "物聯網開發者", "全端開發工程師"]

  function PhraseTable(): map<string, seq<string>> {
    map["en" := EnPhrases, "zh" := ZhPhrases]
  }

  /** `text.substring(0, k)`: `k` is clamped into `[0, |text|]`. */
  function Prefix(text: string, k: int): (r: string)
    ensures |r| == if k < 0 then 0 else if k > |text| then |text| else k
    ensures r <= text
  {
    if k <= 0 then "" else if k >= |text| then text else text[..k]
  }

  /** The closure state of the typewriter: `currentText`, `currentChar`, `isDeleting`. */
  datatype Typer = Typer(phrase: nat, chars: int, deleting: bool)

  const Start := Typer(0, 0, false)

  /** One run of `type`: the state after it, the text it shows, and the
      delay it sets before the next run. */
  datatype Step = Step(next: Typer, shown: string, delay: nat)

  /** `type` on the phrases of the current language. */
  function TypeStep(texts: seq<string>, t: Typer): (r: Step)
    requires t.phrase < |texts|
    ensures r.next.phrase < |texts|
    ensures r.shown == Prefix(texts[t.phrase], if t.deleting then t.chars - 1 else t.chars + 1)
    ensures !t.deleting && t.chars + 1 == |texts[t.phrase]| ==> r.next == Typer(t.phrase, t.chars + 1, true) && r.delay == 1500
    ensures t.deleting && t.chars - 1 == 0 ==> r.next == Typer((t.phrase + 1) % |texts|, 0, false) && r.delay == 500
    ensures !t.deleting && t.chars + 1 != |texts[t.phrase]| ==> r.next == t.(chars := t.chars + 1) && r.delay == 100
    ensures t.deleting && t.chars - 1 != 0 ==> r.next == t.(chars := t.chars - 1) && r.delay == 50
  {
    var text := texts[t.phrase];
    var shown := Prefix(text, if t.deleting then t.chars - 1 else t.chars + 1);
    var chars := if t.deleting then t.chars - 1 else t.chars + 1;
    var speed := if t.deleting then 50 else 100;
    if !t.deleting && chars == |text| then Step(Typer(t.phrase, chars, true), shown, 1500)
    else if t.deleting && chars == 0 then Step(Typer((t.phrase + 1) % |texts|, 0, false), shown, 500)
    else Step(t.(chars := chars), shown, speed)
  }

  predicate NonEmptyPhrases(texts: seq<string>) {
    |texts| > 0 && forall i :: 0 <= i < |texts| ==> texts[i] != ""
  }

  /** The state `type` keeps on non-empty phrases: the index is in bounds,
      a typing state has a character left to type, and a deleting one has
      one left to delete. */
  predicate Inv(texts: seq<string>, t: Typer) {
    && t.phrase < |texts|
    && (if t.deleting then 1 <= t.chars <= |texts[t.phrase]| else 0 <= t.chars < |texts[t.phrase]|)
  }

  /** What the element should show in state `t`: the first `chars`
      characters of the current phrase. */
  function Shown(texts: seq<string>, t: Typer): string
    requires t.phrase < |texts| && 0 <= t.chars <= |texts[t.phrase]|
  {
    texts[t.phrase][..t.chars]
  }

  /** Every step keeps the invariant, and what it shows is exactly the
      prefix of the (new) current phrase of length `currentChar`. */
  lemma StepKeepsInvariant(texts: seq<string>, t: Typer)
    requires NonEmptyPhrases(texts) && Inv(texts, t)
    ensures Inv(texts, TypeStep(texts, t).next)
    ensures TypeStep(texts, t).shown == Shown(texts, TypeStep(texts, t).next)
  {
  }

  /** `k` runs of `type` in a row on the same phrase list. */
  function Steps(texts: seq<string>, t: Typer, k: nat): (r: Typer)
    requires t.phrase < |texts|
    ensures r.phrase < |texts|
    decreases k
  {
    if k == 0 then t else Steps(texts, TypeStep(texts, t).next, k - 1)
  }

  lemma {:induction false} StepsAdd(texts: seq<string>, t: Typer, a: nat, b: nat)
    requires t.phrase < |texts|
    ensures Steps(texts, t, a + b) == Steps(texts, Steps(texts, t, a), b)
    decreases a
  {
    if a > 0 {
      StepsAdd(texts, TypeStep(texts, t).next, a - 1, b);
    }
  }

  lemma {:induction false} StepsKeepInvariant(texts: seq<string>, t: Typer, k: nat)
    requires NonEmptyPhrases(texts) && Inv(texts, t)
    ensures Inv(texts, Steps(texts, t, k))
    decreases k
  {
    if k > 0 {
      StepKeepsInvariant(texts, t);
      StepsKeepInvariant(texts, TypeStep(texts, t).next, k - 1);
    }
  }

  lemma {:induction false} TypingRun(texts: seq<string>, t: Typer)
    requires Inv(texts, t) && !t.deleting
    ensures Steps(texts, t, |texts[t.phrase]| - t.chars) == Typer(t.phrase, |texts[t.phrase]|, true)
    decreases |texts[t.phrase]| - t.chars
  {
    if t.chars + 1 < |texts[t.phrase]| {
      TypingRun(texts, t.(chars := t.chars + 1));
    }
  }

  lemma {:induction false} DeletingRun(texts: seq<string>, t: Typer)
    requires Inv(texts, t) && t.deleting
    ensures Steps(texts, t, t.chars) == Typer((t.phrase + 1) % |texts|, 0, false)
    decreases t.chars
  {
    if t.chars > 1 {
      DeletingRun(texts, t.(chars := t.chars - 1));
    }
  }

  /** A whole cycle: from the empty display of phrase `p`, typing it out and
      deleting it again takes twice its length in steps and ends on the empty
      display of the next phrase, wrapping round after the last. */
  lemma FullCycle(texts: seq<string>, p: nat)
    requires NonEmptyPhrases(texts) && p < |texts|
    ensures Steps(texts, Typer(p, 0, false), 2 * |texts[p]|) == Typer((p + 1) % |texts|, 0, false)
  {
    var n := |texts[p]|;
    TypingRun(texts, Typer(p, 0, false));
    StepsAdd(texts, Typer(p, 0, false), n, n);
    DeletingRun(texts, Typer(p, n, true));
  }

  /** The site's phrase lists satisfy what the typewriter needs, and they
      have the same length, so a phrase index valid in one is valid in the other. */
  lemma SitePhrases()
    ensures NonEmptyPhrases(EnPhrases) && NonEmptyPhrases(ZhPhrases)
    ensures |EnPhrases| == |ZhPhrases| == 4
    ensures Inv(EnPhrases, Start) && Inv(ZhPhrases, Start)
  {
  }

  // ---------------------------------------------------------------------------
  // A language switch as written: the running loop keeps its state

  /** While typing, a state past the end of the phrase stays past it: each
      step shows the whole phrase again, types on after 100 ms, and never
      turns to deleting. */
  lemma {:induction false} PastEndTypesForever(texts: seq<string>, t: Typer, k: nat)
    requires t.phrase < |texts| && !t.deleting && t.chars >= |texts[t.phrase]|
    ensures Steps(texts, t, k) == t.(chars := t.chars + k)
    ensures TypeStep(texts, Steps(texts, t, k)).shown == texts[t.phrase]
    ensures TypeStep(texts, Steps(texts, t, k)).delay == 100
    decreases k
  {
    if k > 0 {
      PastEndTypesForever(texts, t.(chars := t.chars + 1), k - 1);
    }
  }

  /** Switching to Chinese ten characters into "Chen From Taiwan": the loop
      goes on with eleven characters of the eight-character phrase and is
      stuck showing it for good. */
  lemma SwitchWhileTypingSticks(k: nat)
    ensures Inv(EnPhrases, Typer(0, 10, false))
    ensures !Inv(ZhPhrases, Typer(0, 10, false))
    ensures !Steps(ZhPhrases, Typer(0, 10, false), k).deleting
    ensures TypeStep(ZhPhrases, Steps(ZhPhrases, Typer(0, 10, false), k)).shown == "來自台灣的陳韻帆"
  {
    PastEndTypesForever(ZhPhrases, Typer(0, 10, false), k);
  }

  // ---------------------------------------------------------------------------
  // The typewriter element

  class Typewriter {
    const hasElement: bool
    var language: string
    var state: Typer
    /** The text content of the typewriter element. */
    var shown: string
    /** Whether a `type` timer is pending. */
    var running: bool

    /** A running loop has its element and a phrase index that both
        phrase lists have: what every run of `type` needs. */
    ghost predicate Sound()
      reads this
    {
      running ==> hasElement && state.phrase < 4
    }

    /** A sound loop that is, moreover, on phrases of the current language
        (when the table has it) and in the state `type` keeps. */
    ghost predicate Valid()
      reads this
    {
      && Sound()
      && (running && language in PhraseTable() ==>
            Inv(PhraseTable()[language], state) && shown == Shown(PhraseTable()[language], state))
    }

    /** The constructor: English, and no loop until loading completes. */
    constructor (hasElement: bool)
      ensures Valid() && this.hasElement == hasElement
      ensures language == "en" && state == Start && !running && shown == ""
    {
      this.hasElement := hasElement;
      language := "en";
      state := Start;
      shown := "";
      running := false;
    }

    /** The `loading:complete` listener of `setupTypewriter`: with the
        element present, the loop starts from the first phrase. The event is
        dispatched once, before any loop runs. */
    method LoadingComplete()
      requires Valid() && !running && shown == ""
      modifies this`running, this`state
      ensures Valid()
      ensures running == hasElement
      ensures state == (if hasElement then Start else old(state))
    {
      if hasElement {
        SitePhrases();
        running := true;
        state := Start;
        assert language in PhraseTable() ==> PhraseTable()[language] in {EnPhrases, ZhPhrases};
      }
    }

    /** One run of `type`: the next state, display and delay follow
        `TypeStep` on the current language's phrases; a language without
        phrases makes the run throw, which ends the loop. */
    method Type() returns (delay: nat)
      requires Sound() && running
      modifies this`state, this`shown, this`running
      ensures Sound()
      ensures language in PhraseTable() ==>
                var s := TypeStep(PhraseTable()[language], old(state));
                state == s.next && shown == s.shown && delay == s.delay && running
      ensures language !in PhraseTable() ==> !running && state == old(state) && shown == old(shown)
      ensures running && old(Valid()) && language in PhraseTable() ==>
                Inv(PhraseTable()[language], state) && shown == Shown(PhraseTable()[language], state)
      ensures old(Valid()) ==> Valid()
    {
      if language !in PhraseTable() {
        running := false;
        return 0;
      }
      var texts := PhraseTable()[language];
      SitePhrases();
      if Inv(texts, state) {
        StepKeepsInvariant(texts, state);
      }
      var s := TypeStep(texts, state);
      state := s.next;
      shown := s.shown;
      delay := s.delay;
    }

    /** The `language:changed` listener as written: the language changes
        and the element is cleared, but the loop keeps its phrase, character
        count and direction (the restart it schedules waits for a
        `loading:complete` event that has already been dispatched). */
    method LanguageChangedAsWritten(lang: string)
      modifies this`language, this`shown
      ensures language == lang && state == old(state) && running == old(running)
      ensures shown == (if hasElement then "" else old(shown))
      ensures old(Sound()) ==> Sound()
    {
      language := lang;
      if hasElement {
        shown := "";
      }
    }

    /** The `language:changed` listener as intended: the loop restarts from
        the first phrase of the new language on a cleared element. */
    method LanguageChanged(lang: string)
      requires Valid()
      modifies this`language, this`shown, this`state
      ensures Valid()
      ensures language == lang && state == Start && running == old(running)
      ensures shown == (if hasElement then "" else old(shown))
    {
      language := lang;
      state := Start;
      if hasElement {
        shown := "";
      }
    }
  }

  /** The switch to Chinese ten characters into "Chen From Taiwan", on the
      element itself: after the listener as written, the next run of `type`
      goes on to eleven characters, shows the whole Chinese phrase, keeps
      typing after 100 ms, and leaves the loop outside the state `type`
      keeps. */
  method SwitchMidPhraseAsWritten(tw: Typewriter) returns (delay: nat)
    requires tw.Valid() && tw.running && tw.language == "en" && tw.state == Typer(0, 10, false)
    modifies tw
    ensures tw.running && tw.language == "zh" && tw.state == Typer(0, 11, false)
    ensures tw.shown == "來自台灣的陳韻帆" && delay == 100
    ensures !tw.Valid()
  {
    tw.LanguageChangedAsWritten("zh");
    delay := tw.Type();
    assert !Inv(ZhPhrases, tw.state);
  }

  // ---------------------------------------------------------------------------
  // The statistic counters

  /** The counters' observer: which counters it still watches and the order
      in which counters were started. */
  class CounterObserver {
    var observed: set<nat>
    var animated: seq<nat>

    ghost predicate Valid()
      reads this
    {
      && (forall i, j :: 0 <= i < j < |animated| ==> animated[i] != animated[j])
      && (forall i :: 0 <= i < |animated| ==> animated[i] !in observed)
    }

    /** `setupCounters`: every counter on the page is observed. */
    constructor (counters: set<nat>)
      ensures Valid() && observed == counters && animated == []
    {
      observed := counters;
      animated := [];
    }

    /** One observer entry for a watched counter: on intersection the
        counter is animated and no longer watched. */
    method Deliver(counter: nat, intersecting: bool)
      requires Valid() && counter in observed
      modifies this
      ensures Valid()
      ensures intersecting ==> animated == old(animated) + [counter] && observed == old(observed) - {counter}
      ensures !intersecting ==> animated == old(animated) && observed == old(observed)
    {
      if intersecting {
        animated := animated + [counter];
        observed := observed - {counter};
      }
    }
  }

  /** A sequence without repeats holds each value at most once. */
  lemma {:induction false} DistinctOnce(s: seq<nat>, c: nat)
    requires forall i, j :: 0 <= i < j < |s| ==> s[i] != s[j]
    ensures multiset(s)[c] <= 1
    ensures c !in s ==> multiset(s)[c] == 0
  {
    if s != [] {
      DistinctOnce(s[1..], c);
      assert s == [s[0]] + s[1..];
      assert multiset(s) == multiset([s[0]]) + multiset(s[1..]);
      if s[0] == c {
        assert c !in s[1..] by {
          forall k | 0 <= k < |s[1..]|
            ensures s[1..][k] != c
          {
            assert s[1..][k] == s[k + 1];
          }
        }
      }
    }
  }

  /** Counter animations never repeat: the start order holds each counter at most once. */
  lemma AnimatedAtMostOnce(o: CounterObserver, c: nat)
    requires o.Valid()
    ensures multiset(o.animated)[c] <= 1
  {
    DistinctOnce(o.animated, c);
  }
}
